/**
 db_impl.cc DBImpl::RecoverLogFile: from the bytes of a log file to level-0 tables.
 */
module LogRecovery {
  import opened Entries
  import opened Compactions
  import opened CompactionWork
  import opened Coding
  import opened DbFormat
  import opened LogFormat
  import opened LogReader
  import opened LogRoundTrip
  import opened Durable
  import opened WriteBatches

  function EncodeBatches(u: UserCodec, batches: seq<seq<Entry>>): seq<Bytes> {
    seq(|batches|, i requires 0 <= i < |batches| => BatchBytes(u, batches[i]))
  }

  predicate AllBatchable(u: UserCodec, batches: seq<seq<Entry>>) {
    forall i :: 0 <= i < |batches| ==> Batchable(u, batches[i])
  }

  /** The entries each record leaves in a memtable; a record too small to be a batch is dropped. */
  function DecodeBatches(u: UserCodec, records: seq<Bytes>): seq<seq<Entry>> {
    if records == [] then []
    else
      var last := records[|records| - 1];
      DecodeBatches(u, records[..|records| - 1]) + (if |last| < HEADER then [] else [EntriesIn(u, last)])
  }

  /** The largest last sequence number the headers of the records give. */
  function MaxLast(records: seq<Bytes>): nat {
    if records == [] then 0
    else
      var before, last := MaxLast(records[..|records| - 1]), records[|records| - 1];
      if |last| < HEADER then before else Max(LastOf(last), before)
  }

  function Max(a: nat, b: nat): nat {
    if a > b then a else b
  }

  function LargestSeqno(es: seq<Entry>): nat {
    if es == [] then 0 else Max(es[|es| - 1].ikey.seqno, LargestSeqno(es[..|es| - 1]))
  }

  /** Every record is replayed by itself; one too small for a batch is passed over, and what follows it is not. */
  lemma {:induction false} RecordsAreApart(u: UserCodec, a: seq<Bytes>, b: seq<Bytes>)
    ensures DecodeBatches(u, a + b) == DecodeBatches(u, a) + DecodeBatches(u, b)
    ensures MaxLast(a + b) == Max(MaxLast(a), MaxLast(b))
    decreases |b|
  {
    hide EntriesIn, LastOf;
    if b == [] {
      assert a + b == a && DecodeBatches(u, a) + [] == DecodeBatches(u, a);
    } else {
      var front := b[..|b| - 1];
      assert (a + b)[..|a + b| - 1] == a + front;
      RecordsAreApart(u, a, front);
    }
  }

  lemma {:induction false} OneRecordReplayed(u: UserCodec, record: Bytes)
    ensures DecodeBatches(u, [record]) == if |record| < 12 then [] else [EntriesIn(u, record)]
    ensures MaxLast([record]) == if |record| < 12 then 0 else LastOf(record)
  {
    hide EntriesIn, LastOf;
    assert [record][..0] == [];
  }

  lemma {:induction false} MaxSeqnoAppend(a: seq<Entry>, b: seq<Entry>)
    ensures LargestSeqno(a + b) == Max(LargestSeqno(b), LargestSeqno(a))
  {
    if b == [] {
      assert a + b == a;
    } else {
      MaxSeqnoAppend(a, b[..|b| - 1]);
      assert (a + b)[..|a + b| - 1] == a + b[..|b| - 1];
    }
  }

  lemma {:induction false} BatchMaxSeqno(u: UserCodec, es: seq<Entry>)
    requires Batchable(u, es)
    ensures LargestSeqno(es) == es[|es| - 1].ikey.seqno
  {
    hide Fitting;
    MaxOfNumbered(es, |es|);
    assert es[..|es|] == es;
  }

  lemma {:induction false} MaxOfNumbered(es: seq<Entry>, n: nat)
    requires 0 < n <= |es| && forall i :: 0 <= i < |es| ==> es[i].ikey.seqno == es[0].ikey.seqno + i
    ensures LargestSeqno(es[..n]) == es[0].ikey.seqno + n - 1
  {
    assert es[..n][..n - 1] == es[..n - 1];
    if n == 1 {
      assert LargestSeqno(es[..0]) == 0;
    } else {
      MaxOfNumbered(es, n - 1);
    }
  }

  lemma {:induction false} BatchesRoundTrip(u: UserCodec, batches: seq<seq<Entry>>)
    requires GoodUserCodec(u) && AllBatchable(u, batches)
    ensures DecodeBatches(u, EncodeBatches(u, batches)) == batches
    ensures MaxLast(EncodeBatches(u, batches)) == LargestSeqno(Concat(batches))
  {
    hide *;
    if batches == [] {
      NoBatches(u);
    } else {
      var n := |batches| - 1;
      LastBatch(u, batches);
      BatchesRoundTrip(u, batches[..n]);
      DecodeOneMore(u, EncodeBatches(u, batches), n);
      BatchReadBack(u, batches[n]);
      BatchMaxSeqno(u, batches[n]);
      MaxSeqnoAppend(Concat(batches[..n]), batches[n]);
      ConcatAppend(batches[..n], batches[n]);
    }
  }

  lemma {:induction false} NoBatches(u: UserCodec)
    ensures DecodeBatches(u, EncodeBatches(u, [])) == []
    ensures MaxLast(EncodeBatches(u, [])) == LargestSeqno(Concat([]))
  {
    assert EncodeBatches(u, []) == [];
  }

  lemma {:induction false} LastBatch(u: UserCodec, batches: seq<seq<Entry>>)
    requires batches != [] && AllBatchable(u, batches)
    ensures var n, records := |batches| - 1, EncodeBatches(u, batches);
            && AllBatchable(u, batches[..n]) && Batchable(u, batches[n]) && batches == batches[..n] + [batches[n]]
            && |records| == n + 1 && records[n] == BatchBytes(u, batches[n])
            && records[..n] == EncodeBatches(u, batches[..n]) && records[..n + 1] == records
  {
    hide Batchable;
    hide BatchBytes;
  }

  /**
   What a crash leaves of a log decodes to exactly the batches whose records are complete, and their headers give the
   last sequence number.
   */
  lemma {:induction false} CompleteBatches(crc: Crc, u: UserCodec, written: seq<seq<Entry>>, n: nat, m: nat)
    requires GoodUserCodec(u) && AllBatchable(u, written)
    requires n <= |LogBytes(crc, EncodeBatches(u, written))|
    requires WhollyInside(Starts(crc, EncodeBatches(u, written)), n, m)
    ensures var file := LogBytes(crc, EncodeBatches(u, written))[..n];
            var records := ReadAll(Reading(crc, file, 0), n, 0, false, 0);
            DecodeBatches(u, records) == written[..m] && MaxLast(records) == LargestSeqno(Concat(written[..m]))
  {
    hide GoodUserCodec;
    hide Batchable;
    hide BatchBytes;
    hide DecodeBatches;
    hide MaxLast;
    hide LargestSeqno;
    hide Concat;
    hide LogBytes;
    hide ReadAll;
    hide Reading;
    TornLogReadsWholeRecords(crc, EncodeBatches(u, written), n, m);
    assert EncodeBatches(u, written)[..m] == EncodeBatches(u, written[..m]);
    BatchesRoundTrip(u, written[..m]);
  }

  lemma {:induction false} ElemsPlus(es: seq<Entry>, x: Entry)
    ensures Elems(es + [x]) == Elems(es) + {x}
  {
  }

  lemma {:induction false} InsertEntryAdds(mem: seq<Entry>, e: Entry)
    ensures Elems(InsertEntry(mem, e)) == Elems(mem) + {e}
  {
    if mem != [] {
      var front, last := mem[..|mem| - 1], mem[|mem| - 1];
      assert mem == front + [last];
      InsertEntryAdds(front, e);
      ElemsPlus(front, last);
      ElemsPlus(mem, e);
      ElemsPlus(InsertEntry(front, e), last);
    }
  }

  lemma {:induction false} InsertAllAdds(mem: seq<Entry>, batch: seq<Entry>)
    ensures Elems(InsertAll(mem, batch)) == Elems(mem) + Elems(batch)
  {
    if batch != [] {
      assert batch == batch[..|batch| - 1] + [batch[|batch| - 1]];
      InsertAllAdds(mem, batch[..|batch| - 1]);
      InsertEntryAdds(InsertAll(mem, batch[..|batch| - 1]), batch[|batch| - 1]);
    }
  }

  /** The memtables written out, each as a table, and the stretch of the log each one holds. */
  ghost predicate Dumped(tables: seq<seq<Entry>>, groups: seq<seq<Entry>>) {
    && |tables| == |groups|
    && forall i :: 0 <= i < |tables| ==>
         tables[i] == InsertAll([], groups[i]) && tables[i] != [] && groups[i] != []
             && Elems(tables[i]) == Elems(groups[i])
  }

  lemma {:induction false} InsertAllMore(mem: seq<Entry>, a: seq<Entry>, b: seq<Entry>)
    ensures InsertAll(mem, a + b) == InsertAll(InsertAll(mem, a), b)
  {
    if b == [] {
      assert a + b == a;
    } else {
      InsertAllMore(mem, a, b[..|b| - 1]);
      assert (a + b)[..|a + b| - 1] == a + b[..|b| - 1];
    }
  }

  lemma {:induction false} EmptyMemtable(group: seq<Entry>)
    ensures InsertAll([], group) == [] <==> group == []
    ensures Elems(InsertAll([], group)) == Elems(group)
  {
    InsertAllAdds([], group);
    if group != [] {
      assert group[0] in Elems(group);
    }
  }

  lemma {:induction false} OneMoreDumped(tables: seq<seq<Entry>>, groups: seq<seq<Entry>>, group: seq<Entry>)
    requires Dumped(tables, groups) && group != []
    ensures Dumped(tables + [InsertAll([], group)], groups + [group])
  {
    EmptyMemtable(group);
    hide InsertAll;
  }

  /** WriteLevel0Table on the memtable: an empty one leaves no table. */
  method Dump(mem: seq<Entry>, tables: seq<seq<Entry>>, ghost groups: seq<seq<Entry>>, ghost group: seq<Entry>)
    returns (tables2: seq<seq<Entry>>, ghost groups2: seq<seq<Entry>>)
    requires Dumped(tables, groups) && mem == InsertAll([], group)
    ensures Dumped(tables2, groups2) && Concat(groups2) == Concat(groups) + group
    ensures tables2 == if mem == [] then tables else tables + [mem]
    ensures groups2 == if mem == [] then groups else groups + [group]
  {
    hide *;
    tables2, groups2 := tables, groups;
    EmptyMemtable(group);
    if mem != [] {
      OneMoreDumped(tables, groups, group);
      tables2, groups2 := tables + [mem], groups + [group];
      ConcatAppend(groups, group);
    } else {
      assert Concat(groups) + [] == Concat(groups);
    }
  }

  /** What RecoverLogFile holds after some batches. */
  ghost predicate ReplayedSoFar(tables: seq<seq<Entry>>, groups: seq<seq<Entry>>, mem: seq<Entry>, group: seq<Entry>,
          batches: seq<seq<Entry>>) {
    Dumped(tables, groups) && mem == InsertAll([], group) && Concat(groups) + group == Concat(batches)
  }

  lemma {:induction false} OneMoreBatch(tables: seq<seq<Entry>>, groups: seq<seq<Entry>>, mem: seq<Entry>,
          group: seq<Entry>, batches: seq<seq<Entry>>, batch: seq<Entry>)
    requires ReplayedSoFar(tables, groups, mem, group, batches)
    ensures ReplayedSoFar(tables, groups, InsertAll(mem, batch), group + batch, batches + [batch])
  {
    hide Dumped;
    ConcatAppend(batches, batch);
    InsertAllMore([], group, batch);
    hide Concat;
    hide InsertAll;
    assert Concat(groups) + group + batch == Concat(groups) + (group + batch);
  }

  /** No memtable was too big to take the next batch, between the entries numbered lo and hi of the log. */
  ghost predicate NotEarlier(batches: seq<seq<Entry>>, lo: nat, hi: nat, writeBufferSize: nat,
      usage: seq<Entry> -> nat) {
    forall n :: 0 <= n <= |batches| && lo < |Concat(batches[..n])| < hi ==>
      usage(InsertAll([], Concat(batches[..n])[lo..])) <= writeBufferSize
  }

  /** Each table but for the last was written out because it had grown beyond the write buffer. */
  ghost predicate CutBySize(batches: seq<seq<Entry>>, tables: seq<seq<Entry>>, groups: seq<seq<Entry>>, closed: nat,
      writeBufferSize: nat, usage: seq<Entry> -> nat) {
    && |tables| == |groups|
    && (forall i :: 0 <= i < closed && i < |tables| ==> usage(tables[i]) > writeBufferSize)
    && (forall i :: 0 <= i < |groups| ==>
          NotEarlier(batches, |Concat(groups[..i])|, |Concat(groups[..i + 1])|, writeBufferSize, usage))
  }

  lemma {:induction false} ConcatOfFront(parts: seq<seq<Entry>>, n: nat)
    requires n <= |parts|
    ensures |Concat(parts[..n])| <= |Concat(parts)|
    decreases |parts|
  {
    if n == |parts| {
      assert parts[..n] == parts;
    } else {
      ConcatOfFront(parts[..|parts| - 1], n);
      assert parts[..|parts| - 1][..n] == parts[..n];
    }
  }

  lemma {:induction false} StillNotEarlier(batches: seq<seq<Entry>>, batch: seq<Entry>, lo: nat, hi: nat,
          writeBufferSize: nat, usage: seq<Entry> -> nat)
    requires NotEarlier(batches, lo, hi, writeBufferSize, usage) && hi <= |Concat(batches)|
    ensures NotEarlier(batches + [batch], lo, hi, writeBufferSize, usage)
  {
    hide Concat, InsertAll;
    var more := batches + [batch];
    ConcatAppend(batches, batch);
    assert more[..|more|] == more;
    forall n | 0 <= n <= |more| && lo < |Concat(more[..n])| < hi
      ensures usage(InsertAll([], Concat(more[..n])[lo..])) <= writeBufferSize
    {
      assert n <= |batches|;
      assert more[..n] == batches[..n];
    }
  }

  /** One more batch: the tables written so far stay as they are, and the memtable takes it. */
  lemma {:induction false} CutsStay(batches: seq<seq<Entry>>, batch: seq<Entry>, tables: seq<seq<Entry>>,
          groups: seq<seq<Entry>>, writeBufferSize: nat, usage: seq<Entry> -> nat)
    requires CutBySize(batches, tables, groups, |tables|, writeBufferSize, usage)
    requires |Concat(groups)| <= |Concat(batches)|
    ensures CutBySize(batches + [batch], tables, groups, |tables|, writeBufferSize, usage)
  {
    hide Concat, NotEarlier;
    forall i | 0 <= i < |groups|
      ensures NotEarlier(batches + [batch], |Concat(groups[..i])|, |Concat(groups[..i + 1])|, writeBufferSize, usage)
    {
      ConcatOfFront(groups, i + 1);
      StillNotEarlier(batches, batch, |Concat(groups[..i])|, |Concat(groups[..i + 1])|, writeBufferSize, usage);
    }
  }

  /** The memtable has taken a batch: until then it was not too big, whatever it is now. */
  lemma {:induction false} MemTakesBatch(batches: seq<seq<Entry>>, batch: seq<Entry>, lo: nat, group: seq<Entry>,
          writeBufferSize: nat, usage: seq<Entry> -> nat)
    requires lo + |group| == |Concat(batches + [batch])| && Concat(batches + [batch])[lo..] == group
    requires lo <= |Concat(batches)| && NotEarlier(batches, lo, |Concat(batches)| + 1, writeBufferSize, usage)
    ensures NotEarlier(batches + [batch], lo, lo + |group|, writeBufferSize, usage)
    ensures usage(InsertAll([], group)) <= writeBufferSize ==>
              NotEarlier(batches + [batch], lo, lo + |group| + 1, writeBufferSize, usage)
  {
    hide Concat, InsertAll;
    var more := batches + [batch];
    assert more[..|more|] == more;
    forall n | 0 <= n <= |more| && lo < |Concat(more[..n])| < lo + |group|
      ensures usage(InsertAll([], Concat(more[..n])[lo..])) <= writeBufferSize
    {
      assert n <= |batches|;
      assert more[..n] == batches[..n];
      ConcatOfFront(batches, n);
    }
    if usage(InsertAll([], group)) <= writeBufferSize {
      forall n | 0 <= n <= |more| && lo < |Concat(more[..n])| < lo + |group| + 1
        ensures usage(InsertAll([], Concat(more[..n])[lo..])) <= writeBufferSize
      {
        if |Concat(more[..n])| == lo + |group| {
          SameFront(more, n, lo, group);
        }
      }
    }
  }

  /** A front with all the entries is all of them. */
  lemma {:induction false} SameFront(parts: seq<seq<Entry>>, n: nat, lo: nat, group: seq<Entry>)
    requires n <= |parts| && lo + |group| == |Concat(parts)| && Concat(parts)[lo..] == group
    requires |Concat(parts[..n])| == lo + |group|
    ensures Concat(parts[..n])[lo..] == group
  {
    ConcatIsPrefix(parts, n);
  }

  lemma {:induction false} ConcatIsPrefix(parts: seq<seq<Entry>>, n: nat)
    requires n <= |parts|
    ensures Concat(parts[..n]) <= Concat(parts)
    decreases |parts|
  {
    if n == |parts| {
      assert parts[..n] == parts;
    } else {
      ConcatIsPrefix(parts[..|parts| - 1], n);
      assert parts[..|parts| - 1][..n] == parts[..n];
    }
  }

  /** The memtable is written out. */
  lemma {:induction false} OneMoreCut(batches: seq<seq<Entry>>, tables: seq<seq<Entry>>, groups: seq<seq<Entry>>,
          table: seq<Entry>, group: seq<Entry>, writeBufferSize: nat, usage: seq<Entry> -> nat)
    requires CutBySize(batches, tables, groups, |tables|, writeBufferSize, usage)
    requires NotEarlier(batches, |Concat(groups)|, |Concat(groups)| + |group|, writeBufferSize, usage)
    ensures CutBySize(batches, tables + [table], groups + [group], |tables|, writeBufferSize, usage)
    ensures usage(table) > writeBufferSize ==>
              CutBySize(batches, tables + [table], groups + [group], |tables| + 1, writeBufferSize, usage)
  {
    hide Concat, NotEarlier;
    ConcatAppend(groups, group);
    var more := groups + [group];
    forall i | 0 <= i < |more|
      ensures NotEarlier(batches, |Concat(more[..i])|, |Concat(more[..i + 1])|, writeBufferSize, usage)
    {
      if i < |groups| {
        assert more[..i] == groups[..i] && more[..i + 1] == groups[..i + 1];
      } else {
        assert more[..i] == groups && more[..i + 1] == more;
      }
    }
  }

  /** The tables written so far, and a memtable that is not too big. */
  ghost predicate CutSoFar(batches: seq<seq<Entry>>, tables: seq<seq<Entry>>, groups: seq<seq<Entry>>,
      writeBufferSize: nat, usage: seq<Entry> -> nat) {
    && CutBySize(batches, tables, groups, |tables|, writeBufferSize, usage)
    && NotEarlier(batches, |Concat(groups)|, |Concat(batches)| + 1, writeBufferSize, usage)
  }

  lemma {:induction false} NothingCut(batches: seq<seq<Entry>>, writeBufferSize: nat, usage: seq<Entry> -> nat)
    requires Concat(batches) == []
    ensures CutSoFar(batches, [], [], writeBufferSize, usage)
  {
    hide InsertAll;
    forall n | 0 <= n <= |batches| ensures |Concat(batches[..n])| == 0 {
      ConcatOfFront(batches, n);
    }
  }

  /** The batch is in the memtable, which may now be too big; the cuts before it stand. */
  lemma {:induction false} CutsWithBatch(batches: seq<seq<Entry>>, batch: seq<Entry>, tables: seq<seq<Entry>>,
          groups: seq<seq<Entry>>, mem: seq<Entry>, group: seq<Entry>, writeBufferSize: nat, usage: seq<Entry> -> nat)
    requires CutSoFar(batches, tables, groups, writeBufferSize, usage)
    requires ReplayedSoFar(tables, groups, mem, group, batches)
    ensures CutBySize(batches + [batch], tables, groups, |tables|, writeBufferSize, usage)
    ensures NotEarlier(batches + [batch], |Concat(groups)|, |Concat(groups)| + |group + batch|, writeBufferSize, usage)
    ensures usage(InsertAll([], group + batch)) <= writeBufferSize ==>
              CutSoFar(batches + [batch], tables, groups, writeBufferSize, usage)
  {
    hide CutBySize, NotEarlier, Dumped, Concat, InsertAll;
    ConcatAppend(batches, batch);
    CutsStay(batches, batch, tables, groups, writeBufferSize, usage);
    assert Concat(groups) + group + batch == Concat(groups) + (group + batch);
    MemTakesBatch(batches, batch, |Concat(groups)|, group + batch, writeBufferSize, usage);
  }

  /** The memtable is too big and is written out; an empty one leaves no table. */
  lemma {:induction false} CutHere(batches: seq<seq<Entry>>, tables: seq<seq<Entry>>, groups: seq<seq<Entry>>,
          mem: seq<Entry>, group: seq<Entry>, writeBufferSize: nat, usage: seq<Entry> -> nat)
    requires ReplayedSoFar(tables, groups, mem, group, batches) && usage(mem) > writeBufferSize
    requires CutBySize(batches, tables, groups, |tables|, writeBufferSize, usage)
    requires NotEarlier(batches, |Concat(groups)|, |Concat(groups)| + |group|, writeBufferSize, usage)
    ensures CutSoFar(batches, tables + [mem], groups + [group], writeBufferSize, usage)
    ensures mem == [] ==> CutSoFar(batches, tables, groups, writeBufferSize, usage)
  {
    hide CutBySize, Dumped, Concat, InsertAll;
    EmptyMemtable(group);
    OneMoreCut(batches, tables, groups, mem, group, writeBufferSize, usage);
    ConcatAppend(groups, group);
    forall n | 0 <= n <= |batches| ensures |Concat(batches[..n])| <= |Concat(batches)| {
      ConcatOfFront(batches, n);
    }
    assert forall n :: 0 <= n <= |batches| && |Concat(batches)| < |Concat(batches[..n])| ==> false;
  }

  lemma {:induction false} LastCut(batches: seq<seq<Entry>>, tables: seq<seq<Entry>>, groups: seq<seq<Entry>>,
          mem: seq<Entry>, group: seq<Entry>, writeBufferSize: nat, usage: seq<Entry> -> nat)
    requires ReplayedSoFar(tables, groups, mem, group, batches)
    requires CutSoFar(batches, tables, groups, writeBufferSize, usage)
    ensures CutBySize(batches, tables + [mem], groups + [group], |tables|, writeBufferSize, usage)
    ensures CutBySize(batches, tables, groups, if tables == [] then 0 else |tables| - 1, writeBufferSize, usage)
  {
    hide NotEarlier, Dumped, Concat, InsertAll;
    assert |Concat(groups)| + |group| == |Concat(batches)|;
    NarrowerNotEarlier(batches, |Concat(groups)|, |Concat(batches)|, writeBufferSize, usage);
    OneMoreCut(batches, tables, groups, mem, group, writeBufferSize, usage);
  }

  lemma {:induction false} NarrowerNotEarlier(batches: seq<seq<Entry>>, lo: nat, hi: nat, writeBufferSize: nat,
          usage: seq<Entry> -> nat)
    requires NotEarlier(batches, lo, hi + 1, writeBufferSize, usage)
    ensures NotEarlier(batches, lo, hi, writeBufferSize, usage)
  {
    hide Concat, InsertAll;
  }

  /**
   RecoverLogFile, with the default of ignoring the faults it finds. `usage` stands for ApproximateMemoryUsage. The
   tables hold what the log's records give, cut into consecutive stretches: after the first batch that makes the
   memtable bigger than the write buffer, and nowhere else but at the end.
   */
  method RecoverLogFile(crc: Crc, u: UserCodec, file: Bytes, writeBufferSize: nat, usage: seq<Entry> -> nat)
    returns (tables: seq<seq<Entry>>, maxSequence: nat, ghost groups: seq<seq<Entry>>)
    ensures var records := ReadAll(Reading(crc, file, 0), |file|, StartBlock(0), false, 0);
            && Dumped(tables, groups) && Concat(groups) == Concat(DecodeBatches(u, records))
            && maxSequence == MaxLast(records)
            && CutBySize(DecodeBatches(u, records), tables, groups, if tables == [] then 0 else |tables| - 1,
                 writeBufferSize, usage)
  {
    hide *;
    var records, _ := ReadLog(crc, file, 0);
    tables, groups, maxSequence := [], [], 0;
    var mem: seq<Entry> := [];
    ghost var group: seq<Entry> := [];
    NothingReplayed(u, records);
    NothingCut(DecodeBatches(u, records[..0]), writeBufferSize, usage);
    for i := 0 to |records|
      invariant ReplayedSoFar(tables, groups, mem, group, DecodeBatches(u, records[..i]))
      invariant CutSoFar(DecodeBatches(u, records[..i]), tables, groups, writeBufferSize, usage)
      invariant maxSequence == MaxLast(records[..i])
    {
      var record := records[i];
      DecodeOneMore(u, records, i);
      if |record| < HEADER {
        continue;
      }
      ghost var batches, batch := DecodeBatches(u, records[..i]), EntriesIn(u, record);
      OneMoreBatch(tables, groups, mem, group, batches, batch);
      CutsWithBatch(batches, batch, tables, groups, mem, group, writeBufferSize, usage);
      var ok;
      mem, ok := InsertInto(u, record, mem);
      group := group + batch;
      MaxIs(LastOf(record), maxSequence);
      var last := LastOf(record);
      if last > maxSequence {
        maxSequence := last;
      }
      WrittenOut(tables, groups, mem, group, batches + [batch]);
      if usage(mem) > writeBufferSize {
        CutHere(batches + [batch], tables, groups, mem, group, writeBufferSize, usage);
        tables, groups := Dump(mem, tables, groups, group);
        mem, group := [], [];
        NewMemtable(tables, groups, batches + [batch]);
      }
    }
    assert records[..|records|] == records;
    WrittenOut(tables, groups, mem, group, DecodeBatches(u, records));
    LastCut(DecodeBatches(u, records), tables, groups, mem, group, writeBufferSize, usage);
    tables, groups := Dump(mem, tables, groups, group);
  }

  lemma {:induction false} MaxIs(a: nat, b: nat)
    ensures Max(a, b) == if a > b then a else b
  {
  }

  lemma {:induction false} WrittenOut(tables: seq<seq<Entry>>, groups: seq<seq<Entry>>, mem: seq<Entry>,
          group: seq<Entry>, batches: seq<seq<Entry>>)
    requires ReplayedSoFar(tables, groups, mem, group, batches)
    ensures Dumped(tables, groups) && mem == InsertAll([], group) && Concat(groups) + group == Concat(batches)
  {
    hide Dumped;
  }

  lemma {:induction false} NewMemtable(tables: seq<seq<Entry>>, groups: seq<seq<Entry>>, batches: seq<seq<Entry>>)
    requires Dumped(tables, groups) && Concat(groups) == Concat(batches)
    ensures ReplayedSoFar(tables, groups, [], [], batches)
  {
    hide Dumped;
    hide Concat;
    assert Concat(groups) + [] == Concat(groups);
  }

  lemma {:induction false} NothingReplayed(u: UserCodec, records: seq<Bytes>)
    ensures ReplayedSoFar([], [], [], [], DecodeBatches(u, records[..0])) && MaxLast(records[..0]) == 0
    ensures Concat(DecodeBatches(u, records[..0])) == []
  {
  }

  lemma {:induction false} DecodeOneMore(u: UserCodec, records: seq<Bytes>, i: nat)
    requires i < |records|
    ensures |records[i]| < HEADER ==>
              DecodeBatches(u, records[..i + 1]) == DecodeBatches(u, records[..i])
              && MaxLast(records[..i + 1]) == MaxLast(records[..i])
    ensures |records[i]| >= HEADER ==>
              DecodeBatches(u, records[..i + 1]) == DecodeBatches(u, records[..i]) + [EntriesIn(u, records[i])]
              && MaxLast(records[..i + 1]) == Max(LastOf(records[i]), MaxLast(records[..i]))
  {
    assert records[..i + 1][..i] == records[..i];
    hide EntriesIn;
    hide LastOf;
  }
}
