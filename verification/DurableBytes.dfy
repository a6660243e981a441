/**
 Crash recovery from the bytes: the manifest and each log are any prefix a crash may leave of what was written, read
 back by VersionSet::Recover and RecoverLogFile.
 */
module DurableBytes {
  import opened Entries
  import opened Files
  import opened Versions
  import opened Compactions
  import opened Transitions
  import opened Engine
  import opened LogFormat
  import opened LogReader
  import opened LogRoundTrip
  import opened VersionEdits
  import opened VersionBuilder
  import opened Manifest
  import opened ManifestReplay
  import opened DbFormat
  import opened WriteBatches
  import opened LogRecovery
  import opened Durable
  import opened DurableFiles
  import opened DurableProof
  import opened DurableRecovery
  import opened DurableAdds
  import opened DurableRuns
  import opened DurableReopen

  // ----- files as bytes

  datatype LogFile = LogFile(number: nat, bytes: Bytes)

  /** What is left of a log of these records, m of them whole. */
  ghost predicate IsTorn(crc: Crc, records: seq<Bytes>, bytes: Bytes, m: nat) {
    && |bytes| <= |LogBytes(crc, records)| && bytes == LogBytes(crc, records)[..|bytes|]
    && WhollyInside(Starts(crc, records), |bytes|, m)
  }

  ghost predicate TornLog(crc: Crc, u: UserCodec, written: seq<seq<Entry>>, batches: seq<seq<Entry>>, bytes: Bytes) {
    AllBatchable(u, written) && batches <= written && IsTorn(crc, EncodeBatches(u, written), bytes, |batches|)
  }

  ghost predicate TornManifest(crc: Crc, c: KeyCodec, written: seq<Edit>, edits: seq<Edit>, bytes: Bytes) {
    AllValid(c, written) && edits <= written && IsTorn(crc, EncodeAll(c, written), bytes, |edits|)
  }

  /** The file of a log: its whole records are the log's batches. */
  ghost predicate IsLogFile(crc: Crc, u: UserCodec, log: Log, file: LogFile) {
    file.number == log.number && exists written :: TornLog(crc, u, written, log.batches, file.bytes)
  }

  ghost predicate AreLogFiles(crc: Crc, u: UserCodec, logs: seq<Log>, files: seq<LogFile>) {
    |files| == |logs| && forall i :: 0 <= i < |logs| ==> IsLogFile(crc, u, logs[i], files[i])
  }

  ghost predicate IsManifest(crc: Crc, c: KeyCodec, edits: seq<Edit>, bytes: Bytes) {
    exists written :: TornManifest(crc, c, written, edits, bytes)
  }

  // ----- the manifest

  lemma {:induction false} TornRecords(crc: Crc, records: seq<Bytes>, bytes: Bytes, m: nat)
    requires IsTorn(crc, records, bytes, m)
    ensures m <= |records| && ReadAll(Reading(crc, bytes, 0), |bytes|, StartBlock(0), false, 0) == records[..m]
  {
    TornLogReadsWholeRecords(crc, records, |bytes|, m);
    hide LogBytes;
    hide ReadAll;
    hide Reading;
  }

  lemma {:induction false} EncodedPrefix(c: KeyCodec, written: seq<Edit>, edits: seq<Edit>)
    requires edits <= written && AllValid(c, written)
    ensures EncodeAll(c, written)[..|edits|] == EncodeAll(c, edits) && AllValid(c, edits)
  {
    hide ValidEdit;
    hide Encode;
  }

  /** Recovery over the manifest's bytes gives what its whole records say. */
  lemma {:induction false} ManifestReadsBack(crc: Crc, c: KeyCodec, disk: Disk, bytes: Bytes)
    requires GoodCodec(c) && IsManifest(crc, c, disk.edits, bytes) && SameComparator([], disk.edits)
    requires var n := ReadBack(disk).numbers; n.nextFile.Some? && n.logNumber.Some? && n.lastSequence.Some?
    ensures var m := ReadBack(disk);
            RecoverResult([], DecodeAll(c, ReadAll(Reading(crc, bytes, 0), |bytes|, StartBlock(0), false, 0))) ==
              Some(m.(numbers := WithPrevLog(m.numbers)))
  {
    var written :| TornManifest(crc, c, written, disk.edits, bytes);
    hide IsTorn;
    hide ReadAll;
    hide Reading;
    hide SameComparator;
    hide Replayed;
    hide DecodeAll;
    hide AllValid;
    hide GoodCodec;
    TornRecords(crc, EncodeAll(c, written), bytes, |disk.edits|);
    EncodedPrefix(c, written, disk.edits);
    hide EncodeAll;
    DecodesAll(c, disk.edits);
  }

  // ----- the logs

  /** The entries and the last sequence number a log file gives. */
  lemma {:induction false} LogReadsBack(crc: Crc, u: UserCodec, log: Log, file: LogFile)
    requires GoodUserCodec(u) && IsLogFile(crc, u, log, file)
    ensures var records := ReadAll(Reading(crc, file.bytes, 0), |file.bytes|, StartBlock(0), false, 0);
            DecodeBatches(u, records) == log.batches && MaxLast(records) == LargestSeqno(Concat(log.batches))
  {
    var written :| TornLog(crc, u, written, log.batches, file.bytes);
    hide GoodUserCodec;
    hide AllBatchable;
    hide ReadAll;
    hide Reading;
    hide LogBytes;
    hide DecodeBatches;
    hide MaxLast;
    hide LargestSeqno;
    hide Concat;
    hide EncodeBatches;
    CompleteBatches(crc, u, written, |file.bytes|, |log.batches|);
  }

  lemma {:induction false} DumpedAppends(tables: seq<seq<Entry>>, groups: seq<seq<Entry>>, tables2: seq<seq<Entry>>,
          groups2: seq<seq<Entry>>)
    requires Dumped(tables, groups) && Dumped(tables2, groups2)
    ensures Dumped(tables + tables2, groups + groups2)
  {
    hide Durable.InsertAll;
    hide Elems;
  }

  lemma {:induction false} NothingDumped(logs: seq<Log>, n: nat)
    ensures Dumped([], []) && Concat([]) == Tail(logs[..0], n) && LargestSeqno(Tail(logs[..0], n)) == 0
  {
  }

  lemma {:induction false} OneMoreLog(logs: seq<Log>, i: nat, n: nat)
    requires i < |logs|
    ensures logs[i].number >= n ==> Tail(logs[..i + 1], n) == Tail(logs[..i], n) + Concat(logs[i].batches)
    ensures logs[i].number < n ==> Tail(logs[..i + 1], n) == Tail(logs[..i], n)
    ensures logs[i].number >= n ==>
              LargestSeqno(Tail(logs[..i + 1], n)) ==
                  Max(LargestSeqno(Concat(logs[i].batches)), LargestSeqno(Tail(logs[..i], n)))
  {
    var before := logs[..i + 1];
    assert before[..i] == logs[..i] && before[i] == logs[i];
    hide Tail;
    hide LargestSeqno;
    hide Concat;
    TailSplits(before, n);
    assert Tail(logs[..i], n) + [] == Tail(logs[..i], n);
    MaxSeqnoAppend(Tail(logs[..i], n), Concat(logs[i].batches));
  }

  lemma {:induction false} LogFileAt(crc: Crc, u: UserCodec, logs: seq<Log>, files: seq<LogFile>, i: nat)
    requires AreLogFiles(crc, u, logs, files) && i < |files|
    ensures i < |logs| && IsLogFile(crc, u, logs[i], files[i]) && files[i].number == logs[i].number
  {
    hide TornLog;
  }

  /** The loop of DBImpl::Recover over the log files the manifest still needs, in the order of their numbers. */
  method RecoverLogs(crc: Crc, u: UserCodec, files: seq<LogFile>, minLog: nat, writeBufferSize: nat,
          usage: seq<Entry> -> nat, ghost logs: seq<Log>)
    returns (tables: seq<seq<Entry>>, maxSequence: nat, ghost groups: seq<seq<Entry>>)
    requires GoodUserCodec(u) && AreLogFiles(crc, u, logs, files)
    ensures Dumped(tables, groups) && Concat(groups) == Tail(logs, minLog)
    ensures maxSequence == LargestSeqno(Tail(logs, minLog))
  {
    hide *;
    SameLength(crc, u, logs, files);
    NothingDumped(logs, minLog);
    tables, groups, maxSequence := [], [], 0;
    for i := 0 to |files|
      invariant Dumped(tables, groups) && Concat(groups) == Tail(logs[..i], minLog)
      invariant maxSequence == LargestSeqno(Tail(logs[..i], minLog))
    {
      LogFileAt(crc, u, logs, files, i);
      OneMoreLog(logs, i, minLog);
      if files[i].number >= minLog {
        LogReadsBack(crc, u, logs[i], files[i]);
        ghost var more;
        var written, last;
        written, last, more := RecoverLogFile(crc, u, files[i].bytes, writeBufferSize, usage);
        DumpedAppends(tables, groups, written, more);
        ConcatAppends(groups, more);
        tables, groups := tables + written, groups + more;
        MaxIs(last, maxSequence);
        if last > maxSequence {
          maxSequence := last;
        }
      }
    }
    assert logs[..|files|] == logs;
  }

  lemma {:induction false} SameLength(crc: Crc, u: UserCodec, logs: seq<Log>, files: seq<LogFile>)
    requires AreLogFiles(crc, u, logs, files)
    ensures |files| == |logs|
  {
    hide IsLogFile;
  }

  lemma {:induction false} DumpedIsCut(tables: seq<seq<Entry>>, groups: seq<seq<Entry>>, tail: seq<Entry>)
    requires Dumped(tables, groups) && Concat(groups) == tail
    ensures IsCut(groups, tail)
  {
    hide Concat;
    hide Durable.InsertAll;
  }

  lemma {:induction false} IncreasingMax(tail: seq<Entry>)
    requires IncreasingSeqnos(tail)
    ensures LargestSeqno(tail) == if tail == [] then 0 else tail[|tail| - 1].ikey.seqno
  {
    if tail != [] {
      IncreasingFront(tail);
      IncreasingMax(tail[..|tail| - 1]);
    }
  }

  lemma {:induction false} LastIsMax(tail: seq<Entry>, recorded: nat)
    requires IncreasingSeqnos(tail)
    ensures LastSequence(tail, recorded) == Max(LargestSeqno(tail), recorded)
  {
    IncreasingMax(tail);
    hide IncreasingSeqnos;
    hide LargestSeqno;
  }

  // ----- the comparator's name

  lemma {:induction false} NamesKept(s: Sys, t: Sys, act: Act)
    requires NextSys(s, t, act) && SameComparator([], s.disk.edits)
    ensures SameComparator([], t.disk.edits)
  {
    hide Durable.OnRecord;
    hide ReadBack;
    hide Recovers;
    hide FlushPlaced;
    hide Install;
    hide Closed;
    hide FlushCounted;
    hide Counted;
    hide AreOutputs;
    hide LevelMetas;
  }

  lemma {:induction false} RunNames(states: seq<Sys>, acts: seq<Act>)
    requires IsSysRun(states, acts)
    ensures |states| == |acts| + 1 && SameComparator([], states[|acts|].disk.edits)
    decreases |acts|
  {
    if acts != [] {
      hide NextSys;
      hide SameComparator;
      var n := |acts| - 1;
      RunNames(states[..n + 1], acts[..n]);
      NamesKept(states[n], states[n + 1], acts[n]);
    }
  }

  // ----- recovery

  /** The files of a state of the store, as bytes. */
  ghost predicate OnBytes(crc: Crc, u: UserCodec, disk: Disk, manifest: Bytes, logs: seq<LogFile>) {
    IsManifest(crc, InternalCodec(u), disk.edits, manifest) && AreLogFiles(crc, u, disk.logs, logs)
  }

  lemma {:induction false} BytesParts(crc: Crc, u: UserCodec, disk: Disk, manifest: Bytes, logs: seq<LogFile>)
    requires OnBytes(crc, u, disk, manifest, logs)
    ensures IsManifest(crc, InternalCodec(u), disk.edits, manifest) && AreLogFiles(crc, u, disk.logs, logs)
  {
    hide IsManifest;
    hide AreLogFiles;
    hide InternalCodec;
  }

  /** What any reachable state guarantees recovery. */
  lemma {:induction false} RunFacts(states: seq<Sys>, acts: seq<Act>)
    requires IsSysRun(states, acts)
    ensures |states| == |acts| + 1
    ensures var disk := states[|acts|].disk;
            && SameComparator([], disk.edits)
            && ReadBack(disk).numbers.nextFile.Some? && ReadBack(disk).numbers.logNumber.Some?
            && ReadBack(disk).numbers.lastSequence.Some? && IncreasingSeqnos(LoggedTail(disk))
            && LoggedTail(disk) == Tail(disk.logs, ReadBack(disk).numbers.logNumber.value)
  {
    hide *;
    RunNames(states, acts);
    SysRunKeeps(states, acts);
    RecoveryFacts(states[|acts|]);
    TailIs(states[|acts|].disk);
  }

  lemma {:induction false} TablesMatch(files: seq<File>, groups: seq<seq<Entry>>, tables: seq<seq<Entry>>)
    requires HoldsGroups(files, groups) && Dumped(tables, groups)
    ensures |files| == |tables| && forall i :: 0 <= i < |files| ==> files[i].entries == tables[i]
  {
    hide Durable.InsertAll;
    hide Elems;
  }

  lemma {:induction false} NumbersRead(disk: Disk, n: NumberState)
    requires n == WithPrevLog(ReadBack(disk).numbers)
    ensures n.logNumber == ReadBack(disk).numbers.logNumber && n.lastSequence == ReadBack(disk).numbers.lastSequence
  {
    hide ReadBack;
  }

  /**
   DBImpl::Recover over bytes, in any reachable state of the store, running or crashed: whatever prefixes of the
   manifest and of the logs are left that hold their whole records, recovery succeeds, and the tables and the last
   sequence number it computes are those of a continuation of the run in which the store is opened and reads exactly
   the batches with complete log records.
   */
  method RecoverBytes(crc: Crc, u: UserCodec, manifest: Bytes, logs: seq<LogFile>, writeBufferSize: nat,
          usage: seq<Entry> -> nat, ghost states: seq<Sys>, ghost acts: seq<Act>)
    returns (r: Option<State>, tables: seq<seq<Entry>>, last: nat, ghost later: seq<Sys>, ghost more: seq<Act>)
    requires GoodUserCodec(u) && IsSysRun(states, acts) && OnBytes(crc, u, states[|acts|].disk, manifest, logs)
    ensures r.Some? && r.value.levels == LevelMetas(states[|acts|].db.version)
    ensures |more| == |later| > 1 && more[0] == Crash && more[|more| - 1].Open?
    ensures forall i :: 0 <= i < |more| ==> !more[i].Append?
    ensures IsSysRun(states + later, acts + more)
    ensures var files := more[|more| - 1].files;
            |files| == |tables| && forall i :: 0 <= i < |files| ==> files[i].entries == tables[i]
    ensures var t := later[|later| - 1];
            && t.up && Ok(t.current) && t.db.lastSequence == last
            && (forall k, snap :: snap >= last ==>
                  Read(AllEntries(t.current), k, snap) == Read(Logged(acts, states), k, snap))
            && forall x :: x in Logged(acts, states) ==> x.ikey.seqno <= last
  {
    hide *;
    RunFacts(states, acts);
    RecoveryFindsAll(states, acts);
    ghost var disk := states[|acts|].disk;
    BytesParts(crc, u, disk, manifest, logs);
    InternalCodecIsGood(u);
    ManifestReadsBack(crc, InternalCodec(u), disk, manifest);
    r := Recover(InternalCodec(u), crc, [], manifest);
    NumbersRead(disk, r.value.numbers);
    var numbers := r.value.numbers;
    var maxSequence;
    ghost var groups;
    tables, maxSequence, groups := RecoverLogs(crc, u, logs, numbers.logNumber.value, writeBufferSize, usage,
        disk.logs);
    last := numbers.lastSequence.value;
    LastIsMax(LoggedTail(disk), last);
    MaxIs(maxSequence, last);
    if last < maxSequence {
      last := maxSequence;
    }
    DumpedIsCut(tables, groups, LoggedTail(disk));
    later, more := CrashRecovery(states, acts, groups);
    TablesMatch(more[|more| - 1].files, groups, tables);
    OpenedAtIs(disk, groups);
  }
}
