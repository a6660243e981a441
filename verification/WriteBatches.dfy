/**
 write_batch.cc: the bytes of a batch, which are also the contents of its log record.
 */
module WriteBatches {
  import opened Entries
  import opened Coding
  import opened DbFormat
  import opened Durable

  /** One update of a batch; its sequence number is its position counted from the batch's. */
  datatype Write = Write(user: UserKey, kind: ValueType, value: Bytes)

  /** kHeader: the 8 bytes of the sequence number and the 4 bytes of the count. */
  const HEADER: nat := 12

  // ----- layout

  function Record(u: UserCodec, w: Write): Bytes {
    match w.kind
    case Put => [1] + PutSlice(u.enc(w.user)) + PutSlice(w.value)
    case Deletion => [0] + PutSlice(u.enc(w.user))
  }

  function Records(u: UserCodec, ws: seq<Write>): Bytes {
    if ws == [] then [] else Record(u, ws[0]) + Records(u, ws[1..])
  }

  function Contents(u: UserCodec, seqno: nat, ws: seq<Write>): Bytes {
    Fixed(seqno, 8) + Fixed(|ws|, 4) + Records(u, ws)
  }

  /** The entries a batch stands for. */
  function NumberedFrom(seqno: nat, ws: seq<Write>): seq<Entry> {
    seq(|ws|, i requires 0 <= i < |ws| => Entry(InternalKey(ws[i].user, seqno + i, ws[i].kind), ws[i].value))
  }

  function WritesOf(es: seq<Entry>): seq<Write> {
    seq(|es|, i requires 0 <= i < |es| => Write(es[i].ikey.user, es[i].ikey.kind, es[i].value))
  }

  /** A deletion has no value, and lengths fit the 32 bits they are written in. */
  predicate Fitting(u: UserCodec, w: Write) {
    (w.kind.Deletion? ==> w.value == []) && |u.enc(w.user)| < 0x1_0000_0000 && |w.value| < 0x1_0000_0000
  }

  predicate AllFitting(u: UserCodec, ws: seq<Write>) {
    |ws| < 0x8000_0000 && forall i :: 0 <= i < |ws| ==> Fitting(u, ws[i])
  }

  // ----- reading

  /** What Iterate hands to its handler before it ends, and whether it got to the end. */
  datatype Parsed = Parsed(writes: seq<Write>, ok: bool)

  function Prepend(w: Write, p: Parsed): Parsed {
    Parsed([w] + p.writes, p.ok)
  }

  function Parse(u: UserCodec, b: Bytes): Parsed
    decreases |b|
  {
    if b == [] then Parsed([], true)
    else if b[0] > 1 then Parsed([], false)
    else
      match GetSlice(b[1..])
      case None => Parsed([], false)
      case Some((key, b2)) =>
        if b[0] == 0 then Prepend(Write(u.dec(key), Deletion, []), Parse(u, b2))
        else
          match GetSlice(b2)
          case None => Parsed([], false)
          case Some((value, rest)) => Prepend(Write(u.dec(key), Put, value), Parse(u, rest))
  }

  function Sequence(rep: Bytes): nat
    requires |rep| >= HEADER
  {
    DecodeFixed(rep[..8])
  }

  /** WriteBatchInternal::Count returns the 32 bits as an int. */
  function Count(rep: Bytes): int
    requires |rep| >= HEADER
  {
    var n := DecodeFixed(rep[8..12]);
    if n < 0x8000_0000 then n else n - 0x1_0000_0000
  }

  /** The entries InsertInto adds: all of them if the batch is intact, else those before the fault. */
  function EntriesIn(u: UserCodec, rep: Bytes): seq<Entry>
    requires |rep| >= HEADER
  {
    NumberedFrom(Sequence(rep), Parse(u, rep[HEADER..]).writes)
  }

  /** Sequence(&batch) + Count(&batch) - 1, in 64 bits. */
  function LastOf(rep: Bytes): nat
    requires |rep| >= HEADER
  {
    (Sequence(rep) + Count(rep) - 1) % 0x1_0000_0000_0000_0000
  }

  // ----- reading inverts writing

  lemma {:induction false} FieldsFit()
    ensures Pow256(4) == 0x1_0000_0000 && Pow256(8) == 0x1_0000_0000_0000_0000
  {
    assert Pow256(1) == 256 && Pow256(2) == 256 * 256 && Pow256(3) == 256 * Pow256(2) && Pow256(4) == 256 * Pow256(3);
    assert Pow256(5) == 256 * Pow256(4) && Pow256(6) == 256 * Pow256(5) && Pow256(7) == 256 * Pow256(6)
        && Pow256(8) == 256 * Pow256(7);
  }

  lemma {:induction false} FirstThen(x: Byte, a: Bytes, b: Bytes, c: Bytes)
    ensures ([x] + a + c)[0] == x && ([x] + a + c)[1..] == a + c
    ensures ([x] + a + b + c)[0] == x && ([x] + a + b + c)[1..] == a + (b + c)
  {
  }

  lemma {:induction false} ParsesRecord(u: UserCodec, w: Write, rest: Bytes)
    requires u.dec(u.enc(w.user)) == w.user && Fitting(u, w)
    ensures Parse(u, Record(u, w) + rest) == Prepend(w, Parse(u, rest))
  {
    hide PutSlice;
    hide GetSlice;
    hide GoodUserCodec;
    var key, value := u.enc(w.user), w.value;
    FirstThen(w.kind.Code(), PutSlice(key), PutSlice(value), rest);
    if w.kind.Put? {
      SliceRoundTrip(key, PutSlice(value) + rest);
      SliceRoundTrip(value, rest);
    } else {
      SliceRoundTrip(key, rest);
    }
  }

  lemma {:induction false} RecordsFirst(u: UserCodec, ws: seq<Write>)
    requires ws != []
    ensures Records(u, ws) == Record(u, ws[0]) + Records(u, ws[1..])
  {
  }

  lemma {:induction false} NoRecords(u: UserCodec)
    ensures Records(u, []) == []
  {
  }

  lemma {:induction false} ParseNothing(u: UserCodec)
    ensures Parse(u, []) == Parsed([], true)
  {
  }

  lemma {:induction false} ReadsKey(u: UserCodec, k: UserKey)
    requires GoodUserCodec(u)
    ensures u.dec(u.enc(k)) == k
  {
  }

  lemma {:induction false} PrependRest(ws: seq<Write>)
    requires ws != []
    ensures Prepend(ws[0], Parsed(ws[1..], true)) == Parsed(ws, true)
  {
  }

  lemma {:induction false} ParsesRecords(u: UserCodec, ws: seq<Write>)
    requires GoodUserCodec(u) && forall i :: 0 <= i < |ws| ==> Fitting(u, ws[i])
    ensures Parse(u, Records(u, ws)) == Parsed(ws, true)
  {
    hide *;
    if ws == [] {
      NoRecords(u);
      ParseNothing(u);
    } else {
      ReadsKey(u, ws[0].user);
      ParsesRecords(u, ws[1..]);
      ParsesRecord(u, ws[0], Records(u, ws[1..]));
      RecordsFirst(u, ws);
      PrependRest(ws);
    }
  }

  lemma {:induction false} HeaderParts(a: Bytes, b: Bytes, c: Bytes)
    requires |a| == 8 && |b| == 4
    ensures (a + b + c)[..8] == a && (a + b + c)[8..12] == b && (a + b + c)[12..] == c
  {
  }

  lemma {:induction false} ReadsHeader(u: UserCodec, seqno: nat, ws: seq<Write>)
    requires seqno < 0x1_0000_0000_0000_0000 && |ws| < 0x8000_0000
    ensures var rep := Contents(u, seqno, ws);
            |rep| >= HEADER && Sequence(rep) == seqno && Count(rep) == |ws| && rep[HEADER..] == Records(u, ws)
  {
    FieldsFit();
    hide Fixed;
    hide DecodeFixed;
    hide Records;
    hide Pow256;
    FixedRoundTrip(seqno, 8);
    FixedRoundTrip(|ws|, 4);
    HeaderParts(Fixed(seqno, 8), Fixed(|ws|, 4), Records(u, ws));
  }

  lemma {:induction false} HeaderSays(u: UserCodec, rep: Bytes, seqno: nat, ws: seq<Write>)
    requires |rep| >= HEADER && Sequence(rep) == seqno && Count(rep) == |ws| && Parse(u, rep[HEADER..]).writes == ws
    requires ws != [] && seqno + |ws| <= MAX_SEQUENCE
    ensures EntriesIn(u, rep) == NumberedFrom(seqno, ws) && LastOf(rep) == seqno + |ws| - 1
  {
    hide Parse;
    hide Sequence;
    hide Count;
    hide NumberedFrom;
  }

  /** A batch read back: its updates, numbered on from its sequence number, and the number of the last one. */
  lemma {:induction false} ContentsReadBack(u: UserCodec, seqno: nat, ws: seq<Write>)
    requires GoodUserCodec(u) && AllFitting(u, ws) && ws != [] && seqno + |ws| <= MAX_SEQUENCE
    ensures var rep := Contents(u, seqno, ws);
            && |rep| >= HEADER && EntriesIn(u, rep) == NumberedFrom(seqno, ws) && Parse(u, rep[HEADER..]).ok
            && Count(rep) == |ws| && LastOf(rep) == seqno + |ws| - 1
  {
    FittingParts(u, ws);
    hide *;
    ReadsHeader(u, seqno, ws);
    ParsesRecords(u, ws);
    HeaderSays(u, Contents(u, seqno, ws), seqno, ws);
  }

  lemma {:induction false} FittingParts(u: UserCodec, ws: seq<Write>)
    requires AllFitting(u, ws)
    ensures |ws| < 0x8000_0000 && forall i :: 0 <= i < |ws| ==> Fitting(u, ws[i])
  {
  }

  // ----- lists of entries a batch can stand for

  /** What a batch can hold: at least one update, numbered on. */
  predicate Batchable(u: UserCodec, es: seq<Entry>) {
    && es != [] && AllFitting(u, WritesOf(es)) && es[0].ikey.seqno + |es| <= MAX_SEQUENCE
    && forall i :: 0 <= i < |es| ==> es[i].ikey.seqno == es[0].ikey.seqno + i
  }

  /** The log record of a list of entries. */
  function BatchBytes(u: UserCodec, es: seq<Entry>): Bytes {
    if es == [] then Contents(u, 0, []) else Contents(u, es[0].ikey.seqno, WritesOf(es))
  }

  lemma {:induction false} BatchReadBack(u: UserCodec, es: seq<Entry>)
    requires GoodUserCodec(u) && Batchable(u, es)
    ensures var rep := BatchBytes(u, es);
            |rep| >= HEADER && EntriesIn(u, rep) == es && LastOf(rep) == es[|es| - 1].ikey.seqno
  {
    ContentsReadBack(u, es[0].ikey.seqno, WritesOf(es));
    hide Contents;
    hide Parse;
    hide GoodUserCodec;
    hide LastOf;
    hide AllFitting;
    Renumbered(es);
    hide NumberedFrom;
    hide WritesOf;
    hide EntriesIn;
  }

  lemma {:induction false} Renumbered(es: seq<Entry>)
    requires es != [] && forall i :: 0 <= i < |es| ==> es[i].ikey.seqno == es[0].ikey.seqno + i
    ensures NumberedFrom(es[0].ikey.seqno, WritesOf(es)) == es && |WritesOf(es)| == |es|
  {
    forall i | 0 <= i < |es| ensures NumberedFrom(es[0].ikey.seqno, WritesOf(es))[i] == es[i] {
    }
  }

  /** Only lists numbered on can be told from their bytes: any other is read back as something else. */
  lemma {:induction false} ReadBackIff(u: UserCodec, es: seq<Entry>)
    requires GoodUserCodec(u) && es != [] && AllFitting(u, WritesOf(es)) && es[0].ikey.seqno + |es| <= MAX_SEQUENCE
    ensures |BatchBytes(u, es)| >= HEADER
    ensures EntriesIn(u, BatchBytes(u, es)) == es <==>
              forall i :: 0 <= i < |es| ==> es[i].ikey.seqno == es[0].ikey.seqno + i
  {
    ContentsReadBack(u, es[0].ikey.seqno, WritesOf(es));
    hide Contents;
    hide Parse;
    hide GoodUserCodec;
    hide LastOf;
    hide AllFitting;
    if forall i :: 0 <= i < |es| ==> es[i].ikey.seqno == es[0].ikey.seqno + i {
      BatchReadBack(u, es);
    }
  }

  // ----- joining batches

  lemma {:induction false} Regroup(a: Bytes, b: Bytes, c: Bytes)
    ensures a + (b + c) == (a + b) + c
  {
  }

  lemma {:induction false} FrontOf(a: seq<Write>, b: seq<Write>)
    requires a != []
    ensures (a + b)[1..] == a[1..] + b && (a + b)[0] == a[0] && a + b != []
  {
  }

  lemma {:induction false} RecordsAppend(u: UserCodec, a: seq<Write>, b: seq<Write>)
    ensures Records(u, a + b) == Records(u, a) + Records(u, b)
  {
    hide Record;
    hide Records;
    if a == [] {
      assert a + b == b;
      NoRecords(u);
      assert [] + Records(u, b) == Records(u, b);
    } else {
      RecordsAppend(u, a[1..], b);
      FrontOf(a, b);
      RecordsFirst(u, a);
      RecordsFirst(u, a + b);
      Regroup(Record(u, a[0]), Records(u, a[1..]), Records(u, b));
    }
  }

  lemma {:induction false} JoinedContents(u: UserCodec, seqno: nat, a: seq<Write>, b: seq<Write>)
    ensures Contents(u, seqno, a + b) == Fixed(seqno, 8) + Fixed(|a| + |b|, 4) + (Records(u, a) + Records(u, b))
  {
    RecordsAppend(u, a, b);
    hide Records;
    hide Fixed;
  }

  lemma {:induction false} ContentsParts(u: UserCodec, seqno: nat, ws: seq<Write>)
    ensures |Contents(u, seqno, ws)| >= HEADER && Contents(u, seqno, ws)[..8] == Fixed(seqno, 8)
    ensures Contents(u, seqno, ws)[HEADER..] == Records(u, ws)
  {
    HeaderParts(Fixed(seqno, 8), Fixed(|ws|, 4), Records(u, ws));
    hide Fixed;
    hide Records;
  }

  lemma {:induction false} OneMoreWrite(u: UserCodec, seqno: nat, ws: seq<Write>, w: Write)
    ensures Contents(u, seqno, ws + [w]) == Fixed(seqno, 8) + Fixed(|ws| + 1, 4) + Records(u, ws) + Record(u, w)
  {
    hide *;
    JoinedContents(u, seqno, ws, [w]);
    OneRecord(u, w);
    Regroup(Fixed(seqno, 8) + Fixed(|ws| + 1, 4), Records(u, ws), Record(u, w));
  }

  lemma {:induction false} OneRecord(u: UserCodec, w: Write)
    ensures Records(u, [w]) == Record(u, w)
  {
    hide Record;
    assert [w][1..] == [];
    assert Record(u, w) + [] == Record(u, w);
  }

  lemma {:induction false} GrownBy(b: Bytes, x: Byte, key: Bytes, value: Bytes)
    ensures b + [x] + key == b + ([x] + key)
    ensures b + [x] + key + value == b + ([x] + key + value)
  {
  }

  // ----- the class

  class WriteBatch {
    const u: UserCodec
    var rep: Bytes
    ghost var seqno: nat
    ghost var writes: seq<Write>

    ghost predicate Valid()
      reads this
    {
      rep == Contents(u, seqno, writes) && seqno < 0x1_0000_0000_0000_0000 && |writes| < 0x8000_0000
    }

    constructor (u: UserCodec)
      ensures Valid() && this.u == u && writes == [] && seqno == 0
    {
      this.u := u;
      rep := seq(HEADER, _ => 0);
      seqno, writes := 0, [];
      new;
      assert Fixed(0, 8) == [0, 0, 0, 0, 0, 0, 0, 0] && Fixed(0, 4) == [0, 0, 0, 0];
    }

    method SetCount(n: nat)
      requires |rep| >= HEADER
      modifies this`rep
      ensures rep == old(rep[..8]) + Fixed(n, 4) + old(rep[HEADER..])
    {
      rep := rep[..8] + Fixed(n, 4) + rep[HEADER..];
    }

    method SetSequence(s: nat)
      requires Valid() && s < 0x1_0000_0000_0000_0000
      modifies this`rep, this`seqno
      ensures Valid() && seqno == s
    {
      ReadsHeader(u, seqno, writes);
      rep := Fixed(s, 8) + rep[8..];
      seqno := s;
    }

    /** WriteBatch::Put and Delete. The count is an int. */
    method Add(w: Write)
      requires Valid() && Fitting(u, w) && |writes| + 1 < 0x8000_0000
      modifies this`rep, this`writes
      ensures Valid() && writes == old(writes) + [w]
    {
      ReadsHeader(u, seqno, writes);
      HeaderParts(Fixed(seqno, 8), Fixed(|writes|, 4), Records(u, writes));
      OneMoreWrite(u, seqno, writes, w);
      hide Fixed;
      hide Records;
      hide Record;
      hide Count;
      hide Sequence;
      hide Fitting;
      SetCount(Count(rep) + 1);
      AddRecord(w);
      writes := writes + [w];
    }

    method AddRecord(w: Write)
      modifies this`rep
      ensures rep == old(rep) + Record(u, w)
    {
      GrownBy(rep, w.kind.Code(), PutSlice(u.enc(w.user)), PutSlice(w.value));
      hide PutSlice;
      rep := rep + [w.kind.Code()];
      rep := rep + PutSlice(u.enc(w.user));
      if w.kind.Put? {
        rep := rep + PutSlice(w.value);
      }
    }

    /** WriteBatchInternal::Append: what makes one log record of a group. */
    method Append(src: WriteBatch)
      requires Valid() && src.Valid() && src != this && src.u == u && |writes| + |src.writes| < 0x8000_0000
      modifies this`rep, this`writes
      ensures Valid() && writes == old(writes) + src.writes
    {
      ReadsHeader(u, seqno, writes);
      ReadsHeader(u, src.seqno, src.writes);
      ContentsParts(u, seqno, writes);
      ContentsParts(u, src.seqno, src.writes);
      hide Fixed;
      hide Pow256;
      hide DecodeFixed;
      hide PutSlice;
      hide Records;
      hide Contents;
      hide Count;
      hide Sequence;
      Regroup(Fixed(seqno, 8) + Fixed(|writes| + |src.writes|, 4), Records(u, writes), Records(u, src.writes));
      JoinedContents(u, seqno, writes, src.writes);
      SetCount(Count(rep) + Count(src.rep));
      rep := rep + src.rep[HEADER..];
      writes := writes + src.writes;
    }
  }

  // ----- inserting into a memtable

  lemma {:induction false} NumberedSnoc(seqno: nat, ws: seq<Write>, w: Write)
    ensures NumberedFrom(seqno, ws + [w]) ==
              NumberedFrom(seqno, ws) + [Entry(InternalKey(w.user, seqno + |ws|, w.kind), w.value)]
  {
  }

  lemma {:induction false} InsertAllSnoc(mem: seq<Entry>, es: seq<Entry>, e: Entry)
    ensures InsertAll(mem, es + [e]) == InsertEntry(InsertAll(mem, es), e)
  {
    assert (es + [e])[..|es|] == es;
  }

  lemma {:induction false} NothingInserted(mem: seq<Entry>, seqno: nat)
    ensures InsertAll(mem, NumberedFrom(seqno, [])) == mem
  {
  }

  lemma {:induction false} PrependAdds(done: seq<Write>, w: Write, p: Parsed)
    ensures done + Prepend(w, p).writes == done + [w] + p.writes && Prepend(w, p).ok == p.ok
  {
  }

  lemma {:induction false} Nothing(ws: seq<Write>)
    ensures ws + [] == ws && [] + ws == ws
  {
  }

  /** One turn of Iterate's loop. */
  lemma {:induction false} ParseStep(u: UserCodec, b: Bytes)
    requires b != []
    ensures var key := GetSlice(b[1..]);
            && (b[0] > 1 || key.None? ==> Parse(u, b) == Parsed([], false))
            && (b[0] == 0 && key.Some? ==>
                  Parse(u, b) == Prepend(Write(u.dec(key.value.0), Deletion, []), Parse(u, key.value.1)))
            && (b[0] == 1 && key.Some? ==>
                  var value := GetSlice(key.value.1);
                  if value.None? then Parse(u, b) == Parsed([], false)
                  else Parse(u, b) == Prepend(Write(u.dec(key.value.0), Put, value.value.0), Parse(u, value.value.1)))
  {
    hide GetSlice;
  }

  /** The front record of what is left: its update and what follows it, or a fault. */
  method NextRecord(u: UserCodec, input: Bytes) returns (w: Option<Write>, rest: Bytes)
    requires input != []
    ensures w.None? ==> Parse(u, input) == Parsed([], false)
    ensures w.Some? ==> Parse(u, input) == Prepend(w.value, Parse(u, rest)) && |rest| < |input|
  {
    ParseStep(u, input);
    hide Parse;
    hide GetSlice;
    var tag := input[0];
    if tag > 1 {
      return None, input;
    }
    var key := GetSlice(input[1..]);
    if key.None? {
      return None, input;
    }
    if tag == 0 {
      return Some(Write(u.dec(key.value.0), Deletion, [])), key.value.1;
    }
    var value := GetSlice(key.value.1);
    if value.None? {
      return None, input;
    }
    return Some(Write(u.dec(key.value.0), Put, value.value.0)), value.value.1;
  }

  /** The loop of WriteBatch::Iterate with MemTableInserter as the handler. */
  method Iterate(u: UserCodec, records: Bytes, seqno: nat, mem: seq<Entry>)
    returns (mem2: seq<Entry>, ok: bool, found: nat)
    ensures mem2 == InsertAll(mem, NumberedFrom(seqno, Parse(u, records).writes))
    ensures ok == Parse(u, records).ok && (ok ==> found == |Parse(u, records).writes|)
  {
    hide *;
    var input, sequence := records, seqno;
    ghost var done: seq<Write> := [];
    ghost var whole := Parse(u, records);
    mem2, found, ok := mem, 0, true;
    NothingInserted(mem, seqno);
    Nothing(whole.writes);
    while input != []
      invariant ok && found == |done| && sequence == seqno + |done|
      invariant whole.ok == Parse(u, input).ok && whole.writes == done + Parse(u, input).writes
      invariant mem2 == InsertAll(mem, NumberedFrom(seqno, done))
      decreases |input|
    {
      found := found + 1;
      var w, rest := NextRecord(u, input);
      if w.None? {
        Nothing(done);
        return mem2, false, found;
      }
      var e := Entry(InternalKey(w.value.user, sequence, w.value.kind), w.value.value);
      PrependAdds(done, w.value, Parse(u, rest));
      NumberedSnoc(seqno, done, w.value);
      InsertAllSnoc(mem, NumberedFrom(seqno, done), e);
      mem2 := InsertEntry(mem2, e);
      sequence := sequence + 1;
      input, done := rest, done + [w.value];
    }
    ParseNothing(u);
    Nothing(done);
  }

  /** WriteBatchInternal::InsertInto: a fault leaves what was inserted before it. */
  method InsertInto(u: UserCodec, rep: Bytes, mem: seq<Entry>) returns (mem2: seq<Entry>, ok: bool)
    ensures |rep| < HEADER ==> !ok && mem2 == mem
    ensures |rep| >= HEADER ==> mem2 == InsertAll(mem, EntriesIn(u, rep))
    ensures |rep| >= HEADER ==>
              (ok <==> Parse(u, rep[HEADER..]).ok && |Parse(u, rep[HEADER..]).writes| == Count(rep))
  {
    if |rep| < HEADER {
      return mem, false;
    }
    hide Parse;
    hide InsertAll;
    hide NumberedFrom;
    hide Count;
    hide Sequence;
    var done, found;
    mem2, done, found := Iterate(u, rep[HEADER..], Sequence(rep), mem);
    ok := done && found == Count(rep);
  }
}
