/**
 Readers and writers that know different fields of a message. What the reader does not know it skips and loses nothing
 of its own, so fields can be added to a message type without disturbing its older readers; what the writer does not
 know keeps its default, unless the reader requires it: then decoding fails.
 */
module PbOlderReader {
  import opened Entries
  import opened Coding
  import opened PbWire
  import opened PbSchema
  import opened PbEncoding
  import opened PbDecoding
  import opened PbMissing
  import opened PbRoundTrip

  // ----- skipping takes exactly what was written for a value

  lemma {:induction false} VarintSkipped(n: nat, rest: Bytes)
    ensures SkipVarint(PutVarint(n) + rest) == Some(rest)
  {
    var b := PutVarint(n) + rest;
    if n < 128 {
      assert b[1..] == rest;
    } else {
      assert b[1..] == PutVarint(n / 128) + rest;
      VarintSkipped(n / 128, rest);
    }
  }

  lemma {:induction false} StringSkipped(s: Bytes, rest: Bytes)
    requires |PutString(s)| < TWO_32
    ensures SkipField(2, PutString(s) + rest) == Some(rest)
  {
    hide PutString, ReadString;
    ShorterContent(s);
    StringReadBack(s, rest);
  }

  lemma {:induction false} ValueSkipped(f: Field, v: Value, rest: Bytes)
    requires EncodeValue(f, v).Some? && |EncodeValue(f, v).value| < TWO_32
    ensures SkipField(f.kind.Wire().Code(), EncodeValue(f, v).value + rest) == Some(rest)
  {
    hide PutString, SkipVarint, PutVarint, EncodeMessage, ReadString;
    var b := EncodeValue(f, v).value;
    match f.kind
    case Varint | Uvarint => VarintSkipped(ToU64(NumberOf(v)), rest);
    case Svarint => VarintSkipped(Zigzag(NumberOf(v)), rest);
    case Fixed32 => assert (b + rest)[4..] == rest;
    case Fixed64 => assert (b + rest)[8..] == rest;
    case BytesArray => StringSkipped(BytesOf(v), rest);
    case FixedBytes => StringSkipped(BytesOf(v), rest);
    case CString => StringSkipped(Text(BytesOf(v), f.dataSize), rest);
    case Submessage => StringSkipped(EncodeMessage(f.sub, SlotsOf(f.sub, v)).value, rest);
  }

  // ----- fields with unknown tags change nothing

  /** A tag the description does not have makes the loop skip what follows it. */
  lemma {:induction false} TagSkips(fields: seq<Field>, p: Progress, tag: nat, wire: WireType, b: Bytes)
    requires |p.slots| == |fields| && 1 <= tag < 0x2000_0000 && !HasTag(fields, tag)
    requires SkipField(wire.Code(), b).Some?
    ensures DecodeLoop(fields, p, PutTag(tag, wire) + b) == DecodeLoop(fields, p, SkipField(wire.Code(), b).value)
  {
    hide SkipField, PutTag, ReadVarint32, WireType.Code;
    TagReadBack(tag, wire, b);
    assert Find(fields, tag) == |fields|;
    assert PutTag(tag, wire) + b != [];
  }

  lemma {:induction false} TaggedIgnored(fields: seq<Field>, p: Progress, f: Field, v: Value, rest: Bytes)
    requires |p.slots| == |fields| && 1 <= f.tag < 0x2000_0000 && !HasTag(fields, f.tag)
    requires EncodeTagged(f, v).Some? && |EncodeTagged(f, v).value| < TWO_32
    ensures DecodeLoop(fields, p, EncodeTagged(f, v).value + rest) == DecodeLoop(fields, p, rest)
  {
    hide SkipField, PutTag, DecodeLoop, EncodeValue, WireType.Code, Kind.Wire, HasTag;
    var body := EncodeValue(f, v).value;
    assert (PutTag(f.tag, f.kind.Wire()) + body) + rest == PutTag(f.tag, f.kind.Wire()) + (body + rest);
    ValueSkipped(f, v, rest);
    TagSkips(fields, p, f.tag, f.kind.Wire(), body + rest);
  }

  lemma {:induction false} UnpackedIgnored(fields: seq<Field>, p: Progress, f: Field, vs: seq<Value>, rest: Bytes)
    requires |p.slots| == |fields| && 1 <= f.tag < 0x2000_0000 && !HasTag(fields, f.tag)
    requires EncodeUnpacked(f, vs).Some? && |EncodeUnpacked(f, vs).value| < TWO_32
    ensures DecodeLoop(fields, p, EncodeUnpacked(f, vs).value + rest) == DecodeLoop(fields, p, rest)
    decreases |vs|
  {
    hide DecodeLoop, EncodeTagged, HasTag;
    if vs == [] {
      assert [] + rest == rest;
    } else {
      var n := |vs| - 1;
      var front, last := EncodeUnpacked(f, vs[..n]).value, EncodeTagged(f, vs[n]).value;
      assert (front + last) + rest == front + (last + rest);
      UnpackedIgnored(fields, p, f, vs[..n], last + rest);
      TaggedIgnored(fields, p, f, vs[n], rest);
    }
  }

  lemma {:induction false} PackedIgnored(fields: seq<Field>, p: Progress, f: Field, vs: seq<Value>, rest: Bytes)
    requires |p.slots| == |fields| && 1 <= f.tag < 0x2000_0000 && !HasTag(fields, f.tag)
    requires f.kind.Packable() && vs != [] && EncodeArray(f, vs).Some? && |EncodeArray(f, vs).value| < TWO_32
    ensures DecodeLoop(fields, p, EncodeArray(f, vs).value + rest) == DecodeLoop(fields, p, rest)
  {
    hide DecodeLoop, SkipField, PutTag, PutString, EncodePacked, HasTag;
    var data := EncodePacked(f, vs).value;
    assert (PutTag(f.tag, WtString) + PutString(data)) + rest == PutTag(f.tag, WtString) + (PutString(data) + rest);
    StringSkipped(data, rest);
    TagSkips(fields, p, f.tag, WtString, PutString(data) + rest);
  }

  /** Whatever is written for a field the reader does not know changes nothing. */
  lemma {:induction false} FieldIgnored(fields: seq<Field>, p: Progress, f: Field, s: Slot, rest: Bytes)
    requires |p.slots| == |fields| && 1 <= f.tag < 0x2000_0000 && !HasTag(fields, f.tag)
    requires EncodeField(f, s).Some? && |EncodeField(f, s).value| < TWO_32
    ensures DecodeLoop(fields, p, EncodeField(f, s).value + rest) == DecodeLoop(fields, p, rest)
  {
    hide DecodeLoop, EncodeTagged, EncodePacked, EncodeUnpacked, HasTag, SlotIsZero;
    if EncodeField(f, s).value == [] {
      assert [] + rest == rest;
    } else if !f.rule.Repeated? {
      var v := if f.rule.Oneof? then s.chosen.value else Held(s);
      TaggedIgnored(fields, p, f, v, rest);
    } else if f.kind.Packable() {
      PackedIgnored(fields, p, f, Items(s), rest);
    } else {
      UnpackedIgnored(fields, p, f, Items(s), rest);
    }
  }

  // ----- messages

  /** A tag both descriptions have means the same field in both. */
  ghost predicate Agree(fields: seq<Field>, all: seq<Field>) {
    forall i, k :: 0 <= i < |fields| && 0 <= k < |all| && fields[i].tag == all[k].tag ==> fields[i] == all[k]
  }

  function TagsOf(fields: seq<Field>): set<nat> {
    set i | 0 <= i < |fields| :: fields[i].tag
  }

  /** What a reader with these fields makes of the first n of the writer's. */
  function Seen(fields: seq<Field>, all: seq<Field>, whole: Message, n: nat): (r: Message)
    requires |all| == |whole| && n <= |all|
    ensures |r| == |fields|
  {
    seq(|fields|, i requires 0 <= i < |fields| =>
      if Find(all, fields[i].tag) < n then SameSlot(fields[i], whole[Find(all, fields[i].tag)])
      else DefaultSlot(fields[i]))
  }

  function RequiredSeen(fields: seq<Field>, all: seq<Field>, n: nat): set<nat> {
    set i: nat | i < |fields| && fields[i].rule.Required? && Find(all, fields[i].tag) < n
  }

  /** The writer's field n is the reader's field k. */
  lemma {:induction false} SeenNext(fields: seq<Field>, all: seq<Field>, whole: Message, n: nat, k: nat)
    requires UniqueTags(fields) && UniqueTags(all) && |all| == |whole| && n < |all| && k < |fields|
    requires fields[k] == all[n]
    ensures Seen(fields, all, whole, n)[k] == DefaultSlot(fields[k])
    ensures Seen(fields, all, whole, n + 1) == Seen(fields, all, whole, n)[k := SameSlot(fields[k], whole[n])]
    ensures Meet(fields, RequiredSeen(fields, all, n), k) == RequiredSeen(fields, all, n + 1)
  {
    hide SameSlot, DefaultSlot;
    FindIsUnique(all, n);
    assert forall j :: 0 <= j < |fields| && j != k ==> Find(all, fields[j].tag) != n;
  }

  /** The reader does not have the writer's field n. */
  lemma {:induction false} SeenSame(fields: seq<Field>, all: seq<Field>, whole: Message, n: nat)
    requires |all| == |whole| && n < |all| && !HasTag(fields, all[n].tag)
    ensures Seen(fields, all, whole, n + 1) == Seen(fields, all, whole, n)
    ensures RequiredSeen(fields, all, n + 1) == RequiredSeen(fields, all, n)
  {
    hide SameSlot, DefaultSlot;
    assert forall j :: 0 <= j < |fields| ==> Find(all, fields[j].tag) != n;
  }

  /** Of a union one member is written, so no rival has been decoded before it. */
  lemma {:induction false} SeenNoRival(fields: seq<Field>, all: seq<Field>, whole: Message, n: nat, k: nat)
    requires Agree(fields, all) && GoodMessage(all, whole) && n < |all| && k < |fields| && fields[k] == all[n]
    requires UniqueTags(fields) && whole[n] != Member(None)
    ensures NoRival(fields, Seen(fields, all, whole, n), k)
  {
    hide GoodSlot, SameValue, DefaultValue;
    forall j | 0 <= j < |fields| && Rivals(fields, k, j) ensures Seen(fields, all, whole, n)[j] == Member(None) {
      var l := Find(all, fields[j].tag);
      if l < n {
        assert fields[j] == all[l];
        assert Rivals(all, n, l);
      }
    }
  }

  lemma {:induction false} SeesField(fields: seq<Field>, all: seq<Field>, whole: Message, n: nat, k: nat, rest: Bytes)
    requires Agree(fields, all) && GoodFields(fields) && GoodFields(all) && GoodMessage(all, whole)
    requires n < |all| && k < |fields| && fields[k] == all[n]
    requires EncodeField(all[n], whole[n]).Some? && |EncodeField(all[n], whole[n]).value| < TWO_32
    ensures DecodeLoop(fields, Progress(Seen(fields, all, whole, n), RequiredSeen(fields, all, n), false),
                EncodeField(all[n], whole[n]).value + rest)
         == DecodeLoop(fields, Progress(Seen(fields, all, whole, n + 1), RequiredSeen(fields, all, n + 1), false), rest)
  {
    hide DecodeLoop, EncodeField, SameSlot, DefaultSlot, Seen, NoRival, RequiredSeen, Agree;
    var p := Progress(Seen(fields, all, whole, n), RequiredSeen(fields, all, n), false);
    SeenNext(fields, all, whole, n, k);
    assert GoodSlot(fields[k], whole[n]);
    if fields[k].rule.Repeated? {
      RepeatedFieldRoundTrip(fields, p, k, whole[n], rest);
    } else if whole[n] == Member(None) {
      NothingChosen(fields[k]);
      assert [] + rest == rest;
      assert p.slots[k := DefaultSlot(fields[k])] == p.slots;
    } else {
      SeenNoRival(fields, all, whole, n, k);
      OneFieldRoundTrip(fields, p, k, whole[n], rest);
    }
  }

  /** When the first n fields of the writer have been read. */
  lemma {:induction false} SeesFirst(fields: seq<Field>, all: seq<Field>, whole: Message, n: nat, rest: Bytes)
    requires Agree(fields, all) && GoodFields(fields) && GoodFields(all) && GoodMessage(all, whole)
    requires n <= |all| && EncodeFirst(all, whole, n).Some? && |EncodeFirst(all, whole, n).value| < TWO_32
    ensures DecodeLoop(fields, Progress(Defaults(fields), {}, false), EncodeFirst(all, whole, n).value + rest)
         == DecodeLoop(fields, Progress(Seen(fields, all, whole, n), RequiredSeen(fields, all, n), false), rest)
    decreases n
  {
    hide DecodeLoop, EncodeField, GoodFields, GoodMessage, HasTag, SameSlot, DefaultSlot;
    if n == 0 {
      assert EncodeFirst(all, whole, n).value + rest == rest;
      assert Seen(fields, all, whole, 0) == Defaults(fields);
      assert RequiredSeen(fields, all, 0) == {};
    } else {
      var front := EncodeFirst(all, whole, n - 1).value;
      var last := EncodeField(all[n - 1], whole[n - 1]).value;
      assert (front + last) + rest == front + (last + rest);
      SeesFirst(fields, all, whole, n - 1, last + rest);
      var k := Find(fields, all[n - 1].tag);
      if k < |fields| {
        SeesField(fields, all, whole, n - 1, k, rest);
      } else {
        SkipsOther(fields, all, whole, n - 1, rest);
      }
    }
  }

  lemma {:induction false} SkipsOther(fields: seq<Field>, all: seq<Field>, whole: Message, n: nat, rest: Bytes)
    requires GoodFields(all) && |all| == |whole| && n < |all| && Find(fields, all[n].tag) == |fields|
    requires EncodeField(all[n], whole[n]).Some? && |EncodeField(all[n], whole[n]).value| < TWO_32
    ensures DecodeLoop(fields, Progress(Seen(fields, all, whole, n), RequiredSeen(fields, all, n), false),
                EncodeField(all[n], whole[n]).value + rest)
         == DecodeLoop(fields, Progress(Seen(fields, all, whole, n + 1), RequiredSeen(fields, all, n + 1), false), rest)
  {
    hide DecodeLoop, EncodeField, Seen, RequiredSeen;
    assert GoodField(all[n]);
    assert !HasTag(fields, all[n].tag);
    SeenSame(fields, all, whole, n);
    FieldIgnored(fields, Progress(Seen(fields, all, whole, n), RequiredSeen(fields, all, n), false), all[n], whole[n],
        rest);
  }

  lemma {:induction false} RequiredSeenIff(fields: seq<Field>, all: seq<Field>)
    ensures AllRequired(fields, RequiredSeen(fields, all, |all|)) <==> RequiredRead(fields, TagsOf(all))
  {
    forall i | 0 <= i < |fields| ensures Find(all, fields[i].tag) < |all| <==> fields[i].tag in TagsOf(all) {
      if fields[i].tag in TagsOf(all) {
        var k :| 0 <= k < |all| && all[k].tag == fields[i].tag;
      }
    }
  }

  /**
   A reader and a writer that agree on the fields both have, in whatever order. Decoding succeeds if and only if the
   writer has each of the first 64 fields the reader requires; then the reader has of the writer's message what it has
   fields for, and in its other fields the defaults.
   */
  lemma {:induction false} OtherReaderReads(fields: seq<Field>, all: seq<Field>, whole: Message)
    requires Agree(fields, all) && GoodFields(fields) && GoodFields(all) && GoodMessage(all, whole)
    requires EncodeMessage(all, whole).Some? && |EncodeMessage(all, whole).value| < TWO_32
    ensures Decode(fields, EncodeMessage(all, whole).value) ==
              if RequiredRead(fields, TagsOf(all)) then Some(Seen(fields, all, whole, |all|)) else None
  {
    hide GoodFields, GoodMessage, EncodeFirst, AllRequired, Agree, Seen, RequiredRead;
    var b := EncodeMessage(all, whole).value;
    assert b + [] == b;
    SeesFirst(fields, all, whole, |all|, []);
    RequiredSeenIff(fields, all);
  }

  // ----- a reader that has some of the writer's fields and no other

  /** The reader's fields and slots are the writer's at the positions `at`. */
  ghost predicate PartOf(fields: seq<Field>, m: Message, all: seq<Field>, whole: Message, at: seq<nat>) {
    && |fields| == |m| == |at| && |all| == |whole|
    && (forall i, j :: 0 <= i < j < |at| ==> at[i] < at[j])
    && (forall i :: 0 <= i < |at| ==> at[i] < |all| && fields[i] == all[at[i]] && m[i] == whole[at[i]])
  }

  lemma {:induction false} PartAgrees(fields: seq<Field>, m: Message, all: seq<Field>, whole: Message, at: seq<nat>)
    requires PartOf(fields, m, all, whole, at) && GoodFields(all)
    ensures GoodFields(fields) && Agree(fields, all) && RequiredRead(fields, TagsOf(all))
    ensures Seen(fields, all, whole, |all|) == SameMessage(fields, m)
  {
    hide GoodField, SameSlot, DefaultSlot;
    forall i | 0 <= i < |fields|
      ensures Find(all, fields[i].tag) == at[i] && Seen(fields, all, whole, |all|)[i] == SameSlot(fields[i], m[i])
      ensures fields[i].tag in TagsOf(all)
    {
      FindIsUnique(all, at[i]);
      assert all[at[i]].tag in TagsOf(all);
    }
  }

  /**
   An older reader: what a writer with more fields encodes, a reader with some of them decodes
   into its own part of the message.
   */
  lemma {:induction false} OlderReaderReads(fields: seq<Field>, m: Message, all: seq<Field>, whole: Message,
      at: seq<nat>)
    requires PartOf(fields, m, all, whole, at) && GoodFields(all) && GoodMessage(all, whole)
    requires EncodeMessage(all, whole).Some? && |EncodeMessage(all, whole).value| < TWO_32
    ensures Decode(fields, EncodeMessage(all, whole).value) == Some(SameMessage(fields, m))
  {
    hide GoodFields, GoodMessage, EncodeMessage, Decode, Agree, Seen, RequiredRead, TagsOf;
    PartAgrees(fields, m, all, whole, at);
    OtherReaderReads(fields, all, whole);
  }
}
