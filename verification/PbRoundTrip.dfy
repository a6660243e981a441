/**
 Decoding what was encoded gives the message back, up to what the wire does not carry: the
 value of an absent optional field and the bytes behind a string's terminator.
 */
module PbRoundTrip {
  import opened Entries
  import opened Coding
  import opened PbWire
  import opened PbSchema
  import opened PbEncoding
  import opened PbDecoding

  // ----- numbers

  lemma {:induction false} UnzigzagZigzag(n: int)
    ensures Unzigzag(Zigzag(n)) == n
  {
  }

  lemma {:induction false} SignedNumber(size: nat, n: int, rest: Bytes)
    requires KnownSize(size) && GoodNumber(Varint, size, n)
    ensures DecodeSigned(size, PutVarint(ToU64(n)) + rest) == Some((n, rest))
  {
    hide ReadVarint, PutVarint, AsI32, AsI64, ToU64;
    SignedRoundTrip(n);
    VarintReadBack(ToU64(n), rest);
  }

  lemma {:induction false} UnsignedNumber(size: nat, n: int, rest: Bytes)
    requires KnownSize(size) && GoodNumber(Uvarint, size, n)
    ensures DecodeUnsigned(size, PutVarint(ToU64(n)) + rest) == Some((n, rest))
  {
    hide ReadVarint, PutVarint;
    VarintReadBack(ToU64(n), rest);
  }

  lemma {:induction false} ZigzagNumber(size: nat, n: int, rest: Bytes)
    requires KnownSize(size) && GoodNumber(Svarint, size, n)
    ensures DecodeZigzag(size, PutVarint(Zigzag(n)) + rest) == Some((n, rest))
  {
    hide ReadVarint, PutVarint;
    UnzigzagZigzag(n);
    VarintReadBack(Zigzag(n), rest);
  }

  lemma {:induction false} FixedNumber(n: nat, width: nat, rest: Bytes)
    requires (width == 4 && n < TWO_32) || (width == 8 && n < TWO_64)
    ensures DecodeFixedNumber(width, Fixed(n, width) + rest) == Some((n as int, rest))
  {
    hide ReadFixed, Fixed, Pow256;
    Pow256Values();
    FixedReadBack(n, width, rest);
  }

  lemma {:induction false} NumberRoundTrip(kind: Kind, size: nat, n: int, rest: Bytes)
    requires kind.Packable() && GoodNumber(kind, size, n)
    requires kind.Varint? || kind.Uvarint? || kind.Svarint? ==> KnownSize(size)
    ensures EncodeNumber(kind, size, n).Some?
    ensures DecodeNumber(kind, size, EncodeNumber(kind, size, n).value + rest) == Some((n, rest))
  {
    hide DecodeSigned, DecodeUnsigned, DecodeZigzag, DecodeFixedNumber, PutVarint, Fixed, ToU64, Zigzag;
    match kind
    case Varint => SignedNumber(size, n, rest);
    case Uvarint => UnsignedNumber(size, n, rest);
    case Svarint => ZigzagNumber(size, n, rest);
    case Fixed32 => FixedNumber(n, 4, rest);
    case Fixed64 => FixedNumber(n, 8, rest);
  }

  /** A writer that encodes a negative int32 in five bytes rather than in ten is understood. */
  lemma {:induction false} FiveByteNegative(n: int, rest: Bytes)
    requires -TWO_31 <= n < 0
    ensures |PutVarint(n + TWO_32)| == 5 && |PutVarint(ToU64(n))| == 10
    ensures DecodeNumber(Varint, 4, PutVarint(n + TWO_32) + rest) == Some((n, rest))
  {
    hide ReadVarint, PutVarint;
    VarintReadBack(n + TWO_32, rest);
    SevenBitsEach(n + TWO_32, 4);
    SevenBitsEach(ToU64(n), 9);
  }

  lemma {:induction false} SevenBitsEach(n: nat, size: nat)
    requires Pow128(size) <= n < Pow128(size + 1)
    ensures |PutVarint(n)| == size + 1
  {
    if size > 0 {
      SevenBitsEach(n / 128, size - 1);
    }
  }

  function Numbers(f: Field, vs: seq<Value>): (r: seq<Value>)
    ensures |r| == |vs|
  {
    seq(|vs|, k requires 0 <= k < |vs| => SameValue(f, vs[k]))
  }

  /** Packed data decodes, element after element. */
  lemma {:induction false} PackedRoundTrip(f: Field, done: seq<Value>, vs: seq<Value>, rest: Bytes)
    requires GoodField(f) && f.kind.Packable() && forall k :: 0 <= k < |vs| ==> GoodValue(f, vs[k])
    requires |done| + |vs| <= f.arraySize
    requires EncodePacked(f, vs).Some?
    ensures DecodePacked(f, done, EncodePacked(f, vs).value + rest) == DecodePacked(f, done + vs, rest)
    decreases |vs|
  {
    hide DecodeNumber, EncodeNumber;
    if vs == [] {
      assert EncodePacked(f, vs).value + rest == rest;
      assert done + vs == done;
    } else {
      var n := |vs| - 1;
      var last := EncodeValue(f, vs[n]).value;
      var front := EncodePacked(f, vs[..n]).value;
      assert (front + last) + rest == front + (last + rest);
      PackedRoundTrip(f, done, vs[..n], last + rest);
      NumberRoundTrip(f.kind, f.dataSize, vs[n].n, rest);
      assert last + rest != [] by {
        assert DecodeNumber(f.kind, f.dataSize, last + rest).Some?;
      }
      assert done + vs[..n] + [vs[n]] == done + vs;
    }
  }

  // ----- values

  lemma {:induction false} BytesRoundTrip(f: Field, content: Bytes, rest: Bytes)
    requires |content| < TWO_32 && Accepts(f, |content|)
    requires f.kind.FixedBytes? ==> |content| == f.dataSize
    ensures DecodeBytes(f, PutString(content) + rest) == Some((Str(content), rest))
  {
    hide PutString, ReadString;
    StringReadBack(content, rest);
    assert f.kind.FixedBytes? && content == [] ==> Zeros(f.dataSize) == content;
  }

  lemma {:induction false} ValueRoundTrip(f: Field, prior: Value, v: Value, rest: Bytes)
    requires GoodField(f) && GoodValue(f, v)
    requires f.kind.Submessage? ==> Base(f, prior) == Defaults(f.sub)
    requires EncodeValue(f, v).Some? && |EncodeValue(f, v).value| < TWO_32
    ensures DecodeValue(f, prior, EncodeValue(f, v).value + rest) == Some((SameValue(f, v), rest))
    decreases f, 0
  {
    hide PutString, DecodeBytes, DecodeNumber, EncodeNumber, GoodFields, GoodMessage;
    hide EncodeMessage, DecodeMessage, SameMessage, ReadString;
    if f.kind.Packable() {
      NumberRoundTrip(f.kind, f.dataSize, v.n, rest);
    } else if f.kind.Submessage? {
      var content := EncodeMessage(f.sub, v.slots).value;
      SlotsOfGood(f.sub, v);
      ShorterContent(content);
      MessageRoundTrip(f.sub, v.slots);
      StringReadBack(content, rest);
    } else {
      var content := if f.kind.CString? then Text(v.bytes, f.dataSize) else v.bytes;
      ShorterContent(content);
      BytesRoundTrip(f, content, rest);
    }
  }

  lemma {:induction false} ShorterContent(content: Bytes)
    ensures |content| < |PutString(content)|
  {
  }

  lemma {:induction false} SlotsOfGood(sub: seq<Field>, v: Value)
    requires v.Msg? && GoodMessage(sub, v.slots)
    ensures SlotsOf(sub, v) == v.slots
  {
  }

  // ----- what a proto3 encoder leaves out decodes to the default

  lemma {:induction false} ZeroValueIsDefault(f: Field, v: Value)
    requires GoodField(f) && f.rule.Singular? && GoodValue(f, v) && ValueIsZero(f, v)
    ensures SameValue(f, v) == DefaultValue(f)
    decreases f, 0
  {
    if f.kind.Submessage? {
      ZeroMessageIsDefault(f.sub, v.slots);
    }
  }

  lemma {:induction false} ZeroMessageIsDefault(fields: seq<Field>, m: Message)
    requires GoodFields(fields) && GoodMessage(fields, m) && MessageIsZero(fields, m)
    ensures SameMessage(fields, m) == Defaults(fields)
    decreases fields
  {
    forall i | 0 <= i < |fields| ensures SameSlot(fields[i], m[i]) == DefaultSlot(fields[i]) {
      if fields[i].rule.Singular? {
        ZeroValueIsDefault(fields[i], m[i].value);
      }
    }
  }

  // ----- one tag and what follows

  /** Bytes that begin with the tag of field k make the loop decode field k. */
  lemma {:induction false} TagStep(fields: seq<Field>, p: Progress, k: nat, wire: WireType, b: Bytes)
    requires |p.slots| == |fields| && k < |fields| && GoodFields(fields)
    requires DecodeField(fields, p.slots, k, wire.Code(), b).Some?
    ensures DecodeLoop(fields, p, PutTag(fields[k].tag, wire) + b)
         == DecodeLoop(fields,
             Progress(DecodeField(fields, p.slots, k, wire.Code(), b).value.0, Meet(fields, p.met, k), p.stopped),
                       DecodeField(fields, p.slots, k, wire.Code(), b).value.1)
  {
    hide DecodeField, PutTag, ReadVarint32, WireType.Code;
    assert GoodField(fields[k]);
    TagReadBack(fields[k].tag, wire, b);
    FindIsUnique(fields, k);
    assert PutTag(fields[k].tag, wire) + b != [];
  }

  /** What decoding field k with value v does to the structure. */
  function Put(fields: seq<Field>, m: Message, k: nat, v: Value): (r: Message)
    requires |m| == |fields| && k < |fields|
    ensures |r| == |fields|
  {
    match fields[k].rule
    case Required | Singular => m[k := One(v)]
    case Optional => m[k := Opt(true, v)]
    case Repeated => m[k := Many(Items(m[k]) + [v])]
    case Oneof(_) => Choose(fields, m, k, v)
  }

  lemma {:induction false} PackableIsNotString(kind: Kind)
    ensures kind.Packable() ==> kind.Wire().Code() != WtString.Code()
  {
  }

  lemma {:induction false} TaggedRoundTrip(fields: seq<Field>, p: Progress, k: nat, v: Value, rest: Bytes)
    requires |p.slots| == |fields| && k < |fields| && GoodFields(fields) && GoodValue(fields[k], v)
    requires fields[k].rule.Repeated? ==> |Items(p.slots[k])| < fields[k].arraySize
    requires fields[k].kind.Submessage? ==> Base(fields[k], Held(p.slots[k])) == Defaults(fields[k].sub)
    requires EncodeTagged(fields[k], v).Some? && |EncodeTagged(fields[k], v).value| < TWO_32
    ensures DecodeLoop(fields, p, EncodeTagged(fields[k], v).value + rest)
         == DecodeLoop(fields,
             Progress(Put(fields, p.slots, k, SameValue(fields[k], v)), Meet(fields, p.met, k), p.stopped), rest)
    decreases fields, 0
  {
    hide PutTag, DecodeLoop, Choose, EncodeValue, DecodeValue, SameValue, GoodValue, Base, Kind.Wire, WireType.Code;
    var f := fields[k];
    var body := EncodeValue(f, v).value;
    var tag := PutTag(f.tag, f.kind.Wire());
    assert (tag + body) + rest == tag + (body + rest);
    assert GoodField(f);
    PackableIsNotString(f.kind);
    ValueRoundTrip(f, Held(p.slots[k]), v, rest);
    TagStep(fields, p, k, f.kind.Wire(), body + rest);
  }

  // ----- fields

  /**
   Elements with a tag each are appended in order to those there are, also where the elements could be packed: a
   decoder takes both forms.
   */
  lemma {:induction false} UnpackedRoundTrip(fields: seq<Field>, p: Progress, k: nat, vs: seq<Value>, rest: Bytes)
    requires |p.slots| == |fields| && k < |fields| && GoodFields(fields) && p.slots[k].Many?
    requires fields[k].rule.Repeated? && |p.slots[k].values| + |vs| <= fields[k].arraySize
    requires forall j :: 0 <= j < |vs| ==> GoodValue(fields[k], vs[j])
    requires EncodeUnpacked(fields[k], vs).Some? && |EncodeUnpacked(fields[k], vs).value| < TWO_32
    ensures DecodeLoop(fields, p, EncodeUnpacked(fields[k], vs).value + rest)
         == DecodeLoop(fields, p.(slots := p.slots[k := Many(p.slots[k].values + Numbers(fields[k], vs))]), rest)
    decreases fields, 1, |vs|
  {
    hide DecodeLoop, EncodeTagged, SameValue, GoodValue, GoodFields;
    var f := fields[k];
    var before := p.slots[k].values;
    if vs == [] {
      assert EncodeUnpacked(f, vs).value + rest == rest;
      assert before + Numbers(f, vs) == before;
      assert p.slots[k := Many(before)] == p.slots;
    } else {
      var n := |vs| - 1;
      var front := EncodeUnpacked(f, vs[..n]).value;
      var last := EncodeTagged(f, vs[n]).value;
      assert (front + last) + rest == front + (last + rest);
      UnpackedRoundTrip(fields, p, k, vs[..n], last + rest);
      var q := p.(slots := p.slots[k := Many(before + Numbers(f, vs[..n]))]);
      TaggedRoundTrip(fields, q, k, vs[n], rest);
      assert before + Numbers(f, vs[..n]) + [SameValue(f, vs[n])] == before + Numbers(f, vs);
      assert q.slots[k := Many(before + Numbers(f, vs))] == p.slots[k := Many(before + Numbers(f, vs))];
    }
  }

  lemma {:induction false} NumbersAreThemselves(f: Field, vs: seq<Value>)
    requires f.kind.Packable()
    ensures Numbers(f, vs) == vs
  {
  }

  lemma {:induction false} PackedFieldRoundTrip(fields: seq<Field>, p: Progress, k: nat, vs: seq<Value>, rest: Bytes)
    requires |p.slots| == |fields| && k < |fields| && GoodFields(fields) && p.slots[k] == Many([])
    requires fields[k].rule.Repeated? && fields[k].kind.Packable() && 0 < |vs| <= fields[k].arraySize
    requires forall j :: 0 <= j < |vs| ==> GoodValue(fields[k], vs[j])
    requires EncodeArray(fields[k], vs).Some? && |EncodeArray(fields[k], vs).value| < TWO_32
    ensures DecodeLoop(fields, p, EncodeArray(fields[k], vs).value + rest)
         == DecodeLoop(fields, p.(slots := p.slots[k := Many(Numbers(fields[k], vs))]), rest)
  {
    hide DecodeLoop, GoodValue, PutTag, PutString, ReadString, EncodePacked;
    var f := fields[k];
    var data := EncodePacked(f, vs).value;
    var tag := PutTag(f.tag, WtString);
    assert GoodField(f);
    assert (tag + PutString(data)) + rest == tag + (PutString(data) + rest);
    ShorterContent(data);
    StringReadBack(data, rest);
    PackedRoundTrip(f, [], vs, []);
    assert data + [] == data && [] + vs == vs;
    NumbersAreThemselves(f, vs);
    TagStep(fields, p, k, WtString, PutString(data) + rest);
  }

  /** The members of a union other than k are not chosen. */
  ghost predicate NoRival(fields: seq<Field>, m: Message, k: nat)
    requires |m| == |fields| && k < |fields|
  {
    forall j :: 0 <= j < |fields| && Rivals(fields, k, j) ==> m[j] == Member(None)
  }

  lemma {:induction false} ChooseAlone(fields: seq<Field>, m: Message, k: nat, v: Value)
    requires |m| == |fields| && k < |fields| && NoRival(fields, m, k)
    ensures Choose(fields, m, k, v) == m[k := Member(Some(v))]
  {
  }

  lemma {:induction false} HeldDefault(f: Field)
    requires f.kind.Submessage?
    ensures Base(f, Held(DefaultSlot(f))) == Defaults(f.sub)
  {
  }

  /** A field that is written once, with its tag. */
  lemma {:induction false} SingleRoundTrip(fields: seq<Field>, p: Progress, k: nat, v: Value, rest: Bytes)
    requires |p.slots| == |fields| && k < |fields| && GoodFields(fields) && GoodValue(fields[k], v)
    requires p.slots[k] == DefaultSlot(fields[k]) && !fields[k].rule.Repeated? && NoRival(fields, p.slots, k)
    requires EncodeTagged(fields[k], v).Some? && |EncodeTagged(fields[k], v).value| < TWO_32
    ensures Put(fields, p.slots, k, SameValue(fields[k], v))
         == p.slots[k := if fields[k].rule.Oneof? then Member(Some(SameValue(fields[k], v)))
                         else if fields[k].rule.Optional? then Opt(true, SameValue(fields[k], v))
                         else One(SameValue(fields[k], v))]
    ensures DecodeLoop(fields, p, EncodeTagged(fields[k], v).value + rest)
         == DecodeLoop(fields,
             Progress(Put(fields, p.slots, k, SameValue(fields[k], v)), Meet(fields, p.met, k), p.stopped), rest)
    decreases fields, 1, 0
  {
    hide DecodeLoop, EncodeTagged, SameValue, GoodValue, GoodFields, Base, DefaultSlot, Choose, NoRival;
    if fields[k].kind.Submessage? {
      HeldDefault(fields[k]);
    }
    TaggedRoundTrip(fields, p, k, v, rest);
    ChooseAlone(fields, p.slots, k, SameValue(fields[k], v));
  }

  lemma {:induction false} OneFieldRoundTrip(fields: seq<Field>, p: Progress, k: nat, s: Slot, rest: Bytes)
    requires |p.slots| == |fields| && k < |fields| && GoodFields(fields) && GoodSlot(fields[k], s)
    requires p.slots[k] == DefaultSlot(fields[k]) && !fields[k].rule.Repeated? && NoRival(fields, p.slots, k)
    requires EncodeField(fields[k], s).Some? && |EncodeField(fields[k], s).value| < TWO_32
    ensures DecodeLoop(fields, p, EncodeField(fields[k], s).value + rest)
         == DecodeLoop(fields, Progress(p.slots[k := SameSlot(fields[k], s)], Meet(fields, p.met, k), p.stopped), rest)
    decreases fields, 2
  {
    hide DecodeLoop, EncodeTagged, SameValue, GoodValue, GoodFields, DefaultValue, Put, NoRival, ValueIsZero;
    var f := fields[k];
    if EncodeField(f, s).value == [] {
      EmptyFieldIsDefault(fields, k, s);
      assert [] + rest == rest;
      assert p.slots[k := SameSlot(f, s)] == p.slots;
    } else {
      var v := if s.Member? then s.chosen.value else s.value;
      SingleRoundTrip(fields, p, k, v, rest);
    }
  }

  lemma {:induction false} TaggedIsNotEmpty(f: Field, v: Value)
    requires EncodeTagged(f, v).Some?
    ensures EncodeTagged(f, v).value != []
  {
  }

  /** What is not written is the default. */
  lemma {:induction false} EmptyFieldIsDefault(fields: seq<Field>, k: nat, s: Slot)
    requires k < |fields| && GoodFields(fields) && GoodSlot(fields[k], s) && !fields[k].rule.Repeated?
    requires EncodeField(fields[k], s) == Some([])
    ensures SameSlot(fields[k], s) == DefaultSlot(fields[k]) && !fields[k].rule.Required?
  {
    hide EncodeTagged, SameValue, GoodValue, DefaultValue, ValueIsZero;
    var f := fields[k];
    assert GoodField(f);
    if f.rule.Singular? && ValueIsZero(f, s.value) {
      ZeroValueIsDefault(f, s.value);
    } else if EncodeTagged(f, Held(s)).Some? {
      TaggedIsNotEmpty(f, Held(s));
    }
    if s.Member? && s.chosen.Some? && EncodeTagged(f, s.chosen.value).Some? {
      TaggedIsNotEmpty(f, s.chosen.value);
    }
  }

  lemma {:induction false} WrittenUnlessZero(f: Field, s: Slot)
    ensures EncodeField(f, s) == Some([]) <==> SlotIsZero(f, s)
  {
    hide EncodeTagged, EncodePacked, ValueIsZero;
    var v := if f.rule.Oneof? && s.Member? && s.chosen.Some? then s.chosen.value else Held(s);
    if EncodeTagged(f, v).Some? {
      TaggedIsNotEmpty(f, v);
    }
    if f.rule.Repeated? && Items(s) != [] && EncodeUnpacked(f, Items(s)).Some? {
      TaggedIsNotEmpty(f, Items(s)[|Items(s)| - 1]);
    }
  }

  lemma {:induction false} DefaultIsZero(f: Field, v: Value)
    requires GoodField(f) && f.rule.Singular? && GoodValue(f, v) && !f.kind.FixedBytes? && !f.kind.Submessage?
    requires SameValue(f, v) == DefaultValue(f)
    ensures ValueIsZero(f, v)
  {
  }

  /**
   Exactly what the encoder leaves out. A proto3 number, bytes array or string is left out if and only if it is the
   default the decoder starts from; a proto3 submessage if and only if nothing would be written for any of its fields,
   and a byte string of fixed length only if that is 0, for its zero bytes are written.
   */
  lemma {:induction false} LeftOutIff(f: Field, s: Slot)
    requires GoodField(f) && GoodSlot(f, s)
    ensures f.rule.Required? ==> EncodeField(f, s) != Some([])
    ensures f.rule.Optional? ==> (EncodeField(f, s) == Some([]) <==> !s.has)
    ensures f.rule.Repeated? ==> (EncodeField(f, s) == Some([]) <==> s.values == [])
    ensures f.rule.Oneof? ==> (EncodeField(f, s) == Some([]) <==> s.chosen.None?)
    ensures f.rule.Singular? && !f.kind.FixedBytes? && !f.kind.Submessage? ==>
              (EncodeField(f, s) == Some([]) <==> SameSlot(f, s) == DefaultSlot(f))
    ensures f.rule.Singular? && f.kind.FixedBytes? ==> (EncodeField(f, s) == Some([]) <==> f.dataSize == 0)
    ensures f.rule.Singular? && f.kind.Submessage? ==>
              (EncodeField(f, s) == Some([]) <==>
                 forall i :: 0 <= i < |f.sub| ==> EncodeField(f.sub[i], SlotsOf(f.sub, s.value)[i]) == Some([]))
  {
    hide EncodeField, GoodValue, SameValue, DefaultValue, ValueIsZero;
    WrittenUnlessZero(f, s);
    if f.rule.Singular? {
      SingularLeftOut(f, s.value);
    }
  }

  lemma {:induction false} SingularLeftOut(f: Field, v: Value)
    requires GoodField(f) && f.rule.Singular? && GoodValue(f, v)
    ensures !f.kind.FixedBytes? && !f.kind.Submessage? ==> (ValueIsZero(f, v) <==> SameValue(f, v) == DefaultValue(f))
    ensures f.kind.FixedBytes? ==> (ValueIsZero(f, v) <==> f.dataSize == 0)
    ensures f.kind.Submessage? ==>
              (ValueIsZero(f, v) <==>
                 forall i :: 0 <= i < |f.sub| ==> EncodeField(f.sub[i], SlotsOf(f.sub, v)[i]) == Some([]))
  {
    hide EncodeField;
    if f.kind.Submessage? {
      var m := SlotsOf(f.sub, v);
      forall i | 0 <= i < |f.sub| ensures EncodeField(f.sub[i], m[i]) == Some([]) <==> SlotIsZero(f.sub[i], m[i]) {
        WrittenUnlessZero(f.sub[i], m[i]);
      }
    } else if ValueIsZero(f, v) {
      ZeroValueIsDefault(f, v);
    }
  }

  /** A packable array is written as one length-delimited field, whatever the number of its elements. */
  lemma {:induction false} PackedInOne(f: Field, vs: seq<Value>) returns (data: Bytes)
    requires GoodField(f) && f.kind.Packable() && 0 < |vs| <= f.arraySize
    requires forall k :: 0 <= k < |vs| ==> GoodValue(f, vs[k])
    ensures EncodeArray(f, vs) == Some(PutTag(f.tag, WtString) + PutString(data))
    ensures DecodePacked(f, [], data) == Some(vs)
  {
    hide PutTag, PutString, GoodValue, GoodField;
    GoodPackedEncodes(f, vs);
    data := EncodePacked(f, vs).value;
    PackedRoundTrip(f, [], vs, []);
    assert data + [] == data && [] + vs == vs;
  }

  lemma {:induction false} PackedFailsIff(f: Field, vs: seq<Value>)
    ensures EncodePacked(f, vs).None? <==> exists k :: 0 <= k < |vs| && EncodeValue(f, vs[k]).None?
    ensures EncodeUnpacked(f, vs).None? <==> exists k :: 0 <= k < |vs| && EncodeValue(f, vs[k]).None?
    decreases |vs|
  {
    hide EncodeValue;
    if vs != [] {
      var front := vs[..|vs| - 1];
      PackedFailsIff(f, front);
      assert forall k :: 0 <= k < |front| ==> front[k] == vs[k];
    }
  }

  lemma {:induction false} FirstFailsIff(fields: seq<Field>, m: Message, n: nat)
    requires |m| == |fields| && n <= |fields|
    ensures EncodeFirst(fields, m, n).None? <==> exists i :: 0 <= i < n && EncodeField(fields[i], m[i]).None?
    decreases n
  {
    hide EncodeField;
    if n > 0 {
      FirstFailsIff(fields, m, n - 1);
    }
  }

  /**
   Exactly when encoding fails, room in the stream apart: a bytes array is longer than its field, a number has a size
   there is not, an array more elements than its field has room for, or encoding a part of the value fails.
   */
  lemma {:induction false} EncodeFailsIff(f: Field, s: Slot)
    ensures forall v :: EncodeValue(f, v).None? <==>
              || (f.kind.BytesArray? && |BytesOf(v)| + 4 > f.dataSize)
              || ((f.kind.Varint? || f.kind.Uvarint? || f.kind.Svarint?) && f.dataSize !in {1, 2, 4, 8})
              || (f.kind.Submessage?
                  && exists i :: 0 <= i < |f.sub| && EncodeField(f.sub[i], SlotsOf(f.sub, v)[i]).None?)
    ensures f.rule.Repeated? ==>
              (EncodeField(f, s).None? <==>
                 Items(s) != [] && (|Items(s)| > f.arraySize
                                    || exists k :: 0 <= k < |Items(s)| && EncodeValue(f, Items(s)[k]).None?))
    ensures f.rule.Required? ==> (EncodeField(f, s).None? <==> EncodeValue(f, Held(s)).None?)
    ensures f.rule.Optional? ==> (EncodeField(f, s).None? <==> s.Opt? && s.has && EncodeValue(f, s.value).None?)
    ensures f.rule.Oneof? ==>
              (EncodeField(f, s).None? <==> s.Member? && s.chosen.Some? && EncodeValue(f, s.chosen.value).None?)
    ensures f.rule.Singular? ==>
              (EncodeField(f, s).None? <==> EncodeField(f, s) != Some([]) && EncodeValue(f, Held(s)).None?)
  {
    hide PutString, PutVarint, Fixed;
    PackedFailsIff(f, Items(s));
    forall v ensures f.kind.Submessage? ==>
        (EncodeMessage(f.sub, SlotsOf(f.sub, v)).None? <==>
           exists i :: 0 <= i < |f.sub| && EncodeField(f.sub[i], SlotsOf(f.sub, v)[i]).None?)
    {
      FirstFailsIff(f.sub, SlotsOf(f.sub, v), |f.sub|);
    }
    hide EncodeFirst, EncodePacked, EncodeUnpacked;
  }

  /** A message is encoded as nothing if and only if each of its fields is left out. */
  lemma {:induction false} EncodesToNothingIff(fields: seq<Field>, m: Message, n: nat)
    requires |m| == |fields| && n <= |fields|
    ensures EncodeFirst(fields, m, n) == Some([]) <==>
              forall i :: 0 <= i < n ==> EncodeField(fields[i], m[i]) == Some([])
    decreases n
  {
    hide EncodeField;
    if n > 0 {
      EncodesToNothingIff(fields, m, n - 1);
      var front, last := EncodeFirst(fields, m, n - 1), EncodeField(fields[n - 1], m[n - 1]);
      if front.Some? && last.Some? {
        assert |front.value + last.value| == |front.value| + |last.value|;
        assert front.value + last.value == [] ==> front.value == [] && last.value == [];
      }
    }
  }

  lemma {:induction false} RepeatedFieldRoundTrip(fields: seq<Field>, p: Progress, k: nat, s: Slot, rest: Bytes)
    requires |p.slots| == |fields| && k < |fields| && GoodFields(fields) && GoodSlot(fields[k], s)
    requires p.slots[k] == DefaultSlot(fields[k]) && fields[k].rule.Repeated?
    requires EncodeField(fields[k], s).Some? && |EncodeField(fields[k], s).value| < TWO_32
    ensures DecodeLoop(fields, p, EncodeField(fields[k], s).value + rest)
         == DecodeLoop(fields, Progress(p.slots[k := SameSlot(fields[k], s)], Meet(fields, p.met, k), p.stopped), rest)
    decreases fields, 2
  {
    hide DecodeLoop, SameValue, GoodValue, GoodFields, EncodePacked, EncodeUnpacked;
    var f := fields[k];
    assert SameSlot(f, s) == Many(Numbers(f, s.values));
    if s.values == [] {
      assert [] + rest == rest;
      assert p.slots[k := Many([])] == p.slots;
      assert Numbers(f, s.values) == [];
    } else if f.kind.Packable() {
      PackedFieldRoundTrip(fields, p, k, s.values, rest);
    } else {
      UnpackedRoundTrip(fields, p, k, s.values, rest);
      assert [] + Numbers(f, s.values) == Numbers(f, s.values);
    }
  }

  // ----- messages

  /** The structure when the first n fields have been decoded. */
  function Partly(fields: seq<Field>, m: Message, n: nat): (r: Message)
    requires |m| == |fields| && n <= |fields|
    ensures |r| == |fields|
  {
    SameMessage(fields, m)[..n] + Defaults(fields)[n..]
  }

  function RequiredAmong(fields: seq<Field>, n: nat): set<nat>
    requires n <= |fields|
  {
    set i: nat | i < n && fields[i].rule.Required?
  }

  lemma {:induction false} PartlyStep(fields: seq<Field>, m: Message, n: nat)
    requires |m| == |fields| && n < |fields|
    ensures Partly(fields, m, n)[n] == DefaultSlot(fields[n])
    ensures Partly(fields, m, n + 1) == Partly(fields, m, n)[n := SameSlot(fields[n], m[n])]
    ensures Meet(fields, RequiredAmong(fields, n), n) == RequiredAmong(fields, n + 1)
  {
    hide SameSlot, DefaultSlot;
  }

  lemma {:induction false} RivalHoldsNothing(fields: seq<Field>, m: Message, n: nat, j: nat)
    requires GoodMessage(fields, m) && n < |fields| && j < |fields| && m[n] != Member(None) && Rivals(fields, n, j)
    ensures Partly(fields, m, n)[j] == Member(None)
  {
    hide GoodValue, SameValue, DefaultValue;
    assert m[j] == Member(None);
    if j < n {
      assert Partly(fields, m, n)[j] == SameSlot(fields[j], m[j]);
    } else {
      assert Partly(fields, m, n)[j] == DefaultSlot(fields[j]);
    }
  }

  /** When member n of a union is about to be decoded, no other member has been chosen. */
  lemma {:induction false} PartlyNoRival(fields: seq<Field>, m: Message, n: nat)
    requires GoodMessage(fields, m) && n < |fields| && m[n] != Member(None)
    ensures NoRival(fields, Partly(fields, m, n), n)
  {
    hide GoodMessage, Partly;
    forall j | 0 <= j < |fields| && Rivals(fields, n, j) ensures Partly(fields, m, n)[j] == Member(None) {
      RivalHoldsNothing(fields, m, n, j);
    }
  }

  lemma {:induction false} NothingChosen(f: Field)
    requires f.rule.Oneof?
    ensures EncodeField(f, Member(None)) == Some([]) && SameSlot(f, Member(None)) == DefaultSlot(f)
  {
  }

  lemma {:induction false} NextFieldRoundTrip(fields: seq<Field>, m: Message, n: nat, rest: Bytes)
    requires GoodFields(fields) && GoodMessage(fields, m) && n < |fields|
    requires EncodeField(fields[n], m[n]).Some? && |EncodeField(fields[n], m[n]).value| < TWO_32
    ensures DecodeLoop(fields, Progress(Partly(fields, m, n), RequiredAmong(fields, n), false),
        EncodeField(fields[n], m[n]).value + rest)
         == DecodeLoop(fields, Progress(Partly(fields, m, n + 1), RequiredAmong(fields, n + 1), false), rest)
    decreases fields, 3
  {
    hide DecodeLoop, EncodeField, SameSlot, GoodFields, DefaultSlot, Partly, NoRival, RequiredAmong;
    var p := Progress(Partly(fields, m, n), RequiredAmong(fields, n), false);
    PartlyStep(fields, m, n);
    assert GoodSlot(fields[n], m[n]);
    if fields[n].rule.Repeated? {
      RepeatedFieldRoundTrip(fields, p, n, m[n], rest);
    } else if m[n] == Member(None) {
      NothingChosen(fields[n]);
      assert [] + rest == rest;
      assert p.slots[n := DefaultSlot(fields[n])] == p.slots;
    } else {
      PartlyNoRival(fields, m, n);
      OneFieldRoundTrip(fields, p, n, m[n], rest);
    }
  }

  lemma {:induction false} FirstRoundTrip(fields: seq<Field>, m: Message, n: nat, rest: Bytes)
    requires GoodFields(fields) && GoodMessage(fields, m) && n <= |fields|
    requires EncodeFirst(fields, m, n).Some? && |EncodeFirst(fields, m, n).value| < TWO_32
    ensures DecodeLoop(fields, Progress(Defaults(fields), {}, false), EncodeFirst(fields, m, n).value + rest)
         == DecodeLoop(fields, Progress(Partly(fields, m, n), RequiredAmong(fields, n), false), rest)
    decreases fields, 4, n
  {
    hide DecodeLoop, EncodeField, GoodFields, GoodMessage;
    if n == 0 {
      assert EncodeFirst(fields, m, n).value + rest == rest;
      assert Partly(fields, m, 0) == Defaults(fields);
      assert RequiredAmong(fields, 0) == {};
    } else {
      var front := EncodeFirst(fields, m, n - 1).value;
      var last := EncodeField(fields[n - 1], m[n - 1]).value;
      assert (front + last) + rest == front + (last + rest);
      FirstRoundTrip(fields, m, n - 1, last + rest);
      NextFieldRoundTrip(fields, m, n - 1, rest);
    }
  }

  lemma {:induction false} AllMet(fields: seq<Field>)
    ensures AllRequired(fields, RequiredAmong(fields, |fields|))
  {
  }

  lemma {:induction false} MessageRoundTrip(fields: seq<Field>, m: Message)
    requires GoodFields(fields) && GoodMessage(fields, m)
    requires EncodeMessage(fields, m).Some? && |EncodeMessage(fields, m).value| < TWO_32
    ensures DecodeMessage(fields, Defaults(fields), EncodeMessage(fields, m).value)
         == Some(Progress(SameMessage(fields, m), RequiredAmong(fields, |fields|), false))
    decreases fields, 5
  {
    hide EncodeField, GoodFields, GoodMessage, AllRequired;
    var b := EncodeMessage(fields, m).value;
    assert b + [] == b;
    FirstRoundTrip(fields, m, |fields|, []);
    assert Partly(fields, m, |fields|) == SameMessage(fields, m);
    AllMet(fields);
  }

  /**
   pb_decode of what pb_encode wrote succeeds and yields the same message. The encoder does not
   fail on a well-formed message, so the only bound is the size a length prefix can carry.
   */
  lemma {:induction false} EncodeThenDecode(fields: seq<Field>, m: Message)
    requires GoodFields(fields) && GoodMessage(fields, m)
    ensures EncodeMessage(fields, m).Some?
    ensures |EncodeMessage(fields, m).value| < TWO_32 ==>
      Decode(fields, EncodeMessage(fields, m).value) == Some(SameMessage(fields, m))
  {
    hide GoodFields, GoodMessage, EncodeMessage, DecodeMessage, SameMessage;
    GoodMessageEncodes(fields, m);
    if |EncodeMessage(fields, m).value| < TWO_32 {
      MessageRoundTrip(fields, m);
    }
  }

  // ----- when the message itself comes back

  ghost predicate CanonicalValue(f: Field, v: Value)
    decreases f, 0
  {
    match f.kind
    case CString => forall k :: 0 <= k < |BytesOf(v)| ==> BytesOf(v)[k] != 0
    case Submessage => CanonicalMessage(f.sub, SlotsOf(f.sub, v))
    case _ => true
  }

  /** Absent optional fields hold their defaults, and strings stop at their terminators. */
  ghost predicate CanonicalSlot(f: Field, s: Slot)
    decreases f, 1
  {
    match f.rule
    case Required | Singular => CanonicalValue(f, Held(s))
    case Optional => if s.Opt? && s.has then CanonicalValue(f, s.value) else Held(s) == DefaultValue(f)
    case Repeated => forall k :: 0 <= k < |Items(s)| ==> CanonicalValue(f, Items(s)[k])
    case Oneof(_) => s.Member? && s.chosen.Some? ==> CanonicalValue(f, s.chosen.value)
  }

  ghost predicate CanonicalMessage(fields: seq<Field>, m: Message)
    requires |m| == |fields|
    decreases fields
  {
    forall i :: 0 <= i < |fields| ==> CanonicalSlot(fields[i], m[i])
  }

  lemma {:induction false} SameValueIff(f: Field, v: Value)
    requires GoodValue(f, v)
    ensures SameValue(f, v) == v <==> CanonicalValue(f, v)
    decreases f, 0
  {
    if f.kind.Submessage? {
      SlotsOfGood(f.sub, v);
      SameMessageIff(f.sub, v.slots);
    } else if f.kind.CString? {
      var t := Text(v.bytes, f.dataSize);
      assert t == v.bytes ==> forall k :: 0 <= k < |v.bytes| ==> v.bytes[k] == t[k];
      assert |t| < |v.bytes| ==> v.bytes[|t|] == 0;
    }
  }

  lemma {:induction false} SameSlotIff(f: Field, s: Slot)
    requires GoodSlot(f, s)
    ensures SameSlot(f, s) == s <==> CanonicalSlot(f, s)
    decreases f, 1
  {
    match f.rule
    case Required | Singular => SameValueIff(f, s.value);
    case Optional => if s.has { SameValueIff(f, s.value); }
    case Oneof(_) => if s.chosen.Some? { SameValueIff(f, s.chosen.value); }
    case Repeated =>
      var same := SameSlot(f, s).values;
      forall k | 0 <= k < |s.values| ensures same[k] == s.values[k] <==> CanonicalValue(f, s.values[k]) {
        SameValueIff(f, s.values[k]);
      }
      assert same == s.values <==> forall k :: 0 <= k < |s.values| ==> same[k] == s.values[k];
  }

  /** The round trip changes nothing if and only if the message is canonical. */
  lemma {:induction false} SameMessageIff(fields: seq<Field>, m: Message)
    requires GoodMessage(fields, m)
    ensures SameMessage(fields, m) == m <==> CanonicalMessage(fields, m)
    decreases fields
  {
    hide GoodValue, SameValue;
    var same := SameMessage(fields, m);
    forall i | 0 <= i < |fields| ensures same[i] == m[i] <==> CanonicalSlot(fields[i], m[i]) {
      SameSlotIff(fields[i], m[i]);
    }
    assert same == m <==> forall i :: 0 <= i < |m| ==> same[i] == m[i];
  }

  /** Two messages with the same encoding are the same message. */
  lemma {:induction false} EncodingsDiffer(fields: seq<Field>, m: Message, n: Message)
    requires GoodFields(fields) && GoodMessage(fields, m) && GoodMessage(fields, n)
    requires EncodeMessage(fields, m) == EncodeMessage(fields, n) && EncodeMessage(fields, m).Some?
    requires |EncodeMessage(fields, m).value| < TWO_32
    ensures SameMessage(fields, m) == SameMessage(fields, n)
  {
    hide GoodFields, GoodMessage, EncodeMessage, Decode, SameMessage;
    EncodeThenDecode(fields, m);
    EncodeThenDecode(fields, n);
  }
}
