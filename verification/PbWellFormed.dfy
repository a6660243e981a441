/**
 Whatever bytes are decoded, the structure stays well-formed: counts within their arrays, byte
 strings within their buffers, numbers within their fields, one member chosen in a union.
 So what was decoded can be encoded again.
 */
module PbWellFormed {
  import opened Entries
  import opened Coding
  import opened PbWire
  import opened PbSchema
  import opened PbEncoding
  import opened PbDecoding
  import opened PbRoundTrip

  // ----- descriptions whose initial values fit their fields

  ghost predicate GoodInit(f: Field)
    decreases f
  {
    if f.kind.Submessage? then GoodInits(f.sub)
    else f.rule.Required? || f.rule.Singular? ==> GoodValue(f, f.init)
  }

  ghost predicate GoodInits(fields: seq<Field>)
    decreases fields
  {
    forall i :: 0 <= i < |fields| ==> GoodInit(fields[i])
  }

  // ----- structures a decoder can go on with: nested structures are well-formed even while absent

  ghost predicate ReadyValue(f: Field, v: Value)
    decreases f, 0
  {
    if f.kind.Submessage? then v.Msg? && ReadyMessage(f.sub, v.slots) else GoodValue(f, v)
  }

  ghost predicate ReadySlot(f: Field, s: Slot)
    decreases f, 1
  {
    match f.rule
    case Required | Singular => s.One? && ReadyValue(f, s.value)
    case Optional => s.Opt? && (s.has || f.kind.Submessage? ==> ReadyValue(f, s.value))
    case Repeated => s.Many? && |s.values| <= f.arraySize && forall k :: 0 <= k < |s.values| ==> ReadyValue(f,
        s.values[k])
    case Oneof(_) => s.Member? && (s.chosen.Some? ==> ReadyValue(f, s.chosen.value))
  }

  ghost predicate ReadyMessage(fields: seq<Field>, m: Message): (ready: bool)
    ensures ready ==> |m| == |fields|
    decreases fields
  {
    && |m| == |fields|
    && OneChosen(fields, m)
    && forall i :: 0 <= i < |fields| ==> ReadySlot(fields[i], m[i])
  }

  lemma {:induction false} ReadyValueIsGood(f: Field, v: Value)
    requires ReadyValue(f, v)
    ensures GoodValue(f, v)
    decreases f, 0
  {
    if f.kind.Submessage? {
      ReadyIsGood(f.sub, v.slots);
    }
  }

  lemma {:induction false} ReadySlotIsGood(f: Field, s: Slot)
    requires ReadySlot(f, s)
    ensures GoodSlot(f, s)
    decreases f, 1
  {
    match f.rule
    case Required | Singular => ReadyValueIsGood(f, s.value);
    case Optional => if s.has { ReadyValueIsGood(f, s.value); }
    case Oneof(_) => if s.chosen.Some? { ReadyValueIsGood(f, s.chosen.value); }
    case Repeated =>
      forall k | 0 <= k < |s.values| ensures GoodValue(f, s.values[k]) {
        ReadyValueIsGood(f, s.values[k]);
      }
  }

  lemma {:induction false} ReadyIsGood(fields: seq<Field>, m: Message)
    requires ReadyMessage(fields, m)
    ensures GoodMessage(fields, m)
    decreases fields
  {
    hide GoodSlot, ReadySlot;
    forall i | 0 <= i < |fields| ensures GoodSlot(fields[i], m[i]) {
      ReadySlotIsGood(fields[i], m[i]);
    }
  }

  lemma {:induction false} DefaultsAreReady(fields: seq<Field>)
    requires GoodInits(fields)
    ensures ReadyMessage(fields, Defaults(fields))
    decreases fields
  {
    forall i | 0 <= i < |fields| ensures ReadySlot(fields[i], DefaultSlot(fields[i])) {
      assert GoodInit(fields[i]);
      if fields[i].kind.Submessage? {
        DefaultsAreReady(fields[i].sub);
      }
    }
  }

  // ----- decoded values fit

  lemma {:induction false} FixedIsBounded(b: Bytes)
    ensures DecodeFixed(b) < Pow256(|b|)
  {
    if b != [] {
      FixedIsBounded(b[1..]);
    }
  }

  lemma {:induction false} NumberIsGood(kind: Kind, size: nat, b: Bytes)
    requires kind.Packable() && DecodeNumber(kind, size, b).Some?
    ensures GoodNumber(kind, size, DecodeNumber(kind, size, b).value.0)
  {
    hide ReadVarint, Pow256, DecodeFixed;
    Pow256Values();
    if kind.Fixed32? {
      FixedIsBounded(b[..4]);
    } else if kind.Fixed64? {
      FixedIsBounded(b[..8]);
    }
  }

  lemma {:induction false} BytesAreGood(f: Field, b: Bytes)
    requires f.kind.BytesArray? || f.kind.CString? || f.kind.FixedBytes?
    requires DecodeBytes(f, b).Some?
    ensures GoodValue(f, DecodeBytes(f, b).value.0)
  {
    hide ReadString;
  }

  lemma {:induction false} PackedIsReady(f: Field, done: seq<Value>, b: Bytes)
    requires f.kind.Packable() && f.rule.Repeated? && ReadySlot(f, Many(done)) && DecodePacked(f, done, b).Some?
    ensures ReadySlot(f, Many(DecodePacked(f, done, b).value))
    decreases |b|
  {
    hide DecodeNumber, GoodNumber;
    if b != [] {
      var (n, rest) := DecodeNumber(f.kind, f.dataSize, b).value;
      NumberIsGood(f.kind, f.dataSize, b);
      PackedIsReady(f, done + [Num(n)], rest);
    }
  }

  lemma {:induction false} ValueIsReady(f: Field, prior: Value, b: Bytes)
    requires GoodInit(f) && DecodeValue(f, prior, b).Some?
    requires f.kind.Submessage? && !f.rule.Repeated? && !f.rule.Oneof? ==> ReadyValue(f, prior)
    ensures ReadyValue(f, DecodeValue(f, prior, b).value.0)
    decreases f, 0
  {
    hide DecodeNumber, GoodNumber, DecodeBytes, DecodeMessage, ReadString, ReadyMessage, GoodInits;
    if f.kind.Packable() {
      NumberIsGood(f.kind, f.dataSize, b);
    } else if f.kind.Submessage? {
      var base := Base(f, prior);
      DefaultsAreReady(f.sub);
      MessageIsReady(f.sub, base, ReadString(b).value.0);
    } else {
      BytesAreGood(f, b);
    }
  }

  // ----- the union stays a union

  lemma {:induction false} ChooseIsReady(fields: seq<Field>, m: Message, i: nat, v: Value)
    requires ReadyMessage(fields, m) && i < |fields| && fields[i].rule.Oneof? && ReadyValue(fields[i], v)
    ensures ReadyMessage(fields, Choose(fields, m, i, v))
  {
    hide ReadyValue;
    var r := Choose(fields, m, i, v);
    forall a, b | 0 <= a < |fields| && 0 <= b < |fields| && Rivals(fields, a, b) && r[a] != Member(None)
      ensures r[b] == Member(None)
    {
      if a == i {
        assert Rivals(fields, i, b);
      } else {
        assert !Rivals(fields, i, a);
        assert b != i;
        assert m[b] == Member(None);
      }
    }
    forall j | 0 <= j < |fields| ensures ReadySlot(fields[j], r[j]) {
      assert ReadySlot(fields[j], m[j]);
    }
  }

  lemma {:induction false} UpdateIsReady(fields: seq<Field>, m: Message, i: nat, s: Slot)
    requires ReadyMessage(fields, m) && i < |fields| && !fields[i].rule.Oneof? && ReadySlot(fields[i], s)
    ensures ReadyMessage(fields, m[i := s])
  {
    hide ReadySlot;
    var r := m[i := s];
    forall a, b | 0 <= a < |fields| && 0 <= b < |fields| && Rivals(fields, a, b) && r[a] != Member(None)
      ensures r[b] == Member(None)
    {
      assert a != i && b != i;
      assert m[b] == Member(None);
    }
  }

  lemma {:induction false} FieldIsReady(fields: seq<Field>, m: Message, i: nat, wire: nat, b: Bytes)
    requires GoodInits(fields) && ReadyMessage(fields, m) && i < |fields| && DecodeField(fields, m, i, wire, b).Some?
    ensures ReadyMessage(fields, DecodeField(fields, m, i, wire, b).value.0)
    decreases fields, 0
  {
    hide DecodeValue, ReadString, Choose, DecodePacked, ReadyMessage, ReadyValue, GoodInit;
    var f := fields[i];
    assert ReadySlot(f, m[i]) by {
      SlotOfReady(fields, m, i);
    }
    assert GoodInit(f);
    if f.rule.Repeated? && wire == WtString.Code() && f.kind.Packable() {
      PackedIsReady(f, m[i].values, ReadString(b).value.0);
      UpdateIsReady(fields, m, i, Many(DecodePacked(f, m[i].values, ReadString(b).value.0).value));
    } else {
      ValueIsReady(f, Held(m[i]), b);
      var v := DecodeValue(f, Held(m[i]), b).value.0;
      match f.rule
      case Required | Singular => UpdateIsReady(fields, m, i, One(v));
      case Optional => UpdateIsReady(fields, m, i, Opt(true, v));
      case Repeated => UpdateIsReady(fields, m, i, Many(m[i].values + [v]));
      case Oneof(_) => ChooseIsReady(fields, m, i, v);
    }
  }

  lemma {:induction false} SlotOfReady(fields: seq<Field>, m: Message, i: nat)
    requires ReadyMessage(fields, m) && i < |fields|
    ensures ReadySlot(fields[i], m[i])
  {
  }

  // ----- messages

  lemma {:induction false} LoopIsReady(fields: seq<Field>, p: Progress, b: Bytes)
    requires GoodInits(fields) && ReadyMessage(fields, p.slots) && DecodeLoop(fields, p, b).Some?
    ensures ReadyMessage(fields, DecodeLoop(fields, p, b).value.slots)
    decreases fields, 1, |b|
  {
    hide DecodeField, SkipField, ReadVarint32, ReadyMessage, GoodInits;
    if b != [] && ReadVarint32(b).value.0 != 0 {
      var (key, rest) := ReadVarint32(b).value;
      var i := Find(fields, key / 8);
      if i < |fields| {
        FieldIsReady(fields, p.slots, i, key % 8, rest);
      }
      var (q, left) := Step(fields, p, key, rest).value;
      LoopIsReady(fields, q, left);
    }
  }

  lemma {:induction false} MessageIsReady(fields: seq<Field>, m: Message, b: Bytes)
    requires GoodInits(fields) && ReadyMessage(fields, m) && DecodeMessage(fields, m, b).Some?
    ensures ReadyMessage(fields, DecodeMessage(fields, m, b).value.slots)
    decreases fields, 2
  {
    hide DecodeLoop, ReadyMessage, GoodInits;
    LoopIsReady(fields, Progress(m, {}, false), b);
  }

  /** Any input that decodes at all decodes into a well-formed message. */
  lemma {:induction false} DecodedIsGood(fields: seq<Field>, b: Bytes)
    requires GoodInits(fields) && Decode(fields, b).Some?
    ensures GoodMessage(fields, Decode(fields, b).value)
  {
    hide DecodeMessage, GoodMessage, ReadyMessage, GoodInits;
    DefaultsAreReady(fields);
    MessageIsReady(fields, Defaults(fields), b);
    ReadyIsGood(fields, Decode(fields, b).value);
  }

  /** What was decoded, from whatever input, encodes again and is then read back as the same message. */
  lemma {:induction false} DecodedReencodes(fields: seq<Field>, b: Bytes)
    requires GoodFields(fields) && GoodInits(fields) && Decode(fields, b).Some?
    ensures var m := Decode(fields, b).value;
            EncodeMessage(fields, m).Some? && (|EncodeMessage(fields, m).value| < TWO_32 ==>
              Decode(fields, EncodeMessage(fields, m).value) == Some(SameMessage(fields, m)))
  {
    hide GoodFields, GoodInits, GoodMessage, Decode, EncodeMessage, SameMessage;
    DecodedIsGood(fields, b);
    EncodeThenDecode(fields, Decode(fields, b).value);
  }
}
