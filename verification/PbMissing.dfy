/**
 What becomes of fields the input does not have: decoding fails for want of a required one, and any other keeps what it
 held. The fields an input has are found by a walk over its tags alone, which decodes nothing.
 */
module PbMissing {
  import opened Entries
  import opened Coding
  import opened PbWire
  import opened PbSchema
  import opened PbDecoding

  // ----- the tags of an input

  /** The wire type by which what follows a key is as long as it is: that of its field's type, if it has a field. */
  function TakenAs(fields: seq<Field>, key: nat): nat {
    var i := Find(fields, key / 8);
    if i == |fields| || (fields[i].rule.Repeated? && fields[i].kind.Packable() && key % 8 == 2) then key % 8
    else fields[i].kind.Wire().Code()
  }

  /** The tags up to the end of the bytes or a zero key. */
  function TagsRead(fields: seq<Field>, b: Bytes): set<nat>
    decreases |b|
  {
    if b == [] || ReadVarint32(b).None? || ReadVarint32(b).value.0 == 0 then {}
    else
      var (key, rest) := ReadVarint32(b).value;
      var left := SkipField(TakenAs(fields, key), rest);
      {key / 8} + if left.None? then {} else TagsRead(fields, left.value)
  }

  /** The first 64 required fields are among those read. */
  predicate RequiredRead(fields: seq<Field>, tags: set<nat>) {
    forall i :: 0 <= i < |fields| && fields[i].rule.Required? && RequiredBefore(fields, i) < 64 ==>
      fields[i].tag in tags
  }

  // ----- decoding a field takes the bytes the walk passes over

  lemma {:induction false} VarintTakes(b: Bytes, limit: nat)
    requires GetVarint(b, limit).Some?
    ensures SkipVarint(b) == Some(GetVarint(b, limit).value.1)
  {
    if b[0] >= 128 {
      VarintTakes(b[1..], limit - 1);
    }
  }

  lemma {:induction false} ValueTakes(f: Field, prior: Value, b: Bytes)
    requires DecodeValue(f, prior, b).Some?
    ensures SkipField(f.kind.Wire().Code(), b) == Some(DecodeValue(f, prior, b).value.1)
  {
    hide GetVarint, SkipVarint, DecodeMessage, ReadString;
    if f.kind.Varint? || f.kind.Uvarint? || f.kind.Svarint? {
      VarintTakes(b, 10);
    }
  }

  lemma {:induction false} StepTakes(fields: seq<Field>, p: Progress, key: nat, b: Bytes)
    requires |p.slots| == |fields| && Step(fields, p, key, b).Some?
    ensures SkipField(TakenAs(fields, key), b) == Some(Step(fields, p, key, b).value.1)
  {
    hide DecodeValue, DecodePacked, Choose, ReadString;
    var i := Find(fields, key / 8);
    if i < |fields| && !(fields[i].rule.Repeated? && fields[i].kind.Packable() && key % 8 == 2) {
      ValueTakes(fields[i], Held(p.slots[i]), b);
    }
  }

  // ----- the required fields met are those read

  lemma {:induction false} MetAreRead(fields: seq<Field>, p: Progress, b: Bytes, i: nat)
    requires |p.slots| == |fields| && i < |fields| && UniqueTags(fields) && fields[i].rule.Required?
    requires DecodeLoop(fields, p, b).Some?
    ensures i in DecodeLoop(fields, p, b).value.met <==> i in p.met || fields[i].tag in TagsRead(fields, b)
    decreases |b|
  {
    hide ReadVarint32, DecodeField, SkipField, TakenAs;
    if b != [] && ReadVarint32(b).value.0 != 0 {
      var (key, rest) := ReadVarint32(b).value;
      var (q, left) := Step(fields, p, key, rest).value;
      StepTakes(fields, p, key, rest);
      MetAreRead(fields, q, left, i);
    }
  }

  // ----- the description without required fields

  function Asked(f: Field): Field {
    if f.rule.Required? then f.(rule := Singular) else f
  }

  /** The description with no field required. */
  function Lenient(fields: seq<Field>): (r: seq<Field>)
    ensures |r| == |fields|
  {
    seq(|fields|, i requires 0 <= i < |fields| => Asked(fields[i]))
  }

  lemma {:induction false} FindLenient(fields: seq<Field>, tag: nat)
    ensures Find(Lenient(fields), tag) == Find(fields, tag)
  {
    var i, j := Find(fields, tag), Find(Lenient(fields), tag);
    assert j < |fields| ==> Lenient(fields)[j].tag == fields[j].tag;
    assert i < |fields| ==> Lenient(fields)[i].tag == fields[i].tag;
  }

  lemma {:induction false} ValueLenient(f: Field, prior: Value, b: Bytes)
    ensures DecodeValue(Asked(f), prior, b) == DecodeValue(f, prior, b)
  {
    hide DecodeMessage, DecodeNumber, ReadString;
  }

  lemma {:induction false} FieldLenient(fields: seq<Field>, m: Message, i: nat, wire: nat, b: Bytes)
    requires |m| == |fields| && i < |fields|
    ensures DecodeField(Lenient(fields), m, i, wire, b) == DecodeField(fields, m, i, wire, b)
  {
    hide DecodeValue, ReadString;
    var f := fields[i];
    ValueLenient(f, Held(m[i]), b);
    if f.rule.Repeated? {
      assert Lenient(fields)[i] == f;
    } else if f.rule.Oneof? && DecodeValue(f, Held(m[i]), b).Some? {
      var v := DecodeValue(f, Held(m[i]), b).value.0;
      assert Choose(Lenient(fields), m, i, v) == Choose(fields, m, i, v);
    }
  }

  lemma {:induction false} LoopLenient(fields: seq<Field>, p: Progress, q: Progress, b: Bytes)
    requires |p.slots| == |fields| && q.slots == p.slots && q.stopped == p.stopped
    ensures DecodeLoop(Lenient(fields), q, b).Some? <==> DecodeLoop(fields, p, b).Some?
    ensures DecodeLoop(fields, p, b).Some? ==>
      DecodeLoop(Lenient(fields), q, b).value.slots == DecodeLoop(fields, p, b).value.slots
      && DecodeLoop(Lenient(fields), q, b).value.stopped == DecodeLoop(fields, p, b).value.stopped
    decreases |b|
  {
    hide ReadVarint32, DecodeField, SkipField, Lenient;
    if b != [] && ReadVarint32(b).Some? && ReadVarint32(b).value.0 != 0 {
      var (key, rest) := ReadVarint32(b).value;
      FindLenient(fields, key / 8);
      var i := Find(fields, key / 8);
      if i < |fields| {
        FieldLenient(fields, p.slots, i, key % 8, rest);
      }
      if Step(fields, p, key, rest).Some? {
        LoopLenient(fields, Step(fields, p, key, rest).value.0, Step(Lenient(fields), q, key, rest).value.0,
            Step(fields, p, key, rest).value.1);
      }
    }
  }

  // ----- the main results

  /**
   Exactly when an input decodes: it would if no field were required, and it has each of the first 64 required fields.
   What it decodes into does not depend on which fields are required.
   */
  lemma {:induction false} DecodesIff(fields: seq<Field>, m: Message, b: Bytes)
    requires |m| == |fields| && UniqueTags(fields)
    ensures DecodeMessage(fields, m, b).Some? <==>
              DecodeMessage(Lenient(fields), m, b).Some? && RequiredRead(fields, TagsRead(fields, b))
    ensures DecodeMessage(fields, m, b).Some? ==>
              DecodeMessage(fields, m, b).value.slots == DecodeMessage(Lenient(fields), m, b).value.slots
  {
    hide DecodeLoop, TagsRead;
    var p := Progress(m, {}, false);
    LoopLenient(fields, p, p, b);
    if DecodeLoop(fields, p, b).Some? {
      forall i | 0 <= i < |fields| && fields[i].rule.Required?
        ensures i in DecodeLoop(fields, p, b).value.met <==> fields[i].tag in TagsRead(fields, b)
      {
        MetAreRead(fields, p, b, i);
      }
    }
  }

  /** A field the input does not have keeps what it held, but for a union member another member takes the place of. */
  lemma {:induction false} UnreadKeeps(fields: seq<Field>, p: Progress, b: Bytes, i: nat)
    requires |p.slots| == |fields| && i < |fields| && fields[i].tag !in TagsRead(fields, b)
    requires DecodeLoop(fields, p, b).Some?
    ensures var s := DecodeLoop(fields, p, b).value.slots[i];
            s == p.slots[i] || (fields[i].rule.Oneof? && s == Member(None))
    decreases |b|
  {
    hide ReadVarint32, DecodeValue, DecodePacked, SkipField, TakenAs;
    if b != [] && ReadVarint32(b).value.0 != 0 {
      var (key, rest) := ReadVarint32(b).value;
      StepTakes(fields, p, key, rest);
      var (q, left) := Step(fields, p, key, rest).value;
      assert q.slots[i] == p.slots[i] || (fields[i].rule.Oneof? && q.slots[i] == Member(None));
      UnreadKeeps(fields, q, left, i);
    }
  }

  /** So in a decoded message the fields the input did not have hold the values of their description. */
  lemma {:induction false} AbsentIsInit(fields: seq<Field>, b: Bytes, i: nat)
    requires Decode(fields, b).Some? && i < |fields| && fields[i].tag !in TagsRead(fields, b)
    ensures var f := fields[i];
            var init := if f.kind.Submessage? then Msg(Defaults(f.sub)) else f.init;
            Decode(fields, b).value[i] ==
              if f.rule.Optional? then Opt(false, init)
              else if f.rule.Repeated? then Many([])
              else if f.rule.Oneof? then Member(None)
              else One(init)
  {
    hide DecodeLoop, TagsRead;
    UnreadKeeps(fields, Progress(Defaults(fields), {}, false), b, i);
    assert Defaults(fields)[i] == DefaultSlot(fields[i]);
    assert DefaultValue(fields[i]) ==
        if fields[i].kind.Submessage? then Msg(Defaults(fields[i].sub)) else fields[i].init;
  }

  // ----- two corners

  /** A message type without fields refuses a key with tag 0; one with fields passes over what follows such a key. */
  lemma {:induction false} TagZero(fields: seq<Field>, p: Progress, wire: nat, rest: Bytes)
    requires |p.slots| == |fields| && 1 <= wire < 8 && !HasTag(fields, 0)
    ensures DecodeLoop(fields, p, [wire] + rest) ==
              if fields == [] || SkipField(wire, rest).None? then None
              else DecodeLoop(fields, p, SkipField(wire, rest).value)
  {
    hide SkipField, DecodeField, MoreVarint32;
    assert ([wire] + rest)[1..] == rest;
    assert ReadVarint32([wire] + rest) == Some((wire, rest));
    assert Find(fields, 0) == |fields|;
  }

  /** A fixed-length byte string given as empty is all zeros. */
  lemma {:induction false} EmptyIsZeros(f: Field, prior: Value, rest: Bytes)
    requires f.kind.FixedBytes?
    ensures DecodeValue(f, prior, [0] + rest) == Some((Str(seq(f.dataSize, _ => 0)), rest))
  {
    hide DecodeMessage, MoreVarint32;
    assert ([0] + rest)[1..] == rest && rest[..0] == [] && rest[0..] == rest;
  }
}
