/**
 What pb_encode writes for a message: a function of the description and the structure, None
 where the source reports an error other than a full stream.
 */
module PbEncoding {
  import opened Entries
  import opened Coding
  import opened PbWire
  import opened PbSchema

  predicate KnownSize(size: nat) {
    size == 1 || size == 2 || size == 4 || size == 8
  }

  /** pb_enc_varint, pb_enc_uvarint, pb_enc_svarint, pb_enc_fixed32 and pb_enc_fixed64. */
  function EncodeNumber(kind: Kind, size: nat, n: int): Option<Bytes>
    requires kind.Packable()
  {
    match kind
    case Varint => if KnownSize(size) then Some(PutVarint(ToU64(n))) else None
    case Uvarint => if KnownSize(size) then Some(PutVarint(ToU64(n))) else None
    case Svarint => if KnownSize(size) then Some(PutVarint(Zigzag(n))) else None
    case Fixed32 => Some(Fixed(n % TWO_32, 4))
    case Fixed64 => Some(Fixed(n % TWO_64, 8))
  }

  function Then(a: Option<Bytes>, b: Option<Bytes>): Option<Bytes> {
    if a.Some? && b.Some? then Some(a.value + b.value) else None
  }

  function Prefixed(content: Option<Bytes>): Option<Bytes> {
    if content.Some? then Some(PutString(content.value)) else None
  }

  /** The encoder of PB_ENCODERS for the field's type, without the tag. */
  function EncodeValue(f: Field, v: Value): Option<Bytes>
    decreases f, 0
  {
    match f.kind
    case BytesArray => if |BytesOf(v)| + BYTES_HEADER > f.dataSize then None else Some(PutString(BytesOf(v)))
    case CString => Some(PutString(Text(BytesOf(v), f.dataSize)))
    case FixedBytes => Some(PutString(BytesOf(v)))
    case Submessage => Prefixed(EncodeMessage(f.sub, SlotsOf(f.sub, v)))
    case _ => EncodeNumber(f.kind, f.dataSize, NumberOf(v))
  }

  function EncodeTagged(f: Field, v: Value): Option<Bytes>
    decreases f, 1
  {
    Then(Some(PutTag(f.tag, f.kind.Wire())), EncodeValue(f, v))
  }

  /** The data of a packed array. */
  function EncodePacked(f: Field, vs: seq<Value>): Option<Bytes>
    decreases f, 2, |vs|
  {
    if vs == [] then Some([]) else Then(EncodePacked(f, vs[..|vs| - 1]), EncodeValue(f, vs[|vs| - 1]))
  }

  /** The elements of an array that cannot be packed, each with its tag. */
  function EncodeUnpacked(f: Field, vs: seq<Value>): Option<Bytes>
    decreases f, 2, |vs|
  {
    if vs == [] then Some([]) else Then(EncodeUnpacked(f, vs[..|vs| - 1]), EncodeTagged(f, vs[|vs| - 1]))
  }

  /** encode_array. */
  function EncodeArray(f: Field, vs: seq<Value>): Option<Bytes>
    decreases f, 3
  {
    if vs == [] then Some([])
    else if |vs| > f.arraySize then None
    else if f.kind.Packable() then Then(Some(PutTag(f.tag, WtString)), Prefixed(EncodePacked(f, vs)))
    else EncodeUnpacked(f, vs)
  }

  /** pb_check_proto3_default_value, on the field's own value when the field is singular. */
  predicate ValueIsZero(f: Field, v: Value)
    decreases f, 0
  {
    match f.kind
    case BytesArray => BytesOf(v) == []
    case CString => Text(BytesOf(v), f.dataSize) == []
    case FixedBytes => f.dataSize == 0
    case Submessage => MessageIsZero(f.sub, SlotsOf(f.sub, v))
    case _ => NumberOf(v) == 0
  }

  predicate SlotIsZero(f: Field, s: Slot)
    decreases f, 1
  {
    match f.rule
    case Required => false
    case Repeated => Items(s) == []
    case Oneof(_) => !s.Member? || s.chosen.None?
    case Optional => !s.Opt? || !s.has
    case Singular => ValueIsZero(f, Held(s))
  }

  predicate MessageIsZero(fields: seq<Field>, m: Message)
    requires |m| == |fields|
    decreases fields
  {
    forall i :: 0 <= i < |fields| ==> SlotIsZero(fields[i], m[i])
  }

  /** encode_basic_field. */
  function EncodeField(f: Field, s: Slot): Option<Bytes>
    decreases f, 4
  {
    match f.rule
    case Required => EncodeTagged(f, Held(s))
    case Optional => if s.Opt? && s.has then EncodeTagged(f, s.value) else Some([])
    case Singular => if SlotIsZero(f, s) then Some([]) else EncodeTagged(f, Held(s))
    case Repeated => EncodeArray(f, Items(s))
    case Oneof(_) => if s.Member? && s.chosen.Some? then EncodeTagged(f, s.chosen.value) else Some([])
  }

  /** pb_encode from the first `n` fields. */
  function EncodeFirst(fields: seq<Field>, m: Message, n: nat): Option<Bytes>
    requires |m| == |fields| && n <= |fields|
    decreases fields, 0, n
  {
    if n == 0 then Some([]) else Then(EncodeFirst(fields, m, n - 1), EncodeField(fields[n - 1], m[n - 1]))
  }

  /** pb_encode. */
  function EncodeMessage(fields: seq<Field>, m: Message): Option<Bytes>
    requires |m| == |fields|
    decreases fields, 1
  {
    EncodeFirst(fields, m, |fields|)
  }

  // ----- the size shortcuts of encode_array

  /** The 4 * count and 8 * count shortcuts give the size of the data that is then written. */
  lemma {:induction false} FixedArraySize(f: Field, vs: seq<Value>)
    requires f.kind.Fixed32? || f.kind.Fixed64?
    ensures EncodePacked(f, vs).Some?
    ensures |EncodePacked(f, vs).value| == (if f.kind.Fixed32? then 4 else 8) * |vs|
  {
    if vs != [] {
      FixedArraySize(f, vs[..|vs| - 1]);
    }
  }

  // ----- encoding a well-formed message does not fail

  lemma {:induction false} GoodNumberEncodes(f: Field, v: Value)
    requires GoodField(f) && f.kind.Packable()
    ensures EncodeValue(f, v).Some?
  {
  }

  lemma {:induction false} GoodPackedEncodes(f: Field, vs: seq<Value>)
    requires GoodField(f) && f.kind.Packable()
    ensures EncodePacked(f, vs).Some?
  {
    if vs != [] {
      GoodPackedEncodes(f, vs[..|vs| - 1]);
      GoodNumberEncodes(f, vs[|vs| - 1]);
    }
  }

  lemma {:induction false} GoodValueEncodes(f: Field, v: Value)
    requires GoodField(f) && GoodValue(f, v)
    ensures EncodeValue(f, v).Some?
    decreases f, 0
  {
    if f.kind.Submessage? {
      GoodMessageEncodes(f.sub, v.slots);
    }
  }

  lemma {:induction false} GoodUnpackedEncodes(f: Field, vs: seq<Value>)
    requires GoodField(f) && forall k :: 0 <= k < |vs| ==> GoodValue(f, vs[k])
    ensures EncodeUnpacked(f, vs).Some?
    decreases f, 1, |vs|
  {
    if vs != [] {
      GoodUnpackedEncodes(f, vs[..|vs| - 1]);
      GoodValueEncodes(f, vs[|vs| - 1]);
    }
  }

  lemma {:induction false} GoodSlotEncodes(f: Field, s: Slot)
    requires GoodField(f) && GoodSlot(f, s)
    ensures EncodeField(f, s).Some?
    decreases f, 2
  {
    match f.rule
    case Required | Singular => GoodValueEncodes(f, s.value);
    case Optional => if s.has { GoodValueEncodes(f, s.value); }
    case Oneof(_) => if s.chosen.Some? { GoodValueEncodes(f, s.chosen.value); }
    case Repeated =>
      if f.kind.Packable() {
        GoodPackedEncodes(f, s.values);
      } else {
        GoodUnpackedEncodes(f, s.values);
      }
  }

  lemma {:induction false} GoodFirstEncode(fields: seq<Field>, m: Message, n: nat)
    requires GoodFields(fields) && GoodMessage(fields, m) && n <= |fields|
    ensures EncodeFirst(fields, m, n).Some?
    decreases fields, 0, n
  {
    if n > 0 {
      GoodFirstEncode(fields, m, n - 1);
      GoodSlotEncodes(fields[n - 1], m[n - 1]);
    }
  }

  lemma {:induction false} GoodMessageEncodes(fields: seq<Field>, m: Message)
    requires GoodFields(fields) && GoodMessage(fields, m)
    ensures EncodeMessage(fields, m).Some?
    decreases fields, 1
  {
    GoodFirstEncode(fields, m, |fields|);
  }

  // ----- a part is no longer than the whole

  lemma {:induction false} FirstGrows(fields: seq<Field>, m: Message, k: nat, n: nat)
    requires |m| == |fields| && k <= n <= |fields| && EncodeFirst(fields, m, n).Some?
    ensures EncodeFirst(fields, m, k).Some? && EncodeFirst(fields, m, k).value <= EncodeFirst(fields, m, n).value
    decreases n
  {
    if k < n {
      FirstGrows(fields, m, k, n - 1);
    }
  }
}
