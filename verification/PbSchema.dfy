/**
 Message descriptions (pb_field_t arrays) and the message structures they describe.

 Only static fields are modelled: no callbacks, no extensions, no pointers and no arrays with
 a fixed count. `BYTES_HEADER` is the offset of the data in a bytes array for the build
 settings of the project, PB_FIELD_32BIT.
 */
module PbSchema {
  import opened Entries
  import opened PbWire

  const BYTES_HEADER: nat := 4
  const MAX_REQUIRED_FIELDS: nat := 64

  /**
   PB_HTYPE. A `Singular` field is a proto3 field: optional without a has_ member. The members
   of one union share the number `union`.
   */
  datatype Rule = Required | Optional | Singular | Repeated | Oneof(union: nat)

  /** PB_LTYPE, without the extension placeholder. */
  datatype Kind = Varint | Uvarint | Svarint | Fixed32 | Fixed64 | BytesArray | CString | Submessage | FixedBytes {
    predicate Packable() {
      Varint? || Uvarint? || Svarint? || Fixed32? || Fixed64?
    }

    /** The wire type pb_encode_tag_for_field chooses. */
    function Wire(): WireType {
      match this
      case Varint | Uvarint | Svarint => WtVarint
      case Fixed32 => Wt32
      case Fixed64 => Wt64
      case BytesArray | CString | Submessage | FixedBytes => WtString
    }
  }

  /**
   pb_field_t. `sub` describes a submessage; `init` is the value `ptr` points to for other
   fields, all zero bytes when `ptr` is null. Offsets inside the structure are not modelled.
   */
  datatype Field = Field(tag: nat, rule: Rule, kind: Kind, dataSize: nat, arraySize: nat, sub: seq<Field>, init: Value)

  /**
   What one field's memory holds: a number, the bytes of a bytes array or of a C string (up to
   a terminator somewhere after them), or a nested structure.
   */
  datatype Value = Num(n: int) | Str(bytes: Bytes) | Msg(slots: seq<Slot>)

  /** The part of a structure that belongs to one field, together with its has_, _count or which_ member. */
  datatype Slot =
    | One(value: Value)
    | Opt(has: bool, value: Value)
    | Many(values: seq<Value>) | Member(chosen: Option<Value>)

  type Message = seq<Slot>

  // ----- memory read as the type its field gives it; the other shapes do not occur in a typed structure

  function NumberOf(v: Value): int {
    if v.Num? then v.n else 0
  }

  function BytesOf(v: Value): Bytes {
    if v.Str? then v.bytes else []
  }

  function SlotsOf(sub: seq<Field>, v: Value): (m: Message)
    ensures |m| == |sub|
  {
    if v.Msg? && |v.slots| == |sub| then v.slots else Defaults(sub)
  }

  function Held(s: Slot): Value {
    if s.One? || s.Opt? then s.value else Num(0)
  }

  function Items(s: Slot): seq<Value> {
    if s.Many? then s.values else []
  }

  /** The C string in a buffer of `max` bytes: what comes before the first NUL. */
  function Text(b: Bytes, max: nat): (t: Bytes)
    ensures |t| <= max && t <= b
    ensures forall k :: 0 <= k < |t| ==> t[k] != 0
    ensures |t| == max || |t| == |b| || b[|t|] == 0
  {
    if max == 0 || b == [] || b[0] == 0 then [] else [b[0]] + Text(b[1..], max - 1)
  }

  lemma {:induction false} TextOfText(b: Bytes, max: nat)
    ensures Text(Text(b, max), max) == Text(b, max)
  {
    if max > 0 && b != [] && b[0] != 0 {
      TextOfText(b[1..], max - 1);
      assert Text(b, max)[1..] == Text(b[1..], max - 1);
    }
  }

  // ----- pb_message_set_to_defaults

  function DefaultValue(f: Field): Value
    decreases f, 0
  {
    if f.kind.Submessage? then Msg(Defaults(f.sub)) else f.init
  }

  function DefaultSlot(f: Field): Slot
    decreases f, 1
  {
    match f.rule
    case Required | Singular => One(DefaultValue(f))
    case Optional => Opt(false, DefaultValue(f))
    case Repeated => Many([])
    case Oneof(_) => Member(None)
  }

  function Defaults(fields: seq<Field>): (m: Message)
    ensures |m| == |fields|
    decreases fields
  {
    seq(|fields|, i requires 0 <= i < |fields| => DefaultSlot(fields[i]))
  }

  // ----- well-formed descriptions

  ghost predicate ZeroInit(f: Field) {
    f.init == if f.kind.Packable() then Num(0)
              else if f.kind.FixedBytes? then Str(seq(f.dataSize, _ => 0))
              else Str([])
  }

  ghost predicate GoodField(f: Field)
    decreases f
  {
    && 1 <= f.tag < 0x2000_0000
    && (f.kind.Varint? || f.kind.Uvarint? || f.kind.Svarint? ==>
          f.dataSize == 1 || f.dataSize == 2 || f.dataSize == 4 || f.dataSize == 8)
    && (f.kind.Submessage? ==> GoodFields(f.sub))
    && (f.rule.Singular? && !f.kind.Submessage? ==> ZeroInit(f))
  }

  ghost predicate UniqueTags(fields: seq<Field>) {
    forall i, j :: 0 <= i < j < |fields| ==> fields[i].tag != fields[j].tag
  }

  ghost predicate GoodFields(fields: seq<Field>)
    decreases fields
  {
    && UniqueTags(fields)
    && forall i :: 0 <= i < |fields| ==> GoodField(fields[i])
  }

  // ----- well-formed messages

  function Range(size: nat): int {
    if size == 1 then 0x100
    else if size == 2 then 0x1_0000
    else if size == 4 then TWO_32
    else if size == 8 then TWO_64
    else 0
  }

  ghost predicate GoodNumber(kind: Kind, size: nat, n: int) {
    match kind
    case Varint | Svarint => -Range(size) <= 2 * n < Range(size)
    case Uvarint => 0 <= n < Range(size)
    case Fixed32 => 0 <= n < TWO_32
    case Fixed64 => 0 <= n < TWO_64
    case _ => false
  }

  ghost predicate GoodValue(f: Field, v: Value)
    decreases f, 0
  {
    match f.kind
    case BytesArray => v.Str? && |v.bytes| + BYTES_HEADER <= f.dataSize
    case CString => v.Str? && |Text(v.bytes, f.dataSize)| < f.dataSize
    case FixedBytes => v.Str? && |v.bytes| == f.dataSize
    case Submessage => v.Msg? && GoodMessage(f.sub, v.slots)
    case _ => v.Num? && GoodNumber(f.kind, f.dataSize, v.n)
  }

  ghost predicate GoodSlot(f: Field, s: Slot)
    decreases f, 1
  {
    match f.rule
    case Required | Singular => s.One? && GoodValue(f, s.value)
    case Optional => s.Opt? && (s.has ==> GoodValue(f, s.value))
    case Repeated => s.Many? && |s.values| <= f.arraySize && forall k :: 0 <= k < |s.values| ==> GoodValue(f,
        s.values[k])
    case Oneof(_) => s.Member? && (s.chosen.Some? ==> GoodValue(f, s.chosen.value))
  }

  /** Two members of one union. */
  predicate Rivals(fields: seq<Field>, i: nat, j: nat)
    requires i < |fields| && j < |fields|
  {
    i != j && fields[i].rule.Oneof? && fields[i].rule == fields[j].rule
  }

  /** At most one member of a union is chosen: the members share the which_ number. */
  ghost predicate OneChosen(fields: seq<Field>, m: Message)
    requires |m| == |fields|
  {
    forall i, j :: 0 <= i < |fields| && 0 <= j < |fields| && Rivals(fields, i, j) && m[i] != Member(None) ==>
      m[j] == Member(None)
  }

  ghost predicate GoodMessage(fields: seq<Field>, m: Message): (good: bool)
    ensures good ==> |m| == |fields|
    decreases fields
  {
    && |m| == |fields|
    && OneChosen(fields, m)
    && forall i :: 0 <= i < |fields| ==> GoodSlot(fields[i], m[i])
  }

  // ----- the same message, as far as the wire carries it

  /** A string is what stands before its terminator. */
  function SameValue(f: Field, v: Value): Value
    decreases f, 0
  {
    match f.kind
    case CString => Str(Text(BytesOf(v), f.dataSize))
    case Submessage => Msg(SameMessage(f.sub, SlotsOf(f.sub, v)))
    case _ => v
  }

  /** An optional field that is absent holds its default. */
  function SameSlot(f: Field, s: Slot): Slot
    decreases f, 1
  {
    match f.rule
    case Required | Singular => One(SameValue(f, Held(s)))
    case Optional => if s.Opt? && s.has then Opt(true, SameValue(f, s.value)) else Opt(false, DefaultValue(f))
    case Repeated => Many(seq(|Items(s)|, k requires 0 <= k < |Items(s)| => SameValue(f, Items(s)[k])))
    case Oneof(_) => if s.Member? && s.chosen.Some? then Member(Some(SameValue(f, s.chosen.value))) else Member(None)
  }

  function SameMessage(fields: seq<Field>, m: Message): (r: Message)
    requires |m| == |fields|
    ensures |r| == |fields|
    decreases fields
  {
    seq(|fields|, i requires 0 <= i < |fields| => SameSlot(fields[i], m[i]))
  }

  // ----- required fields

  function RequiredBefore(fields: seq<Field>, i: nat): (n: nat)
    requires i <= |fields|
    ensures n <= i
  {
    if i == 0 then 0 else RequiredBefore(fields, i - 1) + (if fields[i - 1].rule.Required? then 1 else 0)
  }

  /** Every one of the first MAX_REQUIRED_FIELDS required fields has been met; further ones are not tracked. */
  predicate AllRequired(fields: seq<Field>, met: set<nat>) {
    forall i :: 0 <= i < |fields| && fields[i].rule.Required? && RequiredBefore(fields, i) < MAX_REQUIRED_FIELDS
      ==> i in met
  }

  // ----- finding a field

  predicate HasTag(fields: seq<Field>, tag: nat) {
    exists i :: 0 <= i < |fields| && fields[i].tag == tag
  }

  /** The position of the field with a tag, or the number of fields. */
  function Find(fields: seq<Field>, tag: nat): (i: nat)
    ensures i <= |fields|
    ensures i < |fields| ==> fields[i].tag == tag
    ensures forall k :: 0 <= k < i ==> fields[k].tag != tag
  {
    FindFrom(fields, tag, 0)
  }

  function FindFrom(fields: seq<Field>, tag: nat, start: nat): (i: nat)
    requires start <= |fields|
    ensures start <= i <= |fields|
    ensures i < |fields| ==> fields[i].tag == tag
    ensures forall k :: start <= k < i ==> fields[k].tag != tag
    decreases |fields| - start
  {
    if start == |fields| || fields[start].tag == tag then start else FindFrom(fields, tag, start + 1)
  }

  lemma {:induction false} FindIsUnique(fields: seq<Field>, i: nat)
    requires UniqueTags(fields) && i < |fields|
    ensures Find(fields, fields[i].tag) == i
  {
  }
}
