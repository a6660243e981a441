/**
 What pb_decode does with the bytes of a stream: a function of the description, the structure
 before and the bytes, None where the source reports an error. And the law that makes the
 decoder a merge: decoding two inputs one after the other is decoding them joined.
 */
module PbDecoding {
  import opened Entries
  import opened Coding
  import opened PbWire
  import opened PbSchema

  type Numbered = Option<(int, Bytes)>
  type Valued = Option<(Value, Bytes)>
  type Slotted = Option<(Message, Bytes)>

  // ----- numbers

  /** The checked cast to a signed field of `size` bytes. */
  predicate FitsSigned(size: nat, n: int) {
    (size == 8 || size == 4 || size == 2 || size == 1) && -Range(size) <= 2 * n < Range(size)
  }

  predicate FitsUnsigned(size: nat, n: int) {
    (size == 8 || size == 4 || size == 2 || size == 1) && 0 <= n < Range(size)
  }

  /** pb_dec_varint: fields narrower than 64 bits are cast to int32_t first. */
  function DecodeSigned(size: nat, b: Bytes): (r: Numbered)
    ensures r.Some? ==> |r.value.1| < |b| && FitsSigned(size, r.value.0)
  {
    match ReadVarint(b)
    case None => None
    case Some((u, rest)) =>
      var n := if size == 8 then AsI64(u) else AsI32(u);
      if FitsSigned(size, n) then Some((n, rest)) else None
  }

  function DecodeUnsigned(size: nat, b: Bytes): (r: Numbered)
    ensures r.Some? ==> |r.value.1| < |b| && FitsUnsigned(size, r.value.0)
  {
    match ReadVarint(b)
    case None => None
    case Some((u, rest)) => if FitsUnsigned(size, u) then Some((u as int, rest)) else None
  }

  function DecodeZigzag(size: nat, b: Bytes): (r: Numbered)
    ensures r.Some? ==> |r.value.1| < |b| && FitsSigned(size, r.value.0)
  {
    match ReadVarint(b)
    case None => None
    case Some((u, rest)) => if FitsSigned(size, Unzigzag(u)) then Some((Unzigzag(u), rest)) else None
  }

  function DecodeFixedNumber(width: nat, b: Bytes): (r: Numbered)
    ensures r.Some? ==> |r.value.1| <= |b|
  {
    match ReadFixed(b, width)
    case None => None
    case Some((n, rest)) => Some((n as int, rest))
  }

  function DecodeNumber(kind: Kind, size: nat, b: Bytes): (r: Numbered)
    requires kind.Packable()
    ensures r.Some? ==> |r.value.1| < |b|
  {
    match kind
    case Varint => DecodeSigned(size, b)
    case Uvarint => DecodeUnsigned(size, b)
    case Svarint => DecodeZigzag(size, b)
    case Fixed32 => DecodeFixedNumber(4, b)
    case Fixed64 => DecodeFixedNumber(8, b)
  }

  // ----- byte strings

  /** pb_dec_bytes, pb_dec_string and pb_dec_fixed_length_bytes: the sizes they accept. */
  predicate Accepts(f: Field, size: nat) {
    match f.kind
    case BytesArray => size + BYTES_HEADER <= f.dataSize
    case CString => size + 1 <= f.dataSize
    case _ => size == 0 || size == f.dataSize
  }

  function Zeros(n: nat): (b: Bytes)
    ensures |b| == n
  {
    seq(n, _ => 0)
  }

  function Stored(f: Field, content: Bytes): Value {
    if f.kind.FixedBytes? && content == [] then Str(Zeros(f.dataSize)) else Str(content)
  }

  function DecodeBytes(f: Field, b: Bytes): (r: Valued)
    ensures r.Some? ==> |r.value.1| < |b|
  {
    match ReadString(b)
    case None => None
    case Some((content, rest)) => if Accepts(f, |content|) then Some((Stored(f, content), rest)) else None
  }

  // ----- values, fields and messages

  /** The structure a submessage is decoded into: array elements and union members start afresh. */
  function Base(f: Field, prior: Value): (m: Message)
    ensures |m| == |f.sub|
  {
    if f.rule.Repeated? || f.rule.Oneof? then Defaults(f.sub) else SlotsOf(f.sub, prior)
  }

  /** The decoder of PB_DECODERS for the field's type, over the value `prior`. */
  function DecodeValue(f: Field, prior: Value, b: Bytes): (r: Valued)
    ensures r.Some? ==> |r.value.1| < |b|
    decreases f, 1
  {
    match f.kind
    case BytesArray | CString | FixedBytes => DecodeBytes(f, b)
    case Submessage => DecodeSubmessage(f, Base(f, prior), b)
    case _ =>
      match DecodeNumber(f.kind, f.dataSize, b)
      case None => None
      case Some((n, rest)) => Some((Num(n), rest))
  }

  /** pb_dec_submessage: what a 0-terminated submessage leaves unread is skipped. */
  function DecodeSubmessage(f: Field, base: Message, b: Bytes): (r: Valued)
    requires |base| == |f.sub|
    ensures r.Some? ==> |r.value.1| < |b|
    decreases f, 0
  {
    match ReadString(b)
    case None => None
    case Some((content, rest)) =>
      var d := DecodeMessage(f.sub, base, content);
      if d.None? then None else Some((Msg(d.value.slots), rest))
  }

  /** The loop over a packed array, after `done` elements. */
  function DecodePacked(f: Field, done: seq<Value>, b: Bytes): Option<seq<Value>>
    requires f.kind.Packable()
    decreases |b|
  {
    if b == [] then Some(done)
    else if |done| >= f.arraySize then None
    else
      match DecodeNumber(f.kind, f.dataSize, b)
      case None => None
      case Some((n, rest)) => DecodePacked(f, done + [Num(n)], rest)
  }

  /** Choosing a member of a union overwrites which_, so the other members are no longer chosen. */
  function Choose(fields: seq<Field>, m: Message, i: nat, v: Value): (r: Message)
    requires |m| == |fields| && i < |fields|
    ensures |r| == |m|
  {
    seq(|m|, j requires 0 <= j < |m| =>
      if j == i then Member(Some(v)) else if Rivals(fields, i, j) then Member(None) else m[j])
  }

  /** decode_static_field for field number i. */
  function DecodeField(fields: seq<Field>, m: Message, i: nat, wire: nat, b: Bytes): (r: Slotted)
    requires |m| == |fields| && i < |fields|
    ensures r.Some? ==> |r.value.1| < |b| && |r.value.0| == |fields|
    decreases fields, 0
  {
    var f := fields[i];
    if f.rule.Repeated? && wire == WtString.Code() && f.kind.Packable() then
      match ReadString(b)
      case None => None
      case Some((content, rest)) =>
        match DecodePacked(f, Items(m[i]), content)
        case None => None
        case Some(vs) => Some((m[i := Many(vs)], rest))
    else if f.rule.Repeated? && |Items(m[i])| >= f.arraySize then None
    else
      match DecodeValue(f, Held(m[i]), b)
      case None => None
      case Some((v, rest)) =>
        if f.rule.Oneof? then Some((Choose(fields, m, i, v), rest))
        else if f.rule.Repeated? then Some((m[i := Many(Items(m[i]) + [v])], rest))
        else if f.rule.Optional? then Some((m[i := Opt(true, v)], rest))
        else Some((m[i := One(v)], rest))
  }

  /**
   The state of pb_decode_noinit's loop: the structure, the required fields met, and whether a
   zero tag has ended the message before the bytes did.
   */
  datatype Progress = Progress(slots: Message, met: set<nat>, stopped: bool)

  /** What decoding field i adds to the required fields met. */
  function Meet(fields: seq<Field>, met: set<nat>, i: nat): set<nat>
    requires i < |fields|
  {
    if fields[i].rule.Required? then met + {i} else met
  }

  /** One field of the input after its tag: decoded, or skipped when its tag is unknown. */
  function Step(fields: seq<Field>, p: Progress, key: nat, b: Bytes): (r: Option<(Progress, Bytes)>)
    requires |p.slots| == |fields|
    ensures r.Some? ==> |r.value.1| <= |b| && |r.value.0.slots| == |fields| && r.value.0.stopped == p.stopped
    decreases fields, 1
  {
    var i := Find(fields, key / 8);
    if i < |fields| then
      match DecodeField(fields, p.slots, i, key % 8, b)
      case None => None
      case Some((m, rest)) => Some((Progress(m, Meet(fields, p.met, i), p.stopped), rest))
    else if fields == [] && key / 8 == 0 then None
    else
      match SkipField(key % 8, b)
      case None => None
      case Some(rest) => Some((p, rest))
  }

  /** The loop of pb_decode_noinit. */
  function DecodeLoop(fields: seq<Field>, p: Progress, b: Bytes): (r: Option<Progress>)
    requires |p.slots| == |fields|
    ensures r.Some? ==> |r.value.slots| == |fields|
    decreases fields, 2, |b|
  {
    if b == [] then Some(p)
    else
      match ReadVarint32(b)
      case None => None
      case Some((key, rest)) =>
        if key == 0 then Some(p.(stopped := true))
        else
          var step := Step(fields, p, key, rest);
          if step.None? then None else DecodeLoop(fields, step.value.0, step.value.1)
  }

  /** pb_decode_noinit. */
  function DecodeMessage(fields: seq<Field>, m: Message, b: Bytes): (r: Option<Progress>)
    requires |m| == |fields|
    ensures r.Some? ==> |r.value.slots| == |fields|
    decreases fields, 3
  {
    var r := DecodeLoop(fields, Progress(m, {}, false), b);
    if r.Some? && AllRequired(fields, r.value.met) then r else None
  }

  /** pb_decode. */
  function Decode(fields: seq<Field>, b: Bytes): (r: Option<Message>)
    ensures r.Some? ==> |r.value| == |fields|
  {
    var r := DecodeMessage(fields, Defaults(fields), b);
    if r.None? then None else Some(r.value.slots)
  }

  // ----- a field decoded from a prefix is decoded the same from the whole

  lemma {:induction false} NumberLocal(kind: Kind, size: nat, b: Bytes, c: Bytes)
    requires kind.Packable() && DecodeNumber(kind, size, b).Some?
    ensures DecodeNumber(kind, size, b + c)
         == Some((DecodeNumber(kind, size, b).value.0, DecodeNumber(kind, size, b).value.1 + c))
  {
    if kind.Fixed32? {
      FixedLocal(b, c, 4);
    } else if kind.Fixed64? {
      FixedLocal(b, c, 8);
    } else {
      VarintLocal(b, c);
    }
  }

  lemma {:induction false} ValueLocal(f: Field, prior: Value, b: Bytes, c: Bytes)
    requires DecodeValue(f, prior, b).Some?
    ensures DecodeValue(f, prior, b + c) ==
        Some((DecodeValue(f, prior, b).value.0, DecodeValue(f, prior, b).value.1 + c))
  {
    if f.kind.Packable() {
      NumberLocal(f.kind, f.dataSize, b, c);
    } else {
      StringLocal(b, c);
    }
  }

  lemma {:induction false} FieldLocal(fields: seq<Field>, m: Message, i: nat, wire: nat, b: Bytes, c: Bytes)
    requires |m| == |fields| && i < |fields| && DecodeField(fields, m, i, wire, b).Some?
    ensures DecodeField(fields, m, i, wire, b + c)
         == Some((DecodeField(fields, m, i, wire, b).value.0, DecodeField(fields, m, i, wire, b).value.1 + c))
  {
    hide DecodeValue, ReadString, Choose, DecodePacked;
    if fields[i].rule.Repeated? && wire == WtString.Code() && fields[i].kind.Packable() {
      StringLocal(b, c);
    } else {
      ValueLocal(fields[i], Held(m[i]), b, c);
    }
  }

  lemma {:induction false} StepLocal(fields: seq<Field>, p: Progress, key: nat, b: Bytes, c: Bytes)
    requires |p.slots| == |fields| && Step(fields, p, key, b).Some?
    ensures Step(fields, p, key, b + c) == Some((Step(fields, p, key, b).value.0, Step(fields, p, key, b).value.1 + c))
  {
    hide DecodeField, SkipField;
    var i := Find(fields, key / 8);
    if i < |fields| {
      FieldLocal(fields, p.slots, i, key % 8, b, c);
    } else {
      SkipFieldLocal(key % 8, b, c);
    }
  }

  /** Decoding a ++ b is decoding a and going on with b, unless a zero tag ended a early. */
  lemma {:induction false} LoopConcat(fields: seq<Field>, p: Progress, a: Bytes, b: Bytes)
    requires |p.slots| == |fields| && !p.stopped
    requires DecodeLoop(fields, p, a).Some? && !DecodeLoop(fields, p, a).value.stopped
    ensures DecodeLoop(fields, p, a + b) == DecodeLoop(fields, DecodeLoop(fields, p, a).value, b)
    decreases |a|
  {
    hide ReadVarint32, Step;
    if a == [] {
      assert a + b == b;
    } else {
      var (key, rest) := ReadVarint32(a).value;
      Varint32Local(a, b);
      StepLocal(fields, p, key, rest, b);
      var (q, left) := Step(fields, p, key, rest).value;
      LoopConcat(fields, q, left, b);
    }
  }

  /** The loop treats the structure the same whatever required fields were met before it. */
  lemma {:induction false} MetOnlyGrows(fields: seq<Field>, p: Progress, met: set<nat>, b: Bytes)
    requires |p.slots| == |fields|
    ensures DecodeLoop(fields, p, b).None? <==> DecodeLoop(fields, p.(met := p.met + met), b).None?
    ensures DecodeLoop(fields, p, b).Some? ==>
      var r := DecodeLoop(fields, p, b).value;
      DecodeLoop(fields, p.(met := p.met + met), b) == Some(r.(met := r.met + met))
    decreases |b|
  {
    hide ReadVarint32, DecodeField, SkipField;
    var p' := p.(met := p.met + met);
    if b != [] && ReadVarint32(b).Some? && ReadVarint32(b).value.0 != 0 {
      var (key, rest) := ReadVarint32(b).value;
      if Step(fields, p, key, rest).Some? {
        var (q, left) := Step(fields, p, key, rest).value;
        assert Step(fields, p', key, rest) == Some((q.(met := q.met + met), left)) by {
          var i := Find(fields, key / 8);
          if i < |fields| {
            assert Meet(fields, p'.met, i) == Meet(fields, p.met, i) + met;
          }
        }
        MetOnlyGrows(fields, q, met, left);
      }
    }
  }

  /**
   The decoder is a merge. If `a` decodes into the structure m and then `b` into the result,
   neither of them cut short by a zero tag, then `a ++ b` decodes into m with the same result.
   */
  lemma {:induction false} DecodingMerges(fields: seq<Field>, m: Message, a: Bytes, b: Bytes)
    requires |m| == |fields|
    requires DecodeMessage(fields, m, a).Some? && !DecodeMessage(fields, m, a).value.stopped
    requires DecodeMessage(fields, DecodeMessage(fields, m, a).value.slots, b).Some?
    ensures DecodeMessage(fields, m, a + b).Some?
    ensures DecodeMessage(fields, m, a + b).value.slots
         == DecodeMessage(fields, DecodeMessage(fields, m, a).value.slots, b).value.slots
  {
    hide DecodeLoop;
    var p := Progress(m, {}, false);
    LoopConcat(fields, p, a, b);
    var q := DecodeLoop(fields, p, a).value;
    var anew := Progress(q.slots, {}, false);
    MetOnlyGrows(fields, anew, q.met, b);
    assert {} + q.met == q.met;
    assert anew.(met := anew.met + q.met) == q;
  }

  /**
   Without the check for required fields the law needs nothing of `b`: whether it decodes, and
   into what, is the same alone after `a` as joined to it.
   */
  lemma {:induction false} MergeIsExact(fields: seq<Field>, m: Message, a: Bytes, b: Bytes)
    requires |m| == |fields|
    requires forall i :: 0 <= i < |fields| ==> !fields[i].rule.Required?
    requires DecodeMessage(fields, m, a).Some? && !DecodeMessage(fields, m, a).value.stopped
    ensures DecodeMessage(fields, m, a + b).None? <==>
              DecodeMessage(fields, DecodeMessage(fields, m, a).value.slots, b).None?
    ensures DecodeMessage(fields, m, a + b).Some? ==>
      DecodeMessage(fields, m, a + b).value.slots ==
          DecodeMessage(fields, DecodeMessage(fields, m, a).value.slots, b).value.slots
  {
    hide DecodeLoop;
    var p := Progress(m, {}, false);
    LoopConcat(fields, p, a, b);
    var q := DecodeLoop(fields, p, a).value;
    var anew := Progress(q.slots, {}, false);
    MetOnlyGrows(fields, anew, q.met, b);
    assert anew.(met := anew.met + q.met) == q;
  }

  /** A zero tag hides everything after it: the merge law does need its absence. */
  lemma {:induction false} ZeroTagHides(fields: seq<Field>, m: Message, b: Bytes)
    requires |m| == |fields| && forall i :: 0 <= i < |fields| ==> !fields[i].rule.Required?
    ensures DecodeMessage(fields, m, [0] + b) == Some(Progress(m, {}, true))
  {
    assert ReadVarint32([0] + b).Some? && ReadVarint32([0] + b).value.0 == 0;
  }

  /**
   A submessage field that occurs twice is merged: the occurrences do what one occurrence
   holding both contents does.
   */
  lemma {:induction false} OccurrencesMerge(f: Field, prior: Value, a: Bytes, b: Bytes)
    requires f.kind.Submessage? && !f.rule.Repeated? && !f.rule.Oneof? && |a| + |b| < TWO_32
    requires DecodeMessage(f.sub, SlotsOf(f.sub, prior), a).Some?
    requires !DecodeMessage(f.sub, SlotsOf(f.sub, prior), a).value.stopped
    requires DecodeMessage(f.sub, DecodeMessage(f.sub, SlotsOf(f.sub, prior), a).value.slots, b).Some?
    ensures DecodeValue(f, prior, PutString(a)).Some?
    ensures DecodeValue(f, DecodeValue(f, prior, PutString(a)).value.0, PutString(b)) ==
        DecodeValue(f, prior, PutString(a + b))
  {
    hide DecodeMessage, PutString, ReadString;
    var m := SlotsOf(f.sub, prior);
    StringReadBack(a, []);
    StringReadBack(b, []);
    StringReadBack(a + b, []);
    assert PutString(a) + [] == PutString(a) && PutString(b) + [] == PutString(b)
        && PutString(a + b) + [] == PutString(a + b);
    DecodingMerges(f.sub, m, a, b);
  }
}
