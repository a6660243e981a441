/**
 pb_encode.c: output streams, and the encoder that writes to them or only counts.

 A stream writes into a buffer, or has none and counts (PB_OSTREAM_SIZING). Every method gives
 back exactly what PbEncoding says: it succeeds if and only if that is defined and there is
 room for it, and then a writing stream has received those bytes and a sizing stream has
 counted them.
 */
module PbEncoder {
  import opened Entries
  import opened Coding
  import opened PbWire
  import opened PbSchema
  import opened PbEncoding
  import opened PbIterator

  // ----- a prefix of an encoding that fails or does not fit dooms the whole

  predicate Begins(part: Option<Bytes>, whole: Option<Bytes>) {
    whole.Some? ==> part.Some? && part.value <= whole.value
  }

  lemma {:induction false} PackedBegins(f: Field, vs: seq<Value>, i: nat)
    requires i <= |vs|
    ensures Begins(EncodePacked(f, vs[..i]), EncodePacked(f, vs))
    decreases |vs|
  {
    if i == |vs| {
      assert vs[..i] == vs;
    } else {
      assert vs[..|vs| - 1][..i] == vs[..i];
      PackedBegins(f, vs[..|vs| - 1], i);
    }
  }

  lemma {:induction false} UnpackedBegins(f: Field, vs: seq<Value>, i: nat)
    requires i <= |vs|
    ensures Begins(EncodeUnpacked(f, vs[..i]), EncodeUnpacked(f, vs))
    decreases |vs|
  {
    if i == |vs| {
      assert vs[..i] == vs;
    } else {
      assert vs[..|vs| - 1][..i] == vs[..i];
      UnpackedBegins(f, vs[..|vs| - 1], i);
    }
  }

  lemma {:induction false} FirstBegins(fields: seq<Field>, m: Message, i: nat)
    requires |m| == |fields| && i <= |fields|
    ensures Begins(EncodeFirst(fields, m, i), EncodeMessage(fields, m))
  {
    if EncodeMessage(fields, m).Some? {
      FirstGrows(fields, m, i, |fields|);
    }
  }

  // ----- varints, as the loop of pb_encode_varint builds them

  lemma {:induction false} VarintLength(n: nat, k: nat)
    requires k > 0 && n < Pow128(k)
    ensures |PutVarint(n)| <= k
  {
    if n >= 128 {
      VarintLength(n / 128, k - 1);
    }
  }

  /** The buffer of ten bytes is large enough for every 64-bit value. */
  lemma {:induction false} TenBytesSuffice(v: nat)
    requires v < TWO_64
    ensures |PutVarint(v)| <= 10
  {
    hide Pow128, PutVarint;
    Varint64Fits(v);
    VarintLength(v, 10);
  }

  lemma {:induction false} VarintStep(b: Bytes, value: nat, whole: Bytes)
    requires value > 0 && b + PutVarint(value) == whole
    ensures value / 128 > 0 ==> b + [value % 128 + 128] + PutVarint(value / 128) == whole
    ensures value / 128 == 0 ==> b + [value % 128] == whole
  {
    if value >= 128 {
      assert b + [value % 128 + 128] + PutVarint(value / 128) == b + ([value % 128 + 128] + PutVarint(value / 128));
    }
  }

  /** The bytes of a varint: continuation bits on all of them, then off on the last. */
  method VarintBytes(v: nat) returns (b: Bytes)
    ensures b == PutVarint(v)
  {
    if v <= 0x7F {
      return [v];
    }
    hide PutVarint;
    var value: nat := v;
    b := [];
    while value > 0
      invariant value > 0 ==> b + PutVarint(value) == PutVarint(v)
      invariant value == 0 ==> b != [] && b[|b| - 1] >= 128 && b[..|b| - 1] + [b[|b| - 1] - 128] == PutVarint(v)
    {
      VarintStep(b, value, PutVarint(v));
      ghost var done := b;
      b := b + [value % 128 + 128];
      assert b[..|b| - 1] == done;
      value := value / 128;
    }
    b := b[..|b| - 1] + [b[|b| - 1] - 128];
  }

  lemma {:induction false} TextGoesOn(b: Bytes, size: nat, max: nat)
    requires size < max && size < |b| && b[size] != 0
    requires b[..size] + Text(b[size..], max - size) == Text(b, max)
    ensures b[..size + 1] + Text(b[size + 1..], max - size - 1) == Text(b, max)
  {
    hide Text;
    var rest := Text(b[size + 1..], max - size - 1);
    assert b[size..][1..] == b[size + 1..];
    TextHead(b[size..], max - size);
    assert b[..size + 1] == b[..size] + [b[size]];
    assert (b[..size] + [b[size]]) + rest == b[..size] + ([b[size]] + rest);
  }

  lemma {:induction false} TextHead(b: Bytes, max: nat)
    requires max > 0 && b != [] && b[0] != 0
    ensures Text(b, max) == [b[0]] + Text(b[1..], max - 1)
  {
  }

  lemma {:induction false} TextStops(b: Bytes, max: nat)
    requires max == 0 || b == [] || b[0] == 0
    ensures Text(b, max) == []
  {
  }

  /** pb_enc_string's own strnlen. */
  method StringLength(b: Bytes, max: nat) returns (size: nat)
    ensures size <= |b| && b[..size] == Text(b, max)
  {
    hide Text;
    size := 0;
    assert b[..0] + Text(b[0..], max) == Text(b, max) by {
      assert b[0..] == b;
    }
    while size < max && size < |b| && b[size] != 0
      invariant size <= max && size <= |b|
      invariant b[..size] + Text(b[size..], max - size) == Text(b, max)
    {
      TextGoesOn(b, size, max);
      size := size + 1;
    }
    TextStops(b[size..], max - size);
  }

  class OStream {
    const buffer: array<Byte>
    const sizing: bool
    const maxSize: nat
    var state: nat
    var bytesWritten: nat

    /** A writing stream never goes past its limit, and the limit is inside the buffer. */
    ghost predicate Valid()
      reads this
    {
      && state <= buffer.Length
      && (!sizing ==> bytesWritten <= maxSize && state + (maxSize - bytesWritten) <= buffer.Length)
    }

    ghost function Out(): (b: Bytes)
      requires Valid()
      reads this, buffer
      ensures |b| == state
    {
      buffer[..state]
    }

    ghost predicate Room(before: nat, count: nat) {
      sizing || before + count <= maxSize
    }

    /**
     The stream held `out` and had written `before` bytes; since then it was asked for `enc`
     and answered `ok`.
     */
    ghost predicate Did(ok: bool, out: Bytes, before: nat, enc: Option<Bytes>)
      reads this, buffer
    {
      && Valid()
      && out <= Out()
      && (ok <==> enc.Some? && Room(before, |enc.value|))
      && (ok ==> bytesWritten == before + |enc.value| && Out() == if sizing then out else out + enc.value)
    }

    /** PB_OSTREAM_SIZING. */
    constructor Sizing()
      ensures Valid() && sizing && bytesWritten == 0 && Out() == [] && fresh(buffer)
    {
      buffer := new Byte[0];
      sizing := true;
      maxSize := 0;
      state := 0;
      bytesWritten := 0;
    }

    /** pb_ostream_from_buffer, and the substream of pb_encode_submessage with its own limit. */
    constructor Into(b: array<Byte>, at: nat, size: nat)
      requires at + size <= b.Length
      ensures Valid() && !sizing && buffer == b && state == at && maxSize == size && bytesWritten == 0
    {
      buffer := b;
      sizing := false;
      maxSize := size;
      state := at;
      bytesWritten := 0;
    }

    // ----- two steps, one after the other

    lemma {:induction false} Chain(out: Bytes, before: nat, a: Bytes, ok: bool, b: Option<Bytes>)
      requires Room(before, |a|)
      requires Did(ok, if sizing then out else out + a, before + |a|, b)
      ensures Did(ok, out, before, Then(Some(a), b))
    {
      if ok && !sizing {
        assert (out + a) + b.value == out + (a + b.value);
      }
    }

    lemma {:induction false} Fails(out: Bytes, before: nat, part: Option<Bytes>, whole: Option<Bytes>)
      requires Did(false, out, before, part) && Begins(part, whole)
      ensures Did(false, out, before, whole)
    {
    }

    // ----- pb_write

    /** buf_write. */
    method BufWrite(b: Bytes)
      requires Valid() && !sizing && bytesWritten + |b| <= maxSize
      modifies this`state, buffer
      ensures state == old(state) + |b|
      ensures buffer[..state] == old(buffer[..state]) + b
    {
      var dest := state;
      state := state + |b|;
      ghost var was := buffer[..dest];
      for i := 0 to |b|
        invariant state == old(state) + |b| <= buffer.Length
        invariant buffer[..dest + i] == was + b[..i]
      {
        buffer[dest + i] := b[i];
        assert buffer[..dest + i + 1] == buffer[..dest + i] + [b[i]];
        assert b[..i + 1] == b[..i] + [b[i]];
      }
      assert b[..|b|] == b;
    }

    method Write(b: Bytes) returns (ok: bool)
      requires Valid()
      modifies this, buffer
      ensures Did(ok, old(Out()), old(bytesWritten), Some(b))
    {
      if !sizing {
        if bytesWritten + |b| > maxSize {
          return false;
        }
        BufWrite(b);
      }
      bytesWritten := bytesWritten + |b|;
      return true;
    }

    /** pb_write without data: a sizing stream only counts. */
    method Count(n: nat)
      requires Valid() && sizing
      modifies this`bytesWritten
      ensures Valid() && bytesWritten == old(bytesWritten) + n && Out() == old(Out())
    {
      bytesWritten := bytesWritten + n;
    }

    // ----- pieces

    method EncodeVarint(v: nat) returns (ok: bool)
      requires Valid()
      modifies this, buffer
      ensures Did(ok, old(Out()), old(bytesWritten), Some(PutVarint(v)))
    {
      var b := VarintBytes(v);
      ok := Write(b);
    }

    method EncodeTag(tag: nat, wire: WireType) returns (ok: bool)
      requires Valid()
      modifies this, buffer
      ensures Did(ok, old(Out()), old(bytesWritten), Some(PutTag(tag, wire)))
    {
      ok := EncodeVarint(tag * 8 + wire.Code());
    }

    method EncodeString(s: Bytes) returns (ok: bool)
      requires Valid()
      modifies this, buffer
      ensures Did(ok, old(Out()), old(bytesWritten), Some(PutString(s)))
    {
      ghost var out, before := Out(), bytesWritten;
      ok := EncodeVarint(|s|);
      if !ok {
        Fails(out, before, Some(PutVarint(|s|)), Some(PutString(s)));
        return;
      }
      ok := Write(s);
      Chain(out, before, PutVarint(|s|), ok, Some(s));
    }

    /** pb_enc_varint, pb_enc_uvarint, pb_enc_svarint, pb_enc_fixed32, pb_enc_fixed64. */
    method EncodeNumeric(kind: Kind, size: nat, n: int) returns (ok: bool)
      requires Valid() && kind.Packable()
      modifies this, buffer
      ensures Did(ok, old(Out()), old(bytesWritten), EncodeNumber(kind, size, n))
    {
      if kind.Fixed32? {
        ok := Write(Fixed(n % TWO_32, 4));
      } else if kind.Fixed64? {
        ok := Write(Fixed(n % TWO_64, 8));
      } else if size != 1 && size != 2 && size != 4 && size != 8 {
        ok := false;
      } else if kind.Svarint? {
        ok := EncodeVarint(Zigzag(n));
      } else {
        ok := EncodeVarint(ToU64(n));
      }
    }

    // ----- values

    /** The encoder of PB_ENCODERS for the field's type. */
    method EncodeOne(f: Field, v: Value) returns (ok: bool)
      requires Valid() && WalkableField(f)
      modifies this, buffer
      ensures Did(ok, old(Out()), old(bytesWritten), EncodeValue(f, v))
      decreases f, 0
    {
      match f.kind
      case BytesArray =>
        if |BytesOf(v)| + BYTES_HEADER > f.dataSize {
          return false;
        }
        ok := EncodeString(BytesOf(v));
      case CString =>
        var size := StringLength(BytesOf(v), f.dataSize);
        ok := EncodeString(BytesOf(v)[..size]);
      case FixedBytes =>
        ok := EncodeString(BytesOf(v));
      case Submessage =>
        ok := EncodeSubmessage(f.sub, SlotsOf(f.sub, v));
      case Varint | Uvarint | Svarint | Fixed32 | Fixed64 =>
        ok := EncodeNumeric(f.kind, f.dataSize, NumberOf(v));
    }

    /**
     pb_encode_submessage: a first pass that only counts, the length, and a second pass through
     a substream limited to it.
     */
    method EncodeSubmessage(fields: seq<Field>, m: Message) returns (ok: bool)
      requires Valid() && |m| == |fields| && Walkable(fields)
      modifies this, buffer
      ensures Did(ok, old(Out()), old(bytesWritten), Prefixed(EncodeMessage(fields, m)))
      decreases fields, 6
    {
      ghost var out, before := Out(), bytesWritten;
      var counter := new OStream.Sizing();
      ok := counter.Encode(fields, m);
      if !ok {
        return;
      }
      ghost var content := EncodeMessage(fields, m).value;
      var size := counter.bytesWritten;
      ok := EncodeVarint(size);
      if !ok {
        Fails(out, before, Some(PutVarint(size)), Some(PutString(content)));
        return;
      }
      ok := EncodeContent(fields, m, size);
      Chain(out, before, PutVarint(size), ok, Some(content));
    }

    /** The second pass writes as many bytes as the first one counted: the size never changes. */
    method EncodeContent(fields: seq<Field>, m: Message, size: nat) returns (ok: bool)
      requires Valid() && |m| == |fields| && Walkable(fields)
      requires EncodeMessage(fields, m).Some? && size == |EncodeMessage(fields, m).value|
      modifies this, buffer
      ensures Did(ok, old(Out()), old(bytesWritten), EncodeMessage(fields, m))
      decreases fields, 5
    {
      if sizing {
        Count(size);
        return true;
      }
      if bytesWritten + size > maxSize {
        return false;
      }
      var part := new OStream.Into(buffer, state, size);
      ok := part.Encode(fields, m);
      bytesWritten := bytesWritten + part.bytesWritten;
      state := part.state;
      if part.bytesWritten != size {
        assert false;
      }
    }

    method EncodeWithTag(f: Field, v: Value) returns (ok: bool)
      requires Valid() && WalkableField(f)
      modifies this, buffer
      ensures Did(ok, old(Out()), old(bytesWritten), EncodeTagged(f, v))
      decreases f, 1
    {
      ghost var out, before := Out(), bytesWritten;
      ok := EncodeTag(f.tag, f.kind.Wire());
      if !ok {
        Fails(out, before, Some(PutTag(f.tag, f.kind.Wire())), EncodeTagged(f, v));
        return;
      }
      ok := EncodeOne(f, v);
      Chain(out, before, PutTag(f.tag, f.kind.Wire()), ok, EncodeValue(f, v));
    }

    /** The data of a packed array, written or counted element by element. */
    method EncodeElements(f: Field, vs: seq<Value>) returns (ok: bool)
      requires Valid() && f.kind.Packable()
      modifies this, buffer
      ensures Did(ok, old(Out()), old(bytesWritten), EncodePacked(f, vs))
    {
      ghost var out, before := Out(), bytesWritten;
      ok := true;
      for i := 0 to |vs|
        invariant ok && Did(true, out, before, EncodePacked(f, vs[..i]))
      {
        ghost var done := EncodePacked(f, vs[..i]).value;
        assert vs[..i + 1][..i] == vs[..i];
        ok := EncodeNumeric(f.kind, f.dataSize, NumberOf(vs[i]));
        Chain(out, before, done, ok, EncodeValue(f, vs[i]));
        if !ok {
          PackedBegins(f, vs, i + 1);
          Fails(out, before, EncodePacked(f, vs[..i + 1]), EncodePacked(f, vs));
          return;
        }
      }
      assert vs[..|vs|] == vs;
    }

    method EncodeEach(f: Field, vs: seq<Value>) returns (ok: bool)
      requires Valid() && WalkableField(f)
      modifies this, buffer
      ensures Did(ok, old(Out()), old(bytesWritten), EncodeUnpacked(f, vs))
      decreases f, 2
    {
      ghost var out, before := Out(), bytesWritten;
      ok := true;
      for i := 0 to |vs|
        invariant ok && Did(true, out, before, EncodeUnpacked(f, vs[..i]))
      {
        ghost var done := EncodeUnpacked(f, vs[..i]).value;
        assert vs[..i + 1][..i] == vs[..i];
        ok := EncodeWithTag(f, vs[i]);
        Chain(out, before, done, ok, EncodeTagged(f, vs[i]));
        if !ok {
          UnpackedBegins(f, vs, i + 1);
          Fails(out, before, EncodeUnpacked(f, vs[..i + 1]), EncodeUnpacked(f, vs));
          return;
        }
      }
      assert vs[..|vs|] == vs;
    }

    /** encode_array. */
    method EncodeRepeated(f: Field, vs: seq<Value>) returns (ok: bool)
      requires Valid() && WalkableField(f)
      modifies this, buffer
      ensures Did(ok, old(Out()), old(bytesWritten), EncodeArray(f, vs))
      decreases f, 3
    {
      if |vs| == 0 {
        assert Out() + [] == Out();
        return true;
      }
      if |vs| > f.arraySize {
        return false;
      }
      if f.kind.Packable() {
        ok := EncodePackedArray(f, vs);
      } else {
        ok := EncodeEach(f, vs);
      }
    }

    method EncodePackedArray(f: Field, vs: seq<Value>) returns (ok: bool)
      requires Valid() && f.kind.Packable()
      modifies this, buffer
      ensures Did(ok, old(Out()), old(bytesWritten), Then(Some(PutTag(f.tag, WtString)), Prefixed(EncodePacked(f, vs))))
    {
      ghost var out, before := Out(), bytesWritten;
      ghost var whole := Then(Some(PutTag(f.tag, WtString)), Prefixed(EncodePacked(f, vs)));
      ok := EncodeTag(f.tag, WtString);
      if !ok {
        Fails(out, before, Some(PutTag(f.tag, WtString)), whole);
        return;
      }
      ok := EncodeSizedData(f, vs);
      Chain(out, before, PutTag(f.tag, WtString), ok, Prefixed(EncodePacked(f, vs)));
    }

    method EncodeSizedData(f: Field, vs: seq<Value>) returns (ok: bool)
      requires Valid() && f.kind.Packable()
      modifies this, buffer
      ensures Did(ok, old(Out()), old(bytesWritten), Prefixed(EncodePacked(f, vs)))
    {
      ghost var out, before := Out(), bytesWritten;
      var size;
      if f.kind.Fixed32? {
        FixedArraySize(f, vs);
        size := 4 * |vs|;
      } else if f.kind.Fixed64? {
        FixedArraySize(f, vs);
        size := 8 * |vs|;
      } else {
        var counter := new OStream.Sizing();
        ok := counter.EncodeElements(f, vs);
        if !ok {
          return;
        }
        size := counter.bytesWritten;
      }
      ghost var data := EncodePacked(f, vs).value;
      assert size == |data|;
      ok := EncodeVarint(size);
      if !ok {
        Fails(out, before, Some(PutVarint(size)), Some(PutString(data)));
        return;
      }
      if sizing {
        Count(size);
        return true;
      }
      ok := EncodeElements(f, vs);
      Chain(out, before, PutVarint(size), ok, Some(data));
    }

    // ----- fields and messages

    /** encode_basic_field. */
    method EncodeBasicField(f: Field, s: Slot) returns (ok: bool)
      requires Valid() && WalkableField(f)
      modifies this, buffer
      ensures Did(ok, old(Out()), old(bytesWritten), EncodeField(f, s))
      decreases f, 4
    {
      assert Out() + [] == Out();
      match f.rule
      case Required =>
        ok := EncodeWithTag(f, Held(s));
      case Optional =>
        if !s.Opt? || !s.has {
          return true;
        }
        ok := EncodeWithTag(f, s.value);
      case Singular =>
        if SlotIsZero(f, s) {
          return true;
        }
        ok := EncodeWithTag(f, Held(s));
      case Repeated =>
        ok := EncodeRepeated(f, Items(s));
      case Oneof(_) =>
        if !s.Member? || s.chosen.None? {
          return true;
        }
        ok := EncodeWithTag(f, s.chosen.value);
    }

    /** pb_encode. */
    method Encode(fields: seq<Field>, m: Message) returns (ok: bool)
      requires Valid() && |m| == |fields| && Walkable(fields)
      modifies this, buffer
      ensures Did(ok, old(Out()), old(bytesWritten), EncodeMessage(fields, m))
      decreases fields, 4
    {
      hide EncodeField;
      ghost var out, before := Out(), bytesWritten;
      assert out + [] == out;
      var iter := new FieldIter(fields);
      if fields == [] {
        return true;
      }
      ok := true;
      var more := true;
      while more
        invariant Valid() && iter.Valid() && iter.start == fields
        invariant ok && Did(true, out, before, EncodeFirst(fields, m, if more then iter.pos else |fields|))
        decreases more, if more then |fields| - iter.pos else 0
      {
        ghost var i := iter.pos;
        ok := EncodeBasicField(fields[iter.pos], m[iter.pos]);
        Chain(out, before, EncodeFirst(fields, m, i).value, ok, EncodeField(fields[i], m[i]));
        if !ok {
          FirstBegins(fields, m, i + 1);
          Fails(out, before, EncodeFirst(fields, m, i + 1), EncodeMessage(fields, m));
          return;
        }
        more := iter.Next();
      }
    }
  }

  /** pb_get_encoded_size: what a sizing stream has counted is the size of what pb_encode writes. */
  method GetEncodedSize(fields: seq<Field>, m: Message) returns (ok: bool, size: nat)
    requires |m| == |fields| && Walkable(fields)
    ensures ok == EncodeMessage(fields, m).Some?
    ensures ok ==> size == |EncodeMessage(fields, m).value|
  {
    var stream := new OStream.Sizing();
    ok := stream.Encode(fields, m);
    size := stream.bytesWritten;
  }

  /** A buffer of the size that was counted is filled exactly; any smaller one is refused. */
  method EncodeIntoBuffer(fields: seq<Field>, m: Message, bufsize: nat) returns (ok: bool, written: Bytes)
    requires |m| == |fields| && Walkable(fields)
    ensures ok <==> EncodeMessage(fields, m).Some? && |EncodeMessage(fields, m).value| <= bufsize
    ensures ok ==> written == EncodeMessage(fields, m).value
  {
    var buffer := new Byte[bufsize](_ => 0);
    var stream := new OStream.Into(buffer, 0, bufsize);
    ok := stream.Encode(fields, m);
    written := buffer[..stream.state];
  }
}
