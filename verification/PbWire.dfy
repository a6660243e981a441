/**
 The protobuf wire format as pb_encode.c writes it and pb_decode.c reads it: varints of 32 and
 64 bits, zigzag, fixed-width integers, length-prefixed strings and field tags.

 A reader takes the bytes left in a stream and gives a value with the bytes after it, or None
 where the source reports an error.
 */
module PbWire {
  import opened Entries
  import opened Coding

  const TWO_31: int := 0x8000_0000
  const TWO_32: int := 0x1_0000_0000
  const TWO_63: int := 0x8000_0000_0000_0000
  const TWO_64: int := 0x1_0000_0000_0000_0000

  // ----- two's complement

  function ToU64(n: int): (u: nat)
    ensures u < TWO_64
  {
    n % TWO_64
  }

  function AsI64(u: nat): int {
    var w := u % TWO_64;
    if w >= TWO_63 then w - TWO_64 else w
  }

  function AsI32(u: nat): int {
    var w := u % TWO_32;
    if w >= TWO_31 then w - TWO_32 else w
  }

  lemma {:induction false} SignedRoundTrip(n: int)
    ensures -TWO_63 <= n < TWO_63 ==> AsI64(ToU64(n)) == n
    ensures -TWO_31 <= n < TWO_31 ==> AsI32(ToU64(n)) == n
  {
    if -TWO_63 <= n < 0 {
      assert ToU64(n) == n + TWO_64;
      if -TWO_31 <= n {
        assert n + TWO_64 == (TWO_32 - 1) * TWO_32 + (n + TWO_32);
        assert (n + TWO_64) % TWO_32 == n + TWO_32;
      }
    }
  }

  function Zigzag(n: int): nat {
    if n < 0 then -2 * n - 1 else 2 * n
  }

  function Unzigzag(u: nat): int {
    if u % 2 == 1 then -(u / 2) - 1 else u / 2
  }

  // ----- readers

  /** pb_decode_varint: ten bytes at most, the value truncated to 64 bits. */
  function ReadVarint(b: Bytes): (r: Option<(nat, Bytes)>)
    ensures r.Some? ==> |r.value.1| < |b| && r.value.0 < TWO_64
  {
    match GetVarint(b, 10)
    case None => None
    case Some((n, rest)) => Some((n % TWO_64, rest))
  }

  /** What a byte at bit position `bitpos` of a 32-bit varint adds; bits above 31 are lost. */
  function Shifted(byte: Byte, bitpos: nat): (n: nat)
    ensures n < TWO_32
  {
    var low := byte % 128;
    if bitpos == 7 then low * 0x80
    else if bitpos == 14 then low * 0x4000
    else if bitpos == 21 then low * 0x20_0000
    else low % 16 * 0x1000_0000
  }

  /** The loop of pb_decode_varint32_eof, after its first byte. */
  function MoreVarint32(b: Bytes, result: nat, bitpos: nat): (r: Option<(nat, Bytes)>)
    ensures r.Some? ==> |r.value.1| < |b|
  {
    if b == [] then None
    else if bitpos >= 32 then
      var signExtension := if bitpos < 63 then 0xFF else 0x01;
      if b[0] % 128 != 0 && (result / TWO_31 == 0 || b[0] != signExtension) then None
      else if b[0] >= 128 then MoreVarint32(b[1..], result, bitpos + 7)
      else Some((result, b[1..]))
    else if b[0] >= 128 then MoreVarint32(b[1..], result + Shifted(b[0], bitpos), bitpos + 7)
    else if bitpos + 7 == 35 && b[0] / 16 != 0 then None
    else Some((result + Shifted(b[0], bitpos), b[1..]))
  }

  /** pb_decode_varint32. */
  function ReadVarint32(b: Bytes): (r: Option<(nat, Bytes)>)
    ensures r.Some? ==> |r.value.1| < |b|
  {
    if b == [] then None
    else if b[0] < 128 then Some((b[0] as nat, b[1..]))
    else MoreVarint32(b[1..], b[0] % 128, 7)
  }

  function ReadFixed(b: Bytes, size: nat): (r: Option<(nat, Bytes)>)
    ensures r.Some? ==> |r.value.1| <= |b|
  {
    if |b| < size then None else Some((DecodeFixed(b[..size]), b[size..]))
  }

  /** A length and that many bytes: what pb_make_string_substream cuts out. */
  function ReadString(b: Bytes): (r: Option<(Bytes, Bytes)>)
    ensures r.Some? ==> |r.value.0| + |r.value.1| < |b|
  {
    match ReadVarint32(b)
    case None => None
    case Some((n, rest)) => if n <= |rest| then Some((rest[..n], rest[n..])) else None
  }

  datatype WireType = WtVarint | Wt64 | WtString | Wt32 {
    function Code(): nat {
      match this
      case WtVarint => 0
      case Wt64 => 1
      case WtString => 2
      case Wt32 => 5
    }
  }

  /** pb_skip_varint: over any number of bytes. */
  function SkipVarint(b: Bytes): (r: Option<Bytes>)
    ensures r.Some? ==> |r.value| < |b|
  {
    if b == [] then None
    else if b[0] < 128 then Some(b[1..])
    else SkipVarint(b[1..])
  }

  /** pb_skip_field, by the three wire type bits of the tag. */
  function SkipField(wire: nat, b: Bytes): (r: Option<Bytes>)
    ensures r.Some? ==> |r.value| <= |b|
  {
    if wire == 0 then SkipVarint(b)
    else if wire == 1 then (if |b| < 8 then None else Some(b[8..]))
    else if wire == 2 then
      match ReadString(b)
      case None => None
      case Some((_, rest)) => Some(rest)
    else if wire == 5 then (if |b| < 4 then None else Some(b[4..]))
    else None
  }

  // ----- writers

  /** pb_encode_tag. */
  function PutTag(tag: nat, wire: WireType): (b: Bytes)
    ensures |b| > 0
  {
    PutVarint(tag * 8 + wire.Code())
  }

  /** pb_encode_string. */
  function PutString(s: Bytes): Bytes {
    PutVarint(|s|) + s
  }

  // ----- what is written is read back

  lemma {:induction false} VarintReadBack(n: nat, rest: Bytes)
    requires n < TWO_64
    ensures ReadVarint(PutVarint(n) + rest) == Some((n, rest))
  {
    hide Pow128, GetVarint, PutVarint;
    Varint64Fits(n);
    VarintRoundTrip(n, rest, 10);
  }

  /** The weight of a byte at bit position 7 * i. */
  predicate IsUnit(bitpos: nat, unit: nat) {
    (bitpos == 7 && unit == 0x80) || (bitpos == 14 && unit == 0x4000) || (bitpos == 21 && unit == 0x20_0000)
    || (bitpos == 28 && unit == 0x1000_0000)
  }

  lemma {:induction false} FullByte(high: nat, low: nat, bitpos: nat, unit: nat)
    requires IsUnit(bitpos, unit) && high >= 128 && low + high * unit < TWO_32
    ensures bitpos < 28 && IsUnit(bitpos + 7, 128 * unit)
    ensures Shifted(high % 128 + 128, bitpos) == high % 128 * unit
    ensures high * unit == high % 128 * unit + high / 128 * (128 * unit)
  {
    Distribute(high % 128, high / 128, unit);
    assert high == high % 128 + 128 * (high / 128);
  }

  lemma {:induction false} LastByte(high: nat, low: nat, bitpos: nat, unit: nat)
    requires IsUnit(bitpos, unit) && high < 128 && low + high * unit < TWO_32
    ensures bitpos < 32 && Shifted(high, bitpos) == high * unit
    ensures bitpos + 7 == 35 ==> high / 16 == 0
  {
    assert bitpos == 28 ==> high < 16;
  }

  /** One more byte of a 32-bit varint, at bit position 7 * i; `high` is what is still to come. */
  lemma {:induction false} MoreReadBack(low: nat, high: nat, unit: nat, bitpos: nat, rest: Bytes)
    requires IsUnit(bitpos, unit) && low + high * unit < TWO_32
    ensures MoreVarint32(PutVarint(high) + rest, low, bitpos) == Some((low + high * unit, rest))
    decreases 35 - bitpos
  {
    hide Shifted, IsUnit;
    var b := PutVarint(high) + rest;
    if high < 128 {
      assert b[1..] == rest;
      LastByte(high, low, bitpos, unit);
    } else {
      assert b[1..] == PutVarint(high / 128) + rest;
      FullByte(high, low, bitpos, unit);
      MoreReadBack(low + high % 128 * unit, high / 128, 128 * unit, bitpos + 7, rest);
    }
  }

  lemma {:induction false} Distribute(a: nat, c: nat, unit: nat)
    ensures (a + 128 * c) * unit == a * unit + c * (128 * unit)
  {
  }

  lemma {:induction false} Varint32ReadBack(n: nat, rest: Bytes)
    requires n < TWO_32
    ensures ReadVarint32(PutVarint(n) + rest) == Some((n, rest))
  {
    var b := PutVarint(n) + rest;
    if n < 128 {
      assert b[1..] == rest;
    } else {
      assert b[1..] == PutVarint(n / 128) + rest;
      assert (n % 128 + 128) % 128 == n % 128;
      MoreReadBack(n % 128, n / 128, 0x80, 7, rest);
    }
  }

  lemma {:induction false} StringReadBack(s: Bytes, rest: Bytes)
    requires |s| < TWO_32
    ensures ReadString(PutString(s) + rest) == Some((s, rest))
  {
    assert PutString(s) + rest == PutVarint(|s|) + (s + rest);
    Varint32ReadBack(|s|, s + rest);
    assert (s + rest)[..|s|] == s && (s + rest)[|s|..] == rest;
  }

  lemma {:induction false} FixedReadBack(n: nat, size: nat, rest: Bytes)
    requires n < Pow256(size)
    ensures ReadFixed(Fixed(n, size) + rest, size) == Some((n, rest))
  {
    var b := Fixed(n, size) + rest;
    assert b[..size] == Fixed(n, size) && b[size..] == rest;
    FixedRoundTrip(n, size);
  }

  lemma {:induction false} Pow256Values()
    ensures Pow256(4) == TWO_32 && Pow256(8) == TWO_64
  {
    assert Pow256(1) == 256 && Pow256(2) == 256 * 256 && Pow256(3) == 256 * Pow256(2) && Pow256(4) == 256 * Pow256(3);
    assert Pow256(5) == 256 * Pow256(4) && Pow256(6) == 256 * Pow256(5);
    assert Pow256(7) == 256 * Pow256(6) && Pow256(8) == 256 * Pow256(7);
  }

  lemma {:induction false} TagReadBack(tag: nat, wire: WireType, rest: Bytes)
    requires 1 <= tag < 0x2000_0000
    ensures ReadVarint32(PutTag(tag, wire) + rest) == Some((tag * 8 + wire.Code(), rest))
    ensures (tag * 8 + wire.Code()) / 8 == tag && (tag * 8 + wire.Code()) % 8 == wire.Code()
  {
    Varint32ReadBack(tag * 8 + wire.Code(), rest);
  }

  // ----- a reader that succeeds never looks past what it takes

  lemma {:induction false} VarintLocal(b: Bytes, c: Bytes)
    requires ReadVarint(b).Some?
    ensures ReadVarint(b + c) == Some((ReadVarint(b).value.0, ReadVarint(b).value.1 + c))
  {
    GetVarintLocal(b, c, 10);
  }

  lemma {:induction false} MoreVarint32Local(b: Bytes, c: Bytes, result: nat, bitpos: nat)
    requires MoreVarint32(b, result, bitpos).Some?
    ensures MoreVarint32(b + c, result, bitpos)
         == Some((MoreVarint32(b, result, bitpos).value.0, MoreVarint32(b, result, bitpos).value.1 + c))
  {
    assert (b + c)[1..] == b[1..] + c;
    if b[0] >= 128 {
      MoreVarint32Local(b[1..], c, if bitpos >= 32 then result else result + Shifted(b[0], bitpos), bitpos + 7);
    }
  }

  lemma {:induction false} Varint32Local(b: Bytes, c: Bytes)
    requires ReadVarint32(b).Some?
    ensures ReadVarint32(b + c) == Some((ReadVarint32(b).value.0, ReadVarint32(b).value.1 + c))
  {
    assert (b + c)[1..] == b[1..] + c;
    if b[0] >= 128 {
      MoreVarint32Local(b[1..], c, b[0] % 128, 7);
    }
  }

  lemma {:induction false} FixedLocal(b: Bytes, c: Bytes, size: nat)
    requires ReadFixed(b, size).Some?
    ensures ReadFixed(b + c, size) == Some((ReadFixed(b, size).value.0, ReadFixed(b, size).value.1 + c))
  {
    assert (b + c)[..size] == b[..size] && (b + c)[size..] == b[size..] + c;
  }

  lemma {:induction false} StringLocal(b: Bytes, c: Bytes)
    requires ReadString(b).Some?
    ensures ReadString(b + c) == Some((ReadString(b).value.0, ReadString(b).value.1 + c))
  {
    Varint32Local(b, c);
    var (n, rest) := ReadVarint32(b).value;
    assert (rest + c)[..n] == rest[..n] && (rest + c)[n..] == rest[n..] + c;
  }

  lemma {:induction false} SkipVarintLocal(b: Bytes, c: Bytes)
    requires SkipVarint(b).Some?
    ensures SkipVarint(b + c) == Some(SkipVarint(b).value + c)
  {
    assert (b + c)[1..] == b[1..] + c;
    if b[0] >= 128 {
      SkipVarintLocal(b[1..], c);
    }
  }

  lemma {:induction false} SkipFieldLocal(wire: nat, b: Bytes, c: Bytes)
    requires SkipField(wire, b).Some?
    ensures SkipField(wire, b + c) == Some(SkipField(wire, b).value + c)
  {
    if wire == 0 {
      SkipVarintLocal(b, c);
    } else if wire == 1 {
      assert (b + c)[8..] == b[8..] + c;
    } else if wire == 2 {
      StringLocal(b, c);
    } else {
      assert (b + c)[4..] == b[4..] + c;
    }
  }

  // ----- exactly what a reader accepts

  lemma {:induction false} SkipVarintMeans(b: Bytes)
    ensures SkipVarint(b).Some? <==> exists i :: 0 <= i < |b| && b[i] < 128
    ensures SkipVarint(b).Some? ==>
              var n := |b| - |SkipVarint(b).value|;
              0 < n && b[n - 1] < 128 && SkipVarint(b).value == b[n..] && forall i :: 0 <= i < n - 1 ==> b[i] >= 128
  {
    if b != [] && b[0] >= 128 {
      SkipVarintMeans(b[1..]);
      assert forall i :: 0 <= i < |b| - 1 ==> b[1..][i] == b[i + 1];
      assert forall i :: 0 < i < |b| ==> b[i] == b[1..][i - 1];
      if SkipVarint(b).Some? {
        var n := |b| - |SkipVarint(b).value|;
        assert b[1..][n - 1..] == b[n..];
      }
    }
  }

  /** The last bytes of b. */
  predicate IsTail(t: Bytes, b: Bytes) {
    |t| <= |b| && t == b[|b| - |t|..]
  }

  lemma {:induction false} TailOf(b: Bytes, n: nat)
    requires n <= |b|
    ensures IsTail(b[n..], b)
  {
  }

  lemma {:induction false} TailOfTail(t: Bytes, u: Bytes, b: Bytes)
    requires IsTail(t, u) && IsTail(u, b)
    ensures IsTail(t, b)
  {
    assert b[|b| - |u|..][|u| - |t|..] == b[|b| - |t|..];
  }

  lemma {:induction false} MoreVarint32IsTail(b: Bytes, result: nat, bitpos: nat)
    requires MoreVarint32(b, result, bitpos).Some?
    ensures IsTail(MoreVarint32(b, result, bitpos).value.1, b)
  {
    hide IsTail, Shifted;
    TailOf(b, 1);
    if b[0] >= 128 {
      var next := if bitpos >= 32 then result else result + Shifted(b[0], bitpos);
      MoreVarint32IsTail(b[1..], next, bitpos + 7);
      TailOfTail(MoreVarint32(b[1..], next, bitpos + 7).value.1, b[1..], b);
    }
  }

  lemma {:induction false} StringIsTail(b: Bytes)
    requires ReadString(b).Some?
    ensures IsTail(ReadString(b).value.1, b)
  {
    hide IsTail, MoreVarint32;
    var (size, rest) := ReadVarint32(b).value;
    TailOf(b, 1);
    TailOf(rest, size);
    if b[0] >= 128 {
      MoreVarint32IsTail(b[1..], b[0] % 128, 7);
      TailOfTail(rest, b[1..], b);
    }
    TailOfTail(rest[size..], rest, b);
  }

  /**
   Groups and the two wire types there are not cannot be skipped, and nothing can past the end of the bytes; else what
   is left are the last of the bytes.
   */
  lemma {:induction false} SkipFieldIff(wire: nat, b: Bytes)
    ensures SkipField(wire, b).Some? <==>
              || (wire == 0 && exists i :: 0 <= i < |b| && b[i] < 128)
              || (wire == 1 && |b| >= 8)
              || (wire == 2 && ReadString(b).Some?)
              || (wire == 5 && |b| >= 4)
    ensures SkipField(wire, b).Some? ==> IsTail(SkipField(wire, b).value, b)
  {
    hide ReadString, SkipVarint;
    SkipVarintMeans(b);
    if wire == 2 && ReadString(b).Some? {
      StringIsTail(b);
    }
  }

  lemma {:induction false} ShortLast(byte: Byte, low: nat, bitpos: nat, unit: nat)
    requires IsUnit(bitpos, unit) && low < unit && byte < 128
    ensures bitpos < 32 && (bitpos + 7 == 35 && byte / 16 != 0 <==> low + byte * unit >= TWO_32)
    ensures low + byte * unit < TWO_32 ==> Shifted(byte, bitpos) == byte * unit
  {
    if bitpos == 28 && byte < 16 {
      assert byte % 128 % 16 == byte;
    }
  }

  lemma {:induction false} ShortMore(byte: Byte, low: nat, bitpos: nat, unit: nat)
    requires IsUnit(bitpos, unit) && low < unit && byte >= 128 && bitpos < 28
    ensures IsUnit(bitpos + 7, 128 * unit) && Shifted(byte, bitpos) == byte % 128 * unit
    ensures low + byte % 128 * unit < 128 * unit && byte == byte % 128 + 128
  {
  }

  /** What is still to come of a 32-bit varint, at bit position 7 * i. */
  lemma {:induction false} MoreShort(b: Bytes, low: nat, bitpos: nat, unit: nat, limit: nat)
    requires IsUnit(bitpos, unit) && low < unit && bitpos <= 28 && limit == 5 - bitpos / 7
    requires GetVarint(b, limit).Some?
    ensures var (n, rest) := GetVarint(b, limit).value;
            MoreVarint32(b, low, bitpos) == if low + n * unit < TWO_32 then Some((low + n * unit, rest)) else None
    decreases limit
  {
    hide IsUnit, Shifted;
    if b[0] >= 128 {
      var m := GetVarint(b[1..], limit - 1).value.0;
      ShortMore(b[0], low, bitpos, unit);
      MoreShort(b[1..], low + b[0] % 128 * unit, bitpos + 7, 128 * unit, limit - 1);
      Distribute(b[0] % 128, m, unit);
    } else {
      ShortLast(b[0], low, bitpos, unit);
    }
  }

  /**
   A 32-bit varint of at most five bytes is accepted if and only if its value has 32 bits, and then it is that value:
   nothing is truncated.
   */
  lemma {:induction false} ShortVarint32Iff(b: Bytes)
    requires GetVarint(b, 5).Some?
    ensures var (n, rest) := GetVarint(b, 5).value;
            ReadVarint32(b) == if n < TWO_32 then Some((n, rest)) else None
  {
    if b[0] >= 128 {
      MoreShort(b[1..], b[0] % 128, 7, 0x80, 4);
    }
  }

  // ----- a negative number in ten bytes

  /** The sign extension of a 32-bit number: four bytes of ones and the last bit. */
  function SignBytes(): Bytes {
    [255, 255, 255, 255, 1]
  }

  lemma {:induction false} SignIsWritten()
    ensures PutVarint(0x1FFF_FFFF) == SignBytes()
  {
    assert PutVarint(0x1) == [1];
    assert PutVarint(0xFF) == [255] + PutVarint(0x1);
    assert PutVarint(0x7FFF) == [255] + PutVarint(0xFF);
    assert PutVarint(0x3F_FFFF) == [255] + PutVarint(0x7FFF);
    assert PutVarint(0x1FFF_FFFF) == [255] + PutVarint(0x3F_FFFF);
  }

  lemma {:induction false} SignIsRead(result: nat, rest: Bytes)
    requires TWO_31 <= result < TWO_32
    ensures MoreVarint32(SignBytes() + rest, result, 35) == Some((result, rest))
  {
    var b := SignBytes() + rest;
    assert b[1..] == [255, 255, 255, 1] + rest && b[2..] == [255, 255, 1] + rest;
    assert b[3..] == [255, 1] + rest && b[4..] == [1] + rest && b[5..] == rest;
    assert b[1..][1..] == b[2..] && b[2..][1..] == b[3..] && b[3..][1..] == b[4..] && b[4..][1..] == b[5..];
    assert MoreVarint32(b[4..], result, 63) == Some((result, rest));
    assert MoreVarint32(b[3..], result, 56) == Some((result, rest));
    assert MoreVarint32(b[2..], result, 49) == Some((result, rest));
    assert MoreVarint32(b[1..], result, 42) == Some((result, rest));
  }

  /** The 32 bits of ones above a 32-bit number, seen from bit position 7 * i. */
  function SignAt(bitpos: nat): nat {
    if bitpos == 7 then 0x200_0000_0000_0000 - 0x200_0000
    else if bitpos == 14 then 0x4_0000_0000_0000 - 0x4_0000
    else if bitpos == 21 then 0x800_0000_0000 - 0x800
    else 0x10_0000_0000 - 0x10
  }

  lemma {:induction false} SignShifts(high: nat, bitpos: nat)
    requires bitpos == 7 || bitpos == 14 || bitpos == 21
    ensures (high + SignAt(bitpos)) / 128 == high / 128 + SignAt(bitpos + 7)
    ensures (high + SignAt(bitpos)) % 128 == high % 128 && high + SignAt(bitpos) >= 128
  {
    assert SignAt(bitpos) == 128 * SignAt(bitpos + 7);
  }

  lemma {:induction false} SignEnds(high: nat)
    requires 8 <= high < 16
    ensures PutVarint(high + SignAt(28)) == [high + 240] + SignBytes()
    ensures Shifted(high + 240, 28) == high * 0x1000_0000
  {
    SignIsWritten();
    assert (high + SignAt(28)) / 128 == 0x1FFF_FFFF && (high + SignAt(28)) % 128 == high + 112;
    hide SignBytes;
  }

  lemma {:induction false} NextByte(byte: Byte, more: Bytes, low: nat, bitpos: nat)
    requires byte >= 128 && bitpos < 32
    ensures MoreVarint32([byte] + more, low, bitpos) == MoreVarint32(more, low + Shifted(byte, bitpos), bitpos + 7)
  {
    hide Shifted;
    assert ([byte] + more)[1..] == more;
  }

  /** n is `low`, read so far, and `high`, still to come from bit position 7 * i on. */
  predicate Parts(n: nat, low: nat, high: nat, bitpos: nat, unit: nat) {
    IsUnit(bitpos, unit) && low < unit && n == low + high * unit
  }

  lemma {:induction false} PartsNext(n: nat, low: nat, high: nat, bitpos: nat, unit: nat)
    requires Parts(n, low, high, bitpos, unit) && TWO_31 <= n < TWO_32 && bitpos != 28
    ensures high >= 128 && (bitpos == 7 || bitpos == 14 || bitpos == 21)
    ensures Parts(n, low + Shifted(high % 128 + 128, bitpos), high / 128, bitpos + 7, 128 * unit)
  {
    FullByte(high, low, bitpos, unit);
    ShortMore(high % 128 + 128, low, bitpos, unit);
  }

  lemma {:induction false} PartsEnd(n: nat, low: nat, high: nat, unit: nat)
    requires Parts(n, low, high, 28, unit) && TWO_31 <= n < TWO_32
    ensures 8 <= high < 16 && n == low + high * 0x1000_0000
  {
  }

  /** A number sign-extended from its 32 bits. */
  lemma {:induction false} SignedMore(n: nat, low: nat, high: nat, bitpos: nat, unit: nat, rest: Bytes)
    requires Parts(n, low, high, bitpos, unit) && TWO_31 <= n < TWO_32 && bitpos <= 28
    ensures MoreVarint32(PutVarint(high + SignAt(bitpos)) + rest, low, bitpos) == Some((n, rest))
    decreases 35 - bitpos
  {
    hide Parts, SignAt, Shifted, SignBytes, MoreVarint32;
    var b := PutVarint(high + SignAt(bitpos)) + rest;
    if bitpos == 28 {
      PartsEnd(n, low, high, unit);
      SignEnds(high);
      assert b == [high + 240] + (SignBytes() + rest);
      NextByte(high + 240, SignBytes() + rest, low, bitpos);
      SignIsRead(n, rest);
    } else {
      PartsNext(n, low, high, bitpos, unit);
      SignShifts(high, bitpos);
      var more := PutVarint(high / 128 + SignAt(bitpos + 7)) + rest;
      assert b == [high % 128 + 128] + more;
      NextByte(high % 128 + 128, more, low, bitpos);
      SignedMore(n, low + Shifted(high % 128 + 128, bitpos), high / 128, bitpos + 7, 128 * unit, rest);
    }
  }

  /** The 32-bit reader takes a negative number in the ten bytes the encoder writes for it. */
  lemma {:induction false} NegativeReadBack(n: int, rest: Bytes)
    requires -TWO_31 <= n < 0
    ensures ReadVarint32(PutVarint(ToU64(n)) + rest) == Some((n + TWO_32, rest))
  {
    var low32 := n + TWO_32;
    assert ToU64(n) == low32 + 128 * SignAt(7);
    assert ToU64(n) / 128 == low32 / 128 + SignAt(7) && ToU64(n) % 128 == low32 % 128;
    hide SignAt, ToU64, MoreVarint32;
    var b := PutVarint(ToU64(n)) + rest;
    assert b[1..] == PutVarint(low32 / 128 + SignAt(7)) + rest;
    assert low32 == low32 % 128 + low32 / 128 * 128;
    SignedMore(low32, low32 % 128, low32 / 128, 7, 128, rest);
  }
}
