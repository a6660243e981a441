/**
 The integer encodings of util/coding: varints, length-prefixed slices and fixed-width
 little-endian integers. The protobuf wire format uses the same ones.
 */
module Coding {
  import opened Entries

  function Pow128(k: nat): (p: nat)
    ensures p >= 1
  {
    if k == 0 then 1 else 128 * Pow128(k - 1)
  }

  /** PutVarint32 and PutVarint64. */
  function PutVarint(n: nat): (b: Bytes)
    ensures |b| > 0
  {
    if n < 128 then [n] else [n % 128 + 128] + PutVarint(n / 128)
  }

  /** The value of at most `limit` bytes, before it is truncated, and what follows it. */
  function GetVarint(b: Bytes, limit: nat): (r: Option<(nat, Bytes)>)
    ensures r.Some? ==> |r.value.1| < |b|
    decreases limit
  {
    if limit == 0 || b == [] then None
    else if b[0] < 128 then Some((b[0] as nat, b[1..]))
    else
      match GetVarint(b[1..], limit - 1)
      case None => None
      case Some((n, rest)) => Some((b[0] as nat - 128 + 128 * n, rest))
  }

  /** GetVarint32: at most 5 bytes, the bits above 32 lost. */
  function GetVarint32(b: Bytes): (r: Option<(nat, Bytes)>)
    ensures r.Some? ==> |r.value.1| < |b| && r.value.0 < 0x1_0000_0000
  {
    match GetVarint(b, 5)
    case None => None
    case Some((n, rest)) => Some((n % 0x1_0000_0000, rest))
  }

  /** GetVarint64: at most 10 bytes, the bits above 64 lost. */
  function GetVarint64(b: Bytes): (r: Option<(nat, Bytes)>)
    ensures r.Some? ==> |r.value.1| < |b| && r.value.0 < 0x1_0000_0000_0000_0000
  {
    match GetVarint(b, 10)
    case None => None
    case Some((n, rest)) => Some((n % 0x1_0000_0000_0000_0000, rest))
  }

  lemma {:induction false} VarintRoundTrip(n: nat, rest: Bytes, limit: nat)
    requires 0 < limit && n < Pow128(limit)
    ensures GetVarint(PutVarint(n) + rest, limit) == Some((n, rest))
  {
    var b := PutVarint(n) + rest;
    if n < 128 {
      assert b[1..] == rest;
    } else {
      assert b[1..] == PutVarint(n / 128) + rest;
      VarintRoundTrip(n / 128, rest, limit - 1);
    }
  }

  lemma {:induction false} Varint32Fits(n: nat)
    requires n < 0x1_0000_0000
    ensures n < Pow128(5)
  {
    assert Pow128(1) == 128 && Pow128(2) == 128 * 128 && Pow128(3) == 128 * 128 * 128;
    assert Pow128(4) == 128 * Pow128(3) && Pow128(5) == 128 * Pow128(4);
  }

  lemma {:induction false} Varint64Fits(n: nat)
    requires n < 0x1_0000_0000_0000_0000
    ensures n < Pow128(10)
  {
    assert Pow128(1) == 128 && Pow128(2) == 128 * 128 && Pow128(3) == 128 * 128 * 128;
    assert Pow128(4) == 128 * Pow128(3) && Pow128(5) == 128 * Pow128(4) && Pow128(6) == 128 * Pow128(5);
    assert Pow128(7) == 128 * Pow128(6) && Pow128(8) == 128 * Pow128(7) && Pow128(9) == 128 * Pow128(8);
    assert Pow128(10) == 128 * Pow128(9);
  }

  lemma {:induction false} Varint32RoundTrip(n: nat, rest: Bytes)
    requires n < 0x1_0000_0000
    ensures GetVarint32(PutVarint(n) + rest) == Some((n, rest))
  {
    hide GetVarint, PutVarint, Pow128;
    Varint32Fits(n);
    VarintRoundTrip(n, rest, 5);
  }

  lemma {:induction false} Varint64RoundTrip(n: nat, rest: Bytes)
    requires n < 0x1_0000_0000_0000_0000
    ensures GetVarint64(PutVarint(n) + rest) == Some((n, rest))
  {
    hide GetVarint, PutVarint, Pow128;
    Varint64Fits(n);
    VarintRoundTrip(n, rest, 10);
  }

  function PutSlice(s: Bytes): Bytes {
    PutVarint(|s|) + s
  }

  function GetSlice(b: Bytes): (r: Option<(Bytes, Bytes)>)
    ensures r.Some? ==> |r.value.1| < |b|
  {
    match GetVarint32(b)
    case None => None
    case Some((n, rest)) => if n <= |rest| then Some((rest[..n], rest[n..])) else None
  }

  lemma {:induction false} SliceRoundTrip(s: Bytes, rest: Bytes)
    requires |s| < 0x1_0000_0000
    ensures GetSlice(PutSlice(s) + rest) == Some((s, rest))
  {
    Varint32RoundTrip(|s|, s + rest);
    assert PutSlice(s) + rest == PutVarint(|s|) + (s + rest);
    assert (s + rest)[..|s|] == s && (s + rest)[|s|..] == rest;
  }

  // ----- a reader that succeeds never looks past what it takes

  lemma {:induction false} GetVarintLocal(b: Bytes, c: Bytes, limit: nat)
    requires GetVarint(b, limit).Some?
    ensures GetVarint(b + c, limit) == Some((GetVarint(b, limit).value.0, GetVarint(b, limit).value.1 + c))
    decreases limit
  {
    assert (b + c)[1..] == b[1..] + c;
    if b[0] >= 128 {
      GetVarintLocal(b[1..], c, limit - 1);
    }
  }

  lemma {:induction false} GetVarint32Local(b: Bytes, c: Bytes)
    requires GetVarint32(b).Some?
    ensures GetVarint32(b + c) == Some((GetVarint32(b).value.0, GetVarint32(b).value.1 + c))
  {
    GetVarintLocal(b, c, 5);
  }

  lemma {:induction false} GetVarint64Local(b: Bytes, c: Bytes)
    requires GetVarint64(b).Some?
    ensures GetVarint64(b + c) == Some((GetVarint64(b).value.0, GetVarint64(b).value.1 + c))
  {
    GetVarintLocal(b, c, 10);
  }

  lemma {:induction false} SliceLocal(b: Bytes, c: Bytes)
    requires GetSlice(b).Some?
    ensures GetSlice(b + c) == Some((GetSlice(b).value.0, GetSlice(b).value.1 + c))
  {
    hide GetVarint32;
    GetVarint32Local(b, c);
    var (n, rest) := GetVarint32(b).value;
    assert (rest + c)[..n] == rest[..n] && (rest + c)[n..] == rest[n..] + c;
  }

  // ----- fixed-width little-endian integers

  /** EncodeFixed32 and EncodeFixed64. */
  function Fixed(n: nat, size: nat): (b: Bytes)
    ensures |b| == size
  {
    if size == 0 then [] else [n % 256] + Fixed(n / 256, size - 1)
  }

  function DecodeFixed(b: Bytes): nat {
    if b == [] then 0 else b[0] + 256 * DecodeFixed(b[1..])
  }

  function Pow256(k: nat): (p: nat)
    ensures p >= 1
  {
    if k == 0 then 1 else 256 * Pow256(k - 1)
  }

  lemma {:induction false} FixedRoundTrip(n: nat, size: nat)
    requires n < Pow256(size)
    ensures DecodeFixed(Fixed(n, size)) == n
  {
    if size > 0 {
      FixedRoundTrip(n / 256, size - 1);
      assert Fixed(n, size)[1..] == Fixed(n / 256, size - 1);
    }
  }
}
