/**
 dbformat.cc and the entry layout of memtable.cc: internal keys as bytes, and their order.
 */
module DbFormat {
  import opened Entries
  import opened Coding
  import opened VersionEdits

  /** How user keys are written, and the order of the user's comparator on what is written. */
  datatype UserCodec = UserCodec(enc: UserKey -> Bytes, dec: Bytes -> UserKey, compare: (Bytes, Bytes) -> int)

  ghost predicate GoodUserCodec(u: UserCodec) {
    && (forall k :: u.dec(u.enc(k)) == k)
    && forall a, b :: (u.compare(u.enc(a), u.enc(b)) < 0 <==> a < b) && (u.compare(u.enc(a), u.enc(b)) == 0 <==> a == b)
  }

  lemma {:induction false} TagFits(k: InternalKey)
    requires k.seqno <= MAX_SEQUENCE
    ensures k.Tag() < Pow256(8)
  {
    assert Pow256(1) == 256 && Pow256(2) == 256 * 256 && Pow256(3) == 256 * Pow256(2) && Pow256(4) == 256 * Pow256(3);
    assert Pow256(5) == 256 * Pow256(4) && Pow256(6) == 256 * Pow256(5) && Pow256(7) == 256 * Pow256(6)
        && Pow256(8) == 256 * Pow256(7);
  }

  // ----- internal keys

  /** AppendInternalKey. */
  function Append(u: UserCodec, k: InternalKey): Bytes {
    u.enc(k.user) + Fixed(k.Tag(), 8)
  }

  function ExtractUserKey(b: Bytes): Bytes
    requires |b| >= 8
  {
    b[..|b| - 8]
  }

  function ExtractTag(b: Bytes): nat
    requires |b| >= 8
  {
    DecodeFixed(b[|b| - 8..])
  }

  /** ParseInternalKey: too short, or a type that is neither deletion nor value, fails. */
  function Parse(u: UserCodec, b: Bytes): Option<InternalKey> {
    if |b| < 8 then None
    else
      var tag := ExtractTag(b);
      if tag % 256 > 1 then None
      else Some(InternalKey(u.dec(ExtractUserKey(b)), tag / 256, if tag % 256 == 1 then Put else Deletion))
  }

  lemma {:induction false} AppendParts(u: UserCodec, k: InternalKey)
    requires k.seqno <= MAX_SEQUENCE
    ensures |Append(u, k)| >= 8 && ExtractUserKey(Append(u, k)) == u.enc(k.user) && ExtractTag(Append(u, k)) == k.Tag()
  {
    var b := Append(u, k);
    assert b[..|b| - 8] == u.enc(k.user) && b[|b| - 8..] == Fixed(k.Tag(), 8);
    TagFits(k);
    FixedRoundTrip(k.Tag(), 8);
  }

  /** Parsing inverts packing, for every sequence number up to kMaxSequenceNumber. */
  lemma {:induction false} ParseInvertsAppend(u: UserCodec, k: InternalKey)
    requires GoodUserCodec(u) && k.seqno <= MAX_SEQUENCE
    ensures Parse(u, Append(u, k)) == Some(k)
  {
    AppendParts(u, k);
    assert k.Tag() / 256 == k.seqno && k.Tag() % 256 == k.kind.Code();
  }

  /** InternalKeyComparator::Compare on encoded keys. */
  function Compare(u: UserCodec, a: Bytes, b: Bytes): int
    requires |a| >= 8 && |b| >= 8
  {
    var r := u.compare(ExtractUserKey(a), ExtractUserKey(b));
    if r != 0 then r
    else if ExtractTag(a) > ExtractTag(b) then -1
    else if ExtractTag(a) < ExtractTag(b) then 1
    else 0
  }

  /** On the bytes, the comparator orders by user key ascending, then sequence number and type descending. */
  lemma {:induction false} CompareMeans(u: UserCodec, a: InternalKey, b: InternalKey)
    requires GoodUserCodec(u) && a.seqno <= MAX_SEQUENCE && b.seqno <= MAX_SEQUENCE
    ensures |Append(u, a)| >= 8 && |Append(u, b)| >= 8
    ensures Compare(u, Append(u, a), Append(u, b)) < 0 <==>
              a.user < b.user
                  || (a.user == b.user && (a.seqno > b.seqno
                                          || (a.seqno == b.seqno && a.kind.Put? && b.kind.Deletion?)))
    ensures Compare(u, Append(u, a), Append(u, b)) < 0 <==> Less(a, b)
    ensures Compare(u, Append(u, a), Append(u, b)) == 0 <==> a == b
  {
    AppendParts(u, a);
    AppendParts(u, b);
  }

  /** The codec of the manifest's keys: encode as above, take what DecodeFrom is given. */
  function InternalCodec(u: UserCodec): KeyCodec {
    KeyCodec((k: InternalKey) => Append(u, k),
        (b: Bytes) => if Parse(u, b).Some? then Parse(u, b).value else InternalKey(0, 0, Deletion))
  }

  lemma {:induction false} InternalCodecIsGood(u: UserCodec)
    requires GoodUserCodec(u)
    ensures GoodCodec(InternalCodec(u))
  {
    var c := InternalCodec(u);
    forall k | Fits(c, k) ensures c.dec(c.enc(k)) == k {
      ParseInvertsAppend(u, k);
    }
  }

  // ----- memtable entries

  /** The bytes MemTable::Add puts in the skip list. */
  function MemEntry(u: UserCodec, e: Entry): Bytes {
    PutSlice(Append(u, e.ikey)) + PutSlice(e.value)
  }

  /** What MemTable::Get reads from the entry its seek found: not for this key, or else the value or a deletion. */
  method ReadMemEntry(u: UserCodec, entry: Bytes, k: UserKey, ghost e: Entry) returns (found: bool, r: Option<Bytes>)
    requires GoodUserCodec(u) && e.ikey.seqno <= MAX_SEQUENCE && entry == MemEntry(u, e)
    requires |Append(u, e.ikey)| < 0x1_0000_0000 && |e.value| < 0x1_0000_0000
    ensures found <==> e.ikey.user == k
    ensures found ==> r == Outcome(Some(e))
  {
    SliceRoundTrip(Append(u, e.ikey), PutSlice(e.value));
    AppendParts(u, e.ikey);
    assert PutSlice(e.value) + [] == PutSlice(e.value);
    SliceRoundTrip(e.value, []);
    var (key, rest) := GetSlice(entry).value;
    if u.compare(ExtractUserKey(key), u.enc(k)) != 0 {
      return false, None;
    }
    if ExtractTag(key) % 256 == 1 {
      var (value, _) := GetSlice(rest).value;
      return true, Some(value);
    }
    return true, None;
  }
}
