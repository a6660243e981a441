/**
 Decoding a manifest record that is not as it was written: VersionEdit::DecodeFrom takes whole fields or reports a
 corruption.
 */
module EditDamage {
  import opened Entries
  import opened Coding
  import opened Files
  import opened VersionEdits

  // ----- a field that is read does not depend on the bytes behind it

  lemma {:induction false} LevelLocal(b: Bytes, d: Bytes)
    requires GetLevel(b).Some?
    ensures GetLevel(b + d) == Some((GetLevel(b).value.0, GetLevel(b).value.1 + d))
  {
    hide GetVarint32;
    GetVarint32Local(b, d);
  }

  lemma {:induction false} KeyLocal(c: KeyCodec, b: Bytes, d: Bytes)
    requires GetKey(c, b).Some?
    ensures GetKey(c, b + d) == Some((GetKey(c, b).value.0, GetKey(c, b).value.1 + d))
  {
    hide GetSlice;
    SliceLocal(b, d);
  }

  lemma {:induction false} MetaLocal(c: KeyCodec, b: Bytes, d: Bytes)
    requires GetMeta(c, b).Some?
    ensures GetMeta(c, b + d) == Some((GetMeta(c, b).value.0, GetMeta(c, b).value.1 + d))
  {
    hide GetVarint64, GetKey;
    GetVarint64Local(b, d);
    var b1 := GetVarint64(b).value.1;
    GetVarint64Local(b1, d);
    var b2 := GetVarint64(b1).value.1;
    KeyLocal(c, b2, d);
    KeyLocal(c, GetKey(c, b2).value.1, d);
  }

  lemma {:induction false} BodyLocal(c: KeyCodec, tag: nat, b: Bytes, d: Bytes)
    requires GetBody(c, tag, b).Some?
    ensures GetBody(c, tag, b + d) == Some((GetBody(c, tag, b).value.0, GetBody(c, tag, b).value.1 + d))
  {
    hide GetVarint64, GetSlice, GetLevel, GetKey, GetMeta;
    if tag == COMPARATOR {
      SliceLocal(b, d);
    } else if NumberTag(tag) {
      GetVarint64Local(b, d);
    } else {
      LevelLocal(b, d);
      var rest := GetLevel(b).value.1;
      if tag == COMPACT_POINTER {
        KeyLocal(c, rest, d);
      } else if tag == DELETED_FILE {
        GetVarint64Local(rest, d);
      } else {
        MetaLocal(c, rest, d);
      }
    }
  }

  lemma {:induction false} FieldLocal(c: KeyCodec, b: Bytes, d: Bytes)
    requires GetField(c, b).Some?
    ensures GetField(c, b + d) == Some((GetField(c, b).value.0, GetField(c, b).value.1 + d))
  {
    hide GetVarint32, GetBody;
    GetVarint32Local(b, d);
    BodyLocal(c, GetVarint32(b).value.0, GetVarint32(b).value.1, d);
  }

  // ----- a record cut short

  /** No part of a field is a field. */
  lemma {:induction false} TornField(c: KeyCodec, f: Field, n: nat)
    requires GoodCodec(c) && ValidField(c, f) && n < |PutField(c, f)|
    ensures GetField(c, PutField(c, f)[..n]) == None
  {
    hide PutField, GetField;
    var b := PutField(c, f);
    FieldRoundTrip(c, f, []);
    assert b + [] == b && b[..n] + b[n..] == b;
    if GetField(c, b[..n]).Some? {
      FieldLocal(c, b[..n], b[n..]);
    }
  }

  /** One turn of DecodeFrom's loop. */
  lemma {:induction false} DecodeTurn(c: KeyCodec, e: Edit, b: Bytes)
    ensures b == [] ==> DecodeRest(c, e, b) == Some(e)
    ensures b != [] && GetField(c, b).None? ==> DecodeRest(c, e, b) == None
    ensures GetField(c, b).Some? ==>
              DecodeRest(c, e, b) == DecodeRest(c, ApplyField(e, GetField(c, b).value.0), GetField(c, b).value.1)
  {
    hide GetBody, ApplyField;
  }

  /**
   A record cut short decodes if and only if it is cut between two fields, and then into what the fields before say:
   its checksum is all that tells it from a whole one.
   */
  lemma {:induction false} TornEditIff(c: KeyCodec, e: Edit, fs: seq<Field>, n: nat)
    requires GoodCodec(c) && ValidFields(c, fs) && n <= |PutFields(c, fs)|
    ensures DecodeRest(c, e, PutFields(c, fs)[..n]).Some? <==>
              exists k :: 0 <= k <= |fs| && n == |PutFields(c, fs[..k])|
    ensures forall k :: 0 <= k <= |fs| && n == |PutFields(c, fs[..k])| ==>
              DecodeRest(c, e, PutFields(c, fs)[..n]) == Some(ApplyFields(e, fs[..k]))
    decreases |fs|
  {
    hide PutField, GetField, DecodeRest, GoodCodec, ApplyField;
    DecodeTurn(c, e, PutFields(c, fs)[..n]);
    if fs == [] {
      assert fs[..0] == [] && PutFields(c, fs)[..n] == [];
      assert n == |PutFields(c, fs[..0])|;
    } else {
      PutFieldsFront(c, fs);
      var first, rest := PutField(c, fs[0]), PutFields(c, fs[1..]);
      FrontSizes(c, fs);
      if n < |first| {
        assert PutFields(c, fs)[..n] == first[..n];
        TornField(c, fs[0], n);
        if n == 0 {
          assert fs[..0] == [] && n == |PutFields(c, fs[..0])|;
        }
      } else {
        assert PutFields(c, fs)[..n] == first + rest[..n - |first|];
        FieldRoundTrip(c, fs[0], rest[..n - |first|]);
        TornEditIff(c, ApplyField(e, fs[0]), fs[1..], n - |first|);
        TornRest(c, e, fs, n);
      }
    }
  }

  /** What a front of the fields writes begins with the first field, unless it is empty. */
  lemma {:induction false} FrontSizes(c: KeyCodec, fs: seq<Field>)
    requires fs != []
    ensures forall k :: 0 < k <= |fs| ==>
              fs[..k][1..] == fs[1..][..k - 1]
              && |PutFields(c, fs[..k])| == |PutField(c, fs[0])| + |PutFields(c, fs[1..][..k - 1])|
    ensures PutFields(c, fs[..0]) == [] && |PutField(c, fs[0])| > 0
  {
    hide PutFields;
    PutFieldIsThere(c, fs[0]);
    NoFields(c);
    assert fs[..0] == [];
    forall k | 0 < k <= |fs|
      ensures fs[..k][1..] == fs[1..][..k - 1]
      ensures |PutFields(c, fs[..k])| == |PutField(c, fs[0])| + |PutFields(c, fs[1..][..k - 1])|
    {
      PutFieldsFront(c, fs[..k]);
      assert fs[..k][1..] == fs[1..][..k - 1];
    }
  }

  lemma {:induction false} NoFields(c: KeyCodec)
    ensures PutFields(c, []) == []
  {
  }

  lemma {:induction false} PutFieldIsThere(c: KeyCodec, f: Field)
    ensures |PutField(c, f)| > 0
  {
  }

  /** The boundaries behind the first field are those of the other fields. */
  lemma {:induction false} TornRest(c: KeyCodec, e: Edit, fs: seq<Field>, n: nat)
    requires fs != [] && n >= |PutField(c, fs[0])|
    ensures (exists k :: 0 <= k <= |fs| && n == |PutFields(c, fs[..k])|) <==>
              exists k :: 0 <= k <= |fs[1..]| && n - |PutField(c, fs[0])| == |PutFields(c, fs[1..][..k])|
    ensures forall k :: 0 < k <= |fs| ==> ApplyFields(e, fs[..k]) == ApplyFields(ApplyField(e, fs[0]), fs[1..][..k - 1])
    ensures forall k :: 0 < k <= |fs| && n == |PutFields(c, fs[..k])| ==>
              n - |PutField(c, fs[0])| == |PutFields(c, fs[1..][..k - 1])|
    ensures n != |PutFields(c, fs[..0])|
  {
    hide PutFields, PutField, ApplyFields, ApplyField;
    FrontSizes(c, fs);
    if k :| 0 <= k <= |fs[1..]| && n - |PutField(c, fs[0])| == |PutFields(c, fs[1..][..k])| {
      assert n == |PutFields(c, fs[..k + 1])|;
    }
    if k :| 0 <= k <= |fs| && n == |PutFields(c, fs[..k])| {
      assert n - |PutField(c, fs[0])| == |PutFields(c, fs[1..][..k - 1])|;
    }
    forall k | 0 < k <= |fs| ensures ApplyFields(e, fs[..k]) == ApplyFields(ApplyField(e, fs[0]), fs[1..][..k - 1]) {
      ApplyFieldsFront(e, fs[..k]);
      assert fs[..k][1..] == fs[1..][..k - 1];
    }
  }

  // ----- fields there are not

  predicate KnownTag(tag: nat) {
    1 <= tag <= 9 && tag != 8
  }

  /** Behind any fields, an unknown tag or a level there is not makes the record a corruption. */
  lemma {:induction false} UnknownIsCorrupt(c: KeyCodec, e: Edit, fs: seq<Field>, tag: nat, level: nat, rest: Bytes)
    requires GoodCodec(c) && ValidFields(c, fs) && tag < 0x1_0000_0000 && level < 0x1_0000_0000
    requires !KnownTag(tag) || (5 <= tag <= 7 && level >= NUM_LEVELS)
    ensures DecodeRest(c, e, PutFields(c, fs) + (PutVarint(tag) + (PutVarint(level) + rest))) == None
    decreases |fs|
  {
    hide PutField, GoodCodec, ApplyField, PutVarint, GetVarint32, DecodeRest;
    var bad := PutVarint(tag) + (PutVarint(level) + rest);
    DecodeTurn(c, e, PutFields(c, fs) + bad);
    if fs == [] {
      assert PutFields(c, fs) + bad == bad;
      Varint32RoundTrip(tag, PutVarint(level) + rest);
      Varint32RoundTrip(level, rest);
    } else {
      PutFieldsFront(c, fs);
      var first, others := PutField(c, fs[0]), PutFields(c, fs[1..]);
      assert first + others + bad == first + (others + bad);
      FieldRoundTrip(c, fs[0], others + bad);
      UnknownIsCorrupt(c, ApplyField(e, fs[0]), fs[1..], tag, level, rest);
    }
  }
}
