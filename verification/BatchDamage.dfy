/**
 Reading a batch that is not as it was written: WriteBatch::Iterate hands over the updates before the fault, and says
 that there is one.
 */
module BatchDamage {
  import opened Entries
  import opened Coding
  import opened DbFormat
  import opened WriteBatches

  /** No part of the record of an update is one, but for nothing at all. */
  lemma {:induction false} TornRecord(u: UserCodec, w: Write, n: nat)
    requires Fitting(u, w) && n < |Record(u, w)|
    ensures WriteBatches.Parse(u, Record(u, w)[..n]) == Parsed([], n == 0)
  {
    hide PutSlice, GetSlice;
    var b := Record(u, w);
    if n > 0 {
      var key := PutSlice(u.enc(w.user));
      assert b[..n][0] == b[0] && b[..n][1..] == b[1..n];
      assert b[1..n] + b[n..] == b[1..];
      if w.kind.Put? {
        var value := PutSlice(w.value);
        assert b[1..] == key + value;
        SliceRoundTrip(u.enc(w.user), value);
        if GetSlice(b[1..n]).Some? {
          SliceLocal(b[1..n], b[n..]);
          var rest := GetSlice(b[1..n]).value.1;
          assert rest + b[n..] == value;
          TornSlice(w.value, |rest|);
          assert rest == value[..|rest|];
        }
      } else {
        assert b[1..] == key;
        TornSlice(u.enc(w.user), n - 1);
        assert b[1..n] == key[..n - 1];
      }
    }
  }

  lemma {:induction false} TornSlice(s: Bytes, n: nat)
    requires |s| < 0x1_0000_0000 && n < |PutSlice(s)|
    ensures GetSlice(PutSlice(s)[..n]) == None
  {
    hide PutSlice, GetSlice;
    var b := PutSlice(s);
    SliceRoundTrip(s, []);
    assert b + [] == b && b[..n] + b[n..] == b;
    if GetSlice(b[..n]).Some? {
      SliceLocal(b[..n], b[n..]);
    }
  }

  /** The first k records. */
  function FrontSize(u: UserCodec, ws: seq<Write>, k: nat): nat
    requires k <= |ws|
  {
    |Records(u, ws[..k])|
  }

  lemma {:induction false} FrontSizes(u: UserCodec, ws: seq<Write>)
    requires ws != []
    ensures FrontSize(u, ws, 0) == 0 && |Record(u, ws[0])| > 0
    ensures forall k :: 0 < k <= |ws| ==> FrontSize(u, ws, k) == |Record(u, ws[0])| + FrontSize(u, ws[1..], k - 1)
  {
    assert ws[..0] == [];
    forall k | 0 < k <= |ws| ensures FrontSize(u, ws, k) == |Record(u, ws[0])| + FrontSize(u, ws[1..], k - 1) {
      assert ws[..k][1..] == ws[1..][..k - 1];
      RecordsFirst(u, ws[..k]);
    }
    hide Record, Records;
    RecordIsThere(u, ws[0]);
  }

  lemma {:induction false} RecordIsThere(u: UserCodec, w: Write)
    ensures |Record(u, w)| > 0
  {
  }

  /**
   The records of a batch cut short: the updates whose records are whole are handed over, and it is a fault unless the
   cut is between two records.
   */
  lemma {:induction false} TornRecords(u: UserCodec, ws: seq<Write>, n: nat) returns (k: nat)
    requires GoodUserCodec(u) && (forall i :: 0 <= i < |ws| ==> Fitting(u, ws[i])) && n <= |Records(u, ws)|
    ensures k <= |ws| && FrontSize(u, ws, k) <= n && (k < |ws| ==> n < FrontSize(u, ws, k + 1))
    ensures WriteBatches.Parse(u, Records(u, ws)[..n]) == Parsed(ws[..k], n == FrontSize(u, ws, k))
    decreases |ws|
  {
    hide Record, Records, WriteBatches.Parse, GoodUserCodec, Fitting, FrontSize;
    if ws == [] {
      k := 0;
      NoRecords(u);
      ParseNothing(u);
      NothingInFront(u, ws);
      assert Records(u, ws)[..n] == [];
    } else {
      RecordsFirst(u, ws);
      FrontSizes(u, ws);
      NothingInFront(u, ws[1..]);
      var first, rest := Record(u, ws[0]), Records(u, ws[1..]);
      if n < |first| {
        k := 0;
        assert Records(u, ws)[..n] == first[..n];
        TornRecord(u, ws[0], n);
      } else {
        k := TornRecords(u, ws[1..], n - |first|);
        k := k + 1;
        assert Records(u, ws)[..n] == first + rest[..n - |first|];
        ReadsKey(u, ws[0].user);
        ParsesRecord(u, ws[0], rest[..n - |first|]);
        assert ws[..k] == [ws[0]] + ws[1..][..k - 1];
      }
    }
  }

  lemma {:induction false} NothingInFront(u: UserCodec, ws: seq<Write>)
    ensures FrontSize(u, ws, 0) == 0
  {
    assert ws[..0] == [];
  }

  /** A record of a type there is not is a fault: what is before it is handed over, and nothing behind it. */
  lemma {:induction false} UnknownTypeFails(u: UserCodec, ws: seq<Write>, t: Byte, rest: Bytes)
    requires GoodUserCodec(u) && (forall i :: 0 <= i < |ws| ==> Fitting(u, ws[i])) && t > 1
    ensures WriteBatches.Parse(u, Records(u, ws) + ([t] + rest)) == Parsed(ws, false)
    decreases |ws|
  {
    hide Record, Records, GoodUserCodec, Fitting;
    if ws == [] {
      NoRecords(u);
      assert Records(u, ws) + ([t] + rest) == [t] + rest;
    } else {
      hide WriteBatches.Parse;
      RecordsFirst(u, ws);
      var first, others := Record(u, ws[0]), Records(u, ws[1..]);
      assert first + others + ([t] + rest) == first + (others + ([t] + rest));
      ReadsKey(u, ws[0].user);
      ParsesRecord(u, ws[0], others + ([t] + rest));
      UnknownTypeFails(u, ws[1..], t, rest);
      assert [ws[0]] + ws[1..] == ws;
    }
  }
}
