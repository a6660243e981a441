/**
 Entries of the store and the meaning of a read.

 A LevelDB database is a collection of entries (user key, sequence number, type) => value.
 A read of key k at sequence number s returns the newest entry of k whose sequence number
 is at most s; a deletion marker reads as "absent".

 User keys are modelled by `int`: the code only ever compares user keys through the
 user-supplied comparator, and any finite set of keys under a total order embeds in `int`.
 */
module Entries {

  type Byte = b: int | 0 <= b < 256
  type Bytes = seq<Byte>
  type UserKey = int

  datatype Option<+T> = None | Some(value: T)

  /** kTypeDeletion == 0, kTypeValue == 1 */
  datatype ValueType = Deletion | Put {
    function Code(): nat { if Put? then 1 else 0 }
  }

  const MAX_SEQUENCE: nat := 0xFF_FFFF_FFFF_FFFF

  datatype InternalKey = InternalKey(user: UserKey, seqno: nat, kind: ValueType) {
    /** PackSequenceAndType: the 64-bit tag that ends an encoded internal key. */
    function Tag(): nat { seqno * 256 + kind.Code() }
  }

  /** InternalKeyComparator::Compare(a, b) < 0: user key ascending, then tag descending. */
  predicate Less(a: InternalKey, b: InternalKey) {
    a.user < b.user || (a.user == b.user && a.Tag() > b.Tag())
  }

  predicate AtMost(a: InternalKey, b: InternalKey) {
    a == b || Less(a, b)
  }

  datatype Entry = Entry(ikey: InternalKey, value: Bytes)

  predicate SortedEntries(es: seq<Entry>) {
    forall i, j :: 0 <= i < j < |es| ==> Less(es[i].ikey, es[j].ikey)
  }

  function Elems<T(==)>(s: seq<T>): set<T> {
    set x | x in s
  }

  // ----- the naive read over a set of entries

  ghost predicate Visible(e: Entry, k: UserKey, snap: nat) {
    e.ikey.user == k && e.ikey.seqno <= snap
  }

  ghost predicate IsNewest(s: set<Entry>, k: UserKey, snap: nat, e: Entry) {
    e in s && Visible(e, k, snap) &&
    forall x :: x in s && Visible(x, k, snap) ==> x.ikey.seqno <= e.ikey.seqno
  }

  /** No two different entries of one user key carry the same sequence number. */
  ghost predicate UniqueSeqnos(s: set<Entry>) {
    forall a, b :: a in s && b in s && a.ikey.user == b.ikey.user && a.ikey.seqno == b.ikey.seqno ==> a == b
  }

  ghost function Newest(s: set<Entry>, k: UserKey, snap: nat): Option<Entry> {
    if exists e :: IsNewest(s, k, snap, e) then
      var e :| IsNewest(s, k, snap, e); Some(e)
    else None
  }

  /** What an entry found for a key reads as. */
  function Outcome(e: Option<Entry>): Option<Bytes> {
    if e.Some? && e.value.ikey.kind.Put? then Some(e.value.value) else None
  }

  /** The specification of every read: newest entry of k at or below snap, over all entries. */
  ghost function Read(s: set<Entry>, k: UserKey, snap: nat): Option<Bytes> {
    Outcome(Newest(s, k, snap))
  }

  lemma {:induction false} NewestIs(s: set<Entry>, k: UserKey, snap: nat, e: Entry)
    requires UniqueSeqnos(s) && IsNewest(s, k, snap, e)
    ensures Newest(s, k, snap) == Some(e)
  {
    var n := Newest(s, k, snap);
    assert IsNewest(s, k, snap, n.value);
  }

  /** A newest entry exists as soon as one entry is visible. */
  lemma {:induction false} NewestExists(s: set<Entry>, k: UserKey, snap: nat)
    ensures Newest(s, k, snap).Some? <==> exists e :: e in s && Visible(e, k, snap)
  {
    if e :| e in s && Visible(e, k, snap) {
      var best := MaxSeqno(s, k, snap, e);
      assert IsNewest(s, k, snap, best);
    }
  }

  lemma {:induction false} MaxSeqno(s: set<Entry>, k: UserKey, snap: nat, e: Entry) returns (best: Entry)
    requires e in s && Visible(e, k, snap)
    ensures IsNewest(s, k, snap, best)
    decreases snap - e.ikey.seqno
  {
    if x :| x in s && Visible(x, k, snap) && x.ikey.seqno > e.ikey.seqno {
      best := MaxSeqno(s, k, snap, x);
    } else {
      best := e;
    }
  }

  /** Reads agree when the newest visible entries agree. */
  lemma {:induction false} SameNewestSameRead(s: set<Entry>, t: set<Entry>, k: UserKey, snap: nat)
    requires UniqueSeqnos(s) && UniqueSeqnos(t)
    requires forall e :: IsNewest(s, k, snap, e) ==> IsNewest(t, k, snap, e)
    requires forall e :: IsNewest(t, k, snap, e) ==> IsNewest(s, k, snap, e)
    ensures Newest(s, k, snap) == Newest(t, k, snap)
    ensures Read(s, k, snap) == Read(t, k, snap)
  {
    if e :| IsNewest(s, k, snap, e) {
      NewestIs(s, k, snap, e);
      NewestIs(t, k, snap, e);
    }
  }
}
