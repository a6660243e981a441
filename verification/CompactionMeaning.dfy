/**
 A compaction changes no read at or above the smallest live snapshot.
 */
module CompactionMeaning {
  import opened Entries
  import opened Files
  import opened Versions
  import opened Compactions

  /** A newer entry of the same key, itself at or below the smallest snapshot, hides x from every live reader. */
  ghost predicate Shadowed(es: seq<Entry>, x: Entry, smallestSnapshot: nat) {
    exists e :: e in es && e.ikey.user == x.ikey.user && x.ikey.seqno < e.ikey.seqno <= smallestSnapshot
  }

  ghost predicate Obsolete(x: Entry, smallestSnapshot: nat, v: Levels, level: nat) {
    x.ikey.kind.Deletion? && x.ikey.seqno <= smallestSnapshot && BaseLevelFor(v, level, x.ikey.user)
  }

  /** The one-entry lookback of the loop decides exactly "shadowed or obsolete". */
  lemma {:induction false} DroppedMeans(es: seq<Entry>, i: nat, smallestSnapshot: nat, v: Levels, level: nat)
    requires SortedEntries(es) && UniqueSeqnos(Elems(es)) && i < |es|
    ensures Dropped(es, i, smallestSnapshot, v, level) <==>
              Shadowed(es, es[i], smallestSnapshot) || Obsolete(es[i], smallestSnapshot, v, level)
  {
    if i > 0 && es[i - 1].ikey.user == es[i].ikey.user {
      assert Less(es[i - 1].ikey, es[i].ikey);
      assert es[i - 1] in Elems(es) && es[i] in Elems(es);
    }
    if e :| e in es && e.ikey.user == es[i].ikey.user && es[i].ikey.seqno < e.ikey.seqno <= smallestSnapshot {
      var j :| 0 <= j < |es| && es[j] == e;
      assert j < i;
      assert j < i - 1 ==> Less(es[j].ikey, es[i - 1].ikey);
      assert Less(es[i - 1].ikey, es[i].ikey);
    }
  }

  lemma {:induction false} KeptMembers(es: seq<Entry>, n: nat, smallestSnapshot: nat, v: Levels, level: nat)
    requires n <= |es|
    ensures forall x :: x in Kept(es, n, smallestSnapshot, v, level) <==>
              exists i :: 0 <= i < n && es[i] == x && !Dropped(es, i, smallestSnapshot, v, level)
  {
    if n > 0 {
      KeptMembers(es, n - 1, smallestSnapshot, v, level);
    }
  }

  /** The surviving entries, declaratively. */
  lemma {:induction false} Survivors(es: seq<Entry>, smallestSnapshot: nat, v: Levels, level: nat, x: Entry)
    requires SortedEntries(es) && UniqueSeqnos(Elems(es))
    ensures x in Kept(es, |es|, smallestSnapshot, v, level) <==>
              x in es && !Shadowed(es, x, smallestSnapshot) && !Obsolete(x, smallestSnapshot, v, level)
  {
    KeptMembers(es, |es|, smallestSnapshot, v, level);
    forall i | 0 <= i < |es| && es[i] == x
      ensures Dropped(es, i, smallestSnapshot, v, level) <==>
                Shadowed(es, x, smallestSnapshot) || Obsolete(x, smallestSnapshot, v, level)
    {
      DroppedMeans(es, i, smallestSnapshot, v, level);
    }
  }

  /** Dropping a deletion hides nothing outside the inputs: where the key is at base level, everything else is newer. */
  ghost predicate RestIsNewer(es: seq<Entry>, rest: set<Entry>, k: UserKey) {
    forall r, x :: r in rest && x in es && r.ikey.user == k && x.ikey.user == k ==> r.ikey.seqno > x.ikey.seqno
  }

  /** Compaction preserves meaning: every read at a live snapshot is unchanged. */
  lemma {:induction false} CompactionKeepsReads(es: seq<Entry>, rest: set<Entry>, smallestSnapshot: nat, v: Levels,
          level: nat, k: UserKey, snap: nat)
    requires SortedEntries(es) && UniqueSeqnos(Elems(es) + rest) && snap >= smallestSnapshot
    requires BaseLevelFor(v, level, k) ==> RestIsNewer(es, rest, k)
    ensures Read(Elems(es) + rest, k, snap) == Read(Elems(Kept(es, |es|, smallestSnapshot, v, level)) + rest, k, snap)
  {
    var before := Elems(es) + rest;
    var kept := Kept(es, |es|, smallestSnapshot, v, level);
    var after := Elems(kept) + rest;
    forall x
      ensures x in kept <==> x in es && !Shadowed(es, x, smallestSnapshot) && !Obsolete(x, smallestSnapshot, v, level)
    {
      Survivors(es, smallestSnapshot, v, level, x);
    }
    NewestExists(before, k, snap);
    NewestExists(after, k, snap);
    if e :| IsNewest(before, k, snap, e) {
      NewestIs(before, k, snap, e);
      if e in after {
        NewestIs(after, k, snap, e);
      } else {
        assert !Shadowed(es, e, smallestSnapshot);
        forall x | x in after ensures !Visible(x, k, snap) {
          assert x.ikey.user == k && x.ikey.seqno < e.ikey.seqno ==> Shadowed(es, x, smallestSnapshot);
        }
      }
    }
  }

  lemma {:induction false} KeptSorted(es: seq<Entry>, n: nat, smallestSnapshot: nat, v: Levels, level: nat)
    requires n <= |es| && SortedEntries(es)
    ensures SortedEntries(Kept(es, n, smallestSnapshot, v, level))
    ensures forall x :: x in Kept(es, n, smallestSnapshot, v, level) ==> x in es[..n]
  {
    if n > 0 {
      KeptSorted(es, n - 1, smallestSnapshot, v, level);
      assert es[..n] == es[..n - 1] + [es[n - 1]];
      var before := Kept(es, n - 1, smallestSnapshot, v, level);
      forall i | 0 <= i < |before| ensures Less(before[i].ikey, es[n - 1].ikey) {
        assert before[i] in es[..n - 1];
      }
    }
  }
}
