/**
 db_iter.cc DBIter: a bidirectional iterator over the user-visible (key, value) pairs at one sequence number,
 built on an iterator over all internal entries. It refines a cursor over the list of live entries.
 */
module DbIter {
  import opened Entries

  // ----- the abstract list and its cursor

  /** Entry i yields its key: it is visible, a value, and no newer entry of the key is visible. */
  ghost predicate IsLive(es: seq<Entry>, snap: nat, i: nat)
    requires i < |es|
  {
    && es[i].ikey.seqno <= snap && es[i].ikey.kind.Put?
    && forall j :: 0 <= j < i && es[j].ikey.user == es[i].ikey.user ==> es[j].ikey.seqno > snap
  }

  /** The live entries among the first n, in key order. */
  ghost function LiveUpTo(es: seq<Entry>, snap: nat, n: nat): seq<Entry>
    requires n <= |es|
  {
    if n == 0 then []
    else LiveUpTo(es, snap, n - 1) + (if IsLive(es, snap, n - 1) then [es[n - 1]] else [])
  }

  ghost function LiveList(es: seq<Entry>, snap: nat): seq<Entry> {
    LiveUpTo(es, snap, |es|)
  }

  datatype Cursor = Invalid | At(i: nat)

  datatype Op = SeekToFirst | SeekToLast | Seek(target: UserKey) | Next | Prev

  /** How many leading keys of the list are below the target. */
  function KeysBelow(list: seq<Entry>, target: UserKey): (n: nat)
    ensures n <= |list|
    ensures forall i :: 0 <= i < n ==> list[i].ikey.user < target
    ensures n < |list| ==> list[n].ikey.user >= target
  {
    if list != [] && list[0].ikey.user < target then 1 + KeysBelow(list[1..], target) else 0
  }

  function Clip(list: seq<Entry>, i: int): Cursor {
    if 0 <= i < |list| then At(i) else Invalid
  }

  /** The reference: one cursor operation over a plain sorted list. Next and Prev need a valid cursor. */
  function CursorStep(list: seq<Entry>, c: Cursor, op: Op): Cursor
    requires (op.Next? || op.Prev?) ==> c.At?
  {
    match op
    case SeekToFirst => Clip(list, 0)
    case SeekToLast => Clip(list, |list| - 1)
    case Seek(target) => Clip(list, KeysBelow(list, target))
    case Next => Clip(list, c.i + 1)
    case Prev => Clip(list, c.i - 1)
  }

  // ----- facts about the list

  ghost predicate NoneLive(es: seq<Entry>, snap: nat, lo: int, hi: int) {
    forall i :: 0 <= i < |es| && lo <= i < hi ==> !IsLive(es, snap, i)
  }

  lemma {:induction false} SkipDead(es: seq<Entry>, snap: nat, lo: nat, hi: nat)
    requires lo <= hi <= |es| && NoneLive(es, snap, lo, hi)
    ensures LiveUpTo(es, snap, lo) == LiveUpTo(es, snap, hi)
    decreases hi
  {
    if lo < hi {
      SkipDead(es, snap, lo, hi - 1);
    }
  }

  lemma {:induction false} LivePrefix(es: seq<Entry>, snap: nat, m: nat, n: nat)
    requires m <= n <= |es|
    ensures LiveUpTo(es, snap, m) <= LiveUpTo(es, snap, n)
    decreases n
  {
    if m < n {
      LivePrefix(es, snap, m, n - 1);
    }
  }

  /** A live entry sits in the list at the number of live entries before it. */
  lemma {:induction false} LiveAt(es: seq<Entry>, snap: nat, i: nat)
    requires i < |es| && IsLive(es, snap, i)
    ensures |LiveUpTo(es, snap, i)| < |LiveList(es, snap)|
    ensures LiveList(es, snap)[|LiveUpTo(es, snap, i)|] == es[i]
    ensures |LiveUpTo(es, snap, i + 1)| == |LiveUpTo(es, snap, i)| + 1
  {
    LivePrefix(es, snap, i + 1, |es|);
    assert LiveUpTo(es, snap, i + 1)[|LiveUpTo(es, snap, i)|] == es[i];
  }

  lemma {:induction false} LiveMembers(es: seq<Entry>, snap: nat, n: nat)
    requires n <= |es|
    ensures forall e :: e in LiveUpTo(es, snap, n) <==> exists j :: 0 <= j < n && es[j] == e && IsLive(es, snap, j)
  {
    if n > 0 {
      LiveMembers(es, snap, n - 1);
    }
  }

  ghost predicate KeysAscend(l: seq<Entry>) {
    forall i, j :: 0 <= i < j < |l| ==> l[i].ikey.user < l[j].ikey.user
  }

  /** Keys of the list strictly ascend. */
  lemma {:induction false} LiveSorted(es: seq<Entry>, snap: nat, n: nat)
    requires SortedEntries(es) && n <= |es|
    ensures KeysAscend(LiveUpTo(es, snap, n))
  {
    if n > 0 {
      LiveSorted(es, snap, n - 1);
      LiveMembers(es, snap, n - 1);
      var l := LiveUpTo(es, snap, n - 1);
      if IsLive(es, snap, n - 1) {
        forall x | x in l ensures x.ikey.user < es[n - 1].ikey.user {
          var j :| 0 <= j < n - 1 && es[j] == x && IsLive(es, snap, j);
          assert Less(es[j].ikey, es[n - 1].ikey);
        }
        AppendAscends(l, es[n - 1]);
      } else {
        assert LiveUpTo(es, snap, n) == l;
      }
    }
  }

  lemma {:induction false} AppendAscends(l: seq<Entry>, e: Entry)
    requires KeysAscend(l) && forall x :: x in l ==> x.ikey.user < e.ikey.user
    ensures KeysAscend(l + [e])
  {
  }

  /** The list is exactly the set of keys that read as present, with the values they read as. */
  lemma {:induction false} LiveListIsReads(es: seq<Entry>, snap: nat, k: UserKey, v: Bytes)
    requires SortedEntries(es) && UniqueSeqnos(Elems(es))
    ensures Read(Elems(es), k, snap) == Some(v) <==>
              exists e :: e in LiveList(es, snap) && e.ikey.user == k && e.value == v
  {
    LiveMembers(es, snap, |es|);
    if Read(Elems(es), k, snap) == Some(v) {
      var e := Newest(Elems(es), k, snap).value;
      assert IsNewest(Elems(es), k, snap, e);
      var i :| 0 <= i < |es| && es[i] == e;
      forall j | 0 <= j < i && es[j].ikey.user == k ensures es[j].ikey.seqno > snap {
        assert Less(es[j].ikey, es[i].ikey) && es[j] in Elems(es);
      }
      assert IsLive(es, snap, i);
    }
    if i :| 0 <= i < |es| && IsLive(es, snap, i) && es[i].ikey.user == k && es[i].value == v {
      LiveIsNewest(es, snap, i);
      NewestIs(Elems(es), k, snap, es[i]);
    }
  }

  lemma {:induction false} LiveIsNewest(es: seq<Entry>, snap: nat, i: nat)
    requires SortedEntries(es) && i < |es| && IsLive(es, snap, i)
    ensures IsNewest(Elems(es), es[i].ikey.user, snap, es[i])
  {
    forall x | x in Elems(es) && Visible(x, es[i].ikey.user, snap) ensures x.ikey.seqno <= es[i].ikey.seqno {
      var j :| 0 <= j < |es| && es[j] == x;
      assert j > i ==> Less(es[i].ikey, es[j].ikey);
    }
  }

  lemma {:induction false} KeysBelowIs(list: seq<Entry>, n: nat, target: UserKey)
    requires n <= |list| && (forall i :: 0 <= i < n ==> list[i].ikey.user < target)
    requires n < |list| ==> list[n].ikey.user >= target
    ensures KeysBelow(list, target) == n
  {
    if n > 0 {
      KeysBelowIs(list[1..], n - 1, target);
    }
  }

  /** The list position of a target key, from any split of the entries at that key. */
  lemma {:induction false} SplitAtKey(es: seq<Entry>, snap: nat, lo: nat, target: UserKey)
    requires SortedEntries(es) && lo <= |es|
    requires forall i :: 0 <= i < lo && IsLive(es, snap, i) ==> es[i].ikey.user < target
    requires forall i :: lo <= i < |es| ==> es[i].ikey.user >= target
    ensures KeysBelow(LiveList(es, snap), target) == |LiveUpTo(es, snap, lo)|
  {
    var l, n := LiveList(es, snap), |LiveUpTo(es, snap, lo)|;
    LivePrefix(es, snap, lo, |es|);
    LiveMembers(es, snap, lo);
    forall i | 0 <= i < n ensures l[i].ikey.user < target {
      assert l[i] == LiveUpTo(es, snap, lo)[i];
      assert l[i] in LiveUpTo(es, snap, lo);
    }
    if n < |l| {
      LiveBeyond(es, snap, lo, |es|);
      var j :| lo <= j < |es| && es[j] == l[n];
    }
    KeysBelowIs(l, n, target);
  }

  lemma {:induction false} LiveBeyond(es: seq<Entry>, snap: nat, lo: nat, hi: nat)
    requires lo <= hi <= |es|
    ensures var n := |LiveUpTo(es, snap, lo)|;
            n <= |LiveUpTo(es, snap, hi)|
            && forall i :: n <= i < |LiveUpTo(es, snap, hi)| ==>
                      exists j :: lo <= j < hi && es[j] == LiveUpTo(es, snap, hi)[i]
    decreases hi
  {
    if lo < hi {
      LiveBeyond(es, snap, lo, hi - 1);
    }
  }

  // ----- scanning forward

  /** No entry of [lo, hi) with a key above the floor is live. */
  ghost predicate NoneAbove(es: seq<Entry>, snap: nat, lo: int, hi: int, floor: Option<UserKey>) {
    forall i :: 0 <= i < |es| && lo <= i < hi && IsLive(es, snap, i) ==> floor.Some? && es[i].ikey.user <= floor.value
  }

  /**
   What scanning forward from `start` has established on reaching `pos`: visible entries before `pos` belong to
   earlier or skipped keys, and the skip key is the original one or a key with a visible entry already passed.
   */
  ghost predicate ScanForward(es: seq<Entry>, snap: nat, start: int, pos: int, skip: Option<UserKey>,
          floor: Option<UserKey>) {
    && 0 <= start <= pos <= |es|
    && NoneAbove(es, snap, start, pos, floor)
    && (floor.Some? ==> skip.Some? && skip.value >= floor.value)
    && (floor.Some? ==> forall j :: start <= j < |es| && es[j].ikey.seqno <= snap ==> es[j].ikey.user >= floor.value)
    && (skip.Some? ==>
          || skip == floor
          || exists m :: start <= m < pos && es[m].ikey.seqno <= snap && es[m].ikey.user == skip.value)
    && (pos < |es| ==> forall j :: 0 <= j < pos && es[j].ikey.seqno <= snap ==>
          es[j].ikey.user < es[pos].ikey.user || (skip.Some? && es[j].ikey.user <= skip.value))
  }

  /** A visible value not hidden by the skip key is live. */
  lemma {:induction false} StopForward(es: seq<Entry>, snap: nat, start: int, pos: int, skip: Option<UserKey>,
          floor: Option<UserKey>)
    requires SortedEntries(es) && ScanForward(es, snap, start, pos, skip, floor) && pos < |es|
    requires es[pos].ikey.seqno <= snap && es[pos].ikey.kind.Put? && (skip.Some? ==> es[pos].ikey.user > skip.value)
    ensures IsLive(es, snap, pos) && (floor.Some? ==> es[pos].ikey.user > floor.value)
  {
  }

  /** An entry that is invisible, a deletion, or hidden is not live above the floor; pass it. */
  lemma {:induction false} StepForward(es: seq<Entry>, snap: nat, start: int, pos: int, skip: Option<UserKey>,
          skip2: Option<UserKey>, floor: Option<UserKey>)
    requires SortedEntries(es) && ScanForward(es, snap, start, pos, skip, floor) && pos < |es|
    requires es[pos].ikey.seqno > snap ==> skip2 == skip
    requires es[pos].ikey.seqno <= snap && es[pos].ikey.kind.Deletion? ==> skip2 == Some(es[pos].ikey.user)
    requires es[pos].ikey.seqno <= snap && es[pos].ikey.kind.Put? ==>
               skip2 == skip && skip.Some? && es[pos].ikey.user <= skip.value
    ensures ScanForward(es, snap, start, pos + 1, skip2, floor)
  {
    assert forall m :: 0 <= m < pos ==> Less(es[m].ikey, es[pos].ikey);
    if pos + 1 < |es| {
      assert Less(es[pos].ikey, es[pos + 1].ikey);
      forall j | 0 <= j < pos + 1 && es[j].ikey.seqno <= snap
        ensures es[j].ikey.user < es[pos + 1].ikey.user || (skip2.Some? && es[j].ikey.user <= skip2.value)
      {
        assert j < pos ==> Less(es[j].ikey, es[pos].ikey);
      }
    }
  }

  /** Where scanning forward may start after the entry at `at`: at it, or at invisible entries just before it. */
  lemma {:induction false} EntriesFrom(es: seq<Entry>, snap: nat, start: int, at: nat)
    requires SortedEntries(es) && 0 <= start <= at < |es| && IsLive(es, snap, at)
    requires forall j :: start <= j < at ==> es[j].ikey.seqno > snap
    ensures ScanForward(es, snap, start, start, Some(es[at].ikey.user), Some(es[at].ikey.user))
  {
    forall j | 0 <= j < start ensures es[j].ikey.user <= es[at].ikey.user {
      assert Less(es[j].ikey, es[at].ikey);
    }
    forall j | at < j < |es| ensures es[j].ikey.user >= es[at].ikey.user {
      assert Less(es[at].ikey, es[j].ikey);
    }
  }

  /** If no live entry with a larger key lies before `next`, the list holds nothing between the two. */
  lemma {:induction false} NextLive(es: seq<Entry>, snap: nat, start: int, at: nat, next: nat)
    requires SortedEntries(es) && 0 <= start <= at < |es| && IsLive(es, snap, at) && next <= |es|
    requires NoneAbove(es, snap, start, next, Some(es[at].ikey.user))
    requires next == |es| || es[next].ikey.user > es[at].ikey.user
    ensures |LiveUpTo(es, snap, next)| == |LiveUpTo(es, snap, at)| + 1
  {
    assert forall m :: 0 <= m < at ==> Less(es[m].ikey, es[at].ikey);
    forall i | at < i < next ensures !IsLive(es, snap, i) {
      assert Less(es[at].ikey, es[i].ikey);
    }
    SkipDead(es, snap, at + 1, next);
    LiveAt(es, snap, at);
  }

  /** If no live entry lies between `prev` (or the start, -1) and `at`, they are neighbours in the list. */
  lemma {:induction false} PrevLive(es: seq<Entry>, snap: nat, prev: int, at: nat)
    requires -1 <= prev < at < |es| && NoneLive(es, snap, prev + 1, at)
    requires prev >= 0 ==> IsLive(es, snap, prev)
    ensures prev >= 0 ==> |LiveUpTo(es, snap, prev)| + 1 == |LiveUpTo(es, snap, at)|
    ensures prev < 0 ==> |LiveUpTo(es, snap, at)| == 0
  {
    SkipDead(es, snap, prev + 1, at);
    if prev >= 0 {
      LiveAt(es, snap, prev);
    }
  }

  /** The seek key (target, sequence, kTypeValue) splits the entries so that the list splits at the target. */
  lemma {:induction false} SeekSplit(es: seq<Entry>, snap: nat, start: nat, target: UserKey)
    requires SortedEntries(es) && start <= |es|
    requires forall i :: 0 <= i < start ==> Less(es[i].ikey, InternalKey(target, snap, Put))
    requires start < |es| ==> !Less(es[start].ikey, InternalKey(target, snap, Put))
    ensures KeysBelow(LiveList(es, snap), target) == |LiveUpTo(es, snap, start)|
    ensures start < |es| ==> ScanForward(es, snap, start, start, None, None)
  {
    forall i | start <= i < |es| ensures es[i].ikey.user >= target {
      assert i > start ==> Less(es[start].ikey, es[i].ikey);
    }
    SplitAtKey(es, snap, start, target);
  }

  // ----- scanning backward

  /**
   What scanning backward from `start` has established before looking at `pos`: `seen` is the last visible entry
   met (start + 1 if none), nothing after it is live, and if it is a deletion it is not live either.
   */
  ghost predicate ScanBackward(es: seq<Entry>, snap: nat, pos: int, start: int, valueType: ValueType, seen: int) {
    && -1 <= pos <= start < |es|
    && pos < seen <= start + 1
    && NoneLive(es, snap, seen + 1, start + 1)
    && (forall j :: 0 <= j < |es| && pos < j < seen ==> es[j].ikey.seqno > snap)
    && (valueType.Deletion? ==> NoneLive(es, snap, seen, start + 1))
    && (valueType.Put? ==> seen <= start && es[seen].ikey.seqno <= snap && es[seen].ikey.kind.Put?)
  }

  /** At a visible entry of a smaller key, or past the first entry, the value last seen is live. */
  lemma {:induction false} StopBackward(es: seq<Entry>, snap: nat, pos: int, start: int, seen: int)
    requires SortedEntries(es) && ScanBackward(es, snap, pos, start, Put, seen)
    requires pos >= 0 ==> es[pos].ikey.user < es[seen].ikey.user
    ensures IsLive(es, snap, seen)
  {
    if pos >= 0 {
      assert forall j :: 0 <= j < pos ==> Less(es[j].ikey, es[pos].ikey);
    }
  }

  /** A visible entry that does not stop the scan belongs to the key last seen, or that key ended in a deletion. */
  lemma {:induction false} StepBackward(es: seq<Entry>, snap: nat, pos: int, start: int, valueType: ValueType,
      seen: int)
    requires SortedEntries(es) && ScanBackward(es, snap, pos, start, valueType, seen)
    requires pos >= 0 && es[pos].ikey.seqno <= snap
    requires valueType.Put? ==> es[pos].ikey.user >= es[seen].ikey.user
    ensures NoneLive(es, snap, pos + 1, start + 1)
    ensures es[pos].ikey.kind.Deletion? ==> NoneLive(es, snap, pos, start + 1)
  {
    if valueType.Put? {
      assert Less(es[pos].ikey, es[seen].ikey);
      assert !IsLive(es, snap, seen);
    }
  }

  // ----- the iterator over internal entries

  /** The merged iterator over memtables and tables: a position in the sorted entries; off either end is invalid. */
  class InternalIterator {
    const entries: seq<Entry>
    var pos: int

    constructor (entries: seq<Entry>)
      ensures this.entries == entries && pos == |entries|
    {
      this.entries := entries;
      pos := |entries|;
    }

    predicate Valid()
      reads this
    {
      0 <= pos < |entries|
    }

    function Current(): Entry
      requires Valid()
      reads this
    {
      entries[pos]
    }

    method SeekToFirst()
      modifies this
      ensures pos == 0
    {
      pos := 0;
    }

    method SeekToLast()
      modifies this
      ensures pos == |entries| - 1
    {
      pos := |entries| - 1;
    }

    /** The first entry at or after the target. */
    method Seek(target: InternalKey)
      modifies this
      ensures 0 <= pos <= |entries|
      ensures forall i :: 0 <= i < pos ==> Less(entries[i].ikey, target)
      ensures pos < |entries| ==> !Less(entries[pos].ikey, target)
    {
      pos := 0;
      while pos < |entries| && Less(entries[pos].ikey, target)
        invariant 0 <= pos <= |entries|
        invariant forall i :: 0 <= i < pos ==> Less(entries[i].ikey, target)
      {
        pos := pos + 1;
      }
    }

    method Next()
      requires Valid()
      modifies this
      ensures pos == old(pos) + 1
    {
      pos := pos + 1;
    }

    method Prev()
      requires Valid()
      modifies this
      ensures pos == old(pos) - 1
    {
      pos := pos - 1;
    }
  }

  // ----- DBIter

  class DBIter {
    const iter: InternalIterator
    const sequence: nat
    // None is the cleared string; the code never compares against it
    var savedKey: Option<UserKey>
    var savedValue: Bytes
    var forward: bool
    var valid: bool
    ghost var at: nat  // the index of the entry being yielded, while valid

    constructor (iter: InternalIterator, sequence: nat)
      requires SortedEntries(iter.entries)
      ensures Inv() && Position() == Invalid && this.iter == iter && this.sequence == sequence
    {
      this.iter, this.sequence := iter, sequence;
      savedKey, savedValue, forward, valid, at := None, [], true, false, 0;
    }

    ghost predicate Inv()
      reads this, iter
    {
      && SortedEntries(iter.entries)
      && (valid ==>
            && at < |iter.entries| && IsLive(iter.entries, sequence, at)
            && (forward ==> iter.pos == at)
            && (!forward ==> Behind(iter.pos, at)
                             && savedKey == Some(iter.entries[at].ikey.user) && savedValue == iter.entries[at].value))
    }

    /** Moving backwards, the inner iterator stands before all entries of the key; only invisible ones lie between. */
    ghost predicate Behind(pos: int, at: nat)
      requires at < |iter.entries|
      reads iter
    {
      && -1 <= pos < at
      && (pos >= 0 ==> iter.entries[pos].ikey.user < iter.entries[at].ikey.user)
      && forall j :: 0 <= j < |iter.entries| && pos < j < at ==> iter.entries[j].ikey.seqno > sequence
    }

    ghost function Live(): seq<Entry>
      reads this
    {
      LiveList(iter.entries, sequence)
    }

    /** The abstract cursor this iterator stands for. */
    ghost function Position(): Cursor
      requires Inv()
      reads this, iter
    {
      if valid then At(|LiveUpTo(iter.entries, sequence, at)|) else Invalid
    }

    function Key(): UserKey
      requires Inv() && valid
      reads this, iter
      ensures Position().i < |Live()| && Key() == Live()[Position().i].ikey.user
    {
      LiveAt(iter.entries, sequence, at);
      if forward then iter.Current().ikey.user else savedKey.value
    }

    function Value(): Bytes
      requires Inv() && valid
      reads this, iter
      ensures Position().i < |Live()| && Value() == Live()[Position().i].value
    {
      LiveAt(iter.entries, sequence, at);
      if forward then iter.Current().value else savedValue
    }

    /**
     db_iter.cc FindNextUserEntry(skipping, skip): stop at the first live entry from the inner position on whose
     key is above the skip key (None: not skipping).
     */
    method FindNextUserEntry(skip: Option<UserKey>)
      requires SortedEntries(iter.entries) && iter.Valid() && forward
      requires ScanForward(iter.entries, sequence, iter.pos, iter.pos, skip, skip)
      modifies this, iter
      ensures Inv() && forward
      ensures valid ==> old(iter.pos) <= at && NoneAbove(iter.entries, sequence, old(iter.pos), at, skip)
      ensures valid && skip.Some? ==> iter.entries[at].ikey.user > skip.value
      ensures !valid ==> NoneAbove(iter.entries, sequence, old(iter.pos), |iter.entries|, skip)
    {
      var s := skip;
      ghost var start := iter.pos;
      while true
        invariant iter.Valid() && forward
        invariant ScanForward(iter.entries, sequence, start, iter.pos, s, skip)
        decreases |iter.entries| - iter.pos
      {
        var e := iter.Current();
        ghost var s0 := s;
        if e.ikey.seqno <= sequence {
          if e.ikey.kind.Deletion? {
            s := Some(e.ikey.user);
          } else if s.Some? && e.ikey.user <= s.value {
            // hidden
          } else {
            StopForward(iter.entries, sequence, start, iter.pos, s, skip);
            valid, savedKey, at := true, None, iter.pos;
            return;
          }
        }
        StepForward(iter.entries, sequence, start, iter.pos, s0, s, skip);
        iter.Next();
        if !iter.Valid() {
          break;
        }
      }
      savedKey, valid := None, false;
    }

    /** db_iter.cc FindPrevUserEntry: the last live entry at or before the inner position. */
    method FindPrevUserEntry()
      requires SortedEntries(iter.entries) && -1 <= iter.pos < |iter.entries| && !forward
      modifies this, iter
      ensures Inv()
      ensures valid ==> !forward && at <= old(iter.pos) && NoneLive(iter.entries, sequence, at + 1, old(iter.pos) + 1)
      ensures !valid ==> forward && NoneLive(iter.entries, sequence, 0, old(iter.pos) + 1)
    {
      hide LiveUpTo;
      var valueType := Deletion;
      ghost var start, seen := iter.pos, iter.pos + 1;
      if iter.Valid() {
        while true
          invariant iter.Valid() && !forward
          invariant ScanBackward(iter.entries, sequence, iter.pos, start, valueType, seen)
          invariant valueType.Put? ==>
            savedKey == Some(iter.entries[seen].ikey.user) && savedValue == iter.entries[seen].value
          decreases iter.pos
        {
          var e := iter.Current();
          if e.ikey.seqno <= sequence {
            if valueType.Put? && e.ikey.user < savedKey.value {
              StopBackward(iter.entries, sequence, iter.pos, start, seen);
              break;
            }
            StepBackward(iter.entries, sequence, iter.pos, start, valueType, seen);
            valueType := e.ikey.kind;
            seen := iter.pos;
            if valueType.Deletion? {
              savedKey, savedValue := None, [];
            } else {
              savedKey, savedValue := Some(e.ikey.user), e.value;
            }
          }
          iter.Prev();
          if !iter.Valid() {
            if valueType.Put? {
              StopBackward(iter.entries, sequence, -1, start, seen);
            }
            break;
          }
        }
      }
      if valueType.Deletion? {
        valid, savedKey, savedValue, forward := false, None, [], true;
      } else {
        valid, at := true, seen;
      }
    }

    /** db_iter.cc DBIter::Next. */
    method Next()
      requires Inv() && valid
      modifies this, iter
      ensures Inv() && Position() == CursorStep(Live(), old(Position()), Op.Next)
    {
      ghost var at0 := at;
      LiveAt(iter.entries, sequence, at0);
      if !forward {
        forward := true;
        if !iter.Valid() {
          iter.SeekToFirst();
        } else {
          iter.Next();
        }
        if !iter.Valid() {
          // the entries of the current key lie ahead
          assert false;
        }
      } else {
        savedKey := Some(iter.Current().ikey.user);
      }
      EntriesFrom(iter.entries, sequence, iter.pos, at0);
      ghost var start := iter.pos;
      FindNextUserEntry(savedKey);
      NextLive(iter.entries, sequence, start, at0, if valid then at else |iter.entries|);
      if valid {
        LiveAt(iter.entries, sequence, at);
      }
    }

    /** db_iter.cc DBIter::Prev. */
    method Prev()
      requires Inv() && valid
      modifies this, iter
      ensures Inv() && Position() == CursorStep(Live(), old(Position()), Op.Prev)
    {
      ghost var at0 := at;
      LiveAt(iter.entries, sequence, at0);
      if forward {
        savedKey := Some(iter.Current().ikey.user);
        while true
          invariant iter.Valid() && iter.pos <= at0 == at && valid && forward
          invariant savedKey == Some(iter.entries[at0].ikey.user)
          invariant NoneLive(iter.entries, sequence, iter.pos, at0)
          invariant iter.entries[iter.pos].ikey.user == savedKey.value
          decreases iter.pos
        {
          iter.Prev();
          if !iter.Valid() {
            PrevLive(iter.entries, sequence, -1, at0);
            valid, savedKey, savedValue := false, None, [];
            return;
          }
          assert Less(iter.Current().ikey, iter.entries[at0].ikey);
          if iter.Current().ikey.user < savedKey.value {
            break;
          }
          assert iter.entries[iter.pos].ikey.user == iter.entries[at0].ikey.user;
        }
        forward := false;
      }
      FindPrevUserEntry();
      PrevLive(iter.entries, sequence, if valid then at else -1, at0);
      if valid {
        LiveAt(iter.entries, sequence, at);
      }
    }

    /** db_iter.cc DBIter::Seek. */
    method Seek(target: UserKey)
      requires Inv()
      modifies this, iter
      ensures Inv() && Position() == CursorStep(Live(), Invalid, Op.Seek(target))
    {
      forward, savedValue, savedKey := true, [], None;
      iter.Seek(InternalKey(target, sequence, Put));
      ghost var start := iter.pos;
      SeekSplit(iter.entries, sequence, start, target);
      if iter.Valid() {
        FindNextUserEntry(None);
        SkipDead(iter.entries, sequence, start, if valid then at else |iter.entries|);
        if valid {
          LiveAt(iter.entries, sequence, at);
        }
      } else {
        valid := false;
      }
    }

    /** db_iter.cc DBIter::SeekToFirst. */
    method SeekToFirst()
      requires Inv()
      modifies this, iter
      ensures Inv() && Position() == CursorStep(Live(), Invalid, Op.SeekToFirst)
    {
      forward, savedValue := true, [];
      iter.SeekToFirst();
      if iter.Valid() {
        FindNextUserEntry(None);
        SkipDead(iter.entries, sequence, 0, if valid then at else |iter.entries|);
        if valid {
          LiveAt(iter.entries, sequence, at);
        }
      } else {
        valid := false;
      }
    }

    /** db_iter.cc DBIter::SeekToLast. */
    method SeekToLast()
      requires Inv()
      modifies this, iter
      ensures Inv() && Position() == CursorStep(Live(), Invalid, Op.SeekToLast)
    {
      forward, savedValue := false, [];
      iter.SeekToLast();
      FindPrevUserEntry();
      if valid {
        LiveAt(iter.entries, sequence, at);
        SkipDead(iter.entries, sequence, at + 1, |iter.entries|);
      } else {
        SkipDead(iter.entries, sequence, 0, |iter.entries|);
      }
    }

    /** Any operation, against the reference cursor. */
    method Apply(op: Op)
      requires Inv() && ((op.Next? || op.Prev?) ==> valid)
      modifies this, iter
      ensures Inv() && Position() == CursorStep(Live(), old(Position()), op)
    {
      match op
      case SeekToFirst => SeekToFirst();
      case SeekToLast => SeekToLast();
      case Seek(target) => Seek(target);
      case Next => Next();
      case Prev => Prev();
    }
  }

  /** The reference cursor after a sequence of operations, each legal when it is made. */
  function CursorRun(list: seq<Entry>, ops: seq<Op>): Option<Cursor> {
    if ops == [] then Some(Invalid)
    else
      var before := CursorRun(list, ops[..|ops| - 1]);
      var op := ops[|ops| - 1];
      if before.None? || ((op.Next? || op.Prev?) && before.value.Invalid?) then None
      else Some(CursorStep(list, before.value, op))
  }

  /** Any legal call sequence on a new iterator ends where the reference cursor over the live list ends. */
  method RunOps(es: seq<Entry>, sequence: nat, ops: seq<Op>) returns (it: DBIter)
    requires SortedEntries(es) && CursorRun(LiveList(es, sequence), ops).Some?
    ensures it.Inv() && it.Live() == LiveList(es, sequence)
    ensures it.Position() == CursorRun(LiveList(es, sequence), ops).value
    ensures it.valid ==> it.Position().i < |it.Live()|
    ensures it.valid ==>
              it.Key() == it.Live()[it.Position().i].ikey.user && it.Value() == it.Live()[it.Position().i].value
  {
    var inner := new InternalIterator(es);
    it := new DBIter(inner, sequence);
    PrefixesLegal(LiveList(es, sequence), ops, 0);
    for i := 0 to |ops|
      invariant fresh(it) && fresh(it.iter) && it.iter.entries == es && it.sequence == sequence && it.Inv()
      invariant CursorRun(LiveList(es, sequence), ops[..i]) == Some(it.Position())
    {
      PrefixesLegal(LiveList(es, sequence), ops, i + 1);
      assert ops[..i + 1][..i] == ops[..i];
      it.Apply(ops[i]);
    }
    assert ops[..|ops|] == ops;
    if it.valid {
      var _, _ := it.Key(), it.Value();
    }
  }

  lemma {:induction false} PrefixesLegal(list: seq<Entry>, ops: seq<Op>, i: nat)
    requires i <= |ops| && CursorRun(list, ops).Some?
    ensures CursorRun(list, ops[..i]).Some?
    decreases |ops|
  {
    if i < |ops| {
      PrefixesLegal(list, ops[..|ops| - 1], i);
      assert ops[..|ops| - 1][..i] == ops[..i];
    } else {
      assert ops[..i] == ops;
    }
  }
}
