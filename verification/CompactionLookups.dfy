/**
 Lookups in the version a compaction installs: right for every key and snapshot exactly when nothing older than a
 surviving input stays behind at its level. PickCompaction does not see to that above level 0.
 */
module CompactionLookups {
  import opened Entries
  import opened Files
  import opened Versions
  import opened Compactions
  import opened CompactionMeaning
  import opened Picking
  import opened Transitions
  import opened PickedInputs

  /** For every key and snapshot, what Version::Get finds is the newest visible entry of the version. */
  ghost predicate LookupsRight(v: Levels) {
    forall k, snap, e :: ShallowestNewest(v, k, snap, e) ==> IsNewest(AllEntries(v), k, snap, e)
  }

  lemma {:induction false} OrderMakesRight(v: Levels)
    requires DeeperIsOlder(v)
    ensures LookupsRight(v)
  {
    hide DeeperIsOlder;
    hide IsNewest;
    hide NothingVisible;
    forall k, snap, e | ShallowestNewest(v, k, snap, e) ensures IsNewest(AllEntries(v), k, snap, e) {
      var lv :|
      0 <= lv < |v| && IsNewest(EntriesOf(v[lv]), k, snap, e)
      && forall l :: 0 <= l < lv ==> NothingVisible(v[l], k, snap);
      ShallowestHit(v, lv, k, snap, e);
    }
  }

  /** A visible entry at some level means a search ends at that level or before. */
  lemma {:induction false} SearchEnds(v: Levels, level: nat, k: UserKey, snap: nat, x: Entry) returns (lv: nat,
      e: Entry)
    requires level < |v| && x in EntriesOf(v[level]) && Visible(x, k, snap)
    ensures lv <= level && IsNewest(EntriesOf(v[lv]), k, snap, e) && ShallowestNewest(v, k, snap, e)
    decreases level
  {
    if l, f, y :| 0 <= l < level && f in v[l] && y in f.entries && Visible(y, k, snap) {
      lv, e := SearchEnds(v, l, k, snap, y);
    } else {
      lv := level;
      e := MaxSeqno(EntriesOf(v[level]), k, snap, x);
    }
  }

  /** No file outside the inputs holds an input's entry at level L. */
  lemma {:induction false} InputNotInRest(v: Levels, level: nat, in0: seq<File>, in1: seq<File>, y: Entry)
    requires Ok(v) && level + 1 < |v| && Elems(in0) <= Elems(v[level]) && Elems(in1) <= Elems(v[level + 1])
    requires y in InputEntries(in0, in1)
    ensures y !in RestOf(v[level], in0)
  {
    EntriesOfSubset(in1, v[level + 1]);
    LevelsDisjoint(v, level, level + 1);
    forall g | g in v[level] && g !in in0 ensures y !in g.entries {
      if y in EntriesOf(in0) {
        var f :| f in in0 && y in f.entries;
        assert f in Elems(in0);
        NotInTwoFiles(v, level, f, g, y);
      } else {
        assert Elems(g.entries) <= EntriesOf(v[level]) && y in EntriesOf(v[level + 1]);
        assert y !in Elems(g.entries);
      }
    }
  }

  lemma {:induction false} LevelsDisjoint(v: Levels, i: nat, j: nat)
    requires DeeperIsOlder(v) && i < j < |v|
    ensures EntriesOf(v[i]) !! EntriesOf(v[j])
  {
    NewerThanDisjoint(EntriesOf(v[i]), EntriesOf(v[j]));
  }

  lemma {:induction false} NotInTwoFiles(v: Levels, level: nat, f: File, g: File, y: Entry)
    requires LevelsOk(v) && level < |v| && f in v[level] && g in v[level] && f != g && y in f.entries
    ensures y !in g.entries
  {
    if level == 0 {
      DistinctFiles(v[0], f, g);
      assert y in Elems(f.entries);
      if f.number > g.number {
        NewerThanDisjoint(Elems(f.entries), Elems(g.entries));
      } else {
        NewerThanDisjoint(Elems(g.entries), Elems(f.entries));
      }
      assert y !in Elems(g.entries);
    } else {
      DisjointAreApart(v[level], f, g);
      FileBounds(f, y);
      if y in g.entries {
        FileBounds(g, y);
      }
    }
  }

  lemma {:induction false} InstalledLevel(v: Levels, v2: Levels, level: nat, in0: seq<File>, in1: seq<File>,
          outs: seq<File>)
    requires Install(v, v2, level, in0, in1, outs)
    ensures level + 1 < |v| == |v2| && Elems(in0) <= Elems(v[level]) && Elems(in1) <= Elems(v[level + 1])
    ensures EntriesOf(v2[level]) == RestOf(v[level], in0) && EntriesOf(outs) <= EntriesOf(v2[level + 1])
    ensures EntriesOf(outs) <= InputEntries(in0, in1) && EntriesOf(outs) <= AllEntries(v2)
    ensures forall lv :: 0 <= lv < level ==> v2[lv] == v[lv]
  {
    InstallLevelSets(v, v2, level, in0, in1, outs);
    assert LevelSets(v2)[level] == RestOf(v[level], in0);
    assert LevelSets(v2)[level + 1] == RestOf(v[level + 1], in1) + EntriesOf(outs);
  }

  /** An output's entry is at no level a search visits before the output level. */
  lemma {:induction false} OutputNotAbove(v: Levels, v2: Levels, level: nat, in0: seq<File>, in1: seq<File>, lv: nat,
      y: Entry)
    requires Ok(v) && level + 1 < |v| && Elems(in0) <= Elems(v[level]) && Elems(in1) <= Elems(v[level + 1])
    requires |v2| == |v|
    requires EntriesOf(v2[level]) == RestOf(v[level], in0) && forall l :: 0 <= l < level ==> v2[l] == v[l]
    requires y in InputEntries(in0, in1) && lv <= level
    ensures y !in EntriesOf(v2[lv])
  {
    if lv == level {
      InputNotInRest(v, level, in0, in1, y);
    } else {
      EntriesOfSubset(in0, v[level]);
      EntriesOfSubset(in1, v[level + 1]);
      assert NewerThan(EntriesOf(v[lv]), EntriesOf(v[level])) && NewerThan(EntriesOf(v[lv]), EntriesOf(v[level + 1]));
    }
  }

  lemma {:induction false} UniqueIn(v: Levels, v2: Levels, e: Entry, y: Entry)
    requires UniqueSeqnos(AllEntries(v)) && AllEntries(v2) <= AllEntries(v) && e in AllEntries(v2)
    requires y in AllEntries(v2)
    requires e.ikey.user == y.ikey.user && e.ikey.seqno == y.ikey.seqno
    ensures e == y
  {
  }

  /** If lookups are right, what stays at level L is newer than what moved down. */
  lemma {:induction false} RightMakesOrder(v: Levels, v2: Levels, level: nat, in0: seq<File>, in1: seq<File>,
          outs: seq<File>, x: Entry, y: Entry)
    requires Ok(v) && Install(v, v2, level, in0, in1, outs) && LookupsRight(v2)
    requires x in RestOf(v[level], in0) && y in EntriesOf(outs) && x.ikey.user == y.ikey.user
    ensures x.ikey.seqno > y.ikey.seqno
  {
    InstalledLevel(v, v2, level, in0, in1, outs);
    InstallAddsNothing(v, v2, level, in0, in1, outs);
    OkIsOrdered(v);
    hide *;
    if x.ikey.seqno <= y.ikey.seqno {
      IsVisible(x, y);
      var lv, e := SearchEnds(v2, level, y.ikey.user, y.ikey.seqno, x);
      RightMeans(v2, e, y);
      UniqueIn(v, v2, e, y);
      OutputNotAbove(v, v2, level, in0, in1, lv, y);
      NewestIsIn(v2, lv, y, e);
    }
  }

  lemma {:induction false} IsVisible(x: Entry, y: Entry)
    requires x.ikey.user == y.ikey.user && x.ikey.seqno <= y.ikey.seqno
    ensures Visible(x, y.ikey.user, y.ikey.seqno)
  {
  }

  lemma {:induction false} RightMeans(v: Levels, e: Entry, y: Entry)
    requires LookupsRight(v) && ShallowestNewest(v, y.ikey.user, y.ikey.seqno, e) && y in AllEntries(v)
    ensures e in AllEntries(v) && e.ikey.user == y.ikey.user && e.ikey.seqno == y.ikey.seqno
  {
    hide ShallowestNewest;
    hide AllEntries;
    assert IsNewest(AllEntries(v), y.ikey.user, y.ikey.seqno, e);
  }

  lemma {:induction false} NewestIsIn(v: Levels, lv: nat, y: Entry, e: Entry)
    requires lv < |v| && IsNewest(EntriesOf(v[lv]), y.ikey.user, y.ikey.seqno, e)
    ensures e in EntriesOf(v[lv])
  {
  }

  lemma {:induction false} LookupsRightIff(v: Levels, v2: Levels, level: nat, in0: seq<File>, in1: seq<File>,
      outs: seq<File>)
    requires Ok(v) && Install(v, v2, level, in0, in1, outs)
    ensures LookupsRight(v2) <==> NewerThan(RestOf(v[level], in0), EntriesOf(outs))
  {
    if LookupsRight(v2) {
      hide *;
      forall x, y | x in RestOf(v[level], in0) && y in EntriesOf(outs) && x.ikey.user == y.ikey.user
        ensures x.ikey.seqno > y.ikey.seqno
      {
        RightMakesOrder(v, v2, level, in0, in1, outs, x, y);
      }
      NewerThanOf(RestOf(v[level], in0), EntriesOf(outs));
    }
    if NewerThan(RestOf(v[level], in0), EntriesOf(outs)) {
      OkIsOrdered(v);
      hide *;
      InstallKeepsOrder(v, v2, level, in0, in1, outs);
      OrderMakesRight(v2);
    }
  }

  lemma {:induction false} OkIsOrdered(v: Levels)
    requires Ok(v)
    ensures DeeperIsOlder(v) && UniqueSeqnos(AllEntries(v))
  {
  }

  lemma {:induction false} NewerThanOf(a: set<Entry>, b: set<Entry>)
    requires forall x, y :: x in a && y in b && x.ikey.user == y.ikey.user ==> x.ikey.seqno > y.ikey.seqno
    ensures NewerThan(a, b)
  {
  }

  /** An input entry the compaction keeps. */
  ghost predicate Survives(merged: seq<Entry>, x: Entry, smallestSnapshot: nat, inputVersion: Levels, level: nat) {
    x in merged && !Shadowed(merged, x, smallestSnapshot) && !Obsolete(x, smallestSnapshot, inputVersion, level)
  }

  /** Every surviving input is older than what the files left at level L hold of its key. */
  ghost predicate NothingOlderStays(rest: set<Entry>, merged: seq<Entry>, smallestSnapshot: nat, inputVersion: Levels,
          level: nat) {
    forall r, x :: r in rest && Survives(merged, x, smallestSnapshot, inputVersion, level)
                   && r.ikey.user == x.ikey.user
      ==> r.ikey.seqno > x.ikey.seqno
  }

  lemma {:induction false} NewerThanSurvivors(rest: set<Entry>, merged: seq<Entry>, smallestSnapshot: nat,
          inputVersion: Levels, level: nat)
    requires SortedEntries(merged) && UniqueSeqnos(Elems(merged))
    ensures NewerThan(rest, Elems(Kept(merged, |merged|, smallestSnapshot, inputVersion, level))) <==>
              NothingOlderStays(rest, merged, smallestSnapshot, inputVersion, level)
  {
    var kept := Kept(merged, |merged|, smallestSnapshot, inputVersion, level);
    forall x ensures x in Elems(kept) <==> Survives(merged, x, smallestSnapshot, inputVersion, level) {
      Survivors(merged, smallestSnapshot, inputVersion, level, x);
    }
    hide Survives;
    hide Kept;
  }

  /**
   After a compaction is installed, Version::Get finds the newest visible entry for all keys and snapshots if and only
   if no surviving input entry leaves an older entry of its key behind in the other files of level L.
   */
  lemma {:induction false} CompactionLooksUpIff(v: Levels, v2: Levels, level: nat, in0: seq<File>, in1: seq<File>,
          outs: seq<File>, merged: seq<Entry>, smallestSnapshot: nat, inputVersion: Levels)
    requires Ok(v) && Install(v, v2, level, in0, in1, outs)
    requires SortedEntries(merged) && Elems(merged) == InputEntries(in0, in1)
    requires EntriesOf(outs) == Elems(Kept(merged, |merged|, smallestSnapshot, inputVersion, level))
    ensures LookupsRight(v2) <==>
              NothingOlderStays(RestOf(v[level], in0), merged, smallestSnapshot, inputVersion, level)
    ensures LookupsRight(v2) ==>
              forall k, snap, e :: ShallowestNewest(v2, k, snap, e) ==>
                Read(AllEntries(v2), k, snap) == Outcome(Some(e))
  {
    InputsUnique(v, level, in0, in1, merged);
    InstallAddsNothing(v, v2, level, in0, in1, outs);
    OkIsOrdered(v);
    hide *;
    LookupsRightIff(v, v2, level, in0, in1, outs);
    NewerThanSurvivors(RestOf(v[level], in0), merged, smallestSnapshot, inputVersion, level);
    if LookupsRight(v2) {
      forall k, snap, e | ShallowestNewest(v2, k, snap, e) ensures Read(AllEntries(v2), k, snap) == Outcome(Some(e)) {
        RightReads(v, v2, k, snap, e);
      }
    }
  }

  lemma {:induction false} RightReads(v: Levels, v2: Levels, k: UserKey, snap: nat, e: Entry)
    requires UniqueSeqnos(AllEntries(v)) && AllEntries(v2) <= AllEntries(v)
    requires LookupsRight(v2) && ShallowestNewest(v2, k, snap, e)
    ensures Read(AllEntries(v2), k, snap) == Outcome(Some(e))
  {
    hide ShallowestNewest;
    hide AllEntries;
    assert UniqueSeqnos(AllEntries(v2));
    NewestIs(AllEntries(v2), k, snap, e);
  }

  lemma {:induction false} InputsUnique(v: Levels, level: nat, in0: seq<File>, in1: seq<File>, merged: seq<Entry>)
    requires Ok(v) && level + 1 < |v| && Elems(in0) <= Elems(v[level]) && Elems(in1) <= Elems(v[level + 1])
    requires Elems(merged) == InputEntries(in0, in1)
    ensures UniqueSeqnos(Elems(merged))
  {
    EntriesOfSubset(in0, v[level]);
    EntriesOfSubset(in1, v[level + 1]);
    assert Elems(merged) <= AllEntries(v);
  }

  // ----- the code picks inputs that break it

  lemma {:induction false} SplitShape()
    ensures ValidLevels(SplitBefore()) && |SplitBefore()| == NUM_LEVELS == 7
    ensures SplitBefore()[1] == [SplitNewer(), SplitOlder()] && SplitBefore()[2] == [] && SplitBefore()[3] == []
  {
    SplitBeforeOk();
  }

  lemma {:induction false} FirstFile(files: seq<File>, f: File)
    requires files != [] && IsFirstAfter(files, None, f)
    ensures f == files[0]
  {
  }

  lemma {:induction false} NothingMeets(v: Levels, level: nat, in0: seq<File>, in1: seq<File>)
    requires |v| == NUM_LEVELS && level + 1 < NUM_LEVELS && WellPicked(v, level, in0, in1) && v[level + 1] == []
    ensures in1 == []
  {
  }

  lemma {:induction false} NoGrandparents(f: File, c: Compaction)
    requires c.in0 == [f] && c.in1 == [] && c.grandparents == Meeting([], c.in0 + c.in1)
    ensures c.IsTrivialMove()
  {
  }

  /** PickCompaction on SplitBefore takes the newer file alone, to be moved down as it is. */
  method PickSplit() returns (c: Compaction)
    ensures c.inputVersion == SplitBefore() && c.level == 1 && c.in0 == [SplitNewer()] && c.in1 == []
    ensures c.IsTrivialMove() && Install(SplitBefore(), SplitAfter(), 1, c.in0, c.in1, c.in0)
  {
    hide *;
    SplitShape();
    SplitIsInstalled();
    var version := new Version(SplitBefore());
    var versions := new VersionSet(version, 2_097_152);
    var picked := versions.PickCompaction(SizeTrigger(1));
    ghost var f :| IsFirstAfter([SplitNewer(), SplitOlder()], None, f) && StartsFrom(picked, f);
    FirstFile([SplitNewer(), SplitOlder()], f);
    NothingMeets(SplitBefore(), 1, picked.in0, picked.in1);
    StaysAlone(picked, f);
    NoGrandparents(f, picked);
    c := picked;
  }

  lemma {:induction false} StaysAlone(c: Compaction, f: File)
    requires StartsFrom(c, f) && c.level > 0 && c.in1 == []
    ensures c.in0 == [f]
  {
  }

  lemma {:induction false} SplitLevels()
    ensures LevelsOk(SplitAfter()) && |SplitAfter()| == NUM_LEVELS
    ensures EntriesOf(SplitAfter()[0]) == {}
    ensures EntriesOf(SplitAfter()[1]) == {SplitOlder().entries[0]}
    ensures AllEntries(SplitAfter()) == {SplitNewer().entries[0], SplitOlder().entries[0]}
  {
    var v2 := SplitAfter();
    SplitEntries();
    SplitFilesDisjoint();
    assert EntriesOf([]) == {};
    assert AllEntries(v2) == EntriesOf(v2[1]) + EntriesOf(v2[2]);
  }

  lemma {:induction false} SplitReads()
    ensures Read({SplitNewer().entries[0], SplitOlder().entries[0]}, 7, 10) == Some([1])
  {
    var s := {SplitNewer().entries[0], SplitOlder().entries[0]};
    assert IsNewest(s, 7, 10, SplitNewer().entries[0]);
    assert UniqueSeqnos(s);
    NewestIs(s, 7, 10, SplitNewer().entries[0]);
    hide Newest;
  }

  /** A search of the levels ends at level 1, with the older entry. */
  lemma {:induction false} SplitSearch(v2: Levels, older: Entry, e: Entry)
    requires |v2| == NUM_LEVELS && EntriesOf(v2[0]) == {} && EntriesOf(v2[1]) == {older} && Visible(older, 7, 10)
    requires ShallowestNewest(v2, 7, 10, e)
    ensures e == older
  {
    var lv :|
      0 <= lv < |v2| && IsNewest(EntriesOf(v2[lv]), 7, 10, e)
      && forall l :: 0 <= l < lv ==> NothingVisible(v2[l], 7, 10);
    assert older in EntriesOf(v2[1]);
    assert !NothingVisible(v2[1], 7, 10);
  }

  lemma {:induction false} SplitOldest()
    ensures |SplitOlder().entries| == 1
    ensures Visible(SplitOlder().entries[0], 7, 10) && Outcome(Some(SplitOlder().entries[0])) == Some([0])
  {
  }

  /** After the move Version::Get answers key 7 with the old value 0, while the read it should give is 1. */
  method GetAfterSplit(mayMatch: (nat, UserKey) -> bool) returns (found: Option<Entry>)
    requires SoundFilter(SplitAfter(), mayMatch)
    ensures found.Some? && Outcome(found) == Some([0])
    ensures Read(AllEntries(SplitAfter()), 7, 10) == Some([1])
  {
    hide *;
    SplitLevels();
    SplitReads();
    SplitOldest();
    var version := new Version(SplitAfter());
    found := version.Get(7, 10, mayMatch);
    assert SplitOlder().entries[0] in AllEntries(SplitAfter());
    SplitSearch(SplitAfter(), SplitOlder().entries[0], found.value);
  }
}
