/**
 Reads across the installation of a compaction: exactly when every read a live snapshot can make, and every answer of
 Version::Get, is what it was before. PickCompaction does not see to it, at any level.
 */
module CompactionReads {
  import opened Entries
  import opened Files
  import opened Versions
  import opened Compactions
  import opened CompactionMeaning
  import opened Picking
  import opened Transitions
  import opened PickedInputs
  import opened CompactionLookups

  /** The entries of the version outside the inputs. */
  ghost function Outside(v: Levels, in0: seq<File>, in1: seq<File>): set<Entry> {
    AllEntries(v) - InputEntries(in0, in1)
  }

  /** No entry outside the inputs hides x from a live reader. */
  ghost predicate Exposed(rest: set<Entry>, x: Entry, smallestSnapshot: nat) {
    forall r :: r in rest && r.ikey.user == x.ikey.user ==> !(x.ikey.seqno < r.ikey.seqno <= smallestSnapshot)
  }

  /** A deletion that is dropped although a live reader can see it. */
  ghost predicate Uncovering(rest: set<Entry>, merged: seq<Entry>, x: Entry, smallestSnapshot: nat,
          inputVersion: Levels, level: nat) {
    && x in merged && !Shadowed(merged, x, smallestSnapshot) && Obsolete(x, smallestSnapshot, inputVersion, level)
    && Exposed(rest, x, smallestSnapshot)
  }

  /** Under each such deletion lies nothing, or another deletion. */
  ghost predicate NothingUncovered(rest: set<Entry>, merged: seq<Entry>, smallestSnapshot: nat, inputVersion: Levels,
          level: nat) {
    forall x :: Uncovering(rest, merged, x, smallestSnapshot, inputVersion, level) ==>
      Read(rest, x.ikey.user, x.ikey.seqno) == None
  }

  /** Every read at or above the smallest live snapshot is the same. */
  ghost predicate ReadsKept(s: set<Entry>, t: set<Entry>, smallestSnapshot: nat) {
    forall k, snap :: snap >= smallestSnapshot ==> Read(s, k, snap) == Read(t, k, snap)
  }

  // ----- reads of the entries

  lemma {:induction false} SameVisible(s: set<Entry>, t: set<Entry>, k: UserKey, snapS: nat, snapT: nat)
    requires UniqueSeqnos(s) && UniqueSeqnos(t)
    requires forall e :: e in s && Visible(e, k, snapS) <==> e in t && Visible(e, k, snapT)
    ensures Newest(s, k, snapS) == Newest(t, k, snapT)
  {
    assert forall e :: IsNewest(s, k, snapS, e) <==> IsNewest(t, k, snapT, e);
    hide IsNewest;
    if e :| IsNewest(s, k, snapS, e) {
      NewestIs(s, k, snapS, e);
      NewestIs(t, k, snapT, e);
    }
  }

  ghost function KeptSet(merged: seq<Entry>, smallestSnapshot: nat, inputVersion: Levels, level: nat): set<Entry> {
    Elems(Kept(merged, |merged|, smallestSnapshot, inputVersion, level))
  }

  lemma {:induction false} KeptSurvive(merged: seq<Entry>, smallestSnapshot: nat, inputVersion: Levels, level: nat,
      x: Entry)
    requires SortedEntries(merged) && UniqueSeqnos(Elems(merged))
    ensures x in KeptSet(merged, smallestSnapshot, inputVersion, level) <==>
              Survives(merged, x, smallestSnapshot, inputVersion, level)
  {
    Survivors(merged, smallestSnapshot, inputVersion, level, x);
  }

  /** A dropped entry that is the newest one for a live reader is an obsolete deletion nothing hides. */
  lemma {:induction false} DroppedNewest(rest: set<Entry>, merged: seq<Entry>, smallestSnapshot: nat,
          inputVersion: Levels, level: nat, k: UserKey, snap: nat, x: Entry)
    requires snap >= smallestSnapshot && IsNewest(Elems(merged) + rest, k, snap, x)
    requires x in merged && !Survives(merged, x, smallestSnapshot, inputVersion, level)
    ensures Uncovering(rest, merged, x, smallestSnapshot, inputVersion, level)
  {
    hide BaseLevelFor;
    assert !Shadowed(merged, x, smallestSnapshot) by {
      forall e | e in merged && e.ikey.user == x.ikey.user && x.ikey.seqno < e.ikey.seqno
        ensures e.ikey.seqno > smallestSnapshot
      {
        assert e in Elems(merged) + rest;
      }
    }
    forall r | r in rest && r.ikey.user == x.ikey.user
      ensures !(x.ikey.seqno < r.ikey.seqno <= smallestSnapshot)
    {
      assert r in Elems(merged) + rest;
    }
  }

  /** An input that survives or is dropped unhidden is the newest one for some live reader. */
  lemma {:induction false} UnhiddenNewest(rest: set<Entry>, merged: seq<Entry>, smallestSnapshot: nat, x: Entry)
    returns (snap: nat)
    requires x in merged && !Shadowed(merged, x, smallestSnapshot) && Exposed(rest, x, smallestSnapshot)
    ensures snap >= smallestSnapshot && IsNewest(Elems(merged) + rest, x.ikey.user, snap, x)
    ensures x.ikey.seqno <= smallestSnapshot ==> snap == smallestSnapshot
  {
    snap := if x.ikey.seqno <= smallestSnapshot then smallestSnapshot else x.ikey.seqno;
    forall e | e in Elems(merged) + rest && Visible(e, x.ikey.user, snap) ensures e.ikey.seqno <= x.ikey.seqno {
      if e in rest {
        assert e.ikey.user == x.ikey.user;
      } else {
        assert e in merged;
      }
    }
  }

  /** What a live reader sees once such a deletion is dropped: what lies outside the inputs, up to it. */
  lemma {:induction false} SeenUnder(rest: set<Entry>, merged: seq<Entry>, smallestSnapshot: nat,
          inputVersion: Levels, level: nat, k: UserKey, snap: nat, x: Entry, e: Entry)
    requires SortedEntries(merged) && UniqueSeqnos(Elems(merged) + rest)
    requires snap >= smallestSnapshot && IsNewest(Elems(merged) + rest, k, snap, x)
    requires Uncovering(rest, merged, x, smallestSnapshot, inputVersion, level)
    ensures e in KeptSet(merged, smallestSnapshot, inputVersion, level) + rest && Visible(e, k, snap) <==>
              e in rest && Visible(e, k, x.ikey.seqno)
  {
    KeptSurvive(merged, smallestSnapshot, inputVersion, level, e);
    hide KeptSet;
    hide BaseLevelFor;
    assert x in Elems(merged) + rest && (e in merged ==> e in Elems(merged));
    if e in merged && e.ikey.user == k && e.ikey.seqno < x.ikey.seqno {
      assert Shadowed(merged, e, smallestSnapshot);
    }
    assert e in Elems(merged) + rest && Visible(e, k, snap) ==> e.ikey.seqno <= x.ikey.seqno;
  }

  lemma {:induction false} KeptWithin(merged: seq<Entry>, smallestSnapshot: nat, inputVersion: Levels, level: nat)
    requires SortedEntries(merged) && UniqueSeqnos(Elems(merged))
    ensures KeptSet(merged, smallestSnapshot, inputVersion, level) <= Elems(merged)
  {
    forall x | x in KeptSet(merged, smallestSnapshot, inputVersion, level) ensures x in Elems(merged) {
      KeptSurvive(merged, smallestSnapshot, inputVersion, level, x);
    }
  }

  lemma {:induction false} ReadUnder(rest: set<Entry>, merged: seq<Entry>, smallestSnapshot: nat,
          inputVersion: Levels, level: nat, k: UserKey, snap: nat, x: Entry)
    requires SortedEntries(merged) && UniqueSeqnos(Elems(merged) + rest)
    requires snap >= smallestSnapshot && IsNewest(Elems(merged) + rest, k, snap, x)
    requires Uncovering(rest, merged, x, smallestSnapshot, inputVersion, level)
    ensures Read(KeptSet(merged, smallestSnapshot, inputVersion, level) + rest, k, snap) == Read(rest, k, x.ikey.seqno)
    ensures Read(Elems(merged) + rest, k, snap) == None
  {
    var kept := KeptSet(merged, smallestSnapshot, inputVersion, level);
    KeptWithin(merged, smallestSnapshot, inputVersion, level);
    forall e ensures e in kept + rest && Visible(e, k, snap) <==> e in rest && Visible(e, k, x.ikey.seqno) {
      SeenUnder(rest, merged, smallestSnapshot, inputVersion, level, k, snap, x, e);
    }
    NewestIs(Elems(merged) + rest, k, snap, x);
    hide KeptSet;
    hide BaseLevelFor;
    SameVisible(kept + rest, rest, k, snap, x.ikey.seqno);
  }

  /** A read whose newest entry survives, or that sees nothing, does not change. */
  lemma {:induction false} ReadStays(rest: set<Entry>, all: set<Entry>, kept: set<Entry>, k: UserKey, snap: nat)
    requires UniqueSeqnos(all + rest) && kept <= all
    requires forall e :: IsNewest(all + rest, k, snap, e) ==> e in kept + rest
    ensures Read(all + rest, k, snap) == Read(kept + rest, k, snap)
  {
    NewestExists(all + rest, k, snap);
    NewestExists(kept + rest, k, snap);
    if e :| IsNewest(all + rest, k, snap, e) {
      NewestIs(all + rest, k, snap, e);
      assert IsNewest(kept + rest, k, snap, e);
      NewestIs(kept + rest, k, snap, e);
    }
  }

  lemma {:induction false} ReadAfterDrop(rest: set<Entry>, merged: seq<Entry>, smallestSnapshot: nat,
          inputVersion: Levels, level: nat, k: UserKey, snap: nat)
    requires SortedEntries(merged) && UniqueSeqnos(Elems(merged) + rest) && snap >= smallestSnapshot
    requires NothingUncovered(rest, merged, smallestSnapshot, inputVersion, level)
    ensures Read(Elems(merged) + rest, k, snap) ==
              Read(KeptSet(merged, smallestSnapshot, inputVersion, level) + rest, k, snap)
  {
    var kept := KeptSet(merged, smallestSnapshot, inputVersion, level);
    KeptWithin(merged, smallestSnapshot, inputVersion, level);
    hide Shadowed;
    hide Obsolete;
    hide Exposed;
    if x :| IsNewest(Elems(merged) + rest, k, snap, x) && x !in kept + rest {
      KeptSurvive(merged, smallestSnapshot, inputVersion, level, x);
      assert x in merged by { assert x in Elems(merged); }
      hide *;
      DroppedNewest(rest, merged, smallestSnapshot, inputVersion, level, k, snap, x);
      ReadUnder(rest, merged, smallestSnapshot, inputVersion, level, k, snap, x);
      UncoveredAt(rest, merged, smallestSnapshot, inputVersion, level, k, snap, x);
    } else {
      hide *;
      ReadStays(rest, Elems(merged), kept, k, snap);
    }
  }

  lemma {:induction false} UncoveredAt(rest: set<Entry>, merged: seq<Entry>, smallestSnapshot: nat,
          inputVersion: Levels, level: nat, k: UserKey, snap: nat, x: Entry)
    requires NothingUncovered(rest, merged, smallestSnapshot, inputVersion, level)
    requires Uncovering(rest, merged, x, smallestSnapshot, inputVersion, level)
    requires IsNewest(Elems(merged) + rest, k, snap, x)
    ensures Read(rest, k, x.ikey.seqno) == None
  {
    hide Uncovering;
    hide Read;
  }

  lemma {:induction false} ObsoleteIsOld(rest: set<Entry>, merged: seq<Entry>, smallestSnapshot: nat,
          inputVersion: Levels, level: nat, x: Entry)
    requires Uncovering(rest, merged, x, smallestSnapshot, inputVersion, level)
    ensures x in merged && !Shadowed(merged, x, smallestSnapshot) && Exposed(rest, x, smallestSnapshot)
    ensures x.ikey.seqno <= smallestSnapshot
  {
    hide Shadowed;
    hide Exposed;
    hide BaseLevelFor;
  }

  /** Dropping entries changes no read of a live snapshot if and only if it uncovers nothing. */
  lemma {:induction false} DropsKeepReadsIff(rest: set<Entry>, merged: seq<Entry>, smallestSnapshot: nat,
          inputVersion: Levels, level: nat)
    requires SortedEntries(merged) && UniqueSeqnos(Elems(merged) + rest)
    ensures var kept := KeptSet(merged, smallestSnapshot, inputVersion, level);
            ReadsKept(Elems(merged) + rest, kept + rest, smallestSnapshot) <==>
              NothingUncovered(rest, merged, smallestSnapshot, inputVersion, level)
  {
    var kept := KeptSet(merged, smallestSnapshot, inputVersion, level);
    hide KeptSet;
    hide Read;
    hide Uncovering;
    if NothingUncovered(rest, merged, smallestSnapshot, inputVersion, level) {
      forall k, snap: nat | snap >= smallestSnapshot
        ensures Read(Elems(merged) + rest, k, snap) == Read(kept + rest, k, snap)
      {
        ReadAfterDrop(rest, merged, smallestSnapshot, inputVersion, level, k, snap);
      }
    }
    if ReadsKept(Elems(merged) + rest, kept + rest, smallestSnapshot) {
      forall x | Uncovering(rest, merged, x, smallestSnapshot, inputVersion, level)
        ensures Read(rest, x.ikey.user, x.ikey.seqno) == None
      {
        ObsoleteIsOld(rest, merged, smallestSnapshot, inputVersion, level, x);
        var snap := UnhiddenNewest(rest, merged, smallestSnapshot, x);
        ReadUnder(rest, merged, smallestSnapshot, inputVersion, level, x.ikey.user, snap, x);
      }
    }
  }

  // ----- the installed version

  lemma {:induction false} OutsideLevels(v: Levels, level: nat, in0: seq<File>, in1: seq<File>)
    requires Ok(v) && Ready(v, level, in0, in1)
    ensures InputEntries(in0, in1) !! RestOf(v[level], in0) && InputEntries(in0, in1) !! RestOf(v[level + 1], in1)
    ensures forall lv :: 0 <= lv < |v| && lv != level && lv != level + 1 ==>
              InputEntries(in0, in1) !! EntriesOf(v[lv])
    ensures InputEntries(in0, in1) <= EntriesOf(v[level]) + EntriesOf(v[level + 1])
  {
    EntriesOfSubset(in0, v[level]);
    EntriesOfSubset(in1, v[level + 1]);
    forall y | y in InputEntries(in0, in1) ensures y !in RestOf(v[level], in0) && y !in RestOf(v[level + 1], in1) {
      InputNotInRest(v, level, in0, in1, y);
      InputNotBeside(v, level, in0, in1, y);
    }
    forall lv | 0 <= lv < |v| && lv != level && lv != level + 1 ensures InputEntries(in0, in1) !! EntriesOf(v[lv]) {
      OtherLevel(v, level, lv);
      OtherLevel(v, level + 1, lv);
    }
  }

  lemma {:induction false} OtherLevel(v: Levels, l: nat, lv: nat)
    requires DeeperIsOlder(v) && l < |v| && lv < |v| && l != lv
    ensures EntriesOf(v[l]) !! EntriesOf(v[lv])
  {
    if l < lv {
      LevelsDisjoint(v, l, lv);
    } else {
      LevelsDisjoint(v, lv, l);
    }
  }

  /** Nor does a level-L+1 file outside the inputs hold an input's entry. */
  lemma {:induction false} InputNotBeside(v: Levels, level: nat, in0: seq<File>, in1: seq<File>, y: Entry)
    requires Ok(v) && Ready(v, level, in0, in1) && y in InputEntries(in0, in1)
    ensures y !in RestOf(v[level + 1], in1)
  {
    forall g | g in v[level + 1] && g !in in1 ensures y !in g.entries {
      assert Beside(g, InputEntries(in0, in1));
      if y in g.entries {
        FileBounds(g, y);
      }
    }
  }

  lemma {:induction false} InstalledEntries(v: Levels, v2: Levels, level: nat, in0: seq<File>, in1: seq<File>,
          outs: seq<File>)
    requires Ok(v) && Install(v, v2, level, in0, in1, outs)
    ensures AllEntries(v2) == EntriesOf(outs) + Outside(v, in0, in1)
    ensures AllEntries(v) == InputEntries(in0, in1) + Outside(v, in0, in1)
    ensures EntriesOf(outs) <= InputEntries(in0, in1) <= AllEntries(v)
  {
    InstallLevelSets(v, v2, level, in0, in1, outs);
    OutsideLevels(v, level, in0, in1);
    hide Ok;
    hide Ready;
    hide AllEntries;
    hide RestOf;
    assert InputEntries(in0, in1) <= AllEntries(v) by {
      InLevel(v, level);
      InLevel(v, level + 1);
    }
    forall e ensures e in AllEntries(v2) <==> e in EntriesOf(outs) + Outside(v, in0, in1) {
      InstallEntry(v, v2, level, in0, in1, outs, e);
    }
  }

  lemma {:induction false} InLevel(v: Levels, l: nat)
    requires l < |v|
    ensures EntriesOf(v[l]) <= AllEntries(v)
  {
  }

  lemma {:induction false} InstallReady(v: Levels, v2: Levels, level: nat, in0: seq<File>, in1: seq<File>,
          outs: seq<File>)
    requires Install(v, v2, level, in0, in1, outs)
    ensures Ready(v, level, in0, in1)
  {
    hide Ready;
  }

  lemma {:induction false} MergedUnique(v: Levels, in0: seq<File>, in1: seq<File>, merged: seq<Entry>)
    requires UniqueSeqnos(AllEntries(v)) && InputEntries(in0, in1) <= AllEntries(v)
    requires Elems(merged) == InputEntries(in0, in1)
    ensures UniqueSeqnos(Elems(merged) + Outside(v, in0, in1)) && UniqueSeqnos(Elems(merged))
  {
    assert Elems(merged) + Outside(v, in0, in1) == AllEntries(v);
  }

  /** The installation changes no read of a live snapshot if and only if no deletion it drops uncovers a value. */
  lemma {:induction false} CompactionKeepsReadsIff(v: Levels, v2: Levels, level: nat, in0: seq<File>, in1: seq<File>,
          outs: seq<File>, merged: seq<Entry>, smallestSnapshot: nat, inputVersion: Levels)
    requires Ok(v) && Install(v, v2, level, in0, in1, outs)
    requires SortedEntries(merged) && Elems(merged) == InputEntries(in0, in1)
    requires EntriesOf(outs) == Elems(Kept(merged, |merged|, smallestSnapshot, inputVersion, level))
    ensures ReadsKept(AllEntries(v), AllEntries(v2), smallestSnapshot) <==>
              NothingUncovered(Outside(v, in0, in1), merged, smallestSnapshot, inputVersion, level)
  {
    var rest := Outside(v, in0, in1);
    assert KeptSet(merged, smallestSnapshot, inputVersion, level) == EntriesOf(outs);
    OkIsOrdered(v);
    hide *;
    InstalledEntries(v, v2, level, in0, in1, outs);
    MergedUnique(v, in0, in1, merged);
    DropsKeepReadsIff(rest, merged, smallestSnapshot, inputVersion, level);
  }

  // ----- what Version::Get answers

  /** What Version::Get finds: the newest visible entry of the shallowest level that has one, or nothing. */
  ghost predicate Finds(v: Levels, k: UserKey, snap: nat, found: Option<Entry>) {
    if found.Some? then ShallowestNewest(v, k, snap, found.value)
    else forall e :: e in AllEntries(v) ==> !Visible(e, k, snap)
  }

  /** Every answer to a live reader after the installation is the read before it. */
  ghost predicate AnswersKept(v: Levels, v2: Levels, smallestSnapshot: nat) {
    forall k, snap, found :: snap >= smallestSnapshot && Finds(v2, k, snap, found) ==>
      Outcome(found) == Read(AllEntries(v), k, snap)
  }

  /** A surviving input that a live reader can see. */
  ghost predicate Seen(rest: set<Entry>, merged: seq<Entry>, x: Entry, smallestSnapshot: nat, inputVersion: Levels,
          level: nat) {
    Survives(merged, x, smallestSnapshot, inputVersion, level) && Exposed(rest, x, smallestSnapshot)
  }

  /** What the files left at level L hold of its key up to it is nothing, or reads the same. */
  ghost predicate NothingOlderFound(rest0: set<Entry>, rest: set<Entry>, merged: seq<Entry>, smallestSnapshot: nat,
          inputVersion: Levels, level: nat) {
    forall x :: Seen(rest, merged, x, smallestSnapshot, inputVersion, level) ==>
      var older := Newest(rest0, x.ikey.user, x.ikey.seqno);
      older.None? || Outcome(older) == Outcome(Some(x))
  }

  /** Newer surviving inputs than everything of their key left at level L are found before it. */
  lemma {:induction false} NothingOlderNothingFound(rest0: set<Entry>, rest: set<Entry>, merged: seq<Entry>,
          smallestSnapshot: nat, inputVersion: Levels, level: nat)
    requires NothingOlderStays(rest0, merged, smallestSnapshot, inputVersion, level)
    ensures NothingOlderFound(rest0, rest, merged, smallestSnapshot, inputVersion, level)
  {
    hide Survives;
    hide Exposed;
    forall x | Seen(rest, merged, x, smallestSnapshot, inputVersion, level)
      ensures Newest(rest0, x.ikey.user, x.ikey.seqno).None?
    {
      NewestExists(rest0, x.ikey.user, x.ikey.seqno);
    }
  }

  /** The levels of the installed version, as sets. */
  ghost predicate Installed(v: Levels, v2: Levels, level: nat, inputs: set<Entry>, rest0: set<Entry>, out: set<Entry>) {
    && |v2| == |v| && level + 1 < |v| && DeeperIsOlder(v) && UniqueSeqnos(AllEntries(v))
    && out <= inputs <= EntriesOf(v[level]) + EntriesOf(v[level + 1])
    && (forall l, e :: 0 <= l < |v| ==>
          (e in EntriesOf(v2[l]) <==> (e in EntriesOf(v[l]) && e !in inputs) || (l == level + 1 && e in out)))
    && (forall e :: e in rest0 <==> e in EntriesOf(v[level]) && e !in inputs)
  }

  lemma {:induction false} RestIs(files: seq<File>, inputs: seq<File>, s: set<Entry>, e: Entry)
    requires EntriesOf(inputs) <= s && s !! RestOf(files, inputs)
    ensures e in RestOf(files, inputs) <==> e in EntriesOf(files) && e !in s
  {
    if e in EntriesOf(files) && e !in s {
      var f :| f in files && e in f.entries;
      assert f !in inputs;
    }
  }

  lemma {:induction false} InstalledAt(v: Levels, v2: Levels, level: nat, in0: seq<File>, in1: seq<File>,
          outs: seq<File>, l: nat, e: Entry)
    requires level + 1 < |v| == |v2| && l < |v|
    requires LevelSets(v2) ==
               LevelSets(v)[level := RestOf(v[level], in0)][level + 1 := RestOf(v[level + 1], in1) + EntriesOf(outs)]
    requires InputEntries(in0, in1) !! RestOf(v[level], in0) && InputEntries(in0, in1) !! RestOf(v[level + 1], in1)
    requires l != level && l != level + 1 ==> InputEntries(in0, in1) !! EntriesOf(v[l])
    ensures e in EntriesOf(v2[l]) <==>
              (e in EntriesOf(v[l]) && e !in InputEntries(in0, in1)) || (l == level + 1 && e in EntriesOf(outs))
  {
    assert EntriesOf(v2[l]) == LevelSets(v2)[l];
    hide RestOf;
    hide EntriesOf;
    if l == level {
      RestIs(v[level], in0, InputEntries(in0, in1), e);
    } else if l == level + 1 {
      RestIs(v[level + 1], in1, InputEntries(in0, in1), e);
    }
  }

  lemma {:induction false} InputsOfBoth(in0: seq<File>, in1: seq<File>)
    ensures EntriesOf(in0) <= InputEntries(in0, in1) && EntriesOf(in1) <= InputEntries(in0, in1)
  {
  }

  lemma {:induction false} InstallShape(v: Levels, v2: Levels, level: nat, in0: seq<File>, in1: seq<File>,
      outs: seq<File>)
    requires Install(v, v2, level, in0, in1, outs)
    ensures level + 1 < |v| == |v2| && EntriesOf(outs) <= InputEntries(in0, in1)
  {
    hide EntriesOf;
    hide InputEntries;
    hide LevelEdited;
  }

  lemma {:induction false} InstalledSets(v: Levels, v2: Levels, level: nat, in0: seq<File>, in1: seq<File>,
          outs: seq<File>)
    requires Ok(v) && Install(v, v2, level, in0, in1, outs)
    ensures level + 1 < |v|
    ensures Installed(v, v2, level, InputEntries(in0, in1), RestOf(v[level], in0), EntriesOf(outs))
  {
    InstallReady(v, v2, level, in0, in1, outs);
    OutsideLevels(v, level, in0, in1);
    InstallLevelSets(v, v2, level, in0, in1, outs);
    InstallShape(v, v2, level, in0, in1, outs);
    InputsOfBoth(in0, in1);
    OkIsOrdered(v);
    hide Ok;
    hide Install;
    hide Ready;
    hide EntriesOf;
    hide RestOf;
    hide InputEntries;
    hide DeeperIsOlder;
    hide UniqueSeqnos;
    hide AllEntries;
    hide LevelSets;
    forall l, e | 0 <= l < |v|
      ensures e in EntriesOf(v2[l]) <==>
                (e in EntriesOf(v[l]) && e !in InputEntries(in0, in1)) || (l == level + 1 && e in EntriesOf(outs))
    {
      InstalledAt(v, v2, level, in0, in1, outs, l, e);
    }
    forall e ensures e in RestOf(v[level], in0) <==> e in EntriesOf(v[level]) && e !in InputEntries(in0, in1) {
      RestIs(v[level], in0, InputEntries(in0, in1), e);
    }
  }

  /** The newest visible entry is at some level, and no shallower level has a visible one. */
  lemma {:induction false} NewestAt(v: Levels, k: UserKey, snap: nat, e: Entry) returns (le: nat)
    requires DeeperIsOlder(v) && IsNewest(AllEntries(v), k, snap, e)
    ensures le < |v| && e in EntriesOf(v[le])
    ensures forall l, y :: 0 <= l < le && y in EntriesOf(v[l]) ==> !Visible(y, k, snap)
  {
    le :| 0 <= le < |v| && e in EntriesOf(v[le]);
    forall l, y | 0 <= l < le && y in EntriesOf(v[l]) ensures !Visible(y, k, snap) {
      assert NewerThan(EntriesOf(v[l]), EntriesOf(v[le]));
      assert y in AllEntries(v);
    }
  }

  ghost predicate NoneVisible(s: set<Entry>, k: UserKey, snap: nat) {
    forall e :: e in s ==> !Visible(e, k, snap)
  }

  lemma {:induction false} NothingIsNone(files: seq<File>, k: UserKey, snap: nat)
    ensures NothingVisible(files, k, snap) <==> NoneVisible(EntriesOf(files), k, snap)
  {
  }

  /** A search that meets nothing before level lv, and something there, finds the newest visible entry of that level. */
  lemma {:induction false} FoundAt(v: Levels, k: UserKey, snap: nat, found: Option<Entry>, lv: nat, e: Entry)
    requires UniqueSeqnos(AllEntries(v)) && Finds(v, k, snap, found) && lv < |v|
    requires (forall l :: 0 <= l < lv ==> NoneVisible(EntriesOf(v[l]), k, snap))
    requires IsNewest(EntriesOf(v[lv]), k, snap, e)
    ensures found == Some(e)
  {
    InLevel(v, lv);
    NothingIsNone(v[lv], k, snap);
    assert e in AllEntries(v) && Visible(e, k, snap);
    var l :| 0 <= l < |v| && IsNewest(EntriesOf(v[l]), k, snap, found.value)
                    && forall m :: 0 <= m < l ==> NothingVisible(v[m], k, snap);
    InLevel(v, l);
  }

  lemma {:induction false} ShrunkUnique(v: Levels, v2: Levels)
    requires UniqueSeqnos(AllEntries(v)) && AllEntries(v2) <= AllEntries(v)
    ensures UniqueSeqnos(AllEntries(v2))
  {
  }

  lemma {:induction false} InstalledShrinks(v: Levels, v2: Levels, level: nat, inputs: set<Entry>, rest0: set<Entry>,
          out: set<Entry>)
    requires Installed(v, v2, level, inputs, rest0, out)
    ensures AllEntries(v2) <= AllEntries(v) && UniqueSeqnos(AllEntries(v2))
    ensures AllEntries(v2) == (AllEntries(v) - inputs) + out && inputs <= AllEntries(v)
  {
    InLevel(v, level);
    InLevel(v, level + 1);
    forall e ensures e in AllEntries(v2) <==> e in (AllEntries(v) - inputs) + out {
      if e in AllEntries(v2) {
        var l :| 0 <= l < |v2| && e in EntriesOf(v2[l]);
      }
      if e in AllEntries(v) - inputs {
        var l :| 0 <= l < |v| && e in EntriesOf(v[l]);
        assert e in EntriesOf(v2[l]);
      }
      if e in out {
        assert e in EntriesOf(v2[level + 1]);
      }
    }
    ShrunkUnique(v, v2);
  }

  /** No level before le has a visible entry after the installation either. */
  lemma {:induction false} NoneBefore(v: Levels, v2: Levels, level: nat, inputs: set<Entry>, rest0: set<Entry>,
          out: set<Entry>, k: UserKey, snap: nat, le: nat, l: nat)
    requires Installed(v, v2, level, inputs, rest0, out) && l < le < |v|
    requires forall m, y :: 0 <= m < le && y in EntriesOf(v[m]) ==> !Visible(y, k, snap)
    ensures NoneVisible(EntriesOf(v2[l]), k, snap)
  {
  }

  /** A newest entry outside the inputs is still found. */
  lemma {:induction false} OutsideFound(v: Levels, v2: Levels, level: nat, inputs: set<Entry>, rest0: set<Entry>,
          out: set<Entry>, k: UserKey, snap: nat, e: Entry, found: Option<Entry>)
    requires Installed(v, v2, level, inputs, rest0, out) && Finds(v2, k, snap, found)
    requires IsNewest(AllEntries(v), k, snap, e) && e !in inputs
    ensures found == Some(e)
  {
    InstalledShrinks(v, v2, level, inputs, rest0, out);
    var le := NewestAt(v, k, snap, e);
    hide Finds;
    hide AllEntries;
    hide DeeperIsOlder;
    forall l | 0 <= l < le ensures NoneVisible(EntriesOf(v2[l]), k, snap) {
      NoneBefore(v, v2, level, inputs, rest0, out, k, snap, le, l);
    }
    InLevel(v2, le);
    FoundAt(v2, k, snap, found, le, e);
  }

  /** A newest entry among the outputs is found, unless level L still has a visible entry: then the newest of those. */
  lemma {:induction false} OutputFound(v: Levels, v2: Levels, level: nat, inputs: set<Entry>, rest0: set<Entry>,
          out: set<Entry>, k: UserKey, snap: nat, e: Entry, found: Option<Entry>)
    requires Installed(v, v2, level, inputs, rest0, out) && Finds(v2, k, snap, found)
    requires IsNewest(AllEntries(v), k, snap, e) && e in out
    ensures found == var older := Newest(rest0, k, snap); if older.Some? then older else Some(e)
  {
    hide *;
    OutputLevels(v, v2, level, inputs, rest0, out, k, snap, e);
    InstalledShrinks(v, v2, level, inputs, rest0, out);
    ShrunkLevel(v2, level);
    forall l | 0 <= l < level ensures NoneVisible(EntriesOf(v2[l]), k, snap) {
      NoneBefore(v, v2, level, inputs, rest0, out, k, snap, level, l);
    }
    NewestExists(rest0, k, snap);
    NoneIs(rest0, k, snap);
    if Newest(rest0, k, snap).Some? {
      var r := NewestOf(rest0, k, snap);
      FoundAt(v2, k, snap, found, level, r);
    } else {
      FoundAt(v2, k, snap, found, level + 1, e);
    }
  }

  lemma {:induction false} NoneIs(s: set<Entry>, k: UserKey, snap: nat)
    ensures NoneVisible(s, k, snap) <==> !exists e :: e in s && Visible(e, k, snap)
  {
  }

  lemma {:induction false} ShrunkLevel(v: Levels, l: nat)
    requires UniqueSeqnos(AllEntries(v)) && l < |v|
    ensures UniqueSeqnos(EntriesOf(v[l]))
  {
    InLevel(v, l);
    hide AllEntries;
    hide EntriesOf;
  }

  /** Levels L and L+1 of the installed version around a newest entry that is among the outputs. */
  lemma {:induction false} OutputLevels(v: Levels, v2: Levels, level: nat, inputs: set<Entry>, rest0: set<Entry>,
          out: set<Entry>, k: UserKey, snap: nat, e: Entry)
    requires Installed(v, v2, level, inputs, rest0, out) && IsNewest(AllEntries(v), k, snap, e) && e in out
    ensures level + 1 < |v| == |v2| && EntriesOf(v2[level]) == rest0 && IsNewest(EntriesOf(v2[level + 1]), k, snap, e)
    ensures forall m, y :: 0 <= m < level && y in EntriesOf(v[m]) ==> !Visible(y, k, snap)
  {
    InstalledShrinks(v, v2, level, inputs, rest0, out);
    var le := NewestAt(v, k, snap, e);
    LevelOf(v, level, inputs, le, e);
    InLevel(v2, level + 1);
    hide DeeperIsOlder;
    hide AllEntries;
    hide UniqueSeqnos;
    assert e in EntriesOf(v2[level + 1]);
    assert EntriesOf(v2[level]) == rest0;
  }

  lemma {:induction false} NewestOf(s: set<Entry>, k: UserKey, snap: nat) returns (r: Entry)
    requires Newest(s, k, snap).Some?
    ensures Newest(s, k, snap) == Some(r) && IsNewest(s, k, snap, r)
  {
    r := Newest(s, k, snap).value;
  }

  /** An input's entry is at level L or L+1, nowhere else. */
  lemma {:induction false} LevelOf(v: Levels, level: nat, inputs: set<Entry>, le: nat, e: Entry)
    requires DeeperIsOlder(v) && level + 1 < |v| && inputs <= EntriesOf(v[level]) + EntriesOf(v[level + 1])
    requires e in inputs && le < |v| && e in EntriesOf(v[le])
    ensures le == level || le == level + 1
  {
    if le != level {
      OtherLevel(v, level, le);
    }
    if le != level + 1 {
      OtherLevel(v, level + 1, le);
    }
  }

  /** Where nothing of the outputs is visible, a search finds the newest visible entry of what was left. */
  lemma {:induction false} LeftFound(v: Levels, v2: Levels, level: nat, inputs: set<Entry>, rest0: set<Entry>,
          out: set<Entry>, k: UserKey, snap: nat, found: Option<Entry>)
    requires Installed(v, v2, level, inputs, rest0, out) && Finds(v2, k, snap, found) && NoneVisible(out, k, snap)
    ensures found == Newest(AllEntries(v) - inputs, k, snap)
  {
    var rest := AllEntries(v) - inputs;
    InstalledShrinks(v, v2, level, inputs, rest0, out);
    NewestExists(rest, k, snap);
    if r :| IsNewest(rest, k, snap, r) {
      NewestIs(rest, k, snap, r);
      LeftFoundAt(v, v2, level, inputs, rest0, out, k, snap, r, found);
    } else {
      assert forall e :: e in AllEntries(v2) ==> !Visible(e, k, snap);
    }
  }

  lemma {:induction false} LeftFoundAt(v: Levels, v2: Levels, level: nat, inputs: set<Entry>, rest0: set<Entry>,
          out: set<Entry>, k: UserKey, snap: nat, r: Entry, found: Option<Entry>)
    requires Installed(v, v2, level, inputs, rest0, out) && Finds(v2, k, snap, found) && NoneVisible(out, k, snap)
    requires IsNewest(AllEntries(v) - inputs, k, snap, r)
    ensures found == Some(r)
  {
    InstalledShrinks(v, v2, level, inputs, rest0, out);
    var le :| 0 <= le < |v| && r in EntriesOf(v[le]);
    forall l | 0 <= l < le ensures NoneVisible(EntriesOf(v2[l]), k, snap) {
      forall y | y in EntriesOf(v2[l]) ensures !Visible(y, k, snap) {
        if y !in out {
          assert NewerThan(EntriesOf(v[l]), EntriesOf(v[le]));
          assert y in AllEntries(v) - inputs;
        }
      }
    }
    assert IsNewest(EntriesOf(v2[le]), k, snap, r) by {
      forall y | y in EntriesOf(v2[le]) && Visible(y, k, snap) ensures y.ikey.seqno <= r.ikey.seqno {
        assert y !in out && y in EntriesOf(v[le]);
        assert y in AllEntries(v) - inputs;
      }
    }
    hide Installed;
    hide IsNewest;
    FoundAt(v2, k, snap, found, le, r);
  }

  // ----- answers before and after

  /** One compaction as installed: what it merged, what it kept, and the version it ended in. */
  ghost predicate Compacted(v: Levels, v2: Levels, level: nat, inputs: set<Entry>, rest0: set<Entry>, out: set<Entry>,
          merged: seq<Entry>, smallestSnapshot: nat, inputVersion: Levels) {
    && Installed(v, v2, level, inputs, rest0, out) && SortedEntries(merged) && Elems(merged) == inputs
    && inputs <= AllEntries(v) && out == KeptSet(merged, smallestSnapshot, inputVersion, level)
  }

  lemma {:induction false} CompactedParts(v: Levels, v2: Levels, level: nat, inputs: set<Entry>, rest0: set<Entry>,
          out: set<Entry>, merged: seq<Entry>, smallestSnapshot: nat, inputVersion: Levels)
    requires Compacted(v, v2, level, inputs, rest0, out, merged, smallestSnapshot, inputVersion)
    ensures Installed(v, v2, level, inputs, rest0, out) && SortedEntries(merged) && Elems(merged) == inputs
    ensures out == KeptSet(merged, smallestSnapshot, inputVersion, level) && rest0 <= AllEntries(v) - inputs
    ensures var rest := AllEntries(v) - inputs;
            && AllEntries(v) == Elems(merged) + rest && UniqueSeqnos(Elems(merged) + rest)
            && UniqueSeqnos(Elems(merged)) && UniqueSeqnos(rest)
  {
    hide KeptSet;
    hide AllEntries;
    InLevel(v, level);
    assert AllEntries(v) == Elems(merged) + (AllEntries(v) - inputs);
  }

  /** The newest entry up to an entry that is itself the newest visible one does not depend on the snapshot. */
  lemma {:induction false} UpTo(all: set<Entry>, s: set<Entry>, k: UserKey, snap: nat, e: Entry)
    requires IsNewest(all, k, snap, e) && s <= all && UniqueSeqnos(s)
    ensures Newest(s, k, snap) == Newest(s, k, e.ikey.seqno)
  {
    assert forall y :: y in s && Visible(y, k, snap) <==> y in s && Visible(y, k, e.ikey.seqno);
    SameVisible(s, s, k, snap, e.ikey.seqno);
  }

  /** What a live reader finds when the newest entry was a dropped one. */
  lemma {:induction false} FoundUnder(v: Levels, v2: Levels, level: nat, inputs: set<Entry>, rest0: set<Entry>,
          out: set<Entry>, merged: seq<Entry>, smallestSnapshot: nat, inputVersion: Levels, k: UserKey, snap: nat,
          x: Entry, found: Option<Entry>)
    requires Compacted(v, v2, level, inputs, rest0, out, merged, smallestSnapshot, inputVersion)
    requires Finds(v2, k, snap, found) && snap >= smallestSnapshot && IsNewest(AllEntries(v), k, snap, x)
    requires Uncovering(AllEntries(v) - inputs, merged, x, smallestSnapshot, inputVersion, level)
    ensures Outcome(found) == Read(AllEntries(v) - inputs, k, x.ikey.seqno) && Read(AllEntries(v), k, snap) == None
  {
    var rest := AllEntries(v) - inputs;
    CompactedParts(v, v2, level, inputs, rest0, out, merged, smallestSnapshot, inputVersion);
    hide *;
    ReadUnder(rest, merged, smallestSnapshot, inputVersion, level, k, snap, x);
    assert NoneVisible(out, k, snap) by {
      NoOutputSeen(rest, merged, smallestSnapshot, inputVersion, level, k, snap, x);
    }
    LeftFound(v, v2, level, inputs, rest0, out, k, snap, found);
    UpTo(AllEntries(v), rest, k, snap, x);
    ReadIs(rest, k, x.ikey.seqno);
  }

  lemma {:induction false} ReadIs(s: set<Entry>, k: UserKey, snap: nat)
    ensures Read(s, k, snap) == Outcome(Newest(s, k, snap))
  {
  }

  lemma {:induction false} NoOutputSeen(rest: set<Entry>, merged: seq<Entry>, smallestSnapshot: nat,
          inputVersion: Levels, level: nat, k: UserKey, snap: nat, x: Entry)
    requires SortedEntries(merged) && UniqueSeqnos(Elems(merged) + rest) && Elems(merged) !! rest
    requires snap >= smallestSnapshot && IsNewest(Elems(merged) + rest, k, snap, x)
    requires Uncovering(rest, merged, x, smallestSnapshot, inputVersion, level)
    ensures NoneVisible(KeptSet(merged, smallestSnapshot, inputVersion, level), k, snap)
  {
    KeptWithin(merged, smallestSnapshot, inputVersion, level);
    hide KeptSet;
    hide IsNewest;
    hide Uncovering;
    hide Visible;
    forall e | e in KeptSet(merged, smallestSnapshot, inputVersion, level) ensures !Visible(e, k, snap) {
      SeenUnder(rest, merged, smallestSnapshot, inputVersion, level, k, snap, x, e);
      assert e in Elems(merged);
    }
  }

  /** What a live reader finds when the newest entry was a surviving input. */
  lemma {:induction false} FoundSurvivor(v: Levels, v2: Levels, level: nat, inputs: set<Entry>, rest0: set<Entry>,
          out: set<Entry>, merged: seq<Entry>, smallestSnapshot: nat, inputVersion: Levels, k: UserKey, snap: nat,
          x: Entry, found: Option<Entry>)
    requires Compacted(v, v2, level, inputs, rest0, out, merged, smallestSnapshot, inputVersion)
    requires Finds(v2, k, snap, found) && IsNewest(AllEntries(v), k, snap, x)
    requires Survives(merged, x, smallestSnapshot, inputVersion, level)
    ensures found == var older := Newest(rest0, k, x.ikey.seqno); if older.Some? then older else Some(x)
    ensures Read(AllEntries(v), k, snap) == Outcome(Some(x))
  {
    var rest := AllEntries(v) - inputs;
    CompactedParts(v, v2, level, inputs, rest0, out, merged, smallestSnapshot, inputVersion);
    RestUnique(rest0, rest);
    hide *;
    KeptSurvive(merged, smallestSnapshot, inputVersion, level, x);
    OutputFound(v, v2, level, inputs, rest0, out, k, snap, x, found);
    UpTo(AllEntries(v), rest0, k, snap, x);
    NewestIs(AllEntries(v), k, snap, x);
    ReadIs(AllEntries(v), k, snap);
  }

  lemma {:induction false} RestUnique(rest0: set<Entry>, rest: set<Entry>)
    requires rest0 <= rest && UniqueSeqnos(rest)
    ensures UniqueSeqnos(rest0)
  {
  }

  /** One answer, from the two conditions. */
  lemma {:induction false} AnswerKept(v: Levels, v2: Levels, level: nat, inputs: set<Entry>, rest0: set<Entry>,
          out: set<Entry>, merged: seq<Entry>, smallestSnapshot: nat, inputVersion: Levels, k: UserKey, snap: nat,
          found: Option<Entry>)
    requires Compacted(v, v2, level, inputs, rest0, out, merged, smallestSnapshot, inputVersion)
    requires Finds(v2, k, snap, found) && snap >= smallestSnapshot
    requires NothingUncovered(AllEntries(v) - inputs, merged, smallestSnapshot, inputVersion, level)
    requires NothingOlderFound(rest0, AllEntries(v) - inputs, merged, smallestSnapshot, inputVersion, level)
    ensures Outcome(found) == Read(AllEntries(v), k, snap)
  {
    var rest := AllEntries(v) - inputs;
    CompactedParts(v, v2, level, inputs, rest0, out, merged, smallestSnapshot, inputVersion);
    hide *;
    NewestExists(AllEntries(v), k, snap);
    ReadIs(AllEntries(v), k, snap);
    if Newest(AllEntries(v), k, snap).Some? {
      var x := NewestOf(AllEntries(v), k, snap);
      MergedOrNot(AllEntries(v), merged, inputs, k, snap, x);
      if x !in inputs {
        OutsideFound(v, v2, level, inputs, rest0, out, k, snap, x, found);
      } else if Survives(merged, x, smallestSnapshot, inputVersion, level) {
        FoundSurvivor(v, v2, level, inputs, rest0, out, merged, smallestSnapshot, inputVersion, k, snap, x, found);
        SurvivorSeen(rest, merged, smallestSnapshot, inputVersion, level, k, snap, x);
        OlderFoundAt(rest0, rest, merged, smallestSnapshot, inputVersion, level, k, snap, x);
      } else {
        DroppedNewest(rest, merged, smallestSnapshot, inputVersion, level, k, snap, x);
        FoundUnder(v, v2, level, inputs, rest0, out, merged, smallestSnapshot, inputVersion, k, snap, x, found);
        UncoveredAt(rest, merged, smallestSnapshot, inputVersion, level, k, snap, x);
      }
    } else {
      InstalledShrinks(v, v2, level, inputs, rest0, out);
      NothingFound(v, v2, k, snap, found);
    }
  }

  lemma {:induction false} MergedOrNot(all: set<Entry>, merged: seq<Entry>, inputs: set<Entry>, k: UserKey, snap: nat,
      x: Entry)
    requires Elems(merged) == inputs && IsNewest(all, k, snap, x)
    ensures x in inputs <==> x in merged
    ensures x in all
  {
  }

  lemma {:induction false} NothingFound(v: Levels, v2: Levels, k: UserKey, snap: nat, found: Option<Entry>)
    requires AllEntries(v2) <= AllEntries(v) && Newest(AllEntries(v), k, snap).None? && Finds(v2, k, snap, found)
    ensures found.None? && Outcome(found) == Outcome(None)
  {
    NewestExists(AllEntries(v), k, snap);
    FoundIsVisible(v2, k, snap, found);
    hide Finds;
    hide AllEntries;
    hide Newest;
  }

  lemma {:induction false} FoundIsVisible(v: Levels, k: UserKey, snap: nat, found: Option<Entry>)
    requires Finds(v, k, snap, found)
    ensures found.Some? ==> found.value in AllEntries(v) && Visible(found.value, k, snap)
  {
  }

  lemma {:induction false} SurvivorSeen(rest: set<Entry>, merged: seq<Entry>, smallestSnapshot: nat,
          inputVersion: Levels, level: nat, k: UserKey, snap: nat, x: Entry)
    requires IsNewest(Elems(merged) + rest, k, snap, x) && snap >= smallestSnapshot
    requires Survives(merged, x, smallestSnapshot, inputVersion, level)
    ensures Seen(rest, merged, x, smallestSnapshot, inputVersion, level)
  {
    hide Survives;
    forall r | r in rest && r.ikey.user == x.ikey.user ensures !(x.ikey.seqno < r.ikey.seqno <= smallestSnapshot) {
      assert r in Elems(merged) + rest;
    }
  }

  lemma {:induction false} OlderFoundAt(rest0: set<Entry>, rest: set<Entry>, merged: seq<Entry>, smallestSnapshot: nat,
          inputVersion: Levels, level: nat, k: UserKey, snap: nat, x: Entry)
    requires NothingOlderFound(rest0, rest, merged, smallestSnapshot, inputVersion, level)
    requires Seen(rest, merged, x, smallestSnapshot, inputVersion, level) && IsNewest(Elems(merged) + rest, k, snap, x)
    ensures var older := Newest(rest0, k, x.ikey.seqno); older.None? || Outcome(older) == Outcome(Some(x))
  {
    hide Seen;
    hide Newest;
    hide Outcome;
  }

  /** A search always ends. */
  lemma {:induction false} SomethingFound(v: Levels, k: UserKey, snap: nat) returns (found: Option<Entry>)
    ensures Finds(v, k, snap, found)
  {
    if l, x :| 0 <= l < |v| && x in EntriesOf(v[l]) && Visible(x, k, snap) {
      var lv, e := SearchEnds(v, l, k, snap, x);
      found := Some(e);
    } else {
      found := None;
    }
  }

  lemma {:induction false} KeptAt(v: Levels, v2: Levels, smallestSnapshot: nat, k: UserKey, snap: nat,
      found: Option<Entry>)
    requires AnswersKept(v, v2, smallestSnapshot) && snap >= smallestSnapshot && Finds(v2, k, snap, found)
    ensures Outcome(found) == Read(AllEntries(v), k, snap)
  {
    hide Finds;
    hide Read;
    hide Outcome;
  }

  lemma {:induction false} AnswersUncoverNothing(v: Levels, v2: Levels, level: nat, inputs: set<Entry>,
          rest0: set<Entry>, out: set<Entry>, merged: seq<Entry>, smallestSnapshot: nat, inputVersion: Levels, x: Entry)
    requires Compacted(v, v2, level, inputs, rest0, out, merged, smallestSnapshot, inputVersion)
    requires AnswersKept(v, v2, smallestSnapshot)
    requires Uncovering(AllEntries(v) - inputs, merged, x, smallestSnapshot, inputVersion, level)
    ensures Read(AllEntries(v) - inputs, x.ikey.user, x.ikey.seqno) == None
  {
    var rest, k := AllEntries(v) - inputs, x.ikey.user;
    CompactedParts(v, v2, level, inputs, rest0, out, merged, smallestSnapshot, inputVersion);
    hide *;
    ObsoleteIsOld(rest, merged, smallestSnapshot, inputVersion, level, x);
    var snap := UnhiddenNewest(rest, merged, smallestSnapshot, x);
    var found := SomethingFound(v2, k, snap);
    FoundUnder(v, v2, level, inputs, rest0, out, merged, smallestSnapshot, inputVersion, k, snap, x, found);
    KeptAt(v, v2, smallestSnapshot, k, snap, found);
  }

  lemma {:induction false} SeenParts(rest: set<Entry>, merged: seq<Entry>, x: Entry, smallestSnapshot: nat,
          inputVersion: Levels, level: nat)
    requires Seen(rest, merged, x, smallestSnapshot, inputVersion, level)
    ensures x in merged && !Shadowed(merged, x, smallestSnapshot) && Exposed(rest, x, smallestSnapshot)
    ensures Survives(merged, x, smallestSnapshot, inputVersion, level)
  {
    hide Shadowed;
    hide Obsolete;
    hide Exposed;
  }

  lemma {:induction false} AnswersFindNothingOlder(v: Levels, v2: Levels, level: nat, inputs: set<Entry>,
          rest0: set<Entry>, out: set<Entry>, merged: seq<Entry>, smallestSnapshot: nat, inputVersion: Levels, x: Entry)
    requires Compacted(v, v2, level, inputs, rest0, out, merged, smallestSnapshot, inputVersion)
    requires AnswersKept(v, v2, smallestSnapshot)
    requires Seen(AllEntries(v) - inputs, merged, x, smallestSnapshot, inputVersion, level)
    ensures var older := Newest(rest0, x.ikey.user, x.ikey.seqno); older.None? || Outcome(older) == Outcome(Some(x))
  {
    var rest, k := AllEntries(v) - inputs, x.ikey.user;
    CompactedParts(v, v2, level, inputs, rest0, out, merged, smallestSnapshot, inputVersion);
    hide *;
    SeenParts(rest, merged, x, smallestSnapshot, inputVersion, level);
    var snap := UnhiddenNewest(rest, merged, smallestSnapshot, x);
    var found := SomethingFound(v2, k, snap);
    FoundSurvivor(v, v2, level, inputs, rest0, out, merged, smallestSnapshot, inputVersion, k, snap, x, found);
    KeptAt(v, v2, smallestSnapshot, k, snap, found);
  }

  lemma {:induction false} AnswersKeptIff(v: Levels, v2: Levels, level: nat, inputs: set<Entry>, rest0: set<Entry>,
          out: set<Entry>, merged: seq<Entry>, smallestSnapshot: nat, inputVersion: Levels)
    requires Compacted(v, v2, level, inputs, rest0, out, merged, smallestSnapshot, inputVersion)
    ensures AnswersKept(v, v2, smallestSnapshot) <==>
              && NothingUncovered(AllEntries(v) - inputs, merged, smallestSnapshot, inputVersion, level)
              && NothingOlderFound(rest0, AllEntries(v) - inputs, merged, smallestSnapshot, inputVersion, level)
  {
    var rest := AllEntries(v) - inputs;
    hide Compacted;
    hide Finds;
    hide Read;
    hide Uncovering;
    hide Seen;
    hide Newest;
    hide Outcome;
    if AnswersKept(v, v2, smallestSnapshot) {
      forall x | Uncovering(rest, merged, x, smallestSnapshot, inputVersion, level)
        ensures Read(rest, x.ikey.user, x.ikey.seqno) == None
      {
        AnswersUncoverNothing(v, v2, level, inputs, rest0, out, merged, smallestSnapshot, inputVersion, x);
      }
      forall x | Seen(rest, merged, x, smallestSnapshot, inputVersion, level)
        ensures var older := Newest(rest0, x.ikey.user, x.ikey.seqno); older.None? || Outcome(older) == Outcome(Some(x))
      {
        AnswersFindNothingOlder(v, v2, level, inputs, rest0, out, merged, smallestSnapshot, inputVersion, x);
      }
    }
    if NothingUncovered(rest, merged, smallestSnapshot, inputVersion, level)
       && NothingOlderFound(rest0, rest, merged, smallestSnapshot, inputVersion, level) {
      forall k, snap: nat, found | snap >= smallestSnapshot && Finds(v2, k, snap, found)
        ensures Outcome(found) == Read(AllEntries(v), k, snap)
      {
        AnswerKept(v, v2, level, inputs, rest0, out, merged, smallestSnapshot, inputVersion, k, snap, found);
      }
    }
  }

  /**
   After a compaction is installed, every answer Version::Get gives a live reader is the read before it if and only if
   no deletion it drops uncovers a value, and no file left at level L answers for a surviving input with another value.
   */
  lemma {:induction false} CompactionAnswersIff(v: Levels, v2: Levels, level: nat, in0: seq<File>, in1: seq<File>,
          outs: seq<File>, merged: seq<Entry>, smallestSnapshot: nat, inputVersion: Levels)
    requires Ok(v) && Install(v, v2, level, in0, in1, outs)
    requires SortedEntries(merged) && Elems(merged) == InputEntries(in0, in1)
    requires EntriesOf(outs) == Elems(Kept(merged, |merged|, smallestSnapshot, inputVersion, level))
    ensures AnswersKept(v, v2, smallestSnapshot) <==>
              && NothingUncovered(Outside(v, in0, in1), merged, smallestSnapshot, inputVersion, level)
              && NothingOlderFound(RestOf(v[level], in0), Outside(v, in0, in1), merged, smallestSnapshot, inputVersion,
                  level)
  {
    var inputs, rest0, out := InputEntries(in0, in1), RestOf(v[level], in0), EntriesOf(outs);
    assert KeptSet(merged, smallestSnapshot, inputVersion, level) == out;
    hide Kept;
    hide KeptSet;
    InstalledSets(v, v2, level, in0, in1, outs);
    InstalledEntries(v, v2, level, in0, in1, outs);
    hide Ok;
    hide Install;
    hide Installed;
    hide RestOf;
    hide InputEntries;
    hide AllEntries;
    hide AnswersKept;
    hide NothingUncovered;
    hide NothingOlderFound;
    AnswersKeptIff(v, v2, level, inputs, rest0, out, merged, smallestSnapshot, inputVersion);
  }
}
