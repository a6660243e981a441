/**
 One compaction: which entries of the merged inputs survive, where the outputs are cut, and the two
 monotone cursors (IsBaseLevelForKey, ShouldStopBefore) that decide it.
 */
module Compactions {
  import opened Entries
  import opened Files
  import opened Versions

  /** No level below the compaction's output level has a file whose range holds k: the full scan. */
  ghost predicate BaseLevelFor(v: Levels, level: nat, k: UserKey) {
    forall lv, f :: level + 2 <= lv < |v| && f in v[lv] ==> !Covers(f, k)
  }

  // ----- which entries survive

  /**
   Rule (A): hidden by the preceding, newer entry of the same key, itself at or below the smallest snapshot.
   Rule (B): a deletion at or below the smallest snapshot with nothing deeper to hide.
   */
  ghost predicate Dropped(es: seq<Entry>, i: nat, smallestSnapshot: nat, v: Levels, level: nat)
    requires i < |es|
  {
    || (i > 0 && es[i - 1].ikey.user == es[i].ikey.user && es[i - 1].ikey.seqno <= smallestSnapshot)
    || (es[i].ikey.kind.Deletion? && es[i].ikey.seqno <= smallestSnapshot && BaseLevelFor(v, level, es[i].ikey.user))
  }

  ghost function Kept(es: seq<Entry>, n: nat, smallestSnapshot: nat, v: Levels, level: nat): seq<Entry>
    requires n <= |es|
  {
    if n == 0 then []
    else
      var before := Kept(es, n - 1, smallestSnapshot, v, level);
      if Dropped(es, n - 1, smallestSnapshot, v, level) then before else before + [es[n - 1]]
  }

  function Concat(parts: seq<seq<Entry>>): seq<Entry> {
    if parts == [] then [] else Concat(parts[..|parts| - 1]) + parts[|parts| - 1]
  }

  // ----- grandparent bytes

  /** Total size of the files that end in [k1, kn). */
  function BytesBetween(files: seq<File>, k1: InternalKey, kn: InternalKey): nat {
    if files == [] then 0
    else
      var f := files[|files| - 1];
      BytesBetween(files[..|files| - 1], k1, kn) + (if !Less(f.largest, k1) && Less(f.largest, kn) then f.size else 0)
  }

  lemma {:induction false} BytesBetweenAdds(files: seq<File>, k1: InternalKey, k2: InternalKey, k3: InternalKey)
    requires AtMost(k1, k2) && AtMost(k2, k3)
    ensures BytesBetween(files, k1, k3) == BytesBetween(files, k1, k2) + BytesBetween(files, k2, k3)
  {
    if files != [] {
      BytesBetweenAdds(files[..|files| - 1], k1, k2, k3);
    }
  }

  lemma {:induction false} BytesBetweenTail(files: seq<File>, i: nat, k1: InternalKey, kn: InternalKey)
    requires i <= |files| && forall j :: i <= j < |files| ==> !Less(files[j].largest, kn)
    ensures BytesBetween(files, k1, kn) == BytesBetween(files[..i], k1, kn)
    decreases |files|
  {
    if i < |files| {
      var front := files[..|files| - 1];
      BytesBetweenTail(front, i, k1, kn);
      assert front[..i] == files[..i];
    } else {
      assert files[..i] == files;
    }
  }

  lemma {:induction false} BytesBetweenPrefix(files: seq<File>, i: nat, k1: InternalKey, kn: InternalKey)
    requires i <= |files| && forall j :: 0 <= j < i ==> Less(files[j].largest, k1)
    ensures BytesBetween(files[..i], k1, kn) == 0
  {
    if i > 0 {
      BytesBetweenPrefix(files, i - 1, k1, kn);
      assert files[..i][..i - 1] == files[..i - 1];
    }
  }

  predicate SortedByLargest(files: seq<File>) {
    forall i, j :: 0 <= i < j < |files| ==> Less(files[i].largest, files[j].largest)
  }

  class Compaction {
    const inputVersion: Levels
    const level: nat
    const in0: seq<File>
    const in1: seq<File>
    const grandparents: seq<File>
    const targetFileSize: nat
    // cursor of ShouldStopBefore
    var grandparentIndex: nat
    var seenKey: bool
    var overlappedBytes: nat
    // cursors of IsBaseLevelForKey
    var levelPtrs: seq<nat>

    constructor (inputVersion: Levels, level: nat, in0: seq<File>, in1: seq<File>, grandparents: seq<File>,
        targetFileSize: nat)
      ensures this.inputVersion == inputVersion && this.level == level && this.in0 == in0 && this.in1 == in1
      ensures this.grandparents == grandparents && this.targetFileSize == targetFileSize
      ensures Fresh()
    {
      this.inputVersion, this.level, this.in0, this.in1 := inputVersion, level, in0, in1;
      this.grandparents, this.targetFileSize := grandparents, targetFileSize;
      grandparentIndex, seenKey, overlappedBytes, levelPtrs := 0, false, 0, seq(NUM_LEVELS, _ => 0);
    }

    predicate Fresh()
      reads this
    {
      grandparentIndex == 0 && !seenKey && overlappedBytes == 0 && levelPtrs == seq(NUM_LEVELS, _ => 0)
    }

    function MaxGrandParentOverlapBytes(): nat { 10 * targetFileSize }

    /** A single file with no level-L+1 overlap and few grandparent bytes just moves down. */
    predicate IsTrivialMove() {
      |in0| == 1 && |in1| == 0 && TotalFileSize(grandparents) <= MaxGrandParentOverlapBytes()
    }

    ghost predicate SortedLevels() {
      ValidLevels(inputVersion) && forall lv :: 0 < lv < |inputVersion| ==> SortedDisjoint(inputVersion[lv])
    }

    /** Every file the cursors have passed ends before k. */
    ghost predicate CursorsBefore(k: UserKey)
      reads this
    {
      && |levelPtrs| == |inputVersion| == NUM_LEVELS
      && forall lv :: level + 2 <= lv < NUM_LEVELS ==>
           levelPtrs[lv] <= |inputVersion[lv]| &&
           forall j :: 0 <= j < levelPtrs[lv] ==> inputVersion[lv][j].largest.user < k
    }

    /** One level of the loop in IsBaseLevelForKey: advance past files ending before k, then test one file. */
    method AdvanceCursor(lv: nat, k: UserKey) returns (inFile: bool)
      requires SortedLevels() && level + 2 <= lv < NUM_LEVELS && CursorsBefore(k)
      modifies this`levelPtrs
      ensures CursorsBefore(k)
      ensures inFile <==> exists f :: f in inputVersion[lv] && Covers(f, k)
    {
      var files := inputVersion[lv];
      while levelPtrs[lv] < |files|
        invariant CursorsBefore(k)
        decreases |files| - levelPtrs[lv]
      {
        var f := files[levelPtrs[lv]];
        if k <= f.largest.user {
          if f.smallest.user <= k {
            assert f in files && Covers(f, k);
            return true;
          }
          StartsAfter(files, levelPtrs[lv], k);
          return false;
        }
        levelPtrs := levelPtrs[lv := levelPtrs[lv] + 1];
      }
      inFile := false;
    }

    /** version_set.cc Compaction::IsBaseLevelForKey: the cursors give the same answer as a full scan. */
    method IsBaseLevelForKey(k: UserKey) returns (r: bool)
      requires SortedLevels() && CursorsBefore(k)
      modifies this`levelPtrs
      ensures CursorsBefore(k)
      ensures r <==> BaseLevelFor(inputVersion, level, k)
    {
      var lv := level + 2;
      while lv < NUM_LEVELS
        invariant level + 2 <= lv
        invariant CursorsBefore(k)
        invariant forall l, f :: level + 2 <= l < lv && l < NUM_LEVELS && f in inputVersion[l] ==> !Covers(f, k)
      {
        var inFile := AdvanceCursor(lv, k);
        if inFile {
          return false;
        }
        lv := lv + 1;
      }
      r := true;
    }

    /** The grandparent cursor stands at the first grandparent ending at or after the last key seen. */
    ghost predicate AtGrandparent(key: InternalKey)
      reads this
    {
      && grandparentIndex <= |grandparents|
      && (forall j :: 0 <= j < grandparentIndex ==> Less(grandparents[j].largest, key))
      && (grandparentIndex < |grandparents| ==> !Less(grandparents[grandparentIndex].largest, key))
    }

    /**
     version_set.cc Compaction::ShouldStopBefore: counts the grandparent bytes passed since the last stop
     (`prev` is the previous key shown to it).
     */
    method ShouldStopBefore(key: InternalKey, ghost prev: InternalKey) returns (stop: bool)
      requires SortedByLargest(grandparents)
      requires !seenKey ==> grandparentIndex == 0
      requires seenKey ==> AtGrandparent(prev) && AtMost(prev, key)
      modifies this`grandparentIndex, this`seenKey, this`overlappedBytes
      ensures seenKey && AtGrandparent(key)
      ensures var total := old(overlappedBytes) + (if old(seenKey) then BytesBetween(grandparents, prev, key) else 0);
              stop == (total > MaxGrandParentOverlapBytes()) && overlappedBytes == if stop then 0 else total
    {
      ghost var start := grandparentIndex;
      if seenKey {
        BytesBetweenPrefix(grandparents, start, prev, key);
      }
      while grandparentIndex < |grandparents| && Less(grandparents[grandparentIndex].largest, key)
        invariant start <= grandparentIndex <= |grandparents|
        invariant seenKey == old(seenKey)
        invariant forall j :: 0 <= j < grandparentIndex ==> Less(grandparents[j].largest, key)
        invariant overlappedBytes == old(overlappedBytes) +
          (if seenKey then BytesBetween(grandparents[..grandparentIndex], prev, key) else 0)
      {
        var g := grandparents[grandparentIndex];
        if seenKey {
          overlappedBytes := overlappedBytes + g.size;
        }
        assert grandparents[..grandparentIndex + 1][..grandparentIndex] == grandparents[..grandparentIndex];
        grandparentIndex := grandparentIndex + 1;
      }
      BytesBetweenTail(grandparents, grandparentIndex, prev, key);
      seenKey := true;
      if overlappedBytes > MaxGrandParentOverlapBytes() {
        overlappedBytes := 0;
        return true;
      }
      stop := false;
    }
  }

  /** If the file at the cursor starts after k, no file of the level holds k. */
  lemma {:induction false} StartsAfter(files: seq<File>, ptr: nat, k: UserKey)
    requires ValidFiles(files) && SortedDisjoint(files) && ptr < |files| && k < files[ptr].smallest.user
    requires forall j :: 0 <= j < ptr ==> files[j].largest.user < k
    ensures forall f :: f in files ==> !Covers(f, k)
  {
    forall f | f in files ensures !Covers(f, k) {
      var i :| 0 <= i < |files| && files[i] == f;
      if i > ptr {
        assert files[ptr] in files;
        FileBounds(files[ptr], files[ptr].entries[0]);
        assert Less(files[ptr].largest, files[i].smallest);
      }
    }
  }
}
