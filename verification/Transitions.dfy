/**
 How a version changes: a memtable flush adds one file, a trivial move shifts one file down, a compaction
 replaces its inputs by its outputs. Each keeps the invariant `Ok` that level-by-level reads rely on.
 */
module Transitions {
  import opened Entries
  import opened Files
  import opened Versions

  /** The order VersionSet::Builder keeps within a level: by smallest key, ties by file number. */
  predicate SortedBySmallest(files: seq<File>) {
    forall i, j :: 0 <= i < j < |files| ==>
      Less(files[i].smallest, files[j].smallest) ||
      (files[i].smallest == files[j].smallest && files[i].number < files[j].number)
  }

  /** One level after an edit: some files removed, some added, in builder order. */
  ghost predicate LevelEdited(files: seq<File>, files2: seq<File>, removed: set<File>, added: set<File>) {
    Elems(files2) == Elems(files) - removed + added && SortedBySmallest(files2)
  }

  ghost predicate SameExcept(v: Levels, v2: Levels, levels: set<nat>) {
    |v2| == |v| && forall lv :: 0 <= lv < |v| && lv !in levels ==> v2[lv] == v[lv]
  }

  predicate Apart(f: File, g: File) {
    Less(f.largest, g.smallest) || Less(g.largest, f.smallest)
  }

  lemma {:induction false} SortedAndApart(files: seq<File>)
    requires ValidFiles(files) && SortedBySmallest(files)
    requires forall f, g :: f in files && g in files && f != g ==> Apart(f, g)
    ensures SortedDisjoint(files)
  {
    forall i, j | 0 <= i < j < |files| ensures Less(files[i].largest, files[j].smallest) {
      var f, g := files[i], files[j];
      assert f in files && g in files && Apart(f, g);
      FileBounds(f, f.entries[0]);
      FileBounds(g, g.entries[0]);
    }
  }

  lemma {:induction false} DisjointAreApart(files: seq<File>, f: File, g: File)
    requires SortedDisjoint(files) && f in files && g in files && f != g
    ensures Apart(f, g)
  {
    var i :| 0 <= i < |files| && files[i] == f;
    var j :| 0 <= j < |files| && files[j] == g;
  }

  lemma {:induction false} NewerThanSubset(a: set<Entry>, b: set<Entry>, a2: set<Entry>, b2: set<Entry>)
    requires NewerThan(a, b) && a2 <= a && b2 <= b
    ensures NewerThan(a2, b2)
  {
  }

  lemma {:induction false} NewerThanUnion(a: set<Entry>, b: set<Entry>, c: set<Entry>)
    ensures NewerThan(a, b) && NewerThan(a, c) ==> NewerThan(a, b + c)
    ensures NewerThan(a, c) && NewerThan(b, c) ==> NewerThan(a + b, c)
  {
  }

  /** Files with no common user key are vacuously ordered. */
  lemma {:induction false} NoOverlapNewerThan(files: seq<File>, f: File)
    requires ValidFiles(files) && ValidFile(f) && !SomeOverlap(files, Some(f.smallest.user), Some(f.largest.user))
    ensures NewerThan(EntriesOf(files), Elems(f.entries))
  {
    forall x, y | x in EntriesOf(files) && y in Elems(f.entries) ensures x.ikey.user != y.ikey.user {
      var g :| g in files && x in g.entries;
      FileBounds(g, x);
      FileBounds(f, y);
      assert !Overlaps(g, Some(f.smallest.user), Some(f.largest.user));
    }
  }

  // ----- flush

  /** Where WriteLevel0Table puts a flushed memtable: level 0, or a level reached without meeting an overlap. */
  ghost predicate Placeable(v: Levels, level: nat, f: File) {
    && level <= MAX_MEM_COMPACT_LEVEL
    && |v| == NUM_LEVELS
    && (level > 0 ==> forall l :: 0 <= l <= level ==> !SomeOverlap(v[l], Some(f.smallest.user), Some(f.largest.user)))
  }

  predicate NewestNumber(files: seq<File>, number: nat) {
    forall g :: g in files ==> g.number < number
  }

  ghost predicate Flush(v: Levels, v2: Levels, level: nat, f: File) {
    FlushPlaced(v, v2, level, f) && (level == 0 ==> NewestNumber(v[0], f.number))
  }

  /** The version after the memtable's table is added. */
  ghost predicate FlushPlaced(v: Levels, v2: Levels, level: nat, f: File) {
    && ValidFile(f) && Placeable(v, level, f)
    && SameExcept(v, v2, {level}) && LevelEdited(v[level], v2[level], {}, {f})
  }

  lemma {:induction false} FlushEntries(v: Levels, v2: Levels, level: nat, f: File)
    requires Flush(v, v2, level, f)
    ensures EntriesOf(v2[level]) == EntriesOf(v[level]) + Elems(f.entries)
    ensures AllEntries(v2) == AllEntries(v) + Elems(f.entries)
  {
    forall e ensures e in EntriesOf(v2[level]) <==> e in EntriesOf(v[level]) || e in f.entries {
      assert forall g :: g in v2[level] <==> g in Elems(v2[level]);
      assert forall g :: g in v[level] <==> g in Elems(v[level]);
    }
    forall e ensures e in AllEntries(v2) <==> e in AllEntries(v) || e in f.entries {
      if e in AllEntries(v) {
        var lv :| 0 <= lv < |v| && e in EntriesOf(v[lv]);
        assert e in EntriesOf(v2[lv]);
      }
      if e in f.entries {
        assert e in EntriesOf(v2[level]);
      }
    }
  }

  /** Level i of `sets` is newer than level j whenever i < j. */
  ghost predicate Descending(sets: seq<set<Entry>>) {
    forall i, j :: 0 <= i < j < |sets| ==> NewerThan(sets[i], sets[j])
  }

  ghost function LevelSets(v: Levels): (r: seq<set<Entry>>)
    ensures |r| == |v|
    ensures forall i :: 0 <= i < |v| ==> r[i] == EntriesOf(v[i])
  {
    seq(|v|, i requires 0 <= i < |v| => EntriesOf(v[i]))
  }

  lemma {:induction false} DescendingLevels(v: Levels)
    ensures Descending(LevelSets(v)) <==> DeeperIsOlder(v)
  {
    if DeeperIsOlder(v) {
      forall i, j | 0 <= i < j < |v| ensures NewerThan(LevelSets(v)[i], LevelSets(v)[j]) {
        assert NewerThan(EntriesOf(v[i]), EntriesOf(v[j]));
      }
    }
    if Descending(LevelSets(v)) {
      forall i, j | 0 <= i < j < |v| ensures NewerThan(EntriesOf(v[i]), EntriesOf(v[j])) {
        assert NewerThan(LevelSets(v)[i], LevelSets(v)[j]);
      }
    }
  }

  /** Adding to one level entries newer than everything deeper and older than everything shallower. */
  lemma {:induction false} DescendingAdd(sets: seq<set<Entry>>, level: nat, s: set<Entry>)
    requires Descending(sets) && level < |sets|
    requires forall i :: 0 <= i < level ==> NewerThan(sets[i], s)
    requires forall j :: level < j < |sets| ==> NewerThan(s, sets[j])
    ensures Descending(sets[level := sets[level] + s])
  {
    var sets2 := sets[level := sets[level] + s];
    forall i, j | 0 <= i < j < |sets2| ensures NewerThan(sets2[i], sets2[j]) {
      assert NewerThan(sets[i], sets[j]);
      if i == level {
        NewerThanUnion(sets[i], s, sets[j]);
      } else if j == level {
        NewerThanUnion(sets[i], sets[j], s);
      }
    }
  }

  lemma {:induction false} DescendingRemove(sets: seq<set<Entry>>, level: nat, s: set<Entry>)
    requires Descending(sets) && level < |sets| && s <= sets[level]
    ensures Descending(sets[level := s])
  {
    var sets2 := sets[level := s];
    forall i, j | 0 <= i < j < |sets2| ensures NewerThan(sets2[i], sets2[j]) {
      assert NewerThan(sets[i], sets[j]);
    }
  }

  lemma {:induction false} FlushKeepsOrder(v: Levels, v2: Levels, level: nat, f: File)
    requires Flush(v, v2, level, f) && ValidLevels(v) && DeeperIsOlder(v)
    requires NewerThan(Elems(f.entries), AllEntries(v))
    ensures DeeperIsOlder(v2)
  {
    var s := Elems(f.entries);
    FlushEntries(v, v2, level, f);
    DescendingLevels(v);
    forall i | 0 <= i < level ensures NewerThan(LevelSets(v)[i], s) {
      NoOverlapNewerThan(v[i], f);
    }
    forall j | level < j < |v| ensures NewerThan(s, LevelSets(v)[j]) {
      assert EntriesOf(v[j]) <= AllEntries(v);
    }
    DescendingAdd(LevelSets(v), level, s);
    assert LevelSets(v2) == LevelSets(v)[level := EntriesOf(v[level]) + s];
    DescendingLevels(v2);
  }

  lemma {:induction false} FlushKeepsLevel(v: Levels, v2: Levels, level: nat, f: File)
    requires Flush(v, v2, level, f) && Ok(v)
    requires NewerThan(Elems(f.entries), AllEntries(v))
    ensures ValidFiles(v2[level])
    ensures level > 0 ==> SortedDisjoint(v2[level])
    ensures level == 0 ==> DistinctNumbers(v2[0]) && NewerNumberIsNewer(v2[0])
  {
    assert forall g :: g in v2[level] ==> g in Elems(v2[level]);
    assert forall g :: g in v2[level] ==> g in v[level] || g == f;
    if level > 0 {
      forall g, h | g in v2[level] && h in v2[level] && g != h ensures Apart(g, h) {
        if g == f {
          assert !Overlaps(h, Some(f.smallest.user), Some(f.largest.user));
        } else if h == f {
          assert !Overlaps(g, Some(f.smallest.user), Some(f.largest.user));
        } else {
          DisjointAreApart(v[level], g, h);
        }
      }
      SortedAndApart(v2[level]);
    } else {
      forall i, j | 0 <= i < j < |v2[0]| ensures v2[0][i].number != v2[0][j].number {
        var g, h := v2[0][i], v2[0][j];
        assert g in v2[0] && h in v2[0] && g != h;
        if g != f && h != f {
          DistinctFiles(v[0], g, h);
        }
      }
      forall g, h | g in v2[0] && h in v2[0] && g.number > h.number
        ensures NewerThan(Elems(g.entries), Elems(h.entries))
      {
        if g == f {
          assert Elems(h.entries) <= EntriesOf(v[0]) <= AllEntries(v);
        }
      }
    }
  }

  /** A flush of entries newer than the version keeps the version searchable. */
  lemma {:induction false} FlushKeepsOk(v: Levels, v2: Levels, level: nat, f: File)
    requires Ok(v) && Flush(v, v2, level, f)
    requires NewerThan(Elems(f.entries), AllEntries(v)) && UniqueSeqnos(AllEntries(v) + Elems(f.entries))
    ensures Ok(v2)
    ensures AllEntries(v2) == AllEntries(v) + Elems(f.entries)
  {
    hide LevelEdited;
    hide Placeable;
    hide DeeperIsOlder;
    hide NewerNumberIsNewer;
    hide UniqueSeqnos;
    hide SortedDisjoint;
    FlushEntries(v, v2, level, f);
    FlushKeepsOrder(v, v2, level, f);
    FlushKeepsLevel(v, v2, level, f);
  }

  // ----- compaction

  ghost function InputEntries(in0: seq<File>, in1: seq<File>): set<Entry> {
    EntriesOf(in0) + EntriesOf(in1)
  }

  /** The entries of a level held by files outside `inputs`. */
  ghost function RestOf(files: seq<File>, inputs: seq<File>): set<Entry> {
    set f, e | f in files && f !in inputs && e in f.entries :: e
  }

  /** All of g lies before, or all of g lies after, every entry of s. */
  ghost predicate Beside(g: File, s: set<Entry>) {
    || (forall x :: x in s ==> Less(g.largest, x.ikey))
    || (forall x :: x in s ==> Less(x.ikey, g.smallest))
  }

  ghost predicate OthersBeside(files: seq<File>, inputs: seq<File>, s: set<Entry>) {
    forall g :: g in files && g !in inputs ==> Beside(g, s)
  }

  /**
   The inputs are closed: whatever the other files of level L (or of level L+1) hold of an input key of that
   level is newer than the input's. PickCompaction establishes the first half only at level 0 and the second at none.
   */
  ghost predicate Closed(v: Levels, level: nat, in0: seq<File>, in1: seq<File>)
    requires level + 1 < |v|
  {
    && NewerThan(RestOf(v[level], in0), EntriesOf(in0))
    && NewerThan(RestOf(v[level + 1], in1), EntriesOf(in1))
  }

  /** The input files are in place and their merged range is free of other level-L+1 files. */
  ghost predicate Ready(v: Levels, level: nat, in0: seq<File>, in1: seq<File>) {
    && level + 1 < |v| == NUM_LEVELS
    && Elems(in0) <= Elems(v[level]) && Elems(in1) <= Elems(v[level + 1])
    && OthersBeside(v[level + 1], in1, InputEntries(in0, in1))
  }

  ghost predicate Install(v: Levels, v2: Levels, level: nat, in0: seq<File>, in1: seq<File>, outs: seq<File>) {
    && Ready(v, level, in0, in1)
    && ValidFiles(outs) && SortedDisjoint(outs) && EntriesOf(outs) <= InputEntries(in0, in1)
    && SameExcept(v, v2, {level, level + 1})
    && LevelEdited(v[level], v2[level], Elems(in0), {})
    && LevelEdited(v[level + 1], v2[level + 1], Elems(in1), Elems(outs))
  }

  lemma {:induction false} EditedEntries(files: seq<File>, files2: seq<File>, inputs: seq<File>, outs: seq<File>)
    requires LevelEdited(files, files2, Elems(inputs), Elems(outs))
    ensures EntriesOf(files2) == RestOf(files, inputs) + EntriesOf(outs)
    ensures forall f :: f in files2 <==> (f in files && f !in inputs) || f in outs
  {
    forall f ensures f in files2 <==> (f in files && f !in inputs) || f in outs {
      assert f in files2 <==> f in Elems(files2);
    }
  }

  lemma {:induction false} InstallLevelSets(v: Levels, v2: Levels, level: nat, in0: seq<File>, in1: seq<File>,
          outs: seq<File>)
    requires Install(v, v2, level, in0, in1, outs)
    ensures LevelSets(v2) ==
        LevelSets(v)[level := RestOf(v[level], in0)][level + 1 := RestOf(v[level + 1], in1) + EntriesOf(outs)]
  {
    EditedEntries(v[level], v2[level], in0, []);
    EditedEntries(v[level + 1], v2[level + 1], in1, outs);
    assert EntriesOf([]) == {};
    assert LevelSets(v2)[level] == RestOf(v[level], in0);
  }

  lemma {:induction false} EntriesOfSubset(a: seq<File>, b: seq<File>)
    requires Elems(a) <= Elems(b)
    ensures EntriesOf(a) <= EntriesOf(b)
  {
    forall e | e in EntriesOf(a) ensures e in EntriesOf(b) {
      var f :| f in a && e in f.entries;
      assert f in Elems(a);
      assert f in b;
    }
  }

  /** The level order survives exactly when what stays behind at level L is newer than what moves down. */
  lemma {:induction false} InstallKeepsOrder(v: Levels, v2: Levels, level: nat, in0: seq<File>, in1: seq<File>,
          outs: seq<File>)
    requires Install(v, v2, level, in0, in1, outs) && DeeperIsOlder(v)
    ensures DeeperIsOlder(v2) <==> NewerThan(RestOf(v[level], in0), EntriesOf(outs))
  {
    InstallLevelSets(v, v2, level, in0, in1, outs);
    DescendingLevels(v2);
    if NewerThan(RestOf(v[level], in0), EntriesOf(outs)) {
      InstallDescending(v, level, in0, in1, outs);
    }
    if DeeperIsOlder(v2) {
      assert NewerThan(LevelSets(v2)[level], LevelSets(v2)[level + 1]);
      NewerThanSubset(LevelSets(v2)[level], LevelSets(v2)[level + 1], RestOf(v[level], in0), EntriesOf(outs));
    }
  }

  lemma {:induction false} InstallDescending(v: Levels, level: nat, in0: seq<File>, in1: seq<File>, outs: seq<File>)
    requires Ready(v, level, in0, in1) && EntriesOf(outs) <= InputEntries(in0, in1) && DeeperIsOlder(v)
    requires NewerThan(RestOf(v[level], in0), EntriesOf(outs))
    ensures Descending(LevelSets(v)[level := RestOf(v[level], in0)]
                         [level + 1 := RestOf(v[level + 1], in1) + EntriesOf(outs)])
  {
    var sets := LevelSets(v);
    var rest0, rest1, out := RestOf(v[level], in0), RestOf(v[level + 1], in1), EntriesOf(outs);
    DescendingLevels(v);
    EntriesOfSubset(in0, v[level]);
    EntriesOfSubset(in1, v[level + 1]);
    DescendingRemove(sets, level, rest0);
    var sets1 := sets[level := rest0];
    DescendingRemove(sets1, level + 1, rest1);
    var sets2 := sets1[level + 1 := rest1];
    forall i | 0 <= i < level + 1 ensures NewerThan(sets2[i], out) {
      if i < level {
        assert NewerThan(sets[i], sets[level]) && NewerThan(sets[i], sets[level + 1]);
        NewerThanUnion(sets[i], sets[level], sets[level + 1]);
        NewerThanSubset(sets[i], sets[level] + sets[level + 1], sets2[i], out);
      }
    }
    forall j | level + 1 < j < |sets2| ensures NewerThan(out, sets2[j]) {
      assert NewerThan(sets[level], sets[j]) && NewerThan(sets[level + 1], sets[j]);
      NewerThanUnion(sets[level], sets[level + 1], sets[j]);
      NewerThanSubset(sets[level] + sets[level + 1], sets[j], out, sets[j]);
    }
    DescendingAdd(sets2, level + 1, out);
    assert sets2[level + 1 := sets2[level + 1] + out] == sets1[level + 1 := rest1 + out];
  }

  lemma {:induction false} BesideIsApart(g: File, o: File, s: set<Entry>)
    requires ValidFile(o) && Elems(o.entries) <= s && Beside(g, s)
    ensures Apart(g, o)
  {
    assert o.entries[0] in Elems(o.entries) && o.entries[|o.entries| - 1] in Elems(o.entries);
  }

  lemma {:induction false} InstallKeepsLevels(v: Levels, v2: Levels, level: nat, in0: seq<File>, in1: seq<File>,
          outs: seq<File>)
    requires Install(v, v2, level, in0, in1, outs) && ValidLevels(v)
    requires level > 0 ==> SortedDisjoint(v[level])
    requires SortedDisjoint(v[level + 1])
    ensures ValidFiles(v2[level]) && ValidFiles(v2[level + 1])
    ensures level > 0 ==> SortedDisjoint(v2[level])
    ensures SortedDisjoint(v2[level + 1])
  {
    EditedEntries(v[level], v2[level], in0, []);
    EditedEntries(v[level + 1], v2[level + 1], in1, outs);
    if level > 0 {
      forall g, h | g in v2[level] && h in v2[level] && g != h ensures Apart(g, h) {
        DisjointAreApart(v[level], g, h);
      }
      SortedAndApart(v2[level]);
    }
    forall g, h | g in v2[level + 1] && h in v2[level + 1] && g != h ensures Apart(g, h) {
      InstallApart(v[level + 1], in0, in1, outs, g, h);
    }
    SortedAndApart(v2[level + 1]);
  }

  lemma {:induction false} InstallApart(files: seq<File>, in0: seq<File>, in1: seq<File>, outs: seq<File>, g: File,
      h: File)
    requires SortedDisjoint(files) && SortedDisjoint(outs) && ValidFiles(outs)
    requires EntriesOf(outs) <= InputEntries(in0, in1) && OthersBeside(files, in1, InputEntries(in0, in1))
    requires (g in files && g !in in1) || g in outs
    requires (h in files && h !in in1) || h in outs
    requires g != h
    ensures Apart(g, h)
  {
    if g in outs && h in outs {
      DisjointAreApart(outs, g, h);
    } else if g in outs {
      assert Elems(g.entries) <= EntriesOf(outs);
      BesideIsApart(h, g, InputEntries(in0, in1));
    } else if h in outs {
      assert Elems(h.entries) <= EntriesOf(outs);
      BesideIsApart(g, h, InputEntries(in0, in1));
    } else {
      DisjointAreApart(files, g, h);
    }
  }

  lemma {:induction false} InstallKeepsLevelZero(v: Levels, v2: Levels, in0: seq<File>, in1: seq<File>, outs: seq<File>)
    requires Install(v, v2, 0, in0, in1, outs) && DistinctNumbers(v[0]) && NewerNumberIsNewer(v[0])
    ensures DistinctNumbers(v2[0]) && NewerNumberIsNewer(v2[0])
  {
    EditedEntries(v[0], v2[0], in0, []);
    forall i, j | 0 <= i < j < |v2[0]| ensures v2[0][i].number != v2[0][j].number {
      var g, h := v2[0][i], v2[0][j];
      assert g in v2[0] && h in v2[0] && g != h;
      DistinctFiles(v[0], g, h);
    }
  }

  lemma {:induction false} NewerThanDisjoint(a: set<Entry>, b: set<Entry>)
    requires NewerThan(a, b)
    ensures a !! b
  {
    forall e | e in a ensures e !in b {
      assert e in b ==> e.ikey.seqno > e.ikey.seqno;
    }
  }

  /** The inputs' entries occur nowhere else in the version. */
  lemma {:induction false} InputsOccurOnce(v: Levels, level: nat, in0: seq<File>, in1: seq<File>)
    requires Ready(v, level, in0, in1) && ValidLevels(v) && DeeperIsOlder(v)
    requires NewerThan(RestOf(v[level], in0), EntriesOf(in0))
    ensures InputEntries(in0, in1) !! RestOf(v[level], in0)
    ensures InputEntries(in0, in1) !! RestOf(v[level + 1], in1)
    ensures forall lv :: 0 <= lv < |v| && lv != level && lv != level + 1 ==> InputEntries(in0, in1) !! EntriesOf(v[lv])
  {
    var s, rest0, rest1 := InputEntries(in0, in1), RestOf(v[level], in0), RestOf(v[level + 1], in1);
    EntriesOfSubset(in0, v[level]);
    EntriesOfSubset(in1, v[level + 1]);
    NewerThanDisjoint(rest0, EntriesOf(in0));
    assert NewerThan(EntriesOf(v[level]), EntriesOf(v[level + 1]));
    NewerThanDisjoint(EntriesOf(v[level]), EntriesOf(v[level + 1]));
    assert rest0 <= EntriesOf(v[level]);
    forall e | e in rest1 ensures e !in s {
      var g :| g in v[level + 1] && g !in in1 && e in g.entries;
      FileBounds(g, e);
      assert Beside(g, s);
    }
    forall lv | 0 <= lv < |v| && lv != level && lv != level + 1 ensures s !! EntriesOf(v[lv]) {
      forall l | l == level || l == level + 1 ensures EntriesOf(v[l]) !! EntriesOf(v[lv]) {
        if l < lv {
          NewerThanDisjoint(EntriesOf(v[l]), EntriesOf(v[lv]));
        } else {
          NewerThanDisjoint(EntriesOf(v[lv]), EntriesOf(v[l]));
        }
      }
    }
  }

  lemma {:induction false} InstallEntries(v: Levels, v2: Levels, level: nat, in0: seq<File>, in1: seq<File>,
      outs: seq<File>)
    requires Install(v, v2, level, in0, in1, outs) && ValidLevels(v) && DeeperIsOlder(v)
    requires NewerThan(RestOf(v[level], in0), EntriesOf(in0))
    ensures AllEntries(v2) == AllEntries(v) - InputEntries(in0, in1) + EntriesOf(outs)
    ensures InputEntries(in0, in1) <= AllEntries(v)
  {
    var s := InputEntries(in0, in1);
    InstallLevelSets(v, v2, level, in0, in1, outs);
    InputsOccurOnce(v, level, in0, in1);
    EntriesOfSubset(in0, v[level]);
    EntriesOfSubset(in1, v[level + 1]);
    forall e ensures e in AllEntries(v2) <==> (e in AllEntries(v) && e !in s) || e in EntriesOf(outs) {
      InstallEntry(v, v2, level, in0, in1, outs, e);
    }
  }

  lemma {:induction false} InstallEntry(v: Levels, v2: Levels, level: nat, in0: seq<File>, in1: seq<File>,
          outs: seq<File>, e: Entry)
    requires level + 1 < |v| == |v2|
    requires LevelSets(v2) ==
        LevelSets(v)[level := RestOf(v[level], in0)][level + 1 := RestOf(v[level + 1], in1) + EntriesOf(outs)]
    requires InputEntries(in0, in1) !! RestOf(v[level], in0)
    requires InputEntries(in0, in1) !! RestOf(v[level + 1], in1)
    requires forall lv :: 0 <= lv < |v| && lv != level && lv != level + 1 ==> InputEntries(in0, in1) !! EntriesOf(v[lv])
    requires EntriesOf(outs) <= InputEntries(in0, in1)
    ensures e in AllEntries(v2) <==> (e in AllEntries(v) && e !in InputEntries(in0, in1)) || e in EntriesOf(outs)
  {
    var sets, sets2 := LevelSets(v), LevelSets(v2);
    assert e in AllEntries(v2) <==> exists lv :: 0 <= lv < |v2| && e in sets2[lv];
    assert e in AllEntries(v) <==> exists lv :: 0 <= lv < |v| && e in sets[lv];
    assert sets2[level + 1] == RestOf(v[level + 1], in1) + EntriesOf(outs);
    assert sets2[level] == RestOf(v[level], in0);
    assert forall f, x :: f in v[level] && x in f.entries && x !in InputEntries(in0, in1) ==> f !in in0;
    assert forall f, x :: f in v[level + 1] && x in f.entries && x !in InputEntries(in0, in1) ==> f !in in1;
    if lv :| 0 <= lv < |v| && e in sets[lv] && e !in InputEntries(in0, in1) {
      assert e in sets2[lv];
    }
    if lv :| 0 <= lv < |v2| && e in sets2[lv] && e !in EntriesOf(outs) {
      assert e in sets[lv];
    }
  }

  /** Installing a compaction keeps the version searchable exactly when level L leaves nothing older behind. */
  lemma {:induction false} InstallOkIff(v: Levels, v2: Levels, level: nat, in0: seq<File>, in1: seq<File>,
      outs: seq<File>)
    requires Ok(v) && Install(v, v2, level, in0, in1, outs)
    ensures Ok(v2) <==> NewerThan(RestOf(v[level], in0), EntriesOf(outs))
  {
    InstallKeepsOrder(v, v2, level, in0, in1, outs);
    InstallKeepsLevels(v, v2, level, in0, in1, outs);
    InstallAddsNothing(v, v2, level, in0, in1, outs);
    if level == 0 {
      InstallKeepsLevelZero(v, v2, in0, in1, outs);
    }
  }

  lemma {:induction false} InstallAddsNothing(v: Levels, v2: Levels, level: nat, in0: seq<File>, in1: seq<File>,
          outs: seq<File>)
    requires Install(v, v2, level, in0, in1, outs)
    ensures AllEntries(v2) <= AllEntries(v)
  {
    InstallLevelSets(v, v2, level, in0, in1, outs);
    EntriesOfSubset(in0, v[level]);
    EntriesOfSubset(in1, v[level + 1]);
    forall e | e in AllEntries(v2) ensures e in AllEntries(v) {
      var lv :| 0 <= lv < |v2| && e in EntriesOf(v2[lv]);
      assert e in LevelSets(v2)[lv];
      if e in EntriesOf(outs) {
        assert e in EntriesOf(v[level]) || e in EntriesOf(v[level + 1]);
      } else {
        assert e in EntriesOf(v[lv]);
      }
    }
  }
}
