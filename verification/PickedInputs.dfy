/**
 What the picked inputs of a compaction guarantee until it is installed, also when memtable flushes are
 installed in the meantime, and what they do not guarantee.
 */
module PickedInputs {
  import opened Entries
  import opened Files
  import opened Versions
  import opened Picking
  import opened Transitions

  lemma {:induction false} EntryInSpan(files: seq<File>, inputs: seq<File>, x: Entry)
    requires ValidFiles(files) && inputs != [] && (forall f :: f in inputs ==> f in files) && x in EntriesOf(inputs)
    ensures MinUser(inputs) <= x.ikey.user <= MaxUser(inputs)
  {
    var f :| f in inputs && x in f.entries;
    FileBounds(f, x);
  }

  /** Freshly picked inputs merge into a range that no other level-L+1 file interrupts. */
  lemma {:induction false} PickedIsReady(v: Levels, level: nat, in0: seq<File>, in1: seq<File>)
    requires Ok(v) && level + 1 < NUM_LEVELS && WellPicked(v, level, in0, in1)
    ensures Ready(v, level, in0, in1)
    ensures level == 0 ==> NewerThan(RestOf(v[0], in0), EntriesOf(in0))
  {
    OthersAreBeside(v[level], v[level + 1], in0, in1);
    if level == 0 {
      IsolatedIsNewer(v[0], in0);
    }
  }

  lemma {:induction false} IsolatedIsNewer(files: seq<File>, in0: seq<File>)
    requires ValidFiles(files) && in0 != [] && (forall f :: f in in0 ==> f in files)
    requires forall f :: f in Meeting(files, in0) ==> f in in0
    ensures NewerThan(RestOf(files, in0), EntriesOf(in0))
  {
    forall x, y | x in RestOf(files, in0) && y in EntriesOf(in0) ensures x.ikey.user != y.ikey.user {
      var f :| f in files && f !in in0 && x in f.entries;
      FileBounds(f, x);
      EntryInSpan(files, in0, y);
      assert f !in Meeting(files, in0);
    }
  }

  lemma {:induction false} OthersAreBeside(files0: seq<File>, files: seq<File>, in0: seq<File>, in1: seq<File>)
    requires ValidFiles(files0) && ValidFiles(files) && SortedDisjoint(files)
    requires in0 != [] && (forall f :: f in in0 ==> f in files0) && in1 == Meeting(files, in0)
    ensures OthersBeside(files, in1, InputEntries(in0, in1))
  {
    var lo, hi := MinUser(in0), MaxUser(in0);
    forall g | g in files && g !in in1 ensures Beside(g, InputEntries(in0, in1)) {
      assert !Overlaps(g, Some(lo), Some(hi));
      FileBounds(g, g.entries[0]);
      forall x | x in InputEntries(in0, in1)
        ensures g.largest.user < lo ==> Less(g.largest, x.ikey)
        ensures g.smallest.user > hi ==> Less(x.ikey, g.smallest)
      {
        if x in EntriesOf(in0) {
          EntryInSpan(files0, in0, x);
        } else {
          OtherBesideMeeting(files, in1, lo, hi, g, x);
        }
      }
    }
  }

  lemma {:induction false} OtherBesideMeeting(files: seq<File>, in1: seq<File>, lo: UserKey, hi: UserKey, g: File,
      x: Entry)
    requires ValidFiles(files) && SortedDisjoint(files) && in1 == OverlapFilter(files, Some(lo), Some(hi))
    requires g in files && g !in in1 && x in EntriesOf(in1)
    ensures g.largest.user < lo ==> Less(g.largest, x.ikey)
    ensures g.smallest.user > hi ==> Less(x.ikey, g.smallest)
  {
    var b :| b in in1 && x in b.entries;
    FileBounds(b, x);
    FileBounds(g, g.entries[0]);
    DisjointAreApart(files, g, b);
  }

  /**
   Flush during compaction is safe: a memtable file placed at the output level or deeper, while the inputs are
   still in the version, lies wholly outside the compaction's range.
   */
  lemma {:induction false} FlushMissesCompaction(v: Levels, level: nat, in0: seq<File>, in1: seq<File>,
          flushLevel: nat, f: File)
    requires ValidLevels(v) && level + 1 <= flushLevel && Placeable(v, flushLevel, f)
    requires Ready(v, level, in0, in1) && in0 != [] && ValidFile(f)
    requires Gapless(in0 + in1, MinUser(in0 + in1), MaxUser(in0 + in1))
    ensures f.largest.user < MinUser(in0 + in1) || MaxUser(in0 + in1) < f.smallest.user
    ensures Beside(f, InputEntries(in0, in1))
  {
    var all := in0 + in1;
    assert in0[0] in Elems(in0) && in0[0] in v[level];
    assert in0[0].entries[0] in in0[0].entries;
    if f.largest.user >= MinUser(all) && MaxUser(all) >= f.smallest.user {
      var k := if f.smallest.user > MinUser(all) then f.smallest.user else MinUser(all);
      FileBounds(f, f.entries[0]);
      InputInSpan(v, level, in0, in1, in0[0].entries[0]);
      assert Covered(all, k);
      var g :| g in all && Covers(g, k);
      assert g in Elems(in0) || g in Elems(in1);
      assert g in v[level] || g in v[level + 1];
      assert Overlaps(g, Some(f.smallest.user), Some(f.largest.user));
      assert false;
    }
    forall x | x in InputEntries(in0, in1) ensures MinUser(all) <= x.ikey.user <= MaxUser(all) {
      InputInSpan(v, level, in0, in1, x);
    }
  }

  lemma {:induction false} InputInSpan(v: Levels, level: nat, in0: seq<File>, in1: seq<File>, x: Entry)
    requires ValidLevels(v) && Ready(v, level, in0, in1) && in0 != [] && x in InputEntries(in0, in1)
    ensures MinUser(in0 + in1) <= x.ikey.user <= MaxUser(in0 + in1)
  {
    var f :| f in in0 + in1 && x in f.entries;
    assert f in Elems(in0) || f in Elems(in1);
    assert f in v[level] || f in v[level + 1];
    FileBounds(f, x);
  }

  lemma {:induction false} FlushedIsNewer(rest2: set<Entry>, rest: set<Entry>, flushed: set<Entry>,
          inputs: set<Entry>, all: set<Entry>)
    requires rest2 <= rest + flushed && inputs <= all && NewerThan(flushed, all)
    ensures NewerThan(rest, inputs) ==> NewerThan(rest2, inputs)
  {
  }

  lemma {:induction false} OneMoreBeside(files: seq<File>, files2: seq<File>, f: File, inputs: seq<File>, s: set<Entry>)
    requires LevelEdited(files, files2, {}, {f}) && OthersBeside(files, inputs, s) && Beside(f, s)
    ensures OthersBeside(files2, inputs, s)
  {
    hide Beside;
    forall g | g in files2 && g !in inputs ensures Beside(g, s) {
      assert g in Elems(files2);
    }
  }

  lemma {:induction false} EditKeepsFiles(files: seq<File>, files2: seq<File>, f: File)
    requires LevelEdited(files, files2, {}, {f})
    ensures Elems(files) <= Elems(files2)
  {
  }

  lemma {:induction false} FlushShape(v: Levels, v2: Levels, level: nat, f: File)
    requires Flush(v, v2, level, f)
    ensures level < |v| == |v2| && LevelEdited(v[level], v2[level], {}, {f})
    ensures forall lv :: 0 <= lv < |v| && lv != level ==> v2[lv] == v[lv]
    ensures ValidFile(f) && Placeable(v, level, f)
  {
  }

  /** A flush leaves a running compaction installable. */
  lemma {:induction false} FlushKeepsReady(v: Levels, v2: Levels, flushLevel: nat, f: File, level: nat,
          in0: seq<File>, in1: seq<File>)
    requires ValidLevels(v) && Flush(v, v2, flushLevel, f)
    requires Ready(v, level, in0, in1) && in0 != []
    requires Gapless(in0 + in1, MinUser(in0 + in1), MaxUser(in0 + in1))
    ensures Ready(v2, level, in0, in1)
  {
    hide Flush;
    hide Placeable;
    hide ValidFile;
    hide ValidFiles;
    hide LevelEdited;
    hide Gapless;
    hide InputEntries;
    hide MinUser;
    hide MaxUser;
    hide OthersBeside;
    hide Beside;
    FlushShape(v, v2, flushLevel, f);
    EditKeepsFiles(v[flushLevel], v2[flushLevel], f);
    if flushLevel == level + 1 {
      FlushMissesCompaction(v, level, in0, in1, flushLevel, f);
      OneMoreBeside(v[level + 1], v2[level + 1], f, in1, InputEntries(in0, in1));
    }
  }

  /** A flush keeps the inputs older than the rest of their level, if they were. */
  lemma {:induction false} FlushKeepsClosed(v: Levels, v2: Levels, flushLevel: nat, f: File, level: nat, in0: seq<File>)
    requires ValidLevels(v) && Flush(v, v2, flushLevel, f) && NewerThan(Elems(f.entries), AllEntries(v))
    requires level < |v| && Elems(in0) <= Elems(v[level])
    ensures NewerThan(RestOf(v[level], in0), EntriesOf(in0)) ==> NewerThan(RestOf(v2[level], in0), EntriesOf(in0))
  {
    hide ValidFiles;
    hide ValidFile;
    hide NewerThan;
    hide SortedBySmallest;
    assert forall g :: g in v2[flushLevel] <==> g in Elems(v2[flushLevel]);
    EntriesOfSubset(in0, v[level]);
    assert EntriesOf(in0) <= AllEntries(v);
    forall x | x in RestOf(v2[level], in0) ensures x in RestOf(v[level], in0) || x in Elems(f.entries) {
      var g :| g in v2[level] && g !in in0 && x in g.entries;
      assert g in v[level] || g == f;
    }
    FlushedIsNewer(RestOf(v2[level], in0), RestOf(v[level], in0), Elems(f.entries), EntriesOf(in0), AllEntries(v));
  }

  // ----- trivial moves, and why closed inputs must be required

  lemma {:induction false} SingleFileEntries(f: File)
    ensures EntriesOf([f]) == Elems(f.entries)
  {
    assert f in [f];
  }

  /** A trivial move is harmless if and only if the other files of its level hold nothing older of its keys. */
  lemma {:induction false} TrivialMoveIff(v: Levels, v2: Levels, level: nat, f: File)
    requires Ok(v) && Install(v, v2, level, [f], [], [f])
    ensures Ok(v2) <==> NewerThan(RestOf(v[level], [f]), Elems(f.entries))
  {
    SingleFileEntries(f);
    InstallOkIff(v, v2, level, [f], [], [f]);
  }

  function BoundaryFile(number: nat, seqno: nat, value: Bytes): File {
    var e := Entry(InternalKey(7, seqno, Put), value);
    File(number, 6_000_000, e.ikey, e.ikey, [e])
  }

  /*
   PickCompaction alone does not keep lookups right above level 0. Level 1, over its size limit, holds two versions of
   key 7, cut into two files; the newer file is picked alone, moves to level 2, and the older version is found first.
   */
  function SplitNewer(): File { BoundaryFile(5, 4, [1]) }
  function SplitOlder(): File { BoundaryFile(6, 3, [0]) }
  function SplitBefore(): Levels { [[], [SplitNewer(), SplitOlder()], [], [], [], [], []] }
  function SplitAfter(): Levels { [[], [SplitOlder()], [SplitNewer()], [], [], [], []] }

  lemma {:induction false} OneFileLevel(v: Levels, lv: nat)
    requires lv < |v| && forall l :: 0 <= l < |v| && l != lv ==> v[l] == []
    ensures AllEntries(v) == EntriesOf(v[lv]) && DeeperIsOlder(v)
  {
    assert EntriesOf([]) == {};
  }

  lemma {:induction false} OneLevelOk(v: Levels, lv: nat)
    requires 0 < lv < |v| == NUM_LEVELS && forall l :: 0 <= l < |v| && l != lv ==> v[l] == []
    requires ValidFiles(v[lv]) && SortedDisjoint(v[lv]) && UniqueSeqnos(EntriesOf(v[lv]))
    ensures Ok(v)
  {
    OneFileLevel(v, lv);
  }

  lemma {:induction false} SplitEntries()
    ensures EntriesOf([SplitNewer()]) == {SplitNewer().entries[0]}
    ensures EntriesOf([SplitOlder()]) == {SplitOlder().entries[0]}
    ensures EntriesOf([SplitNewer(), SplitOlder()]) == {SplitNewer().entries[0], SplitOlder().entries[0]}
  {
    SingleFileEntries(SplitNewer());
    SingleFileEntries(SplitOlder());
    var both := [SplitNewer(), SplitOlder()];
    assert SplitNewer() in both && SplitOlder() in both;
  }

  lemma {:induction false} SplitFilesDisjoint()
    ensures ValidFile(SplitNewer()) && ValidFile(SplitOlder())
    ensures SortedDisjoint([SplitNewer(), SplitOlder()])
  {
  }

  /** The version before the compaction is searchable. */
  lemma {:induction false} SplitBeforeOk()
    ensures Ok(SplitBefore())
  {
    var v := SplitBefore();
    SplitEntries();
    SplitFilesDisjoint();
    assert v[1] == [SplitNewer(), SplitOlder()];
    OneLevelOk(v, 1);
  }

  lemma {:induction false} SplitIsInstalled()
    ensures Install(SplitBefore(), SplitAfter(), 1, [SplitNewer()], [], [SplitNewer()])
  {
    var f, g := SplitNewer(), SplitOlder();
    assert Elems([f]) == {f} && Elems([g]) == {g} && Elems([f, g]) == {f, g};
    assert EntriesOf([]) == {};
    SplitEntries();
    forall x | x in InputEntries([f], []) ensures x == f.entries[0] {
    }
  }
}
