/**
 A compaction from level 0 that brings a deleted key back. Level 1 holds the deletion of key 7 and the value it hides,
 cut into two files; the file with the deletion is an input, the other is not, and no deeper level has the key.
 */
module DroppedDeletion {
  import opened Entries
  import opened Files
  import opened Versions
  import opened Compactions
  import opened CompactionMeaning
  import opened CompactionWork
  import opened Picking
  import opened Transitions
  import opened PickedInputs
  import opened CompactionLookups
  import opened CompactionReads

  function NewFive(): Entry { Entry(InternalKey(5, 9, Put), [9]) }
  function OldFive(): Entry { Entry(InternalKey(5, 2, Put), [2]) }
  function Deleted(): Entry { Entry(InternalKey(7, 6, Deletion), []) }
  function Hidden(): Entry { Entry(InternalKey(7, 3, Put), [0]) }

  function Upper(): File { File(12, 1000, NewFive().ikey, NewFive().ikey, [NewFive()]) }
  function Lower(): File { File(5, 1000, OldFive().ikey, Deleted().ikey, [OldFive(), Deleted()]) }
  function Beyond(): File { File(6, 1000, Hidden().ikey, Hidden().ikey, [Hidden()]) }
  function Output(): File { File(13, 1000, NewFive().ikey, NewFive().ikey, [NewFive()]) }

  function Before(): Levels { [[Upper()], [Lower(), Beyond()], [], [], [], [], []] }
  function After(): Levels { [[], [Output(), Beyond()], [], [], [], [], []] }
  function Merged(): seq<Entry> { [NewFive(), OldFive(), Deleted()] }

  // ----- the version and its entries

  lemma {:induction false} TwoFiles(f: File, g: File)
    ensures EntriesOf([f, g]) == Elems(f.entries) + Elems(g.entries) && EntriesOf([f]) == Elems(f.entries)
    ensures EntriesOf([]) == {}
  {
    assert f in [f, g] && g in [f, g] && f in [f];
  }

  lemma {:induction false} Contents()
    ensures EntriesOf([Upper()]) == {NewFive()} == EntriesOf([Output()]) && EntriesOf([Beyond()]) == {Hidden()}
    ensures EntriesOf([Lower()]) == {OldFive(), Deleted()}
    ensures EntriesOf([Lower(), Beyond()]) == {OldFive(), Deleted(), Hidden()}
    ensures EntriesOf([Output(), Beyond()]) == {NewFive(), Hidden()}
    ensures InputEntries([Upper()], [Lower()]) == {NewFive(), OldFive(), Deleted()} == Elems(Merged())
  {
    TwoFiles(Upper(), Upper());
    TwoFiles(Lower(), Beyond());
    TwoFiles(Beyond(), Beyond());
    TwoFiles(Output(), Beyond());
    hide EntriesOf;
  }

  lemma {:induction false} TwoLevels(v: Levels)
    requires |v| == NUM_LEVELS && forall l :: 2 <= l < |v| ==> v[l] == []
    ensures AllEntries(v) == EntriesOf(v[0]) + EntriesOf(v[1])
    ensures DeeperIsOlder(v) <==> NewerThan(EntriesOf(v[0]), EntriesOf(v[1]))
  {
    assert EntriesOf([]) == {};
    assert |v| == 7;
    if NewerThan(EntriesOf(v[0]), EntriesOf(v[1])) {
      forall i, j | 0 <= i < j < |v| ensures NewerThan(EntriesOf(v[i]), EntriesOf(v[j])) {
      }
    }
  }

  lemma {:induction false} FilesOk()
    ensures ValidFile(Upper()) && ValidFile(Lower()) && ValidFile(Beyond()) && ValidFile(Output())
    ensures SortedDisjoint([Lower(), Beyond()]) && SortedDisjoint([Output(), Beyond()]) && SortedDisjoint([Output()])
  {
  }

  lemma {:induction false} TwoLevelsOk(v: Levels)
    requires |v| == NUM_LEVELS && (forall l :: 2 <= l < |v| ==> v[l] == []) && |v[0]| <= 1
    requires ValidFiles(v[0]) && ValidFiles(v[1]) && SortedDisjoint(v[1])
    requires NewerThan(EntriesOf(v[0]), EntriesOf(v[1])) && UniqueSeqnos(EntriesOf(v[0]) + EntriesOf(v[1]))
    ensures Ok(v)
  {
    TwoLevels(v);
    OneFileOk(v[0]);
    hide DeeperIsOlder;
    hide UniqueSeqnos;
    hide ValidFile;
    hide EntriesOf;
    hide DistinctNumbers;
    hide NewerNumberIsNewer;
    hide AllEntries;
    hide NewerThan;
  }

  lemma {:induction false} OneFileOk(files: seq<File>)
    requires |files| <= 1
    ensures DistinctNumbers(files) && NewerNumberIsNewer(files)
  {
  }

  lemma {:induction false} EntriesOrdered()
    ensures NewerThan({NewFive()}, {OldFive(), Deleted(), Hidden()}) && NewerThan({}, {NewFive(), Hidden()})
    ensures UniqueSeqnos({NewFive()} + {OldFive(), Deleted(), Hidden()}) && UniqueSeqnos({} + {NewFive(), Hidden()})
  {
  }

  lemma {:induction false} Shapes()
    ensures var v, v2 := Before(), After();
            && |v| == |v2| == NUM_LEVELS == 7 && v[0] == [Upper()] && v[1] == [Lower(), Beyond()]
            && v2[0] == [] && v2[1] == [Output(), Beyond()]
            && (forall l :: 2 <= l < 7 ==> v[l] == [] && v2[l] == [])
  {
  }

  lemma {:induction false} AllValid()
    ensures ValidFiles([Upper()]) && ValidFiles([Lower(), Beyond()]) && ValidFiles([Output(), Beyond()])
    ensures ValidFiles([]) && ValidFiles([Output()])
  {
    FilesOk();
    hide ValidFile;
  }

  /** The version before is searchable. */
  lemma {:induction false} BeforeOk()
    ensures Ok(Before()) && AllEntries(Before()) == {NewFive(), OldFive(), Deleted(), Hidden()}
  {
    hide *;
    Shapes();
    Contents();
    FilesOk();
    AllValid();
    EntriesOrdered();
    TwoLevels(Before());
    TwoLevelsOk(Before());
  }

  /** And so is the version after. */
  lemma {:induction false} AfterOk()
    ensures Ok(After()) && AllEntries(After()) == {NewFive(), Hidden()}
  {
    hide *;
    Shapes();
    Contents();
    FilesOk();
    AllValid();
    EntriesOrdered();
    NoFiles();
    TwoLevels(After());
    TwoLevelsOk(After());
  }

  lemma {:induction false} NoFiles()
    ensures EntriesOf([]) == {}
  {
  }

  // ----- the compaction

  lemma {:induction false} KeptIs()
    ensures SortedEntries(Merged())
    ensures Kept(Merged(), |Merged()|, 10, Before(), 0) == [NewFive()]
  {
    var es, v := Merged(), Before();
    assert BaseLevelFor(v, 0, 7);
    assert Kept(es, 0, 10, v, 0) == [];
    assert Kept(es, 1, 10, v, 0) == [NewFive()];
    assert Kept(es, 2, 10, v, 0) == [NewFive()];
  }

  lemma {:induction false} BeyondIsBeside()
    ensures OthersBeside([Lower(), Beyond()], [Lower()], {NewFive(), OldFive(), Deleted()})
  {
    assert forall x :: x in {NewFive(), OldFive(), Deleted()} ==> Less(x.ikey, Hidden().ikey);
    assert Beside(Beyond(), {NewFive(), OldFive(), Deleted()});
    hide Beside;
  }

  lemma {:induction false} LevelsEdited()
    ensures LevelEdited([Upper()], [], Elems([Upper()]), {})
    ensures LevelEdited([Lower(), Beyond()], [Output(), Beyond()], Elems([Lower()]), Elems([Output()]))
    ensures Elems([Lower()]) <= Elems([Lower(), Beyond()])
  {
    assert Elems([Upper()]) == {Upper()} && Elems([Lower()]) == {Lower()} && Elems([Output()]) == {Output()};
    assert Elems([Lower(), Beyond()]) == {Lower(), Beyond()} && Elems([Output(), Beyond()]) == {Output(), Beyond()};
    assert Lower().number != Beyond().number;
    hide Elems;
  }

  lemma {:induction false} InstallOf(v: Levels, v2: Levels, in0: seq<File>, in1: seq<File>, outs: seq<File>)
    requires |v| == |v2| == NUM_LEVELS && in0 == v[0] && Elems(in1) <= Elems(v[1])
    requires OthersBeside(v[1], in1, InputEntries(in0, in1)) && ValidFiles(outs) && SortedDisjoint(outs)
    requires EntriesOf(outs) <= InputEntries(in0, in1) && forall l :: 2 <= l < NUM_LEVELS ==> v2[l] == v[l]
    requires LevelEdited(v[0], v2[0], Elems(in0), {}) && LevelEdited(v[1], v2[1], Elems(in1), Elems(outs))
    ensures Install(v, v2, 0, in0, in1, outs)
  {
    hide OthersBeside;
    hide ValidFiles;
    hide SortedDisjoint;
    hide EntriesOf;
    hide InputEntries;
    hide LevelEdited;
  }

  lemma {:induction false} IsInstalled()
    ensures Install(Before(), After(), 0, [Upper()], [Lower()], [Output()])
  {
    hide *;
    Shapes();
    Contents();
    FilesOk();
    AllValid();
    BeyondIsBeside();
    LevelsEdited();
    InstallOf(Before(), After(), [Upper()], [Lower()], [Output()]);
  }

  // ----- the code does it

  lemma {:induction false} OnlyOne(files: seq<File>, f: File)
    requires files != [] && |files| <= 1 && forall g :: g in files ==> g == f
    ensures files == [f]
  {
    assert files[0] in files;
  }

  lemma {:induction false} MeetsLower()
    ensures Meeting([Lower(), Beyond()], [Upper()]) == [Lower()]
  {
    assert [Lower(), Beyond()][..1] == [Lower()] && [Lower()][..0] == [];
    assert OverlapFilter([Lower()], Some(5), Some(5)) == [Lower()];
  }

  lemma {:induction false} PickedMembers(v: Levels, in0: seq<File>, in1: seq<File>)
    requires |v| == NUM_LEVELS && WellPicked(v, 0, in0, in1)
    ensures in0 != [] && (forall f :: f in in0 ==> f in v[0]) && in1 == Meeting(v[1], in0)
  {
    hide Meeting;
    hide Gapless;
  }

  lemma {:induction false} LevelsAreSorted(c: Compaction)
    requires Ok(c.inputVersion) && c.grandparents == Meeting([], [Upper()] + [Lower()])
    ensures c.SortedLevels() && SortedByLargest(c.grandparents)
  {
    hide SortedDisjoint;
    hide ValidFiles;
    hide UniqueSeqnos;
    hide DeeperIsOlder;
  }

  lemma {:induction false} OkIsValid(v: Levels)
    requires Ok(v)
    ensures ValidLevels(v) && 10 < MAX_SEQUENCE
  {
    hide ValidLevels;
  }

  lemma {:induction false} OneMember(f: File)
    ensures forall g :: g in [f] ==> g == f
  {
  }

  /**
   PickCompaction on Before, for whatever reason it starts from level 0, takes Upper and Lower but not Beyond, and the
   compaction drops the deletion.
   */
  method CompactUncovering(trigger: Trigger, maxOutputFileSize: nat, sizeOf: seq<Entry> -> nat)
    returns (c: Compaction, outputs: seq<seq<Entry>>)
    requires trigger == SizeTrigger(0) || trigger == SeekTrigger(Upper(), 0)
    ensures c.inputVersion == Before() && c.level == 0 && c.in0 == [Upper()] && c.in1 == [Lower()]
    ensures Concat(outputs) == [NewFive()]
  {
    hide *;
    Shapes();
    BeforeOk();
    OkIsValid(Before());
    OneMember(Upper());
    var version := new Version(Before());
    var versions := new VersionSet(version, 2_097_152);
    var picked := versions.PickCompaction(trigger);
    c := picked;
    PickedMembers(Before(), c.in0, c.in1);
    OnlyOne(c.in0, Upper());
    MeetsLower();
    LevelsAreSorted(c);
    KeptIs();
    outputs := DoCompactionWork(c, Merged(), 10, maxOutputFileSize, sizeOf);
  }

  // ----- what comes of it

  lemma {:induction false} ReadBefore()
    ensures Read({NewFive(), OldFive(), Deleted(), Hidden()}, 7, 10) == None
  {
    var s := {NewFive(), OldFive(), Deleted(), Hidden()};
    assert UniqueSeqnos(s) && IsNewest(s, 7, 10, Deleted());
    NewestIs(s, 7, 10, Deleted());
    hide Newest;
  }

  lemma {:induction false} ReadAfter()
    ensures Read({NewFive(), Hidden()}, 7, 10) == Some([0])
  {
    var s := {NewFive(), Hidden()};
    assert UniqueSeqnos(s) && IsNewest(s, 7, 10, Hidden());
    NewestIs(s, 7, 10, Hidden());
    hide Newest;
  }

  /**
   The version after is searchable and leaves nothing older behind at level 0: only the condition on dropped deletions
   fails.
   */
  lemma {:induction false} OnlyUncovering()
    ensures Ok(After()) && Install(Before(), After(), 0, [Upper()], [Lower()], [Output()])
    ensures NothingOlderStays(RestOf(Before()[0], [Upper()]), Merged(), 10, Before(), 0)
    ensures !NothingUncovered(Outside(Before(), [Upper()], [Lower()]), Merged(), 10, Before(), 0)
  {
    hide *;
    AfterOk();
    IsInstalled();
    KeptIs();
    NothingLeft();
    OutputIsKept();
    BeforeOk();
    Contents();
    Shapes();
    ReadBefore();
    ReadAfter();
    CompactionKeepsReadsIff(Before(), After(), 0, [Upper()], [Lower()], [Output()], Merged(), 10, Before());
    ReadsDiffer(AllEntries(Before()), AllEntries(After()));
  }

  lemma {:induction false} OutputIsKept()
    ensures EntriesOf([Output()]) == Elems(Kept(Merged(), |Merged()|, 10, Before(), 0))
  {
    Contents();
    KeptIs();
    hide *;
    assert Elems([NewFive()]) == {NewFive()} by { OneEntry(NewFive()); }
  }

  lemma {:induction false} OneEntry(e: Entry)
    ensures Elems([e]) == {e}
  {
  }

  lemma {:induction false} NothingLeft()
    ensures NothingOlderStays(RestOf(Before()[0], [Upper()]), Merged(), 10, Before(), 0)
  {
    assert RestOf(Before()[0], [Upper()]) == {};
  }

  lemma {:induction false} ReadsDiffer(s: set<Entry>, t: set<Entry>)
    requires Read(s, 7, 10) != Read(t, 7, 10)
    ensures !ReadsKept(s, t, 10)
  {
    hide Read;
  }

  lemma {:induction false} OkLevels(v: Levels)
    requires Ok(v)
    ensures LevelsOk(v) && DeeperIsOlder(v) && UniqueSeqnos(AllEntries(v))
  {
    hide LevelsOk;
  }

  /** Version::Get gives the value that was deleted, where it gave nothing before. */
  method GetUncovered(mayMatchBefore: (nat, UserKey) -> bool, mayMatch: (nat, UserKey) -> bool)
    returns (before: Option<Entry>, found: Option<Entry>)
    requires SoundFilter(Before(), mayMatchBefore) && SoundFilter(After(), mayMatch)
    ensures Outcome(before) == None && Outcome(found) == Some([0])
  {
    hide *;
    BeforeOk();
    AfterOk();
    OkLevels(Before());
    OkLevels(After());
    ReadBefore();
    ReadAfter();
    var version := new Version(Before());
    before := version.Get(7, 10, mayMatchBefore);
    FoundReads(AllEntries(Before()), before);
    version := new Version(After());
    found := version.Get(7, 10, mayMatch);
    FoundReads(AllEntries(After()), found);
  }

  lemma {:induction false} FoundReads(s: set<Entry>, found: Option<Entry>)
    requires UniqueSeqnos(s)
    requires if found.Some? then IsNewest(s, 7, 10, found.value) else forall e :: e in s ==> !Visible(e, 7, 10)
    ensures Read(s, 7, 10) == Outcome(found)
  {
    NewestExists(s, 7, 10);
    if found.Some? {
      NewestIs(s, 7, 10, found.value);
    }
  }
}
