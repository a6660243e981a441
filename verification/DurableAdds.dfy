/**
 What the manifest has added, and where: every step gives a level only file numbers it never had. VersionSet::Recover
 applies all edits to one builder and saves once, so this is what makes it read back the version the edits produced.
 */
module DurableAdds {
  import opened Entries
  import opened Files
  import opened Versions
  import opened Picking
  import opened Transitions
  import opened Engine
  import opened VersionEdits
  import opened VersionBuilder
  import opened Manifest
  import opened ManifestReplay
  import opened Durable
  import opened DurableFiles
  import opened DurableProof
  import opened DurableRecovery

  /** The edits have added a file of this number at the level. */
  predicate Added(edits: seq<Edit>, l: nat, n: nat) {
    n in Numbers(AllAdds(edits, l))
  }

  /** A file that is in the version was never added deeper than it is now. */
  ghost predicate NoneDeeper(edits: seq<Edit>, v: Levels) {
    forall lv, f, l :: 0 <= lv < |v| && f in v[lv] && lv < l < NUM_LEVELS ==> !Added(edits, l, f.number)
  }

  predicate AddsBelow(edits: seq<Edit>, bound: nat) {
    forall l, m :: 0 <= l < NUM_LEVELS && m in AllAdds(edits, l) ==> m.number < bound
  }

  ghost predicate AddsOk(edits: seq<Edit>, v: Levels, bound: nat) {
    AddsOnce(Fresh().levels, edits) && NoneDeeper(edits, v) && AddsBelow(edits, bound)
  }

  predicate NeverAdded(edits: seq<Edit>, n: nat) {
    forall l :: 0 <= l < NUM_LEVELS ==> !Added(edits, l, n)
  }

  /** Numbers that are taken for tables to come were never added. */
  ghost predicate TakenNew(s: Sys) {
    && (forall n :: n in Busy(s) ==> NeverAdded(s.disk.edits, n))
    && (s.db.reserved.Some? ==> NeverAdded(s.disk.edits, s.db.reserved.value))
  }

  ghost predicate AddsInv(s: Sys) {
    && OnRecord(s.disk).numbers.nextFile.Some?
    && AddsOk(s.disk.edits, s.db.version, OnRecord(s.disk).numbers.nextFile.value)
    && (s.up ==> TakenNew(s))
  }

  /** What recovery reads back is what the edits produced. */
  lemma {:induction false} ReadsBackRecord(s: Sys)
    requires AddsInv(s)
    ensures ReadBack(s.disk) == OnRecord(s.disk)
  {
    hide History;
    hide AddsOnce;
    hide NoneDeeper;
    hide AddsBelow;
    ReplayIsHistory(s.disk.edits);
  }

  // ----- one more edit

  /** The edit adds the files ms at one level and nothing elsewhere. */
  predicate AddsOnly(e: Edit, level: nat, ms: seq<Meta>) {
    forall l :: 0 <= l < NUM_LEVELS ==> AddsAt(e.added, l) == if l == level then ms else []
  }

  lemma {:induction false} AllAddsSnoc(edits: seq<Edit>, e: Edit, l: nat)
    ensures AllAdds(edits + [e], l) == AllAdds(edits, l) + AddsAt(e.added, l)
  {
    assert (edits + [e])[..|edits|] == edits;
  }

  lemma {:induction false} DistinctAppend(a: seq<Meta>, b: seq<Meta>)
    requires DistinctMetas(a) && DistinctMetas(b) && Disjoint(a, b)
    ensures DistinctMetas(a + b)
  {
    forall i, j | 0 <= i < j < |a + b| ensures (a + b)[i].number != (a + b)[j].number {
      if i < |a| && j >= |a| {
        assert a[i] in a && b[j - |a|] in b;
      }
    }
  }

  lemma {:induction false} AddedOnceIs(edits: seq<Edit>, l: nat)
    ensures AddedOnce([], edits, l) <==> DistinctMetas(AllAdds(edits, l))
  {
    assert [] + AllAdds(edits, l) == AllAdds(edits, l);
  }

  lemma {:induction false} AddsOnceAt(edits: seq<Edit>)
    ensures AddsOnce(Fresh().levels, edits) <==> forall l :: 0 <= l < NUM_LEVELS ==> AddedOnce([], edits, l)
  {
    if AddsOnce(Fresh().levels, edits) {
      forall l | 0 <= l < NUM_LEVELS ensures AddedOnce([], edits, l) {
        assert AddedOnce(Fresh().levels[l], edits, l);
      }
    }
  }

  lemma {:induction false} NotAddedDisjoint(edits: seq<Edit>, l: nat, ms: seq<Meta>)
    requires forall m :: m in ms ==> !Added(edits, l, m.number)
    ensures Disjoint(AllAdds(edits, l), ms)
  {
    forall x, y | x in AllAdds(edits, l) && y in ms ensures x.number != y.number {
      assert x.number in Numbers(AllAdds(edits, l));
    }
  }

  lemma {:induction false} AddsOnceAfter(edits: seq<Edit>, e: Edit, level: nat, ms: seq<Meta>)
    requires AddsOnce(Fresh().levels, edits) && AddsOnly(e, level, ms) && DistinctMetas(ms)
    requires level < NUM_LEVELS ==> forall m :: m in ms ==> !Added(edits, level, m.number)
    ensures AddsOnce(Fresh().levels, edits + [e])
  {
    AddsOnceAt(edits);
    AddsOnceAt(edits + [e]);
    hide AddsOnce;
    hide Added;
    forall l | 0 <= l < NUM_LEVELS ensures AddedOnce([], edits + [e], l) {
      AddedOnceIs(edits, l);
      AddedOnceIs(edits + [e], l);
      AllAddsSnoc(edits, e, l);
      if l == level {
        NotAddedDisjoint(edits, l, ms);
        DistinctAppend(AllAdds(edits, l), ms);
      } else {
        assert AllAdds(edits, l) + [] == AllAdds(edits, l);
      }
    }
  }

  lemma {:induction false} AddedAfterEdit(edits: seq<Edit>, e: Edit, level: nat, ms: seq<Meta>, l: nat, n: nat)
    requires AddsOnly(e, level, ms) && l < NUM_LEVELS
    ensures Added(edits + [e], l, n) <==> Added(edits, l, n) || (l == level && n in Numbers(ms))
  {
    AllAddsSnoc(edits, e, l);
    var a, b := AllAdds(edits, l), AddsAt(e.added, l);
    assert forall m :: m in a + b <==> m in a || m in b;
    assert l != level ==> b == [];
  }

  /** Files of the new version below its level, seen from the files an edit adds there. */
  ghost predicate Clear(v: Levels, level: nat, ms: seq<Meta>) {
    forall lv, f :: 0 <= lv < |v| && lv < level && f in v[lv] ==> f.number !in Numbers(ms)
  }

  lemma {:induction false} NoneDeeperAfter(edits: seq<Edit>, e: Edit, level: nat, ms: seq<Meta>, v: Levels)
    requires AddsOnly(e, level, ms) && NoneDeeper(edits, v) && Clear(v, level, ms)
    ensures NoneDeeper(edits + [e], v)
  {
    hide Added;
    hide AddsOnly;
    forall lv, f, l | 0 <= lv < |v| && f in v[lv] && lv < l < NUM_LEVELS ensures !Added(edits + [e], l, f.number) {
      AddedAfterEdit(edits, e, level, ms, l, f.number);
    }
  }

  lemma {:induction false} AddsBelowAfter(edits: seq<Edit>, e: Edit, level: nat, ms: seq<Meta>, bound: nat, bound2: nat)
    requires AddsOnly(e, level, ms) && AddsBelow(edits, bound) && bound <= bound2
    requires forall m :: m in ms ==> m.number < bound2
    ensures AddsBelow(edits + [e], bound2)
  {
    forall l, m | 0 <= l < NUM_LEVELS && m in AllAdds(edits + [e], l) ensures m.number < bound2 {
      AllAddsSnoc(edits, e, l);
    }
  }

  lemma {:induction false} AddsAfter(edits: seq<Edit>, v: Levels, v2: Levels, bound: nat, bound2: nat, e: Edit,
          level: nat, ms: seq<Meta>)
    requires AddsOk(edits, v, bound) && bound <= bound2 && AddsOnly(e, level, ms) && DistinctMetas(ms)
    requires level < NUM_LEVELS ==> forall m :: m in ms ==> !Added(edits, level, m.number)
    requires (forall m :: m in ms ==> m.number < bound2) && NoneDeeper(edits, v2) && Clear(v2, level, ms)
    ensures AddsOk(edits + [e], v2, bound2)
  {
    hide AddsOnce;
    hide AddsBelow;
    hide NoneDeeper;
    hide AddsOnly;
    hide Clear;
    hide Added;
    AddsOnceAfter(edits, e, level, ms);
    NoneDeeperAfter(edits, e, level, ms, v2);
    AddsBelowAfter(edits, e, level, ms, bound, bound2);
  }

  lemma {:induction false} NeverAddedAfter(edits: seq<Edit>, e: Edit, level: nat, ms: seq<Meta>, n: nat)
    requires AddsOnly(e, level, ms) && NeverAdded(edits, n) && n !in Numbers(ms)
    ensures NeverAdded(edits + [e], n)
  {
    hide Added;
    hide AddsOnly;
    forall l | 0 <= l < NUM_LEVELS ensures !Added(edits + [e], l, n) {
      AddedAfterEdit(edits, e, level, ms, l, n);
    }
  }

  lemma {:induction false} BelowIsNew(edits: seq<Edit>, bound: nat, n: nat)
    requires AddsBelow(edits, bound) && n >= bound
    ensures NeverAdded(edits, n)
  {
  }

  lemma {:induction false} MetaNumbers(files: seq<File>)
    ensures Numbers(MetasOf(files)) == FileNumbers(files)
  {
    forall n ensures n in Numbers(MetasOf(files)) <==> n in FileNumbers(files) {
      if n in Numbers(MetasOf(files)) {
        var m :| m in MetasOf(files) && m.number == n;
        MetaMembers(files, m);
      }
      if n in FileNumbers(files) {
        var f :| f in files && f.number == n;
        MetaMembers(files, MetaOf(f));
      }
    }
  }

  // ----- steps that log nothing

  /** Numbers that are new in the second state: none, or the next one of the counter. */
  ghost predicate TakesAtMostNext(s: Sys, t: Sys) {
    && (forall n :: n in Busy(t) ==> n in Busy(s) || n == s.db.nextFile)
    && (t.db.reserved == s.db.reserved || t.db.reserved.None? || t.db.reserved == Some(s.db.nextFile))
  }

  lemma {:induction false} QuietKeeps(s: Sys, t: Sys)
    requires AddsInv(s) && t.disk.edits == s.disk.edits && t.db.version == s.db.version
    requires t.up ==> s.up && TakesAtMostNext(s, t)
    requires OnRecord(s.disk).numbers.nextFile.Some? ==> OnRecord(s.disk).numbers.nextFile.value <= s.db.nextFile
    ensures AddsInv(t)
  {
    SameEdits(s.disk, t.disk);
    hide OnRecord;
    hide AddsOnce;
    hide NoneDeeper;
    hide NeverAdded;
    hide AddsBelow;
    BelowIsNew(s.disk.edits, OnRecord(s.disk).numbers.nextFile.value, s.db.nextFile);
  }

  lemma {:induction false} RecordedBelow(s: Sys)
    requires SysInv(s)
    ensures OnRecord(s.disk).numbers.nextFile.Some? && OnRecord(s.disk).numbers.nextFile.value <= s.db.nextFile
    ensures s.up ==> NumbersTaken(s) && FilesKept(s)
    ensures VersionOnDisk(s.db.version, s.disk.tables) && NumbersBelow(s.db.version, s.db.nextFile)
    ensures |s.db.version| == NUM_LEVELS
  {
    InvNumbers(s.db);
    assert DbOk(s.db.mem, ImmEntries(s.db.imm), s.db.version);
    hide Inv;
    hide OnRecord;
    hide VersionOnDisk;
    hide TailOk;
    hide NumbersTaken;
    hide FilesKept;
    hide LogsSplit;
    hide NumbersBelow;
  }

  predicate LogsEdit(act: Act) {
    act.LogFlush? || act.LogEmptyFlush? || act.LogFinish? || act.LogMove?
  }

  lemma {:induction false} QuietStep(s: Sys, t: Sys, act: Act)
    requires UpStep(s, t, act) && !LogsEdit(act) && NumbersTaken(s) && FilesKept(s)
    ensures t.disk.edits == s.disk.edits && t.db.version == s.db.version && TakesAtMostNext(s, t)
  {
    hide OnRecord;
    hide WellPicked;
    hide Closed;
    hide Unlisted;
    hide TablesHold;
    hide IsLive;
    hide NumbersBelow;
    hide Durable.InsertAll;
    hide Numbered;
    match act
    case Append(_) =>
    case SwitchLog =>
    case Reserve =>
    case WriteTable =>
    case Begin(_, _, _) =>
    case AllocateOutput =>
    case WriteOutput(_, _) =>
    case InstallVersion =>
    case _ =>
  }

  lemma {:induction false} QuietUpKeeps(s: Sys, t: Sys, act: Act)
    requires SysInv(s) && AddsInv(s) && s.up && UpStep(s, t, act) && !LogsEdit(act)
    ensures AddsInv(t)
  {
    RecordedBelow(s);
    hide *;
    QuietStep(s, t, act);
    QuietKeeps(s, t);
  }

  // ----- steps that log an edit

  /** The recorded counter after an edit is the one the edit carries. */
  lemma {:induction false} RecordedAfter(s: Sys, t: Sys, e: Edit, logNumber: nat)
    requires t.disk.edits == s.disk.edits + [e]
    requires Counted(e, s.db, OnRecord(s.disk).numbers, logNumber, t.db.version)
    ensures OnRecord(t.disk).numbers.nextFile == e.nextFile && e.nextFile.Some?
    ensures OnRecord(s.disk).numbers.nextFile.Some? && OnRecord(s.disk).numbers.nextFile.value <= e.nextFile.value
    ensures NumbersBelow(t.db.version, e.nextFile.value)
  {
    hide NumbersBelow;
    RecordSnoc(s.disk, t.disk, e);
    hide OnRecord;
    hide ApplyLevels;
    hide ApplyPointers;
  }

  /** The invariant after an edit that adds the files ms at one level. */
  lemma {:induction false} EditKeepsAdds(s: Sys, t: Sys, e: Edit, level: nat, ms: seq<Meta>)
    requires AddsInv(s) && t.disk.edits == s.disk.edits + [e]
    requires OnRecord(t.disk).numbers.nextFile == e.nextFile && e.nextFile.Some?
    requires OnRecord(s.disk).numbers.nextFile.Some? && OnRecord(s.disk).numbers.nextFile.value <= e.nextFile.value
    requires AddsOnly(e, level, ms) && DistinctMetas(ms) && forall m :: m in ms ==> m.number < e.nextFile.value
    requires level < NUM_LEVELS ==> forall m :: m in ms ==> !Added(s.disk.edits, level, m.number)
    requires NoneDeeper(s.disk.edits, t.db.version) && Clear(t.db.version, level, ms)
    requires forall n :: n in Busy(t) ==> NeverAdded(s.disk.edits, n) && n !in Numbers(ms)
    requires t.db.reserved.Some? ==>
               NeverAdded(s.disk.edits, t.db.reserved.value) && t.db.reserved.value !in Numbers(ms)
    ensures AddsInv(t)
  {
    hide OnRecord;
    hide AddsOk;
    hide AddsOnly;
    hide NeverAdded;
    hide Added;
    hide NoneDeeper;
    hide Clear;
    hide Busy;
    AddsAfter(s.disk.edits, s.db.version, t.db.version, OnRecord(s.disk).numbers.nextFile.value,
        e.nextFile.value, e, level, ms);
    forall n | NeverAdded(s.disk.edits, n) && n !in Numbers(ms) ensures NeverAdded(t.disk.edits, n) {
      NeverAddedAfter(s.disk.edits, e, level, ms, n);
    }
  }

  lemma {:induction false} AddsParts(s: Sys)
    requires AddsInv(s) && s.up
    ensures NoneDeeper(s.disk.edits, s.db.version)
    ensures forall n :: n in Busy(s) ==> NeverAdded(s.disk.edits, n)
    ensures s.db.reserved.Some? ==> NeverAdded(s.disk.edits, s.db.reserved.value)
  {
    hide OnRecord;
    hide AddsOnce;
    hide NoneDeeper;
    hide NeverAdded;
    hide AddsBelow;
    hide Busy;
  }

  // a flush

  lemma {:induction false} FlushAdds(e: Edit, level: nat, f: File)
    requires FlushEdit(e, level, f)
    ensures AddsOnly(e, level, [MetaOf(f)]) && Numbers([MetaOf(f)]) == {f.number} && DistinctMetas([MetaOf(f)])
  {
    forall l | 0 <= l < NUM_LEVELS ensures AddsAt(e.added, l) == if l == level then [MetaOf(f)] else [] {
      FlushEditAt(e, level, f, l);
    }
  }

  lemma {:induction false} FlushedDeeper(edits: seq<Edit>, v: Levels, v2: Levels, level: nat, f: File)
    requires OneMore(v, v2, level, f) && NoneDeeper(edits, v) && NeverAdded(edits, f.number) && !InVersion(v, f.number)
    ensures NoneDeeper(edits, v2) && Clear(v2, level, [MetaOf(f)])
  {
    hide Added;
    assert Numbers([MetaOf(f)]) == {f.number};
    forall lv, g | 0 <= lv < |v2| && lv < level && g in v2[lv] ensures g.number !in Numbers([MetaOf(f)]) {
      assert g in v[lv];
    }
  }

  lemma {:induction false} InvOf(s: Sys)
    requires SysInv(s)
    ensures Inv(s.db)
  {
    hide Inv;
  }

  lemma {:induction false} NeverAddedAt(edits: seq<Edit>, n: nat, l: nat)
    requires NeverAdded(edits, n) && l < NUM_LEVELS
    ensures !Added(edits, l, n)
  {
  }

  lemma {:induction false} LogFlushKeepsAdds(s: Sys, t: Sys, level: nat, f: File, e: Edit)
    requires SysInv(s) && AddsInv(s) && s.up && LogFlushStep(s, t, level, f, e)
    ensures AddsInv(t)
  {
    hide *;
    RecordedBelow(s);
    InvOf(s);
    AddsParts(s);
    FlushFacts(s, t, level, f, e);
    RecordedAfter(s, t, e, s.logFile);
    FlushAdds(e, level, f);
    FlushedOneMore(s.db.version, t.db.version, level, f);
    FlushedBelow(s.db.version, t.db.version, level, f, e.nextFile.value);
    FlushedDeeper(s.disk.edits, s.db.version, t.db.version, level, f);
    NeverAddedAt(s.disk.edits, f.number, level);
    OneNumber(f);
    EditKeepsAdds(s, t, e, level, [MetaOf(f)]);
  }

  lemma {:induction false} FlushedBelow(v: Levels, v2: Levels, level: nat, f: File, bound: nat)
    requires OneMore(v, v2, level, f) && NumbersBelow(v2, bound)
    ensures f.number < bound
  {
    assert f in v2[level];
  }

  lemma {:induction false} OneNumber(f: File)
    ensures MetaOf(f).number == f.number
  {
  }

  // a memtable without entries

  lemma {:induction false} EmptyFlushFacts(s: Sys, t: Sys, e: Edit)
    requires LogEmptyFlushStep(s, t, e) && NumbersTaken(s) && FilesKept(s)
    ensures AddsOnly(e, 0, []) && Numbers([]) == {} && DistinctMetas([])
    ensures Counted(e, s.db, OnRecord(s.disk).numbers, s.logFile, t.db.version)
    ensures t.db.version == s.db.version
    ensures t.disk.edits == s.disk.edits + [e] && Busy(t) <= Busy(s) && t.db.reserved.None?
    ensures Clear(t.db.version, 0, [])
  {
    hide TablesHold;
    hide NumbersBelow;
    hide Unlisted;
  }

  lemma {:induction false} LogEmptyFlushKeepsAdds(s: Sys, t: Sys, e: Edit)
    requires SysInv(s) && AddsInv(s) && s.up && LogEmptyFlushStep(s, t, e)
    ensures AddsInv(t)
  {
    hide *;
    RecordedBelow(s);
    AddsParts(s);
    EmptyFlushFacts(s, t, e);
    RecordedAfter(s, t, e, s.logFile);
    EditKeepsAdds(s, t, e, 0, []);
  }

  // a compaction

  lemma {:induction false} InstallAdds(e: Edit, level: nat, in0: seq<File>, in1: seq<File>, outs: seq<File>)
    requires InstallEdit(e, level, in0, in1, outs)
    ensures AddsOnly(e, level + 1, MetasOf(outs))
  {
    hide DeletedAt;
    hide MetasOf;
  }

  /** Files that stay were never added deeper and share no number with the outputs; outputs are new to deeper levels. */
  lemma {:induction false} InstalledDeeper(edits: seq<Edit>, v: Levels, v2: Levels, level: nat, in0: seq<File>,
          in1: seq<File>, outs: seq<File>)
    requires AllListed(v, v2, level, in0, in1, outs) && NoneDeeper(edits, v)
    requires forall f, l :: f in outs && level + 1 < l < NUM_LEVELS ==> !Added(edits, l, f.number)
    requires forall lv, g :: 0 <= lv < |v| && lv <= level && g in v[lv] && !(lv == level && g in in0) ==>
               g.number !in FileNumbers(outs)
    ensures NoneDeeper(edits, v2) && Clear(v2, level + 1, MetasOf(outs))
  {
    hide Added;
    hide FileNumbers;
    MetaNumbers(outs);
    forall lv, f, l | 0 <= lv < |v2| && f in v2[lv] && lv < l < NUM_LEVELS ensures !Added(edits, l, f.number) {
      assert Listed(v, level, in0, in1, outs, lv, f);
    }
    forall lv, f | 0 <= lv < |v2| && lv < level + 1 && f in v2[lv] ensures f.number !in Numbers(MetasOf(outs)) {
      assert Listed(v, level, in0, in1, outs, lv, f);
    }
  }

  lemma {:induction false} FinishFacts(s: Sys, t: Sys, merged: seq<Entry>, outs: seq<File>, e: Edit)
    requires LogFinishStep(s, t, merged, outs, e) && NumbersTaken(s) && FilesKept(s)
    ensures s.db.running.Some? && AreOutputs(outs, s.outputs)
    ensures FinishStep(s.db, t.db, merged, outs) && t.db.nextFile == s.db.nextFile
    ensures InstallEdit(e, s.db.running.value.level, s.db.running.value.in0, s.db.running.value.in1, outs)
    ensures Counted(e, s.db, OnRecord(s.disk).numbers, s.logNumber, t.db.version)
    ensures t.disk.edits == s.disk.edits + [e] && t.db.reserved == s.db.reserved
    ensures (forall n :: n in Busy(t) ==> n in Busy(s) && n !in s.outputs) && s.outputs.Keys <= Busy(s)
    ensures s.db.reserved.Some? ==> s.db.reserved.value !in s.outputs
  {
    hide TablesHold;
    hide NumbersBelow;
    hide Unlisted;
    hide Install;
    hide InstallEdit;
    hide AreOutputs;
  }

  lemma {:induction false} NewOutputs(s: Sys, outs: seq<File>)
    requires forall n :: n in FileNumbers(outs) ==> n in s.outputs
    requires s.outputs.Keys <= Busy(s) && (forall n :: n in Busy(s) ==> NeverAdded(s.disk.edits, n))
    ensures forall f, l :: f in outs && 0 <= l < NUM_LEVELS ==> !Added(s.disk.edits, l, f.number)
    ensures forall m, l :: m in MetasOf(outs) && 0 <= l < NUM_LEVELS ==> !Added(s.disk.edits, l, m.number)
  {
    hide Added;
    hide Busy;
    forall f, l | f in outs && 0 <= l < NUM_LEVELS ensures !Added(s.disk.edits, l, f.number) {
      assert f.number in FileNumbers(outs) && NeverAdded(s.disk.edits, f.number);
    }
    forall m, l | m in MetasOf(outs) && 0 <= l < NUM_LEVELS ensures !Added(s.disk.edits, l, m.number) {
      MetaMembers(outs, m);
    }
  }

  lemma {:induction false} OutputsApart(v: Levels, level: nat, in0: seq<File>, outs: seq<File>)
    requires OutputNumbers(v, level, in0, outs) && OneFilePerNumber(v) && level + 1 < |v|
    requires forall f :: f in in0 ==> f in v[level]
    ensures forall lv, g :: 0 <= lv < |v| && lv <= level && g in v[lv] && !(lv == level && g in in0) ==>
              g.number !in FileNumbers(outs)
    ensures DistinctMetas(MetasOf(outs))
  {
    OutsAreNew(v, level, in0, outs);
    forall lv, g | 0 <= lv < |v| && lv <= level && g in v[lv] && !(lv == level && g in in0)
      ensures g.number !in FileNumbers(outs)
    {
      assert InVersion(v, g.number);
      forall f | f in outs ensures f.number != g.number {
        assert f in in0 ==> f in v[level];
      }
    }
  }

  lemma {:induction false} MetaBounds(outs: seq<File>, bound: nat)
    requires forall f :: f in outs ==> f.number < bound
    ensures forall m :: m in MetasOf(outs) ==> m.number < bound
  {
    forall m | m in MetasOf(outs) ensures m.number < bound {
      MetaMembers(outs, m);
    }
  }

  lemma {:induction false} InstalledBelow(v: Levels, v2: Levels, level: nat, in0: seq<File>, in1: seq<File>,
          outs: seq<File>, bound: nat)
    requires AllListed(v, v2, level, in0, in1, outs) && level + 1 < |v| && NumbersBelow(v2, bound)
    ensures forall f :: f in outs ==> f.number < bound
  {
    forall f | f in outs ensures f.number < bound {
      assert Listed(v, level, in0, in1, outs, level + 1, f);
      assert f in v2[level + 1];
    }
  }

  lemma {:induction false} LogFinishKeepsAdds(s: Sys, t: Sys, merged: seq<Entry>, outs: seq<File>, e: Edit)
    requires SysInv(s) && AddsInv(s) && s.up && LogFinishStep(s, t, merged, outs, e)
    ensures AddsInv(t)
  {
    hide *;
    RecordedBelow(s);
    AddsParts(s);
    FinishFacts(s, t, merged, outs, e);
    OutputsAreNumbered(s, outs);
    FinishInstalls(s.db, t.db, merged, outs);
    var c := s.db.running.value;
    var v, v2, edits := s.db.version, t.db.version, s.disk.edits;
    VersionParts(v, s.disk.tables);
    InstalledListed(v, v2, c.level, c.in0, c.in1, outs);
    NewOutputs(s, outs);
    OutputsApart(v, c.level, c.in0, outs);
    InstalledDeeper(edits, v, v2, c.level, c.in0, c.in1, outs);
    RecordedAfter(s, t, e, s.logNumber);
    InstallAdds(e, c.level, c.in0, c.in1, outs);
    InstalledBelow(v, v2, c.level, c.in0, c.in1, outs, e.nextFile.value);
    MetaBounds(outs, e.nextFile.value);
    MetaNumbers(outs);
    EditKeepsAdds(s, t, e, c.level + 1, MetasOf(outs));
  }

  // a trivial move

  lemma {:induction false} MoveFacts(s: Sys, t: Sys, level: nat, f: File, e: Edit)
    requires LogMoveStep(s, t, level, f, e) && NumbersTaken(s) && f in s.db.version[level]
    ensures InstallEdit(e, level, [f], [], [f]) && t.disk.edits == s.disk.edits + [e]
    ensures Counted(e, s.db, OnRecord(s.disk).numbers, s.logNumber, t.db.version)
    ensures t.db.reserved == s.db.reserved && Busy(t) == Busy(s) && f.number !in Busy(s)
    ensures s.db.reserved != Some(f.number)
  {
    assert InVersion(s.db.version, f.number);
    hide InVersion;
    hide NumbersBelow;
    hide Install;
    hide InstallEdit;
    hide WellPicked;
    hide Closed;
  }

  lemma {:induction false} MovedNew(edits: seq<Edit>, v: Levels, level: nat, f: File, bound: nat)
    requires NoneDeeper(edits, v) && level + 1 < |v| == NUM_LEVELS && f in v[level] && NumbersBelow(v, bound)
    ensures forall g, l :: g in [f] && level < l < NUM_LEVELS ==> !Added(edits, l, g.number)
    ensures forall m :: m in MetasOf([f]) ==> !Added(edits, level + 1, m.number) && m.number < bound
    ensures Numbers(MetasOf([f])) == {f.number} && DistinctMetas(MetasOf([f]))
  {
    hide Added;
    OneMeta(f);
  }

  lemma {:induction false} MovedApart(v: Levels, level: nat, f: File)
    requires OneFilePerNumber(v) && level < |v| && f in v[level]
    ensures forall lv, g :: 0 <= lv < |v| && lv <= level && g in v[lv] && !(lv == level && g in [f]) ==>
              g.number !in FileNumbers([f])
  {
  }

  lemma {:induction false} MovedDeeper(s: Sys, t: Sys, level: nat, f: File)
    requires SysInv(s) && NoneDeeper(s.disk.edits, s.db.version) && MoveStep(s.db, t.db, level, f)
    ensures NoneDeeper(s.disk.edits, t.db.version) && Clear(t.db.version, level + 1, MetasOf([f]))
    ensures forall m :: m in MetasOf([f]) ==>
              !Added(s.disk.edits, level + 1, m.number) && forall n :: NumbersBelow(t.db.version, n) ==> m.number < n
    ensures Numbers(MetasOf([f])) == {f.number} && DistinctMetas(MetasOf([f]))
  {
    hide *;
    RecordedBelow(s);
    MovesFile(s.db, t.db, level, f);
    var v, edits := s.db.version, s.disk.edits;
    VersionParts(v, s.disk.tables);
    InstalledListed(v, t.db.version, level, [f], [], [f]);
    MovedNew(edits, v, level, f, s.db.nextFile);
    MovedApart(v, level, f);
    InstalledDeeper(edits, v, t.db.version, level, [f], [], [f]);
    forall n | NumbersBelow(t.db.version, n) ensures forall m :: m in MetasOf([f]) ==> m.number < n {
      InstalledBelow(v, t.db.version, level, [f], [], [f], n);
      MetaBounds([f], n);
    }
  }

  lemma {:induction false} LogMoveKeepsAdds(s: Sys, t: Sys, level: nat, f: File, e: Edit)
    requires SysInv(s) && AddsInv(s) && s.up && LogMoveStep(s, t, level, f, e)
    ensures AddsInv(t)
  {
    hide *;
    RecordedBelow(s);
    AddsParts(s);
    MoveOf(s, t, level, f, e);
    MovesFile(s.db, t.db, level, f);
    MoveFacts(s, t, level, f, e);
    MovedDeeper(s, t, level, f);
    RecordedAfter(s, t, e, s.logNumber);
    InstallAdds(e, level, [f], [], [f]);
    EditKeepsAdds(s, t, e, level + 1, MetasOf([f]));
  }

  lemma {:induction false} MoveOf(s: Sys, t: Sys, level: nat, f: File, e: Edit)
    requires LogMoveStep(s, t, level, f, e)
    ensures MoveStep(s.db, t.db, level, f)
  {
    hide MoveStep;
    hide InstallEdit;
  }

  lemma {:induction false} UpKeepsAdds(s: Sys, t: Sys, act: Act)
    requires SysInv(s) && AddsInv(s) && s.up && UpStep(s, t, act)
    ensures AddsInv(t)
  {
    hide SysInv;
    hide AddsInv;
    hide LogFlushStep;
    hide LogEmptyFlushStep;
    hide LogFinishStep;
    hide LogMoveStep;
    match act
    case LogFlush(level, f, e) => LogFlushKeepsAdds(s, t, level, f, e);
    case LogEmptyFlush(e) => LogEmptyFlushKeepsAdds(s, t, e);
    case LogFinish(merged, outs, e) => LogFinishKeepsAdds(s, t, merged, outs, e);
    case LogMove(level, f, e) => LogMoveKeepsAdds(s, t, level, f, e);
    case _ => QuietUpKeeps(s, t, act);
  }

  // ----- opening

  lemma {:induction false} SnapshotAdds(v: Levels, p: Pointers, l: nat)
    requires l < |v|
    ensures AllAdds([SnapshotEdit([], LevelMetas(v), p)], l) == MetasOf(v[l])
  {
    var levels := LevelMetas(v);
    FileListAt(levels, |levels|, l);
    AllAddsSnoc([], SnapshotEdit([], levels, p), l);
    assert [] + [SnapshotEdit([], levels, p)] == [SnapshotEdit([], levels, p)];
    assert [] + MetasOf(v[l]) == MetasOf(v[l]);
  }

  lemma {:induction false} AddedBySnapshot(v: Levels, p: Pointers, l: nat, n: nat)
    requires l < |v|
    ensures Added([SnapshotEdit([], LevelMetas(v), p)], l, n) <==> n in FileNumbers(v[l])
  {
    SnapshotAdds(v, p, l);
    MetaNumbers(v[l]);
    hide SnapshotEdit;
  }

  /** The snapshot at the head of a new manifest adds each file once, at its level. */
  lemma {:induction false} SnapshotAddsOk(v: Levels, p: Pointers, bound: nat)
    requires |v| == NUM_LEVELS && LevelsSorted(v) && OneFilePerNumber(v) && NumbersBelow(v, bound)
    ensures AddsOk([SnapshotEdit([], LevelMetas(v), p)], v, bound)
  {
    var edits := [SnapshotEdit([], LevelMetas(v), p)];
    OrderedMetas(v);
    hide SnapshotEdit;
    AddsOnceAt(edits);
    forall l | 0 <= l < NUM_LEVELS ensures AddedOnce([], edits, l) {
      SnapshotAdds(v, p, l);
      AddedOnceIs(edits, l);
      assert LevelMetas(v)[l] == MetasOf(v[l]);
    }
    hide AddsOnce;
    hide Added;
    forall lv, f, l | 0 <= lv < |v| && f in v[lv] && lv < l < NUM_LEVELS ensures !Added(edits, l, f.number) {
      AddedBySnapshot(v, p, l, f.number);
    }
    forall l, m | 0 <= l < NUM_LEVELS && m in AllAdds(edits, l) ensures m.number < bound {
      SnapshotAdds(v, p, l);
      MetaMembers(v[l], m);
    }
  }

  lemma {:induction false} OpenParts(s: Sys, t: Sys, v: Levels, groups: seq<seq<Entry>>, files: seq<File>, e: Edit)
    requires DiskOk(s.disk, s.db) && OpenStep(s, t, v, groups, files, e) && ReadBack(s.disk) == OnRecord(s.disk)
    ensures v == s.db.version && t.current == t.db.version && t.db.reserved.None? && Busy(t) == {}
    ensures OnRecord(s.disk).numbers.nextFile.Some?
    ensures var bound := OnRecord(s.disk).numbers.nextFile.value;
            && bound <= t.db.nextFile && AreRecovered(files, groups, s.disk, bound) && NumbersBelow(v, bound)
            && forall f :: f in files ==> f.number < t.db.nextFile
    ensures t.disk.edits == [SnapshotEdit([], LevelMetas(v), OnRecord(s.disk).pointers)] + [e]
    ensures AddsOnly(e, 0, MetasOf(files)) && e.nextFile == Some(t.db.nextFile)
    ensures |v| == NUM_LEVELS > 0 && LevelsSorted(v) && OneFilePerNumber(v)
    ensures SameExcept(v, t.current, {0}) && LevelEdited(v[0], t.current[0], {}, Elems(files))
  {
    hide *;
    OpenFields(s, t, v, groups, files, e);
    RecoveredVersion(s.disk, s.db, v, groups, files, t.current, t.db.lastSequence);
    RecoversParts(s.disk, v, groups, files, t.current, t.db.lastSequence);
    OpenAdds(e, files, t.logFile, t.db.nextFile, t.db.lastSequence);
    RecordBounds(s.disk, s.db);
    VersionParts(v, s.disk.tables);
  }

  lemma {:induction false} OpenFields(s: Sys, t: Sys, v: Levels, groups: seq<seq<Entry>>, files: seq<File>, e: Edit)
    requires OpenStep(s, t, v, groups, files, e)
    ensures Recovers(s.disk, v, groups, files, t.current, t.db.lastSequence)
    ensures ReadBack(s.disk).numbers.nextFile.Some? && ReadBack(s.disk).numbers.nextFile.value <= t.db.nextFile
    ensures OpenEdit(e, files, t.logFile, t.db.nextFile, t.db.lastSequence)
    ensures forall f :: f in files ==> f.number < t.db.nextFile
    ensures t.current == t.db.version && t.db.reserved.None? && Busy(t) == {}
    ensures t.disk.edits == [SnapshotEdit([], LevelMetas(v), ReadBack(s.disk).pointers)] + [e]
  {
    hide ReadBack;
    hide TablesHold;
    hide AreRecovered;
    hide LevelEdited;
    hide OpenEdit;
    hide SnapshotEdit;
    hide Tail;
  }

  lemma {:induction false} OpenAdds(e: Edit, files: seq<File>, logNumber: nat, nextFile: nat, lastSequence: nat)
    requires OpenEdit(e, files, logNumber, nextFile, lastSequence)
    ensures AddsOnly(e, 0, MetasOf(files)) && e.nextFile == Some(nextFile)
  {
    hide MetasOf;
  }

  lemma {:induction false} RecordBounds(disk: Disk, db: Db)
    requires DiskOk(disk, db)
    ensures |db.version| == NUM_LEVELS > 0 && VersionOnDisk(db.version, disk.tables)
    ensures OnRecord(disk).numbers.nextFile.Some? && NumbersBelow(db.version, OnRecord(disk).numbers.nextFile.value)
  {
    assert DbOk(db.mem, ImmEntries(db.imm), db.version);
    hide Inv;
    hide OnRecord;
    hide VersionOnDisk;
    hide NumbersBelow;
    hide TailOk;
  }

  lemma {:induction false} OpenedDeeper(edits: seq<Edit>, v: Levels, v2: Levels, files: seq<File>, bound: nat)
    requires NoneDeeper(edits, v) && AddsBelow(edits, bound) && forall f :: f in files ==> bound <= f.number
    requires |v| > 0 && SameExcept(v, v2, {0}) && LevelEdited(v[0], v2[0], {}, Elems(files))
    ensures NoneDeeper(edits, v2) && Clear(v2, 0, MetasOf(files))
    ensures forall m :: m in MetasOf(files) ==> !Added(edits, 0, m.number)
  {
    GrownMembers(v, v2, files);
    hide LevelEdited;
    hide Added;
    hide AddsBelow;
    forall f | f in files ensures NeverAdded(edits, f.number) {
      BelowIsNew(edits, bound, f.number);
    }
    forall m | m in MetasOf(files) ensures !Added(edits, 0, m.number) {
      MetaMembers(files, m);
    }
  }

  lemma {:induction false} RecoveredMetas(files: seq<File>)
    requires DistinctNumbers(files)
    ensures DistinctMetas(MetasOf(files))
  {
  }

  lemma {:induction false} OkParts(edits: seq<Edit>, v: Levels, bound: nat)
    requires AddsOk(edits, v, bound)
    ensures NoneDeeper(edits, v) && AddsBelow(edits, bound)
  {
    hide NoneDeeper;
    hide AddsBelow;
  }

  lemma {:induction false} AddsInvOf(t: Sys, nextFile: nat)
    requires AddsOk(t.disk.edits, t.db.version, nextFile) && OnRecord(t.disk).numbers.nextFile == Some(nextFile)
    requires t.db.reserved.None? && Busy(t) == {}
    ensures AddsInv(t)
  {
    hide OnRecord;
    hide AddsOk;
    hide Busy;
  }

  lemma {:induction false} AppliedNext(e: Edit)
    ensures e.nextFile.Some? ==> ApplyNumbers(NO_NUMBERS, e).nextFile == e.nextFile
  {
  }

  lemma {:induction false} DiskOf(s: Sys)
    requires SysInv(s)
    ensures DiskOk(s.disk, s.db)
  {
    hide DiskOk;
  }

  lemma {:induction false} OpenKeepsAdds(s: Sys, t: Sys, v: Levels, groups: seq<seq<Entry>>, files: seq<File>, e: Edit)
    requires SysInv(s) && AddsInv(s) && OpenStep(s, t, v, groups, files, e)
    ensures AddsInv(t)
  {
    hide *;
    DiskOf(s);
    ReadsBackRecord(s);
    OpenParts(s, t, v, groups, files, e);
    var bound, p := OnRecord(s.disk).numbers.nextFile.value, OnRecord(s.disk).pointers;
    var snapshot := SnapshotEdit([], LevelMetas(v), p);
    RecoveredShape(files, groups, s.disk, bound);
    RecoveredMetas(files);
    SnapshotAddsOk(v, p, bound);
    OkParts([snapshot], v, bound);
    OpenedDeeper([snapshot], v, t.current, files, bound);
    MetaBounds(files, t.db.nextFile);
    AddsAfter([snapshot], v, t.current, bound, t.db.nextFile, e, 0, MetasOf(files));
    OpenManifest(s, t, v, groups, files, e);
    AppliedNext(e);
    AddsInvOf(t, t.db.nextFile);
  }

  // ----- the other steps

  lemma {:induction false} CrashKeepsAdds(s: Sys, t: Sys)
    requires AddsInv(s) && t == s.(up := false)
    ensures AddsInv(t)
  {
    hide OnRecord;
    hide AddsOk;
  }

  lemma {:induction false} DownKeepsAdds(s: Sys, t: Sys)
    requires AddsInv(s) && !t.up && t.disk.edits == s.disk.edits && t.db.version == s.db.version
    ensures AddsInv(t)
  {
    SameEdits(s.disk, t.disk);
    hide OnRecord;
    hide AddsOk;
  }

  lemma {:induction false} NextKeepsAdds(s: Sys, t: Sys, act: Act)
    requires SysInv(s) && AddsInv(s) && NextSys(s, t, act)
    ensures AddsInv(t)
  {
    hide SysInv;
    hide AddsInv;
    hide OpenStep;
    hide ReadBack;
    if act.Crash? {
      CrashKeepsAdds(s, t);
    } else if s.up {
      hide UpStep;
      UpKeepsAdds(s, t, act);
    } else {
      match act
      case RecoverTable(number, entries) => DownKeepsAdds(s, t);
      case CreateLog(number) => DownKeepsAdds(s, t);
      case Open(v, groups, files, e) => OpenKeepsAdds(s, t, v, groups, files, e);
      case _ =>
    }
  }

  lemma {:induction false} InitAdds(s: Sys)
    requires InitSys(s)
    ensures AddsInv(s)
  {
    var e := s.disk.edits[0];
    assert s.disk.edits == [] + [e];
    HistorySnoc(Fresh(), [], e);
    forall l | 0 <= l < NUM_LEVELS ensures AllAdds(s.disk.edits, l) == [] {
      AllAddsSnoc([], e, l);
    }
    AddsOnceAt(s.disk.edits);
    hide History;
    hide ApplyLevels;
  }
}
