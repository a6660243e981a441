/**
 The records VersionSet::LogAndApply writes are those the steps of the store assume: its counters, its log number and
 its files. A version set that drives the store drives it again when the step is installed.
 */
module DurableEdits {
  import opened Entries
  import opened Files
  import opened Versions
  import opened Transitions
  import opened Engine
  import opened EngineProof
  import opened VersionEdits
  import opened VersionBuilder
  import opened Manifest
  import opened ManifestReplay
  import opened Durable
  import opened DurableFiles
  import opened DurableProof
  import opened DurableAdds
  import opened DurableRuns

  /** The manifest is the version set's, and the counters are. */
  ghost predicate Records(vs: VersionSet, s: Sys)
    reads vs
  {
    vs.records == s.disk.edits && vs.nextFileNumber == s.db.nextFile && vs.lastSequence == s.db.lastSequence
  }

  /** So are the current version and the log number, when nothing is being installed. */
  ghost predicate Drives(vs: VersionSet, s: Sys)
    reads vs
  {
    Records(vs, s) && vs.current == LevelMetas(s.current) && vs.logNumber == s.logNumber
  }

  // ----- a record with the current counters

  lemma {:induction false} RecordIsCounted(e: Edit, s: Sys, logNumber: nat, v: Levels)
    requires ManifestOk(OnRecord(s.disk), s.db) && NumbersBelow(v, s.db.nextFile)
    requires e.logNumber == Some(logNumber) && e.nextFile == Some(s.db.nextFile)
    requires e.lastSequence == Some(s.db.lastSequence)
    ensures Counted(e, s.db, OnRecord(s.disk).numbers, logNumber, v)
    ensures FlushCounted(e, s.db, OnRecord(s.disk).numbers, logNumber, v)
  {
    hide OnRecord, NumbersBelow;
  }

  lemma {:induction false} NewAddsOnce(v: Levels, e: Edit, level: nat, outs: seq<File>)
    requires OneFilePerNumber(v) && |v| == NUM_LEVELS && AddsOnly(e, level, MetasOf(outs))
    requires DistinctMetas(MetasOf(outs)) && level < |v| && NewNumbers(v[level], outs)
    requires forall l :: 0 <= l < |v| ==> DistinctMetas(MetasOf(v[l]))
    ensures AddsOnce(LevelMetas(v), [e])
  {
    hide DistinctMetas;
    forall l | 0 <= l < |v| ensures AddedOnce(LevelMetas(v)[l], [e], l) {
      OneEditAllAdds(e, l);
      if l == level {
        DisjointMetas(v[l], outs);
        DistinctAppend(MetasOf(v[l]), MetasOf(outs));
      } else {
        assert MetasOf(v[l]) + [] == MetasOf(v[l]);
      }
    }
  }

  /** What the store's invariant says where an edit is logged. */
  lemma {:induction false} WhereLogged(s: Sys)
    requires SysInv(s) && s.up && !s.installing
    ensures ManifestOk(OnRecord(s.disk), s.db) && VersionOnDisk(s.db.version, s.disk.tables)
    ensures |s.db.version| == NUM_LEVELS && NumbersBelow(s.db.version, s.db.nextFile)
    ensures s.current == s.db.version && s.logNumber <= s.logFile < s.db.nextFile
    ensures OneFilePerNumber(s.db.version) && NumbersTaken(s) && FilesKept(s)
  {
    InvParts(s);
    InvNumbers(s.db);
    VersionParts(s.db.version, s.disk.tables);
    hide Inv, OnRecord, VersionOnDisk, TailOk, NumbersTaken, FilesKept, ManifestOk;
    LevelsOf(s);
  }

  lemma {:induction false} LevelsOf(s: Sys)
    requires ManifestOk(OnRecord(s.disk), s.db)
    ensures |s.db.version| == NUM_LEVELS
  {
    hide NumbersBelow;
    HistoryParts(Fresh(), s.disk.edits);
    assert |LevelMetas(s.db.version)| == |s.db.version|;
  }

  lemma {:induction false} MetasAreDistinct(vs: VersionSet, v: Levels)
    requires GoodLevels(vs.c, vs.current) && vs.current == LevelMetas(v)
    ensures forall l :: 0 <= l < |v| ==> DistinctMetas(MetasOf(v[l]))
  {
    hide DistinctMetas, MetasOf;
    forall l | 0 <= l < |v| ensures DistinctMetas(MetasOf(v[l])) {
      assert LevelMetas(v)[l] == MetasOf(v[l]);
    }
  }

  /** LogAndApply on the version set of the store, of an edit that adds new tables to one level. */
  method WriteEdit(vs: VersionSet, edit: Edit, ghost s: Sys, ghost v: Levels, ghost level: nat, ghost outs: seq<File>)
    returns (ghost e: Edit)
    requires vs.Valid() && vs.log != null && Drives(vs, s) && SysInv(s) && s.up && !s.installing
    requires ValidEdit(vs.c, vs.Completed(edit)) && edit.comparator.None?
    requires edit.logNumber.Some? ==> edit.logNumber.value == s.logFile
    requires AddsOnly(edit, level, MetasOf(outs)) && DistinctMetas(MetasOf(outs))
    requires level < |s.db.version| && NewNumbers(s.db.version[level], outs) && NumbersBelow(v, s.db.nextFile)
    modifies vs, vs.log
    ensures vs.Valid() && vs.log == old(vs.log) && vs.records == s.disk.edits + [e]
    ensures vs.nextFileNumber == s.db.nextFile && vs.lastSequence == s.db.lastSequence
    ensures e.comparator == edit.comparator && e.deleted == edit.deleted && e.added == edit.added
    ensures var logNumber := if edit.logNumber.Some? then s.logFile else s.logNumber;
            && vs.logNumber == logNumber
            && Counted(e, s.db, OnRecord(s.disk).numbers, logNumber, v)
            && FlushCounted(e, s.db, OnRecord(s.disk).numbers, logNumber, v)
  {
    hide *;
    WhereLogged(s);
    DrivesMeans(vs, s);
    ValidMeans(vs);
    MetasAreDistinct(vs, s.db.version);
    NewAddsOnce(s.db.version, edit, level, outs);
    vs.LogAndApply(edit);
    e := vs.records[|vs.records| - 1];
    RecordIsCounted(e, s, vs.logNumber, v);
  }

  lemma {:induction false} DrivesMeans(vs: VersionSet, s: Sys)
    requires Drives(vs, s)
    ensures vs.records == s.disk.edits && vs.nextFileNumber == s.db.nextFile && vs.lastSequence == s.db.lastSequence
    ensures vs.current == LevelMetas(s.current) && vs.logNumber == s.logNumber
  {
    hide LevelMetas;
  }

  lemma {:induction false} ValidMeans(vs: VersionSet)
    requires vs.Valid()
    ensures GoodLevels(vs.c, vs.current)
    ensures vs.log != null ==> UpToCounters(History(Fresh(), vs.records), vs.Now())
  {
    hide GoodLevels, EncodeAll, GoodCodec, UpToCounters, History;
  }

  // ----- the steps

  /** The record of the durable version, once the mutex is back, makes it the current one. */
  lemma {:induction false} DrivesInstalled(vs: VersionSet, t: Sys, u: Sys)
    requires vs.Valid() && vs.log != null && Records(vs, t) && SysInv(t) && InstallStep(t, u)
    ensures Drives(vs, u) && vs.current == LevelMetas(t.db.version)
  {
    ValidMeans(vs);
    InvParts(t);
    hide SysInv, History, GoodLevels, LevelMetas, TailOk, LogsSplit, NumbersTaken, FilesKept, VersionOnDisk, Inv;
  }

  /**
   CompactMemTable: the edit names the current log, and what LogAndApply writes of it is the flush step of the store.
   When the step is installed the version set drives the store again.
   */
  method LogFlushed(vs: VersionSet, edit: Edit, ghost s: Sys, ghost db: Db, ghost level: nat, ghost f: File)
    returns (ghost t: Sys, ghost e: Edit)
    requires vs.Valid() && vs.log != null && Drives(vs, s) && SysInv(s) && s.up && !s.installing && s.flushed
    requires FlushStep(s.db, db, level, f) && FlushEdit(edit, level, f) && edit.logNumber == Some(s.logFile)
    requires ValidEdit(vs.c, vs.Completed(edit))
    modifies vs, vs.log
    ensures vs.Valid() && vs.log == old(vs.log) && Records(vs, t) && t.db == db
    ensures NextSys(s, t, LogFlush(level, f, e)) && SysInv(t)
    ensures forall u :: InstallStep(t, u) ==> Drives(vs, u)
  {
    hide *;
    WhereLogged(s);
    FlushesNew(s, db, level, f);
    EditOfFlush(edit, level, f);
    e := WriteEdit(vs, edit, s, db.version, level, [f]);
    t := s.(disk := s.disk.(edits := s.disk.edits + [e]), db := db, installing := true, flushed := false);
    FlushIsLogged(s, t, level, f, edit, e);
    LogFlushKeeps(s, t, level, f, e);
    RecordsOf(vs, t);
    forall u | InstallStep(t, u) ensures Drives(vs, u) {
      DrivesInstalled(vs, t, u);
    }
  }

  lemma {:induction false} RecordsOf(vs: VersionSet, t: Sys)
    requires vs.records == t.disk.edits && vs.nextFileNumber == t.db.nextFile && vs.lastSequence == t.db.lastSequence
    ensures Records(vs, t)
  {
  }

  lemma {:induction false} FlushesNew(s: Sys, db: Db, level: nat, f: File)
    requires SysInv(s) && s.up && FlushStep(s.db, db, level, f) && s.flushed
    requires NumbersTaken(s) && FilesKept(s) && VersionOnDisk(s.db.version, s.disk.tables)
    requires NumbersBelow(s.db.version, s.db.nextFile)
    ensures level < |s.db.version| && NewNumbers(s.db.version[level], [f]) && NumbersBelow(db.version, s.db.nextFile)
    ensures db.nextFile == s.db.nextFile && db.lastSequence == s.db.lastSequence
  {
    InvParts(s);
    ReservedBelow(s.db);
    hide SysInv, Inv, VersionOnDisk, NumbersBelow, TablesHold, InVersion, LogsSplit, TailOk, ManifestOk;
    FlushParts(s.db, db, level, f);
    assert Unlisted(s, f.number);
    FlushKeepsVersion(s.db.version, db.version, level, f, s.disk.tables, s.db.nextFile);
    UnlistedIsNew(s.db.version, f.number, level, f);
  }

  lemma {:induction false} FlushParts(s: Db, t: Db, level: nat, f: File)
    requires FlushStep(s, t, level, f)
    ensures s.imm == Some(f.entries) && s.reserved == Some(f.number)
    ensures FlushPlaced(s.version, t.version, level, f) && level < |s.version|
    ensures t == s.(imm := None, version := t.version, reserved := None)
  {
    hide LevelEdited, ValidFile;
  }

  lemma {:induction false} EditOfFlush(e: Edit, level: nat, f: File)
    requires FlushEdit(e, level, f)
    ensures AddsOnly(e, level, MetasOf([f])) && DistinctMetas(MetasOf([f])) && e.comparator.None?
  {
    FlushAdds(e, level, f);
    OneMeta(f);
    hide AddsOnly;
  }

  lemma {:induction false} FlushIsLogged(s: Sys, t: Sys, level: nat, f: File, edit: Edit, e: Edit)
    requires s.up && !s.installing && s.flushed && FlushStep(s.db, t.db, level, f) && FlushEdit(edit, level, f)
    requires e.comparator == edit.comparator && e.deleted == edit.deleted && e.added == edit.added
    requires FlushCounted(e, s.db, OnRecord(s.disk).numbers, s.logFile, t.db.version)
    requires t == s.(disk := s.disk.(edits := s.disk.edits + [e]), db := t.db, installing := true, flushed := false)
    ensures NextSys(s, t, LogFlush(level, f, e)) && LogFlushStep(s, t, level, f, e)
  {
    hide FlushStep, FlushCounted, OnRecord;
  }

  /**
   InstallCompactionResults: the edit names no log, so the one the manifest names stays. What LogAndApply writes is the
   step that ends the compaction.
   */
  method LogFinished(vs: VersionSet, edit: Edit, ghost s: Sys, ghost db: Db, ghost merged: seq<Entry>,
          ghost outs: seq<File>)
    returns (ghost t: Sys, ghost e: Edit)
    requires vs.Valid() && vs.log != null && Drives(vs, s) && SysInv(s) && s.up && !s.installing
    requires s.db.running.Some? && AreOutputs(outs, s.outputs)
    requires FinishStep(s.db, db, merged, outs) && db.nextFile == s.db.nextFile
    requires edit.logNumber.None?
    requires InstallEdit(edit, s.db.running.value.level, s.db.running.value.in0, s.db.running.value.in1, outs)
    requires ValidEdit(vs.c, vs.Completed(edit))
    modifies vs, vs.log
    ensures vs.Valid() && vs.log == old(vs.log) && Records(vs, t) && t.db == db
    ensures NextSys(s, t, LogFinish(merged, outs, e)) && SysInv(t)
    ensures forall u :: InstallStep(t, u) ==> Drives(vs, u)
  {
    hide *;
    WhereLogged(s);
    FinishesNew(s, db, merged, outs);
    ghost var c := s.db.running.value;
    EditOfFinish(edit, c.level, c.in0, c.in1, outs);
    e := WriteEdit(vs, edit, s, db.version, c.level + 1, outs);
    t := s.(disk := s.disk.(edits := s.disk.edits + [e]), db := db, installing := true);
    FinishIsLogged(s, t, merged, outs, edit, e);
    LogFinishKeeps(s, t, merged, outs, e);
    RecordsOf(vs, t);
    forall u | InstallStep(t, u) ensures Drives(vs, u) {
      DrivesInstalled(vs, t, u);
    }
  }

  lemma {:induction false} EditOfFinish(e: Edit, level: nat, in0: seq<File>, in1: seq<File>, outs: seq<File>)
    requires InstallEdit(e, level, in0, in1, outs)
    ensures AddsOnly(e, level + 1, MetasOf(outs)) && e.comparator.None?
  {
    InstallAdds(e, level, in0, in1, outs);
    hide AddsOnly, RemovedAt, MetasOf;
  }

  lemma {:induction false} FinishesNew(s: Sys, db: Db, merged: seq<Entry>, outs: seq<File>)
    requires SysInv(s) && s.db.running.Some? && AreOutputs(outs, s.outputs)
    requires FinishStep(s.db, db, merged, outs) && db.nextFile == s.db.nextFile
    requires NumbersTaken(s) && FilesKept(s) && VersionOnDisk(s.db.version, s.disk.tables)
    requires NumbersBelow(s.db.version, s.db.nextFile) && OneFilePerNumber(s.db.version)
    ensures var level := s.db.running.value.level;
            level + 1 < |s.db.version| && NewNumbers(s.db.version[level + 1], outs)
    ensures DistinctMetas(MetasOf(outs)) && NumbersBelow(db.version, s.db.nextFile)
    ensures db.lastSequence == s.db.lastSequence
  {
    hide *;
    OutputsAreNumbered(s, outs);
    FinishInstalls(s.db, db, merged, outs);
    var c := s.db.running.value;
    InstallParts(s.db.version, db.version, c.level, c.in0, c.in1, outs);
    OutsAreNew(s.db.version, c.level, c.in0, outs);
    InstallKeepsVersion(s.db.version, db.version, c.level, c.in0, c.in1, outs, s.disk.tables, s.db.nextFile);
  }

  lemma {:induction false} InstallParts(v: Levels, v2: Levels, level: nat, in0: seq<File>, in1: seq<File>,
          outs: seq<File>)
    requires Install(v, v2, level, in0, in1, outs)
    ensures level + 1 < |v| && forall f :: f in in0 ==> f in v[level]
  {
    hide ValidFiles, SortedDisjoint, SameExcept, LevelEdited, OthersBeside;
    forall f | f in in0 ensures f in v[level] {
      assert f in Elems(in0) && f in Elems(v[level]);
    }
  }

  lemma {:induction false} FinishIsLogged(s: Sys, t: Sys, merged: seq<Entry>, outs: seq<File>, edit: Edit, e: Edit)
    requires s.up && !s.installing && s.db.running.Some? && AreOutputs(outs, s.outputs)
    requires FinishStep(s.db, t.db, merged, outs) && t.db.nextFile == s.db.nextFile
    requires InstallEdit(edit, s.db.running.value.level, s.db.running.value.in0, s.db.running.value.in1, outs)
    requires e.comparator == edit.comparator && e.deleted == edit.deleted && e.added == edit.added
    requires Counted(e, s.db, OnRecord(s.disk).numbers, s.logNumber, t.db.version)
    requires t == s.(disk := s.disk.(edits := s.disk.edits + [e]), db := t.db, installing := true)
    ensures NextSys(s, t, LogFinish(merged, outs, e)) && LogFinishStep(s, t, merged, outs, e)
  {
    hide FinishStep, Counted, OnRecord, AreOutputs;
  }
}
