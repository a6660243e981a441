/**
 The store and its files: write-ahead logs, tables, the manifest, crashes at any step, and recovery.

 `db` is the durable view of the store: what the files hold. A group of writes enters it when its log record is
 complete, a flush or a compaction when its edit is in the manifest. The version readers use (`current`) follows
 one step later, when LogAndApply has the mutex back.
 */
module Durable {
  import opened Entries
  import opened Files
  import opened Versions
  import opened Compactions
  import opened Transitions
  import opened Engine
  import opened VersionEdits
  import opened VersionBuilder
  import opened Manifest
  import opened ManifestReplay

  // ----- the files

  /** A log file: the batches whose records are complete. A torn record at its end is not read back. */
  datatype Log = Log(number: nat, batches: seq<seq<Entry>>)

  /** `edits` are the records of the manifest CURRENT names. */
  datatype Disk = Disk(logs: seq<Log>, tables: map<nat, seq<Entry>>, edits: seq<Edit>)

  /** The state the manifest's edits produced, one after the other. */
  function OnRecord(disk: Disk): State {
    History(Fresh(), disk.edits)
  }

  /** What VersionSet::Recover reads back: the same edits through one builder. */
  function ReadBack(disk: Disk): State {
    Replayed(disk.edits)
  }

  /** The batches of all logs numbered n or higher, in log order. */
  function TailBatches(logs: seq<Log>, n: nat): seq<seq<Entry>> {
    if logs == [] then []
    else TailBatches(logs[..|logs| - 1], n) + (if logs[|logs| - 1].number >= n then logs[|logs| - 1].batches else [])
  }

  function Tail(logs: seq<Log>, n: nat): seq<Entry> {
    Concat(TailBatches(logs, n))
  }

  function MetaOf(f: File): Meta {
    Meta(f.number, f.size, f.smallest, f.largest)
  }

  function MetasOf(files: seq<File>): seq<Meta> {
    seq(|files|, i requires 0 <= i < |files| => MetaOf(files[i]))
  }

  function LevelMetas(v: Levels): MetaLevels {
    seq(|v|, l requires 0 <= l < |v| => MetasOf(v[l]))
  }

  // ----- one write group

  /** Where MemTable::Add puts an entry. */
  function InsertEntry(mem: seq<Entry>, e: Entry): seq<Entry> {
    if mem == [] || Less(mem[|mem| - 1].ikey, e.ikey) then mem + [e]
    else InsertEntry(mem[..|mem| - 1], e) + [mem[|mem| - 1]]
  }

  function InsertAll(mem: seq<Entry>, batch: seq<Entry>): seq<Entry> {
    if batch == [] then mem else InsertEntry(InsertAll(mem, batch[..|batch| - 1]), batch[|batch| - 1])
  }

  function Appended(db: Db, batch: seq<Entry>): Db {
    db.(mem := InsertAll(db.mem, batch), inserted := db.inserted + |batch|, history := db.history + Elems(batch))
  }

  /** SetSequence: the entries of a group are numbered on from the last sequence number. */
  predicate Numbered(batch: seq<Entry>, last: nat) {
    && batch != [] && last + |batch| < MAX_SEQUENCE
    && forall i :: 0 <= i < |batch| ==> batch[i].ikey.seqno == last + 1 + i
  }

  // ----- edits

  function FileNumbers(files: seq<File>): set<nat> {
    set f | f in files :: f.number
  }

  /**
   The counters an edit carries. LogAndApply takes them before it releases the mutex to write the record: the writers
   may have moved on since, but neither is below what the manifest says, and no file of the new version is newer.
   */
  ghost predicate Counted(e: Edit, db: Db, m: NumberState, logNumber: nat, v: Levels) {
    && e.logNumber == Some(logNumber)
    && e.nextFile.Some? && m.nextFile.Some? && m.nextFile.value <= e.nextFile.value <= db.nextFile
    && NumbersBelow(v, e.nextFile.value)
    && e.lastSequence.Some? && m.lastSequence.Some? && m.lastSequence.value <= e.lastSequence.value <= db.lastSequence
  }

  /** Those of a flush are taken after the switch to the current log: until that has a record, nothing is published. */
  ghost predicate FlushCounted(e: Edit, db: Db, m: NumberState, logNumber: nat, v: Levels) {
    Counted(e, db, m, logNumber, v) && (db.mem == [] ==> e.lastSequence.value == db.lastSequence)
  }

  predicate FlushEdit(e: Edit, level: nat, f: File) {
    e.comparator.None? && e.deleted == [] && e.added == [(level, MetaOf(f))]
  }

  predicate InstallEdit(e: Edit, level: nat, in0: seq<File>, in1: seq<File>, outs: seq<File>) {
    && e.comparator.None?
    && (forall l :: 0 <= l < NUM_LEVELS ==> DeletedAt(e.deleted, l) == RemovedAt(l, level, in0, in1))
    && (forall l :: 0 <= l < NUM_LEVELS ==> AddsAt(e.added, l) == if l == level + 1 then MetasOf(outs) else [])
  }

  function RemovedAt(l: nat, level: nat, in0: seq<File>, in1: seq<File>): set<nat> {
    if l == level then FileNumbers(in0) else if l == level + 1 then FileNumbers(in1) else {}
  }

  // ----- the system

  datatype Sys = Sys(
    disk: Disk, up: bool, db: Db, current: Levels, installing: bool,
    held: Option<seq<Entry>>,                  // imm_ as readers see it, until the flush is installed
    logFile: nat, logNumber: nat,              // logfile_number_, versions_->log_number_
    pendingOutputs: set<nat>,
    flushed: bool,                             // the reserved table is written
    outputs: map<nat, seq<Entry>>,             // tables the running compaction has written
    pinned: seq<Levels>)                       // versions readers and the running compaction hold

  /** Files DeleteObsoleteFiles must keep. */
  ghost predicate IsLive(s: Sys, number: nat) {
    || number in s.pendingOutputs
    || InVersion(s.current, number)
    || exists i :: 0 <= i < |s.pinned| && InVersion(s.pinned[i], number)
  }

  ghost predicate InVersion(v: Levels, number: nat) {
    exists lv, f :: 0 <= lv < |v| && f in v[lv] && f.number == number
  }

  datatype Act =
    | Append(batch: seq<Entry>)
    | PublishGroup
    | SwitchLog
    | Snapshot
    | Release(i: nat)
    | Reserve
    | WriteTable
    | LogFlush(level: nat, f: File, e: Edit)
    | LogEmptyFlush(e: Edit)
    | Begin(level: nat, in0: seq<File>, in1: seq<File>)
    | AllocateOutput
    | WriteOutput(number: nat, entries: seq<Entry>)
    | LogFinish(merged: seq<Entry>, outs: seq<File>, e: Edit)
    | LogMove(level: nat, f: File, e: Edit)
    | InstallVersion
    | Pin
    | Unpin(i: nat)
    | Collect(tables: set<nat>, logs: set<nat>)
    | Crash
    | RecoverTable(number: nat, entries: seq<Entry>)
    | CreateLog(number: nat)
    | Open(v: Levels, groups: seq<seq<Entry>>, files: seq<File>, e: Edit)

  // ----- writers

  /** The leader's log record is complete; the group before it is published. */
  ghost predicate AppendStep(s: Sys, t: Sys, batch: seq<Entry>) {
    && s.disk.logs != [] && s.db.inserted == s.db.lastSequence && Numbered(batch, s.db.inserted)
    && var n := |s.disk.logs| - 1;
       var log := s.disk.logs[n];
       t == s.(disk := s.disk.(logs := s.disk.logs[n := log.(batches := log.batches + [batch])]),
               db := Appended(s.db, batch))
  }

  ghost predicate PublishStep(s: Sys, t: Sys) {
    t == s.(db := s.db.(lastSequence := s.db.inserted))
  }

  /** MakeRoomForWrite: a new log and a new memtable, once no immutable memtable is left, not even an installing one. */
  ghost predicate SwitchLogStep(s: Sys, t: Sys) {
    && s.held.None? && s.db.inserted == s.db.lastSequence
    && var n := s.db.nextFile;
       t == s.(disk := s.disk.(logs := s.disk.logs + [Log(n, [])]), logFile := n, held := Some(s.db.mem),
               db := s.db.(mem := [], imm := Some(s.db.mem), nextFile := n + 1))
  }

  // ----- the background thread

  ghost predicate ReserveTableStep(s: Sys, t: Sys) {
    && !s.installing && ReserveStep(s.db, t.db)
    && t == s.(db := t.db, pendingOutputs := s.pendingOutputs + {s.db.nextFile}, flushed := false)
  }

  /** BuildTable, after which the number leaves pending_outputs_, before the table is in any version. */
  ghost predicate WriteTableStep(s: Sys, t: Sys) {
    && !s.installing && s.db.reserved.Some? && s.db.imm.Some? && !s.flushed
    && var n := s.db.reserved.value;
       t == s.(disk := s.disk.(tables := s.disk.tables[n := s.db.imm.value]), flushed := true,
               pendingOutputs := s.pendingOutputs - {n})
  }

  ghost predicate LogFlushStep(s: Sys, t: Sys, level: nat, f: File, e: Edit) {
    && !s.installing && s.flushed && FlushStep(s.db, t.db, level, f)
    && FlushEdit(e, level, f) && FlushCounted(e, s.db, OnRecord(s.disk).numbers, s.logFile, t.db.version)
    && t == s.(disk := s.disk.(edits := s.disk.edits + [e]), db := t.db, installing := true, flushed := false)
  }

  /** A memtable without entries leaves no table, but its log is done with. */
  ghost predicate LogEmptyFlushStep(s: Sys, t: Sys, e: Edit) {
    && !s.installing && s.db.imm == Some([]) && s.db.reserved.Some?
    && e.comparator.None? && e.deleted == [] && e.added == []
    && FlushCounted(e, s.db, OnRecord(s.disk).numbers, s.logFile, s.db.version)
    && t == s.(disk := s.disk.(edits := s.disk.edits + [e]), db := s.db.(imm := None, reserved := None),
               installing := true, flushed := false, pendingOutputs := s.pendingOutputs - {s.db.reserved.value})
  }

  ghost predicate BeginStep(s: Sys, t: Sys, level: nat, in0: seq<File>, in1: seq<File>) {
    && !s.installing && StartStep(s.db, t.db, level, in0, in1)
    && t == s.(db := t.db, outputs := map[], pinned := s.pinned + [s.current])
  }

  ghost predicate AllocateStep(s: Sys, t: Sys) {
    && !s.installing && s.db.running.Some?
    && t == s.(db := s.db.(nextFile := s.db.nextFile + 1), pendingOutputs := s.pendingOutputs + {s.db.nextFile})
  }

  ghost predicate WriteOutputStep(s: Sys, t: Sys, number: nat, entries: seq<Entry>) {
    && !s.installing && s.db.running.Some? && number in s.pendingOutputs && s.db.reserved != Some(number)
    && t == s.(disk := s.disk.(tables := s.disk.tables[number := entries]), outputs := s.outputs[number := entries])
  }

  ghost predicate AreOutputs(outs: seq<File>, outputs: map<nat, seq<Entry>>) {
    && (forall f :: f in outs ==> f.number in outputs && outputs[f.number] == f.entries)
    && DistinctNumbers(outs)
  }

  ghost predicate LogFinishStep(s: Sys, t: Sys, merged: seq<Entry>, outs: seq<File>, e: Edit) {
    && !s.installing && s.db.running.Some? && AreOutputs(outs, s.outputs)
    && FinishStep(s.db, t.db, merged, outs) && t.db.nextFile == s.db.nextFile
    && InstallEdit(e, s.db.running.value.level, s.db.running.value.in0, s.db.running.value.in1, outs)
    && Counted(e, s.db, OnRecord(s.disk).numbers, s.logNumber, t.db.version)
    && t == s.(disk := s.disk.(edits := s.disk.edits + [e]), db := t.db, installing := true)
  }

  ghost predicate LogMoveStep(s: Sys, t: Sys, level: nat, f: File, e: Edit) {
    && !s.installing && MoveStep(s.db, t.db, level, f)
    && InstallEdit(e, level, [f], [], [f])
    && Counted(e, s.db, OnRecord(s.disk).numbers, s.logNumber, t.db.version)
    && t == s.(disk := s.disk.(edits := s.disk.edits + [e]), db := t.db, installing := true)
  }

  /** The end of LogAndApply, and CleanupCompaction when no compaction is left running. */
  ghost predicate InstallStep(s: Sys, t: Sys) {
    && s.installing && OnRecord(s.disk).numbers.logNumber.Some?
    && t == s.(installing := false, current := s.db.version, held := s.db.imm,
               logNumber := OnRecord(s.disk).numbers.logNumber.value,
               outputs := if s.db.running.Some? then s.outputs else map[],
               pendingOutputs := if s.db.running.Some? then s.pendingOutputs else s.pendingOutputs - s.outputs.Keys)
  }

  // ----- readers and the garbage collector

  ghost predicate UnpinStep(s: Sys, t: Sys, i: nat) {
    && i < |s.pinned| && t == s.(pinned := s.pinned[..i] + s.pinned[i + 1..])
  }

  function Without(logs: seq<Log>, numbers: set<nat>): seq<Log> {
    if logs == [] then []
    else Without(logs[..|logs| - 1], numbers) + (if logs[|logs| - 1].number in numbers then [] else [logs[|logs| - 1]])
  }

  /** DeleteObsoleteFiles, or as much of it as happens before a crash: called by the background thread only. */
  ghost predicate CollectStep(s: Sys, t: Sys, tables: set<nat>, logs: set<nat>) {
    && !s.installing && !s.flushed
    && (forall n :: n in tables ==> !IsLive(s, n))
    && (forall n :: n in logs ==> n < s.logNumber)
    && t == s.(disk := s.disk.(tables := s.disk.tables - tables, logs := Without(s.disk.logs, logs)))
  }

  // ----- recovery

  /** Where NewFileNumber starts after VersionSet::Recover and MarkFileNumberUsed on every log. */
  predicate IsUnused(disk: Disk, number: nat) {
    && (ReadBack(disk).numbers.nextFile.Some? ==> number >= ReadBack(disk).numbers.nextFile.value)
    && (ReadBack(disk).numbers.logNumber.Some? ==> number >= ReadBack(disk).numbers.logNumber.value)
    && forall log :: log in disk.logs ==> log.number < number
  }

  /** WriteLevel0Table during recovery: a number the manifest has not accounted for. */
  ghost predicate RecoverTableStep(s: Sys, t: Sys, number: nat, entries: seq<Entry>) {
    && ReadBack(s.disk).numbers.nextFile.Some? && number >= ReadBack(s.disk).numbers.nextFile.value
    && t == s.(disk := s.disk.(tables := s.disk.tables[number := entries]))
  }

  ghost predicate CreateLogStep(s: Sys, t: Sys, number: nat) {
    IsUnused(s.disk, number) && t == s.(disk := s.disk.(logs := s.disk.logs + [Log(number, [])]))
  }

  ghost predicate TablesHold(v: Levels, tables: map<nat, seq<Entry>>) {
    forall lv, f :: 0 <= lv < |v| && f in v[lv] ==> f.number in tables && tables[f.number] == f.entries
  }

  /** The tables recovery writes, one per memtable filled from the logs; the logs' batches may be cut anywhere. */
  ghost predicate AreRecovered(files: seq<File>, groups: seq<seq<Entry>>, disk: Disk, from: nat) {
    && |files| == |groups|
    && (forall i :: 0 <= i < |files| ==>
          && ValidFile(files[i]) && Elems(files[i].entries) == Elems(groups[i])
          && files[i].number in disk.tables && disk.tables[files[i].number] == files[i].entries
          && from <= files[i].number)
    && (forall i, j :: 0 <= i < j < |files| ==> files[i].number < files[j].number)
  }

  function LastSequence(tail: seq<Entry>, recorded: nat): nat {
    if tail != [] && tail[|tail| - 1].ikey.seqno > recorded then tail[|tail| - 1].ikey.seqno else recorded
  }

  /** DBImpl::Recover: the version v of the manifest plus the level-0 tables of the logs not yet in it. */
  ghost predicate Recovers(disk: Disk, v: Levels, groups: seq<seq<Entry>>, files: seq<File>, v2: Levels,
          lastSequence: nat) {
    && ReadBack(disk).numbers.nextFile.Some? && ReadBack(disk).numbers.logNumber.Some?
    && ReadBack(disk).numbers.lastSequence.Some?
    && LevelMetas(v) == ReadBack(disk).levels && TablesHold(v, disk.tables)
    && Concat(groups) == Tail(disk.logs, ReadBack(disk).numbers.logNumber.value)
    && AreRecovered(files, groups, disk, ReadBack(disk).numbers.nextFile.value)
    && SameExcept(v, v2, {0}) && |v| > 0 && LevelEdited(v[0], v2[0], {}, Elems(files))
    && lastSequence == LastSequence(Concat(groups), ReadBack(disk).numbers.lastSequence.value)
  }

  /** The edit DB::Open logs: the recovered tables, and the new log, before which no log is needed. */
  ghost predicate OpenEdit(e: Edit, files: seq<File>, logNumber: nat, nextFile: nat, lastSequence: nat) {
    && e.comparator.None? && e.deleted == [] && e.logNumber == Some(logNumber) && e.nextFile == Some(nextFile)
    && e.lastSequence == Some(lastSequence)
    && forall l :: 0 <= l < NUM_LEVELS ==> AddsAt(e.added, l) == if l == 0 then MetasOf(files) else []
  }

  /** DB::Open up to SetCurrentFile, which makes the new manifest count. */
  ghost predicate OpenStep(s: Sys, t: Sys, v: Levels, groups: seq<seq<Entry>>, files: seq<File>, e: Edit) {
    && Recovers(s.disk, v, groups, files, t.current, t.db.lastSequence)
    && s.disk.logs != [] && s.disk.logs[|s.disk.logs| - 1] == Log(t.logFile, [])
    && ReadBack(s.disk).numbers.logNumber.value <= t.logFile
    && t.logFile < t.db.nextFile && ReadBack(s.disk).numbers.nextFile.value <= t.db.nextFile
    && (forall f :: f in files ==> f.number < t.db.nextFile)
    && OpenEdit(e, files, t.logFile, t.db.nextFile, t.db.lastSequence)
    && t == Sys(s.disk.(edits := [SnapshotEdit([], LevelMetas(v), ReadBack(s.disk).pointers), e]), true,
                Db([], None, t.current, t.db.lastSequence, t.db.lastSequence, [], None, t.db.nextFile, None,
                    s.db.history),
                t.current, false, None, t.logFile, t.logFile, {}, false, map[], [])
  }

  ghost predicate UpStep(s: Sys, t: Sys, act: Act) {
    match act
    case Append(batch) => AppendStep(s, t, batch)
    case PublishGroup => PublishStep(s, t)
    case SwitchLog => SwitchLogStep(s, t)
    case Snapshot => t == s.(db := s.db.(snapshots := s.db.snapshots + [s.db.lastSequence]))
    case Release(i) =>
      && i < |s.db.snapshots|
      && t == s.(db := s.db.(snapshots := s.db.snapshots[..i] + s.db.snapshots[i + 1..]))
    case Reserve => ReserveTableStep(s, t)
    case WriteTable => WriteTableStep(s, t)
    case LogFlush(level, f, e) => LogFlushStep(s, t, level, f, e)
    case LogEmptyFlush(e) => LogEmptyFlushStep(s, t, e)
    case Begin(level, in0, in1) => BeginStep(s, t, level, in0, in1)
    case AllocateOutput => AllocateStep(s, t)
    case WriteOutput(number, entries) => WriteOutputStep(s, t, number, entries)
    case LogFinish(merged, outs, e) => LogFinishStep(s, t, merged, outs, e)
    case LogMove(level, f, e) => LogMoveStep(s, t, level, f, e)
    case InstallVersion => InstallStep(s, t)
    case Pin => t == s.(pinned := s.pinned + [s.current])
    case Unpin(i) => UnpinStep(s, t, i)
    case Collect(tables, logs) => CollectStep(s, t, tables, logs)
    case _ => false
  }

  ghost predicate DownStep(s: Sys, t: Sys, act: Act) {
    match act
    case RecoverTable(number, entries) => RecoverTableStep(s, t, number, entries)
    case CreateLog(number) => CreateLogStep(s, t, number)
    case Open(v, groups, files, e) => OpenStep(s, t, v, groups, files, e)
    case _ => false
  }

  /** A crash can come at any point, also during recovery: it leaves the files. */
  ghost predicate NextSys(s: Sys, t: Sys, act: Act) {
    if act.Crash? then t == s.(up := false)
    else if s.up then UpStep(s, t, act)
    else DownStep(s, t, act)
  }

  /** NewDB: a manifest for an empty database, and nothing else. The comparator's name stands here as the empty one. */
  ghost predicate InitSys(s: Sys) {
    && !s.up && Init(s.db) && s.db.nextFile >= 2
    && s.disk.logs == [] && s.disk.tables == map[] && |s.disk.edits| == 1
    && var e := s.disk.edits[0];
       e.comparator == Some([]) && e.logNumber == Some(0) && e.nextFile == Some(2) && e.lastSequence == Some(0)
       && e.compactPointers == [] && e.deleted == [] && e.added == []
  }

  // ----- the invariant

  predicate LevelsSorted(v: Levels) {
    forall lv :: 0 <= lv < |v| ==> SortedBySmallest(v[lv])
  }

  ghost predicate OneFilePerNumber(v: Levels) {
    forall l, m, f, g :: 0 <= l < |v| && 0 <= m < |v| && f in v[l] && g in v[m] && f.number == g.number
      ==> l == m && f == g
  }

  ghost predicate VersionOnDisk(v: Levels, tables: map<nat, seq<Entry>>) {
    LevelsSorted(v) && OneFilePerNumber(v) && TablesHold(v, tables)
  }

  ghost predicate NumbersBelow(v: Levels, n: nat) {
    forall lv, f :: 0 <= lv < |v| && f in v[lv] ==> f.number < n
  }

  /** The manifest names the durable version, and its counters are safe to start from. */
  ghost predicate ManifestOk(m: State, db: Db) {
    && m.levels == LevelMetas(db.version) && |m.pointers| == NUM_LEVELS
    && m.numbers.logNumber.Some? && m.numbers.nextFile.Some? && m.numbers.lastSequence.Some?
    && m.numbers.lastSequence.value <= db.lastSequence
    && m.numbers.nextFile.value <= db.nextFile && NumbersBelow(db.version, m.numbers.nextFile.value)
  }

  predicate AscendingLogs(logs: seq<Log>) {
    forall i, j :: 0 <= i < j < |logs| ==> logs[i].number < logs[j].number
  }

  predicate IncreasingSeqnos(es: seq<Entry>) {
    forall i, j :: 0 <= i < j < |es| ==> es[i].ikey.seqno < es[j].ikey.seqno
  }

  /** The logs the manifest still needs hold exactly what is not in the tables, up to the last sequence number. */
  ghost predicate TailOk(tail: seq<Entry>, db: Db, recorded: nat) {
    && IncreasingSeqnos(tail)
    && Elems(tail) == Elems(db.mem) + Elems(ImmEntries(db.imm))
    && LastSequence(tail, recorded) == db.inserted
  }

  ghost predicate DiskOk(disk: Disk, db: Db) {
    && Inv(db) && VersionOnDisk(db.version, disk.tables) && AscendingLogs(disk.logs)
    && ManifestOk(OnRecord(disk), db)
    && TailOk(Tail(disk.logs, OnRecord(disk).numbers.logNumber.value), db, OnRecord(disk).numbers.lastSequence.value)
  }

  /** The current log holds the memtable; the older logs still needed hold the immutable memtable. */
  ghost predicate LogsSplit(logs: seq<Log>, needed: nat, logFile: nat, db: Db) {
    && logs != [] && logs[|logs| - 1].number == logFile && needed <= logFile < db.nextFile
    && Elems(Concat(logs[|logs| - 1].batches)) == Elems(db.mem)
    && Elems(Tail(logs[..|logs| - 1], needed)) == Elems(ImmEntries(db.imm))
    && (db.mem == [] ==> db.inserted == db.lastSequence)
  }

  /** Whether the version lags behind the durable one, and if not, that it is the same. */
  ghost predicate InstallOk(s: Sys, needed: nat) {
    && s.logNumber <= needed
    && (!s.installing ==> s.current == s.db.version && s.held == s.db.imm && s.logNumber == needed)
    && (s.db.imm.Some? ==> s.held == s.db.imm)
  }

  /** Numbers taken but not yet in any version, apart from outputs whose edit is being installed. */
  function Busy(s: Sys): set<nat> {
    if s.db.running.Some? then s.pendingOutputs else s.pendingOutputs - s.outputs.Keys
  }

  ghost predicate Unlisted(s: Sys, n: nat) {
    && !InVersion(s.db.version, n) && !InVersion(s.current, n)
    && forall i :: 0 <= i < |s.pinned| ==> !InVersion(s.pinned[i], n)
  }

  ghost predicate NumbersTaken(s: Sys) {
    && (forall n :: n in s.pendingOutputs ==> n < s.db.nextFile)
    && (forall n :: n in Busy(s) ==> Unlisted(s, n))
    && (s.db.reserved.Some? ==> Unlisted(s, s.db.reserved.value) && s.db.reserved.value !in s.outputs)
    && NumbersBelow(s.current, s.db.nextFile)
    && (forall i :: 0 <= i < |s.pinned| ==> NumbersBelow(s.pinned[i], s.db.nextFile))
  }

  /** Every table of a live version, and every table written for one to come, is on disk. */
  ghost predicate FilesKept(s: Sys) {
    && TablesHold(s.current, s.disk.tables)
    && (forall i :: 0 <= i < |s.pinned| ==> TablesHold(s.pinned[i], s.disk.tables))
    && (forall n :: n in s.outputs ==> n in s.pendingOutputs && n in s.disk.tables && s.disk.tables[n] == s.outputs[n])
    && (s.flushed ==> s.db.reserved.Some? && s.db.imm.Some? && s.db.reserved.value in s.disk.tables
                      && s.disk.tables[s.db.reserved.value] == s.db.imm.value
                      && s.db.reserved.value !in s.pendingOutputs)
    && (s.db.running.None? && !s.installing ==> s.outputs == map[])
  }

  ghost predicate UpOk(s: Sys) {
    && OnRecord(s.disk).numbers.logNumber.Some?
    && LogsSplit(s.disk.logs, OnRecord(s.disk).numbers.logNumber.value, s.logFile, s.db)
    && InstallOk(s, OnRecord(s.disk).numbers.logNumber.value)
    && NumbersTaken(s) && FilesKept(s)
  }

  ghost predicate SysInv(s: Sys) {
    DiskOk(s.disk, s.db) && (s.up ==> UpOk(s))
  }
}
