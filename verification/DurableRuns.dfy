/**
 Whole runs of the store with its files: writes, switches, flushes, compactions, installations, deletions, crashes and
 recoveries in any order. What holds in every reachable state, running or crashed.
 */
module DurableRuns {
  import opened Entries
  import opened Files
  import opened Versions
  import opened Picking
  import opened Transitions
  import opened Engine
  import opened EngineProof
  import opened VersionEdits
  import opened VersionBuilder
  import opened Manifest
  import opened ManifestReplay
  import opened Durable
  import opened DurableFiles
  import opened DurableProof
  import opened DurableRecovery
  import opened DurableAdds
  import opened DurableReads

  /** The invariant: the files hold the store, the manifest reads back as written, and readers see the history. */
  ghost predicate StoreInv(s: Sys) {
    SysInv(s) && AddsInv(s) && ReadersOk(s)
  }

  // ----- every step

  lemma {:induction false} UpKeeps(s: Sys, t: Sys, act: Act)
    requires SysInv(s) && s.up && UpStep(s, t, act)
    ensures SysInv(t)
  {
    hide SysInv;
    match act
    case Append(batch) => AppendKeeps(s, t, batch);
    case PublishGroup => PublishKeeps(s, t);
    case SwitchLog => SwitchKeeps(s, t);
    case Snapshot => SnapshotsKeep(s, t, act);
    case Release(i) => SnapshotsKeep(s, t, act);
    case Reserve => ReserveKeeps(s, t);
    case WriteTable => WriteTableKeeps(s, t);
    case LogFlush(level, f, e) => LogFlushKeeps(s, t, level, f, e);
    case LogEmptyFlush(e) => LogEmptyFlushKeeps(s, t, e);
    case Begin(level, in0, in1) => BeginKeeps(s, t, level, in0, in1);
    case AllocateOutput => AllocateKeeps(s, t);
    case WriteOutput(number, entries) => WriteOutputKeeps(s, t, number, entries);
    case LogFinish(merged, outs, e) => LogFinishKeeps(s, t, merged, outs, e);
    case LogMove(level, f, e) => LogMoveKeeps(s, t, level, f, e);
    case InstallVersion => InstallVersionKeeps(s, t);
    case Pin => PinKeeps(s, t, act);
    case Unpin(i) => PinKeeps(s, t, act);
    case Collect(tables, logs) => CollectKeeps(s, t, tables, logs);
    case _ =>
  }

  lemma {:induction false} DownKeeps(s: Sys, t: Sys, act: Act)
    requires SysInv(s) && AddsInv(s) && !s.up && DownStep(s, t, act)
    ensures SysInv(t)
  {
    ReadsBackRecord(s);
    hide SysInv;
    hide AddsInv;
    hide OnRecord;
    hide ReadBack;
    match act
    case RecoverTable(number, entries) => RecoverTableKeeps(s, t, number, entries);
    case CreateLog(number) => CreateLogKeeps(s, t, number);
    case Open(v, groups, files, e) => OpenKeeps(s, t, v, groups, files, e);
    case _ =>
  }

  lemma {:induction false} NextKeepsFiles(s: Sys, t: Sys, act: Act)
    requires SysInv(s) && AddsInv(s) && NextSys(s, t, act)
    ensures SysInv(t)
  {
    hide SysInv;
    hide AddsInv;
    hide UpStep;
    hide DownStep;
    if act.Crash? {
      CrashKeeps(s, t);
    } else if s.up {
      UpKeeps(s, t, act);
    } else {
      DownKeeps(s, t, act);
    }
  }

  /** Every step, crash and recovery included, keeps the invariant. */
  lemma {:induction false} NextSysKeeps(s: Sys, t: Sys, act: Act)
    requires StoreInv(s) && NextSys(s, t, act)
    ensures StoreInv(t)
  {
    hide SysInv;
    hide AddsInv;
    hide ReadersOk;
    hide NextSys;
    NextKeepsFiles(s, t, act);
    NextKeepsAdds(s, t, act);
    NextKeepsReaders(s, t, act);
  }

  // ----- every run

  lemma {:induction false} InitDb(db: Db)
    requires Init(db)
    ensures Inv(db) && AllEntries(db.version) == {} && LevelMetas(db.version) == Fresh().levels
  {
    InitInv(db);
    assert EntriesOf([]) == {};
    assert forall l :: 0 <= l < NUM_LEVELS ==> MetasOf(db.version[l]) == [];
  }

  lemma {:induction false} InitSysInv(s: Sys)
    requires InitSys(s)
    ensures SysInv(s)
  {
    InitDb(s.db);
    InitManifest(s);
    hide Inv;
    assert Tail(s.disk.logs, 0) == [];
    hide Tail;
    hide OnRecord;
    hide LevelMetas;
    hide ManifestOk;
    EmptyTail(s.db);
  }

  lemma {:induction false} InitManifest(s: Sys)
    requires InitSys(s) && LevelMetas(s.db.version) == Fresh().levels
    ensures ManifestOk(OnRecord(s.disk), s.db)
    ensures OnRecord(s.disk).numbers.logNumber == Some(0) && OnRecord(s.disk).numbers.lastSequence == Some(0)
  {
    var e := s.disk.edits[0];
    UnchangedLevels(s.db.version, e);
    HistorySnoc(Fresh(), [], e);
    assert [] + [e] == s.disk.edits;
    hide ApplyLevels;
    hide LevelMetas;
    hide History;
  }

  lemma {:induction false} InitStore(s: Sys)
    requires InitSys(s)
    ensures StoreInv(s)
  {
    InitSysInv(s);
    InitAdds(s);
    hide SysInv;
    hide AddsInv;
  }

  ghost predicate IsSysRun(states: seq<Sys>, acts: seq<Act>) {
    && |states| == |acts| + 1 && InitSys(states[0])
    && forall i :: 0 <= i < |acts| ==> NextSys(states[i], states[i + 1], acts[i])
  }

  lemma {:induction false} SysRunKeeps(states: seq<Sys>, acts: seq<Act>)
    requires IsSysRun(states, acts)
    ensures |states| == |acts| + 1 && StoreInv(states[|acts|])
    decreases |acts|
  {
    if acts == [] {
      InitStore(states[0]);
    } else {
      hide StoreInv;
      hide NextSys;
      var n := |acts| - 1;
      SysRunKeeps(states[..n + 1], acts[..n]);
      NextSysKeeps(states[n], states[n + 1], acts[n]);
    }
  }

  /** The entries of all batches whose log record was completed, over all incarnations of the store. */
  ghost function Logged(acts: seq<Act>, states: seq<Sys>): set<Entry>
    requires |states| == |acts| + 1
    decreases |acts|
  {
    if acts == [] then {}
    else
      var n := |acts| - 1;
      Logged(acts[..n], states[..n + 1]) + if acts[n].Append? && states[n].up then Elems(acts[n].batch) else {}
  }

  lemma {:induction false} HistoryGrows(s: Sys, t: Sys, act: Act)
    requires NextSys(s, t, act)
    ensures t.db.history == s.db.history + if act.Append? && s.up then Elems(act.batch) else {}
  {
    if !act.Crash? && s.up {
      HistoryGrowsUp(s, t, act);
    } else {
      hide Recovers;
      hide OpenEdit;
      assert s.db.history + {} == s.db.history;
    }
  }

  lemma {:induction false} HistoryGrowsUp(s: Sys, t: Sys, act: Act)
    requires UpStep(s, t, act)
    ensures t.db.history == s.db.history + if act.Append? then Elems(act.batch) else {}
  {
    hide FlushPlaced;
    hide WellPicked;
    hide Closed;
    hide Install;
    hide InstallEdit;
    hide AreOutputs;
    assert s.db.history + {} == s.db.history;
  }

  lemma {:induction false} HistoryIsLogged(states: seq<Sys>, acts: seq<Act>)
    requires IsSysRun(states, acts)
    ensures states[|acts|].db.history == Logged(acts, states)
    decreases |acts|
  {
    if acts != [] {
      hide NextSys;
      var n := |acts| - 1;
      HistoryIsLogged(states[..n + 1], acts[..n]);
      HistoryGrows(states[n], states[n + 1], acts[n]);
    }
  }

  // ----- what recovery finds

  /**
   In every reachable state, running or crashed, recovery finds what it needs: the manifest reads back as the edits
   produced it, with all three counters and the durable version, and every table of that version is on disk.
   */
  lemma {:induction false} RecoveryFindsAll(states: seq<Sys>, acts: seq<Act>)
    requires IsSysRun(states, acts)
    ensures var s := states[|acts|];
            var m := ReadBack(s.disk);
            && m == OnRecord(s.disk)
            && m.numbers.nextFile.Some? && m.numbers.logNumber.Some? && m.numbers.lastSequence.Some?
            && m.levels == LevelMetas(s.db.version)
            && TablesHold(s.db.version, s.disk.tables)
  {
    hide *;
    SysRunKeeps(states, acts);
    StoreParts(states[|acts|]);
    InvParts(states[|acts|]);
    RecordBounds(states[|acts|].disk, states[|acts|].db);
    VersionParts(states[|acts|].db.version, states[|acts|].disk.tables);
  }

  lemma {:induction false} StoreParts(s: Sys)
    requires StoreInv(s)
    ensures SysInv(s) && AddsInv(s) && ReadersOk(s) && DiskOk(s.disk, s.db) && Inv(s.db)
    ensures ReadBack(s.disk) == OnRecord(s.disk)
  {
    ReadsBackRecord(s);
    DiskOf(s);
    DurableAdds.InvOf(s);
    hide SysInv;
    hide AddsInv;
    hide ReadersOk;
  }

  lemma {:induction false} InvReads(db: Db, k: UserKey, snap: nat)
    requires Inv(db)
    ensures forall x :: x in db.history ==> x.ikey.seqno <= db.inserted
    ensures Live(db, snap) ==> Read(Stored(db), k, snap) == Read(db.history, k, snap)
    ensures DbOk(db.mem, ImmEntries(db.imm), db.version) && db.lastSequence <= db.inserted
  {
    assert HistoryOk(db) && ReadsHistory(db);
    hide DbOk;
    hide Stored;
    hide Read;
  }

  /**
   Whatever version, tables and last sequence number recovery arrives at, however it cuts the logs into memtables: the
   version is searchable and reads exactly the batches with complete log records.
   */
  lemma {:induction false} RecoveryReadsLogged(states: seq<Sys>, acts: seq<Act>, v: Levels, groups: seq<seq<Entry>>,
          files: seq<File>, v2: Levels, last: nat, k: UserKey, snap: nat)
    requires IsSysRun(states, acts) && Recovers(states[|acts|].disk, v, groups, files, v2, last)
    ensures Ok(v2)
    ensures snap >= last ==> Read(AllEntries(v2), k, snap) == Read(Logged(acts, states), k, snap)
    ensures forall x :: x in Logged(acts, states) ==> x.ikey.seqno <= last
  {
    hide *;
    SysRunKeeps(states, acts);
    var s := states[|acts|];
    HistoryIsLogged(states, acts);
    StoreParts(s);
    RecoveredVersion(s.disk, s.db, v, groups, files, v2, last);
    InvReads(s.db, k, snap);
    LaterIsLive(s.db, snap);
  }

  lemma {:induction false} LaterIsLive(db: Db, snap: nat)
    requires db.lastSequence <= db.inserted
    ensures snap >= db.inserted ==> Live(db, snap)
  {
  }

  /** A store just opened has empty memory and reads, at every snapshot it can give out, what was logged. */
  lemma {:induction false} OpenedReadsLogged(states: seq<Sys>, acts: seq<Act>, k: UserKey, snap: nat)
    requires IsSysRun(states, acts) && acts != [] && acts[|acts| - 1].Open? && states[|acts|].up
    ensures var t := states[|acts|];
            && t.db.mem == [] && t.held.None? && !t.installing && t.current == t.db.version && Ok(t.current)
            && (snap >= t.db.lastSequence ==>
                  Read(AllEntries(t.current), k, snap) == Read(Logged(acts, states), k, snap))
            && forall x :: x in Logged(acts, states) ==> x.ikey.seqno <= t.db.lastSequence
  {
    var n := |acts| - 1;
    assert NextSys(states[n], states[n + 1], acts[n]);
    OpenedFields(states[n], states[n + 1], acts[n]);
    hide *;
    SysRunKeeps(states, acts);
    HistoryIsLogged(states, acts);
    StoreParts(states[n + 1]);
    InvReads(states[n + 1].db, k, snap);
    LaterIsLive(states[n + 1].db, snap);
    OpenedStored(states[n + 1].db);
  }

  lemma {:induction false} OpenedFields(s: Sys, t: Sys, act: Act)
    requires NextSys(s, t, act) && act.Open? && t.up
    ensures t.db.mem == [] && t.db.imm.None? && t.held.None? && !t.installing && t.current == t.db.version
    ensures t.db.lastSequence == t.db.inserted
  {
    hide Recovers;
    hide OpenEdit;
    hide ReadBack;
  }

  lemma {:induction false} OpenedStored(db: Db)
    requires db.mem == [] && db.imm.None? && DbOk(db.mem, ImmEntries(db.imm), db.version)
    ensures Stored(db) == AllEntries(db.version) && Ok(db.version)
  {
  }

  // ----- readers

  /**
   Reads over whole runs, also while a new version is being installed: DBImpl::Get may be called on the memtables and
   the version readers hold, and at every live snapshot they read what was logged.
   */
  lemma {:induction false} ReadersSeeLogged(states: seq<Sys>, acts: seq<Act>, k: UserKey, snap: nat)
    requires IsSysRun(states, acts) && states[|acts|].up
    ensures var s := states[|acts|];
            && DbOk(s.db.mem, ImmEntries(s.held), s.current)
            && (Live(s.db, snap) ==>
                  Read(DbEntries(s.db.mem, ImmEntries(s.held), s.current), k, snap) ==
                      Read(Logged(acts, states), k, snap))
  {
    hide *;
    SysRunKeeps(states, acts);
    var s := states[|acts|];
    HistoryIsLogged(states, acts);
    StoreParts(s);
    ViewInv(s);
    InvReads(ReaderView(s), k, snap);
    ViewFields(s, snap);
  }

  lemma {:induction false} ViewInv(s: Sys)
    requires ReadersOk(s) && s.up
    ensures Inv(ReaderView(s))
  {
    hide Inv;
  }

  lemma {:induction false} ViewFields(s: Sys, snap: nat)
    ensures var r := ReaderView(s);
            && r.mem == s.db.mem && r.imm == s.held && r.version == s.current && r.history == s.db.history
            && Stored(r) == DbEntries(s.db.mem, ImmEntries(s.held), s.current) && (Live(r, snap) <==> Live(s.db, snap))
  {
    hide DbEntries;
  }

  /** Garbage collection over whole runs: the tables of every referenced version are on disk, with their contents. */
  lemma {:induction false} LiveTablesExist(states: seq<Sys>, acts: seq<Act>)
    requires IsSysRun(states, acts) && states[|acts|].up
    ensures var s := states[|acts|];
            && TablesHold(s.current, s.disk.tables)
            && (forall i :: 0 <= i < |s.pinned| ==> TablesHold(s.pinned[i], s.disk.tables))
            && (forall n :: n in s.outputs ==> n in s.disk.tables && s.disk.tables[n] == s.outputs[n])
            && TablesHold(s.db.version, s.disk.tables)
  {
    hide *;
    SysRunKeeps(states, acts);
    StoreParts(states[|acts|]);
    InvParts(states[|acts|]);
    KeptTables(states[|acts|]);
    VersionParts(states[|acts|].db.version, states[|acts|].disk.tables);
  }

  lemma {:induction false} KeptTables(s: Sys)
    requires FilesKept(s)
    ensures TablesHold(s.current, s.disk.tables)
    ensures forall i :: 0 <= i < |s.pinned| ==> TablesHold(s.pinned[i], s.disk.tables)
    ensures forall n :: n in s.outputs ==> n in s.disk.tables && s.disk.tables[n] == s.outputs[n]
  {
    hide TablesHold;
  }
}
