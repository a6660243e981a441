/**
 Every step of the store with its files keeps the invariant.
 */
module DurableProof {
  import opened Entries
  import opened Files
  import opened Versions
  import opened Compactions
  import opened Picking
  import opened Transitions
  import opened Engine
  import opened EngineProof
  import opened VersionEdits
  import opened VersionBuilder
  import opened Manifest
  import opened ManifestReplay
  import opened Durable
  import opened DurableFiles

  lemma {:induction false} SeqnosBounded(db: Db)
    requires Inv(db)
    ensures forall x :: x in db.mem || x in ImmEntries(db.imm) || x in AllEntries(db.version) ==>
              x.ikey.seqno <= db.inserted
    ensures db.lastSequence <= db.inserted < MAX_SEQUENCE
    ensures SortedEntries(db.mem)
  {
    assert forall x :: x in db.mem || x in ImmEntries(db.imm) || x in AllEntries(db.version) ==> x in Stored(db);
  }

  // ----- a write group

  lemma {:induction false} ElemsSnoc(batch: seq<Entry>)
    requires batch != []
    ensures Elems(batch) == Elems(batch[..|batch| - 1]) + {batch[|batch| - 1]}
  {
    assert batch == batch[..|batch| - 1] + [batch[|batch| - 1]];
  }

  lemma {:induction false} AppendedSorted(db: Db, batch: seq<Entry>)
    requires Inv(db) && forall i :: 0 <= i < |batch| ==> batch[i].ikey.seqno == db.inserted + 1 + i
    ensures SortedEntries(Appended(db, batch).mem) && Elems(Appended(db, batch).mem) == Elems(db.mem) + Elems(batch)
  {
    SeqnosBounded(db);
    InsertAllSorted(db.mem, batch, db.inserted);
  }

  lemma {:induction false} AppendKeepsInv(db: Db, batch: seq<Entry>)
    requires Inv(db) && db.inserted + |batch| < MAX_SEQUENCE
    requires forall i :: 0 <= i < |batch| ==> batch[i].ikey.seqno == db.inserted + 1 + i
    ensures Inv(Appended(db, batch))
  {
    hide Inv;
    if batch == [] {
      assert db.history + {} == db.history;
      assert Appended(db, batch) == db;
    } else {
      hide Durable.InsertAll;
      hide SortedEntries;
      var front, e := batch[..|batch| - 1], batch[|batch| - 1];
      AppendKeepsInv(db, front);
      ElemsSnoc(batch);
      AppendedSorted(db, front);
      AppendedSorted(db, batch);
      var s, t := Appended(db, front), Appended(db, batch);
      assert t.history == s.history + {e};
      assert InsertStep(s, t, e);
      InsertKeepsInv(s, t, e);
    }
  }

  lemma {:induction false} IncreasingAppend(tail: seq<Entry>, batch: seq<Entry>, last: nat)
    requires IncreasingSeqnos(tail) && (forall x :: x in tail ==> x.ikey.seqno <= last) && Numbered(batch, last)
    ensures IncreasingSeqnos(tail + batch)
    ensures (tail + batch)[|tail + batch| - 1].ikey.seqno == last + |batch|
  {
    forall i, j | 0 <= i < j < |tail + batch| ensures (tail + batch)[i].ikey.seqno < (tail + batch)[j].ikey.seqno {
      if i < |tail| && j >= |tail| {
        assert tail[i] in tail;
      }
    }
  }

  lemma {:induction false} ElemsConcat(a: seq<Entry>, b: seq<Entry>)
    ensures Elems(a + b) == Elems(a) + Elems(b)
  {
  }

  lemma {:induction false} TailGrows(tail: seq<Entry>, db: Db, recorded: nat, batch: seq<Entry>)
    requires Inv(db) && TailOk(tail, db, recorded) && recorded <= db.inserted && Numbered(batch, db.inserted)
    ensures TailOk(tail + batch, Appended(db, batch), recorded)
  {
    TailBounded(tail, db);
    AppendedSorted(db, batch);
    hide Inv;
    hide IncreasingSeqnos;
    IncreasingAppend(tail, batch, db.inserted);
    ElemsConcat(tail, batch);
  }

  lemma {:induction false} TailBounded(tail: seq<Entry>, db: Db)
    requires Inv(db) && Elems(tail) == Elems(db.mem) + Elems(ImmEntries(db.imm))
    ensures forall x :: x in tail ==> x.ikey.seqno <= db.inserted
  {
    SeqnosBounded(db);
    hide Inv;
    forall x | x in tail ensures x.ikey.seqno <= db.inserted {
      assert x in Elems(tail);
    }
  }

  lemma {:induction false} SameEdits(a: Disk, b: Disk)
    requires a.edits == b.edits
    ensures OnRecord(a) == OnRecord(b)
  {
  }

  lemma {:induction false} ConcatMore(batches: seq<seq<Entry>>, batch: seq<Entry>)
    ensures Concat(batches + [batch]) == Concat(batches) + batch
    ensures Elems(Concat(batches + [batch])) == Elems(Concat(batches)) + Elems(batch)
  {
    assert (batches + [batch])[..|batches|] == batches;
  }

  lemma {:induction false} AppendKeepsDisk(s: Sys, t: Sys, batch: seq<Entry>, needed: nat)
    requires DiskOk(s.disk, s.db) && AppendStep(s, t, batch) && OnRecord(s.disk).numbers.logNumber == Some(needed)
    requires s.disk.logs[|s.disk.logs| - 1].number >= needed
    ensures DiskOk(t.disk, t.db)
  {
    hide Inv;
    hide VersionOnDisk;
    hide OnRecord;
    hide TailOk;
    hide Tail;
    SameEdits(s.disk, t.disk);
    SeqnosBounded(s.db);
    AppendKeepsInv(s.db, batch);
    TailOneMoreBatch(s.disk.logs, needed, batch);
    TailGrows(Tail(s.disk.logs, needed), s.db, OnRecord(s.disk).numbers.lastSequence.value, batch);
  }

  lemma {:induction false} AppendKeepsSplit(s: Sys, t: Sys, batch: seq<Entry>, needed: nat)
    requires Inv(s.db) && AppendStep(s, t, batch) && LogsSplit(s.disk.logs, needed, s.logFile, s.db)
    ensures LogsSplit(t.disk.logs, needed, t.logFile, t.db)
  {
    AppendedSorted(s.db, batch);
    hide Inv;
    hide Tail;
    hide Concat;
    hide Durable.InsertAll;
    var k := |s.disk.logs| - 1;
    ConcatMore(s.disk.logs[k].batches, batch);
    assert t.disk.logs[..k] == s.disk.logs[..k];
    assert batch[0] in Elems(t.db.mem);
  }

  lemma {:induction false} SameUnlisted(s: Sys, t: Sys)
    requires s.db.version == t.db.version && s.current == t.current && s.pinned == t.pinned
    ensures forall n :: Unlisted(t, n) <==> Unlisted(s, n)
  {
  }

  /** Steps that touch neither versions nor tables nor the background thread. */
  lemma {:induction false} ForegroundKeeps(s: Sys, t: Sys)
    requires NumbersTaken(s) && FilesKept(s)
    requires t.disk.tables == s.disk.tables && t.current == s.current && t.pinned == s.pinned && t.outputs == s.outputs
    requires t.pendingOutputs == s.pendingOutputs && t.flushed == s.flushed && t.installing == s.installing
    requires t.db.version == s.db.version && t.db.running == s.db.running && t.db.reserved == s.db.reserved
    requires s.db.nextFile <= t.db.nextFile && (s.flushed ==> t.db.imm == s.db.imm)
    ensures NumbersTaken(t) && FilesKept(t)
  {
    SameUnlisted(s, t);
    hide Unlisted;
    hide TablesHold;
  }

  lemma {:induction false} AppendKeeps(s: Sys, t: Sys, batch: seq<Entry>)
    requires SysInv(s) && s.up && AppendStep(s, t, batch)
    ensures SysInv(t)
  {
    var needed := OnRecord(s.disk).numbers.logNumber.value;
    hide Inv;
    hide OnRecord;
    hide FilesKept;
    hide NumbersTaken;
    hide VersionOnDisk;
    hide ManifestOk;
    hide TailOk;
    AppendKeepsDisk(s, t, batch, needed);
    AppendKeepsSplit(s, t, batch, needed);
    SameEdits(s.disk, t.disk);
    ForegroundKeeps(s, t);
    hide LogsSplit;
    hide DiskOk;
  }

  // ----- publication, snapshots

  /** Steps of the durable view alone that leave its data and counters where they are. */
  lemma {:induction false} ViewStepKeeps(s: Sys, t: Sys)
    requires SysInv(s) && s.up && Inv(t.db) && t == s.(db := t.db)
    requires t.db == s.db.(lastSequence := t.db.lastSequence, snapshots := t.db.snapshots)
    requires s.db.lastSequence <= t.db.lastSequence
    requires (t.db.lastSequence == s.db.lastSequence || t.db.lastSequence == t.db.inserted)
    ensures SysInv(t)
  {
    hide Inv;
    hide VersionOnDisk;
    hide OnRecord;
    hide FilesKept;
    hide NumbersTaken;
    hide Tail;
    hide IncreasingSeqnos;
    ForegroundKeeps(s, t);
  }

  lemma {:induction false} PublishKeeps(s: Sys, t: Sys)
    requires SysInv(s) && s.up && PublishStep(s, t)
    ensures SysInv(t)
  {
    hide UpOk;
    NextKeepsInv(s.db, t.db, Publish);
    SeqnosBounded(s.db);
    hide SysInv;
    hide Inv;
    ViewStepKeeps(s, t);
  }

  lemma {:induction false} SnapshotsKeep(s: Sys, t: Sys, act: Act)
    requires SysInv(s) && s.up && UpStep(s, t, act) && (act.Snapshot? || act.Release?)
    ensures SysInv(t)
  {
    hide UpOk;
    hide Inv;
    if act.Snapshot? {
      NextKeepsInv(s.db, t.db, TakeSnapshot);
    } else {
      NextKeepsInv(s.db, t.db, ReleaseSnapshot(act.i));
    }
    hide SysInv;
    ViewStepKeeps(s, t);
  }

  // ----- switching logs

  lemma {:induction false} LogsBelow(logs: seq<Log>, logFile: nat)
    requires AscendingLogs(logs) && logs != [] && logs[|logs| - 1].number == logFile
    ensures forall log :: log in logs ==> log.number <= logFile
  {
  }

  lemma {:induction false} SwitchKeepsDisk(s: Sys, t: Sys, needed: nat)
    requires DiskOk(s.disk, s.db) && SwitchLogStep(s, t) && s.db.imm.None?
    requires OnRecord(s.disk).numbers.logNumber == Some(needed) && LogsSplit(s.disk.logs, needed, s.logFile, s.db)
    ensures DiskOk(t.disk, t.db)
  {
    hide Inv;
    hide VersionOnDisk;
    hide OnRecord;
    hide Tail;
    hide IncreasingSeqnos;
    hide Concat;
    NextKeepsInv(s.db, t.db, SwitchMemtable);
    SameEdits(s.disk, t.disk);
    LogsBelow(s.disk.logs, s.logFile);
    NewLogAscends(s.disk.logs, Log(s.db.nextFile, []));
    TailOneMoreLog(s.disk.logs, Log(s.db.nextFile, []), needed);
    SwappedMemory(s.db.mem);
  }

  lemma {:induction false} SwappedMemory(mem: seq<Entry>)
    ensures Elems(mem) + Elems([]) == Elems([]) + Elems(mem)
  {
  }

  lemma {:induction false} SwitchKeepsSplit(s: Sys, t: Sys, needed: nat)
    requires SwitchLogStep(s, t) && LogsSplit(s.disk.logs, needed, s.logFile, s.db) && s.db.imm.None?
    ensures LogsSplit(t.disk.logs, needed, t.logFile, t.db)
  {
    hide Tail;
    var k := |s.disk.logs|;
    assert t.disk.logs[..k] == s.disk.logs;
    TailSplits(s.disk.logs, needed);
    ElemsConcat(Tail(s.disk.logs[..k - 1], needed), Concat(s.disk.logs[k - 1].batches));
  }

  lemma {:induction false} SwitchKeeps(s: Sys, t: Sys)
    requires SysInv(s) && s.up && SwitchLogStep(s, t)
    ensures SysInv(t)
  {
    var needed := OnRecord(s.disk).numbers.logNumber.value;
    hide Inv;
    hide OnRecord;
    hide FilesKept;
    hide NumbersTaken;
    hide VersionOnDisk;
    hide ManifestOk;
    hide TailOk;
    assert s.flushed ==> s.db.imm.Some? by { FlushedHasImm(s); }
    SwitchKeepsDisk(s, t, needed);
    SwitchKeepsSplit(s, t, needed);
    SameEdits(s.disk, t.disk);
    ForegroundKeeps(s, t);
    hide LogsSplit;
    hide DiskOk;
  }

  lemma {:induction false} FlushedHasImm(s: Sys)
    requires FilesKept(s)
    ensures s.flushed ==> s.db.imm.Some? && s.db.reserved.Some?
  {
  }

  // ----- taking numbers

  lemma {:induction false} FreshIsUnlisted(s: Sys)
    requires NumbersTaken(s) && NumbersOk(s.db)
    ensures Unlisted(s, s.db.nextFile) && s.db.nextFile !in s.pendingOutputs
  {
  }

  lemma {:induction false} NextFileKeepsInv(s: Db, t: Db)
    requires Inv(s) && t == s.(nextFile := t.nextFile) && s.nextFile <= t.nextFile
    ensures Inv(t)
  {
    hide DbOk;
    hide InputsOk;
    hide DropsAreSafe;
    hide Read;
    assert Stored(t) == Stored(s);
  }

  lemma {:induction false} ReserveKeepsNumbers(s: Sys, t: Sys)
    requires NumbersTaken(s) && FilesKept(s) && NumbersOk(s.db) && ReserveTableStep(s, t)
    ensures NumbersTaken(t) && FilesKept(t)
  {
    FreshIsUnlisted(s);
    SameUnlisted(s, t);
    hide Unlisted;
    hide TablesHold;
  }

  /** A step of the background thread that only takes a number. */
  lemma {:induction false} TakesNumber(s: Sys, t: Sys)
    requires DiskOk(s.disk, s.db) && s.up && UpOk(s) && t.disk == s.disk && t.up && Inv(t.db)
    requires t.db == s.db.(nextFile := t.db.nextFile, reserved := t.db.reserved) && s.db.nextFile <= t.db.nextFile
    requires t.logFile == s.logFile && t.logNumber == s.logNumber && t.current == s.current && t.held == s.held
    requires t.installing == s.installing
    requires NumbersTaken(t) && FilesKept(t)
    ensures SysInv(t)
  {
    hide Inv;
    hide VersionOnDisk;
    hide OnRecord;
    hide Tail;
    hide IncreasingSeqnos;
    hide NumbersTaken;
    hide FilesKept;
  }

  lemma {:induction false} ReserveKeeps(s: Sys, t: Sys)
    requires SysInv(s) && s.up && ReserveTableStep(s, t)
    ensures SysInv(t)
  {
    NextKeepsInv(s.db, t.db, ReserveTable);
    assert NumbersOk(s.db);
    hide Inv;
    hide NumbersTaken;
    hide FilesKept;
    hide NumbersOk;
    ReserveKeepsNumbers(s, t);
    hide DiskOk;
    hide UpOk;
    TakesNumber(s, t);
  }

  lemma {:induction false} AllocateKeepsNumbers(s: Sys, t: Sys)
    requires NumbersTaken(s) && FilesKept(s) && NumbersOk(s.db) && AllocateStep(s, t)
    ensures NumbersTaken(t) && FilesKept(t)
  {
    FreshIsUnlisted(s);
    SameUnlisted(s, t);
    hide Unlisted;
    hide TablesHold;
  }

  lemma {:induction false} AllocateKeeps(s: Sys, t: Sys)
    requires SysInv(s) && s.up && AllocateStep(s, t)
    ensures SysInv(t)
  {
    NextFileKeepsInv(s.db, t.db);
    assert NumbersOk(s.db);
    hide Inv;
    hide NumbersTaken;
    hide FilesKept;
    hide NumbersOk;
    AllocateKeepsNumbers(s, t);
    hide DiskOk;
    hide UpOk;
    TakesNumber(s, t);
  }

  // ----- writing tables

  lemma {:induction false} WriteKeepsTables(v: Levels, tables: map<nat, seq<Entry>>, n: nat, entries: seq<Entry>)
    requires TablesHold(v, tables) && !InVersion(v, n)
    ensures TablesHold(v, tables[n := entries])
  {
    forall lv, f | 0 <= lv < |v| && f in v[lv]
      ensures f.number in tables[n := entries] && tables[n := entries][f.number] == f.entries
    {
      assert f.number != n;
    }
  }

  lemma {:induction false} WriteKeepsLive(s: Sys, n: nat, entries: seq<Entry>)
    requires FilesKept(s) && Unlisted(s, n)
    ensures TablesHold(s.current, s.disk.tables[n := entries])
    ensures forall i :: 0 <= i < |s.pinned| ==> TablesHold(s.pinned[i], s.disk.tables[n := entries])
  {
    WriteKeepsTables(s.current, s.disk.tables, n, entries);
    forall i | 0 <= i < |s.pinned| ensures TablesHold(s.pinned[i], s.disk.tables[n := entries]) {
      WriteKeepsTables(s.pinned[i], s.disk.tables, n, entries);
    }
  }

  /** A table written under a number in no version changes nothing the invariant says of versions, logs and manifest. */
  lemma {:induction false} WritesTable(s: Sys, t: Sys, n: nat, entries: seq<Entry>)
    requires DiskOk(s.disk, s.db) && s.up && UpOk(s) && Unlisted(s, n)
    requires t.disk == s.disk.(tables := s.disk.tables[n := entries]) && t.db == s.db && t.up
    requires t.logFile == s.logFile && t.logNumber == s.logNumber && t.current == s.current && t.held == s.held
    requires t.installing == s.installing
    requires NumbersTaken(t) && FilesKept(t)
    ensures SysInv(t)
  {
    WriteKeepsTables(s.db.version, s.disk.tables, n, entries);
    SameEdits(s.disk, t.disk);
    hide Inv;
    hide OnRecord;
    hide ManifestOk;
    hide TailOk;
    hide LogsSplit;
    hide NumbersTaken;
    hide FilesKept;
    hide TablesHold;
    hide Unlisted;
  }

  lemma {:induction false} WriteTableKeepsNumbers(s: Sys, t: Sys)
    requires NumbersTaken(s) && FilesKept(s) && WriteTableStep(s, t)
    ensures NumbersTaken(t) && FilesKept(t)
  {
    WriteKeepsLive(s, s.db.reserved.value, s.db.imm.value);
    SameUnlisted(s, t);
    hide Unlisted;
    hide TablesHold;
  }

  lemma {:induction false} WriteTableKeeps(s: Sys, t: Sys)
    requires SysInv(s) && s.up && WriteTableStep(s, t)
    ensures SysInv(t)
  {
    WriteTableKeepsNumbers(s, t);
    assert Unlisted(s, s.db.reserved.value);
    hide Unlisted;
    hide NumbersTaken;
    hide FilesKept;
    hide DiskOk;
    hide UpOk;
    WritesTable(s, t, s.db.reserved.value, s.db.imm.value);
  }

  lemma {:induction false} WriteOutputKeepsNumbers(s: Sys, t: Sys, n: nat, entries: seq<Entry>)
    requires NumbersTaken(s) && FilesKept(s) && WriteOutputStep(s, t, n, entries)
    ensures NumbersTaken(t) && FilesKept(t) && Unlisted(s, n)
  {
    assert n in Busy(s);
    WriteKeepsLive(s, n, entries);
    SameUnlisted(s, t);
    hide Unlisted;
    hide TablesHold;
  }

  lemma {:induction false} WriteOutputKeeps(s: Sys, t: Sys, n: nat, entries: seq<Entry>)
    requires SysInv(s) && s.up && WriteOutputStep(s, t, n, entries)
    ensures SysInv(t)
  {
    WriteOutputKeepsNumbers(s, t, n, entries);
    hide Unlisted;
    hide NumbersTaken;
    hide FilesKept;
    hide DiskOk;
    hide UpOk;
    WritesTable(s, t, n, entries);
  }

  // ----- versions held by readers, compactions starting

  /** Holding one more reference to the current version. */
  lemma {:induction false} PinKeepsNumbers(s: Sys, t: Sys)
    requires NumbersTaken(s) && FilesKept(s) && t.pinned == s.pinned + [s.current] && t.current == s.current
    requires t.disk == s.disk && t.flushed == s.flushed && t.installing == s.installing
    requires t.pendingOutputs == s.pendingOutputs
    requires t.db.version == s.db.version && t.db.reserved == s.db.reserved && t.db.imm == s.db.imm
    requires t.db.nextFile == s.db.nextFile
    requires (t.outputs == s.outputs && t.db.running == s.db.running)
          || (t.outputs == map[] && s.db.running.None? && !s.installing && t.db.running.Some?)
    ensures NumbersTaken(t) && FilesKept(t)
  {
    forall n ensures Unlisted(s, n) ==> Unlisted(t, n) {
    }
    hide Unlisted;
    hide TablesHold;
    hide NumbersBelow;
  }

  lemma {:induction false} UnpinKeepsNumbers(s: Sys, t: Sys, i: nat)
    requires NumbersTaken(s) && FilesKept(s) && UnpinStep(s, t, i)
    ensures NumbersTaken(t) && FilesKept(t)
  {
    forall n ensures Unlisted(s, n) ==> Unlisted(t, n) {
    }
    hide Unlisted;
    hide TablesHold;
    hide NumbersBelow;
  }

  /** Steps that change neither the files nor the versions. */
  lemma {:induction false} HoldsVersions(s: Sys, t: Sys)
    requires DiskOk(s.disk, s.db) && s.up && UpOk(s) && t.disk == s.disk && t.up && Inv(t.db)
    requires t.db == s.db.(running := t.db.running)
    requires t.logFile == s.logFile && t.logNumber == s.logNumber && t.current == s.current && t.held == s.held
    requires t.installing == s.installing
    requires NumbersTaken(t) && FilesKept(t)
    ensures SysInv(t)
  {
    hide Inv;
    hide VersionOnDisk;
    hide OnRecord;
    hide Tail;
    hide IncreasingSeqnos;
    hide NumbersTaken;
    hide FilesKept;
  }

  lemma {:induction false} BeginKeeps(s: Sys, t: Sys, level: nat, in0: seq<File>, in1: seq<File>)
    requires SysInv(s) && s.up && BeginStep(s, t, level, in0, in1)
    ensures SysInv(t)
  {
    hide WellPicked;
    hide Closed;
    NextKeepsInv(s.db, t.db, StartCompaction(level, in0, in1));
    hide Inv;
    hide NumbersTaken;
    hide FilesKept;
    PinKeepsNumbers(s, t);
    hide DiskOk;
    hide UpOk;
    HoldsVersions(s, t);
  }

  lemma {:induction false} PinKeeps(s: Sys, t: Sys, act: Act)
    requires SysInv(s) && s.up && UpStep(s, t, act) && (act.Pin? || act.Unpin?)
    ensures SysInv(t)
  {
    hide Inv;
    hide NumbersTaken;
    hide FilesKept;
    if act.Pin? {
      PinKeepsNumbers(s, t);
    } else {
      UnpinKeepsNumbers(s, t, act.i);
    }
    hide UpOk;
    HoldsVersions(s, t);
  }

  // ----- installing a version

  lemma {:induction false} InstallKeepsNumbers(s: Sys, t: Sys)
    requires NumbersTaken(s) && FilesKept(s) && InstallStep(s, t) && TablesHold(s.db.version, s.disk.tables)
    requires NumbersOk(s.db)
    ensures NumbersTaken(t) && FilesKept(t)
  {
    forall n ensures Unlisted(s, n) ==> Unlisted(t, n) {
    }
    assert Busy(t) <= Busy(s);
    hide Unlisted;
    hide TablesHold;
  }

  lemma {:induction false} InstallVersionKeeps(s: Sys, t: Sys)
    requires SysInv(s) && s.up && InstallStep(s, t)
    ensures SysInv(t)
  {
    assert NumbersOk(s.db);
    hide Inv;
    hide NumbersTaken;
    hide FilesKept;
    hide ManifestOk;
    hide TailOk;
    hide LogsSplit;
    hide NumbersOk;
    InstallKeepsNumbers(s, t);
  }

  // ----- collecting garbage

  lemma {:induction false} CollectKeepsTables(v: Levels, tables: map<nat, seq<Entry>>, dropped: set<nat>)
    requires TablesHold(v, tables) && forall n :: n in dropped ==> !InVersion(v, n)
    ensures TablesHold(v, tables - dropped)
  {
    forall lv, f | 0 <= lv < |v| && f in v[lv]
      ensures f.number in tables - dropped && (tables - dropped)[f.number] == f.entries
    {
      assert InVersion(v, f.number);
    }
  }

  /** No table of a live version and no output of a running compaction is ever deleted. */
  lemma {:induction false} CollectKeepsFiles(s: Sys, t: Sys, tables: set<nat>, logs: set<nat>)
    requires NumbersTaken(s) && FilesKept(s) && CollectStep(s, t, tables, logs)
    ensures NumbersTaken(t) && FilesKept(t)
  {
    CollectKeepsTables(s.current, s.disk.tables, tables);
    forall i | 0 <= i < |s.pinned| ensures TablesHold(s.pinned[i], t.disk.tables) {
      CollectKeepsTables(s.pinned[i], s.disk.tables, tables);
    }
    forall n | n in s.outputs ensures n in t.disk.tables && t.disk.tables[n] == s.outputs[n] {
      assert IsLive(s, n);
    }
    SameUnlisted(s, t);
    hide Unlisted;
    hide TablesHold;
    hide IsLive;
  }

  lemma {:induction false} FilesHoldCurrent(s: Sys)
    requires FilesKept(s)
    ensures TablesHold(s.current, s.disk.tables)
  {
    hide TablesHold;
  }

  lemma {:induction false} CollectKeepsLogs(s: Sys, t: Sys, tables: set<nat>, logs: set<nat>, needed: nat)
    requires CollectStep(s, t, tables, logs) && needed == s.logNumber && AscendingLogs(s.disk.logs)
    requires LogsSplit(s.disk.logs, needed, s.logFile, s.db)
    ensures LogsSplit(t.disk.logs, needed, t.logFile, t.db) && AscendingLogs(t.disk.logs)
    ensures Tail(t.disk.logs, needed) == Tail(s.disk.logs, needed)
  {
    hide Tail;
    TailWithout(s.disk.logs, logs, needed);
    TailWithout(s.disk.logs[..|s.disk.logs| - 1], logs, needed);
    WithoutKeepsLast(s.disk.logs, logs);
    WithoutAscends(s.disk.logs, logs);
  }

  lemma {:induction false} CollectKeepsDisk(s: Sys, t: Sys)
    requires DiskOk(s.disk, s.db) && t.db == s.db && t.disk.edits == s.disk.edits && AscendingLogs(t.disk.logs)
    requires TablesHold(s.db.version, t.disk.tables)
    requires Tail(t.disk.logs, OnRecord(s.disk).numbers.logNumber.value) ==
        Tail(s.disk.logs, OnRecord(s.disk).numbers.logNumber.value)
    ensures DiskOk(t.disk, t.db)
  {
    SameEdits(s.disk, t.disk);
    hide Inv;
    hide OnRecord;
    hide ManifestOk;
    hide TablesHold;
    hide TailOk;
    hide Tail;
    hide LevelsSorted;
    hide OneFilePerNumber;
  }

  lemma {:induction false} CollectKeepsUp(s: Sys, t: Sys, needed: nat)
    requires UpOk(s) && !s.installing
    requires OnRecord(s.disk).numbers.logNumber == OnRecord(t.disk).numbers.logNumber == Some(needed)
    requires t == s.(disk := t.disk) && LogsSplit(t.disk.logs, needed, t.logFile, t.db)
    requires NumbersTaken(t) && FilesKept(t)
    ensures UpOk(t)
  {
    hide OnRecord;
    hide LogsSplit;
    hide NumbersTaken;
    hide FilesKept;
  }

  lemma {:induction false} CollectKeeps(s: Sys, t: Sys, tables: set<nat>, logs: set<nat>)
    requires SysInv(s) && s.up && CollectStep(s, t, tables, logs)
    ensures SysInv(t)
  {
    hide OnRecord;
    hide LogsSplit;
    hide NumbersTaken;
    hide FilesKept;
    hide TablesHold;
    hide Tail;
    hide IsLive;
    DiskParts(s);
    var needed := OnRecord(s.disk).numbers.logNumber.value;
    hide DiskOk;
    CollectKeepsLogs(s, t, tables, logs, needed);
    CollectKeepsFiles(s, t, tables, logs);
    FilesHoldCurrent(t);
    SameEdits(s.disk, t.disk);
    CollectKeepsDisk(s, t);
    CollectKeepsUp(s, t, needed);
    hide UpOk;
  }

  // ----- crashes and recovery before the new manifest counts

  lemma {:induction false} CrashKeeps(s: Sys, t: Sys)
    requires SysInv(s) && t == s.(up := false)
    ensures SysInv(t)
  {
    hide DiskOk;
  }

  lemma {:induction false} BelowIsNotIn(v: Levels, bound: nat, n: nat)
    requires NumbersBelow(v, bound) && n >= bound
    ensures !InVersion(v, n)
  {
  }

  lemma {:induction false} RecoverTableKeeps(s: Sys, t: Sys, n: nat, entries: seq<Entry>)
    requires SysInv(s) && !s.up && RecoverTableStep(s, t, n, entries) && ReadBack(s.disk) == OnRecord(s.disk)
    ensures SysInv(t)
  {
    BelowIsNotIn(s.db.version, OnRecord(s.disk).numbers.nextFile.value, n);
    WriteKeepsTables(s.db.version, s.disk.tables, n, entries);
    SameEdits(s.disk, t.disk);
    hide Inv;
    hide OnRecord;
    hide ReadBack;
    hide ManifestOk;
    hide TailOk;
    hide TablesHold;
    hide InVersion;
  }

  lemma {:induction false} CreateLogKeeps(s: Sys, t: Sys, n: nat)
    requires SysInv(s) && !s.up && CreateLogStep(s, t, n) && ReadBack(s.disk) == OnRecord(s.disk)
    ensures SysInv(t)
  {
    hide Inv;
    hide ReadBack;
    var needed := OnRecord(s.disk).numbers.logNumber.value;
    hide ManifestOk;
    NewLogAscends(s.disk.logs, Log(n, []));
    TailOneMoreLog(s.disk.logs, Log(n, []), needed);
    SameEdits(s.disk, t.disk);
    hide OnRecord;
    hide TailOk;
    hide VersionOnDisk;
    hide Tail;
  }

  // ----- edits reaching the manifest

  lemma {:induction false} RecordSnoc(disk: Disk, disk2: Disk, e: Edit)
    requires disk2.edits == disk.edits + [e]
    ensures OnRecord(disk2) == ApplyEdit(OnRecord(disk), e)
  {
    HistorySnoc(Fresh(), disk.edits, e);
  }

  lemma {:induction false} ManifestAfter(m: State, db: Db, db2: Db, e: Edit, logNumber: nat)
    requires ManifestOk(m, db) && Counted(e, db, m.numbers, logNumber, db2.version)
    requires ApplyLevels(m.levels, e) == LevelMetas(db2.version)
    requires db2.nextFile == db.nextFile && db2.lastSequence == db.lastSequence
    ensures ManifestOk(ApplyEdit(m, e), db2)
    ensures ApplyEdit(m, e).numbers.logNumber == Some(logNumber)
    ensures ApplyEdit(m, e).numbers.lastSequence == e.lastSequence && e.lastSequence.Some? && e.nextFile.Some?
    ensures m.numbers.lastSequence.Some? && m.numbers.lastSequence.value <= e.lastSequence.value <= db.lastSequence
  {
    hide ApplyLevels;
    hide LevelMetas;
    hide NumbersBelow;
  }

  /** The recorded sequence number moves up to a published one: the tail still ends at the last one. */
  lemma {:induction false} TailAfterEdit(tail: seq<Entry>, db: Db, db2: Db, recorded: nat, recorded2: nat)
    requires Inv(db) && TailOk(tail, db, recorded) && recorded <= recorded2 <= db.lastSequence
    requires db2.mem == db.mem && db2.imm == db.imm && db2.inserted == db.inserted
    ensures TailOk(tail, db2, recorded2)
  {
    SeqnosBounded(db);
    TailBounded(tail, db);
    hide Inv;
    hide IncreasingSeqnos;
    if tail != [] {
      assert tail[|tail| - 1] in tail;
    }
  }

  /** Once the immutable memtable is in a table, only the current log is needed. */
  lemma {:induction false} TailAfterFlush(logs: seq<Log>, needed: nat, logFile: nat, db: Db, db2: Db, recorded: nat,
          recorded2: nat)
    requires Inv(db) && AscendingLogs(logs) && LogsSplit(logs, needed, logFile, db)
    requires TailOk(Tail(logs, needed), db, recorded) && recorded <= recorded2 <= db.lastSequence
    requires db.mem == [] ==> recorded2 == db.lastSequence
    requires db2.mem == db.mem && db2.imm.None? && db2.inserted == db.inserted
    ensures TailOk(Tail(logs, logFile), db2, recorded2)
  {
    SeqnosBounded(db);
    hide Inv;
    TailFromLast(logs);
    TailSplits(logs, needed);
    var front, last := Tail(logs[..|logs| - 1], needed), Concat(logs[|logs| - 1].batches);
    assert Tail(logs, needed) == front + last && Tail(logs, logFile) == last;
    hide Tail;
    TailSuffix(front, last, recorded, recorded2, db);
  }

  lemma {:induction false} TailSuffix(front: seq<Entry>, last: seq<Entry>, recorded: nat, recorded2: nat, db: Db)
    requires IncreasingSeqnos(front + last) && LastSequence(front + last, recorded) == db.inserted
    requires recorded <= recorded2 <= db.lastSequence <= db.inserted && Elems(last) == Elems(db.mem)
    requires (forall x :: x in db.mem ==> x.ikey.seqno <= db.inserted)
    requires db.mem == [] ==> db.inserted == db.lastSequence == recorded2
    ensures IncreasingSeqnos(last) && LastSequence(last, recorded2) == db.inserted
  {
    forall i, j | 0 <= i < j < |last| ensures last[i].ikey.seqno < last[j].ikey.seqno {
      assert (front + last)[|front| + i] == last[i] && (front + last)[|front| + j] == last[j];
    }
    assert forall i :: 0 <= i < |db.mem| ==> db.mem[i] in last by {
      assert forall i :: 0 <= i < |db.mem| ==> db.mem[i] in Elems(last);
    }
    assert |db.mem| > 0 ==> db.mem[0] in last;
    if last != [] {
      assert last[|last| - 1] in Elems(db.mem);
      assert (front + last)[|front + last| - 1] == last[|last| - 1];
    }
  }

  // ----- flush

  lemma {:induction false} VersionNumbers(v: Levels, level: nat)
    requires OneFilePerNumber(v) && level < |v|
    ensures OwnNumbers(v[level])
  {
  }

  lemma {:induction false} UnlistedIsNew(v: Levels, n: nat, level: nat, f: File)
    requires !InVersion(v, n) && f.number == n && level < |v|
    ensures NewNumbers(v[level], [f])
  {
  }

  lemma {:induction false} OneMeta(f: File)
    ensures MetasOf([f]) == [MetaOf(f)] && Elems([f]) == {f} && DistinctMetas(MetasOf([f]))
  {
  }

  /** The levels an edit describes, level by level. */
  lemma {:induction false} LevelsFollow(v: Levels, v2: Levels, e: Edit)
    requires |v| == |v2|
    requires forall l :: 0 <= l < |v| ==>
               Saved(MetasOf(v[l]), AddedAfter([], e, l), DeletedAfter({}, e, l)) == MetasOf(v2[l])
    ensures ApplyLevels(LevelMetas(v), e) == LevelMetas(v2)
  {
    hide Saved;
    hide MetasOf;
    hide AddedAfter;
    hide DeletedAfter;
  }

  lemma {:induction false} FlushEditAt(e: Edit, level: nat, f: File, l: nat)
    requires FlushEdit(e, level, f)
    ensures DeletedAt(e.deleted, l) == {} && AddsAt(e.added, l) == if l == level then [MetaOf(f)] else []
  {
    assert [] + [MetaOf(f)] == [MetaOf(f)];
    assert e.added[..0] == [];
  }

  lemma {:induction false} FlushLevels(v: Levels, v2: Levels, level: nat, f: File, e: Edit)
    requires FlushPlaced(v, v2, level, f) && FlushEdit(e, level, f)
    requires LevelsSorted(v) && OneFilePerNumber(v) && !InVersion(v, f.number)
    ensures ApplyLevels(LevelMetas(v), e) == LevelMetas(v2)
  {
    forall l | 0 <= l < |v|
      ensures Saved(MetasOf(v[l]), AddedAfter([], e, l), DeletedAfter({}, e, l)) == MetasOf(v2[l])
    {
      FlushEditAt(e, level, f, l);
      VersionNumbers(v, l);
      if l == level {
        UnlistedIsNew(v, f.number, l, f);
        OneMeta(f);
        LevelFollows(v[l], v2[l], {}, [f], e, l);
      } else {
        LevelStays(v[l], e, l);
      }
    }
    LevelsFollow(v, v2, e);
  }

  lemma {:induction false} FlushedMembers(v: Levels, v2: Levels, level: nat, f: File, lv: nat, g: File)
    requires FlushPlaced(v, v2, level, f) && lv < |v|
    ensures g in v2[lv] <==> g in v[lv] || (lv == level && g == f)
  {
    assert g in v2[lv] <==> g in Elems(v2[lv]);
    assert g in v[lv] <==> g in Elems(v[lv]);
  }

  /** The members of the version after a flush. */
  ghost predicate OneMore(v: Levels, v2: Levels, level: nat, f: File) {
    && |v2| == |v| && level < |v|
    && forall lv, g :: 0 <= lv < |v| ==> (g in v2[lv] <==> g in v[lv] || (lv == level && g == f))
  }

  lemma {:induction false} FlushedOneMore(v: Levels, v2: Levels, level: nat, f: File)
    requires FlushPlaced(v, v2, level, f)
    ensures OneMore(v, v2, level, f)
  {
    forall lv, g | 0 <= lv < |v| ensures g in v2[lv] <==> g in v[lv] || (lv == level && g == f) {
      FlushedMembers(v, v2, level, f, lv, g);
    }
  }

  lemma {:induction false} OneMoreNumbers(v: Levels, v2: Levels, level: nat, f: File)
    requires OneMore(v, v2, level, f) && OneFilePerNumber(v) && !InVersion(v, f.number)
    ensures OneFilePerNumber(v2)
  {
    forall l, m, g, h | 0 <= l < |v2| && 0 <= m < |v2| && g in v2[l] && h in v2[m] && g.number == h.number
      ensures l == m && g == h
    {
      assert g in v[l] ==> InVersion(v, g.number);
      assert h in v[m] ==> InVersion(v, h.number);
    }
  }

  lemma {:induction false} OneMoreTables(v: Levels, v2: Levels, level: nat, f: File, tables: map<nat, seq<Entry>>,
          bound: nat)
    requires OneMore(v, v2, level, f) && TablesHold(v, tables) && f.number in tables && tables[f.number] == f.entries
    requires NumbersBelow(v, bound) && f.number < bound
    ensures TablesHold(v2, tables) && NumbersBelow(v2, bound)
    ensures forall n :: InVersion(v2, n) ==> InVersion(v, n) || n == f.number
  {
  }

  lemma {:induction false} FlushKeepsVersion(v: Levels, v2: Levels, level: nat, f: File, tables: map<nat, seq<Entry>>,
          bound: nat)
    requires FlushPlaced(v, v2, level, f) && VersionOnDisk(v, tables) && !InVersion(v, f.number)
    requires f.number in tables && tables[f.number] == f.entries && NumbersBelow(v, bound) && f.number < bound
    ensures VersionOnDisk(v2, tables) && NumbersBelow(v2, bound)
    ensures forall n :: InVersion(v2, n) ==> InVersion(v, n) || n == f.number
  {
    hide Placeable;
    hide ValidFile;
    hide OneFilePerNumber;
    hide TablesHold;
    hide NumbersBelow;
    hide InVersion;
    hide OneMore;
    hide SortedBySmallest;
    FlushedOneMore(v, v2, level, f);
    FlushedSorted(v, v2, level, f);
    OneMoreNumbers(v, v2, level, f);
    OneMoreTables(v, v2, level, f, tables, bound);
  }

  lemma {:induction false} FlushedSorted(v: Levels, v2: Levels, level: nat, f: File)
    requires FlushPlaced(v, v2, level, f)
    ensures level < |v2| && SortedBySmallest(v2[level])
  {
  }

  lemma {:induction false} FlushFacts(s: Sys, t: Sys, level: nat, f: File, e: Edit)
    requires LogFlushStep(s, t, level, f, e) && NumbersTaken(s) && FilesKept(s)
    ensures FlushPlaced(s.db.version, t.db.version, level, f) && FlushEdit(e, level, f)
    ensures Counted(e, s.db, OnRecord(s.disk).numbers, s.logFile, t.db.version) && e.lastSequence.Some?
    ensures s.db.mem == [] ==> e.lastSequence.value == s.db.lastSequence
    ensures s.db.reserved == Some(f.number) && !InVersion(s.db.version, f.number) && t.db.reserved.None?
    ensures FlushStep(s.db, t.db, level, f) && f.number in s.disk.tables && s.disk.tables[f.number] == f.entries
    ensures t.disk == s.disk.(edits := s.disk.edits + [e])
    ensures t.db == s.db.(imm := None, version := t.db.version, reserved := None)
    ensures t.disk.edits == s.disk.edits + [e] && Busy(t) <= Busy(s) && f.number !in Busy(t) && level < NUM_LEVELS
  {
    hide TablesHold;
    hide NumbersBelow;
    hide SortedBySmallest;
  }

  /** What the invariant says of the files and the logs, part by part. */
  lemma {:induction false} InvParts(s: Sys)
    requires SysInv(s)
    ensures Inv(s.db) && VersionOnDisk(s.db.version, s.disk.tables) && AscendingLogs(s.disk.logs)
    ensures var m := OnRecord(s.disk);
            && ManifestOk(m, s.db) && m.numbers.logNumber.Some? && m.numbers.lastSequence.Some?
            && m.levels == LevelMetas(s.db.version)
            && m.numbers.lastSequence.value <= s.db.lastSequence
            && TailOk(Tail(s.disk.logs, m.numbers.logNumber.value), s.db, m.numbers.lastSequence.value)
            && (s.up ==> LogsSplit(s.disk.logs, m.numbers.logNumber.value, s.logFile, s.db))
    ensures s.up ==> NumbersTaken(s) && FilesKept(s)
  {
    hide Inv;
    hide OnRecord;
    hide VersionOnDisk;
    hide NumbersBelow;
    hide TailOk;
    hide LogsSplit;
    hide NumbersTaken;
    hide FilesKept;
  }

  lemma {:induction false} DiskOkOf(disk: Disk, db: Db)
    requires Inv(db) && VersionOnDisk(db.version, disk.tables) && AscendingLogs(disk.logs)
    requires ManifestOk(OnRecord(disk), db)
    requires OnRecord(disk).numbers.logNumber.Some? && OnRecord(disk).numbers.lastSequence.Some?
    requires TailOk(Tail(disk.logs, OnRecord(disk).numbers.logNumber.value), db,
        OnRecord(disk).numbers.lastSequence.value)
    ensures DiskOk(disk, db)
  {
    hide Inv;
    hide OnRecord;
    hide VersionOnDisk;
    hide ManifestOk;
    hide TailOk;
    hide AscendingLogs;
  }

  lemma {:induction false} LogFlushKeepsDisk(s: Sys, t: Sys, level: nat, f: File, e: Edit)
    requires SysInv(s) && s.up && LogFlushStep(s, t, level, f, e)
    ensures DiskOk(t.disk, t.db) && OnRecord(t.disk).numbers.logNumber == Some(s.logFile)
    ensures forall n :: InVersion(t.db.version, n) ==> InVersion(s.db.version, n) || n == f.number
  {
    hide *;
    InvParts(s);
    var m := OnRecord(s.disk);
    FlushFacts(s, t, level, f, e);
    ReservedBelow(s.db);
    InvNumbers(s.db);
    FlushIsStep(s.db, t.db, level, f);
    NextKeepsInv(s.db, t.db, FlushMemtable(level, f));
    VersionParts(s.db.version, s.disk.tables);
    FlushLevels(s.db.version, t.db.version, level, f, e);
    FlushKeepsVersion(s.db.version, t.db.version, level, f, s.disk.tables, s.db.nextFile);
    RecordSnoc(s.disk, t.disk, e);
    ManifestAfter(m, s.db, t.db, e, s.logFile);
    TailAfterFlush(s.disk.logs, m.numbers.logNumber.value, s.logFile, s.db, t.db, m.numbers.lastSequence.value,
        e.lastSequence.value);
    DiskOkOf(t.disk, t.db);
  }

  lemma {:induction false} FlushIsStep(s: Db, t: Db, level: nat, f: File)
    requires FlushStep(s, t, level, f)
    ensures Next(s, t, FlushMemtable(level, f))
  {
    hide FlushStep;
  }

  lemma {:induction false} ReservedBelow(db: Db)
    requires Inv(db) && db.reserved.Some?
    ensures db.reserved.value < db.nextFile
  {
    hide DbOk;
    hide RunningOk;
    hide ReadsHistory;
    hide HistoryOk;
  }

  lemma {:induction false} VersionParts(v: Levels, tables: map<nat, seq<Entry>>)
    requires VersionOnDisk(v, tables)
    ensures LevelsSorted(v) && OneFilePerNumber(v) && TablesHold(v, tables)
  {
    hide LevelsSorted;
    hide TablesHold;
    hide OneFilePerNumber;
  }

  lemma {:induction false} FlushKeepsUp(s: Sys, t: Sys, e: Edit, number: nat)
    requires UpOk(s) && AscendingLogs(s.disk.logs) && !s.installing
    requires t.disk.tables == s.disk.tables && t.disk.logs == s.disk.logs
    requires OnRecord(t.disk).numbers.logNumber == Some(s.logFile)
    requires t == s.(disk := t.disk, db := t.db, installing := true, flushed := false,
                     pendingOutputs := t.pendingOutputs)
    requires t.db == s.db.(imm := None, reserved := None, version := t.db.version)
    requires t.pendingOutputs <= s.pendingOutputs && number !in t.pendingOutputs && s.outputs.Keys <= t.pendingOutputs
    requires forall n :: InVersion(t.db.version, n) ==> InVersion(s.db.version, n) || n == number
    ensures UpOk(t)
  {
    hide OnRecord;
    NoTailBeforeLast(s.disk.logs, s.logFile);
    FlushKeepsNumbers(s, t, number);
    hide Tail;
    hide NumbersTaken;
    hide TablesHold;
  }

  lemma {:induction false} NoTailBeforeLast(logs: seq<Log>, logFile: nat)
    requires AscendingLogs(logs) && logs != [] && logs[|logs| - 1].number == logFile
    ensures Tail(logs[..|logs| - 1], logFile) == []
  {
    NoTail(logs[..|logs| - 1], logFile);
  }

  lemma {:induction false} FlushKeepsNumbers(s: Sys, t: Sys, number: nat)
    requires NumbersTaken(s)
    requires t == s.(disk := t.disk, db := t.db, installing := true, flushed := false,
                     pendingOutputs := t.pendingOutputs)
    requires t.db == s.db.(imm := None, reserved := None, version := t.db.version)
    requires t.pendingOutputs <= s.pendingOutputs && number !in t.pendingOutputs
    requires forall n :: InVersion(t.db.version, n) ==> InVersion(s.db.version, n) || n == number
    ensures NumbersTaken(t)
  {
    hide InVersion;
    hide NumbersBelow;
    assert Busy(t) <= Busy(s);
    forall n | n in Busy(t) ensures Unlisted(t, n) {
      assert Unlisted(s, n) && n != number;
    }
  }

  lemma {:induction false} LogFlushKeeps(s: Sys, t: Sys, level: nat, f: File, e: Edit)
    requires SysInv(s) && s.up && LogFlushStep(s, t, level, f, e)
    ensures SysInv(t)
  {
    LogFlushKeepsDisk(s, t, level, f, e);
    assert f.number !in s.pendingOutputs && s.outputs.Keys <= s.pendingOutputs;
    hide FlushPlaced;
    hide DiskOk;
    hide UpOk;
    assert AscendingLogs(s.disk.logs) by { DiskParts(s); }
    FlushKeepsUp(s, t, e, f.number);
  }

  lemma {:induction false} OutputsArePending(s: Sys)
    requires FilesKept(s) && NumbersTaken(s)
    ensures s.outputs.Keys <= s.pendingOutputs
    ensures s.db.reserved.Some? ==> s.outputs.Keys <= s.pendingOutputs - {s.db.reserved.value}
  {
    hide TablesHold;
    hide Unlisted;
    hide NumbersBelow;
  }

  lemma {:induction false} DiskParts(s: Sys)
    requires DiskOk(s.disk, s.db)
    ensures AscendingLogs(s.disk.logs) && Inv(s.db) && VersionOnDisk(s.db.version, s.disk.tables)
  {
    hide Inv;
  }

  lemma {:induction false} LogEmptyFlushKeepsDisk(s: Sys, t: Sys, e: Edit)
    requires SysInv(s) && s.up && LogEmptyFlushStep(s, t, e)
    ensures DiskOk(t.disk, t.db) && OnRecord(t.disk).numbers.logNumber == Some(s.logFile)
  {
    var m := OnRecord(s.disk);
    assert NumbersOk(s.db);
    NextKeepsInv(s.db, t.db, DropEmptyMemtable);
    hide Inv;
    hide IncreasingSeqnos;
    UnchangedLevels(s.db.version, e);
    RecordSnoc(s.disk, t.disk, e);
    hide OnRecord;
    hide ApplyEdit;
    ManifestAfter(m, s.db, t.db, e, s.logFile);
    TailAfterFlush(s.disk.logs, m.numbers.logNumber.value, s.logFile, s.db, t.db, m.numbers.lastSequence.value,
        e.lastSequence.value);
    hide Tail;
    hide TailOk;
    hide ManifestOk;
    hide VersionOnDisk;
    hide LogsSplit;
    hide NumbersTaken;
    hide FilesKept;
  }

  lemma {:induction false} UnchangedLevels(v: Levels, e: Edit)
    requires LevelsSorted(v) && OneFilePerNumber(v) && e.deleted == [] && e.added == []
    ensures ApplyLevels(LevelMetas(v), e) == LevelMetas(v)
  {
    forall l | 0 <= l < |v|
      ensures Saved(MetasOf(v[l]), AddedAfter([], e, l), DeletedAfter({}, e, l)) == MetasOf(v[l])
    {
      VersionNumbers(v, l);
      LevelStays(v[l], e, l);
    }
    LevelsFollow(v, v, e);
  }

  lemma {:induction false} LogEmptyFlushKeeps(s: Sys, t: Sys, e: Edit)
    requires SysInv(s) && s.up && LogEmptyFlushStep(s, t, e)
    ensures SysInv(t)
  {
    LogEmptyFlushKeepsDisk(s, t, e);
    OutputsArePending(s);
    hide DiskOk;
    hide UpOk;
    hide NumbersTaken;
    hide FilesKept;
    assert AscendingLogs(s.disk.logs) by { DiskParts(s); }
    FlushKeepsUp(s, t, e, s.db.reserved.value);
  }

  // ----- compactions and moves

  lemma {:induction false} InstallMembers(v: Levels, v2: Levels, level: nat, in0: seq<File>, in1: seq<File>,
          outs: seq<File>, lv: nat, g: File)
    requires Install(v, v2, level, in0, in1, outs) && lv < |v|
    ensures g in v2[lv] <==>
              (g in v[lv] && !(lv == level && g in in0) && !(lv == level + 1 && g in in1))
                  || (lv == level + 1 && g in outs)
  {
    assert g in v2[lv] <==> g in Elems(v2[lv]);
    assert g in v[lv] <==> g in Elems(v[lv]);
    assert g in in0 <==> g in Elems(in0);
    assert g in in1 <==> g in Elems(in1);
    assert g in outs <==> g in Elems(outs);
    hide OthersBeside;
    hide ValidFiles;
    hide SortedDisjoint;
    hide SortedBySmallest;
  }

  /** The outputs' numbers are new to the version, but for a file that moves down from the level above. */
  ghost predicate OutputNumbers(v: Levels, level: nat, in0: seq<File>, outs: seq<File>) {
    && DistinctNumbers(outs)
    && forall f :: f in outs ==> !InVersion(v, f.number) || f in in0
  }

  lemma {:induction false} OutsAreNew(v: Levels, level: nat, in0: seq<File>, outs: seq<File>)
    requires OutputNumbers(v, level, in0, outs) && OneFilePerNumber(v) && level + 1 < |v|
    requires forall f :: f in in0 ==> f in v[level]
    ensures NewNumbers(v[level + 1], outs) && DistinctMetas(MetasOf(outs))
  {
    forall f, g | f in v[level + 1] && g in outs ensures f.number != g.number {
      assert InVersion(v, f.number);
      assert g in in0 ==> g in v[level];
    }
  }

  lemma {:induction false} RemovedNumbers(files: seq<File>)
    ensures (set f | f in Elems(files) :: f.number) == FileNumbers(files)
  {
    forall n ensures n in (set f | f in Elems(files) :: f.number) <==> n in FileNumbers(files) {
      if n in FileNumbers(files) {
        var f :| f in files && f.number == n;
        assert f in Elems(files);
      }
    }
  }

  lemma {:induction false} InstallLevels(v: Levels, v2: Levels, level: nat, in0: seq<File>, in1: seq<File>,
          outs: seq<File>, e: Edit)
    requires Install(v, v2, level, in0, in1, outs) && InstallEdit(e, level, in0, in1, outs)
    requires LevelsSorted(v) && OneFilePerNumber(v) && OutputNumbers(v, level, in0, outs)
    ensures ApplyLevels(LevelMetas(v), e) == LevelMetas(v2)
  {
    forall f | f in in0 ensures f in v[level] {
      assert f in Elems(in0);
    }
    hide OthersBeside;
    hide ValidFiles;
    hide SortedDisjoint;
    OutsAreNew(v, level, in0, outs);
    RemovedNumbers(in0);
    RemovedNumbers(in1);
    forall l | 0 <= l < |v|
      ensures Saved(MetasOf(v[l]), AddedAfter([], e, l), DeletedAfter({}, e, l)) == MetasOf(v2[l])
    {
      VersionNumbers(v, l);
      if l == level {
        assert MetasOf([]) == [] && Elems<File>([]) == {};
        LevelFollows(v[l], v2[l], Elems(in0), [], e, l);
      } else if l == level + 1 {
        LevelFollows(v[l], v2[l], Elems(in1), outs, e, l);
      } else {
        LevelStays(v[l], e, l);
      }
    }
    LevelsFollow(v, v2, e);
  }

  lemma {:induction false} InstalledSorted(v: Levels, v2: Levels, level: nat, in0: seq<File>, in1: seq<File>,
          outs: seq<File>)
    requires Install(v, v2, level, in0, in1, outs) && LevelsSorted(v)
    ensures LevelsSorted(v2) && |v2| == |v| && level + 1 < |v|
  {
    hide OthersBeside;
    hide ValidFiles;
    hide SortedDisjoint;
    hide SortedBySmallest;
  }

  /** A file of the new version: an old one that stays, or an output. */
  predicate Listed(v: Levels, level: nat, in0: seq<File>, in1: seq<File>, outs: seq<File>, l: nat, g: File)
    requires l < |v|
  {
    (g in v[l] && !(l == level && g in in0) && !(l == level + 1 && g in in1)) || (l == level + 1 && g in outs)
  }

  ghost predicate AllListed(v: Levels, v2: Levels, level: nat, in0: seq<File>, in1: seq<File>, outs: seq<File>) {
    |v2| == |v| && forall l, g :: 0 <= l < |v| ==> (g in v2[l] <==> Listed(v, level, in0, in1, outs, l, g))
  }

  lemma {:induction false} InstalledListed(v: Levels, v2: Levels, level: nat, in0: seq<File>, in1: seq<File>,
          outs: seq<File>)
    requires Install(v, v2, level, in0, in1, outs)
    ensures AllListed(v, v2, level, in0, in1, outs) && level + 1 < |v| && forall f :: f in in0 ==> f in v[level]
  {
    forall f | f in in0 ensures f in v[level] {
      assert f in Elems(in0);
    }
    forall l, g | 0 <= l < |v| ensures g in v2[l] <==> Listed(v, level, in0, in1, outs, l, g) {
      InstallMembers(v, v2, level, in0, in1, outs, l, g);
    }
  }

  lemma {:induction false} ListedNumbers(v: Levels, v2: Levels, level: nat, in0: seq<File>, in1: seq<File>,
          outs: seq<File>, tables: map<nat, seq<Entry>>, bound: nat)
    requires AllListed(v, v2, level, in0, in1, outs) && TablesHold(v, tables)
    requires NumbersBelow(v, bound)
    requires forall f :: f in outs ==> f.number in tables && tables[f.number] == f.entries && f.number < bound
    ensures TablesHold(v2, tables) && NumbersBelow(v2, bound)
    ensures forall n :: InVersion(v2, n) ==> InVersion(v, n) || n in FileNumbers(outs)
  {
  }

  lemma {:induction false} InstallKeepsVersion(v: Levels, v2: Levels, level: nat, in0: seq<File>, in1: seq<File>,
          outs: seq<File>, tables: map<nat, seq<Entry>>, bound: nat)
    requires Install(v, v2, level, in0, in1, outs) && VersionOnDisk(v, tables) && OutputNumbers(v, level, in0, outs)
    requires NumbersBelow(v, bound)
    requires forall f :: f in outs ==> f.number in tables && tables[f.number] == f.entries && f.number < bound
    ensures VersionOnDisk(v2, tables) && NumbersBelow(v2, bound)
    ensures forall n :: InVersion(v2, n) ==> InVersion(v, n) || n in FileNumbers(outs)
  {
    InstalledSorted(v, v2, level, in0, in1, outs);
    InstalledListed(v, v2, level, in0, in1, outs);
    hide Install;
    hide LevelsSorted;
    ListedNumbers(v, v2, level, in0, in1, outs, tables, bound);
    hide TablesHold;
    hide NumbersBelow;
    hide InVersion;
    hide Listed;
    forall l, m, g, h | 0 <= l < |v2| && 0 <= m < |v2| && g in v2[l] && h in v2[m] && g.number == h.number
      ensures l == m && g == h
    {
      InstalledPair(v, level, in0, in1, outs, l, m, g, h);
    }
  }

  lemma {:induction false} InstalledPair(v: Levels, level: nat, in0: seq<File>, in1: seq<File>, outs: seq<File>,
          l: nat, m: nat, g: File, h: File)
    requires OneFilePerNumber(v) && OutputNumbers(v, level, in0, outs) && l < |v| && m < |v| && level + 1 < |v|
    requires Listed(v, level, in0, in1, outs, l, g) && Listed(v, level, in0, in1, outs, m, h) && g.number == h.number
    requires forall f :: f in in0 ==> f in v[level]
    ensures l == m && g == h
  {
    assert g in v[l] ==> InVersion(v, g.number);
    assert h in v[m] ==> InVersion(v, h.number);
    if l == level + 1 && g in outs && m == level + 1 && h in outs {
      var i :| 0 <= i < |outs| && outs[i] == g;
      var j :| 0 <= j < |outs| && outs[j] == h;
    }
  }

  /** What logging the edit of a compaction or a move does to the files' part of the invariant. */
  lemma {:induction false} EditKeepsDisk(s: Sys, t: Sys, e: Edit, needed: nat)
    requires DiskOk(s.disk, s.db) && Inv(t.db) && VersionOnDisk(t.db.version, t.disk.tables)
    requires t.disk == s.disk.(edits := s.disk.edits + [e]) && OnRecord(s.disk).numbers.logNumber == Some(needed)
    requires t.db == s.db.(version := t.db.version, running := t.db.running)
    requires Counted(e, s.db, OnRecord(s.disk).numbers, needed, t.db.version)
    requires ApplyLevels(OnRecord(s.disk).levels, e) == LevelMetas(t.db.version)
    ensures DiskOk(t.disk, t.db) && OnRecord(t.disk).numbers.logNumber == Some(needed)
  {
    var m := OnRecord(s.disk);
    RecordSnoc(s.disk, t.disk, e);
    hide Inv;
    hide OnRecord;
    hide ApplyEdit;
    hide ApplyLevels;
    hide VersionOnDisk;
    hide NumbersBelow;
    hide IncreasingSeqnos;
    hide Tail;
    ManifestAfter(m, s.db, t.db, e, needed);
    TailAfterEdit(Tail(s.disk.logs, needed), s.db, t.db, m.numbers.lastSequence.value, e.lastSequence.value);
    hide TailOk;
    hide ManifestOk;
  }

  lemma {:induction false} EditKeepsUp(s: Sys, t: Sys, needed: nat)
    requires UpOk(s) && !s.installing && OnRecord(s.disk).numbers.logNumber == Some(needed)
    requires OnRecord(t.disk).numbers.logNumber == Some(needed)
    requires t.disk.logs == s.disk.logs && t.logFile == s.logFile && t.logNumber == s.logNumber && t.held == s.held
    requires t.installing
    requires t.db == s.db.(version := t.db.version, running := t.db.running)
    requires NumbersTaken(t) && FilesKept(t)
    ensures UpOk(t)
  {
    hide OnRecord;
    hide Tail;
    hide NumbersTaken;
    hide FilesKept;
  }

  lemma {:induction false} OutputsKeepNumbers(s: Sys, t: Sys)
    requires NumbersTaken(s) && FilesKept(s) && !s.installing
    requires t == s.(disk := t.disk, db := t.db, installing := true) && t.disk.tables == s.disk.tables
    requires t.db == s.db.(version := t.db.version, running := None)
    requires forall n :: InVersion(t.db.version, n) ==> InVersion(s.db.version, n) || n in s.outputs
    ensures NumbersTaken(t) && FilesKept(t)
  {
    hide InVersion;
    hide NumbersBelow;
    hide TablesHold;
    assert forall n :: n in Busy(t) ==> n in Busy(s) && n !in s.outputs;
    forall n | Unlisted(s, n) && n !in s.outputs ensures Unlisted(t, n) {
    }
  }

  lemma {:induction false} OutputsAreNumbered(s: Sys, outs: seq<File>)
    requires NumbersTaken(s) && FilesKept(s) && s.db.running.Some? && AreOutputs(outs, s.outputs)
    ensures OutputNumbers(s.db.version, s.db.running.value.level, s.db.running.value.in0, outs)
    ensures forall f :: f in outs ==>
              f.number in s.disk.tables && s.disk.tables[f.number] == f.entries && f.number < s.db.nextFile
    ensures forall n :: n in FileNumbers(outs) ==> n in s.outputs
  {
    forall f | f in outs ensures !InVersion(s.db.version, f.number) && f.number < s.db.nextFile {
      assert f.number in Busy(s);
    }
    hide InVersion;
    hide TablesHold;
  }

  lemma {:induction false} LogFinishKeepsDisk(s: Sys, t: Sys, merged: seq<Entry>, outs: seq<File>, e: Edit)
    requires SysInv(s) && s.up && LogFinishStep(s, t, merged, outs, e)
    ensures DiskOk(t.disk, t.db)
    ensures OnRecord(t.disk).numbers.logNumber == OnRecord(s.disk).numbers.logNumber == Some(s.logNumber)
    ensures forall n :: InVersion(t.db.version, n) ==> InVersion(s.db.version, n) || n in s.outputs
  {
    hide Inv;
    hide OnRecord;
    hide FinishStep;
    hide NumbersTaken;
    hide FilesKept;
    hide TailOk;
    hide LogsSplit;
    hide VersionOnDisk;
    hide AreOutputs;
    hide OutputNumbers;
    hide InstallEdit;
    hide Install;
    hide InVersion;
    var m := OnRecord(s.disk);
    assert m.levels == LevelMetas(s.db.version) && m.numbers.logNumber == Some(s.logNumber);
    hide ManifestOk;
    NextKeepsInv(s.db, t.db, FinishCompaction(merged, outs));
    OutputsAreNumbered(s, outs);
    FinishInstalls(s.db, t.db, merged, outs);
    InvNumbers(s.db);
    var c := s.db.running.value;
    EditedVersion(s.db.version, t.db.version, c.level, c.in0, c.in1, outs, e, s.disk.tables, s.db.nextFile);
    EditKeepsDisk(s, t, e, s.logNumber);
  }

  /** The version an edit describes, and its files. */
  lemma {:induction false} EditedVersion(v: Levels, v2: Levels, level: nat, in0: seq<File>, in1: seq<File>,
          outs: seq<File>, e: Edit, tables: map<nat, seq<Entry>>, bound: nat)
    requires Install(v, v2, level, in0, in1, outs) && InstallEdit(e, level, in0, in1, outs)
    requires VersionOnDisk(v, tables) && OutputNumbers(v, level, in0, outs)
    requires NumbersBelow(v, bound)
    requires forall f :: f in outs ==> f.number in tables && tables[f.number] == f.entries && f.number < bound
    ensures ApplyLevels(LevelMetas(v), e) == LevelMetas(v2)
    ensures VersionOnDisk(v2, tables) && NumbersBelow(v2, bound)
    ensures forall n :: InVersion(v2, n) ==> InVersion(v, n) || n in FileNumbers(outs)
  {
    hide Install;
    hide InstallEdit;
    hide OutputNumbers;
    hide InVersion;
    InstallLevels(v, v2, level, in0, in1, outs, e);
    InstallKeepsVersion(v, v2, level, in0, in1, outs, tables, bound);
  }

  lemma {:induction false} InvNumbers(db: Db)
    requires Inv(db)
    ensures NumbersBelow(db.version, db.nextFile)
  {
    hide DbOk;
    hide RunningOk;
    hide HistoryOk;
    hide ReadsHistory;
  }

  lemma {:induction false} FinishInstalls(s: Db, t: Db, merged: seq<Entry>, outs: seq<File>)
    requires FinishStep(s, t, merged, outs) && t.nextFile == s.nextFile
    ensures s.running.Some?
    ensures Install(s.version, t.version, s.running.value.level, s.running.value.in0, s.running.value.in1, outs)
    ensures t == s.(version := t.version, running := None)
  {
    hide Install;
  }

  lemma {:induction false} LogFinishKeeps(s: Sys, t: Sys, merged: seq<Entry>, outs: seq<File>, e: Edit)
    requires SysInv(s) && s.up && LogFinishStep(s, t, merged, outs, e)
    ensures SysInv(t)
  {
    LogFinishKeepsDisk(s, t, merged, outs, e);
    FinishInstalls(s.db, t.db, merged, outs);
    hide FinishStep;
    hide DiskOk;
    hide OnRecord;
    hide AreOutputs;
    hide InstallEdit;
    hide Install;
    hide NumbersTaken;
    hide FilesKept;
    OutputsKeepNumbers(s, t);
    EditKeepsUp(s, t, s.logNumber);
    hide UpOk;
  }

  lemma {:induction false} MoveKeepsNumbers(s: Sys, t: Sys)
    requires NumbersTaken(s) && FilesKept(s) && !s.installing && s.db.running.None?
    requires t == s.(disk := t.disk, db := t.db, installing := true) && t.disk.tables == s.disk.tables
    requires t.db == s.db.(version := t.db.version)
    requires forall n :: InVersion(t.db.version, n) ==> InVersion(s.db.version, n)
    ensures NumbersTaken(t) && FilesKept(t)
  {
    hide InVersion;
    hide NumbersBelow;
    hide TablesHold;
    forall n | Unlisted(s, n) ensures Unlisted(t, n) {
    }
  }

  lemma {:induction false} MovedFile(v: Levels, level: nat, f: File, tables: map<nat, seq<Entry>>, bound: nat)
    requires level < |v| && f in v[level] && TablesHold(v, tables) && NumbersBelow(v, bound)
    ensures OutputNumbers(v, level, [f], [f]) && InVersion(v, f.number) && FileNumbers([f]) == {f.number}
    ensures forall g :: g in [f] ==> g.number in tables && tables[g.number] == g.entries && g.number < bound
  {
    assert f in [f];
  }

  lemma {:induction false} MovesFile(s: Db, t: Db, level: nat, f: File)
    requires MoveStep(s, t, level, f)
    ensures level + 1 < |s.version| && Install(s.version, t.version, level, [f], [], [f]) && f in s.version[level]
    ensures s.running.None? && t == s.(version := t.version)
  {
    assert f in [f];
    hide Install;
  }

  lemma {:induction false} LogMoveKeepsDisk(s: Sys, t: Sys, level: nat, f: File, e: Edit)
    requires SysInv(s) && s.up && LogMoveStep(s, t, level, f, e)
    ensures DiskOk(t.disk, t.db)
    ensures OnRecord(t.disk).numbers.logNumber == OnRecord(s.disk).numbers.logNumber == Some(s.logNumber)
    ensures forall n :: InVersion(t.db.version, n) ==> InVersion(s.db.version, n)
  {
    hide Inv;
    hide OnRecord;
    hide MoveStep;
    hide NumbersTaken;
    hide FilesKept;
    hide TailOk;
    hide LogsSplit;
    hide InstallEdit;
    hide Install;
    var m := OnRecord(s.disk);
    assert m.levels == LevelMetas(s.db.version) && m.numbers.logNumber == Some(s.logNumber);
    hide ManifestOk;
    NextKeepsInv(s.db, t.db, TrivialMove(level, f));
    MovesFile(s.db, t.db, level, f);
    InvNumbers(s.db);
    MovedFile(s.db.version, level, f, s.disk.tables, s.db.nextFile);
    hide VersionOnDisk;
    hide OutputNumbers;
    hide NumbersBelow;
    EditedVersion(s.db.version, t.db.version, level, [f], [], [f], e, s.disk.tables, s.db.nextFile);
    hide InVersion;
    EditKeepsDisk(s, t, e, s.logNumber);
  }

  lemma {:induction false} LogMoveKeeps(s: Sys, t: Sys, level: nat, f: File, e: Edit)
    requires SysInv(s) && s.up && LogMoveStep(s, t, level, f, e)
    ensures SysInv(t)
  {
    LogMoveKeepsDisk(s, t, level, f, e);
    MovesFile(s.db, t.db, level, f);
    hide MoveStep;
    hide DiskOk;
    hide OnRecord;
    hide InstallEdit;
    hide Install;
    hide NumbersTaken;
    hide FilesKept;
    MoveKeepsNumbers(s, t);
    EditKeepsUp(s, t, s.logNumber);
    hide UpOk;
  }
}
