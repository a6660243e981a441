/**
 Recovery: from the manifest, the tables and the logs of any reachable state, the store that DB::Open builds reads
 exactly the batches whose log records are complete.
 */
module DurableRecovery {
  import opened Entries
  import opened Files
  import opened Versions
  import opened Compactions
  import opened Picking
  import opened Transitions
  import opened Engine
  import opened EngineProof
  import opened VersionEdits
  import opened VersionBuilder
  import opened Manifest
  import opened ManifestReplay
  import opened Durable
  import opened DurableFiles
  import opened DurableProof

  // ----- the version on record

  lemma {:induction false} SameMetas(a: seq<File>, b: seq<File>, tables: map<nat, seq<Entry>>)
    requires MetasOf(a) == MetasOf(b)
    requires forall f :: f in a || f in b ==> f.number in tables && tables[f.number] == f.entries
    ensures a == b
  {
    assert |a| == |MetasOf(a)| == |b|;
    forall i | 0 <= i < |a| ensures a[i] == b[i] {
      assert a[i] in a && b[i] in b;
      assert MetasOf(a)[i] == MetaOf(a[i]) && MetasOf(b)[i] == MetaOf(b[i]);
    }
  }

  /** The manifest and the tables determine the version. */
  lemma {:induction false} SameVersion(v: Levels, w: Levels, tables: map<nat, seq<Entry>>)
    requires LevelMetas(v) == LevelMetas(w) && TablesHold(v, tables) && TablesHold(w, tables)
    ensures v == w
  {
    assert |v| == |LevelMetas(v)| == |w|;
    forall l | 0 <= l < |v| ensures v[l] == w[l] {
      assert LevelMetas(v)[l] == MetasOf(v[l]) && LevelMetas(w)[l] == MetasOf(w[l]);
      SameMetas(v[l], w[l], tables);
    }
  }

  // ----- the tables recovery writes

  lemma {:induction false} GroupMember(groups: seq<seq<Entry>>, i: nat, x: Entry)
    requires i < |groups| && x in groups[i]
    ensures x in Concat(groups)
  {
    if i < |groups| - 1 {
      GroupMember(groups[..|groups| - 1], i, x);
    }
  }

  /** Later groups hold later entries. */
  lemma {:induction false} GroupsAscend(groups: seq<seq<Entry>>, i: nat, j: nat, x: Entry, y: Entry)
    requires IncreasingSeqnos(Concat(groups)) && i < j < |groups| && x in groups[i] && y in groups[j]
    ensures x.ikey.seqno < y.ikey.seqno
  {
    var front, last := groups[..|groups| - 1], groups[|groups| - 1];
    var c := Concat(front);
    assert Concat(groups) == c + last;
    if j < |front| {
      assert IncreasingSeqnos(c) by {
        forall p, q | 0 <= p < q < |c| ensures c[p].ikey.seqno < c[q].ikey.seqno {
          assert (c + last)[p] == c[p] && (c + last)[q] == c[q];
        }
      }
      GroupsAscend(front, i, j, x, y);
    } else {
      GroupMember(front, i, x);
      var p :| 0 <= p < |c| && c[p] == x;
      var q :| 0 <= q < |last| && last[q] == y;
      assert (c + last)[p] == x && (c + last)[|c| + q] == y;
    }
  }

  lemma {:induction false} ConcatMember(groups: seq<seq<Entry>>, x: Entry)
    requires x in Concat(groups)
    ensures exists i :: 0 <= i < |groups| && x in groups[i]
  {
    var front, last := groups[..|groups| - 1], groups[|groups| - 1];
    if x in last {
      assert x in groups[|groups| - 1];
    } else {
      ConcatMember(front, x);
      var i :| 0 <= i < |front| && x in front[i];
      assert x in groups[i];
    }
  }

  lemma {:induction false} RecoveredEntries(files: seq<File>, groups: seq<seq<Entry>>, disk: Disk, from: nat)
    requires AreRecovered(files, groups, disk, from)
    ensures EntriesOf(files) == Elems(Concat(groups))
  {
    forall x ensures x in EntriesOf(files) <==> x in Elems(Concat(groups)) {
      if x in EntriesOf(files) {
        var f :| f in files && x in f.entries;
        var i :| 0 <= i < |files| && files[i] == f;
        assert x in Elems(files[i].entries);
        GroupMember(groups, i, x);
      }
      if x in Concat(groups) {
        ConcatMember(groups, x);
        var i :| 0 <= i < |groups| && x in groups[i];
        assert x in Elems(groups[i]);
        assert files[i] in files && x in files[i].entries;
      }
    }
  }

  /** Among the recovered tables, a higher number means newer entries. */
  lemma {:induction false} RecoveredAreNewer(files: seq<File>, groups: seq<seq<Entry>>, disk: Disk, from: nat)
    requires AreRecovered(files, groups, disk, from) && IncreasingSeqnos(Concat(groups))
    ensures NewerNumberIsNewer(files)
  {
    forall f, g | f in files && g in files && f.number > g.number
      ensures NewerThan(Elems(f.entries), Elems(g.entries))
    {
      var j :| 0 <= j < |files| && files[j] == f;
      var i :| 0 <= i < |files| && files[i] == g;
      assert i < j;
      forall x, y | x in Elems(f.entries) && y in Elems(g.entries) ensures x.ikey.seqno > y.ikey.seqno {
        assert x in Elems(groups[j]) && y in Elems(groups[i]);
        GroupsAscend(groups, i, j, y, x);
      }
    }
  }

  // ----- the recovered version

  lemma {:induction false} AddedMembers(files: seq<File>, files2: seq<File>, added: seq<File>)
    requires LevelEdited(files, files2, {}, Elems(added))
    ensures forall f :: f in files2 <==> f in files || f in added
    ensures EntriesOf(files2) == EntriesOf(files) + EntriesOf(added)
  {
    forall f ensures f in files2 <==> f in files || f in added {
      assert f in files2 <==> f in Elems(files2);
      assert f in files <==> f in Elems(files);
      assert f in added <==> f in Elems(added);
    }
  }

  lemma {:induction false} LevelZeroGrows(files: seq<File>, files2: seq<File>, added: seq<File>, bound: nat)
    requires LevelEdited(files, files2, {}, Elems(added)) && DistinctNumbers(files) && NewerNumberIsNewer(files)
    requires (forall f :: f in files ==> f.number < bound) && (forall f :: f in added ==> f.number >= bound)
    requires DistinctNumbers(added) && NewerNumberIsNewer(added) && NewerThan(EntriesOf(added), EntriesOf(files))
    ensures DistinctNumbers(files2) && NewerNumberIsNewer(files2)
  {
    AddedMembers(files, files2, added);
    forall i, j | 0 <= i < j < |files2| ensures files2[i].number != files2[j].number {
      var f, g := files2[i], files2[j];
      assert f in files2 && g in files2 && f != g;
      if f in files && g in files {
        DistinctFiles(files, f, g);
      } else if f in added && g in added {
        DistinctFiles(added, f, g);
      }
    }
    forall f, g | f in files2 && g in files2 && f.number > g.number
      ensures NewerThan(Elems(f.entries), Elems(g.entries))
    {
      if f in added && g in files {
        assert Elems(f.entries) <= EntriesOf(added) && Elems(g.entries) <= EntriesOf(files);
      }
    }
  }

  lemma {:induction false} GrownEntries(v: Levels, v2: Levels, added: set<Entry>)
    requires |v| > 0 && SameExcept(v, v2, {0}) && EntriesOf(v2[0]) == EntriesOf(v[0]) + added
    ensures AllEntries(v2) == AllEntries(v) + added
  {
    forall e ensures e in AllEntries(v2) <==> e in AllEntries(v) || e in added {
      if e in AllEntries(v) {
        var lv :| 0 <= lv < |v| && e in EntriesOf(v[lv]);
        assert e in EntriesOf(v2[lv]);
      }
      if e in added {
        assert e in EntriesOf(v2[0]);
      }
    }
  }

  lemma {:induction false} GrownOrder(v: Levels, v2: Levels, added: set<Entry>)
    requires |v| > 0 && SameExcept(v, v2, {0}) && EntriesOf(v2[0]) == EntriesOf(v[0]) + added
    requires DeeperIsOlder(v) && NewerThan(added, AllEntries(v))
    ensures DeeperIsOlder(v2)
  {
    forall i, j | 0 <= i < j < |v2| ensures NewerThan(EntriesOf(v2[i]), EntriesOf(v2[j])) {
      assert NewerThan(EntriesOf(v[i]), EntriesOf(v[j]));
      assert EntriesOf(v[j]) <= AllEntries(v);
    }
  }

  /** The version with the recovered tables is searchable and holds the tables' and the logs' entries. */
  lemma {:induction false} GrownIsOk(v: Levels, v2: Levels, added: seq<File>, bound: nat)
    requires Ok(v) && SameExcept(v, v2, {0}) && LevelEdited(v[0], v2[0], {}, Elems(added)) && ValidFiles(added)
    requires (forall f :: f in v[0] ==> f.number < bound) && (forall f :: f in added ==> f.number >= bound)
    requires DistinctNumbers(added) && NewerNumberIsNewer(added)
    requires NewerThan(EntriesOf(added), AllEntries(v)) && UniqueSeqnos(AllEntries(v) + EntriesOf(added))
    ensures Ok(v2) && AllEntries(v2) == AllEntries(v) + EntriesOf(added)
  {
    AddedMembers(v[0], v2[0], added);
    GrownEntries(v, v2, EntriesOf(added));
    GrownOrder(v, v2, EntriesOf(added));
    assert EntriesOf(v[0]) <= AllEntries(v);
    LevelZeroGrows(v[0], v2[0], added, bound);
    hide DeeperIsOlder;
    hide NewerNumberIsNewer;
    hide DistinctNumbers;
    hide UniqueSeqnos;
    hide SortedDisjoint;
    hide ValidFile;
    hide LevelEdited;
  }

  lemma {:induction false} RecoveredShape(files: seq<File>, groups: seq<seq<Entry>>, disk: Disk, from: nat)
    requires AreRecovered(files, groups, disk, from)
    ensures ValidFiles(files) && DistinctNumbers(files) && TableFiles(files, disk.tables)
    ensures forall f :: f in files ==> f.number >= from
  {
  }

  ghost predicate TableFiles(files: seq<File>, tables: map<nat, seq<Entry>>) {
    forall f :: f in files ==> f.number in tables && tables[f.number] == f.entries
  }

  // ----- recovery is right

  /** What the files recover to. */
  lemma {:induction false} RecoveredVersion(disk: Disk, db: Db, v: Levels, groups: seq<seq<Entry>>, files: seq<File>,
          v2: Levels, last: nat)
    requires DiskOk(disk, db) && Recovers(disk, v, groups, files, v2, last) && ReadBack(disk) == OnRecord(disk)
    ensures v == db.version && last == db.inserted
    ensures Ok(v2) && AllEntries(v2) == Stored(db)
  {
    var m := OnRecord(disk);
    var tail := Concat(groups);
    hide OnRecord;
    hide ReadBack;
    assert DbOk(db.mem, ImmEntries(db.imm), db.version);
    SameVersion(v, db.version, disk.tables);
    RecoveredEntries(files, groups, disk, m.numbers.nextFile.value);
    RecoveredAreNewer(files, groups, disk, m.numbers.nextFile.value);
    RecoveredShape(files, groups, disk, m.numbers.nextFile.value);
    MemoryIsNewer(db.mem, ImmEntries(db.imm), db.version);
    StoredIs(db, tail);
    hide Inv;
    hide AreRecovered;
    hide LevelEdited;
    hide IncreasingSeqnos;
    hide NewerThan;
    hide NewerNumberIsNewer;
    GrownIsOk(v, v2, files, m.numbers.nextFile.value);
  }

  lemma {:induction false} StoredIs(db: Db, tail: seq<Entry>)
    requires Elems(tail) == Elems(db.mem) + Elems(ImmEntries(db.imm)) && UniqueSeqnos(Stored(db))
    ensures Stored(db) == AllEntries(db.version) + Elems(tail) && UniqueSeqnos(AllEntries(db.version) + Elems(tail))
  {
  }

  /** The recovered store, with everything logged as its history. */
  function Reopened(v2: Levels, last: nat, nextFile: nat, history: set<Entry>): Db {
    Db([], None, v2, last, last, [], None, nextFile, None, history)
  }

  lemma {:induction false} ReopenedStored(v2: Levels, last: nat, nextFile: nat, history: set<Entry>)
    ensures Stored(Reopened(v2, last, nextFile, history)) == AllEntries(v2)
  {
  }

  lemma {:induction false} ReopenedOk(v2: Levels)
    requires Ok(v2)
    ensures DbOk([], [], v2)
  {
    assert DbEntries([], [], v2) == AllEntries(v2);
  }

  lemma {:induction false} ReopenedReads(db: Db, v2: Levels, nextFile: nat)
    requires Inv(db) && AllEntries(v2) == Stored(db)
    ensures ReadsHistory(Reopened(v2, db.inserted, nextFile, db.history))
    ensures HistoryOk(Reopened(v2, db.inserted, nextFile, db.history))
  {
    var t := Reopened(v2, db.inserted, nextFile, db.history);
    ReopenedStored(v2, db.inserted, nextFile, db.history);
    assert ReadsHistory(db) && HistoryOk(db);
    hide Inv;
    hide Stored;
    hide Read;
    forall k, snap | Live(t, snap) ensures Read(Stored(t), k, snap) == Read(t.history, k, snap) {
      assert Live(db, snap);
    }
  }

  /** The store DB::Open builds satisfies the invariant of the running store. */
  lemma {:induction false} ReopenedInv(db: Db, v2: Levels, nextFile: nat)
    requires Inv(db) && Ok(v2) && AllEntries(v2) == Stored(db) && NumbersBelow(v2, nextFile)
    ensures Inv(Reopened(v2, db.inserted, nextFile, db.history))
  {
    ReopenedReads(db, v2, nextFile);
    ReopenedOk(v2);
    assert |v2| == NUM_LEVELS;
    hide Inv;
    hide Ok;
    hide ReadsHistory;
    hide HistoryOk;
    hide DbOk;
    var t := Reopened(v2, db.inserted, nextFile, db.history);
    InvOf(t);
  }

  lemma {:induction false} InvOf(t: Db)
    requires DbOk(t.mem, ImmEntries(t.imm), t.version) && HistoryOk(t) && SnapshotsOk(t) && NumbersOk(t)
    requires RunningOk(t) && ReadsHistory(t)
    ensures Inv(t)
  {
    hide DbOk;
    hide HistoryOk;
    hide SnapshotsOk;
    hide NumbersOk;
    hide RunningOk;
    hide ReadsHistory;
  }

  // ----- the new manifest

  lemma {:induction false} OrderedMetas(v: Levels)
    requires |v| == NUM_LEVELS && LevelsSorted(v) && OneFilePerNumber(v)
    ensures OrderedLevels(LevelMetas(v))
    ensures forall l :: 0 <= l < NUM_LEVELS ==> DistinctMetas(LevelMetas(v)[l])
  {
    forall l | 0 <= l < NUM_LEVELS ensures Ordered(LevelMetas(v)[l]) && DistinctMetas(LevelMetas(v)[l]) {
      SortedIsOrdered(v[l]);
      VersionNumbers(v, l);
      assert LevelMetas(v)[l] == MetasOf(v[l]);
      SortedDistinct(v[l]);
    }
  }

  lemma {:induction false} SortedDistinct(files: seq<File>)
    requires SortedBySmallest(files) && OwnNumbers(files)
    ensures DistinctMetas(MetasOf(files))
  {
    forall i, j | 0 <= i < j < |files| ensures MetasOf(files)[i].number != MetasOf(files)[j].number {
      assert files[i] in files && files[j] in files;
    }
  }

  lemma {:induction false} OpenLevels(v: Levels, v2: Levels, files: seq<File>, e: Edit, bound: nat)
    requires |v| == NUM_LEVELS && LevelsSorted(v) && OneFilePerNumber(v) && NumbersBelow(v, bound)
    requires SameExcept(v, v2, {0}) && LevelEdited(v[0], v2[0], {}, Elems(files))
    requires DistinctNumbers(files) && forall f :: f in files ==> f.number >= bound
    requires e.deleted == []
    requires forall l :: 0 <= l < NUM_LEVELS ==> AddsAt(e.added, l) == if l == 0 then MetasOf(files) else []
    ensures ApplyLevels(LevelMetas(v), e) == LevelMetas(v2)
  {
    forall l | 0 <= l < |v|
      ensures Saved(MetasOf(v[l]), AddedAfter([], e, l), DeletedAfter({}, e, l)) == MetasOf(v2[l])
    {
      VersionNumbers(v, l);
      if l == 0 {
        LevelFollows(v[0], v2[0], {}, files, e, 0);
      } else {
        LevelStays(v[l], e, l);
      }
    }
    LevelsFollow(v, v2, e);
  }

  lemma {:induction false} OpenPair(v: Levels, files: seq<File>, bound: nat, l: nat, m: nat, g: File, h: File)
    requires OneFilePerNumber(v) && NumbersBelow(v, bound) && l < |v| && m < |v| && DistinctNumbers(files)
    requires (forall f :: f in files ==> bound <= f.number) && g.number == h.number
    requires (g in v[l] || (l == 0 && g in files)) && (h in v[m] || (m == 0 && h in files))
    ensures l == m && g == h
  {
    if g in files && h in files {
      var i :| 0 <= i < |files| && files[i] == g;
      var j :| 0 <= j < |files| && files[j] == h;
    }
  }

  lemma {:induction false} OpenTables(v: Levels, v2: Levels, files: seq<File>, tables: map<nat, seq<Entry>>,
          bound: nat, nextFile: nat)
    requires TablesHold(v, tables) && NumbersBelow(v, bound) && |v| > 0 && bound <= nextFile && |v2| == |v|
    requires forall lv, f :: 0 <= lv < |v2| && f in v2[lv] ==> f in v[lv] || (lv == 0 && f in files)
    requires TableFiles(files, tables) && forall f :: f in files ==> bound <= f.number < nextFile
    ensures TablesHold(v2, tables) && NumbersBelow(v2, nextFile)
  {
  }

  lemma {:induction false} OpenVersion(v: Levels, v2: Levels, files: seq<File>, tables: map<nat, seq<Entry>>,
          bound: nat, nextFile: nat)
    requires VersionOnDisk(v, tables) && NumbersBelow(v, bound) && |v| > 0 && bound <= nextFile
    requires SameExcept(v, v2, {0}) && LevelEdited(v[0], v2[0], {}, Elems(files))
    requires TableFiles(files, tables) && DistinctNumbers(files)
    requires forall f :: f in files ==> bound <= f.number < nextFile
    ensures VersionOnDisk(v2, tables) && NumbersBelow(v2, nextFile)
  {
    GrownSorted(v, v2, files);
    GrownMembers(v, v2, files);
    hide LevelEdited;
    hide LevelsSorted;
    hide SameExcept;
    hide TablesHold;
    hide NumbersBelow;
    hide DistinctNumbers;
    hide OneFilePerNumber;
    OpenTables(v, v2, files, tables, bound, nextFile);
    GrownNumbers(v, v2, files, bound);
  }

  lemma {:induction false} GrownNumbers(v: Levels, v2: Levels, files: seq<File>, bound: nat)
    requires OneFilePerNumber(v) && NumbersBelow(v, bound) && |v2| == |v| && DistinctNumbers(files)
    requires forall f :: f in files ==> bound <= f.number
    requires forall lv, f :: 0 <= lv < |v2| && f in v2[lv] ==> f in v[lv] || (lv == 0 && f in files)
    ensures OneFilePerNumber(v2)
  {
    hide NumbersBelow;
    hide DistinctNumbers;
    forall l, m, g, h | 0 <= l < |v2| && 0 <= m < |v2| && g in v2[l] && h in v2[m] && g.number == h.number
      ensures l == m && g == h
    {
      OpenPair(v, files, bound, l, m, g, h);
    }
  }

  lemma {:induction false} GrownSorted(v: Levels, v2: Levels, files: seq<File>)
    requires LevelsSorted(v) && |v| > 0 && SameExcept(v, v2, {0}) && LevelEdited(v[0], v2[0], {}, Elems(files))
    ensures LevelsSorted(v2) && |v2| == |v|
  {
    hide SortedBySmallest;
  }

  lemma {:induction false} GrownMembers(v: Levels, v2: Levels, files: seq<File>)
    requires |v| > 0 && SameExcept(v, v2, {0}) && LevelEdited(v[0], v2[0], {}, Elems(files))
    ensures |v2| == |v| && forall lv, f :: 0 <= lv < |v2| && f in v2[lv] ==> f in v[lv] || (lv == 0 && f in files)
  {
    AddedMembers(v[0], v2[0], files);
    hide LevelEdited;
    hide EntriesOf;
  }

  lemma {:induction false} OpenRecord(v: Levels, pointers: Pointers, e: Edit, v2: Levels, disk: Disk)
    requires |v| == NUM_LEVELS && LevelsSorted(v) && OneFilePerNumber(v) && |pointers| == NUM_LEVELS
    requires disk.edits == [SnapshotEdit([], LevelMetas(v), pointers), e]
    requires ApplyLevels(LevelMetas(v), e) == LevelMetas(v2)
    ensures OnRecord(disk) ==
        State(LevelMetas(v2), ApplyPointers(pointers, e.compactPointers), ApplyNumbers(NO_NUMBERS, e))
  {
    OrderedMetas(v);
    SnapshotIsState([], LevelMetas(v), pointers);
    var snapshot := SnapshotEdit([], LevelMetas(v), pointers);
    hide SnapshotEdit;
    hide ApplyLevels;
    HistorySnoc(Fresh(), [], snapshot);
    assert [] + [snapshot] == [snapshot] && disk.edits == [snapshot] + [e];
    HistorySnoc(Fresh(), [snapshot], e);
  }

  lemma {:induction false} RecoversParts(disk: Disk, v: Levels, groups: seq<seq<Entry>>, files: seq<File>, v2: Levels,
          last: nat)
    requires Recovers(disk, v, groups, files, v2, last)
    ensures ReadBack(disk).numbers.nextFile.Some?
    ensures AreRecovered(files, groups, disk, ReadBack(disk).numbers.nextFile.value)
    ensures SameExcept(v, v2, {0}) && |v| > 0 && LevelEdited(v[0], v2[0], {}, Elems(files))
  {
    hide ReadBack;
    hide AreRecovered;
    hide LevelEdited;
  }

  /** What the new manifest says. */
  lemma {:induction false} OpenManifest(s: Sys, t: Sys, v: Levels, groups: seq<seq<Entry>>, files: seq<File>, e: Edit)
    requires DiskOk(s.disk, s.db) && OpenStep(s, t, v, groups, files, e) && ReadBack(s.disk) == OnRecord(s.disk)
    ensures VersionOnDisk(t.current, t.disk.tables) && NumbersBelow(t.current, t.db.nextFile)
    ensures var m := OnRecord(t.disk);
            m.levels == LevelMetas(t.current) && |m.pointers| == NUM_LEVELS && m.numbers == ApplyNumbers(NO_NUMBERS, e)
  {
    var m := OnRecord(s.disk);
    var bound := m.numbers.nextFile.value;
    RecoveredVersion(s.disk, s.db, v, groups, files, t.current, t.db.lastSequence);
    hide OnRecord;
    hide ReadBack;
    RecoversParts(s.disk, v, groups, files, t.current, t.db.lastSequence);
    RecoveredShape(files, groups, s.disk, bound);
    assert |v| == NUM_LEVELS && |m.pointers| == NUM_LEVELS && VersionOnDisk(v, s.disk.tables)
        && NumbersBelow(v, bound) by {
      hide DbOk;
      hide VersionOnDisk;
      hide NumbersBelow;
      hide Recovers;
    }
    hide Inv;
    hide AreRecovered;
    hide Recovers;
    hide DiskOk;
    hide Ok;
    hide SnapshotEdit;
    OpenVersion(v, t.current, files, s.disk.tables, bound, t.db.nextFile);
    OpenLevels(v, t.current, files, e, bound);
    OpenRecord(v, m.pointers, e, t.current, t.disk);
  }

  lemma {:induction false} OpenKeepsDisk(s: Sys, t: Sys, v: Levels, groups: seq<seq<Entry>>, files: seq<File>, e: Edit)
    requires DiskOk(s.disk, s.db) && OpenStep(s, t, v, groups, files, e) && ReadBack(s.disk) == OnRecord(s.disk)
    ensures DiskOk(t.disk, t.db) && OnRecord(t.disk).numbers.logNumber == Some(t.logFile)
  {
    hide Inv;
    hide OnRecord;
    hide ReadBack;
    hide Recovers;
    hide VersionOnDisk;
    hide NumbersBelow;
    hide Ok;
    hide SnapshotEdit;
    hide ManifestOk;
    hide TailOk;
    RecoveredVersion(s.disk, s.db, v, groups, files, t.current, t.db.lastSequence);
    OpenManifest(s, t, v, groups, files, e);
    ReopenedInv(s.db, t.current, t.db.nextFile);
    TailFromLast(s.disk.logs);
    assert Concat([]) == [];
    OpenCounters(OnRecord(t.disk), t.db, e, files, t.logFile);
    hide Tail;
    assert TailOk([], t.db, t.db.lastSequence) by { EmptyTail(t.db); }
  }

  lemma {:induction false} EmptyTail(db: Db)
    requires db.mem == [] && db.imm.None? && db.inserted == db.lastSequence
    ensures TailOk([], db, db.lastSequence)
  {
  }

  lemma {:induction false} OpenCounters(m: State, db: Db, e: Edit, files: seq<File>, logNumber: nat)
    requires OpenEdit(e, files, logNumber, db.nextFile, db.lastSequence) && NumbersBelow(db.version, db.nextFile)
    requires m.levels == LevelMetas(db.version) && |m.pointers| == NUM_LEVELS
    requires m.numbers == ApplyNumbers(NO_NUMBERS, e)
    ensures ManifestOk(m, db) && m.numbers.logNumber == Some(logNumber)
    ensures m.numbers.lastSequence == Some(db.lastSequence)
  {
    hide NumbersBelow;
    hide LevelMetas;
  }

  lemma {:induction false} TablesOf(s: Sys)
    requires DiskOk(s.disk, s.db)
    ensures TablesHold(s.db.version, s.disk.tables)
  {
    hide Inv;
    hide ManifestOk;
    hide TailOk;
  }

  /** A store that has just been opened. */
  lemma {:induction false} FreshUp(t: Sys)
    requires t.pendingOutputs == {} && !t.flushed && t.outputs == map[] && t.pinned == [] && !t.installing
    requires t.held.None?
    requires t.db.mem == [] && t.db.imm.None? && t.db.running.None? && t.db.reserved.None?
    requires t.db.inserted == t.db.lastSequence
    requires t.current == t.db.version && t.logNumber == t.logFile
    requires OnRecord(t.disk).numbers.logNumber == Some(t.logFile)
    requires t.disk.logs != [] && t.disk.logs[|t.disk.logs| - 1] == Log(t.logFile, []) && AscendingLogs(t.disk.logs)
    requires t.logFile < t.db.nextFile && NumbersBelow(t.current, t.db.nextFile) && TablesHold(t.current, t.disk.tables)
    ensures UpOk(t)
  {
    hide OnRecord;
    hide ReadBack;
    hide NumbersBelow;
    hide TablesHold;
    assert Concat([]) == [];
    NoTailBeforeLast(t.disk.logs, t.logFile);
    hide Tail;
    hide Concat;
  }

  lemma {:induction false} OpenKeepsUp(s: Sys, t: Sys, v: Levels, groups: seq<seq<Entry>>, files: seq<File>, e: Edit)
    requires DiskOk(s.disk, s.db) && OpenStep(s, t, v, groups, files, e) && DiskOk(t.disk, t.db)
    requires OnRecord(t.disk).numbers.logNumber == Some(t.logFile)
    ensures UpOk(t)
  {
    hide Inv;
    hide Recovers;
    hide OpenEdit;
    hide SnapshotEdit;
    hide TailOk;
    hide VersionOnDisk;
    hide ManifestOk;
    hide OnRecord;
    hide ReadBack;
    hide NumbersBelow;
    hide TablesHold;
    hide UpOk;
    InvNumbers(t.db);
    TablesOf(t);
    FreshUp(t);
  }

  lemma {:induction false} OpenKeeps(s: Sys, t: Sys, v: Levels, groups: seq<seq<Entry>>, files: seq<File>, e: Edit)
    requires SysInv(s) && OpenStep(s, t, v, groups, files, e) && ReadBack(s.disk) == OnRecord(s.disk)
    ensures SysInv(t)
  {
    hide DiskOk;
    hide UpOk;
    hide OpenStep;
    OpenKeepsDisk(s, t, v, groups, files, e);
    OpenKeepsUp(s, t, v, groups, files, e);
  }
}
