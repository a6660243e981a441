/**
 Every crash can be recovered from: from any reachable state there are steps of DB::Open that succeed, and the store
 they open reads exactly the batches whose log records are complete.
 */
module DurableReopen {
  import opened Entries
  import opened Files
  import opened Versions
  import opened Compactions
  import opened Transitions
  import opened Engine
  import opened VersionEdits
  import opened VersionBuilder
  import opened Manifest
  import opened ManifestReplay
  import opened Durable
  import opened DurableFiles
  import opened DurableProof
  import opened DurableRecovery
  import opened DurableAdds
  import opened DurableReads
  import opened DurableRuns

  // ----- the tables of the logs' entries

  lemma {:induction false} IncreasingFront(es: seq<Entry>)
    requires IncreasingSeqnos(es) && es != []
    ensures IncreasingSeqnos(es[..|es| - 1])
    ensures forall x :: x in es[..|es| - 1] ==> x.ikey.seqno < es[|es| - 1].ikey.seqno
  {
  }

  /** The memtable filled from the logs is in order and holds their entries. */
  lemma {:induction false} ReplayedSorted(tail: seq<Entry>)
    requires IncreasingSeqnos(tail)
    ensures SortedEntries(Durable.InsertAll([], tail)) && Elems(Durable.InsertAll([], tail)) == Elems(tail)
  {
    if tail == [] {
    } else {
      var front, last := tail[..|tail| - 1], tail[|tail| - 1];
      IncreasingFront(tail);
      ReplayedSorted(front);
      ElemsSnoc(tail);
      var mem := Durable.InsertAll([], front);
      hide IncreasingSeqnos;
      hide SortedEntries;
      hide InsertEntry;
      forall x | x in mem ensures x.ikey.seqno < last.ikey.seqno {
        assert x in Elems(mem);
      }
      InsertEntrySorted(mem, last);
    }
  }

  function KeyAt(es: seq<Entry>, i: int): InternalKey {
    if 0 <= i < |es| then es[i].ikey else InternalKey(0, 0, Deletion)
  }

  /** The table WriteLevel0Table makes of a memtable filled from a stretch of the logs. */
  function TableOf(number: nat, group: seq<Entry>): File {
    var es := Durable.InsertAll([], group);
    File(number, |es|, KeyAt(es, 0), KeyAt(es, |es| - 1), es)
  }

  function TablesOf(number: nat, groups: seq<seq<Entry>>): seq<File> {
    seq(|groups|, i requires 0 <= i < |groups| => TableOf(number + i, groups[i]))
  }

  lemma {:induction false} TableIsValid(number: nat, group: seq<Entry>)
    requires IncreasingSeqnos(group) && group != [] && forall x :: x in group ==> x.ikey.seqno <= MAX_SEQUENCE
    ensures ValidFile(TableOf(number, group)) && Elems(TableOf(number, group).entries) == Elems(group)
  {
    ReplayedSorted(group);
    var es := Durable.InsertAll([], group);
    hide IncreasingSeqnos;
    hide Durable.InsertAll;
    assert group[0] in Elems(es);
    forall i | 0 <= i < |es| ensures es[i].ikey.seqno <= MAX_SEQUENCE {
      assert es[i] in Elems(es);
    }
  }

  /** A way to cut what the logs hold into memtables, none of them empty. */
  predicate IsCut(groups: seq<seq<Entry>>, tail: seq<Entry>) {
    Concat(groups) == tail && forall i :: 0 <= i < |groups| ==> groups[i] != []
  }

  lemma {:induction false} IncreasingParts(a: seq<Entry>, b: seq<Entry>)
    requires IncreasingSeqnos(a + b)
    ensures IncreasingSeqnos(a) && IncreasingSeqnos(b)
  {
    forall i, j | 0 <= i < j < |a| ensures a[i].ikey.seqno < a[j].ikey.seqno {
      assert (a + b)[i] == a[i] && (a + b)[j] == a[j];
    }
    forall i, j | 0 <= i < j < |b| ensures b[i].ikey.seqno < b[j].ikey.seqno {
      assert (a + b)[|a| + i] == b[i] && (a + b)[|a| + j] == b[j];
    }
  }

  lemma {:induction false} GroupIncreasing(groups: seq<seq<Entry>>, i: nat)
    requires IncreasingSeqnos(Concat(groups)) && i < |groups|
    ensures IncreasingSeqnos(groups[i])
  {
    hide IncreasingSeqnos;
    var front, last := groups[..|groups| - 1], groups[|groups| - 1];
    IncreasingParts(Concat(front), last);
    if i < |front| {
      GroupIncreasing(front, i);
    }
  }

  lemma {:induction false} CutIsValid(groups: seq<seq<Entry>>, tail: seq<Entry>, number: nat, i: nat)
    requires IsCut(groups, tail) && IncreasingSeqnos(tail) && i < |groups|
    requires forall x :: x in tail ==> x.ikey.seqno <= MAX_SEQUENCE
    ensures ValidFile(TableOf(number, groups[i])) && Elems(TableOf(number, groups[i]).entries) == Elems(groups[i])
  {
    GroupIncreasing(groups, i);
    forall x | x in groups[i] ensures x in tail {
      GroupMember(groups, i, x);
    }
    hide IncreasingSeqnos;
    hide Concat;
    hide TableOf;
    TableIsValid(number, groups[i]);
  }

  // ----- placing them at level 0

  predicate FileBefore(f: File, g: File) {
    Less(f.smallest, g.smallest) || (f.smallest == g.smallest && f.number < g.number)
  }

  predicate AllBefore(files: seq<File>, f: File) {
    forall g :: g in files ==> FileBefore(g, f)
  }

  /** Where VersionSet::Builder puts one more file. */
  function InsertFile(files: seq<File>, f: File): seq<File> {
    if files == [] || FileBefore(files[|files| - 1], f) then files + [f]
    else InsertFile(files[..|files| - 1], f) + [files[|files| - 1]]
  }

  lemma {:induction false} FileOrder(f: File, g: File, h: File)
    ensures f.number != g.number ==> FileBefore(f, g) || FileBefore(g, f)
    ensures FileBefore(f, g) && FileBefore(g, h) ==> FileBefore(f, h)
  {
    TotalOrder(f.smallest, g.smallest);
  }

  lemma {:induction false} SortedFront(files: seq<File>)
    requires SortedBySmallest(files) && files != []
    ensures SortedBySmallest(files[..|files| - 1])
    ensures AllBefore(files[..|files| - 1], files[|files| - 1])
    ensures Elems(files) == Elems(files[..|files| - 1]) + {files[|files| - 1]}
  {
    assert files == files[..|files| - 1] + [files[|files| - 1]];
  }

  lemma {:induction false} SortedWithLast(files: seq<File>, f: File)
    requires SortedBySmallest(files) && forall g :: g in Elems(files) ==> FileBefore(g, f)
    ensures SortedBySmallest(files + [f]) && Elems(files + [f]) == Elems(files) + {f}
  {
    assert forall i :: 0 <= i < |files| ==> files[i] in Elems(files);
  }

  lemma {:induction false} InsertFileSorted(files: seq<File>, f: File)
    requires SortedBySmallest(files) && forall g :: g in files ==> g.number != f.number
    ensures SortedBySmallest(InsertFile(files, f)) && Elems(InsertFile(files, f)) == Elems(files) + {f}
  {
    hide SortedBySmallest;
    hide FileBefore;
    if files == [] {
      SortedWithLast([], f) by { NoneSorted(); }
    } else {
      var front, last := files[..|files| - 1], files[|files| - 1];
      SortedFront(files);
      FileOrder(last, f, f);
      if FileBefore(last, f) {
        forall g | g in Elems(files) ensures FileBefore(g, f) {
          FileOrder(g, last, f);
        }
        SortedWithLast(files, f);
      } else {
        InsertFileSorted(front, f);
        SortedWithLast(InsertFile(front, f), last);
      }
    }
  }

  lemma {:induction false} NoneSorted()
    ensures SortedBySmallest([])
  {
  }

  function InsertFiles(files: seq<File>, added: seq<File>): seq<File> {
    if added == [] then files else InsertFile(InsertFiles(files, added[..|added| - 1]), added[|added| - 1])
  }

  predicate AscendingNumbers(files: seq<File>) {
    forall i, j :: 0 <= i < j < |files| ==> files[i].number < files[j].number
  }

  lemma {:induction false} InsertFilesSorted(files: seq<File>, added: seq<File>, bound: nat)
    requires SortedBySmallest(files) && (forall f :: f in files ==> f.number < bound)
    requires AscendingNumbers(added) && forall f :: f in added ==> bound <= f.number
    ensures SortedBySmallest(InsertFiles(files, added))
    ensures Elems(InsertFiles(files, added)) == Elems(files) + Elems(added)
  {
    hide SortedBySmallest;
    hide InsertFile;
    if added == [] {
    } else {
      var front, last := added[..|added| - 1], added[|added| - 1];
      assert added == front + [last];
      InsertFilesSorted(files, front, bound);
      var before := InsertFiles(files, front);
      forall g | g in before ensures g.number != last.number {
        assert g in Elems(before);
        if g in front {
          var i :| 0 <= i < |front| && front[i] == g;
          assert added[i] == g;
        }
      }
      InsertFileSorted(before, last);
    }
  }

  /** The version with the recovered tables at level 0. */
  function WithTables(v: Levels, files: seq<File>): Levels
    requires |v| > 0
  {
    v[0 := InsertFiles(v[0], files)]
  }

  lemma {:induction false} WithTablesEdited(v: Levels, groups: seq<seq<Entry>>, files: seq<File>, disk: Disk,
      bound: nat)
    requires |v| > 0 && LevelsSorted(v) && NumbersBelow(v, bound) && AreRecovered(files, groups, disk, bound)
    ensures SameExcept(v, WithTables(v, files), {0}) && LevelEdited(v[0], WithTables(v, files)[0], {}, Elems(files))
  {
    hide ValidFile;
    hide SortedBySmallest;
    InsertFilesSorted(v[0], files, bound);
    assert Elems(v[0]) - {} == Elems(v[0]);
  }

  function AddedTables(files: seq<File>): seq<(nat, Meta)> {
    LevelFiles(MetasOf(files), 0)
  }

  // ----- a number no file has

  lemma {:induction false} AboveLogs(logs: seq<Log>) returns (n: nat)
    ensures forall log :: log in logs ==> log.number < n
  {
    if logs == [] {
      n := 0;
    } else {
      var before := AboveLogs(logs[..|logs| - 1]);
      var last := logs[|logs| - 1];
      n := if last.number >= before then last.number + 1 else before;
      assert forall log :: log in logs <==> log in logs[..|logs| - 1] || log == last;
    }
  }

  lemma {:induction false} UnusedNumber(disk: Disk) returns (n: nat)
    ensures IsUnused(disk, n)
  {
    var m := ReadBack(disk).numbers;
    hide ReadBack;
    var logs := AboveLogs(disk.logs);
    n := logs + if m.nextFile.Some? then m.nextFile.value else 0;
    n := n + if m.logNumber.Some? then m.logNumber.value else 0;
  }

  // ----- DB::Open

  function OpenEditOf(files: seq<File>, number: nat, last: nat): Edit {
    EMPTY_EDIT.(logNumber := Some(number), nextFile := Some(number + 1), lastSequence := Some(last),
        added := AddedTables(files))
  }

  lemma {:induction false} OpenEditIs(files: seq<File>, number: nat, last: nat)
    ensures OpenEdit(OpenEditOf(files, number, last), files, number, number + 1, last)
  {
    forall l | 0 <= l < NUM_LEVELS
      ensures AddsAt(OpenEditOf(files, number, last).added, l) == if l == 0 then MetasOf(files) else []
    {
      LevelFilesAt(MetasOf(files), 0, l);
    }
    hide AddsAt;
    hide MetasOf;
  }

  /** What recovery needs of the files before it writes the new log and the new manifest. */
  ghost predicate ReadyToOpen(disk: Disk, v: Levels, groups: seq<seq<Entry>>, files: seq<File>, number: nat) {
    var m := ReadBack(disk);
    && m.numbers.nextFile.Some? && m.numbers.logNumber.Some? && m.numbers.lastSequence.Some?
    && LevelMetas(v) == m.levels && TablesHold(v, disk.tables) && |v| > 0 && LevelsSorted(v)
    && NumbersBelow(v, m.numbers.nextFile.value)
    && Concat(groups) == Tail(disk.logs, m.numbers.logNumber.value)
    && AreRecovered(files, groups, disk, m.numbers.nextFile.value)
    && (forall f :: f in files ==> f.number < number) && IsUnused(disk, number)
  }

  lemma {:induction false} SameRead(a: Disk, b: Disk)
    requires a.edits == b.edits
    ensures ReadBack(a) == ReadBack(b)
  {
  }

  lemma {:induction false} SameRecovered(files: seq<File>, groups: seq<seq<Entry>>, a: Disk, b: Disk, from: nat)
    requires AreRecovered(files, groups, a, from) && b.tables == a.tables
    ensures AreRecovered(files, groups, b, from)
  {
  }

  lemma {:induction false} ReadyRecovers(disk: Disk, v: Levels, groups: seq<seq<Entry>>, files: seq<File>, number: nat)
    requires ReadyToOpen(disk, v, groups, files, number)
    ensures var m := ReadBack(disk).numbers;
            && m.logNumber.Some? && m.nextFile.Some? && m.lastSequence.Some? && m.logNumber.value <= number
            && m.nextFile.value <= number
            && |v| > 0 && (forall f :: f in files ==> f.number < number)
            && Recovers(disk.(logs := disk.logs + [Log(number, [])]), v, groups, files, WithTables(v, files),
                        LastSequence(Concat(groups), m.lastSequence.value))
  {
    var m := ReadBack(disk);
    var disk2 := disk.(logs := disk.logs + [Log(number, [])]);
    SameRead(disk, disk2);
    hide ReadBack;
    TailOneMoreLog(disk.logs, Log(number, []), m.numbers.logNumber.value);
    SameRecovered(files, groups, disk, disk2, m.numbers.nextFile.value);
    WithTablesEdited(v, groups, files, disk, m.numbers.nextFile.value);
    hide AreRecovered;
    hide LevelEdited;
    hide SameExcept;
    hide Tail;
    hide Concat;
    hide TablesHold;
    hide NumbersBelow;
    hide LevelsSorted;
    hide LevelMetas;
    hide WithTables;
  }

  /** The store opened with these tables and this log. */
  function Opened(s: Sys, v: Levels, files: seq<File>, number: nat, last: nat): Sys
    requires |v| > 0
  {
    var v2 := WithTables(v, files);
    var edits := [SnapshotEdit([], LevelMetas(v), ReadBack(s.disk).pointers), OpenEditOf(files, number, last)];
    Sys(s.disk.(edits := edits), true,
        Db([], None, v2, last, last, [], None, number + 1, None, s.db.history),
        v2, false, None, number, number, {}, false, map[], [])
  }

  lemma {:induction false} OpensTo(s: Sys, v: Levels, groups: seq<seq<Entry>>, files: seq<File>, number: nat, last: nat)
    requires |v| > 0 && Recovers(s.disk, v, groups, files, WithTables(v, files), last)
    requires s.disk.logs != [] && s.disk.logs[|s.disk.logs| - 1] == Log(number, [])
    requires var m := ReadBack(s.disk).numbers;
             m.logNumber.Some? && m.nextFile.Some? && m.logNumber.value <= number && m.nextFile.value <= number
    requires forall f :: f in files ==> f.number < number
    ensures OpenStep(s, Opened(s, v, files, number, last), v, groups, files, OpenEditOf(files, number, last))
  {
    OpenEditIs(files, number, last);
    hide Recovers;
    hide OpenEdit;
    hide OpenEditOf;
    hide ReadBack;
    hide WithTables;
    hide SnapshotEdit;
    hide LevelMetas;
  }

  lemma {:induction false} CreatesLog(s: Sys, number: nat) returns (t: Sys)
    requires !s.up && IsUnused(s.disk, number)
    ensures NextSys(s, t, CreateLog(number)) && ReadBack(t.disk) == ReadBack(s.disk) && !t.up
    ensures t.disk == s.disk.(logs := s.disk.logs + [Log(number, [])])
    ensures t.disk.logs != [] && t.disk.logs[|t.disk.logs| - 1] == Log(number, [])
  {
    hide IsUnused;
    hide ReadBack;
    t := s.(disk := s.disk.(logs := s.disk.logs + [Log(number, [])]));
    SameRead(s.disk, t.disk);
  }

  lemma {:induction false} OpenIsNext(s: Sys, t: Sys, v: Levels, groups: seq<seq<Entry>>, files: seq<File>, e: Edit)
    requires !s.up && OpenStep(s, t, v, groups, files, e)
    ensures NextSys(s, t, Open(v, groups, files, e)) && t.up
  {
    hide Recovers;
    hide OpenEdit;
    hide ReadBack;
    hide SnapshotEdit;
  }

  /** The last sequence number a store opened from these files has. */
  function OpenedAt(disk: Disk, groups: seq<seq<Entry>>): nat
    requires ReadBack(disk).numbers.lastSequence.Some?
  {
    LastSequence(Concat(groups), ReadBack(disk).numbers.lastSequence.value)
  }

  lemma {:induction false} OpenedLast(s: Sys, v: Levels, files: seq<File>, number: nat, last: nat)
    requires |v| > 0
    ensures Opened(s, v, files, number, last).db.lastSequence == last
  {
    hide WithTables;
    hide SnapshotEdit;
    hide LevelMetas;
    hide ReadBack;
    hide OpenEditOf;
  }

  lemma {:induction false} OpenedAtIs(disk: Disk, groups: seq<seq<Entry>>)
    requires ReadBack(disk).numbers.lastSequence.Some?
    ensures OpenedAt(disk, groups) == LastSequence(Concat(groups), ReadBack(disk).numbers.lastSequence.value)
  {
  }

  /** The new log and then the new manifest. */
  lemma {:induction false} FinishOpen(s: Sys, v: Levels, groups: seq<seq<Entry>>, files: seq<File>, number: nat)
    returns (s2: Sys, t: Sys, e: Edit)
    requires !s.up && ReadyToOpen(s.disk, v, groups, files, number)
    ensures NextSys(s, s2, CreateLog(number)) && NextSys(s2, t, Open(v, groups, files, e)) && t.up
    ensures ReadBack(s.disk).numbers.lastSequence.Some? && t.db.lastSequence == OpenedAt(s.disk, groups)
  {
    hide *;
    ReadyRecovers(s.disk, v, groups, files, number);
    UnusedOf(s.disk, v, groups, files, number);
    s2 := CreatesLog(s, number);
    var last := LastSequence(Concat(groups), ReadBack(s.disk).numbers.lastSequence.value);
    e := OpenEditOf(files, number, last);
    t := Opened(s2, v, files, number, last);
    OpensTo(s2, v, groups, files, number, last);
    OpenIsNext(s2, t, v, groups, files, e);
    OpenedLast(s2, v, files, number, last);
    OpenedAtIs(s.disk, groups);
  }

  lemma {:induction false} UnusedOf(disk: Disk, v: Levels, groups: seq<seq<Entry>>, files: seq<File>, number: nat)
    requires ReadyToOpen(disk, v, groups, files, number)
    ensures IsUnused(disk, number)
  {
    hide ReadBack;
    hide IsUnused;
    hide TablesHold;
    hide LevelsSorted;
    hide NumbersBelow;
    hide AreRecovered;
    hide Tail;
    hide LevelMetas;
  }

  // ----- from any crashed state

  /** The entries recovery reads from the logs. */
  function LoggedTail(disk: Disk): seq<Entry>
    requires ReadBack(disk).numbers.logNumber.Some?
  {
    Tail(disk.logs, ReadBack(disk).numbers.logNumber.value)
  }

  lemma {:induction false} TailFacts(tail: seq<Entry>, db: Db, recorded: nat)
    requires Inv(db) && TailOk(tail, db, recorded)
    ensures IncreasingSeqnos(tail) && forall x :: x in tail ==> x.ikey.seqno <= MAX_SEQUENCE
  {
    TailBounded(tail, db);
    SeqnosBounded(db);
    hide Inv;
    hide IncreasingSeqnos;
  }

  /** What the invariant gives recovery. */
  lemma {:induction false} RecoveryFacts(s: Sys)
    requires StoreInv(s)
    ensures var m, v := ReadBack(s.disk), s.db.version;
            && m.numbers.nextFile.Some? && m.numbers.logNumber.Some? && m.numbers.lastSequence.Some?
            && LevelMetas(v) == m.levels && TablesHold(v, s.disk.tables) && |v| > 0 && LevelsSorted(v)
            && NumbersBelow(v, m.numbers.nextFile.value)
            && IncreasingSeqnos(LoggedTail(s.disk))
            && forall x :: x in LoggedTail(s.disk) ==> x.ikey.seqno <= MAX_SEQUENCE
  {
    hide *;
    StoreParts(s);
    InvParts(s);
    RecordBounds(s.disk, s.db);
    VersionParts(s.db.version, s.disk.tables);
    TailFacts(Tail(s.disk.logs, ReadBack(s.disk).numbers.logNumber.value), s.db,
        ReadBack(s.disk).numbers.lastSequence.value);
    TailIs(s.disk);
  }

  lemma {:induction false} TailIs(disk: Disk)
    requires ReadBack(disk).numbers.logNumber.Some?
    ensures LoggedTail(disk) == Tail(disk.logs, ReadBack(disk).numbers.logNumber.value)
  {
  }

  lemma {:induction false} UnusedLater(disk: Disk, disk2: Disk, number: nat, k: nat)
    requires IsUnused(disk, number) && disk2.edits == disk.edits && disk2.logs == disk.logs
    ensures IsUnused(disk2, number + k)
  {
    SameRead(disk, disk2);
    hide ReadBack;
  }

  lemma {:induction false} UnusedIsNew(disk: Disk, number: nat)
    requires IsUnused(disk, number)
    ensures ReadBack(disk).numbers.nextFile.Some? ==> ReadBack(disk).numbers.nextFile.value <= number
  {
    hide ReadBack;
  }

  lemma {:induction false} WritesRecovered(s: Sys, number: nat, entries: seq<Entry>) returns (t: Sys)
    requires !s.up && ReadBack(s.disk).numbers.nextFile.Some? && ReadBack(s.disk).numbers.nextFile.value <= number
    ensures NextSys(s, t, RecoverTable(number, entries)) && !t.up && ReadBack(t.disk) == ReadBack(s.disk)
    ensures t.disk == s.disk.(tables := s.disk.tables[number := entries]) && t.db == s.db
  {
    hide ReadBack;
    t := s.(disk := s.disk.(tables := s.disk.tables[number := entries]));
    SameRead(s.disk, t.disk);
  }

  predicate HasTable(tables: map<nat, seq<Entry>>, number: nat, group: seq<Entry>) {
    number in tables && tables[number] == TableOf(number, group).entries
  }

  /** The tables of the groups, under consecutive numbers. */
  predicate HasTables(tables: map<nat, seq<Entry>>, number: nat, groups: seq<seq<Entry>>) {
    forall i :: 0 <= i < |groups| ==> HasTable(tables, number + i, groups[i])
  }

  lemma {:induction false} NoTables(tables: map<nat, seq<Entry>>, number: nat)
    ensures HasTables(tables, number, [])
  {
  }

  lemma {:induction false} OneMoreTable(tables: map<nat, seq<Entry>>, number: nat, groups: seq<seq<Entry>>)
    requires groups != [] && HasTables(tables, number, groups[..|groups| - 1])
    ensures var n := |groups| - 1;
            HasTables(tables[number + n := TableOf(number + n, groups[n]).entries], number, groups)
  {
    hide TableOf;
    var front, n := groups[..|groups| - 1], |groups| - 1;
    var tables2 := tables[number + n := TableOf(number + n, groups[n]).entries];
    forall i | 0 <= i < |groups| ensures HasTable(tables2, number + i, groups[i]) {
      if i < n {
        assert front[i] == groups[i];
        assert HasTable(tables, number + i, front[i]);
      }
    }
  }

  lemma {:induction false} CutRecovered(disk: Disk, groups: seq<seq<Entry>>, tail: seq<Entry>, number: nat, from: nat)
    requires IsCut(groups, tail) && IncreasingSeqnos(tail) && forall x :: x in tail ==> x.ikey.seqno <= MAX_SEQUENCE
    requires HasTables(disk.tables, number, groups) && from <= number
    ensures AreRecovered(TablesOf(number, groups), groups, disk, from)
    ensures forall f :: f in TablesOf(number, groups) ==> f.number < number + |groups|
  {
    var files := TablesOf(number, groups);
    forall i | 0 <= i < |files|
      ensures ValidFile(files[i]) && Elems(files[i].entries) == Elems(groups[i]) && files[i].number == number + i
      ensures files[i].number in disk.tables && disk.tables[files[i].number] == files[i].entries
    {
      CutIsValid(groups, tail, number + i, i);
      NumberOf(number + i, groups[i]);
      assert HasTable(disk.tables, number + i, groups[i]);
    }
    hide ValidFile;
    hide IncreasingSeqnos;
    hide TableOf;
    hide IsCut;
  }

  lemma {:induction false} NumberOf(number: nat, group: seq<Entry>)
    ensures TableOf(number, group).number == number
  {
  }

  lemma {:induction false} CutReady(t: Sys, groups: seq<seq<Entry>>, number: nat)
    requires StoreInv(t) && IsUnused(t.disk, number) && IsUnused(t.disk, number + |groups|)
    requires ReadBack(t.disk).numbers.logNumber.Some? && IsCut(groups, LoggedTail(t.disk))
    requires HasTables(t.disk.tables, number, groups)
    ensures ReadyToOpen(t.disk, t.db.version, groups, TablesOf(number, groups), number + |groups|)
  {
    RecoveryFacts(t);
    UnusedIsNew(t.disk, number);
    CutRecovered(t.disk, groups, LoggedTail(t.disk), number, ReadBack(t.disk).numbers.nextFile.value);
    hide StoreInv;
    hide ReadBack;
    hide IsUnused;
    hide TablesHold;
    hide LevelsSorted;
    hide NumbersBelow;
    hide LevelMetas;
    hide Tail;
    hide Concat;
    hide AreRecovered;
    hide HasTables;
    hide TablesOf;
    hide IncreasingSeqnos;
  }

  /** One step after the other, none of them a write. */
  ghost predicate Steps(s: Sys, later: seq<Sys>, acts: seq<Act>) {
    && |later| == |acts|
    && (forall i :: 0 <= i < |acts| ==> !acts[i].Append? && NextSys(([s] + later)[i], later[i], acts[i]))
  }

  lemma {:induction false} NoSteps(s: Sys)
    ensures Steps(s, [], [])
  {
  }

  /** The state the steps lead to. */
  function Last(s: Sys, later: seq<Sys>): Sys {
    ([s] + later)[|later|]
  }

  lemma {:induction false} StepsThenStep(s: Sys, later: seq<Sys>, acts: seq<Act>, t: Sys, act: Act)
    requires Steps(s, later, acts) && NextSys(Last(s, later), t, act) && !act.Append?
    ensures Steps(s, later + [t], acts + [act]) && Last(s, later + [t]) == t
  {
    hide NextSys;
    var all, steps := later + [t], acts + [act];
    forall i | 0 <= i < |steps| ensures !steps[i].Append? && NextSys(([s] + all)[i], all[i], steps[i]) {
      assert ([s] + all)[i] == ([s] + later)[i];
      if i < |acts| {
        assert steps[i] == acts[i] && all[i] == later[i];
      }
    }
  }

  lemma {:induction false} StepThenSteps(s: Sys, a: Sys, later: seq<Sys>, x: Act, acts: seq<Act>)
    requires NextSys(s, a, x) && !x.Append? && Steps(a, later, acts)
    ensures Steps(s, [a] + later, [x] + acts)
  {
    hide NextSys;
    var all, steps := [a] + later, [x] + acts;
    forall i | 0 <= i < |steps| ensures !steps[i].Append? && NextSys(([s] + all)[i], all[i], steps[i]) {
      if i > 0 {
        assert steps[i] == acts[i - 1] && all[i] == later[i - 1] && ([s] + all)[i] == ([a] + later)[i - 1];
      }
    }
  }

  /** WriteLevel0Table for one memtable after the other. */
  lemma {:induction false} WritesTables(s: Sys, groups: seq<seq<Entry>>, number: nat) returns (acts: seq<Act>,
      later: seq<Sys>)
    requires StoreInv(s) && !s.up && IsUnused(s.disk, number)
    ensures Steps(s, later, acts)
    ensures var t := Last(s, later);
            && StoreInv(t) && !t.up && t.disk == s.disk.(tables := t.disk.tables)
            && ReadBack(t.disk) == ReadBack(s.disk)
            && HasTables(t.disk.tables, number, groups)
    decreases |groups|
  {
    hide *;
    if groups == [] {
      acts, later := [], [];
      NoSteps(s);
      NoTables(s.disk.tables, number);
      FirstIsLast(s);
    } else {
      var n := |groups| - 1;
      var table := TableOf(number + n, groups[n]).entries;
      acts, later := WritesTables(s, groups[..n], number);
      var before := Last(s, later);
      RecoveryFacts(before);
      UnusedLater(s.disk, before.disk, number, n);
      UnusedIsNew(before.disk, number + n);
      var t := WritesRecovered(before, number + n, table);
      NextSysKeeps(before, t, RecoverTable(number + n, table));
      StepsThenStep(s, later, acts, t, RecoverTable(number + n, table));
      OneMoreTable(before.disk.tables, number, groups);
      acts, later := acts + [RecoverTable(number + n, table)], later + [t];
    }
  }

  lemma {:induction false} FirstIsLast(s: Sys)
    ensures Last(s, []) == s
  {
  }

  lemma {:induction false} LastOf(s: Sys, later: seq<Sys>, t: Sys)
    ensures |later + [t]| > 0 && (later + [t])[|later + [t]| - 1] == t
  {
  }

  /** The recovered tables are the memtables filled from the groups. */
  predicate HoldsGroups(files: seq<File>, groups: seq<seq<Entry>>) {
    |files| == |groups| && forall i :: 0 <= i < |files| ==> files[i].entries == Durable.InsertAll([], groups[i])
  }

  lemma {:induction false} TablesHoldGroups(number: nat, groups: seq<seq<Entry>>)
    ensures HoldsGroups(TablesOf(number, groups), groups)
  {
  }

  /** Recovery of a crashed store: the tables of what the logs hold, however cut, the new log, the new manifest. */
  lemma {:induction false} Reopens(s: Sys, groups: seq<seq<Entry>>) returns (acts: seq<Act>, later: seq<Sys>)
    requires StoreInv(s) && !s.up
    requires ReadBack(s.disk).numbers.logNumber.Some? && IsCut(groups, LoggedTail(s.disk))
    ensures Steps(s, later, acts) && acts != [] && acts[|acts| - 1].Open? && acts[|acts| - 1].groups == groups
    ensures |later| == |acts| && later[|later| - 1].up && HoldsGroups(acts[|acts| - 1].files, groups)
    ensures ReadBack(s.disk).numbers.lastSequence.Some?
    ensures later[|later| - 1].db.lastSequence == OpenedAt(s.disk, groups)
  {
    hide *;
    var n := UnusedNumber(s.disk);
    acts, later := WritesTables(s, groups, n);
    var s1 := Last(s, later);
    UnusedLater(s.disk, s1.disk, n, 0);
    UnusedLater(s.disk, s1.disk, n, |groups|);
    SameTail(s.disk, s1.disk);
    CutReady(s1, groups, n);
    var files := TablesOf(n, groups);
    var s2, t, e := FinishOpen(s1, s1.db.version, groups, files, n + |groups|);
    var x, y := CreateLog(n + |groups|), Open(s1.db.version, groups, files, e);
    StepsThenStep(s, later, acts, s2, x);
    StepsThenStep(s, later + [s2], acts + [x], t, y);
    LastOf(s, later + [s2], t);
    acts, later := acts + [x] + [y], later + [s2] + [t];
    StepsParts(s, later, acts);
    TablesHoldGroups(n, groups);
    OpenedAtIs(s.disk, groups);
    OpenedAtIs(s1.disk, groups);
  }

  lemma {:induction false} SameTail(a: Disk, b: Disk)
    requires ReadBack(a).numbers.logNumber.Some? && ReadBack(b) == ReadBack(a) && b.logs == a.logs
    ensures LoggedTail(b) == LoggedTail(a)
  {
  }

  /** There is a way to cut: everything into one memtable. */
  lemma {:induction false} CutExists(tail: seq<Entry>) returns (groups: seq<seq<Entry>>)
    ensures IsCut(groups, tail)
  {
    groups := if tail == [] then [] else [tail];
    if tail != [] {
      assert [tail][..0] == [] && [] + tail == tail;
    }
  }

  // ----- from any reachable state

  lemma {:induction false} Joined(states: seq<Sys>, acts: seq<Act>, later: seq<Sys>, more: seq<Act>, i: nat)
    requires |states| == |acts| + 1 && |later| == |more| && i < |acts| + |more|
    ensures var all, steps, n := states + later, acts + more, |acts|;
            if i < n then all[i] == states[i] && all[i + 1] == states[i + 1] && steps[i] == acts[i]
            else all[i] == ([states[n]] + later)[i - n] && all[i + 1] == later[i - n] && steps[i] == more[i - n]
  {
  }

  lemma {:induction false} RunSteps(states: seq<Sys>, acts: seq<Act>, i: nat)
    requires IsSysRun(states, acts) && i < |acts|
    ensures NextSys(states[i], states[i + 1], acts[i])
  {
    hide NextSys;
  }

  lemma {:induction false} LaterSteps(s: Sys, later: seq<Sys>, acts: seq<Act>, i: nat)
    requires Steps(s, later, acts) && i < |acts|
    ensures NextSys(([s] + later)[i], later[i], acts[i])
  {
    hide NextSys;
  }

  lemma {:induction false} IsRunOf(states: seq<Sys>, acts: seq<Act>)
    requires |states| == |acts| + 1 && InitSys(states[0])
    requires forall i :: 0 <= i < |acts| ==> NextSys(states[i], states[i + 1], acts[i])
    ensures IsSysRun(states, acts)
  {
    hide NextSys;
    hide InitSys;
  }

  lemma {:induction false} RunStart(states: seq<Sys>, acts: seq<Act>)
    requires IsSysRun(states, acts)
    ensures |states| == |acts| + 1 && InitSys(states[0])
  {
    hide NextSys;
    hide InitSys;
  }

  lemma {:induction false} RunOn(states: seq<Sys>, acts: seq<Act>, later: seq<Sys>, more: seq<Act>)
    requires IsSysRun(states, acts) && Steps(states[|acts|], later, more)
    ensures IsSysRun(states + later, acts + more)
  {
    hide *;
    RunStart(states, acts);
    StepsParts(states[|acts|], later, more);
    var all, steps := states + later, acts + more;
    forall i | 0 <= i < |steps| ensures NextSys(all[i], all[i + 1], steps[i]) {
      Joined(states, acts, later, more, i);
      if i < |acts| {
        RunSteps(states, acts, i);
      } else {
        LaterSteps(states[|acts|], later, more, i - |acts|);
      }
    }
    IsRunOf(all, steps);
  }

  /** Steps that write nothing add nothing to what was logged. */
  lemma {:induction false} NothingLogged(states: seq<Sys>, acts: seq<Act>, later: seq<Sys>, more: seq<Act>)
    requires |states| == |acts| + 1 && |later| == |more| && forall i :: 0 <= i < |more| ==> !more[i].Append?
    ensures Logged(acts + more, states + later) == Logged(acts, states)
    decreases |more|
  {
    if more == [] {
      assert acts + more == acts && states + later == states;
    } else {
      var n := |more| - 1;
      NothingLogged(states, acts, later[..n], more[..n]);
      assert (acts + more)[..|acts| + n] == acts + more[..n];
      assert (states + later)[..|acts| + n + 1] == states + later[..n];
      assert (acts + more)[|acts| + n] == more[n];
    }
  }

  lemma {:induction false} StepsParts(s: Sys, later: seq<Sys>, acts: seq<Act>)
    requires Steps(s, later, acts)
    ensures |later| == |acts| && forall i :: 0 <= i < |acts| ==> !acts[i].Append?
  {
    hide NextSys;
  }

  lemma {:induction false} Crashes(s: Sys) returns (t: Sys)
    ensures NextSys(s, t, Crash) && !t.up && t.disk == s.disk && ReadBack(t.disk) == ReadBack(s.disk)
  {
    t := s.(up := false);
    hide ReadBack;
  }

  /** Reopening after a crash, in a run. */
  lemma {:induction false} RunReopens(states: seq<Sys>, acts: seq<Act>, groups: seq<seq<Entry>>)
    returns (later: seq<Sys>, more: seq<Act>)
    requires IsSysRun(states, acts) && ReadBack(states[|acts|].disk).numbers.logNumber.Some?
    requires IsCut(groups, LoggedTail(states[|acts|].disk))
    ensures |more| == |later| > 1 && more[0] == Crash && more[|more| - 1].Open? && more[|more| - 1].groups == groups
    ensures forall i :: 0 <= i < |more| ==> !more[i].Append?
    ensures HoldsGroups(more[|more| - 1].files, groups)
    ensures IsSysRun(states + later, acts + more) && later[|later| - 1].up && |states| == |acts| + 1
    ensures ReadBack(states[|acts|].disk).numbers.lastSequence.Some?
    ensures later[|later| - 1].db.lastSequence == OpenedAt(states[|acts|].disk, groups)
  {
    hide *;
    RunStart(states, acts);
    SysRunKeeps(states, acts);
    var s := states[|acts|];
    var crashed := Crashes(s);
    NextSysKeeps(s, crashed, Crash);
    SameTail(s.disk, crashed.disk);
    var rest, open := Reopens(crashed, groups);
    StepsParts(crashed, open, rest);
    later, more := [crashed] + open, [Crash] + rest;
    StepThenSteps(s, crashed, open, Crash, rest);
    RunOn(states, acts, later, more);
    StepsParts(s, later, more);
    OpenedAtIs(s.disk, groups);
    OpenedAtIs(crashed.disk, groups);
  }

  /**
   Crash recovery over whole runs: wherever the store crashes, during recovery included, the manifest reads back with
   its three counters, and opening the store again succeeds without any write, however recovery cuts what the logs hold
   into memtables. The store so opened is searchable and reads exactly the batches with complete log records.
   */
  lemma {:induction false} CrashRecovery(states: seq<Sys>, acts: seq<Act>, groups: seq<seq<Entry>>)
    returns (later: seq<Sys>, more: seq<Act>)
    requires IsSysRun(states, acts)
    requires ReadBack(states[|acts|].disk).numbers.logNumber.Some? ==> IsCut(groups, LoggedTail(states[|acts|].disk))
    ensures |more| == |later| > 1 && more[0] == Crash && more[|more| - 1].Open? && more[|more| - 1].groups == groups
    ensures HoldsGroups(more[|more| - 1].files, groups)
    ensures forall i :: 0 <= i < |more| ==> !more[i].Append?
    ensures IsSysRun(states + later, acts + more)
    ensures ReadBack(states[|acts|].disk).numbers.lastSequence.Some?
    ensures later[|later| - 1].db.lastSequence == OpenedAt(states[|acts|].disk, groups)
    ensures var t := later[|later| - 1];
            && t.up && t.db.mem == [] && t.held.None? && !t.installing && t.current == t.db.version && Ok(t.current)
            && (forall k, snap :: snap >= t.db.lastSequence ==>
                  Read(AllEntries(t.current), k, snap) == Read(Logged(acts, states), k, snap))
            && forall x :: x in Logged(acts, states) ==> x.ikey.seqno <= t.db.lastSequence
  {
    hide *;
    RecoveryFindsAll(states, acts);
    later, more := RunReopens(states, acts, groups);
    NothingLogged(states, acts, later, more);
    var all, steps := states + later, acts + more;
    assert all[|steps|] == later[|later| - 1] && steps[|steps| - 1] == more[|more| - 1];
    forall k, snap: nat | snap >= all[|steps|].db.lastSequence
      ensures Read(AllEntries(all[|steps|].current), k, snap) == Read(Logged(steps, all), k, snap)
    {
      OpenedReadsLogged(all, steps, k, snap);
    }
    OpenedReadsLogged(all, steps, 0, 0);
  }

  /** Wherever the store crashes there is a way to recover it, one memtable being enough. */
  lemma {:induction false} CrashIsRecoverable(states: seq<Sys>, acts: seq<Act>)
    returns (later: seq<Sys>, more: seq<Act>)
    requires IsSysRun(states, acts)
    ensures |more| == |later| > 1 && more[0] == Crash && forall i :: 0 <= i < |more| ==> !more[i].Append?
    ensures IsSysRun(states + later, acts + more)
    ensures var t := later[|later| - 1];
            && t.up && Ok(t.current)
            && forall k, snap :: snap >= t.db.lastSequence ==>
                 Read(AllEntries(t.current), k, snap) == Read(Logged(acts, states), k, snap)
  {
    hide *;
    RunStart(states, acts);
    RecoveryFindsAll(states, acts);
    var groups := CutExists(LoggedTail(states[|acts|].disk));
    later, more := CrashRecovery(states, acts, groups);
  }
}
