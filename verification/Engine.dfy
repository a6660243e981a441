/**
 Whole runs of the store: memtable inserts, publication of sequence numbers, memtable switches, flushes,
 compactions that run while flushes are installed, trivial moves, snapshots. In every reachable state the
 level-by-level lookup is applicable, and every live snapshot still reads the full history of writes.
 */
module Engine {
  import opened Entries
  import opened Files
  import opened Versions
  import opened Picking
  import opened Compactions
  import opened CompactionMeaning
  import opened Transitions
  import opened PickedInputs

  /** A compaction between the release of the mutex and the installation of its results. */
  datatype Running = Running(level: nat, in0: seq<File>, in1: seq<File>, inputVersion: Levels, smallestSnapshot: nat)

  /**
   `inserted` is the last sequence number in the memtable, `lastSequence` the last one published to readers;
   `reserved` is the file number WriteLevel0Table took before it released the mutex to write the table.
   */
  datatype Db = Db(
    mem: seq<Entry>, imm: Option<seq<Entry>>, version: Levels,
    inserted: nat, lastSequence: nat, snapshots: seq<nat>,
    running: Option<Running>, nextFile: nat, reserved: Option<nat>, history: set<Entry>)

  ghost function Stored(s: Db): set<Entry> {
    DbEntries(s.mem, ImmEntries(s.imm), s.version)
  }

  ghost predicate Init(s: Db) {
    && s.mem == [] && s.imm.None? && s.version == seq(NUM_LEVELS, _ => [])
    && s.inserted == 0 && s.lastSequence == 0 && s.snapshots == [] && s.running.None? && s.reserved.None?
    && s.history == {}
  }

  // ----- steps

  datatype Step =
    | Insert(e: Entry)
    | Publish
    | SwitchMemtable
    | ReserveTable
    | FlushMemtable(level: nat, f: File)
    | DropEmptyMemtable
    | StartCompaction(level: nat, in0: seq<File>, in1: seq<File>)
    | FinishCompaction(merged: seq<Entry>, outs: seq<File>)
    | TrivialMove(level: nat, f: File)
    | TakeSnapshot
    | ReleaseSnapshot(i: nat)

  /** MemTable::Add of one write of a group; the group's sequence numbers follow on. */
  ghost predicate InsertStep(s: Db, t: Db, e: Entry) {
    && e.ikey.seqno == s.inserted + 1 <= MAX_SEQUENCE - 1
    && SortedEntries(t.mem) && Elems(t.mem) == Elems(s.mem) + {e}
    && t == s.(mem := t.mem, inserted := s.inserted + 1, history := s.history + {e})
  }

  /** MakeRoomForWrite starts a new log, whose number comes from the same counter as the tables'. */
  ghost predicate SwitchStep(s: Db, t: Db) {
    s.imm.None? && s.nextFile <= t.nextFile && t == s.(mem := [], imm := Some(s.mem), nextFile := t.nextFile)
  }

  /** CompactMemTable: the memtable's table goes to the level PickLevelForMemTableOutput chose in the version. */
  ghost predicate FlushStep(s: Db, t: Db, level: nat, f: File) {
    && s.imm.Some? && f.entries == s.imm.value && s.reserved == Some(f.number)
    && FlushPlaced(s.version, t.version, level, f)
    && t == s.(imm := None, version := t.version, reserved := None)
  }

  ghost predicate ReserveStep(s: Db, t: Db) {
    s.imm.Some? && s.reserved.None? && t == s.(reserved := Some(s.nextFile), nextFile := s.nextFile + 1)
  }

  ghost predicate StartStep(s: Db, t: Db, level: nat, in0: seq<File>, in1: seq<File>) {
    && s.running.None? && level + 1 < |s.version| == NUM_LEVELS
    && WellPicked(s.version, level, in0, in1) && Closed(s.version, level, in0, in1)
    && t == s.(running := Some(Running(level, in0, in1, s.version, OldestLive(s))))
  }

  function OldestLive(s: Db): nat {
    if s.snapshots == [] then s.lastSequence else s.snapshots[0]
  }

  /** InstallCompactionResults: the outputs hold the surviving entries of the merged inputs. */
  ghost predicate FinishStep(s: Db, t: Db, merged: seq<Entry>, outs: seq<File>) {
    && s.running.Some?
    && var c := s.running.value;
       && SortedEntries(merged) && Elems(merged) == InputEntries(c.in0, c.in1)
       && EntriesOf(outs) == Elems(Kept(merged, |merged|, c.smallestSnapshot, c.inputVersion, c.level))
       && Install(s.version, t.version, c.level, c.in0, c.in1, outs)
       && s.nextFile <= t.nextFile && (forall f :: f in outs ==> f.number < t.nextFile)
       && t == s.(version := t.version, running := None, nextFile := t.nextFile)
  }

  ghost predicate MoveStep(s: Db, t: Db, level: nat, f: File) {
    && s.running.None? && level + 1 < |s.version| == NUM_LEVELS
    && WellPicked(s.version, level, [f], []) && Closed(s.version, level, [f], [])
    && Install(s.version, t.version, level, [f], [], [f])
    && t == s.(version := t.version)
  }

  ghost predicate Next(s: Db, t: Db, step: Step) {
    match step
    case Insert(e) => InsertStep(s, t, e)
    case Publish => t == s.(lastSequence := s.inserted)
    case SwitchMemtable => SwitchStep(s, t)
    case ReserveTable => ReserveStep(s, t)
    case FlushMemtable(level, f) => FlushStep(s, t, level, f)
    case DropEmptyMemtable => s.imm == Some([]) && s.reserved.Some? && t == s.(imm := None, reserved := None)
    case StartCompaction(level, in0, in1) => StartStep(s, t, level, in0, in1)
    case FinishCompaction(merged, outs) => FinishStep(s, t, merged, outs)
    case TrivialMove(level, f) => MoveStep(s, t, level, f)
    case TakeSnapshot => t == s.(snapshots := s.snapshots + [s.lastSequence])
    case ReleaseSnapshot(i) => i < |s.snapshots| && t == s.(snapshots := s.snapshots[..i] + s.snapshots[i + 1..])
  }

  // ----- the invariant

  /** A snapshot some reader can use: a held one, or one taken now or later. */
  predicate Live(s: Db, snap: nat) {
    snap in s.snapshots || snap >= s.lastSequence
  }

  ghost predicate ReadsHistory(s: Db) {
    forall k, snap :: Live(s, snap) ==> Read(Stored(s), k, snap) == Read(s.history, k, snap)
  }

  ghost predicate HistoryOk(s: Db) {
    && Stored(s) <= s.history && UniqueSeqnos(s.history)
    && (forall e :: e in s.history ==> e.ikey.seqno <= s.inserted)
    && s.lastSequence <= s.inserted < MAX_SEQUENCE
  }

  predicate SnapshotsOk(s: Db) {
    && (forall i, j :: 0 <= i < j < |s.snapshots| ==> s.snapshots[i] <= s.snapshots[j])
    && (forall i :: 0 <= i < |s.snapshots| ==> s.snapshots[i] <= s.lastSequence)
  }

  ghost predicate NumbersOk(s: Db) {
    && |s.version| == NUM_LEVELS
    && (forall lv, f :: 0 <= lv < |s.version| && f in s.version[lv] ==> f.number < s.nextFile)
    && (s.reserved.Some? ==> s.reserved.value < s.nextFile && NewestNumber(s.version[0], s.reserved.value))
  }

  /** Where nothing lies deeper, the stored entries outside the inputs are newer than the inputs. */
  ghost predicate DropsAreSafe(c: Running, stored: set<Entry>) {
    var inputs := InputEntries(c.in0, c.in1);
    forall r, x :: r in stored && r !in inputs && x in inputs && r.ikey.user == x.ikey.user
                   && BaseLevelFor(c.inputVersion, c.level, x.ikey.user)
      ==> r.ikey.seqno > x.ikey.seqno
  }

  /** The inputs of the running compaction are still in place, gapless, and older than the rest of their level. */
  ghost predicate InputsOk(c: Running, v: Levels) {
    && Ready(v, c.level, c.in0, c.in1) && c.in0 != []
    && Gapless(c.in0 + c.in1, MinUser(c.in0 + c.in1), MaxUser(c.in0 + c.in1))
    && NewerThan(RestOf(v[c.level], c.in0), EntriesOf(c.in0))
  }

  /** The compaction's smallest snapshot is below every live one. */
  predicate SmallestOk(c: Running, lastSequence: nat, snapshots: seq<nat>) {
    c.smallestSnapshot <= lastSequence && forall i :: 0 <= i < |snapshots| ==> c.smallestSnapshot <= snapshots[i]
  }

  ghost predicate RunningOk(s: Db) {
    s.running.Some? ==>
      && InputsOk(s.running.value, s.version)
      && DropsAreSafe(s.running.value, Stored(s))
      && SmallestOk(s.running.value, s.lastSequence, s.snapshots)
  }

  ghost predicate Inv(s: Db) {
    && DbOk(s.mem, ImmEntries(s.imm), s.version)
    && HistoryOk(s) && SnapshotsOk(s) && NumbersOk(s) && RunningOk(s) && ReadsHistory(s)
  }
}
