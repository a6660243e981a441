/**
 Every step of the store keeps the invariant, so every reachable state answers every live read from history.
 */
module EngineProof {
  import opened Entries
  import opened Files
  import opened Versions
  import opened Picking
  import opened Compactions
  import opened CompactionMeaning
  import opened Transitions
  import opened PickedInputs
  import opened Engine

  lemma {:induction false} InitInv(s: Db)
    requires Init(s)
    ensures Inv(s)
  {
    assert EntriesOf([]) == {};
    assert AllEntries(s.version) == {};
    assert Stored(s) == {};
  }

  // ----- insert

  /** Adding an entry newer than everything changes two sets' reads in the same way. */
  lemma {:induction false} AddNewest(a: set<Entry>, b: set<Entry>, e: Entry, k: UserKey, snap: nat)
    requires UniqueSeqnos(a + {e}) && UniqueSeqnos(b + {e})
    requires forall x :: x in a || x in b ==> x.ikey.seqno < e.ikey.seqno
    requires Read(a, k, snap) == Read(b, k, snap)
    ensures Read(a + {e}, k, snap) == Read(b + {e}, k, snap)
  {
    if Visible(e, k, snap) {
      NewestIs(a + {e}, k, snap, e);
      NewestIs(b + {e}, k, snap, e);
    } else {
      AddInvisible(a, e, k, snap);
      AddInvisible(b, e, k, snap);
    }
  }

  lemma {:induction false} AddInvisible(a: set<Entry>, e: Entry, k: UserKey, snap: nat)
    requires UniqueSeqnos(a + {e}) && !Visible(e, k, snap)
    ensures Read(a + {e}, k, snap) == Read(a, k, snap)
  {
    SameNewestSameRead(a, a + {e}, k, snap);
  }

  lemma {:induction false} InsertStored(s: Db, t: Db, e: Entry)
    requires InsertStep(s, t, e)
    ensures Stored(t) == Stored(s) + {e}
  {
  }

  lemma {:induction false} InsertKeepsDbOk(s: Db, t: Db, e: Entry)
    requires DbOk(s.mem, ImmEntries(s.imm), s.version) && HistoryOk(s) && InsertStep(s, t, e)
    ensures DbOk(t.mem, ImmEntries(t.imm), t.version) && HistoryOk(t)
  {
    var older := Elems(ImmEntries(s.imm)) + AllEntries(s.version);
    InsertStored(s, t, e);
    assert older <= Stored(s) <= s.history;
    assert NewerThan({e}, older);
    NewerThanUnion(Elems(s.mem), {e}, older);
    assert UniqueSeqnos(t.history);
  }

  lemma {:induction false} InsertKeepsReads(s: Db, t: Db, e: Entry)
    requires HistoryOk(s) && HistoryOk(t) && ReadsHistory(s) && InsertStep(s, t, e)
    ensures ReadsHistory(t)
  {
    InsertStored(s, t, e);
    forall k, snap | Live(t, snap) ensures Read(Stored(t), k, snap) == Read(t.history, k, snap) {
      assert Live(s, snap);
      AddNewest(Stored(s), s.history, e, k, snap);
    }
  }

  lemma {:induction false} InputsAreStored(c: Running, v: Levels)
    requires Ready(v, c.level, c.in0, c.in1)
    ensures InputEntries(c.in0, c.in1) <= AllEntries(v)
  {
    EntriesOfSubset(c.in0, v[c.level]);
    EntriesOfSubset(c.in1, v[c.level + 1]);
  }

  lemma {:induction false} DropsStaySafe(c: Running, stored: set<Entry>, stored2: set<Entry>)
    requires DropsAreSafe(c, stored)
    requires forall r, x :: r in stored2 && r !in stored && x in InputEntries(c.in0, c.in1) ==>
               r.ikey.seqno > x.ikey.seqno
    ensures DropsAreSafe(c, stored2)
  {
  }

  lemma {:induction false} InsertKeepsInv(s: Db, t: Db, e: Entry)
    requires Inv(s) && InsertStep(s, t, e)
    ensures Inv(t)
  {
    InsertStored(s, t, e);
    InsertKeepsDbOk(s, t, e);
    InsertKeepsReads(s, t, e);
    if s.running.Some? {
      InputsAreStored(s.running.value, s.version);
      DropsStaySafe(s.running.value, Stored(s), Stored(t));
    }
  }

  // ----- memtable switch and flush

  lemma {:induction false} SwitchKeepsInv(s: Db, t: Db)
    requires Inv(s) && SwitchStep(s, t)
    ensures Inv(t)
  {
    assert Stored(t) == Stored(s);
    NewerThanSubset(Elems(s.mem), Elems(ImmEntries(s.imm)) + AllEntries(s.version), Elems(s.mem),
        AllEntries(s.version));
  }

  /** The reserved number is the newest one of level 0 whenever the table is installed. */
  lemma {:induction false} FlushIsNewest(s: Db, t: Db, level: nat, f: File)
    requires NumbersOk(s) && FlushStep(s, t, level, f)
    ensures Flush(s.version, t.version, level, f)
  {
    hide FlushPlaced;
  }

  lemma {:induction false} FlushKeepsDbOk(s: Db, t: Db, level: nat, f: File)
    requires DbOk(s.mem, ImmEntries(s.imm), s.version) && FlushStep(s, t, level, f)
    requires Flush(s.version, t.version, level, f)
    ensures DbOk(t.mem, ImmEntries(t.imm), t.version) && Stored(t) == Stored(s)
  {
    hide Ok;
    hide Flush;
    hide FlushPlaced;
    assert Elems(f.entries) == Elems(ImmEntries(s.imm));
    assert AllEntries(s.version) + Elems(f.entries) <= Stored(s);
    FlushKeepsOk(s.version, t.version, level, f);
    assert Elems(ImmEntries(t.imm)) == {};
    assert Elems(ImmEntries(s.imm)) + AllEntries(s.version) == AllEntries(t.version);
  }

  lemma {:induction false} FlushKeepsRunning(s: Db, t: Db, level: nat, f: File)
    requires DbOk(s.mem, ImmEntries(s.imm), s.version) && FlushStep(s, t, level, f)
    requires Flush(s.version, t.version, level, f)
    requires s.running.Some? && InputsOk(s.running.value, s.version)
    ensures InputsOk(s.running.value, t.version)
  {
    var c := s.running.value;
    assert Elems(f.entries) == Elems(ImmEntries(s.imm));
    FlushKeepsReady(s.version, t.version, level, f, c.level, c.in0, c.in1);
    FlushKeepsClosed(s.version, t.version, level, f, c.level, c.in0);
  }

  lemma {:induction false} FlushNumbers(s: Db, t: Db, level: nat, f: File)
    requires NumbersOk(s) && FlushStep(s, t, level, f)
    ensures NumbersOk(t)
  {
    forall lv, g | 0 <= lv < |t.version| && g in t.version[lv] ensures g.number < t.nextFile {
      assert lv == level ==> g in Elems(t.version[level]);
      assert g in s.version[lv] || g == f;
    }
  }

  lemma {:induction false} FlushKeepsInv(s: Db, t: Db, level: nat, f: File)
    requires Inv(s) && FlushStep(s, t, level, f)
    ensures Inv(t)
  {
    hide DbOk;
    hide InputsOk;
    hide DropsAreSafe;
    hide Read;
    hide Flush;
    hide FlushPlaced;
    hide NumbersOk;
    FlushIsNewest(s, t, level, f);
    FlushKeepsDbOk(s, t, level, f);
    FlushNumbers(s, t, level, f);
    if s.running.Some? {
      FlushKeepsRunning(s, t, level, f);
    }
  }

  // ----- compaction

  /** A stored table entry outside the inputs: shallower or beside, hence newer; deeper is excluded at base level. */
  lemma {:induction false} OtherTableEntryIsNewer(v: Levels, level: nat, in0: seq<File>, in1: seq<File>, lv: nat,
          r: Entry, xl: nat, x: Entry)
    requires DeeperIsOlder(v) && lv < |v| && (xl == level || xl == level + 1) && level + 1 < |v|
    requires Closed(v, level, in0, in1)
    requires r in EntriesOf(v[lv]) && r !in InputEntries(in0, in1) && r.ikey.user == x.ikey.user
    requires x in EntriesOf(if xl == level then in0 else in1) && x in EntriesOf(v[xl])
    requires lv <= xl
    ensures r.ikey.seqno > x.ikey.seqno
  {
    if lv < xl {
      assert NewerThan(EntriesOf(v[lv]), EntriesOf(v[xl]));
    } else {
      var g :| g in v[lv] && r in g.entries;
      assert g !in (if xl == level then in0 else in1);
      assert r in RestOf(v[lv], if xl == level then in0 else in1);
    }
  }

  lemma {:induction false} BaseLevelHasNothing(v: Levels, level: nat, lv: nat, r: Entry)
    requires ValidLevels(v) && level + 2 <= lv < |v| && BaseLevelFor(v, level, r.ikey.user)
    ensures r !in EntriesOf(v[lv])
  {
    forall g | g in v[lv] ensures r !in g.entries {
      assert !Covers(g, r.ikey.user);
      if r in g.entries {
        FileBounds(g, r);
      }
    }
  }

  /** Level L+1 holds no key of the level-L inputs outside the level-L+1 inputs. */
  lemma {:induction false} OutputLevelIsFree(files0: seq<File>, files: seq<File>, in0: seq<File>, r: Entry, x: Entry)
    requires ValidFiles(files0) && ValidFiles(files) && in0 != [] && (forall f :: f in in0 ==> f in files0)
    requires x in EntriesOf(in0) && r in EntriesOf(files) && r !in EntriesOf(Meeting(files, in0))
    ensures r.ikey.user != x.ikey.user
  {
    var g :| g in files && r in g.entries;
    FileBounds(g, r);
    EntryInSpan(files0, in0, x);
    assert g !in Meeting(files, in0);
  }

  ghost predicate Chosen(c: Running) {
    && c.level + 1 < |c.inputVersion| == NUM_LEVELS
    && c.in0 != [] && (forall f :: f in c.in0 ==> f in c.inputVersion[c.level])
    && c.in1 == Meeting(c.inputVersion[c.level + 1], c.in0)
    && Closed(c.inputVersion, c.level, c.in0, c.in1)
  }

  lemma {:induction false} StartPairIsSafe(c: Running, lv: nat, r: Entry, xl: nat, x: Entry)
    requires ValidLevels(c.inputVersion) && DeeperIsOlder(c.inputVersion) && Chosen(c)
    requires lv < NUM_LEVELS && r in EntriesOf(c.inputVersion[lv]) && r !in InputEntries(c.in0, c.in1)
    requires (xl == c.level && x in EntriesOf(c.in0)) || (xl == c.level + 1 && x in EntriesOf(c.in1))
    requires x in EntriesOf(c.inputVersion[xl])
    requires r.ikey.user == x.ikey.user && BaseLevelFor(c.inputVersion, c.level, x.ikey.user)
    ensures r.ikey.seqno > x.ikey.seqno
  {
    if lv >= c.level + 2 {
      BaseLevelHasNothing(c.inputVersion, c.level, lv, r);
    }
    if lv == c.level + 1 && xl == c.level {
      OutputLevelIsFree(c.inputVersion[c.level], c.inputVersion[c.level + 1], c.in0, r, x);
    }
    OtherTableEntryIsNewer(c.inputVersion, c.level, c.in0, c.in1, lv, r, xl, x);
  }

  /** At the start of a compaction, dropping a base-level deletion can uncover nothing. */
  lemma {:induction false} StartIsSafe(c: Running, r: Entry, x: Entry)
    requires ValidLevels(c.inputVersion) && DeeperIsOlder(c.inputVersion) && Chosen(c)
    requires r in AllEntries(c.inputVersion) && r !in InputEntries(c.in0, c.in1) && x in InputEntries(c.in0, c.in1)
    requires r.ikey.user == x.ikey.user && BaseLevelFor(c.inputVersion, c.level, x.ikey.user)
    ensures r.ikey.seqno > x.ikey.seqno
  {
    var lv :| 0 <= lv < |c.inputVersion| && r in EntriesOf(c.inputVersion[lv]);
    EntriesOfSubset(c.in0, c.inputVersion[c.level]);
    EntriesOfSubset(c.in1, c.inputVersion[c.level + 1]);
    StartPairIsSafe(c, lv, r, if x in EntriesOf(c.in0) then c.level else c.level + 1, x);
  }

  lemma {:induction false} StartDropsAreSafe(memory: set<Entry>, c: Running)
    requires ValidLevels(c.inputVersion) && DeeperIsOlder(c.inputVersion) && Chosen(c)
    requires NewerThan(memory, AllEntries(c.inputVersion)) && InputEntries(c.in0, c.in1) <= AllEntries(c.inputVersion)
    ensures DropsAreSafe(c, memory + AllEntries(c.inputVersion))
  {
    forall r, x | r in memory + AllEntries(c.inputVersion) && r !in InputEntries(c.in0, c.in1)
                  && x in InputEntries(c.in0, c.in1)
                  && r.ikey.user == x.ikey.user && BaseLevelFor(c.inputVersion, c.level, x.ikey.user)
      ensures r.ikey.seqno > x.ikey.seqno
    {
      if r in AllEntries(c.inputVersion) {
        StartIsSafe(c, r, x);
      }
    }
  }

  lemma {:induction false} StartInputsOk(c: Running)
    requires Ok(c.inputVersion) && c.level + 1 < NUM_LEVELS
    requires WellPicked(c.inputVersion, c.level, c.in0, c.in1) && Closed(c.inputVersion, c.level, c.in0, c.in1)
    ensures InputsOk(c, c.inputVersion) && Chosen(c)
  {
    PickedIsReady(c.inputVersion, c.level, c.in0, c.in1);
  }

  lemma {:induction false} MemoryIsNewer(mem: seq<Entry>, imm: seq<Entry>, v: Levels)
    requires NewerThan(Elems(imm), AllEntries(v)) && NewerThan(Elems(mem), Elems(imm) + AllEntries(v))
    ensures NewerThan(Elems(mem) + Elems(imm), AllEntries(v))
  {
    NewerThanSubset(Elems(mem), Elems(imm) + AllEntries(v), Elems(mem), AllEntries(v));
    NewerThanUnion(Elems(mem), Elems(imm), AllEntries(v));
  }

  lemma {:induction false} StartKeepsRunning(s: Db, c: Running)
    requires DbOk(s.mem, ImmEntries(s.imm), s.version) && c.inputVersion == s.version && c.level + 1 < NUM_LEVELS
    requires WellPicked(s.version, c.level, c.in0, c.in1) && Closed(s.version, c.level, c.in0, c.in1)
    ensures InputsOk(c, s.version) && DropsAreSafe(c, Stored(s))
  {
    StartInputsOk(c);
    InputsAreStored(c, s.version);
    MemoryIsNewer(s.mem, ImmEntries(s.imm), s.version);
    StartDropsAreSafe(Elems(s.mem) + Elems(ImmEntries(s.imm)), c);
  }

  lemma {:induction false} StartRunningOk(s: Db, t: Db, level: nat, in0: seq<File>, in1: seq<File>)
    requires DbOk(s.mem, ImmEntries(s.imm), s.version) && SnapshotsOk(s) && StartStep(s, t, level, in0, in1)
    ensures RunningOk(t)
  {
    hide DbOk;
    hide InputsOk;
    hide DropsAreSafe;
    hide WellPicked;
    hide Closed;
    hide AllEntries;
    hide ImmEntries;
    StartKeepsRunning(s, t.running.value);
    assert Stored(t) == Stored(s);
  }

  lemma {:induction false} StartKeepsInv(s: Db, t: Db, level: nat, in0: seq<File>, in1: seq<File>)
    requires Inv(s) && StartStep(s, t, level, in0, in1)
    ensures Inv(t)
  {
    hide DbOk;
    hide ReadsHistory;
    hide RunningOk;
    hide WellPicked;
    hide Closed;
    StartRunningOk(s, t, level, in0, in1);
    SameStoreSameInv(s, t);
  }

  /** The invariant's parts other than the running compaction and the snapshots depend on the stored data only. */
  lemma {:induction false} SameStoreSameInv(s: Db, t: Db)
    requires Inv(s) && RunningOk(t) && SnapshotsOk(t)
    requires t == s.(running := t.running, snapshots := t.snapshots, lastSequence := t.lastSequence)
    requires t.lastSequence <= t.inserted && forall snap :: Live(t, snap) ==> Live(s, snap)
    ensures Inv(t)
  {
    assert Stored(t) == Stored(s);
  }

  lemma {:induction false} FinishKeepsReads(c: Running, stored: set<Entry>, history: set<Entry>, merged: seq<Entry>,
          k: UserKey, snap: nat)
    requires UniqueSeqnos(stored) && DropsAreSafe(c, stored) && InputEntries(c.in0, c.in1) <= stored
    requires SortedEntries(merged) && Elems(merged) == InputEntries(c.in0, c.in1) && c.smallestSnapshot <= snap
    requires Read(stored, k, snap) == Read(history, k, snap)
    ensures Read(stored - InputEntries(c.in0, c.in1)
                   + Elems(Kept(merged, |merged|, c.smallestSnapshot, c.inputVersion, c.level)), k, snap)
              == Read(history, k, snap)
  {
    hide Read;
    hide BaseLevelFor;
    hide Kept;
    var rest := stored - Elems(merged);
    var kept := Elems(Kept(merged, |merged|, c.smallestSnapshot, c.inputVersion, c.level));
    assert Elems(merged) + rest == stored;
    if BaseLevelFor(c.inputVersion, c.level, k) {
      forall r, x | r in rest && x in merged && r.ikey.user == k && x.ikey.user == k
        ensures r.ikey.seqno > x.ikey.seqno
      {
        assert x in Elems(merged);
      }
    }
    CompactionKeepsReads(merged, rest, c.smallestSnapshot, c.inputVersion, c.level, k, snap);
    assert kept + rest == rest + kept;
  }

  lemma {:induction false} NumbersAfterInstall(s: Db, t: Db, level: nat, in0: seq<File>, in1: seq<File>,
      outs: seq<File>)
    requires NumbersOk(s) && Install(s.version, t.version, level, in0, in1, outs)
    requires s.nextFile <= t.nextFile && t.reserved == s.reserved && forall f :: f in outs ==> f.number < t.nextFile
    ensures NumbersOk(t)
  {
    EditedEntries(s.version[level], t.version[level], in0, []);
    EditedEntries(s.version[level + 1], t.version[level + 1], in1, outs);
    forall lv, g | 0 <= lv < |t.version| && g in t.version[lv] ensures g.number < t.nextFile {
      assert g in s.version[lv] || g in outs;
    }
  }

  lemma {:induction false} DbOkShrinks(mem: seq<Entry>, imm: seq<Entry>, v: Levels, v2: Levels)
    requires DbOk(mem, imm, v) && Ok(v2) && AllEntries(v2) <= AllEntries(v)
    ensures DbOk(mem, imm, v2)
  {
    NewerThanSubset(Elems(imm), AllEntries(v), Elems(imm), AllEntries(v2));
    NewerThanSubset(Elems(mem), Elems(imm) + AllEntries(v), Elems(mem), Elems(imm) + AllEntries(v2));
    assert DbEntries(mem, imm, v2) <= DbEntries(mem, imm, v);
  }

  /** An installed compaction keeps the version searchable and replaces the inputs' entries by the outputs'. */
  lemma {:induction false} InstallKeepsDb(mem: seq<Entry>, imm: seq<Entry>, v: Levels, v2: Levels, level: nat,
          in0: seq<File>, in1: seq<File>, outs: seq<File>)
    requires DbOk(mem, imm, v) && Install(v, v2, level, in0, in1, outs)
    requires NewerThan(RestOf(v[level], in0), EntriesOf(in0))
    ensures DbOk(mem, imm, v2)
    ensures AllEntries(v2) == AllEntries(v) - InputEntries(in0, in1) + EntriesOf(outs)
    ensures InputEntries(in0, in1) <= AllEntries(v)
    ensures DbEntries(mem, imm, v2) == DbEntries(mem, imm, v) - InputEntries(in0, in1) + EntriesOf(outs)
  {
    InstallEntries(v, v2, level, in0, in1, outs);
    NewerOfOutputs(v, level, in0, in1, outs);
    InstallOkIff(v, v2, level, in0, in1, outs);
    DbOkShrinks(mem, imm, v, v2);
    NewerThanDisjoint(Elems(imm), AllEntries(v));
    NewerThanDisjoint(Elems(mem), Elems(imm) + AllEntries(v));
  }

  lemma {:induction false} NewerOfOutputs(v: Levels, level: nat, in0: seq<File>, in1: seq<File>, outs: seq<File>)
    requires Ready(v, level, in0, in1) && DeeperIsOlder(v) && EntriesOf(outs) <= InputEntries(in0, in1)
    requires NewerThan(RestOf(v[level], in0), EntriesOf(in0))
    ensures NewerThan(RestOf(v[level], in0), EntriesOf(outs))
  {
    var rest0 := RestOf(v[level], in0);
    EntriesOfSubset(in1, v[level + 1]);
    assert NewerThan(EntriesOf(v[level]), EntriesOf(v[level + 1]));
    NewerThanSubset(EntriesOf(v[level]), EntriesOf(v[level + 1]), rest0, EntriesOf(in1));
    NewerThanUnion(rest0, EntriesOf(in0), EntriesOf(in1));
    NewerThanSubset(rest0, InputEntries(in0, in1), rest0, EntriesOf(outs));
  }

  lemma {:induction false} FinishKeepsInv(s: Db, t: Db, merged: seq<Entry>, outs: seq<File>)
    requires Inv(s) && FinishStep(s, t, merged, outs)
    ensures Inv(t)
  {
    var c := s.running.value;
    InstallKeepsDb(s.mem, ImmEntries(s.imm), s.version, t.version, c.level, c.in0, c.in1, outs);
    NumbersAfterInstall(s, t, c.level, c.in0, c.in1, outs);
    forall k, snap | Live(t, snap) ensures Read(Stored(t), k, snap) == Read(t.history, k, snap) {
      assert Live(s, snap);
      FinishKeepsReads(c, Stored(s), s.history, merged, k, snap);
    }
  }

  lemma {:induction false} MoveInstalls(s: Db, t: Db, level: nat, f: File)
    requires MoveStep(s, t, level, f)
    ensures level + 1 < |s.version| && Install(s.version, t.version, level, [f], [], [f])
    ensures NewerThan(RestOf(s.version[level], [f]), EntriesOf([f])) && t == s.(version := t.version)
  {
    hide Install;
    hide WellPicked;
    hide NewerThan;
  }

  lemma {:induction false} MovedEntries(stored: set<Entry>, stored2: set<Entry>, f: File)
    requires EntriesOf([f]) <= stored && stored2 == stored - InputEntries([f], []) + EntriesOf([f])
    ensures stored2 == stored
  {
    assert EntriesOf([]) == {};
  }

  lemma {:induction false} InputsStored(mem: seq<Entry>, imm: seq<Entry>, v: Levels, f: File)
    requires InputEntries([f], []) <= AllEntries(v)
    ensures EntriesOf([f]) <= DbEntries(mem, imm, v)
  {
    hide AllEntries;
    hide EntriesOf;
  }

  lemma {:induction false} StoredIsDbEntries(s: Db)
    ensures Stored(s) == DbEntries(s.mem, ImmEntries(s.imm), s.version)
  {
  }

  lemma {:induction false} MoveKeepsDb(s: Db, t: Db, level: nat, f: File)
    requires DbOk(s.mem, ImmEntries(s.imm), s.version) && MoveStep(s, t, level, f)
    ensures DbOk(t.mem, ImmEntries(t.imm), t.version) && Stored(t) == Stored(s)
  {
    hide *;
    MoveInstalls(s, t, level, f);
    InstallKeepsDb(s.mem, ImmEntries(s.imm), s.version, t.version, level, [f], [], [f]);
    StoredIsDbEntries(s);
    StoredIsDbEntries(t);
    InputsStored(s.mem, ImmEntries(s.imm), s.version, f);
    MovedEntries(Stored(s), Stored(t), f);
  }

  lemma {:induction false} MoveNumbers(s: Db, t: Db, level: nat, f: File)
    requires NumbersOk(s) && MoveStep(s, t, level, f)
    ensures NumbersOk(t)
  {
    assert f in s.version[level] by { assert f in [f]; }
    hide WellPicked;
    NumbersAfterInstall(s, t, level, [f], [], [f]);
  }

  lemma {:induction false} MoveKeepsInv(s: Db, t: Db, level: nat, f: File)
    requires Inv(s) && MoveStep(s, t, level, f)
    ensures Inv(t)
  {
    hide DbOk;
    hide WellPicked;
    hide Install;
    hide Closed;
    hide Read;
    hide NumbersOk;
    MoveKeepsDb(s, t, level, f);
    MoveNumbers(s, t, level, f);
  }

  // ----- every run

  lemma {:induction false} SnapshotKeepsInv(s: Db, t: Db, step: Step)
    requires Inv(s) && Next(s, t, step)
    requires step.TakeSnapshot? || step.ReleaseSnapshot? || step.Publish? || step.ReserveTable?
        || step.DropEmptyMemtable?
    ensures Inv(t)
  {
    hide DbOk;
    hide InputsOk;
    hide DropsAreSafe;
    hide Read;
    hide BaseLevelFor;
    hide AllEntries;
    hide UniqueSeqnos;
    assert Stored(t) == Stored(s);
    assert forall snap :: Live(t, snap) ==> Live(s, snap);
  }

  lemma {:induction false} NextKeepsInv(s: Db, t: Db, step: Step)
    requires Inv(s) && Next(s, t, step)
    ensures Inv(t)
  {
    hide Inv;
    match step
    case Insert(e) => InsertKeepsInv(s, t, e);
    case SwitchMemtable => SwitchKeepsInv(s, t);
    case FlushMemtable(level, f) => FlushKeepsInv(s, t, level, f);
    case StartCompaction(level, in0, in1) => StartKeepsInv(s, t, level, in0, in1);
    case FinishCompaction(merged, outs) => FinishKeepsInv(s, t, merged, outs);
    case TrivialMove(level, f) => MoveKeepsInv(s, t, level, f);
    case _ => SnapshotKeepsInv(s, t, step);
  }

  ghost predicate IsRun(states: seq<Db>, steps: seq<Step>) {
    && |states| == |steps| + 1 && Init(states[0])
    && forall i :: 0 <= i < |steps| ==> Next(states[i], states[i + 1], steps[i])
  }

  lemma {:induction false} RunKeepsInv(states: seq<Db>, steps: seq<Step>)
    requires IsRun(states, steps)
    ensures Inv(states[|steps|])
    decreases |steps|
  {
    if steps == [] {
      InitInv(states[0]);
    } else {
      hide Inv;
      hide Next;
      var n := |steps| - 1;
      RunKeepsInv(states[..n + 1], steps[..n]);
      NextKeepsInv(states[n], states[n + 1], steps[n]);
    }
  }

  /**
   The store over whole runs: after any interleaving of writes, switches, flushes, compactions, moves and
   snapshot operations, DBImpl::Get may be called and a read at any live snapshot returns what the full history
   of writes says.
   */
  lemma {:induction false} ReachableReadsHistory(states: seq<Db>, steps: seq<Step>, k: UserKey, snap: nat)
    requires IsRun(states, steps)
    ensures var s := states[|steps|];
            && DbOk(s.mem, ImmEntries(s.imm), s.version)
            && (Live(s, snap) ==>
                  Read(DbEntries(s.mem, ImmEntries(s.imm), s.version), k, snap) == Read(s.history, k, snap))
  {
    RunKeepsInv(states, steps);
  }
}
