/**
 db_impl.cc DBImpl::Write and BuildBatchGroup: writers queue up, and the one at the front commits a group for the
 writers behind it.
 */
module GroupCommit {
  import opened Entries

  /** One put or delete of a batch. */
  datatype Op = Op(user: UserKey, kind: ValueType, value: Bytes)

  type Batch = seq<Op>

  /** A call of Write. A null batch only waits for the writes before it. */
  datatype Writer = Writer(batch: Option<Batch>, sync: bool, done: bool, asleep: bool)

  /** WriteBatchInternal::ByteSize. */
  type SizeOf = Batch -> nat

  const MAX_GROUP: nat := 0x10_0000
  const SMALL: nat := 0x2_0000

  function MaxSize(first: nat): nat {
    if first <= SMALL then first + SMALL else MAX_GROUP
  }

  function Ops(w: Writer): Batch {
    if w.batch.Some? then w.batch.value else []
  }

  function AllOps(ws: seq<Writer>): Batch {
    if ws == [] then [] else AllOps(ws[..|ws| - 1]) + Ops(ws[|ws| - 1])
  }

  function AllSizes(ws: seq<Writer>, sizeOf: SizeOf): nat {
    if ws == [] then 0
    else AllSizes(ws[..|ws| - 1], sizeOf) + (if ws[|ws| - 1].batch.Some? then sizeOf(ws[|ws| - 1].batch.value) else 0)
  }

  /** A sync writer may only join a group that is synced. */
  predicate SyncRule(ws: seq<Writer>) {
    forall i :: 0 <= i < |ws| ==> ws[i].sync ==> ws[0].sync
  }

  /** The group is within its size limit, the leader's own batch excepted. */
  predicate SizeRule(ws: seq<Writer>, sizeOf: SizeOf)
    requires ws != [] && ws[0].batch.Some?
  {
    |ws| == 1 || AllSizes(ws, sizeOf) <= MaxSize(sizeOf(ws[0].batch.value))
        || AllSizes(ws, sizeOf) == sizeOf(ws[0].batch.value)
  }

  /** What a group of the first n waiting writers must satisfy, and why it is not longer. */
  predicate IsGroup(ws: seq<Writer>, n: nat, sizeOf: SizeOf) {
    && 1 <= n <= |ws| && SyncRule(ws[..n])
    && (ws[0].batch.None? ==> n == 1)
    && (ws[0].batch.Some? ==>
          && SizeRule(ws[..n], sizeOf)
          && (n < |ws| ==>
                || (ws[n].sync && !ws[0].sync)
                || (ws[n].batch.Some? && AllSizes(ws[..n + 1], sizeOf) > MaxSize(sizeOf(ws[0].batch.value)))))
  }

  lemma {:induction false} OneMoreWriter(ws: seq<Writer>, n: nat, sizeOf: SizeOf)
    requires n < |ws|
    ensures AllOps(ws[..n + 1]) == AllOps(ws[..n]) + Ops(ws[n])
    ensures AllSizes(ws[..n + 1], sizeOf) ==
        AllSizes(ws[..n], sizeOf) + (if ws[n].batch.Some? then sizeOf(ws[n].batch.value) else 0)
  {
    assert ws[..n + 1][..n] == ws[..n];
  }

  /**
   A group is at most a megabyte, and behind a small batch only 128K bigger than that batch, so that it is not slowed
   down much; a batch bigger than that by itself goes with empty ones at most.
   */
  lemma {:induction false} GroupIsBounded(ws: seq<Writer>, n: nat, sizeOf: SizeOf)
    requires IsGroup(ws, n, sizeOf) && ws[0].batch.Some?
    ensures var first, all := sizeOf(ws[0].batch.value), AllSizes(ws[..n], sizeOf);
            && (all <= 1048576 || all == first)
            && (first <= 131072 ==> all <= first + 131072)
  {
    hide AllSizes;
    FirstWriter(ws, sizeOf);
    assert ws[..n][0] == ws[0];
  }

  /** DBImpl::BuildBatchGroup: `n` writers, up to the last one taken, and their operations in queue order. */
  method BuildBatchGroup(ws: seq<Writer>, sizeOf: SizeOf) returns (n: nat, group: Batch)
    requires ws != [] && ws[0].batch.Some?
    ensures IsGroup(ws, n, sizeOf) && group == AllOps(ws[..n])
  {
    FirstWriter(ws, sizeOf);
    hide AllOps;
    hide AllSizes;
    group := ws[0].batch.value;
    var size := sizeOf(ws[0].batch.value);
    var maxSize := MAX_GROUP;
    if size <= SMALL {
      maxSize := size + SMALL;
    }
    n := 1;
    while n < |ws|
      invariant 1 <= n <= |ws| && group == AllOps(ws[..n]) && size == AllSizes(ws[..n], sizeOf)
      invariant SyncRule(ws[..n]) && SizeRule(ws[..n], sizeOf)
    {
      OneMoreWriter(ws, n, sizeOf);
      var w := ws[n];
      if w.sync && !ws[0].sync {
        break;
      }
      if w.batch.Some? {
        size := size + sizeOf(w.batch.value);
        if size > maxSize {
          break;
        }
        group := group + w.batch.value;
      } else {
        assert group + [] == group;
      }
      SyncGrows(ws, n);
      n := n + 1;
    }
  }

  lemma {:induction false} FirstWriter(ws: seq<Writer>, sizeOf: SizeOf)
    requires ws != [] && ws[0].batch.Some?
    ensures AllOps(ws[..1]) == ws[0].batch.value && AllSizes(ws[..1], sizeOf) == sizeOf(ws[0].batch.value)
    ensures SyncRule(ws[..1])
  {
    OneMoreWriter(ws, 0, sizeOf);
    assert ws[..0] == [] && [] + ws[0].batch.value == ws[0].batch.value;
  }

  lemma {:induction false} SyncGrows(ws: seq<Writer>, n: nat)
    requires 1 <= n < |ws| && SyncRule(ws[..n]) && (ws[n].sync ==> ws[0].sync)
    ensures SyncRule(ws[..n + 1])
  {
    assert ws[..n + 1] == ws[..n] + [ws[n]];
    assert ws[..n][0] == ws[0];
  }

  // ----- the step system

  /** A log record: the first sequence number, the operations, whether the log was synced after it, and its writers. */
  datatype Record = Record(seqno: nat, ops: Batch, synced: bool, members: seq<Writer>)

  /** Where the leader is. While it logs and inserts, it does not hold the mutex. */
  datatype Stage = NoLeader | MakingRoom | Logging(n: nat) | Inserting(n: nat, inserted: nat)

  datatype System = System(
    queue: seq<nat>, writers: map<nat, Writer>, stage: Stage,
    log: seq<Record>, mem: seq<(nat, Op)>, lastSequence: nat,
    arrived: seq<nat>, committed: seq<nat>,  // history: writers in order of arrival, and those a group has answered
    work: seq<Batch>)                        // history: what each of the arrived writers brought

  function WritersOf(queue: seq<nat>, writers: map<nat, Writer>): (ws: seq<Writer>)
    requires forall id :: id in queue ==> id in writers
    ensures |ws| == |queue|
  {
    seq(|queue|, i requires 0 <= i < |queue| => writers[queue[i]])
  }

  datatype Event =
    | Arrive(id: nat, batch: Option<Batch>, sync: bool)
    | Lead
    | Build(n: nat)
    | SkipNull
    | AppendRecord
    | InsertOne
    | Finish
    | Return(id: nat)

  /** Push on the queue; a writer that is not first sleeps on its condition variable. */
  ghost predicate ArriveStep(s: System, t: System, id: nat, batch: Option<Batch>, sync: bool) {
    && id !in s.writers
    && t == s.(queue := s.queue + [id],
               writers := s.writers[id := Writer(batch, sync, false, s.queue != [])],
               arrived := s.arrived + [id],
               work := s.work + [if batch.Some? then batch.value else []])
  }

  ghost predicate QueueOk(s: System) {
    QueueSound(s.queue, s.writers)
  }

  predicate QueueSound(queue: seq<nat>, writers: map<nat, Writer>) {
    && (forall id :: id in queue ==> id in writers && !writers[id].done)
    && (forall i, j :: 0 <= i < j < |queue| ==> queue[i] != queue[j])
  }

  ghost function Queued(s: System): seq<Writer>
    requires QueueOk(s)
  {
    WritersOf(s.queue, s.writers)
  }

  /** The end of Write: pop and wake the group, then wake the new head. */
  function AfterGroup(s: System, n: nat): System
    requires QueueOk(s) && 1 <= n <= |s.queue|
  {
    var popped, rest := s.queue[..n], s.queue[n..];
    s.(queue := rest, stage := NoLeader, committed := s.committed + popped,
       writers := map id | id in s.writers ::
         if id in popped then s.writers[id].(done := true, asleep := false)
         else if rest != [] && id == rest[0] then s.writers[id].(asleep := false)
         else s.writers[id])
  }

  ghost predicate Steps(s: System, t: System, event: Event, sizeOf: SizeOf) {
    QueueOk(s) &&
    match event
    case Arrive(id, batch, sync) => ArriveStep(s, t, id, batch, sync)
    case Lead => s.stage.NoLeader? && s.queue != [] && !s.writers[s.queue[0]].asleep && t == s.(stage := MakingRoom)
    case Build(n) =>
      && s.stage.MakingRoom? && s.queue != [] && s.writers[s.queue[0]].batch.Some? && IsGroup(Queued(s), n, sizeOf)
      && t == s.(stage := Logging(n))
    case SkipNull =>
      && s.stage.MakingRoom? && s.queue != [] && s.writers[s.queue[0]].batch.None? && t == AfterGroup(s, 1)
    case AppendRecord =>
      && s.stage.Logging? && 1 <= s.stage.n <= |s.queue|
      && var members := Queued(s)[..s.stage.n];
         t == s.(log := s.log + [Record(s.lastSequence + 1, AllOps(members), members[0].sync, members)],
                 stage := Inserting(s.stage.n, 0))
    case InsertOne =>
      && s.stage.Inserting? && s.log != [] && s.stage.inserted < |s.log[|s.log| - 1].ops|
      && var r, i := s.log[|s.log| - 1], s.stage.inserted;
         t == s.(mem := s.mem + [(r.seqno + i, r.ops[i])], stage := Inserting(s.stage.n, i + 1))
    case Finish =>
      && s.stage.Inserting? && s.log != [] && s.stage.inserted == |s.log[|s.log| - 1].ops|
      && 1 <= s.stage.n <= |s.queue|
      && t == AfterGroup(s, s.stage.n).(lastSequence := s.lastSequence + |s.log[|s.log| - 1].ops|)
    case Return(id) =>
      && id in s.writers && s.writers[id].done && !s.writers[id].asleep && t == s.(writers := s.writers - {id})
  }

  // ----- the invariant

  function LogOps(log: seq<Record>): Batch {
    if log == [] then [] else LogOps(log[..|log| - 1]) + log[|log| - 1].ops
  }

  function LogMembers(log: seq<Record>): seq<Writer> {
    if log == [] then [] else LogMembers(log[..|log| - 1]) + log[|log| - 1].members
  }

  /** Each record takes up the sequence numbers after the ones before it; sync writers are in synced records only. */
  predicate RecordsOk(log: seq<Record>) {
    && (forall i :: 0 <= i < |log| ==> log[i].seqno == |LogOps(log[..i])| + 1)
    && (forall i :: 0 <= i < |log| ==> log[i].ops == AllOps(log[i].members))
    && (forall i, j :: 0 <= i < |log| && 0 <= j < |log[i].members| ==> log[i].members[j].sync ==> log[i].synced)
  }

  /** The operations numbered from 1 on. */
  function NumberedOps(ops: Batch): (r: seq<(nat, Op)>)
    ensures |r| == |ops|
  {
    seq(|ops|, i requires 0 <= i < |ops| => (i + 1, ops[i]))
  }

  /** The records a reader sees: all of them, or all but the one being inserted. */
  function Published(stage: Stage, log: seq<Record>): seq<Record> {
    if stage.Inserting? && log != [] then log[..|log| - 1] else log
  }

  function InsertedNow(stage: Stage): nat {
    if stage.Inserting? then stage.inserted else 0
  }

  /** The memtable holds the published records, and of the group being inserted a first part, all above LastSequence. */
  ghost predicate MemOk(stage: Stage, log: seq<Record>, mem: seq<(nat, Op)>, lastSequence: nat) {
    && lastSequence == |LogOps(Published(stage, log))|
    && |LogOps(log)| >= lastSequence + InsertedNow(stage)
    && mem == NumberedOps(LogOps(log)[..lastSequence + InsertedNow(stage)])
  }

  /** The group being committed is still at the front of the queue, with its record in the log. */
  ghost predicate StageOk(stage: Stage, log: seq<Record>, ws: seq<Writer>, sizeOf: SizeOf) {
    match stage
    case NoLeader => true
    case MakingRoom => ws != []
    case Logging(n) => 1 <= n <= |ws| && IsGroup(ws[..n], n, sizeOf)
    case Inserting(n, inserted) =>
      && 1 <= n <= |ws| && log != [] && inserted <= |log[|log| - 1].ops|
      && SameWork(log[|log| - 1].members, ws[..n])
  }

  /** The same batches and sync flags; whether the writers sleep may differ. */
  predicate SameWork(a: seq<Writer>, b: seq<Writer>) {
    |a| == |b| && forall i :: 0 <= i < |a| ==> a[i].batch == b[i].batch && a[i].sync == b[i].sync
  }

  /** A writer that has been answered is awake, and with no leader at work the head of the queue is awake. */
  predicate NobodyForgotten(stage: Stage, queue: seq<nat>, writers: map<nat, Writer>) {
    && (forall id :: id in writers && writers[id].done ==> !writers[id].asleep)
    && (stage.NoLeader? && queue != [] && queue[0] in writers ==> !writers[queue[0]].asleep)
  }

  function Joined(work: seq<Batch>): Batch {
    if work == [] then [] else Joined(work[..|work| - 1]) + work[|work| - 1]
  }

  /** The published records hold exactly the batches of the writers answered so far; the queue holds the others. */
  ghost predicate WorkOk(stage: Stage, log: seq<Record>, ws: seq<Writer>, work: seq<Batch>, answered: nat) {
    && answered + |ws| == |work|
    && (forall i :: 0 <= i < |ws| ==> Ops(ws[i]) == work[answered + i])
    && LogOps(Published(stage, log)) == Joined(work[..answered])
  }

  ghost predicate SystemOk(s: System, sizeOf: SizeOf) {
    && WorkDone(s)
    && QueueOk(s) && RecordsOk(s.log) && MemOk(s.stage, s.log, s.mem, s.lastSequence)
    && s.arrived == s.committed + s.queue   // first come, first served
    && StageOk(s.stage, s.log, Queued(s), sizeOf) && NobodyForgotten(s.stage, s.queue, s.writers)
  }

  ghost predicate WorkDone(s: System) {
    QueueOk(s) && WorkOk(s.stage, s.log, Queued(s), s.work, |s.committed|)
  }

  // ----- every step keeps it

  lemma {:induction false} ArriveKeepsQueue(s: System, t: System, id: nat, batch: Option<Batch>, sync: bool)
    requires QueueOk(s) && NobodyForgotten(s.stage, s.queue, s.writers) && ArriveStep(s, t, id, batch, sync)
    ensures QueueOk(t) && NobodyForgotten(t.stage, t.queue, t.writers) && Queued(s) <= Queued(t)
  {
  }

  lemma {:induction false} StageWithMore(stage: Stage, log: seq<Record>, ws: seq<Writer>, ws2: seq<Writer>,
      sizeOf: SizeOf)
    requires StageOk(stage, log, ws, sizeOf) && ws <= ws2
    ensures StageOk(stage, log, ws2, sizeOf)
  {
    var n := match stage case Logging(n) => n case Inserting(n, _) => n case _ => 0;
    if n <= |ws| {
      assert ws2[..n] == ws[..n];
    }
    hide IsGroup;
    hide SameWork;
  }

  lemma {:induction false} ArriveKeeps(s: System, t: System, id: nat, batch: Option<Batch>, sync: bool, sizeOf: SizeOf)
    requires SystemOk(s, sizeOf) && ArriveStep(s, t, id, batch, sync)
    ensures SystemOk(t, sizeOf)
  {
    hide MemOk;
    hide RecordsOk;
    hide StageOk;
    hide QueueSound;
    hide NobodyForgotten;
    hide WritersOf;
    ArriveKeepsQueue(s, t, id, batch, sync);
    StageWithMore(s.stage, s.log, Queued(s), Queued(t), sizeOf);
    assert s.arrived + [id] == s.committed + (s.queue + [id]);
    ArriveKeepsWork(s, t, id, batch, sync);
    hide WorkDone;
  }

  lemma {:induction false} ArriveKeepsWork(s: System, t: System, id: nat, batch: Option<Batch>, sync: bool)
    requires WorkDone(s) && QueueOk(t) && ArriveStep(s, t, id, batch, sync)
    ensures WorkDone(t)
  {
    var w := Writer(batch, sync, false, s.queue != []);
    assert Queued(t) == Queued(s) + [w] && t.work == s.work + [Ops(w)];
    hide QueueSound;
    hide WritersOf;
    assert t.work[..|s.committed|] == s.work[..|s.committed|];
    hide LogOps;
    hide Joined;
  }

  /** Steps that publish nothing and leave the queue's writers as they are. */
  lemma {:induction false} SameWorkDone(s: System, t: System)
    requires WorkDone(s) && QueueOk(t) && Queued(t) == Queued(s) && t.work == s.work && |t.committed| == |s.committed|
    requires Published(t.stage, t.log) == Published(s.stage, s.log)
    ensures WorkDone(t)
  {
    hide LogOps;
    hide Joined;
    hide QueueSound;
    hide WritersOf;
    hide Published;
  }

  lemma {:induction false} GroupOfPrefix(ws: seq<Writer>, n: nat, sizeOf: SizeOf)
    requires IsGroup(ws, n, sizeOf)
    ensures 1 <= n <= |ws| && IsGroup(ws[..n], n, sizeOf)
  {
    assert ws[..n][..n] == ws[..n];
  }

  lemma {:induction false} MemBeforeRecord(a: Stage, b: Stage, log: seq<Record>, mem: seq<(nat, Op)>, lastSequence: nat)
    requires MemOk(a, log, mem, lastSequence) && !a.Inserting? && !b.Inserting?
    ensures MemOk(b, log, mem, lastSequence)
  {
  }

  lemma {:induction false} BuildKeeps(s: System, t: System, n: nat, sizeOf: SizeOf)
    requires SystemOk(s, sizeOf) && Steps(s, t, Build(n), sizeOf)
    ensures SystemOk(t, sizeOf)
  {
    hide IsGroup;
    hide RecordsOk;
    hide MemOk;
    hide QueueSound;
    hide WritersOf;
    hide WorkDone;
    GroupOfPrefix(Queued(s), n, sizeOf);
    SameWorkDone(s, t);
    MemBeforeRecord(s.stage, t.stage, s.log, s.mem, s.lastSequence);
  }

  lemma {:induction false} LeadKeeps(s: System, t: System, sizeOf: SizeOf)
    requires SystemOk(s, sizeOf) && Steps(s, t, Lead, sizeOf)
    ensures SystemOk(t, sizeOf)
  {
    hide RecordsOk;
    hide MemOk;
    hide QueueSound;
    hide WritersOf;
    hide WorkDone;
    SameWorkDone(s, t);
    MemBeforeRecord(s.stage, t.stage, s.log, s.mem, s.lastSequence);
  }

  lemma {:induction false} LogOpsSnoc(log: seq<Record>, r: Record)
    ensures LogOps(log + [r]) == LogOps(log) + r.ops && LogMembers(log + [r]) == LogMembers(log) + r.members
  {
    assert (log + [r])[..|log|] == log;
  }

  lemma {:induction false} RecordsGrow(log: seq<Record>, r: Record)
    requires RecordsOk(log) && r.seqno == |LogOps(log)| + 1 && r.ops == AllOps(r.members)
    requires forall j :: 0 <= j < |r.members| ==> r.members[j].sync ==> r.synced
    ensures RecordsOk(log + [r])
  {
    var log2 := log + [r];
    forall i | 0 <= i < |log2| ensures log2[i].seqno == |LogOps(log2[..i])| + 1 {
      assert log2[..i] == log[..i];
      assert i == |log| ==> log[..i] == log;
    }
  }

  lemma {:induction false} MemAfterAppend(log: seq<Record>, r: Record, mem: seq<(nat, Op)>, lastSequence: nat, n: nat)
    requires MemOk(Logging(n), log, mem, lastSequence)
    ensures MemOk(Inserting(n, 0), log + [r], mem, lastSequence) && lastSequence == |LogOps(log)|
  {
    LogOpsSnoc(log, r);
    assert (log + [r])[..|log|] == log;
    assert LogOps(log + [r])[..lastSequence] == LogOps(log)[..lastSequence];
    hide LogOps;
  }

  /** The record of a group. */
  function GroupRecord(seqno: nat, members: seq<Writer>): Record
    requires members != []
  {
    Record(seqno, AllOps(members), members[0].sync, members)
  }

  lemma {:induction false} GroupIsSynced(members: seq<Writer>, n: nat, sizeOf: SizeOf)
    requires n == |members| && IsGroup(members, n, sizeOf)
    ensures forall j :: 0 <= j < |members| ==> members[j].sync ==> members[0].sync
  {
    assert members[..n] == members;
  }

  lemma {:induction false} AppendKeepsStage(s: System, t: System, sizeOf: SizeOf)
    requires QueueOk(s) && StageOk(s.stage, s.log, Queued(s), sizeOf) && Steps(s, t, AppendRecord, sizeOf)
    ensures s.stage.Logging? && 1 <= s.stage.n <= |Queued(s)|
    ensures QueueOk(t) && StageOk(t.stage, t.log, Queued(t), sizeOf)
    ensures t.log == s.log + [GroupRecord(s.lastSequence + 1, Queued(s)[..s.stage.n])]
    ensures t.stage == Inserting(s.stage.n, 0)
  {
    hide QueueSound;
    hide WritersOf;
    hide AllOps;
    hide IsGroup;
  }

  lemma {:induction false} AppendKeeps(s: System, t: System, sizeOf: SizeOf)
    requires SystemOk(s, sizeOf) && Steps(s, t, AppendRecord, sizeOf)
    ensures SystemOk(t, sizeOf)
  {
    hide WorkDone;
    AppendKeepsStage(s, t, sizeOf);
    hide RecordsOk;
    hide MemOk;
    hide AllOps;
    hide LogOps;
    hide QueueSound;
    hide WritersOf;
    hide IsGroup;
    var n := s.stage.n;
    var members := Queued(s)[..n];
    GroupIsSynced(members, n, sizeOf);
    var r := GroupRecord(s.lastSequence + 1, members);
    MemAfterAppend(s.log, r, s.mem, s.lastSequence, n);
    RecordsGrow(s.log, r);
    assert t.log[..|t.log| - 1] == s.log;
    SameWorkDone(s, t);
    hide StageOk;
    hide SameWork;
  }

  lemma {:induction false} NumberedSnoc(ops: Batch, k: nat)
    requires k < |ops|
    ensures NumberedOps(ops[..k + 1]) == NumberedOps(ops[..k]) + [(k + 1, ops[k])]
  {
    assert ops[..k + 1] == ops[..k] + [ops[k]];
  }

  /** MemOk while a group is being inserted, spelled out. */
  ghost predicate Partly(mem: seq<(nat, Op)>, ops: Batch, k: nat) {
    k <= |ops| && mem == NumberedOps(ops[..k])
  }

  lemma {:induction false} PartlyGrows(mem: seq<(nat, Op)>, ops: Batch, k: nat)
    requires Partly(mem, ops, k) && k < |ops|
    ensures Partly(mem + [(k + 1, ops[k])], ops, k + 1)
  {
    NumberedSnoc(ops, k);
  }

  lemma {:induction false} MemIsPartly(n: nat, i: nat, log: seq<Record>, mem: seq<(nat, Op)>, lastSequence: nat)
    requires log != []
    ensures MemOk(Inserting(n, i), log, mem, lastSequence) <==>
              lastSequence == |LogOps(log[..|log| - 1])| && Partly(mem, LogOps(log), lastSequence + i)
  {
    hide LogOps;
    hide NumberedOps;
  }

  lemma {:induction false} MemAfterInsert(log: seq<Record>, mem: seq<(nat, Op)>, lastSequence: nat, n: nat, i: nat)
    requires log != [] && RecordsOk(log) && MemOk(Inserting(n, i), log, mem, lastSequence) && i < |log[|log| - 1].ops|
    ensures var r := log[|log| - 1];
            MemOk(Inserting(n, i + 1), log, mem + [(r.seqno + i, r.ops[i])], lastSequence)
  {
    hide RecordsOk;
    hide LogOps;
    hide Partly;
    hide MemOk;
    var r := log[|log| - 1];
    MemIsPartly(n, i, log, mem, lastSequence);
    LastRecordAt(log, lastSequence, i);
    PartlyGrows(mem, LogOps(log), lastSequence + i);
    MemIsPartly(n, i + 1, log, mem + [(r.seqno + i, r.ops[i])], lastSequence);
  }

  lemma {:induction false} LastRecordAt(log: seq<Record>, lastSequence: nat, i: nat)
    requires log != [] && RecordsOk(log) && lastSequence == |LogOps(log[..|log| - 1])| && i < |log[|log| - 1].ops|
    ensures var r := log[|log| - 1];
            lastSequence + i < |LogOps(log)| && LogOps(log)[lastSequence + i] == r.ops[i] && r.seqno == lastSequence + 1
  {
    LastRecord(log);
  }

  lemma {:induction false} LastRecord(log: seq<Record>)
    requires log != [] && RecordsOk(log)
    ensures var front, r := log[..|log| - 1], log[|log| - 1];
            LogOps(log) == LogOps(front) + r.ops && r.seqno == |LogOps(front)| + 1
  {
    assert log == log[..|log| - 1] + [log[|log| - 1]];
    LogOpsSnoc(log[..|log| - 1], log[|log| - 1]);
  }

  lemma {:induction false} InsertKeeps(s: System, t: System, sizeOf: SizeOf)
    requires SystemOk(s, sizeOf) && Steps(s, t, InsertOne, sizeOf)
    ensures SystemOk(t, sizeOf)
  {
    hide RecordsOk;
    hide MemOk;
    hide QueueSound;
    hide WritersOf;
    hide SameWork;
    hide WorkDone;
    SameWorkDone(s, t);
    MemAfterInsert(s.log, s.mem, s.lastSequence, s.stage.n, s.stage.inserted);
  }

  // ----- the end of a group

  lemma {:induction false} AfterGroupQueue(s: System, n: nat)
    requires QueueOk(s) && 1 <= n <= |s.queue| && NobodyForgotten(s.stage, s.queue, s.writers)
    requires s.arrived == s.committed + s.queue
    ensures var t := AfterGroup(s, n);
            && QueueOk(t) && NobodyForgotten(t.stage, t.queue, t.writers) && t.arrived == t.committed + t.queue
            && t.stage.NoLeader? && t.log == s.log && t.mem == s.mem
  {
    var t := AfterGroup(s, n);
    assert s.committed + s.queue == (s.committed + s.queue[..n]) + s.queue[n..];
    forall id | id in t.queue ensures id in s.queue && id !in s.queue[..n] {
      var i :| 0 <= i < |s.queue| - n && s.queue[n..][i] == id;
      assert s.queue[n + i] == id;
    }
  }

  lemma {:induction false} MemAfterGroup(log: seq<Record>, mem: seq<(nat, Op)>, lastSequence: nat, n: nat)
    requires log != [] && MemOk(Inserting(n, |log[|log| - 1].ops|), log, mem, lastSequence)
    ensures MemOk(NoLeader, log, mem, lastSequence + |log[|log| - 1].ops|)
  {
    assert log == log[..|log| - 1] + [log[|log| - 1]];
    LogOpsSnoc(log[..|log| - 1], log[|log| - 1]);
    hide LogOps;
  }

  lemma {:induction false} FinishKeeps(s: System, t: System, sizeOf: SizeOf)
    requires SystemOk(s, sizeOf) && Steps(s, t, Finish, sizeOf)
    ensures SystemOk(t, sizeOf)
  {
    hide RecordsOk;
    hide MemOk;
    hide QueueSound;
    hide WritersOf;
    hide SameWork;
    hide AfterGroup;
    hide NobodyForgotten;
    hide WorkDone;
    AfterGroupQueue(s, s.stage.n);
    MemAfterGroup(s.log, s.mem, s.lastSequence, s.stage.n);
    FinishKeepsWork(s, t, sizeOf);
  }

  lemma {:induction false} SameWorkSameOps(a: seq<Writer>, b: seq<Writer>)
    requires SameWork(a, b)
    ensures AllOps(a) == AllOps(b)
  {
    if a != [] {
      SameWorkSameOps(a[..|a| - 1], b[..|b| - 1]);
    }
  }

  lemma {:induction false} JoinedNext(work: seq<Batch>, n: nat)
    requires n < |work|
    ensures Joined(work[..n + 1]) == Joined(work[..n]) + work[n]
  {
    assert work[..n + 1][..n] == work[..n];
  }

  lemma {:induction false} OpsNext(ws: seq<Writer>, n: nat)
    requires n < |ws|
    ensures AllOps(ws[..n + 1]) == AllOps(ws[..n]) + Ops(ws[n]) && AllOps([]) == []
  {
    assert ws[..n + 1][..n] == ws[..n];
  }

  /** The operations of the first n waiting writers are their part of the work. */
  lemma {:induction false} GroupWork(ws: seq<Writer>, n: nat, work: seq<Batch>, answered: nat)
    requires n <= |ws| && answered + |ws| == |work| && forall i :: 0 <= i < |ws| ==> Ops(ws[i]) == work[answered + i]
    ensures Joined(work[..answered + n]) == Joined(work[..answered]) + AllOps(ws[..n])
  {
    hide Joined, Ops;
    if n == 0 {
      assert Joined(work[..answered]) + [] == Joined(work[..answered]);
    } else {
      hide AllOps;
      GroupWork(ws, n - 1, work, answered);
      JoinedNext(work, answered + n - 1);
      OpsNext(ws, n - 1);
      Regroup(Joined(work[..answered]), AllOps(ws[..n - 1]), Ops(ws[n - 1]));
    }
  }

  lemma {:induction false} Regroup(a: Batch, b: Batch, c: Batch)
    ensures a + (b + c) == a + b + c
  {
  }

  /** Waking writers and marking them answered leaves the rest of the queue's work. */
  lemma {:induction false} AfterGroupWork(s: System, n: nat)
    requires QueueOk(s) && 1 <= n <= |s.queue| && QueueOk(AfterGroup(s, n))
    ensures SameWork(Queued(AfterGroup(s, n)), Queued(s)[n..]) && |AfterGroup(s, n).committed| == |s.committed| + n
  {
    var t := AfterGroup(s, n);
    forall i | 0 <= i < |t.queue| ensures t.queue[i] == s.queue[n + i] && t.queue[i] in s.writers {
      assert s.queue[n + i] in s.queue;
    }
  }

  lemma {:induction false} RestOfWork(a: Stage, log: seq<Record>, ws: seq<Writer>, work: seq<Batch>, answered: nat,
          n: nat, b: Stage, rest: seq<Writer>, added: Batch)
    requires WorkOk(a, log, ws, work, answered) && n <= |ws| && SameWork(rest, ws[n..])
    requires LogOps(Published(b, log)) == LogOps(Published(a, log)) + added && added == AllOps(ws[..n])
    ensures WorkOk(b, log, rest, work, answered + n)
  {
    GroupWork(ws, n, work, answered);
    hide LogOps;
    hide Joined;
    hide AllOps;
    hide Published;
    forall i | 0 <= i < |rest| ensures Ops(rest[i]) == work[answered + n + i] {
      assert Ops(rest[i]) == Ops(ws[n + i]);
    }
  }

  lemma {:induction false} LastRecordWork(stage: Stage, log: seq<Record>, ws: seq<Writer>, sizeOf: SizeOf)
    requires RecordsOk(log) && stage.Inserting? && StageOk(stage, log, ws, sizeOf)
    ensures log != [] && stage.n <= |ws| && log[|log| - 1].ops == AllOps(ws[..stage.n])
  {
    SameWorkSameOps(log[|log| - 1].members, ws[..stage.n]);
  }

  lemma {:induction false} PublishedSplit(stage: Stage, log: seq<Record>)
    requires log != [] && stage.Inserting?
    ensures LogOps(log) == LogOps(Published(stage, log)) + log[|log| - 1].ops
  {
  }

  lemma {:induction false} FinishKeepsWork(s: System, t: System, sizeOf: SizeOf)
    requires SystemOk(s, sizeOf) && Steps(s, t, Finish, sizeOf) && QueueOk(t)
    ensures WorkDone(t)
  {
    hide RecordsOk;
    hide MemOk;
    hide StageOk;
    hide QueueSound;
    hide WritersOf;
    hide WorkOk;
    hide LogOps;
    hide AllOps;
    hide NobodyForgotten;
    LastRecordWork(s.stage, s.log, Queued(s), sizeOf);
    PublishedSplit(s.stage, s.log);
    GroupLeft(s, t, s.stage.n);
    RestOfWork(s.stage, s.log, Queued(s), s.work, |s.committed|, s.stage.n, NoLeader, Queued(t),
        s.log[|s.log| - 1].ops);
    hide AfterGroup;
  }

  /** What is left of the queue after a group, whatever else the step changes. */
  lemma {:induction false} GroupLeft(s: System, t: System, n: nat)
    requires QueueOk(s) && 1 <= n <= |s.queue| && t == AfterGroup(s, n).(lastSequence := t.lastSequence) && QueueOk(t)
    ensures SameWork(Queued(t), Queued(s)[n..]) && |t.committed| == |s.committed| + n && t.stage.NoLeader?
    ensures t.work == s.work && t.log == s.log
  {
    AfterGroupWork(s, n);
  }

  lemma {:induction false} SkipKeeps(s: System, t: System, sizeOf: SizeOf)
    requires SystemOk(s, sizeOf) && Steps(s, t, SkipNull, sizeOf)
    ensures SystemOk(t, sizeOf)
  {
    hide RecordsOk;
    hide MemOk;
    hide QueueSound;
    hide WritersOf;
    hide NobodyForgotten;
    assert t.lastSequence == s.lastSequence;
    hide AfterGroup;
    hide WorkDone;
    AfterGroupQueue(s, 1);
    MemBeforeRecord(s.stage, t.stage, s.log, s.mem, s.lastSequence);
    SkipKeepsWork(s, t, sizeOf);
  }

  lemma {:induction false} NullWork(ws: seq<Writer>)
    requires ws != [] && ws[0].batch.None?
    ensures AllOps(ws[..1]) == []
  {
    assert ws[..1][..0] == [];
  }

  lemma {:induction false} NobodyInserting(log: seq<Record>)
    ensures Published(NoLeader, log) == log
  {
  }

  lemma {:induction false} SkipKeepsWork(s: System, t: System, sizeOf: SizeOf)
    requires SystemOk(s, sizeOf) && Steps(s, t, SkipNull, sizeOf) && QueueOk(t)
    ensures WorkDone(t)
  {
    assert Queued(s)[0].batch.None? && Published(s.stage, s.log) == s.log;
    hide Published;
    hide SameWork;
    hide RecordsOk;
    hide MemOk;
    hide QueueSound;
    hide WritersOf;
    hide WorkOk;
    hide LogOps;
    hide AllOps;
    hide NobodyForgotten;
    NullWork(Queued(s));
    GroupLeft(s, t, 1);
    assert LogOps(s.log) + [] == LogOps(s.log);
    assert Published(NoLeader, s.log) == s.log by { NobodyInserting(s.log); }
    RestOfWork(s.stage, s.log, Queued(s), s.work, |s.committed|, 1, NoLeader, Queued(t), []);
    hide AfterGroup;
  }

  lemma {:induction false} ReturnKeepsQueue(s: System, t: System, id: nat)
    requires QueueOk(s) && id in s.writers && s.writers[id].done && t == s.(writers := s.writers - {id})
    requires NobodyForgotten(s.stage, s.queue, s.writers)
    ensures QueueOk(t) && Queued(t) == Queued(s) && NobodyForgotten(t.stage, t.queue, t.writers)
  {
  }

  lemma {:induction false} ReturnKeeps(s: System, t: System, id: nat, sizeOf: SizeOf)
    requires SystemOk(s, sizeOf) && Steps(s, t, Return(id), sizeOf)
    ensures SystemOk(t, sizeOf)
  {
    hide RecordsOk;
    hide MemOk;
    hide StageOk;
    hide QueueSound;
    hide WritersOf;
    hide NobodyForgotten;
    hide WorkDone;
    ReturnKeepsQueue(s, t, id);
    SameWorkDone(s, t);
  }

  lemma {:induction false} StepsKeep(s: System, t: System, event: Event, sizeOf: SizeOf)
    requires SystemOk(s, sizeOf) && Steps(s, t, event, sizeOf)
    ensures SystemOk(t, sizeOf)
  {
    hide WorkDone;
    hide RecordsOk;
    hide MemOk;
    hide StageOk;
    hide NobodyForgotten;
    hide QueueSound;
    hide WritersOf;
    hide AfterGroup;
    hide IsGroup;
    match event
    case Arrive(id, batch, sync) => ArriveKeeps(s, t, id, batch, sync, sizeOf);
    case Lead => LeadKeeps(s, t, sizeOf);
    case Build(n) => BuildKeeps(s, t, n, sizeOf);
    case SkipNull => SkipKeeps(s, t, sizeOf);
    case AppendRecord => AppendKeeps(s, t, sizeOf);
    case InsertOne => InsertKeeps(s, t, sizeOf);
    case Finish => FinishKeeps(s, t, sizeOf);
    case Return(id) => ReturnKeeps(s, t, id, sizeOf);
  }

  // ----- what every run guarantees

  ghost predicate InitSystem(s: System) {
    s == System([], map[], NoLeader, [], [], 0, [], [], [])
  }

  ghost predicate IsRun(states: seq<System>, events: seq<Event>, sizeOf: SizeOf) {
    && |states| == |events| + 1 && InitSystem(states[0])
    && forall i :: 0 <= i < |events| ==> Steps(states[i], states[i + 1], events[i], sizeOf)
  }

  lemma {:induction false} InitOk(s: System, sizeOf: SizeOf)
    requires InitSystem(s)
    ensures SystemOk(s, sizeOf)
  {
    assert LogOps(s.log) == [] && Joined(s.work[..0]) == [] && NumberedOps([]) == [];
    hide LogOps;
    hide Joined;
    hide NumberedOps;
    hide AllOps;
    hide IsGroup;
    hide SameWork;
  }

  lemma {:induction false} RunOk(states: seq<System>, events: seq<Event>, sizeOf: SizeOf)
    requires IsRun(states, events, sizeOf)
    ensures SystemOk(states[|events|], sizeOf)
    decreases |events|
  {
    if events == [] {
      InitOk(states[0], sizeOf);
    } else {
      hide SystemOk;
      hide Steps;
      var n := |events| - 1;
      RunOk(states[..n + 1], events[..n], sizeOf);
      StepsKeep(states[n], states[n + 1], events[n], sizeOf);
    }
  }

  /** What a reader at LastSequence sees of the memtable. */
  function VisibleOps(mem: seq<(nat, Op)>, lastSequence: nat): Batch {
    if mem == [] then []
    else
      VisibleOps(mem[..|mem| - 1], lastSequence)
      + (if mem[|mem| - 1].0 <= lastSequence then [mem[|mem| - 1].1] else [])
  }

  lemma {:induction false} VisibleIsPrefix(ops: Batch, lastSequence: nat)
    ensures VisibleOps(NumberedOps(ops), lastSequence) == if lastSequence <= |ops| then ops[..lastSequence] else ops
  {
    if ops != [] {
      var front := ops[..|ops| - 1];
      VisibleIsPrefix(front, lastSequence);
      assert NumberedOps(ops)[..|ops| - 1] == NumberedOps(front);
      assert ops == front + [ops[|ops| - 1]];
    }
  }

  /** A read at LastSequence sees exactly the records published so far, never part of a group. */
  lemma {:induction false} ReadsSeeWholeGroups(states: seq<System>, events: seq<Event>, sizeOf: SizeOf)
    requires IsRun(states, events, sizeOf)
    ensures var s := states[|events|];
            VisibleOps(s.mem, s.lastSequence) == LogOps(Published(s.stage, s.log))
  {
    RunOk(states, events, sizeOf);
    var s := states[|events|];
    hide IsRun;
    hide RecordsOk;
    var ops := LogOps(s.log);
    var k := s.lastSequence + InsertedNow(s.stage);
    VisibleIsPrefix(ops[..k], s.lastSequence);
    PublishedIsPrefix(s.stage, s.log);
    assert ops[..k][..s.lastSequence] == ops[..s.lastSequence];
  }

  lemma {:induction false} PublishedIsPrefix(stage: Stage, log: seq<Record>)
    ensures LogOps(Published(stage, log)) <= LogOps(log)
  {
    if stage.Inserting? && log != [] {
      assert log == log[..|log| - 1] + [log[|log| - 1]];
      LogOpsSnoc(log[..|log| - 1], log[|log| - 1]);
    }
  }

  /** No lost wakeup: as long as writers wait, a leader is at work or the head of the queue is awake and can lead. */
  lemma {:induction false} HeadIsRunnable(states: seq<System>, events: seq<Event>, sizeOf: SizeOf)
    requires IsRun(states, events, sizeOf)
    ensures var s := states[|events|];
            && (s.queue != [] && s.stage.NoLeader? ==> exists t :: Steps(s, t, Lead, sizeOf))
            && (forall id :: id in s.writers && s.writers[id].done ==> exists t :: Steps(s, t, Return(id), sizeOf))
  {
    RunOk(states, events, sizeOf);
    var s := states[|events|];
    hide IsRun;
    hide RecordsOk;
    hide MemOk;
    hide StageOk;
    hide QueueSound;
    hide NobodyForgotten;
    hide Steps;
    if s.queue != [] && s.stage.NoLeader? {
      CanLead(s, sizeOf);
    }
    forall id | id in s.writers && s.writers[id].done ensures exists t :: Steps(s, t, Return(id), sizeOf) {
      CanReturn(s, id, sizeOf);
    }
  }

  lemma {:induction false} CanLead(s: System, sizeOf: SizeOf)
    requires QueueOk(s) && NobodyForgotten(s.stage, s.queue, s.writers) && s.queue != [] && s.stage.NoLeader?
    ensures exists t :: Steps(s, t, Lead, sizeOf)
  {
    var t := s.(stage := MakingRoom);
    assert s.queue[0] in s.queue;
    assert Steps(s, t, Lead, sizeOf);
  }

  lemma {:induction false} CanReturn(s: System, id: nat, sizeOf: SizeOf)
    requires QueueOk(s) && NobodyForgotten(s.stage, s.queue, s.writers) && id in s.writers && s.writers[id].done
    ensures exists t :: Steps(s, t, Return(id), sizeOf)
  {
    var t := s.(writers := s.writers - {id});
    assert Steps(s, t, Return(id), sizeOf);
  }

  /** Records take consecutive sequence numbers, hold their writers' batches, and a sync writer's record is synced. */
  lemma {:induction false} GroupsAreConsecutive(states: seq<System>, events: seq<Event>, sizeOf: SizeOf, i: nat)
    requires IsRun(states, events, sizeOf) && i < |states[|events|].log|
    ensures var log := states[|events|].log;
            && log[i].seqno == (if i == 0 then 1 else log[i - 1].seqno + |log[i - 1].ops|)
            && log[i].ops == AllOps(log[i].members)
            && (forall j :: 0 <= j < |log[i].members| ==> log[i].members[j].sync ==> log[i].synced)
  {
    RunOk(states, events, sizeOf);
    hide IsRun;
    hide MemOk;
    hide StageOk;
    hide QueueSound;
    hide NobodyForgotten;
    RecordsConsecutive(states[|events|].log, i);
  }

  lemma {:induction false} RecordsConsecutive(log: seq<Record>, i: nat)
    requires RecordsOk(log) && i < |log|
    ensures log[i].seqno == (if i == 0 then 1 else log[i - 1].seqno + |log[i - 1].ops|)
    ensures log[i].ops == AllOps(log[i].members)
    ensures forall j :: 0 <= j < |log[i].members| ==> log[i].members[j].sync ==> log[i].synced
  {
    if i > 0 {
      assert log[..i] == log[..i - 1] + [log[i - 1]];
      LogOpsSnoc(log[..i - 1], log[i - 1]);
    } else {
      assert log[..0] == [];
    }
    hide AllOps;
  }

  /** Exactly once, in arrival order: the published records hold the batches of the answered writers, nothing else. */
  lemma {:induction false} ExactlyOnceInOrder(states: seq<System>, events: seq<Event>, sizeOf: SizeOf)
    requires IsRun(states, events, sizeOf)
    ensures var s := states[|events|];
            && s.committed <= s.arrived && |s.work| == |s.arrived|
            && LogOps(Published(s.stage, s.log)) == Joined(s.work[..|s.committed|])
  {
    RunOk(states, events, sizeOf);
    hide IsRun;
    hide RecordsOk;
    hide MemOk;
    hide StageOk;
    hide QueueSound;
    hide NobodyForgotten;
  }
}
