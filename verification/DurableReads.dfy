/**
 What readers see while LogAndApply is at work: the version, and the immutable memtable it is about to replace, stay
 in place until the new version is installed, and reads through them are right at every step in between.
 */
module DurableReads {
  import opened Entries
  import opened Files
  import opened Versions
  import opened Picking
  import opened Transitions
  import opened Engine
  import opened EngineProof
  import opened VersionEdits
  import opened VersionBuilder
  import opened Manifest
  import opened ManifestReplay
  import opened Durable
  import opened DurableFiles
  import opened DurableProof

  /** The store as DBImpl::Get sees it: mem_, imm_ and current_. */
  function ReaderView(s: Sys): Db {
    s.db.(version := s.current, imm := s.held, running := None, reserved := None)
  }

  ghost predicate ReadersOk(s: Sys) {
    s.up ==> Inv(ReaderView(s))
  }

  function Idle(db: Db): Db {
    db.(running := None, reserved := None)
  }

  lemma {:induction false} IdleInv(db: Db)
    requires Inv(db)
    ensures Inv(Idle(db))
  {
    hide DbOk;
    hide InputsOk;
    hide DropsAreSafe;
    hide Read;
    assert Stored(Idle(db)) == Stored(db);
  }

  /** With nothing being installed, readers see the durable view. */
  lemma {:induction false} SettledView(s: Sys)
    requires SysInv(s) && s.up && !s.installing
    ensures ReaderView(s) == Idle(s.db)
  {
    hide DiskOk;
    hide OnRecord;
    hide LogsSplit;
    hide NumbersTaken;
    hide FilesKept;
  }

  lemma {:induction false} SettledReaders(s: Sys)
    requires SysInv(s) && s.up && !s.installing
    ensures ReadersOk(s)
  {
    hide *;
    InvParts(s);
    SettledView(s);
    IdleInv(s.db);
    ReadersOf(s);
  }

  lemma {:induction false} ReadersOf(s: Sys)
    ensures Inv(ReaderView(s)) ==> ReadersOk(s)
  {
    hide Inv;
  }

  predicate ReaderStep(act: Act) {
    act.PublishGroup? || act.SwitchLog? || act.Snapshot? || act.Release?
  }

  /** Publication, memtable switches and snapshots are steps of the readers' view as well. */
  lemma {:induction false} StepsView(s: Sys, t: Sys, act: Act) returns (step: Step)
    requires UpStep(s, t, act) && ReaderStep(act)
    ensures Next(ReaderView(s), ReaderView(t), step)
  {
    match act
    case PublishGroup => step := Publish;
    case SwitchLog => step := SwitchMemtable;
    case Snapshot => step := TakeSnapshot;
    case Release(i) => step := ReleaseSnapshot(i);
    case _ => step := Publish;
  }

  lemma {:induction false} AppendsView(s: Sys, t: Sys, batch: seq<Entry>)
    requires AppendStep(s, t, batch)
    ensures ReaderView(t) == Appended(ReaderView(s), batch) && ReaderView(s).inserted + |batch| < MAX_SEQUENCE
    ensures forall i :: 0 <= i < |batch| ==> batch[i].ikey.seqno == ReaderView(s).inserted + 1 + i
  {
    hide Durable.InsertAll;
  }

  /** Any other step that ends with an installation under way leaves the readers' view as it was. */
  lemma {:induction false} LeavesView(s: Sys, t: Sys, act: Act)
    requires UpStep(s, t, act) && !ReaderStep(act) && !act.Append? && t.installing
    ensures ReaderView(t) == ReaderView(s)
  {
    hide OnRecord;
    hide WellPicked;
    hide Closed;
    hide Install;
    hide FlushPlaced;
    hide InstallEdit;
    hide FlushEdit;
    hide AreOutputs;
    hide Counted;
    hide FlushCounted;
  }

  lemma {:induction false} UpKeepsReaders(s: Sys, t: Sys, act: Act)
    requires ReadersOk(s) && SysInv(t) && s.up && t.up && UpStep(s, t, act)
    ensures ReadersOk(t)
  {
    assert Inv(ReaderView(s)) by { hide Inv; }
    hide *;
    if !t.installing {
      SettledReaders(t);
    } else if act.Append? {
      AppendsStep(s, t, act);
      AppendsView(s, t, act.batch);
      AppendKeepsInv(ReaderView(s), act.batch);
    } else if ReaderStep(act) {
      var step := StepsView(s, t, act);
      NextKeepsInv(ReaderView(s), ReaderView(t), step);
    } else {
      LeavesView(s, t, act);
    }
    ReadersOf(t);
  }

  lemma {:induction false} AppendsStep(s: Sys, t: Sys, act: Act)
    requires UpStep(s, t, act) && act.Append?
    ensures AppendStep(s, t, act.batch)
  {
    hide AppendStep;
  }

  lemma {:induction false} StaysUp(s: Sys, t: Sys, act: Act)
    requires UpStep(s, t, act)
    ensures t.up == s.up
  {
    hide OnRecord;
    hide WellPicked;
    hide Closed;
    hide Install;
    hide FlushPlaced;
    hide InstallEdit;
    hide FlushEdit;
    hide AreOutputs;
    hide Counted;
    hide FlushCounted;
    hide Durable.InsertAll;
  }

  lemma {:induction false} OpensSettled(s: Sys, t: Sys, act: Act)
    requires DownStep(s, t, act) && !s.up
    ensures t.up ==> !t.installing
  {
    hide Recovers;
    hide OpenEdit;
    hide IsUnused;
    hide ReadBack;
  }

  lemma {:induction false} NextKeepsReaders(s: Sys, t: Sys, act: Act)
    requires ReadersOk(s) && SysInv(t) && NextSys(s, t, act)
    ensures ReadersOk(t)
  {
    hide SysInv;
    hide Inv;
    hide UpStep;
    hide DownStep;
    if !act.Crash? {
      if s.up {
        StaysUp(s, t, act);
        UpKeepsReaders(s, t, act);
      } else {
        OpensSettled(s, t, act);
        if t.up {
          SettledReaders(t);
        }
      }
    }
  }
}
