/**
 DBImpl::DeleteObsoleteFiles and VersionSet::AddLiveFiles: which directory entries go.
 */
module ObsoleteFiles {
  import opened Entries
  import opened Files
  import opened Versions
  import opened Durable

  datatype FileType = LogFile | LockFile | TableFile | DescriptorFile | CurrentFile | TempFile | InfoLogFile

  /** A name ParseFileName recognises; every other name is left alone. */
  datatype Name = Name(kind: FileType, number: nat) | Foreign

  /** What the database knows when it collects: the version list, pending_outputs_ and the numbers of the live logs. */
  datatype Knowledge = Knowledge(
    versions: seq<Levels>, pendingOutputs: set<nat>, logNumber: nat, prevLogNumber: nat, manifestNumber: nat)

  ghost predicate ListedIn(v: Levels, lv: nat, n: nat) {
    lv < |v| && exists f :: f in v[lv] && f.number == n
  }

  ghost predicate ListedSomewhere(versions: seq<Levels>, n: nat) {
    exists i :: 0 <= i < |versions| && InVersion(versions[i], n)
  }

  ghost predicate Needed(k: Knowledge, name: Name) {
    match name
    case Foreign => true
    case Name(LogFile, n) => n >= k.logNumber || n == k.prevLogNumber
    case Name(DescriptorFile, n) => n >= k.manifestNumber
    case Name(TableFile, n) => n in k.pendingOutputs || ListedSomewhere(k.versions, n)
    case Name(TempFile, n) => n in k.pendingOutputs || ListedSomewhere(k.versions, n)
    case Name(_, _) => true
  }

  method AddFiles(files: seq<File>, live: set<nat>) returns (all: set<nat>)
    ensures forall n :: n in all <==> n in live || exists f :: f in files && f.number == n
  {
    all := live;
    for i := 0 to |files|
      invariant forall n :: n in all <==> n in live || exists f :: f in files[..i] && f.number == n
    {
      all := all + {files[i].number};
      assert files[..i + 1] == files[..i] + [files[i]];
      assert files[i] in files[..i + 1];
    }
    assert files[..|files|] == files;
  }

  method AddVersion(v: Levels, live: set<nat>) returns (all: set<nat>)
    ensures forall n :: n in all <==> n in live || InVersion(v, n)
  {
    all := live;
    for lv := 0 to |v|
      invariant forall n :: n in all <==> n in live || exists l :: 0 <= l < lv && ListedIn(v, l, n)
    {
      ghost var before := all;
      all := AddFiles(v[lv], all);
      assert forall n :: n in all <==> n in before || ListedIn(v, lv, n);
    }
    forall n ensures InVersion(v, n) <==> exists l :: 0 <= l < |v| && ListedIn(v, l, n) {
      if InVersion(v, n) {
        var l, f :| 0 <= l < |v| && f in v[l] && f.number == n;
        assert ListedIn(v, l, n);
      }
    }
  }

  /** VersionSet::AddLiveFiles: the files of every version in the list. */
  method AddLiveFiles(versions: seq<Levels>, live: set<nat>) returns (all: set<nat>)
    ensures forall n :: n in all <==> n in live || ListedSomewhere(versions, n)
  {
    all := live;
    for i := 0 to |versions|
      invariant forall n :: n in all <==> n in live || exists j :: 0 <= j < i && InVersion(versions[j], n)
    {
      all := AddVersion(versions[i], all);
    }
  }

  /** DBImpl::DeleteObsoleteFiles: exactly the names that are not needed are deleted, the rest stay in order. */
  method DeleteObsoleteFiles(names: seq<Name>, k: Knowledge) returns (kept: seq<Name>, deleted: seq<Name>)
    ensures forall name :: name in kept <==> name in names && Needed(k, name)
    ensures forall name :: name in deleted <==> name in names && !Needed(k, name)
  {
    var live := AddLiveFiles(k.versions, k.pendingOutputs);
    kept, deleted := [], [];
    for i := 0 to |names|
      invariant forall name :: name in kept <==> name in names[..i] && Needed(k, name)
      invariant forall name :: name in deleted <==> name in names[..i] && !Needed(k, name)
    {
      var name := names[i];
      var keep := true;
      if name.Name? {
        match name.kind
        case LogFile => keep := name.number >= k.logNumber || name.number == k.prevLogNumber;
        case DescriptorFile => keep := name.number >= k.manifestNumber;
        case TableFile => keep := name.number in live;
        case TempFile => keep := name.number in live;
        case CurrentFile | LockFile | InfoLogFile => keep := true;
      }
      assert keep == Needed(k, name);
      if keep {
        kept := kept + [name];
      } else {
        deleted := deleted + [name];
      }
      assert names[..i + 1] == names[..i] + [name];
    }
    assert names[..|names|] == names;
  }

  // ----- the rule is safe in the running store

  /** What DBImpl knows in a state of the store: the versions held are the current one and the pinned ones. */
  function KnowledgeOf(s: Sys, manifestNumber: nat): Knowledge {
    Knowledge([s.current] + s.pinned, s.pendingOutputs, s.logNumber, 0, manifestNumber)
  }

  function NumbersIn(names: seq<Name>, kind: FileType): set<nat> {
    set name | name in names && name.Name? && name.kind == kind :: name.number
  }

  lemma {:induction false} LiveIsNeeded(s: Sys, manifestNumber: nat, n: nat)
    requires IsLive(s, n)
    ensures Needed(KnowledgeOf(s, manifestNumber), Name(TableFile, n))
  {
    var versions := [s.current] + s.pinned;
    if n !in s.pendingOutputs {
      if InVersion(s.current, n) {
        assert versions[0] == s.current;
      } else {
        var i :| 0 <= i < |s.pinned| && InVersion(s.pinned[i], n);
        assert versions[i + 1] == s.pinned[i];
      }
    }
  }

  /**
   What DeleteObsoleteFiles deletes, or any part of it, is a collection step of the store, whose
   every run keeps the tables that matter and stays recoverable.
   */
  lemma {:induction false} DeletionIsCollection(s: Sys, manifestNumber: nat, gone: seq<Name>, t: Sys)
    requires !s.installing && !s.flushed
    requires forall name :: name in gone ==> !Needed(KnowledgeOf(s, manifestNumber), name)
    requires t == s.(disk := s.disk.(tables := s.disk.tables - NumbersIn(gone, TableFile),
                                     logs := Without(s.disk.logs, NumbersIn(gone, LogFile))))
    ensures CollectStep(s, t, NumbersIn(gone, TableFile), NumbersIn(gone, LogFile))
  {
    forall n | n in NumbersIn(gone, TableFile) ensures !IsLive(s, n) {
      assert Name(TableFile, n) in gone;
      if IsLive(s, n) {
        LiveIsNeeded(s, manifestNumber, n);
      }
    }
    forall n | n in NumbersIn(gone, LogFile) ensures n < s.logNumber {
      assert Name(LogFile, n) in gone;
    }
  }

  // ----- and complete

  lemma {:induction false} NeededIsLive(s: Sys, manifestNumber: nat, n: nat)
    ensures Needed(KnowledgeOf(s, manifestNumber), Name(TableFile, n)) <==> IsLive(s, n)
  {
    var versions := [s.current] + s.pinned;
    if IsLive(s, n) {
      LiveIsNeeded(s, manifestNumber, n);
    } else {
      forall i | 0 <= i < |versions| ensures !InVersion(versions[i], n) {
        assert i > 0 ==> versions[i] == s.pinned[i - 1];
      }
    }
  }

  lemma {:induction false} WithoutMeans(logs: seq<Log>, numbers: set<nat>)
    ensures forall log :: log in Without(logs, numbers) ==> log in logs && log.number !in numbers
  {
    if logs != [] {
      WithoutMeans(logs[..|logs| - 1], numbers);
    }
  }

  /**
   When all of it is deleted, of the directory as it is, the tables left are those the store needs and the logs left
   those the manifest may still ask for. A log numbered 0 stays: 0 stands for no previous log.
   */
  lemma {:induction false} OnlyNeededStays(s: Sys, manifestNumber: nat, names: seq<Name>, gone: seq<Name>, t: Sys)
    requires forall n :: n in s.disk.tables ==> Name(TableFile, n) in names
    requires forall log :: log in s.disk.logs ==> Name(LogFile, log.number) in names
    requires forall name :: name in names && !Needed(KnowledgeOf(s, manifestNumber), name) ==> name in gone
    requires t == s.(disk := s.disk.(tables := s.disk.tables - NumbersIn(gone, TableFile),
                                     logs := Without(s.disk.logs, NumbersIn(gone, LogFile))))
    ensures forall n :: n in t.disk.tables ==> IsLive(s, n)
    ensures forall log :: log in t.disk.logs ==> log.number >= s.logNumber || log.number == 0
  {
    forall n | n in t.disk.tables ensures IsLive(s, n) {
      NeededIsLive(s, manifestNumber, n);
      assert Name(TableFile, n) !in gone;
    }
    WithoutMeans(s.disk.logs, NumbersIn(gone, LogFile));
    forall log | log in t.disk.logs ensures log.number >= s.logNumber || log.number == 0 {
      assert Name(LogFile, log.number) !in gone;
    }
  }
}
