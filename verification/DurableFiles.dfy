/**
 Facts about the files: edits that follow a change of version, and logs that follow the writers.
 */
module DurableFiles {
  import opened Entries
  import opened Files
  import opened Versions
  import opened Compactions
  import opened CompactionWork
  import opened Transitions
  import opened Engine
  import opened VersionEdits
  import opened VersionBuilder
  import opened Manifest
  import opened ManifestReplay
  import opened Durable

  // ----- versions and their metadata

  lemma {:induction false} MetaMembers(files: seq<File>, m: Meta)
    ensures m in MetasOf(files) <==> exists f :: f in files && MetaOf(f) == m
  {
    if m in MetasOf(files) {
      var i :| 0 <= i < |files| && MetasOf(files)[i] == m;
      assert files[i] in files && MetaOf(files[i]) == m;
    }
    if f :| f in files && MetaOf(f) == m {
      var i :| 0 <= i < |files| && files[i] == f;
      assert MetasOf(files)[i] == m;
    }
  }

  lemma {:induction false} SortedIsOrdered(files: seq<File>)
    requires SortedBySmallest(files)
    ensures Ordered(MetasOf(files))
  {
    forall i, j | 0 <= i < j < |files| ensures Before(MetasOf(files)[i], MetasOf(files)[j]) {
      assert Less(files[i].smallest, files[j].smallest) || files[i].smallest == files[j].smallest;
    }
  }

  /** No two files of the level share a number. */
  predicate OwnNumbers(files: seq<File>) {
    forall f, g :: f in files && g in files && f.number == g.number ==> f == g
  }

  predicate NewNumbers(files: seq<File>, added: seq<File>) {
    forall f, g :: f in files && g in added ==> f.number != g.number
  }

  lemma {:induction false} DisjointMetas(files: seq<File>, added: seq<File>)
    requires NewNumbers(files, added)
    ensures Disjoint(MetasOf(files), MetasOf(added))
  {
    forall x, y | x in MetasOf(files) && y in MetasOf(added) ensures x.number != y.number {
      MetaMembers(files, x);
      MetaMembers(added, y);
    }
  }

  /** The builder's list for a level is the metadata of the edited level. */
  lemma {:induction false} LevelFollows(files: seq<File>, files2: seq<File>, removed: set<File>, added: seq<File>,
          e: Edit, l: nat)
    requires LevelEdited(files, files2, removed, Elems(added)) && SortedBySmallest(files) && removed <= Elems(files)
    requires OwnNumbers(files) && NewNumbers(files, added) && DistinctMetas(MetasOf(added))
    requires DeletedAt(e.deleted, l) == (set f | f in removed :: f.number) && AddsAt(e.added, l) == MetasOf(added)
    ensures Saved(MetasOf(files), AddedAfter([], e, l), DeletedAfter({}, e, l)) == MetasOf(files2)
  {
    var base, ins, del := MetasOf(files), AddedAfter([], e, l), DeletedAfter({}, e, l);
    SortedIsOrdered(files);
    SortedIsOrdered(files2);
    OneEditAdds(e, l);
    assert forall m :: m in ins <==> m in Elems(ins);
    assert forall m :: m in MetasOf(added) <==> m in Elems(MetasOf(added));
    DisjointMetas(files, added);
    SavedMeans(base, ins, del);
    forall m ensures m in Saved(base, ins, del) <==> m in MetasOf(files2) {
      FollowsMember(files, files2, removed, added, e, l, m);
    }
    OrderedUnique(Saved(base, ins, del), MetasOf(files2));
  }

  lemma {:induction false} FollowsMember(files: seq<File>, files2: seq<File>, removed: set<File>, added: seq<File>,
          e: Edit, l: nat, m: Meta)
    requires Elems(files2) == Elems(files) - removed + Elems(added) && removed <= Elems(files)
    requires OwnNumbers(files) && NewNumbers(files, added)
    requires DeletedAt(e.deleted, l) == (set f | f in removed :: f.number) && AddsAt(e.added, l) == MetasOf(added)
    ensures (m in MetasOf(files) || m in MetasOf(added)) && m.number !in DeletedAfter({}, e, l) <==>
              m in MetasOf(files2)
  {
    MetaMembers(files, m);
    MetaMembers(files2, m);
    MetaMembers(added, m);
    assert forall f :: f in files2 <==> f in Elems(files2);
    assert forall f :: f in files <==> f in Elems(files);
    assert forall f :: f in added <==> f in Elems(added);
    if f :| f in added && MetaOf(f) == m {
      assert m.number in Numbers(MetasOf(added));
    }
    if f :| f in files && MetaOf(f) == m {
      assert m.number !in Numbers(MetasOf(added)) by { DisjointMetas(files, added); }
      assert m.number in DeletedAfter({}, e, l) <==> f in removed;
    }
  }

  /** An edit that changes nothing at a level. */
  lemma {:induction false} LevelStays(files: seq<File>, e: Edit, l: nat)
    requires SortedBySmallest(files) && OwnNumbers(files) && DeletedAt(e.deleted, l) == {} && AddsAt(e.added, l) == []
    ensures Saved(MetasOf(files), AddedAfter([], e, l), DeletedAfter({}, e, l)) == MetasOf(files)
  {
    LevelFollows(files, files, {}, [], e, l);
  }

  // ----- logs

  lemma {:induction false} ConcatAppends(a: seq<seq<Entry>>, b: seq<seq<Entry>>)
    ensures Concat(a + b) == Concat(a) + Concat(b)
    decreases |b|
  {
    if b == [] {
      assert a + b == a;
    } else {
      ConcatAppends(a, b[..|b| - 1]);
      assert (a + b)[..|a + b| - 1] == a + b[..|b| - 1];
    }
  }

  /** The tail is that of the logs before the last one, followed by the last one. */
  lemma {:induction false} TailSplits(logs: seq<Log>, n: nat)
    requires logs != []
    ensures Tail(logs, n) ==
        Tail(logs[..|logs| - 1], n) + (if logs[|logs| - 1].number >= n then Concat(logs[|logs| - 1].batches) else [])
  {
    ConcatAppends(TailBatches(logs[..|logs| - 1], n),
        if logs[|logs| - 1].number >= n then logs[|logs| - 1].batches else []);
  }

  /** Logs below n do not count. */
  lemma {:induction false} NoTail(logs: seq<Log>, n: nat)
    requires forall log :: log in logs ==> log.number < n
    ensures Tail(logs, n) == []
  {
    if logs != [] {
      NoTail(logs[..|logs| - 1], n);
      TailSplits(logs, n);
    }
  }

  /** With the last log as the first one needed, the tail is that log. */
  lemma {:induction false} TailFromLast(logs: seq<Log>)
    requires logs != [] && AscendingLogs(logs)
    ensures Tail(logs, logs[|logs| - 1].number) == Concat(logs[|logs| - 1].batches)
  {
    var n := logs[|logs| - 1].number;
    NoTail(logs[..|logs| - 1], n);
    TailSplits(logs, n);
  }

  lemma {:induction false} TailOneMoreLog(logs: seq<Log>, log: Log, n: nat)
    requires log.batches == []
    ensures Tail(logs + [log], n) == Tail(logs, n)
  {
    assert (logs + [log])[..|logs|] == logs;
    TailSplits(logs + [log], n);
  }

  lemma {:induction false} TailOneMoreBatch(logs: seq<Log>, n: nat, batch: seq<Entry>)
    requires logs != [] && logs[|logs| - 1].number >= n
    ensures var k, log := |logs| - 1, logs[|logs| - 1];
            Tail(logs[k := log.(batches := log.batches + [batch])], n) == Tail(logs, n) + batch
  {
    var k, log := |logs| - 1, logs[|logs| - 1];
    var logs2 := logs[k := log.(batches := log.batches + [batch])];
    hide Tail;
    hide Concat;
    assert logs2[..k] == logs[..k];
    TailSplits(logs, n);
    TailSplits(logs2, n);
    ConcatAppend(log.batches, batch);
    Regroup3(Tail(logs[..k], n), Concat(log.batches), batch);
  }

  lemma {:induction false} Regroup3(a: seq<Entry>, b: seq<Entry>, c: seq<Entry>)
    ensures a + (b + c) == a + b + c
  {
  }

  lemma {:induction false} TailWithout(logs: seq<Log>, numbers: set<nat>, n: nat)
    requires forall m :: m in numbers ==> m < n
    ensures Tail(Without(logs, numbers), n) == Tail(logs, n)
    ensures forall log :: log in Without(logs, numbers) ==> log in logs
  {
    if logs != [] {
      var front, last := logs[..|logs| - 1], logs[|logs| - 1];
      TailWithout(front, numbers, n);
      TailSplits(logs, n);
      if last.number !in numbers {
        assert Without(logs, numbers)[..|Without(front, numbers)|] == Without(front, numbers);
        TailSplits(Without(logs, numbers), n);
      } else {
        assert Without(front, numbers) + [] == Without(front, numbers);
      }
    }
  }

  lemma {:induction false} FrontIsBelow(logs: seq<Log>)
    requires AscendingLogs(logs) && logs != []
    ensures AscendingLogs(logs[..|logs| - 1])
    ensures forall log :: log in logs[..|logs| - 1] ==> log.number < logs[|logs| - 1].number
  {
  }

  lemma {:induction false} NewLogAscends(logs: seq<Log>, log: Log)
    requires AscendingLogs(logs) && forall l :: l in logs ==> l.number < log.number
    ensures AscendingLogs(logs + [log])
  {
    assert forall i :: 0 <= i < |logs| ==> logs[i] in logs;
  }

  lemma {:induction false} WithoutAscends(logs: seq<Log>, numbers: set<nat>)
    requires AscendingLogs(logs)
    ensures AscendingLogs(Without(logs, numbers))
    ensures forall log :: log in Without(logs, numbers) ==> log in logs
  {
    if logs != [] {
      var front := logs[..|logs| - 1];
      FrontIsBelow(logs);
      WithoutAscends(front, numbers);
      hide AscendingLogs;
      NewLogAscends(Without(front, numbers), logs[|logs| - 1]);
    }
  }

  /** The current log is never collected. */
  lemma {:induction false} WithoutKeepsLast(logs: seq<Log>, numbers: set<nat>)
    requires logs != [] && logs[|logs| - 1].number !in numbers
    ensures var r := Without(logs, numbers);
            r != [] && r[|r| - 1] == logs[|logs| - 1] && r[..|r| - 1] == Without(logs[..|logs| - 1], numbers)
  {
  }

  // ----- the memtable

  lemma {:induction false} SortedSnoc(es: seq<Entry>, last: Entry)
    requires SortedEntries(es) && forall x :: x in Elems(es) ==> Less(x.ikey, last.ikey)
    ensures SortedEntries(es + [last]) && Elems(es + [last]) == Elems(es) + {last}
  {
    assert forall i :: 0 <= i < |es| ==> es[i] in Elems(es);
  }

  lemma {:induction false} InsertEntrySorted(mem: seq<Entry>, e: Entry)
    requires SortedEntries(mem) && forall x :: x in mem ==> x.ikey.seqno < e.ikey.seqno
    ensures SortedEntries(InsertEntry(mem, e)) && Elems(InsertEntry(mem, e)) == Elems(mem) + {e}
  {
    if mem != [] {
      var front, last := mem[..|mem| - 1], mem[|mem| - 1];
      assert mem == front + [last];
      if Less(last.ikey, e.ikey) {
        forall i | 0 <= i < |mem| ensures Less(mem[i].ikey, e.ikey) {
          if i < |front| {
            assert Less(mem[i].ikey, last.ikey);
          }
        }
      } else {
        InsertEntrySorted(front, e);
        var ins := InsertEntry(front, e);
        assert last in mem && Less(e.ikey, last.ikey);
        forall x | x in front ensures Less(x.ikey, last.ikey) {
          var j :| 0 <= j < |front| && front[j] == x;
          assert mem[j] == front[j];
        }
        SortedSnoc(ins, last);
      }
    }
  }

  lemma {:induction false} InsertAllSorted(mem: seq<Entry>, batch: seq<Entry>, last: nat)
    requires SortedEntries(mem) && (forall x :: x in mem ==> x.ikey.seqno <= last)
    requires forall i :: 0 <= i < |batch| ==> batch[i].ikey.seqno == last + 1 + i
    ensures SortedEntries(Durable.InsertAll(mem, batch))
    ensures Elems(Durable.InsertAll(mem, batch)) == Elems(mem) + Elems(batch)
  {
    if batch != [] {
      var front, e := batch[..|batch| - 1], batch[|batch| - 1];
      InsertAllSorted(mem, front, last);
      var ins := Durable.InsertAll(mem, front);
      assert batch == front + [e];
      forall x | x in ins ensures x.ikey.seqno < e.ikey.seqno {
        assert x in Elems(ins);
      }
      InsertEntrySorted(ins, e);
    }
  }
}
