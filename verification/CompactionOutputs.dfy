/**
 From the outputs of the compaction loop to the files that are installed.
 */
module CompactionOutputs {
  import opened Entries
  import opened Files
  import opened Compactions
  import opened CompactionMeaning
  import opened Transitions

  /** The table written for one output, with the bounds FinishCompactionOutputFile records. */
  function TableOf(number: nat, size: nat, entries: seq<Entry>): File
    requires entries != []
  {
    File(number, size, entries[0].ikey, entries[|entries| - 1].ikey, entries)
  }

  predicate AreTablesOf(files: seq<File>, outputs: seq<seq<Entry>>) {
    && |files| == |outputs|
    && forall i :: 0 <= i < |files| ==> outputs[i] != [] && files[i] == TableOf(files[i].number, files[i].size,
        outputs[i])
  }

  lemma {:induction false} ConcatMembers(outputs: seq<seq<Entry>>)
    ensures forall x :: x in Concat(outputs) <==> exists i :: 0 <= i < |outputs| && x in outputs[i]
  {
    if outputs != [] {
      ConcatMembers(outputs[..|outputs| - 1]);
      assert outputs == outputs[..|outputs| - 1] + [outputs[|outputs| - 1]];
    }
  }

  lemma {:induction false} PartIsSorted(outputs: seq<seq<Entry>>, i: nat)
    requires SortedEntries(Concat(outputs)) && i < |outputs|
    ensures SortedEntries(outputs[i])
  {
    var front, last := outputs[..|outputs| - 1], outputs[|outputs| - 1];
    var n := |Concat(front)|;
    assert Concat(outputs)[..n] == Concat(front) && Concat(outputs)[n..] == last;
    SortedSlices(Concat(outputs), n);
    if i < |front| {
      PartIsSorted(front, i);
    }
  }

  lemma {:induction false} PartsAscend(outputs: seq<seq<Entry>>, i: nat, j: nat, x: Entry, y: Entry)
    requires SortedEntries(Concat(outputs)) && i < j < |outputs| && x in outputs[i] && y in outputs[j]
    ensures Less(x.ikey, y.ikey)
  {
    var front, last := outputs[..|outputs| - 1], outputs[|outputs| - 1];
    var n := |Concat(front)|;
    assert Concat(outputs)[..n] == Concat(front) && Concat(outputs)[n..] == last;
    SortedSlices(Concat(outputs), n);
    if j < |front| {
      PartsAscend(front, i, j, x, y);
    } else {
      ConcatMembers(front);
      assert front[i] == outputs[i];
    }
  }

  lemma {:induction false} SortedSlices(es: seq<Entry>, n: nat)
    requires SortedEntries(es) && n <= |es|
    ensures SortedEntries(es[..n]) && SortedEntries(es[n..])
    ensures forall x, y :: x in es[..n] && y in es[n..] ==> Less(x.ikey, y.ikey)
  {
  }

  lemma {:induction false} TableIsValid(f: File, output: seq<Entry>)
    requires output != [] && f == TableOf(f.number, f.size, output) && SortedEntries(output)
    requires forall e :: e in output ==> e.ikey.seqno <= MAX_SEQUENCE
    ensures ValidFile(f)
  {
    assert forall j :: 0 <= j < |output| ==> output[j] in output;
  }

  lemma {:induction false} TablesAreSorted(outputs: seq<seq<Entry>>, files: seq<File>)
    requires AreTablesOf(files, outputs) && SortedEntries(Concat(outputs))
    requires forall e :: e in Concat(outputs) ==> e.ikey.seqno <= MAX_SEQUENCE
    ensures ValidFiles(files) && SortedDisjoint(files)
  {
    ConcatMembers(outputs);
    assert (forall i :: 0 <= i < |files| ==> ValidFile(files[i])) && SortedDisjoint(files) by {
      forall i | 0 <= i < |files| ensures ValidFile(files[i]) {
        PartIsSorted(outputs, i);
        TableIsValid(files[i], outputs[i]);
      }
      forall i, j | 0 <= i < j < |files| ensures Less(files[i].largest, files[j].smallest) {
        var x, y := outputs[i][|outputs[i]| - 1], outputs[j][0];
        PartsAscend(outputs, i, j, x, y);
      }
    }
  }

  lemma {:induction false} TablesHoldTheEntries(outputs: seq<seq<Entry>>, files: seq<File>)
    requires AreTablesOf(files, outputs)
    ensures EntriesOf(files) == Elems(Concat(outputs))
  {
    ConcatMembers(outputs);
    forall x ensures x in EntriesOf(files) <==> x in Concat(outputs) {
      if i :| 0 <= i < |outputs| && x in outputs[i] {
        assert files[i] in files && x in files[i].entries;
      }
    }
  }

  /** The outputs of a compaction, written as tables, are a valid addition to a sorted level. */
  lemma {:induction false} OutputsAreTables(merged: seq<Entry>, outputs: seq<seq<Entry>>, files: seq<File>,
          smallestSnapshot: nat, v: Levels, level: nat)
    requires SortedEntries(merged) && forall e :: e in merged ==> e.ikey.seqno <= MAX_SEQUENCE
    requires Concat(outputs) == Kept(merged, |merged|, smallestSnapshot, v, level)
    requires AreTablesOf(files, outputs)
    ensures ValidFiles(files) && SortedDisjoint(files)
    ensures EntriesOf(files) == Elems(Kept(merged, |merged|, smallestSnapshot, v, level))
    ensures EntriesOf(files) <= Elems(merged)
  {
    KeptSorted(merged, |merged|, smallestSnapshot, v, level);
    assert merged[..|merged|] == merged;
    TablesAreSorted(outputs, files);
    TablesHoldTheEntries(outputs, files);
  }

  /** The grandparents of a compaction are in order of their largest keys, as ShouldStopBefore needs. */
  lemma {:induction false} FilterSorted(files: seq<File>, lo: Bound, hi: Bound)
    requires SortedByLargest(files)
    ensures SortedByLargest(OverlapFilter(files, lo, hi))
  {
    if files != [] {
      var front, last := files[..|files| - 1], files[|files| - 1];
      FilterSorted(front, lo, hi);
      var kept := OverlapFilter(front, lo, hi);
      forall i | 0 <= i < |kept| ensures Less(kept[i].largest, last.largest) {
        assert kept[i] in kept;
        var j :| 0 <= j < |front| && front[j] == kept[i];
        assert Less(files[j].largest, files[|files| - 1].largest);
      }
    }
  }
}
