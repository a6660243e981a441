/**
 db_impl.cc DBImpl::DoCompactionWork: the merge loop of a compaction, and what it guarantees about
 reads and about the size of the grandparent overlap of each output file.
 */
module CompactionWork {
  import opened Entries
  import opened Files
  import opened Versions
  import opened Compactions

  function FirstKey(es: seq<Entry>): InternalKey
    requires es != []
  {
    es[0].ikey
  }

  function LastKey(es: seq<Entry>): InternalKey
    requires es != []
  {
    es[|es| - 1].ikey
  }

  /** The output overlaps few enough grandparent bytes. */
  predicate Bounded(c: Compaction, output: seq<Entry>) {
    output != [] && BytesBetween(c.grandparents, FirstKey(output), LastKey(output)) <= c.MaxGrandParentOverlapBytes()
  }

  /** The builder (empty when none is open) against the bytes counted since the last stop. */
  ghost predicate BuilderCounted(c: Compaction, builder: seq<Entry>, last: InternalKey)
    reads c
  {
    && c.overlappedBytes <= c.MaxGrandParentOverlapBytes()
    && (builder != [] ==>
          && AtMost(FirstKey(builder), LastKey(builder)) && AtMost(LastKey(builder), last)
          && BytesBetween(c.grandparents, FirstKey(builder), last) <= c.overlappedBytes)
  }

  lemma {:induction false} CountedIsBounded(c: Compaction, builder: seq<Entry>, last: InternalKey)
    requires BuilderCounted(c, builder, last) && builder != []
    ensures Bounded(c, builder)
  {
    BytesBetweenAdds(c.grandparents, FirstKey(builder), LastKey(builder), last);
  }

  lemma {:induction false} BytesAtSelf(files: seq<File>, k: InternalKey)
    ensures BytesBetween(files, k, k) == 0
  {
    if files != [] {
      BytesAtSelf(files[..|files| - 1], k);
    }
  }

  predicate AllBounded(c: Compaction, outputs: seq<seq<Entry>>) {
    forall o :: o in outputs ==> Bounded(c, o)
  }

  lemma {:induction false} ConcatAppend(outputs: seq<seq<Entry>>, o: seq<Entry>)
    ensures Concat(outputs + [o]) == Concat(outputs) + o
  {
    assert (outputs + [o])[..|outputs|] == outputs;
  }

  /** What holds of the grandparent cursor after the key `last`, or before the first key. */
  ghost predicate CursorAt(c: Compaction, last: Option<InternalKey>)
    reads c
  {
    match last
    case None => !c.seenKey && c.grandparentIndex == 0 && c.overlappedBytes == 0
    case Some(k) => c.seenKey && c.AtGrandparent(k)
  }

  ghost predicate Progress(c: Compaction, outputs: seq<seq<Entry>>, builder: seq<Entry>, last: Option<InternalKey>)
    reads c
  {
    && AllBounded(c, outputs) && CursorAt(c, last)
    && (last.None? ==> builder == [])
    && (last.Some? ==> BuilderCounted(c, builder, last.value))
  }

  // ----- where the outputs are cut

  /**
   The last key up to number i at which the count of grandparent bytes began anew: the first one, and each one at which
   the bytes passed since the one before exceed the limit.
   */
  ghost function LastStop(c: Compaction, input: seq<Entry>, i: nat): (j: nat)
    requires i < |input|
    ensures j <= i
    decreases i, 1
  {
    if i == 0 then 0 else if StopsAt(c, input, i) then i else LastStop(c, input, i - 1)
  }

  ghost predicate StopsAt(c: Compaction, input: seq<Entry>, i: nat)
    requires i < |input|
    decreases i, 0
  {
    i > 0 && BytesBetween(c.grandparents, input[LastStop(c, input, i - 1)].ikey, input[i].ikey)
             > c.MaxGrandParentOverlapBytes()
  }

  /** The surviving entries before number i fill whole outputs. */
  ghost predicate EndsOutput(outputs: seq<seq<Entry>>, before: seq<Entry>) {
    exists n :: 0 <= n <= |outputs| && Concat(outputs[..n]) == before
  }

  /** Output n was closed because it had grown to the size limit, or because of the grandparents at its end. */
  ghost predicate ClosedFor(c: Compaction, input: seq<Entry>, smallestSnapshot: nat, outputs: seq<seq<Entry>>, n: nat,
      maxOutputFileSize: nat, sizeOf: seq<Entry> -> nat)
    requires n < |outputs|
  {
    || sizeOf(outputs[n]) >= maxOutputFileSize
    || exists i :: 0 <= i < |input| && StopsAt(c, input, i)
                   && Concat(outputs[..n + 1]) == Kept(input, i, smallestSnapshot, c.inputVersion, c.level)
  }

  /** No part of it from its beginning had grown to the size limit. */
  ghost predicate SmallBefore(o: seq<Entry>, n: nat, maxOutputFileSize: nat, sizeOf: seq<Entry> -> nat)
    requires n <= |o| + 1
  {
    forall k :: 0 < k < n ==> sizeOf(o[..k]) < maxOutputFileSize
  }

  ghost predicate AllSmallBefore(outputs: seq<seq<Entry>>, maxOutputFileSize: nat, sizeOf: seq<Entry> -> nat) {
    forall o :: o in outputs ==> SmallBefore(o, |o|, maxOutputFileSize, sizeOf)
  }

  /** The grandparents end an output wherever they say so, among the first n keys. */
  ghost predicate StopsHeeded(c: Compaction, input: seq<Entry>, n: nat, smallestSnapshot: nat,
      outputs: seq<seq<Entry>>)
    requires n <= |input|
  {
    forall i :: 0 <= i < n && StopsAt(c, input, i) ==>
      EndsOutput(outputs, Kept(input, i, smallestSnapshot, c.inputVersion, c.level))
  }

  /** Where the outputs are cut, n keys having been shown to ShouldStopBefore. */
  ghost predicate CutSoFar(c: Compaction, input: seq<Entry>, n: nat, smallestSnapshot: nat, outputs: seq<seq<Entry>>,
      builder: seq<Entry>, maxOutputFileSize: nat, sizeOf: seq<Entry> -> nat)
    requires n <= |input|
  {
    && AllSmallBefore(outputs, maxOutputFileSize, sizeOf)
    && SmallBefore(builder, |builder| + 1, maxOutputFileSize, sizeOf)
    && (forall k :: 0 <= k < |outputs| ==>
          ClosedFor(c, input, smallestSnapshot, outputs, k, maxOutputFileSize, sizeOf))
    && StopsHeeded(c, input, n, smallestSnapshot, outputs)
  }

  /** The grandparent bytes counted when n keys have been shown to ShouldStopBefore. */
  ghost predicate BytesCounted(c: Compaction, input: seq<Entry>, n: nat)
    requires n <= |input|
    reads c
  {
    c.overlappedBytes ==
      if n == 0 then 0 else BytesBetween(c.grandparents, input[LastStop(c, input, n - 1)].ikey, input[n - 1].ikey)
  }
  /** One more output changes nothing about those before it. */
  lemma {:induction false} CutsRemain(c: Compaction, input: seq<Entry>, n: nat, smallestSnapshot: nat,
          outputs: seq<seq<Entry>>, o: seq<Entry>, maxOutputFileSize: nat, sizeOf: seq<Entry> -> nat)
    requires n <= |input| && StopsHeeded(c, input, n, smallestSnapshot, outputs)
    requires forall k :: 0 <= k < |outputs| ==>
               ClosedFor(c, input, smallestSnapshot, outputs, k, maxOutputFileSize, sizeOf)
    ensures StopsHeeded(c, input, n, smallestSnapshot, outputs + [o])
    ensures forall k :: 0 <= k < |outputs| ==>
              ClosedFor(c, input, smallestSnapshot, outputs + [o], k, maxOutputFileSize, sizeOf)
  {
    hide Kept, Concat, StopsAt;
    forall i | 0 <= i < n && StopsAt(c, input, i)
      ensures EndsOutput(outputs + [o], Kept(input, i, smallestSnapshot, c.inputVersion, c.level))
    {
      var m :| 0 <= m <= |outputs|
               && Concat(outputs[..m]) == Kept(input, i, smallestSnapshot, c.inputVersion, c.level);
      assert (outputs + [o])[..m] == outputs[..m];
    }
    forall k | 0 <= k < |outputs|
      ensures ClosedFor(c, input, smallestSnapshot, outputs + [o], k, maxOutputFileSize, sizeOf)
    {
      assert (outputs + [o])[..k + 1] == outputs[..k + 1];
      assert (outputs + [o])[k] == outputs[k];
      assert ClosedFor(c, input, smallestSnapshot, outputs, k, maxOutputFileSize, sizeOf);
    }
  }

  /** Key number i, a stop, ends the output that holds what survives before it. */
  lemma {:induction false} StopHeeded(c: Compaction, input: seq<Entry>, i: nat, smallestSnapshot: nat,
          outputs: seq<seq<Entry>>)
    requires i < |input| && StopsHeeded(c, input, i, smallestSnapshot, outputs)
    requires StopsAt(c, input, i) ==>
               Concat(outputs) == Kept(input, i, smallestSnapshot, c.inputVersion, c.level)
    ensures StopsHeeded(c, input, i + 1, smallestSnapshot, outputs)
  {
    hide Kept, Concat, StopsAt;
    assert outputs[..|outputs|] == outputs;
  }

  ghost function TotalAt(c: Compaction, input: seq<Entry>, i: nat): nat
    requires i < |input|
  {
    if i == 0 then 0
    else BytesBetween(c.grandparents, input[LastStop(c, input, i - 1)].ikey, input[i - 1].ikey)
         + BytesBetween(c.grandparents, input[i - 1].ikey, input[i].ikey)
  }

  /** The grandparent bytes counted up to key number i since the last stop, and what is left of the count after it. */
  lemma {:induction false} CountAt(c: Compaction, input: seq<Entry>, i: nat, total: nat)
    requires i < |input| && SortedEntries(input) && total == TotalAt(c, input, i)
    ensures StopsAt(c, input, i) <==> i > 0 && total > c.MaxGrandParentOverlapBytes()
    ensures (if StopsAt(c, input, i) then 0 else total)
         == BytesBetween(c.grandparents, input[LastStop(c, input, i)].ikey, input[i].ikey)
  {
    hide BytesBetween;
    BytesAtSelf(c.grandparents, input[i].ikey);
    if i > 0 {
      var j := LastStop(c, input, i - 1);
      BytesBetweenAdds(c.grandparents, input[j].ikey, input[i - 1].ikey, input[i].ikey);
    }
  }

  /** Close the current output if the grandparents say so: too many of their bytes since the last stop. */
  method CutBefore(c: Compaction, key: InternalKey, outputs: seq<seq<Entry>>, builder: seq<Entry>,
          ghost last: Option<InternalKey>)
    returns (outputs2: seq<seq<Entry>>, builder2: seq<Entry>, ghost stop: bool)
    requires SortedByLargest(c.grandparents) && Progress(c, outputs, builder, last)
    requires last.Some? ==> AtMost(last.value, key)
    modifies c`grandparentIndex, c`seenKey, c`overlappedBytes
    ensures Progress(c, outputs2, builder2, Some(key))
    ensures Concat(outputs2) + builder2 == Concat(outputs) + builder
    ensures var total := old(c.overlappedBytes) +
                         (if last.Some? then BytesBetween(c.grandparents, last.value, key) else 0);
            stop == (total > c.MaxGrandParentOverlapBytes()) && c.overlappedBytes == if stop then 0 else total
    ensures (outputs2, builder2) == if stop && builder != [] then (outputs + [builder], []) else (outputs, builder)
  {
    outputs2, builder2 := outputs, builder;
    ghost var prev := if last.Some? then last.value else key;
    if builder != [] {
      CountedIsBounded(c, builder, prev);
      BytesBetweenAdds(c.grandparents, FirstKey(builder), prev, key);
    }
    var stopHere := c.ShouldStopBefore(key, prev);
    stop := stopHere;
    if stopHere && builder != [] {
      ConcatAppend(outputs, builder);
      outputs2, builder2 := outputs + [builder], [];
    }
  }

  /** Cutting before key number i, because it is a stop and for nothing else. */
  lemma {:induction false} CutIsHeeded(c: Compaction, input: seq<Entry>, i: nat, smallestSnapshot: nat,
          outputs: seq<seq<Entry>>, builder: seq<Entry>, outputs2: seq<seq<Entry>>, builder2: seq<Entry>,
          maxOutputFileSize: nat, sizeOf: seq<Entry> -> nat)
    requires i < |input| && CutSoFar(c, input, i, smallestSnapshot, outputs, builder, maxOutputFileSize, sizeOf)
    requires Concat(outputs) + builder == Kept(input, i, smallestSnapshot, c.inputVersion, c.level)
    requires (outputs2, builder2) == if StopsAt(c, input, i) && builder != [] then (outputs + [builder], [])
                                     else (outputs, builder)
    ensures CutSoFar(c, input, i + 1, smallestSnapshot, outputs2, builder2, maxOutputFileSize, sizeOf)
  {
    hide Kept, Concat, StopsAt, StopsHeeded;
    if StopsAt(c, input, i) && builder != [] {
      CutsRemain(c, input, i, smallestSnapshot, outputs, builder, maxOutputFileSize, sizeOf);
      ConcatAppend(outputs, builder);
      assert outputs2[..|outputs| + 1] == outputs2;
    } else if builder == [] {
      assert Concat(outputs) + [] == Concat(outputs);
    }
    StopHeeded(c, input, i, smallestSnapshot, outputs2);
  }

  /** The builder with one more entry, kept open or closed. */
  lemma {:induction false} AddedKeepsProgress(c: Compaction, e: Entry, outputs: seq<seq<Entry>>, builder: seq<Entry>)
    requires Progress(c, outputs, builder, Some(e.ikey))
    ensures Progress(c, outputs, builder + [e], Some(e.ikey))
    ensures Progress(c, outputs + [builder + [e]], [], Some(e.ikey))
  {
    hide BytesBetween;
    BytesAtSelf(c.grandparents, e.ikey);
    CountedIsBounded(c, builder + [e], e.ikey);
  }

  lemma {:induction false} AddedIsSmallBefore(e: Entry, outputs: seq<seq<Entry>>, builder: seq<Entry>,
          maxOutputFileSize: nat, sizeOf: seq<Entry> -> nat)
    requires AllSmallBefore(outputs, maxOutputFileSize, sizeOf)
    requires SmallBefore(builder, |builder| + 1, maxOutputFileSize, sizeOf)
    ensures AllSmallBefore(outputs + [builder + [e]], maxOutputFileSize, sizeOf)
    ensures sizeOf(builder + [e]) < maxOutputFileSize ==>
              SmallBefore(builder + [e], |builder| + 2, maxOutputFileSize, sizeOf)
    ensures SmallBefore([], 1, maxOutputFileSize, sizeOf)
  {
    var o := builder + [e];
    assert forall k :: 0 < k <= |builder| ==> o[..k] == builder[..k];
    assert o[..|o|] == o;
  }

  /** Add a surviving entry, and close the output if that makes it big enough. */
  method AddToOutput(c: Compaction, e: Entry, outputs: seq<seq<Entry>>, builder: seq<Entry>, maxOutputFileSize: nat,
          sizeOf: seq<Entry> -> nat)
    returns (outputs2: seq<seq<Entry>>, builder2: seq<Entry>)
    requires Progress(c, outputs, builder, Some(e.ikey))
    requires AllSmallBefore(outputs, maxOutputFileSize, sizeOf)
    requires SmallBefore(builder, |builder| + 1, maxOutputFileSize, sizeOf)
    ensures Progress(c, outputs2, builder2, Some(e.ikey))
    ensures Concat(outputs2) + builder2 == Concat(outputs) + builder + [e]
    ensures AllSmallBefore(outputs2, maxOutputFileSize, sizeOf)
    ensures SmallBefore(builder2, |builder2| + 1, maxOutputFileSize, sizeOf)
    ensures outputs2 != outputs ==>
              |outputs2| == |outputs| + 1 && outputs2[..|outputs|] == outputs && builder2 == []
              && sizeOf(outputs2[|outputs|]) >= maxOutputFileSize
  {
    hide *;
    outputs2, builder2 := outputs, builder + [e];
    AddedKeepsProgress(c, e, outputs, builder);
    AddedIsSmallBefore(e, outputs, builder, maxOutputFileSize, sizeOf);
    if sizeOf(builder2) >= maxOutputFileSize {
      ConcatAppend(outputs, builder2);
      outputs2, builder2 := outputs + [builder2], [];
    }
  }

  /** What adding an entry may have closed, it closed for its size. */
  lemma {:induction false} SizeIsReason(c: Compaction, input: seq<Entry>, n: nat, smallestSnapshot: nat,
          outputs: seq<seq<Entry>>, builder: seq<Entry>, outputs2: seq<seq<Entry>>, builder2: seq<Entry>,
          maxOutputFileSize: nat, sizeOf: seq<Entry> -> nat)
    requires n <= |input| && CutSoFar(c, input, n, smallestSnapshot, outputs, builder, maxOutputFileSize, sizeOf)
    requires AllSmallBefore(outputs2, maxOutputFileSize, sizeOf)
    requires SmallBefore(builder2, |builder2| + 1, maxOutputFileSize, sizeOf)
    requires outputs2 != outputs ==>
              |outputs2| == |outputs| + 1 && outputs2[..|outputs|] == outputs
              && sizeOf(outputs2[|outputs|]) >= maxOutputFileSize
    ensures CutSoFar(c, input, n, smallestSnapshot, outputs2, builder2, maxOutputFileSize, sizeOf)
  {
    hide Kept, Concat, StopsAt, StopsHeeded, AllSmallBefore, SmallBefore;
    if outputs2 != outputs {
      CutsRemain(c, input, n, smallestSnapshot, outputs, outputs2[|outputs|], maxOutputFileSize, sizeOf);
      assert outputs2 == outputs + [outputs2[|outputs|]];
    }
  }

  /** The output that the end of the input closes. */
  lemma {:induction false} LastOutput(c: Compaction, input: seq<Entry>, smallestSnapshot: nat,
          outputs: seq<seq<Entry>>, builder: seq<Entry>, maxOutputFileSize: nat, sizeOf: seq<Entry> -> nat)
    requires CutSoFar(c, input, |input|, smallestSnapshot, outputs, builder, maxOutputFileSize, sizeOf)
    ensures AllSmallBefore(outputs + [builder], maxOutputFileSize, sizeOf)
    ensures forall k :: 0 <= k < |outputs| ==>
              ClosedFor(c, input, smallestSnapshot, outputs + [builder], k, maxOutputFileSize, sizeOf)
    ensures StopsHeeded(c, input, |input|, smallestSnapshot, outputs + [builder])
  {
    hide Kept, Concat, StopsAt, StopsHeeded;
    CutsRemain(c, input, |input|, smallestSnapshot, outputs, builder, maxOutputFileSize, sizeOf);
  }

  lemma {:induction false} NothingCut(c: Compaction, input: seq<Entry>, smallestSnapshot: nat, maxOutputFileSize: nat,
          sizeOf: seq<Entry> -> nat)
    ensures CutSoFar(c, input, 0, smallestSnapshot, [], [], maxOutputFileSize, sizeOf)
    ensures Concat([]) + [] == Kept(input, 0, smallestSnapshot, c.inputVersion, c.level)
  {
  }

  lemma {:induction false} KeptNext(input: seq<Entry>, i: nat, smallestSnapshot: nat, v: Levels, level: nat)
    requires i < |input|
    ensures Kept(input, i + 1, smallestSnapshot, v, level)
         == Kept(input, i, smallestSnapshot, v, level)
              + if Dropped(input, i, smallestSnapshot, v, level) then [] else [input[i]]
  {
  }

  /** Whether entry number i is dropped; `lastSequenceForKey` comes from the entry before it of the same user key. */
  method ShouldDrop(c: Compaction, input: seq<Entry>, i: nat, lastSequenceForKey: nat, smallestSnapshot: nat)
    returns (drop: bool)
    requires i < |input| && c.SortedLevels() && c.CursorsBefore(input[i].ikey.user) && smallestSnapshot < MAX_SEQUENCE
    requires lastSequenceForKey == if i > 0 && input[i - 1].ikey.user == input[i].ikey.user then input[i - 1].ikey.seqno
                                   else MAX_SEQUENCE
    modifies c`levelPtrs
    ensures c.CursorsBefore(input[i].ikey.user)
    ensures drop <==> Dropped(input, i, smallestSnapshot, c.inputVersion, c.level)
  {
    var e := input[i];
    drop := false;
    if lastSequenceForKey <= smallestSnapshot {
      drop := true;
    } else if e.ikey.kind.Deletion? && e.ikey.seqno <= smallestSnapshot {
      drop := c.IsBaseLevelForKey(e.ikey.user);
    }
  }

  /**
   The compaction loop. `sizeOf` stands for the file size the table builder reports. The outputs hold exactly
   the surviving entries, in order, and each output overlaps a bounded number of grandparent bytes. An output is
   closed as soon as it has grown to the size limit or the grandparents say so, and but for the last one only then.
   */
  method DoCompactionWork(c: Compaction, input: seq<Entry>, smallestSnapshot: nat, maxOutputFileSize: nat,
          sizeOf: seq<Entry> -> nat)
    returns (outputs: seq<seq<Entry>>)
    requires c.Fresh() && c.SortedLevels() && SortedByLargest(c.grandparents)
    requires SortedEntries(input) && smallestSnapshot < MAX_SEQUENCE
    modifies c
    ensures Concat(outputs) == Kept(input, |input|, smallestSnapshot, c.inputVersion, c.level)
    ensures AllBounded(c, outputs)
    ensures AllSmallBefore(outputs, maxOutputFileSize, sizeOf)
    ensures forall k :: 0 <= k < |outputs| - 1 ==>
              ClosedFor(c, input, smallestSnapshot, outputs, k, maxOutputFileSize, sizeOf)
    ensures StopsHeeded(c, input, |input|, smallestSnapshot, outputs)
  {
    hide BytesBetween, LastStop, StopsAt, ClosedFor, StopsHeeded, AllSmallBefore, SmallBefore, Kept, Concat, Dropped;
    NothingCut(c, input, smallestSnapshot, maxOutputFileSize, sizeOf);
    outputs := [];
    var builder: seq<Entry> := [];
    var hasCurrentUserKey, currentUserKey, lastSequenceForKey := false, 0, MAX_SEQUENCE;
    ghost var last: Option<InternalKey> := None;
    var i := 0;
    while i < |input|
      invariant 0 <= i <= |input|
      invariant Concat(outputs) + builder == Kept(input, i, smallestSnapshot, c.inputVersion, c.level)
      invariant Progress(c, outputs, builder, last) && BytesCounted(c, input, i)
      invariant CutSoFar(c, input, i, smallestSnapshot, outputs, builder, maxOutputFileSize, sizeOf)
      invariant last == if i == 0 then None else Some(input[i - 1].ikey)
      invariant hasCurrentUserKey == (i > 0)
      invariant i > 0 ==> currentUserKey == input[i - 1].ikey.user && lastSequenceForKey == input[i - 1].ikey.seqno
      invariant i < |input| ==> c.CursorsBefore(input[i].ikey.user)
    {
      var e := input[i];
      ghost var cut, open := outputs, builder;
      ghost var total := TotalAt(c, input, i);
      ghost var stop;
      outputs, builder, stop := CutBefore(c, e.ikey, outputs, builder, last);
      CountAt(c, input, i, total);
      CutIsHeeded(c, input, i, smallestSnapshot, cut, open, outputs, builder, maxOutputFileSize, sizeOf);

      if !hasCurrentUserKey || e.ikey.user != currentUserKey {
        currentUserKey, hasCurrentUserKey, lastSequenceForKey := e.ikey.user, true, MAX_SEQUENCE;
      }
      var drop := ShouldDrop(c, input, i, lastSequenceForKey, smallestSnapshot);
      lastSequenceForKey := e.ikey.seqno;

      if !drop {
        cut, open := outputs, builder;
        outputs, builder := AddToOutput(c, e, outputs, builder, maxOutputFileSize, sizeOf);
        SizeIsReason(c, input, i + 1, smallestSnapshot, cut, open, outputs, builder, maxOutputFileSize, sizeOf);
      }
      KeptNext(input, i, smallestSnapshot, c.inputVersion, c.level);
      last := Some(e.ikey);
      i := i + 1;
    }
    if builder != [] {
      CountedIsBounded(c, builder, last.value);
      ConcatAppend(outputs, builder);
      LastOutput(c, input, smallestSnapshot, outputs, builder, maxOutputFileSize, sizeOf);
      outputs := outputs + [builder];
    }
  }
}
