/**
 The manifest as a history of edits: VersionSet::LogAndApply, WriteSnapshot and Recover.
 */
module ManifestReplay {
  import opened Entries
  import opened Files
  import opened Coding
  import opened LogFormat
  import opened LogReader
  import opened LogRoundTrip
  import opened VersionEdits
  import opened VersionBuilder
  import opened Manifest

  // ----- what a list of edits means

  /** A version with its compaction pointers and the numbers a manifest carries. */
  datatype State = State(levels: MetaLevels, pointers: Pointers, numbers: NumberState)

  datatype NumberState = NumberState(logNumber: Option<nat>, prevLogNumber: Option<nat>, nextFile: Option<nat>,
      lastSequence: Option<nat>)

  const NO_NUMBERS := NumberState(None, None, None, None)

  function Fresh(): State {
    State(seq(NUM_LEVELS, _ => []), seq(NUM_LEVELS, _ => None), NO_NUMBERS)
  }

  function Override(prior: Option<nat>, n: Option<nat>): Option<nat> {
    if n.Some? then n else prior
  }

  function ApplyNumbers(s: NumberState, e: Edit): NumberState {
    NumberState(Override(s.logNumber, e.logNumber), Override(s.prevLogNumber, e.prevLogNumber),
                Override(s.nextFile, e.nextFile), Override(s.lastSequence, e.lastSequence))
  }

  function ApplyPointers(p: Pointers, cps: seq<(nat, InternalKey)>): (r: Pointers)
    ensures |r| == |p|
  {
    if cps == [] then p
    else
      var before, last := ApplyPointers(p, cps[..|cps| - 1]), cps[|cps| - 1];
      if last.0 < |p| then before[last.0 := Some(last.1)] else before
  }

  function ApplyLevels(levels: MetaLevels, e: Edit): MetaLevels {
    seq(|levels|, l requires 0 <= l < |levels| => Saved(levels[l], AddedAfter([], e, l), DeletedAfter({}, e, l)))
  }

  /** One edit through its own Apply and SaveTo. */
  function ApplyEdit(s: State, e: Edit): State {
    State(ApplyLevels(s.levels, e), ApplyPointers(s.pointers, e.compactPointers), ApplyNumbers(s.numbers, e))
  }

  /** The history: edit after edit. */
  function History(s: State, edits: seq<Edit>): State {
    if edits == [] then s else ApplyEdit(History(s, edits[..|edits| - 1]), edits[|edits| - 1])
  }

  function AllPointers(p: Pointers, edits: seq<Edit>): Pointers {
    if edits == [] then p else ApplyPointers(AllPointers(p, edits[..|edits| - 1]), edits[|edits| - 1].compactPointers)
  }

  function AllNumbers(s: NumberState, edits: seq<Edit>): NumberState {
    if edits == [] then s else ApplyNumbers(AllNumbers(s, edits[..|edits| - 1]), edits[|edits| - 1])
  }

  /** One builder for all edits. */
  function Replayed(edits: seq<Edit>): State {
    State(seq(NUM_LEVELS, l requires 0 <= l < NUM_LEVELS => SavedOnce([], edits, l)),
        AllPointers(Fresh().pointers, edits), AllNumbers(NO_NUMBERS, edits))
  }

  lemma {:induction false} HistoryParts(s: State, edits: seq<Edit>)
    ensures var h := History(s, edits);
            && |h.levels| == |s.levels|
            && (forall l :: 0 <= l < |s.levels| ==> h.levels[l] == SavedEach(s.levels[l], edits, l))
            && h.pointers == AllPointers(s.pointers, edits) && h.numbers == AllNumbers(s.numbers, edits)
  {
    if edits != [] {
      HistoryParts(s, edits[..|edits| - 1]);
    }
  }

  /** Each (level, file number) pair is added at most once. */
  predicate AddsOnce(levels: MetaLevels, edits: seq<Edit>) {
    forall l :: 0 <= l < |levels| ==> AddedOnce(levels[l], edits, l)
  }

  predicate OrderedLevels(levels: MetaLevels) {
    |levels| == NUM_LEVELS && forall l :: 0 <= l < NUM_LEVELS ==> Ordered(levels[l])
  }

  /** Replaying a manifest through one builder gives the state its edits produced one by one. */
  lemma {:induction false} ReplayIsHistory(edits: seq<Edit>)
    requires AddsOnce(Fresh().levels, edits)
    ensures Replayed(edits) == History(Fresh(), edits)
  {
    HistoryParts(Fresh(), edits);
    forall l | 0 <= l < NUM_LEVELS ensures SavedOnce([], edits, l) == SavedEach([], edits, l) {
      assert AddedOnce(Fresh().levels[l], edits, l);
      ReplayEqualsHistory([], edits, l);
    }
    assert Replayed(edits).levels == History(Fresh(), edits).levels;
  }

  // ----- snapshots

  function PointerList(p: Pointers, n: nat): seq<(nat, InternalKey)>
    requires n <= |p|
  {
    if n == 0 then []
    else PointerList(p, n - 1) + if p[n - 1].Some? then [(n - 1, p[n - 1].value)] else []
  }

  function LevelFiles(files: seq<Meta>, level: nat): seq<(nat, Meta)> {
    seq(|files|, i requires 0 <= i < |files| => (level, files[i]))
  }

  function FileList(levels: MetaLevels, n: nat): seq<(nat, Meta)>
    requires n <= |levels|
  {
    if n == 0 then [] else FileList(levels, n - 1) + LevelFiles(levels[n - 1], n - 1)
  }

  /** The edit VersionSet::WriteSnapshot writes. */
  function SnapshotEdit(name: Bytes, levels: MetaLevels, p: Pointers): Edit {
    EMPTY_EDIT.(comparator := Some(name), compactPointers := PointerList(p, |p|), added := FileList(levels, |levels|))
  }

  lemma {:induction false} LevelFilesAt(files: seq<Meta>, level: nat, l: nat)
    ensures AddsAt(LevelFiles(files, level), l) == if l == level then files else []
  {
    if files != [] {
      var n := |files| - 1;
      LevelFilesAt(files[..n], level, l);
      assert LevelFiles(files, level)[..n] == LevelFiles(files[..n], level);
      assert files == files[..n] + [files[n]];
    }
  }

  lemma {:induction false} AddsAtAppend(a: seq<(nat, Meta)>, b: seq<(nat, Meta)>, l: nat)
    ensures AddsAt(a + b, l) == AddsAt(a, l) + AddsAt(b, l)
  {
    if b == [] {
      assert a + b == a;
    } else {
      AddsAtAppend(a, b[..|b| - 1], l);
      assert (a + b)[..|a + b| - 1] == a + b[..|b| - 1];
    }
  }

  lemma {:induction false} FileListAt(levels: MetaLevels, n: nat, l: nat)
    requires n <= |levels|
    ensures AddsAt(FileList(levels, n), l) == if l < n then levels[l] else []
  {
    if n > 0 {
      hide AddsAt;
      hide LevelFiles;
      FileListAt(levels, n - 1, l);
      AddsAtAppend(FileList(levels, n - 1), LevelFiles(levels[n - 1], n - 1), l);
      LevelFilesAt(levels[n - 1], n - 1, l);
      if l < n - 1 {
        assert levels[l] + [] == levels[l];
      } else if l == n - 1 {
        assert [] + levels[l] == levels[l];
      }
    } else {
      assert FileList(levels, n) == [];
    }
  }

  lemma {:induction false} PointerListApplies(p: Pointers, q: Pointers, n: nat)
    requires n <= |p| == |q|
    ensures ApplyPointers(q, PointerList(p, n)) ==
              seq(|p|, l requires 0 <= l < |p| => if l < n && p[l].Some? then p[l] else q[l])
  {
    if n > 0 {
      PointerListApplies(p, q, n - 1);
      var before := PointerList(p, n - 1);
      if p[n - 1].Some? {
        assert (before + [(n - 1, p[n - 1].value)])[..|before|] == before;
      } else {
        assert before + [] == before;
      }
    }
  }

  /** Applied to nothing, the snapshot edit is the version and its pointers. */
  lemma {:induction false} SnapshotIsState(name: Bytes, levels: MetaLevels, p: Pointers)
    requires OrderedLevels(levels) && |p| == NUM_LEVELS && forall l :: 0 <= l < NUM_LEVELS ==> DistinctMetas(levels[l])
    ensures ApplyEdit(Fresh(), SnapshotEdit(name, levels, p)) == State(levels, p, NO_NUMBERS)
  {
    var e := SnapshotEdit(name, levels, p);
    PointerListApplies(p, Fresh().pointers, |p|);
    assert ApplyPointers(Fresh().pointers, e.compactPointers) == p;
    forall l | 0 <= l < NUM_LEVELS ensures Saved([], AddedAfter([], e, l), DeletedAfter({}, e, l)) == levels[l] {
      FileListAt(levels, |levels|, l);
      OneEditAdds(e, l);
      SavedMeans([], AddedAfter([], e, l), DeletedAfter({}, e, l));
      assert forall m :: m in AddedAfter([], e, l) <==> m in Elems(AddedAfter([], e, l));
      assert forall m :: m in levels[l] <==> m in Elems(levels[l]);
      OrderedUnique(Saved([], AddedAfter([], e, l), DeletedAfter({}, e, l)), levels[l]);
    }
    assert ApplyLevels(Fresh().levels, e) == levels;
  }

  lemma {:induction false} SamePointersTwice(p: Pointers, cps: seq<(nat, InternalKey)>)
    ensures ApplyPointers(ApplyPointers(p, cps), cps) == ApplyPointers(p, cps)
  {
    forall l | 0 <= l < |p| ensures ApplyPointers(ApplyPointers(p, cps), cps)[l] == ApplyPointers(p, cps)[l] {
      LastPointer(p, ApplyPointers(p, cps), cps, l);
    }
  }

  /** A level's pointer after a list of pointers is the last one given, whatever was there before, or what was there. */
  lemma {:induction false} LastPointer(p: Pointers, q: Pointers, cps: seq<(nat, InternalKey)>, l: nat)
    requires l < |p| == |q|
    ensures ApplyPointers(p, cps)[l] == ApplyPointers(q, cps)[l]
        || (ApplyPointers(p, cps)[l] == p[l] && ApplyPointers(q, cps)[l] == q[l])
  {
    if cps != [] {
      LastPointer(p, q, cps[..|cps| - 1], l);
    }
  }

  // ----- decoding a manifest

  function EncodeAll(c: KeyCodec, edits: seq<Edit>): seq<Bytes> {
    seq(|edits|, i requires 0 <= i < |edits| => Encode(c, edits[i]))
  }

  function DecodeAll(c: KeyCodec, records: seq<Bytes>): Option<seq<Edit>> {
    if records == [] then Some([])
    else
      var before := DecodeAll(c, records[..|records| - 1]);
      var last := DecodeRest(c, EMPTY_EDIT, records[|records| - 1]);
      if before.Some? && last.Some? then Some(before.value + [last.value]) else None
  }

  predicate AllValid(c: KeyCodec, edits: seq<Edit>) {
    forall e :: e in edits ==> ValidEdit(c, e)
  }

  lemma {:induction false} DecodesAll(c: KeyCodec, edits: seq<Edit>)
    requires GoodCodec(c) && AllValid(c, edits)
    ensures DecodeAll(c, EncodeAll(c, edits)) == Some(edits)
  {
    hide Encode;
    hide DecodeRest;
    hide ValidEdit;
    if edits != [] {
      var n := |edits| - 1;
      DecodesAll(c, edits[..n]);
      assert EncodeAll(c, edits)[..n] == EncodeAll(c, edits[..n]);
      DecodeInvertsEncode(c, EMPTY_EDIT, edits[n]);
      assert [] + edits[n].compactPointers == edits[n].compactPointers;
      assert edits == edits[..n] + [edits[n]];
    }
  }

  lemma {:induction false} InsertPairMembers(s: seq<(nat, nat)>, p: (nat, nat))
    ensures forall q :: q in InsertPair(s, p) ==> q in s || q == p
  {
    if s != [] {
      InsertPairMembers(s[..|s| - 1], p);
    }
  }

  /** DecodeFrom only yields levels below kNumLevels. */
  lemma {:induction false} DecodedLevels(c: KeyCodec, e: Edit, b: Bytes)
    requires LevelsInRange(e) && DecodeRest(c, e, b).Some?
    ensures LevelsInRange(DecodeRest(c, e, b).value)
    decreases |b|
  {
    match GetVarint32(b)
    case None =>
    case Some((tag, b1)) =>
      match GetBody(c, tag, b1)
      case None =>
      case Some((f, rest)) =>
        FieldLevels(c, tag, b1);
        AppliedLevels(e, f);
        DecodedLevels(c, ApplyField(e, f), rest);
  }

  predicate FieldInRange(f: Field) {
    match f
    case CompactPointer(level, _) => level < NUM_LEVELS
    case Deleted(level, _) => level < NUM_LEVELS
    case NewFile(level, _) => level < NUM_LEVELS
    case _ => true
  }

  lemma {:induction false} FieldLevels(c: KeyCodec, tag: nat, b: Bytes)
    ensures GetBody(c, tag, b).Some? ==> FieldInRange(GetBody(c, tag, b).value.0)
  {
    hide GetVarint32;
    hide GetVarint64;
    hide GetSlice;
    hide GetMeta;
    hide GetKey;
  }

  lemma {:induction false} AppliedLevels(e: Edit, f: Field)
    requires LevelsInRange(e) && FieldInRange(f)
    ensures LevelsInRange(ApplyField(e, f))
  {
    if f.Deleted? {
      InsertPairMembers(e.deleted, (f.level, f.number));
    }
  }

  // ----- VersionSet::Recover

  predicate SameComparator(name: Bytes, edits: seq<Edit>) {
    forall e :: e in edits && e.comparator.Some? ==> e.comparator.value == name
  }

  /** The state Recover installs, or None when it returns an error status. */
  function RecoverResult(name: Bytes, decoded: Option<seq<Edit>>): Option<State> {
    if decoded.None? || !SameComparator(name, decoded.value) then None
    else
      var s := Replayed(decoded.value);
      if s.numbers.nextFile.None? || s.numbers.logNumber.None? || s.numbers.lastSequence.None? then None
      else Some(s.(numbers := WithPrevLog(s.numbers)))
  }

  /** A manifest that never gave prev_log_number means 0. */
  function WithPrevLog(n: NumberState): NumberState {
    if n.prevLogNumber.Some? then n else n.(prevLogNumber := Some(0))
  }

  lemma {:induction false} ReplayedSnoc(edits: seq<Edit>, e: Edit)
    ensures forall l :: AddedBy(edits + [e], l) == AddedAfter(AddedBy(edits, l), e, l)
    ensures forall l :: DeletedBy(edits + [e], l) == DeletedAfter(DeletedBy(edits, l), e, l)
    ensures AllPointers(Fresh().pointers, edits + [e]) ==
        ApplyPointers(AllPointers(Fresh().pointers, edits), e.compactPointers)
    ensures AllNumbers(NO_NUMBERS, edits + [e]) == ApplyNumbers(AllNumbers(NO_NUMBERS, edits), e)
  {
    assert (edits + [e])[..|edits|] == edits;
  }

  /** Builder::Apply's update of compact_pointer_. */
  method SetPointers(p: Pointers, cps: seq<(nat, InternalKey)>) returns (r: Pointers)
    requires |p| == NUM_LEVELS && forall q :: q in cps ==> q.0 < NUM_LEVELS
    ensures r == ApplyPointers(p, cps)
  {
    r := p;
    for i := 0 to |cps|
      invariant r == ApplyPointers(p, cps[..i]) && |r| == NUM_LEVELS
    {
      assert cps[i] in cps && cps[..i + 1][..i] == cps[..i];
      r := r[cps[i].0 := Some(cps[i].1)];
    }
    assert cps[..|cps|] == cps;
  }

  /** What the builder holds after the edits so far. */
  ghost predicate Accumulated(b: Builder, edits: seq<Edit>)
    reads b
  {
    && b.Valid() && b.base == Fresh().levels
    && forall l :: 0 <= l < NUM_LEVELS ==> b.added[l] == AddedBy(edits, l) && b.deleted[l] == DeletedBy(edits, l)
  }

  /** One record of Recover's loop: decode it, check the comparator, apply it. */
  method ApplyRecord(c: KeyCodec, name: Bytes, b: Builder, p: Pointers, record: Bytes, ghost edits: seq<Edit>)
    returns (ok: bool, p2: Pointers, e: Edit)
    requires Accumulated(b, edits) && p == AllPointers(Fresh().pointers, edits) && |p| == NUM_LEVELS
    modifies b
    ensures var d := DecodeRest(c, EMPTY_EDIT, record);
            ok == (d.Some? && (d.value.comparator.Some? ==> d.value.comparator.value == name)) && (ok ==> e == d.value)
    ensures ok ==> Accumulated(b, edits + [e]) && p2 == AllPointers(Fresh().pointers, edits + [e]) && |p2| == NUM_LEVELS
  {
    var edit := new VersionEdit();
    ok := edit.DecodeFrom(c, record);
    e, p2 := edit.State(), p;
    assert Cleared(EMPTY_EDIT) == EMPTY_EDIT;
    if ok && edit.comparator.Some? && edit.comparator.value != name {
      ok := false;
    }
    if ok {
      DecodedLevels(c, EMPTY_EDIT, record);
      ReplayedSnoc(edits, e);
      b.Apply(e);
      p2 := SetPointers(p, e.compactPointers);
    }
  }

  /** The loop of VersionSet::Recover over the records of the manifest, and the checks after it. */
  method RecoverRecords(c: KeyCodec, name: Bytes, records: seq<Bytes>) returns (r: Option<State>)
    ensures r == RecoverResult(name, DecodeAll(c, records))
  {
    var b := new Builder(Fresh().levels);
    var p := seq(NUM_LEVELS, _ => None);
    var numbers := NO_NUMBERS;
    ghost var edits: seq<Edit> := [];
    assert p == Fresh().pointers;
    for i := 0 to |records|
      invariant fresh(b) && Accumulated(b, edits) && p == AllPointers(Fresh().pointers, edits) && |p| == NUM_LEVELS
      invariant numbers == AllNumbers(NO_NUMBERS, edits)
      invariant DecodeAll(c, records[..i]) == Some(edits) && SameComparator(name, edits)
    {
      assert records[..i + 1][..i] == records[..i];
      var ok, p2, e := ApplyRecord(c, name, b, p, records[i], edits);
      if !ok {
        BadRecord(c, name, records, i);
        return None;
      }
      ReplayedSnoc(edits, e);
      p, edits := p2, edits + [e];
      numbers := NumberState(Override(numbers.logNumber, e.logNumber), Override(numbers.prevLogNumber, e.prevLogNumber),
                             Override(numbers.nextFile, e.nextFile), Override(numbers.lastSequence, e.lastSequence));
    }
    assert records[..|records|] == records;
    if numbers.nextFile.None? || numbers.logNumber.None? || numbers.lastSequence.None? {
      return None;
    }
    if numbers.prevLogNumber.None? {
      numbers := numbers.(prevLogNumber := Some(0));
    }
    var levels := b.SaveTo();
    assert levels == Replayed(edits).levels;
    r := Some(State(levels, p, numbers));
  }

  lemma {:induction false} BadRecord(c: KeyCodec, name: Bytes, records: seq<Bytes>, i: nat)
    requires i < |records|
    requires var d := DecodeRest(c, EMPTY_EDIT, records[i]);
             d.None? || (d.value.comparator.Some? && d.value.comparator.value != name)
    ensures RecoverResult(name, DecodeAll(c, records)) == None
  {
    DecodedMember(c, records, i);
  }

  lemma {:induction false} DecodedMember(c: KeyCodec, records: seq<Bytes>, i: nat)
    requires i < |records|
    ensures DecodeAll(c, records).Some? ==>
              DecodeRest(c, EMPTY_EDIT, records[i]).Some?
                  && DecodeRest(c, EMPTY_EDIT, records[i]).value in DecodeAll(c, records).value
  {
    if i < |records| - 1 {
      DecodedMember(c, records[..|records| - 1], i);
    }
  }

  /** VersionSet::Recover over the bytes of the manifest that CURRENT names. */
  method Recover(c: KeyCodec, crc: Crc, name: Bytes, file: Bytes) returns (r: Option<State>)
    ensures r == RecoverResult(name, DecodeAll(c, ReadAll(Reading(crc, file, 0), |file|, StartBlock(0), false, 0)))
  {
    var records, _ := ReadLog(crc, file, 0);
    r := RecoverRecords(c, name, records);
  }

  /** Each of the three counters Recover insists on occurs in some record. */
  predicate CountersGiven(edits: seq<Edit>) {
    && (exists e :: e in edits && e.nextFile.Some?)
    && (exists e :: e in edits && e.logNumber.Some?)
    && (exists e :: e in edits && e.lastSequence.Some?)
  }

  lemma {:induction false} NumbersGiven(edits: seq<Edit>)
    ensures var n := AllNumbers(NO_NUMBERS, edits);
            && (n.nextFile.Some? <==> exists e :: e in edits && e.nextFile.Some?)
            && (n.logNumber.Some? <==> exists e :: e in edits && e.logNumber.Some?)
            && (n.lastSequence.Some? <==> exists e :: e in edits && e.lastSequence.Some?)
  {
    if edits != [] {
      var front, last := edits[..|edits| - 1], edits[|edits| - 1];
      NumbersGiven(front);
      assert forall e :: e in edits <==> e in front || e == last by {
        assert edits == front + [last];
      }
    }
  }

  /**
   A manifest whose last records may be cut off: recovery succeeds exactly when the whole records name no other
   comparator and give all three counters, and then yields the state those records produced one by one.
   */
  lemma {:induction false} RecoversHistory(c: KeyCodec, crc: Crc, name: Bytes, edits: seq<Edit>, n: nat, m: nat)
    requires GoodCodec(c) && AllValid(c, edits)
    requires n <= |LogBytes(crc, EncodeAll(c, edits))| && WhollyInside(Starts(crc, EncodeAll(c, edits)), n, m)
    requires AddsOnce(Fresh().levels, edits[..m])
    ensures var file := LogBytes(crc, EncodeAll(c, edits))[..n];
            var r := RecoverResult(name, DecodeAll(c, ReadAll(Reading(crc, file, 0), n, StartBlock(0), false, 0)));
            var h := History(Fresh(), edits[..m]);
            && (r.Some? <==> SameComparator(name, edits[..m]) && CountersGiven(edits[..m]))
            && (r.Some? ==>
                  && r.value.levels == h.levels && r.value.pointers == h.pointers
                  && r.value.numbers == WithPrevLog(h.numbers))
  {
    hide Encode;
    hide DecodeRest;
    hide ValidEdit;
    hide LogBytes;
    hide History;
    hide ReadAll;
    hide SameComparator;
    hide CountersGiven;
    TornLogReadsWholeRecords(crc, EncodeAll(c, edits), n, m);
    assert EncodeAll(c, edits)[..m] == EncodeAll(c, edits[..m]);
    DecodesAll(c, edits[..m]);
    ReplayIsHistory(edits[..m]);
    ReplayedCounters(edits[..m]);
    hide Replayed;
  }

  lemma {:induction false} ReplayedCounters(edits: seq<Edit>)
    ensures var n := Replayed(edits).numbers;
            CountersGiven(edits) <==> n.nextFile.Some? && n.logNumber.Some? && n.lastSequence.Some?
  {
    NumbersGiven(edits);
  }

  // ----- VersionSet::LogAndApply

  predicate GoodLevels(c: KeyCodec, levels: MetaLevels) {
    && OrderedLevels(levels)
    && forall l :: 0 <= l < NUM_LEVELS ==> DistinctMetas(levels[l]) && forall m :: m in levels[l] ==> ValidMeta(c, m)
  }

  predicate PointersFit(c: KeyCodec, p: Pointers) {
    |p| == NUM_LEVELS && forall l :: 0 <= l < NUM_LEVELS && p[l].Some? ==> Fits(c, p[l].value)
  }

  lemma {:induction false} AppliedPointersFit(c: KeyCodec, p: Pointers, cps: seq<(nat, InternalKey)>)
    requires PointersFit(c, p) && forall q :: q in cps ==> q.0 < NUM_LEVELS && Fits(c, q.1)
    ensures PointersFit(c, ApplyPointers(p, cps))
  {
    if cps != [] {
      hide Fits;
      AppliedPointersFit(c, p, cps[..|cps| - 1]);
      assert cps[|cps| - 1] in cps;
    }
  }

  lemma {:induction false} SavedIsGood(c: KeyCodec, base: seq<Meta>, e: Edit, l: nat)
    requires Ordered(base) && AddedOnce(base, [e], l) && ValidEdit(c, e) && forall m :: m in base ==> ValidMeta(c, m)
    ensures var s := Saved(base, AddedAfter([], e, l), DeletedAfter({}, e, l));
            Ordered(s) && DistinctMetas(s) && forall m :: m in s ==> ValidMeta(c, m)
  {
    hide ValidMeta;
    var adds, s := AddsAt(e.added, l), Saved(base, AddedAfter([], e, l), DeletedAfter({}, e, l));
    OneEditAllAdds(e, l);
    DistinctHalves(base, adds);
    OneEditAdds(e, l);
    assert forall m :: m in AddedAfter([], e, l) <==> m in Elems(AddedAfter([], e, l));
    assert forall m :: m in adds <==> m in Elems(adds);
    SavedMeans(base, AddedAfter([], e, l), DeletedAfter({}, e, l));
    AddsAreValid(c, e.added, l);
    forall i, j | 0 <= i < j < |s| ensures s[i].number != s[j].number {
      assert s[i] in s && s[j] in s && Before(s[i], s[j]);
      BeforeIsTotal(s[i], s[j]);
      SameNumberSame(base, adds, s[i], s[j]);
    }
  }

  lemma {:induction false} OneEditAllAdds(e: Edit, l: nat)
    ensures AllAdds([e], l) == AddsAt(e.added, l)
  {
    assert [e][..0] == [] && [] + AddsAt(e.added, l) == AddsAt(e.added, l);
  }

  lemma {:induction false} AddsAreValid(c: KeyCodec, added: seq<(nat, Meta)>, l: nat)
    requires forall p :: p in added ==> p.0 < NUM_LEVELS && ValidMeta(c, p.1)
    ensures forall m :: m in AddsAt(added, l) ==> ValidMeta(c, m)
  {
    if added != [] {
      AddsAreValid(c, added[..|added| - 1], l);
    }
  }

  lemma {:induction false} SameNumberSame(a: seq<Meta>, b: seq<Meta>, x: Meta, y: Meta)
    requires DistinctMetas(a) && DistinctMetas(b) && Disjoint(a, b)
    requires (x in a || x in b) && (y in a || y in b)
    ensures x.number == y.number ==> x == y
  {
  }

  class VersionSet {
    const c: KeyCodec
    const crc: Crc
    const name: Bytes
    var current: MetaLevels
    var compactPointer: Pointers
    var logNumber: nat
    var prevLogNumber: nat
    var nextFileNumber: nat
    var lastSequence: nat
    var log: Writer?              // descriptor_log_
    ghost var records: seq<Edit>  // the edits written to it

    constructor (c: KeyCodec, crc: Crc, name: Bytes, s: State, nextFileNumber: nat, lastSequence: nat)
      requires GoodCodec(c) && |name| < 0x1_0000_0000
      requires GoodLevels(c, s.levels) && PointersFit(c, s.pointers)
      requires s.numbers.logNumber.Some? && s.numbers.prevLogNumber.Some?
      ensures Valid() && log == null && current == s.levels && compactPointer == s.pointers
      ensures this.c == c && this.crc == crc && this.name == name
    {
      this.c, this.crc, this.name := c, crc, name;
      current, compactPointer := s.levels, s.pointers;
      logNumber, prevLogNumber := s.numbers.logNumber.value, s.numbers.prevLogNumber.value;
      this.nextFileNumber, this.lastSequence := nextFileNumber, lastSequence;
      log, records := null, [];
    }

    function Now(): State
      reads this
    {
      State(current, compactPointer,
          NumberState(Some(logNumber), Some(prevLogNumber), Some(nextFileNumber), Some(lastSequence)))
    }

    /** The manifest holds the edits that led to the current version; only the two counters may have moved on. */
    ghost predicate Valid()
      reads this, log
    {
      && GoodCodec(c) && |name| < 0x1_0000_0000 && GoodLevels(c, current) && PointersFit(c, compactPointer)
      && (log != null ==>
            && log.Valid() && log.crc == crc && log.dest == LogBytes(crc, EncodeAll(c, records))
            && AllValid(c, records) && SameComparator(name, records)
            && UpToCounters(History(Fresh(), records), Now()))
    }

    /** Fill in what the caller left open. */
    function Completed(e: Edit): Edit
      reads this
    {
      e.(logNumber := if e.logNumber.Some? then e.logNumber else Some(logNumber),
         prevLogNumber := if e.prevLogNumber.Some? then e.prevLogNumber else Some(prevLogNumber),
         nextFile := Some(nextFileNumber), lastSequence := Some(lastSequence))
    }

    /** VersionSet::WriteSnapshot: the current files, in one edit. */
    method WriteSnapshot(w: Writer)
      requires w.Valid() && GoodLevels(c, current) && |compactPointer| == NUM_LEVELS
      modifies w
      ensures w.Valid()
      ensures w.dest ==
          old(w.dest) + Emit(w.crc, |old(w.dest)|, Encode(c, SnapshotEdit(name, current, compactPointer)), true)
    {
      var edit := new VersionEdit();
      edit.comparator := Some(name);
      edit.compactPointers := PointerList(compactPointer, |compactPointer|);
      edit.added := FileList(current, |current|);
      var record := edit.EncodeTo(c);
      w.AddRecord(record);
    }

    /** The new descriptor log, starting with a snapshot of the version the edit will be applied to. */
    method NewDescriptor() returns (w: Writer)
      requires GoodLevels(c, current) && |compactPointer| == NUM_LEVELS
      ensures fresh(w) && w.Valid() && w.crc == crc
      ensures w.dest == LogBytes(crc, EncodeAll(c, [SnapshotEdit(name, current, compactPointer)]))
    {
      w := new Writer(crc);
      WriteSnapshot(w);
      OneRecordLog(c, crc, [], SnapshotEdit(name, current, compactPointer));
    }

    /** The new version: Apply and SaveTo on the current one. */
    method NextVersion(e: Edit) returns (v: MetaLevels)
      requires GoodLevels(c, current) && ValidEdit(c, e) && AddsOnce(current, [e])
      ensures v == ApplyLevels(current, e) && GoodLevels(c, v)
    {
      var builder := new Builder(current);
      builder.Apply(e);
      v := builder.SaveTo();
      forall l | 0 <= l < NUM_LEVELS
        ensures Ordered(v[l]) && DistinctMetas(v[l]) && forall m :: m in v[l] ==> ValidMeta(c, m)
      {
        SavedIsGood(c, current[l], e, l);
      }
    }

    /**
     VersionSet::LogAndApply: the record is in the manifest before the version is installed. A first call starts a
     new manifest with a snapshot, taken after the edit's compaction pointers are set but before its files are.
     */
    method LogAndApply(edit: Edit)
      requires Valid() && ValidEdit(c, Completed(edit)) && AddsOnce(current, [edit])
      requires edit.logNumber.Some? ==> logNumber <= edit.logNumber.value < nextFileNumber
      requires edit.comparator.None?
      modifies this, log
      ensures Valid() && log != null && (old(log) == null ==> fresh(log)) && (old(log) != null ==> log == old(log))
      ensures Now() == ApplyEdit(old(Now()), old(Completed(edit)))
      ensures records ==
          (if old(log) == null then [SnapshotEdit(name, old(current), compactPointer)] else old(records))
                         + [old(Completed(edit))]
      ensures logNumber == if edit.logNumber.Some? then edit.logNumber.value else old(logNumber)
      ensures prevLogNumber == if edit.prevLogNumber.Some? then edit.prevLogNumber.value else old(prevLogNumber)
      ensures nextFileNumber == old(nextFileNumber) && lastSequence == old(lastSequence)
      ensures records != [] && var e := records[|records| - 1];
              && e.logNumber == Some(logNumber) && e.prevLogNumber == Some(prevLogNumber)
              && e.nextFile == Some(nextFileNumber) && e.lastSequence == Some(lastSequence)
              && e.comparator == edit.comparator && e.compactPointers == edit.compactPointers
              && e.deleted == edit.deleted && e.added == edit.added
    {
      hide GoodLevels;
      hide AddsOnce;
      hide ApplyLevels;
      hide ValidEdit;
      hide SnapshotEdit;
      hide LogBytes;
      hide EncodeAll;
      hide Encode;
      hide Emit;
      hide History;
      hide AllValid;
      hide SameComparator;
      hide ApplyPointers;
      hide GoodCodec;
      var e := Completed(edit);
      assert AddsOnce(current, [e]) by { SameAdds(current, edit, e); }
      var v := NextVersion(e);
      ValidLevelsOf(c, e);
      AppliedPointersFit(c, compactPointer, e.compactPointers);
      var pointers := SetPointers(compactPointer, e.compactPointers);
      StartDescriptor(e, pointers);
      compactPointer := pointers;
      var record := Encode(c, e);
      log.AddRecord(record);
      OneRecordLog(c, crc, records, e);
      HistorySnoc(Fresh(), records, e);
      OneMoreValid(c, name, records, e);
      records := records + [e];
      current := v;
      logNumber, prevLogNumber := e.logNumber.value, e.prevLogNumber.value;
    }

    ghost predicate Logged()
      reads this, log
    {
      && log != null && log.Valid() && log.crc == crc && log.dest == LogBytes(crc, EncodeAll(c, records))
      && AllValid(c, records) && SameComparator(name, records)
    }

    /** First call: a new manifest with a snapshot. Either way the edit takes its pointers to the new ones. */
    method StartDescriptor(e: Edit, pointers: Pointers)
      requires Valid() && pointers == ApplyPointers(compactPointer, e.compactPointers) && PointersFit(c, pointers)
      modifies this`log, this`records, this`compactPointer
      ensures Logged() && (old(log) == null ==> fresh(log)) && (old(log) != null ==> log == old(log))
      ensures records == if old(log) == null then [SnapshotEdit(name, current, pointers)] else old(records)
      ensures var h := History(Fresh(), records);
              h.levels == current && ApplyPointers(h.pointers, e.compactPointers) == pointers
    {
      hide LogBytes;
      hide EncodeAll;
      hide History;
      hide SnapshotEdit;
      hide ApplyLevels;
      if log == null {
        ghost var before := compactPointer;
        compactPointer := pointers;
        log := NewDescriptor();
        records := [SnapshotEdit(name, current, compactPointer)];
        SnapshotIsState(name, current, compactPointer);
        HistorySnoc(Fresh(), [], SnapshotEdit(name, current, compactPointer));
        assert [] + records == records;
        SnapshotIsValid(c, name, current, compactPointer);
        SamePointersTwice(before, e.compactPointers);
      }
    }
  }

  lemma {:induction false} ValidLevelsOf(c: KeyCodec, e: Edit)
    requires ValidEdit(c, e)
    ensures LevelsInRange(e) && forall q :: q in e.compactPointers ==> q.0 < NUM_LEVELS && Fits(c, q.1)
  {
  }

  lemma {:induction false} OneMoreValid(c: KeyCodec, name: Bytes, edits: seq<Edit>, e: Edit)
    requires AllValid(c, edits) && SameComparator(name, edits) && ValidEdit(c, e) && e.comparator.None?
    ensures AllValid(c, edits + [e]) && SameComparator(name, edits + [e])
  {
    hide ValidEdit;
  }

  /** Equal but for the file number and sequence counters, which the manifest may lag behind. */
  predicate UpToCounters(a: State, b: State) {
    && a.levels == b.levels && a.pointers == b.pointers
    && a.numbers.logNumber == b.numbers.logNumber && a.numbers.prevLogNumber == b.numbers.prevLogNumber
    && a.numbers.nextFile.Some? && a.numbers.lastSequence.Some?
  }

  lemma {:induction false} HistorySnoc(s: State, edits: seq<Edit>, e: Edit)
    ensures History(s, edits + [e]) == ApplyEdit(History(s, edits), e) && History(s, []) == s
  {
    assert (edits + [e])[..|edits|] == edits;
  }

  lemma {:induction false} OneRecordLog(c: KeyCodec, crc: Crc, edits: seq<Edit>, e: Edit)
    ensures var before := LogBytes(crc, EncodeAll(c, edits));
            LogBytes(crc, EncodeAll(c, edits + [e])) == before + Emit(crc, |before|, Encode(c, e), true)
  {
    hide Encode;
    hide Emit;
    assert EncodeAll(c, edits + [e])[..|edits|] == EncodeAll(c, edits);
  }

  lemma {:induction false} SameAdds(levels: MetaLevels, a: Edit, b: Edit)
    requires a.added == b.added && AddsOnce(levels, [a])
    ensures AddsOnce(levels, [b])
  {
    forall l | 0 <= l < |levels| ensures AddedOnce(levels[l], [b], l) {
      assert AddedOnce(levels[l], [a], l);
      OneEditAllAdds(a, l);
      OneEditAllAdds(b, l);
    }
  }

  lemma {:induction false} SnapshotLists(c: KeyCodec, levels: MetaLevels, p: Pointers, n: nat)
    requires n <= |levels| == |p| == NUM_LEVELS
    requires forall l :: 0 <= l < NUM_LEVELS ==> forall m :: m in levels[l] ==> ValidMeta(c, m)
    requires PointersFit(c, p)
    ensures forall q :: q in PointerList(p, n) ==> q.0 < NUM_LEVELS && Fits(c, q.1)
    ensures forall q :: q in FileList(levels, n) ==> q.0 < NUM_LEVELS && ValidMeta(c, q.1)
  {
    if n > 0 {
      SnapshotLists(c, levels, p, n - 1);
    }
  }

  lemma {:induction false} SnapshotIsValid(c: KeyCodec, name: Bytes, levels: MetaLevels, p: Pointers)
    requires GoodLevels(c, levels) && PointersFit(c, p) && |name| < 0x1_0000_0000
    ensures ValidEdit(c, SnapshotEdit(name, levels, p))
    ensures SnapshotEdit(name, levels, p).comparator == Some(name)
  {
    SnapshotLists(c, levels, p, NUM_LEVELS);
  }

  /** Reopening: recovery from the manifest gives back the version, its pointers and the log numbers. */
  method Reopen(vs: VersionSet) returns (s: Option<State>)
    requires vs.Valid() && vs.log != null && AddsOnce(Fresh().levels, vs.records)
    ensures s.Some? && UpToCounters(s.value, vs.Now())
  {
    var log := vs.log.dest;
    ghost var bytes := EncodeAll(vs.c, vs.records);
    LogRoundTrips(vs.crc, bytes);
    DecodesAll(vs.c, vs.records);
    ReplayIsHistory(vs.records);
    s := Recover(vs.c, vs.crc, vs.name, log);
  }
}
