/**
 The manifest: what VersionSet::LogAndApply writes and what VersionSet::Recover makes of it.
 */
module Manifest {
  import opened Entries
  import opened Files
  import opened LogFormat
  import opened LogReader
  import opened LogRoundTrip
  import opened VersionEdits
  import opened VersionBuilder

  /** GetLevel accepts levels below kNumLevels only. */
  predicate LevelsInRange(e: Edit) {
    && (forall p :: p in e.compactPointers ==> p.0 < NUM_LEVELS)
    && (forall p :: p in e.deleted ==> p.0 < NUM_LEVELS)
    && (forall p :: p in e.added ==> p.0 < NUM_LEVELS)
  }

  // ----- VersionSet::Builder

  class Builder {
    const base: MetaLevels
    var deleted: seq<set<nat>>
    var added: seq<seq<Meta>>

    constructor (base: MetaLevels)
      requires |base| == NUM_LEVELS
      ensures this.base == base && Valid()
      ensures forall level :: 0 <= level < NUM_LEVELS ==> deleted[level] == {} && added[level] == []
    {
      this.base := base;
      deleted, added := seq(NUM_LEVELS, _ => {}), seq(NUM_LEVELS, _ => []);
    }

    predicate Valid()
      reads this
    {
      |base| == NUM_LEVELS && |deleted| == NUM_LEVELS && |added| == NUM_LEVELS
    }

    method ApplyDeleted(e: Edit)
      requires Valid() && LevelsInRange(e)
      modifies this`deleted
      ensures Valid()
      ensures forall level :: 0 <= level < NUM_LEVELS ==>
                deleted[level] == old(deleted[level]) + DeletedAt(e.deleted, level)
    {
      for i := 0 to |e.deleted|
        invariant Valid()
        invariant forall level :: 0 <= level < NUM_LEVELS ==>
                    deleted[level] == old(deleted[level]) + DeletedAt(e.deleted[..i], level)
      {
        var (lv, number) := e.deleted[i];
        assert e.deleted[i] in e.deleted;
        OneMoreDeleted(e.deleted, i);
        hide DeletedAt;
        deleted := deleted[lv := deleted[lv] + {number}];
      }
      assert e.deleted[..|e.deleted|] == e.deleted;
    }

    method ApplyAdded(e: Edit)
      requires Valid() && LevelsInRange(e)
      modifies this`deleted, this`added
      ensures Valid()
      ensures forall level :: 0 <= level < NUM_LEVELS ==> added[level] == AddedAfter(old(added[level]), e, level)
      ensures forall level :: 0 <= level < NUM_LEVELS ==>
                deleted[level] == old(deleted[level]) - Numbers(AddsAt(e.added, level))
    {
      NothingAdded(e.added);
      hide InsertAll;
      hide InsertMeta;
      hide AddsAt;
      for i := 0 to |e.added|
        invariant Valid()
        invariant forall level :: 0 <= level < NUM_LEVELS ==>
                    added[level] == InsertAll(old(added[level]), AddsAt(e.added[..i], level))
        invariant forall level :: 0 <= level < NUM_LEVELS ==>
                    deleted[level] == old(deleted[level]) - Numbers(AddsAt(e.added[..i], level))
      {
        var (lv, m) := e.added[i];
        assert e.added[i] in e.added;
        OneMoreAdded(e.added, i);
        InsertOneMore(old(added[lv]), AddsAt(e.added[..i], lv), m);
        deleted := deleted[lv := deleted[lv] - {m.number}];
        added := added[lv := InsertMeta(added[lv], m)];
      }
      assert e.added[..|e.added|] == e.added;
    }

    /** Builder::Apply, but for the compaction pointers. */
    method Apply(e: Edit)
      requires Valid() && LevelsInRange(e)
      modifies this
      ensures Valid()
      ensures forall level :: 0 <= level < NUM_LEVELS ==> added[level] == AddedAfter(old(added[level]), e, level)
      ensures forall level :: 0 <= level < NUM_LEVELS ==> deleted[level] == DeletedAfter(old(deleted[level]), e, level)
    {
      hide AddsAt;
      hide DeletedAt;
      hide InsertAll;
      ApplyDeleted(e);
      ApplyAdded(e);
    }

    /** Builder::MaybeAddFile. */
    method MaybeAddFile(files: seq<Meta>, level: nat, m: Meta) returns (files2: seq<Meta>)
      requires Valid() && level < NUM_LEVELS
      ensures files2 == files + Undeleted([m], deleted[level])
    {
      if m.number in deleted[level] {
        files2 := files;
      } else {
        files2 := files + [m];
      }
    }

    /** The loop of SaveTo for one level. */
    method SaveLevel(level: nat) returns (files: seq<Meta>)
      requires Valid() && level < NUM_LEVELS && Ordered(base[level])
      ensures files == Saved(base[level], added[level], deleted[level])
    {
      files := [];
      var b, a, d := base[level], added[level], deleted[level];
      ghost var goal := Saved(b, a, d);
      var pos := 0;
      assert [] + goal == goal;
      MergeEnds(b, a);
      hide Before;
      hide Merge;
      hide Undeleted;
      for i := 0 to |a|
        invariant 0 <= pos <= |b|
        invariant goal == files + Undeleted(Merge(b[pos..], a[i..]), d)
      {
        var bpos := UpperBound(b, pos, a[i]);
        while pos < bpos
          invariant pos <= bpos
          invariant goal == files + Undeleted(Merge(b[pos..], a[i..]), d)
        {
          MergeTakesBase(b, a, pos, i, d, files);
          files := MaybeAddFile(files, level, b[pos]);
          pos := pos + 1;
        }
        MergeTakesAdded(b, a, pos, i, d, files);
        files := MaybeAddFile(files, level, a[i]);
      }
      while pos < |b|
        invariant 0 <= pos <= |b|
        invariant goal == files + Undeleted(b[pos..], d)
      {
        UndeletedFrom(b, pos, d, files);
        files := MaybeAddFile(files, level, b[pos]);
        pos := pos + 1;
      }
      NothingUndeleted(b[pos..], d, files);
    }

    /** Builder::SaveTo. */
    method SaveTo() returns (levels: MetaLevels)
      requires Valid() && forall level :: 0 <= level < NUM_LEVELS ==> Ordered(base[level])
      ensures |levels| == NUM_LEVELS
      ensures forall level :: 0 <= level < NUM_LEVELS ==>
                levels[level] == Saved(base[level], added[level], deleted[level])
    {
      levels := [];
      for level := 0 to NUM_LEVELS
        invariant |levels| == level
        invariant forall l :: 0 <= l < level ==> levels[l] == Saved(base[l], added[l], deleted[l])
      {
        var files := SaveLevel(level);
        levels := levels + [files];
      }
    }
  }

  lemma {:induction false} OneMoreDeleted(ds: seq<(nat, nat)>, i: nat)
    requires i < |ds|
    ensures forall level ::
              DeletedAt(ds[..i + 1], level) == DeletedAt(ds[..i], level) + if level == ds[i].0 then {ds[i].1} else {}
  {
    assert ds[..i + 1] == ds[..i] + [ds[i]];
  }

  lemma {:induction false} NothingAdded(fs: seq<(nat, Meta)>)
    ensures forall level :: AddsAt(fs[..0], level) == []
    ensures forall ms :: InsertAll(ms, []) == ms
  {
  }

  lemma {:induction false} OneMoreAdded(fs: seq<(nat, Meta)>, i: nat)
    requires i < |fs|
    ensures forall level ::
              AddsAt(fs[..i + 1], level) ==
              if level == fs[i].0 then AddsAt(fs[..i], level) + [fs[i].1] else AddsAt(fs[..i], level)
  {
    assert fs[..i + 1][..i] == fs[..i];
  }

  /** The next base file comes before what is left of the added ones. */
  lemma {:induction false} MergeTakesBase(b: seq<Meta>, a: seq<Meta>, pos: nat, i: nat, d: set<nat>, files: seq<Meta>)
    requires pos < |b| && i < |a| && !Before(a[i], b[pos])
    ensures files + Undeleted(Merge(b[pos..], a[i..]), d) ==
        files + Undeleted([b[pos]], d) + Undeleted(Merge(b[pos + 1..], a[i..]), d)
  {
    assert b[pos..][0] == b[pos] && b[pos..][1..] == b[pos + 1..] && a[i..][0] == a[i];
    UndeletedCons(b[pos], Merge(b[pos + 1..], a[i..]), d, files);
  }

  lemma {:induction false} MergeEnds(b: seq<Meta>, a: seq<Meta>)
    ensures forall pos :: 0 <= pos <= |b| ==> Merge(b[pos..], a[|a|..]) == b[pos..]
    ensures b[0..] == b && a[0..] == a
  {
  }

  lemma {:induction false} MergeTakesAdded(b: seq<Meta>, a: seq<Meta>, pos: nat, i: nat, d: set<nat>, files: seq<Meta>)
    requires pos <= |b| && i < |a| && (pos < |b| ==> Before(a[i], b[pos]))
    ensures files + Undeleted(Merge(b[pos..], a[i..]), d) ==
        files + Undeleted([a[i]], d) + Undeleted(Merge(b[pos..], a[i + 1..]), d)
  {
    assert a[i..][0] == a[i] && a[i..][1..] == a[i + 1..];
    assert pos < |b| ==> b[pos..][0] == b[pos];
    UndeletedCons(a[i], Merge(b[pos..], a[i + 1..]), d, files);
  }

  lemma {:induction false} NothingUndeleted(ms: seq<Meta>, d: set<nat>, files: seq<Meta>)
    requires ms == []
    ensures files + Undeleted(ms, d) == files
  {
  }

  lemma {:induction false} UndeletedFrom(b: seq<Meta>, pos: nat, d: set<nat>, files: seq<Meta>)
    requires pos < |b|
    ensures files + Undeleted(b[pos..], d) == files + Undeleted([b[pos]], d) + Undeleted(b[pos + 1..], d)
  {
    assert b[pos..] == [b[pos]] + b[pos + 1..];
    UndeletedCons(b[pos], b[pos + 1..], d, files);
  }

  lemma {:induction false} InsertOneMore(ms: seq<Meta>, adds: seq<Meta>, m: Meta)
    ensures InsertAll(ms, adds + [m]) == InsertMeta(InsertAll(ms, adds), m)
    ensures Numbers(adds + [m]) == Numbers(adds) + {m.number}
  {
    assert (adds + [m])[..|adds|] == adds;
  }

  lemma {:induction false} UndeletedCons(x: Meta, rest: seq<Meta>, d: set<nat>, files: seq<Meta>)
    ensures files + Undeleted([x] + rest, d) == files + Undeleted([x], d) + Undeleted(rest, d)
  {
    assert ([x] + rest)[1..] == rest && [x][1..] == [];
  }

  /** std::upper_bound from position `from` on. */
  method UpperBound(b: seq<Meta>, from: nat, m: Meta) returns (pos: nat)
    requires from <= |b| && Ordered(b)
    ensures from <= pos <= |b|
    ensures forall i :: from <= i < pos ==> !Before(m, b[i])
    ensures pos < |b| ==> Before(m, b[pos])
  {
    var lo, hi := from, |b|;
    while lo < hi
      invariant from <= lo <= hi <= |b|
      invariant forall i :: from <= i < lo ==> !Before(m, b[i])
      invariant hi < |b| ==> Before(m, b[hi])
    {
      var mid := (lo + hi) / 2;
      if Before(m, b[mid]) {
        hi := mid;
      } else {
        forall i | lo <= i <= mid ensures !Before(m, b[i]) {
          if i < mid && Before(m, b[i]) {
            BeforeIsTransitive(m, b[i], b[mid]);
          }
        }
        lo := mid + 1;
      }
    }
    pos := lo;
  }
}
