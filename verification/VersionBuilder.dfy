/**
 VersionSet::Builder: applying edits to a version, once per edit or once for a whole manifest.
 */
module VersionBuilder {
  import opened Entries
  import opened Files
  import opened VersionEdits

  type MetaLevels = seq<seq<Meta>>
  type Pointers = seq<Option<InternalKey>>

  /** BySmallestKey: by smallest key, ties by file number. */
  predicate Before(a: Meta, b: Meta) {
    Less(a.smallest, b.smallest) || (!Less(b.smallest, a.smallest) && a.number < b.number)
  }

  predicate Ordered(ms: seq<Meta>) {
    forall i, j :: 0 <= i < j < |ms| ==> Before(ms[i], ms[j])
  }

  /** Neither before the other means the same smallest key and the same number. */
  lemma {:induction false} BeforeIsTotal(a: Meta, b: Meta)
    ensures !(Before(a, b) && Before(b, a)) && !Before(a, a)
    ensures a.number != b.number ==> Before(a, b) || Before(b, a)
  {
  }

  lemma {:induction false} BeforeIsTransitive(a: Meta, b: Meta, c: Meta)
    requires Before(a, b) && Before(b, c)
    ensures Before(a, c)
  {
  }

  predicate DistinctMetas(ms: seq<Meta>) {
    forall i, j :: 0 <= i < j < |ms| ==> ms[i].number != ms[j].number
  }

  // ----- the std::set of added files

  /** std::set::insert under Before. */
  function InsertMeta(ms: seq<Meta>, m: Meta): seq<Meta> {
    if ms == [] then [m]
    else
      var last := ms[|ms| - 1];
      if Before(last, m) then ms + [m]
      else if !Before(m, last) then ms
      else InsertMeta(ms[..|ms| - 1], m) + [last]
  }

  lemma {:induction false} InsertMetaOrdered(ms: seq<Meta>, m: Meta)
    requires Ordered(ms) && forall x :: x in ms ==> x.number != m.number
    ensures Ordered(InsertMeta(ms, m)) && Elems(InsertMeta(ms, m)) == Elems(ms) + {m}
  {
    if ms != [] {
      var last, front := ms[|ms| - 1], ms[..|ms| - 1];
      assert ms == front + [last];
      BeforeIsTotal(last, m);
      if Before(last, m) {
        forall i | 0 <= i < |ms| ensures Before(ms[i], m) {
          if i < |front| {
            BeforeIsTransitive(ms[i], last, m);
          }
        }
      } else {
        InsertMetaOrdered(front, m);
        var ins := InsertMeta(front, m);
        forall i | 0 <= i < |ins| ensures Before(ins[i], last) {
          assert ins[i] in Elems(ins);
        }
      }
    }
  }

  // ----- merging

  function Merge(base: seq<Meta>, added: seq<Meta>): seq<Meta>
    decreases |base| + |added|
  {
    if added == [] then base
    else if base == [] || Before(added[0], base[0]) then [added[0]] + Merge(base, added[1..])
    else [base[0]] + Merge(base[1..], added)
  }

  /** MaybeAddFile over a list. */
  function Undeleted(ms: seq<Meta>, deleted: set<nat>): seq<Meta> {
    if ms == [] then []
    else (if ms[0].number in deleted then [] else [ms[0]]) + Undeleted(ms[1..], deleted)
  }

  /** What SaveTo writes for one level. */
  function Saved(base: seq<Meta>, added: seq<Meta>, deleted: set<nat>): seq<Meta> {
    Undeleted(Merge(base, added), deleted)
  }

  predicate HeadFirst(x: Meta, ms: seq<Meta>) {
    forall y :: y in ms ==> Before(x, y)
  }

  lemma {:induction false} OrderedCons(x: Meta, ms: seq<Meta>)
    requires Ordered(ms) && HeadFirst(x, ms)
    ensures Ordered([x] + ms)
  {
    forall i, j | 0 <= i < j < |ms| + 1 ensures Before(([x] + ms)[i], ([x] + ms)[j]) {
      assert ([x] + ms)[j] == ms[j - 1];
    }
  }

  lemma {:induction false} OrderedTail(ms: seq<Meta>)
    requires Ordered(ms) && ms != []
    ensures Ordered(ms[1..]) && HeadFirst(ms[0], ms[1..])
    ensures Elems(ms) == {ms[0]} + Elems(ms[1..])
  {
    assert ms == [ms[0]] + ms[1..];
  }

  predicate Disjoint(a: seq<Meta>, b: seq<Meta>) {
    forall x, y :: x in a && y in b ==> x.number != y.number
  }

  lemma {:induction false} MergeOrdered(base: seq<Meta>, added: seq<Meta>)
    requires Ordered(base) && Ordered(added) && Disjoint(base, added)
    ensures Ordered(Merge(base, added)) && Elems(Merge(base, added)) == Elems(base) + Elems(added)
    decreases |base| + |added|
  {
    if added == [] {
    } else if base == [] || Before(added[0], base[0]) {
      OrderedTail(added);
      MergeOrdered(base, added[1..]);
      MergeFirst(added[0], base, added[1..]);
      OrderedCons(added[0], Merge(base, added[1..]));
    } else {
      OrderedTail(base);
      BeforeIsTotal(added[0], base[0]);
      MergeOrdered(base[1..], added);
      assert HeadFirst(base[0], added) by {
        forall y | y in added ensures Before(base[0], y) {
          var i :| 0 <= i < |added| && added[i] == y;
          if i > 0 {
            BeforeIsTransitive(base[0], added[0], y);
          }
        }
      }
      assert HeadFirst(base[0], Merge(base[1..], added)) by {
        forall y | y in Merge(base[1..], added) ensures Before(base[0], y) {
          assert y in Elems(Merge(base[1..], added));
        }
      }
      OrderedCons(base[0], Merge(base[1..], added));
    }
  }

  lemma {:induction false} MergeFirst(x: Meta, base: seq<Meta>, rest: seq<Meta>)
    requires Ordered(base) && HeadFirst(x, rest) && (base != [] ==> Before(x, base[0]))
    requires Elems(Merge(base, rest)) == Elems(base) + Elems(rest)
    ensures HeadFirst(x, Merge(base, rest))
  {
    forall y | y in Merge(base, rest) ensures Before(x, y) {
      assert y in Elems(Merge(base, rest));
      if y in base {
        var i :| 0 <= i < |base| && base[i] == y;
        if i > 0 {
          BeforeIsTransitive(x, base[0], y);
        }
      }
    }
  }

  lemma {:induction false} UndeletedOrdered(ms: seq<Meta>, deleted: set<nat>)
    requires Ordered(ms)
    ensures Ordered(Undeleted(ms, deleted))
    ensures forall m :: m in Undeleted(ms, deleted) <==> m in ms && m.number !in deleted
  {
    if ms != [] {
      OrderedTail(ms);
      UndeletedOrdered(ms[1..], deleted);
      assert forall m :: m in ms <==> m == ms[0] || m in ms[1..];
      var rest := Undeleted(ms[1..], deleted);
      assert HeadFirst(ms[0], rest) by {
        forall y | y in rest ensures Before(ms[0], y) {
          assert y in ms[1..];
        }
      }
      OrderedCons(ms[0], rest);
    }
  }

  /** What SaveTo means: the files of base and added that are not deleted, in order. */
  lemma {:induction false} SavedMeans(base: seq<Meta>, added: seq<Meta>, deleted: set<nat>)
    requires Ordered(base) && Ordered(added) && Disjoint(base, added)
    ensures Ordered(Saved(base, added, deleted))
    ensures forall m :: m in Saved(base, added, deleted) <==> (m in base || m in added) && m.number !in deleted
  {
    MergeOrdered(base, added);
    UndeletedOrdered(Merge(base, added), deleted);
    forall m ensures m in Saved(base, added, deleted) <==> (m in base || m in added) && m.number !in deleted {
      assert m in Merge(base, added) <==> m in Elems(Merge(base, added));
    }
  }

  /** Ordered lists with the same members are equal. */
  lemma {:induction false} OrderedUnique(a: seq<Meta>, b: seq<Meta>)
    requires Ordered(a) && Ordered(b) && forall m :: m in a <==> m in b
    ensures a == b
  {
    assert b != [] ==> b[0] in b;
    if a != [] {
      assert a[0] in b && b != [];
      FirstsAgree(a, b);
      OrderedTail(a);
      OrderedTail(b);
      BeforeIsTotal(a[0], a[0]);
      assert a == [a[0]] + a[1..] && b == [b[0]] + b[1..];
      forall m ensures m in a[1..] <==> m in b[1..] {
        assert m in a <==> m == a[0] || m in a[1..];
        assert m in b <==> m == b[0] || m in b[1..];
      }
      OrderedUnique(a[1..], b[1..]);
    }
  }

  lemma {:induction false} FirstsAgree(a: seq<Meta>, b: seq<Meta>)
    requires Ordered(a) && Ordered(b) && a != [] && b != [] && a[0] in b && b[0] in a
    ensures a[0] == b[0]
  {
    var i :| 0 <= i < |b| && b[i] == a[0];
    var j :| 0 <= j < |a| && a[j] == b[0];
    BeforeIsTotal(a[0], b[0]);
  }

  // ----- one edit at one level

  /** The metadata an edit adds at a level, in order. */
  function AddsAt(added: seq<(nat, Meta)>, level: nat): seq<Meta> {
    if added == [] then []
    else AddsAt(added[..|added| - 1], level) + (if added[|added| - 1].0 == level then [added[|added| - 1].1] else [])
  }

  function Numbers(ms: seq<Meta>): set<nat> {
    set m | m in ms :: m.number
  }

  function DeletedAt(deleted: seq<(nat, nat)>, level: nat): set<nat> {
    set p | p in deleted && p.0 == level :: p.1
  }

  function InsertAll(ms: seq<Meta>, adds: seq<Meta>): seq<Meta> {
    if adds == [] then ms else InsertMeta(InsertAll(ms, adds[..|adds| - 1]), adds[|adds| - 1])
  }

  /** The added set and the deleted set of one level after an edit: an added file is no longer deleted. */
  function AddedAfter(added: seq<Meta>, e: Edit, level: nat): seq<Meta> {
    InsertAll(added, AddsAt(e.added, level))
  }

  function DeletedAfter(deleted: set<nat>, e: Edit, level: nat): set<nat> {
    deleted + DeletedAt(e.deleted, level) - Numbers(AddsAt(e.added, level))
  }

  lemma {:induction false} InsertAllOrdered(ms: seq<Meta>, adds: seq<Meta>)
    requires Ordered(ms) && Disjoint(ms, adds) && DistinctMetas(adds)
    ensures Ordered(InsertAll(ms, adds)) && Elems(InsertAll(ms, adds)) == Elems(ms) + Elems(adds)
  {
    if adds != [] {
      var front, last := adds[..|adds| - 1], adds[|adds| - 1];
      assert adds == front + [last];
      InsertAllOrdered(ms, front);
      var before := InsertAll(ms, front);
      forall x | x in before ensures x.number != last.number {
        assert x in Elems(before);
      }
      InsertMetaOrdered(before, last);
    }
  }

  // ----- many edits at one level

  function AddedBy(edits: seq<Edit>, level: nat): seq<Meta> {
    if edits == [] then [] else AddedAfter(AddedBy(edits[..|edits| - 1], level), edits[|edits| - 1], level)
  }

  function DeletedBy(edits: seq<Edit>, level: nat): set<nat> {
    if edits == [] then {} else DeletedAfter(DeletedBy(edits[..|edits| - 1], level), edits[|edits| - 1], level)
  }

  /** VersionSet::Recover: one builder for all edits. */
  function SavedOnce(base: seq<Meta>, edits: seq<Edit>, level: nat): seq<Meta> {
    Saved(base, AddedBy(edits, level), DeletedBy(edits, level))
  }

  /** LogAndApply, edit by edit. */
  function SavedEach(base: seq<Meta>, edits: seq<Edit>, level: nat): seq<Meta> {
    if edits == [] then base
    else
      var e := edits[|edits| - 1];
      Saved(SavedEach(base, edits[..|edits| - 1], level), AddedAfter([], e, level), DeletedAfter({}, e, level))
  }

  /** Everything ever added at a level. */
  function AllAdds(edits: seq<Edit>, level: nat): seq<Meta> {
    if edits == [] then [] else AllAdds(edits[..|edits| - 1], level) + AddsAt(edits[|edits| - 1].added, level)
  }

  /** Each file number is given to the level at most once. */
  predicate AddedOnce(base: seq<Meta>, edits: seq<Edit>, level: nat) {
    DistinctMetas(base + AllAdds(edits, level))
  }

  lemma {:induction false} DistinctHalves(x: seq<Meta>, y: seq<Meta>)
    requires DistinctMetas(x + y)
    ensures DistinctMetas(x) && DistinctMetas(y) && Disjoint(x, y)
  {
    var all := x + y;
    assert forall i :: 0 <= i < |x| ==> all[i] == x[i];
    assert forall i :: 0 <= i < |y| ==> all[|x| + i] == y[i];
    forall p, q | p in x && q in y ensures p.number != q.number {
      var i :| 0 <= i < |x| && x[i] == p;
      var j :| 0 <= j < |y| && y[j] == q;
      assert all[i].number != all[|x| + j].number;
    }
    forall i, j | 0 <= i < j < |y| ensures y[i].number != y[j].number {
      assert all[|x| + i].number != all[|x| + j].number;
    }
  }

  lemma {:induction false} DistinctSplit(a: seq<Meta>, b: seq<Meta>, c: seq<Meta>)
    requires DistinctMetas(a + (b + c))
    ensures DistinctMetas(a + b) && DistinctMetas(c) && Disjoint(a, c) && Disjoint(b, c) && Disjoint(a, b)
  {
    assert a + (b + c) == (a + b) + c;
    DistinctHalves(a + b, c);
    DistinctHalves(a, b);
    assert forall x :: x in a || x in b ==> x in a + b;
  }

  lemma {:induction false} AddedByOrdered(base: seq<Meta>, edits: seq<Edit>, level: nat)
    requires AddedOnce(base, edits, level)
    ensures Ordered(AddedBy(edits, level)) && Elems(AddedBy(edits, level)) == Elems(AllAdds(edits, level))
    ensures Disjoint(base, AddedBy(edits, level))
  {
    if edits != [] {
      var front, e := edits[..|edits| - 1], edits[|edits| - 1];
      DistinctSplit(base, AllAdds(front, level), AddsAt(e.added, level));
      AddedByOrdered(base, front, level);
      var adds := AddsAt(e.added, level);
      assert Disjoint(AddedBy(front, level), adds) by {
        assert forall x :: x in AddedBy(front, level) ==> x in Elems(AllAdds(front, level));
      }
      InsertAllOrdered(AddedBy(front, level), adds);
      forall x, y | x in base && y in AddedBy(edits, level) ensures x.number != y.number {
        assert y in Elems(AddedBy(edits, level));
      }
    }
  }

  lemma {:induction false} OneEditAdds(e: Edit, level: nat)
    requires DistinctMetas(AddsAt(e.added, level))
    ensures Ordered(AddedAfter([], e, level)) && Elems(AddedAfter([], e, level)) == Elems(AddsAt(e.added, level))
  {
    InsertAllOrdered([], AddsAt(e.added, level));
  }

  lemma {:induction false} DeletedAtMeans(ds: seq<(nat, nat)>, level: nat)
    ensures forall n :: n in DeletedAt(ds, level) <==> (level, n) in ds
  {
    forall n | (level, n) in ds ensures n in DeletedAt(ds, level) {
      assert (level, n).0 == level && (level, n).1 == n;
    }
  }

  /**
   What applying one edit does to a level: its additions are there, and of the files before those it does not delete.
   A file the edit both deletes and adds is there.
   */
  lemma {:induction false} EditMeans(base: seq<Meta>, e: Edit, level: nat)
    requires Ordered(base) && AddedOnce(base, [e], level)
    ensures var after := Saved(base, AddedAfter([], e, level), DeletedAfter({}, e, level));
            Ordered(after)
            && forall m :: m in after <==>
                 m in AddsAt(e.added, level) || (m in base && (level, m.number) !in e.deleted)
  {
    hide Saved, AddedAfter, DeletedAt;
    var adds := AddsAt(e.added, level);
    assert AllAdds([e], level) == adds by {
      assert [e][..0] == [] && [] + adds == adds;
    }
    DistinctHalves(base, adds);
    OneEditAdds(e, level);
    DeletedAtMeans(e.deleted, level);
    var added := AddedAfter([], e, level);
    assert forall m :: m in added <==> m in Elems(added);
    assert forall m :: m in adds <==> m in Elems(adds);
    SavedMeans(base, added, DeletedAfter({}, e, level));
    assert forall m :: m in adds ==> m.number in Numbers(adds);
    assert forall m :: m in base ==> m.number !in Numbers(adds);
  }

  lemma {:induction false} SavedEachMembers(base: seq<Meta>, edits: seq<Edit>, level: nat)
    requires Ordered(base) && AddedOnce(base, edits, level)
    ensures Ordered(SavedEach(base, edits, level))
    ensures forall m :: m in SavedEach(base, edits, level) <==>
              (m in base || m in AllAdds(edits, level)) && m.number !in DeletedBy(edits, level)
  {
    if edits != [] {
      var front, e := edits[..|edits| - 1], edits[|edits| - 1];
      var adds := AddsAt(e.added, level);
      DistinctSplit(base, AllAdds(front, level), adds);
      SavedEachMembers(base, front, level);
      OneEditAdds(e, level);
      var prior := SavedEach(base, front, level);
      forall m ensures m in AddedAfter([], e, level) <==> m in adds {
        assert m in AddedAfter([], e, level) <==> m in Elems(AddedAfter([], e, level));
      }
      SavedMeans(prior, AddedAfter([], e, level), DeletedAfter({}, e, level));
      forall m ensures m in SavedEach(base, edits, level) <==>
                (m in base || m in AllAdds(edits, level)) && m.number !in DeletedBy(edits, level)
      {
        assert m in adds ==> m.number in Numbers(adds);
        assert m in base || m in AllAdds(front, level) ==> m.number !in Numbers(adds);
      }
    }
  }

  /** Manifest replay equals history, level by level: the same files in the same order. */
  lemma {:induction false} ReplayEqualsHistory(base: seq<Meta>, edits: seq<Edit>, level: nat)
    requires Ordered(base) && AddedOnce(base, edits, level)
    ensures SavedOnce(base, edits, level) == SavedEach(base, edits, level)
  {
    AddedByOrdered(base, edits, level);
    SavedEachMembers(base, edits, level);
    SavedMeans(base, AddedBy(edits, level), DeletedBy(edits, level));
    forall m ensures m in SavedOnce(base, edits, level) <==> m in SavedEach(base, edits, level) {
      assert m in AddedBy(edits, level) <==> m in Elems(AddedBy(edits, level));
      assert m in AllAdds(edits, level) <==> m in Elems(AllAdds(edits, level));
    }
    OrderedUnique(SavedOnce(base, edits, level), SavedEach(base, edits, level));
  }
}
