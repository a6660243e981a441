/**
 The reference counts of FileMetaData: taken and dropped by VersionSet::Builder and by versions.
 */
module FileRefs {

  /** The file objects of all versions, each as often as versions list it. */
  function Listed(versions: seq<seq<nat>>): multiset<nat> {
    if versions == [] then multiset{} else Listed(versions[..|versions| - 1]) + multiset(versions[|versions| - 1])
  }

  lemma {:induction false} ListedWithout(versions: seq<seq<nat>>, i: nat)
    requires i < |versions|
    ensures Listed(versions) == Listed(versions[..i] + versions[i + 1..]) + multiset(versions[i])
  {
    var n := |versions| - 1;
    if i == n {
      assert versions[..i] + versions[i + 1..] == versions[..n];
    } else {
      ListedWithout(versions[..n], i);
      var rest := versions[..i] + versions[i + 1..];
      assert versions[..n][..i] + versions[..n][i + 1..] == rest[..|rest| - 1];
      assert rest[|rest| - 1] == versions[n];
    }
  }

  class FileTable {
    var refs: map<nat, nat>            // the counts of the file objects that have not been deleted
    ghost var versions: seq<seq<nat>>  // the file objects of every version, all levels together

    constructor ()
      ensures Valid() && versions == []
    {
      refs, versions := map[], [];
    }

    /** A count is the number of holders, and an object without holders is gone. */
    ghost predicate Counts(holders: multiset<nat>)
      reads this
    {
      forall f :: (f in refs <==> holders[f] > 0) && (f in refs ==> refs[f] == holders[f])
    }

    /** Outside a builder's scope, a file's count is the number of versions that list it. */
    ghost predicate Valid()
      reads this
    {
      Counts(Listed(versions))
    }

    /** f->refs++ on an object that still exists. */
    method Take(f: nat, ghost holders: multiset<nat>)
      requires Counts(holders) && holders[f] > 0
      modifies this`refs
      ensures Counts(holders + multiset{f})
    {
      refs := refs[f := refs[f] + 1];
    }

    /** f->refs--, and delete f once nobody holds it. */
    method Drop(f: nat, ghost holders: multiset<nat>)
      requires Counts(holders) && holders[f] > 0
      modifies this`refs
      ensures Counts(holders - multiset{f})
    {
      if refs[f] <= 1 {
        refs := refs - {f};
      } else {
        refs := refs[f := refs[f] - 1];
      }
    }

    method DropAll(files: seq<nat>, ghost others: multiset<nat>)
      requires Counts(others + multiset(files))
      modifies this`refs
      ensures Counts(others)
    {
      assert files[0..] == files;
      for i := 0 to |files|
        invariant Counts(others + multiset(files[i..]))
      {
        assert files[i..] == [files[i]] + files[i + 1..];
        Drop(files[i], others + multiset(files[i..]));
        assert others + multiset(files[i..]) - multiset{files[i]} == others + multiset(files[i + 1..]);
      }
      assert others + multiset(files[|files|..]) == others;
    }

    /** Apply: each new object starts with one reference, held by the builder. */
    method AddAll(added: seq<nat>, ghost listed: multiset<nat>)
      requires Counts(listed) && (forall f :: f in added ==> f !in refs)
      requires forall i, j :: 0 <= i < j < |added| ==> added[i] != added[j]
      modifies this`refs
      ensures Counts(listed + multiset(added))
    {
      assert listed + multiset(added[..0]) == listed;
      for i := 0 to |added|
        invariant Counts(listed + multiset(added[..i]))
        invariant forall j :: i <= j < |added| ==> added[j] !in refs
      {
        assert added[..i + 1] == added[..i] + [added[i]];
        assert listed + multiset(added[..i + 1]) == listed + multiset(added[..i]) + multiset{added[i]};
        refs := refs[added[i] := 1];
      }
      assert added[..|added|] == added;
    }

    /** SaveTo: MaybeAddFile takes each file it puts in the new version. */
    method TakeAll(saved: seq<nat>, ghost held: multiset<nat>)
      requires Counts(held) && forall f :: f in saved ==> held[f] > 0
      modifies this`refs
      ensures Counts(held + multiset(saved))
    {
      assert held + multiset(saved[..0]) == held;
      for i := 0 to |saved|
        invariant Counts(held + multiset(saved[..i]))
      {
        assert saved[i] in saved;
        assert saved[..i + 1] == saved[..i] + [saved[i]];
        assert held + multiset(saved[..i + 1]) == held + multiset(saved[..i]) + multiset{saved[i]};
        Take(saved[i], held + multiset(saved[..i]));
      }
      assert saved[..|saved|] == saved;
    }

    /** A builder's life: Apply, SaveTo, and the destructor, which drops the builder's own references. */
    method Build(base: nat, added: seq<nat>, saved: seq<nat>)
      requires Valid() && base < |versions|
      requires forall f :: f in added ==> f !in refs
      requires forall i, j :: 0 <= i < j < |added| ==> added[i] != added[j]
      requires forall f :: f in saved ==> f in versions[base] || f in added
      modifies this
      ensures Valid() && versions == old(versions) + [saved]
    {
      ghost var listed := Listed(versions);
      ListedWithout(versions, base);
      AddAll(added, listed);
      ghost var held := listed + multiset(added);
      forall f | f in saved ensures held[f] > 0 {
        if f in versions[base] {
          assert f in multiset(versions[base]);
        } else {
          assert f in multiset(added);
        }
      }
      TakeAll(saved, held);
      assert held + multiset(saved) == listed + multiset(saved) + multiset(added);
      DropAll(added, listed + multiset(saved));
      versions := versions + [saved];
      assert versions[..|versions| - 1] == old(versions);
    }

    /** Version::~Version, once the version's own count is zero. */
    method DeleteVersion(i: nat, files: seq<nat>)
      requires Valid() && i < |versions| && files == versions[i]
      modifies this
      ensures Valid() && versions == old(versions)[..i] + old(versions)[i + 1..]
    {
      ListedWithout(versions, i);
      ghost var rest := versions[..i] + versions[i + 1..];
      DropAll(files, Listed(rest));
      versions := rest;
    }
  }

  /** A file object exists exactly as long as some version lists it. */
  lemma {:induction false} InSomeVersion(versions: seq<seq<nat>>, f: nat)
    ensures Listed(versions)[f] > 0 <==> exists i :: 0 <= i < |versions| && f in versions[i]
  {
    if versions != [] {
      var n := |versions| - 1;
      InSomeVersion(versions[..n], f);
      assert f in multiset(versions[n]) <==> f in versions[n];
      if i :| 0 <= i < n && f in versions[..n][i] {
        assert f in versions[i];
      }
      if i :| 0 <= i < |versions| && f in versions[i] && i < n {
        assert f in versions[..n][i];
      }
    }
  }
}
