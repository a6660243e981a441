/**
 Versions: seven levels of table files, the order invariant that makes level-by-level search
 correct, and the lookups DBImpl::Get, MemTable::Get and Version::Get.
 */
module Versions {
  import opened Entries
  import opened Files

  ghost function AllEntries(v: Levels): set<Entry> {
    set lv, e | 0 <= lv < |v| && e in EntriesOf(v[lv]) :: e
  }

  /** For each user key, every entry of `a` is newer than every entry of `b`. */
  ghost predicate NewerThan(a: set<Entry>, b: set<Entry>) {
    forall x, y :: x in a && y in b && x.ikey.user == y.ikey.user ==> x.ikey.seqno > y.ikey.seqno
  }

  /** Entries of one user key get older as levels get deeper. */
  ghost predicate DeeperIsOlder(v: Levels) {
    forall i, j :: 0 <= i < j < |v| ==> NewerThan(EntriesOf(v[i]), EntriesOf(v[j]))
  }

  /** Entries of one user key are newer in the level-0 file with the higher number. */
  ghost predicate NewerNumberIsNewer(files: seq<File>) {
    forall f, g :: f in files && g in files && f.number > g.number ==> NewerThan(Elems(f.entries), Elems(g.entries))
  }

  ghost predicate ValidLevels(v: Levels) {
    |v| == NUM_LEVELS && forall lv :: 0 <= lv < |v| ==> ValidFiles(v[lv])
  }

  /** What a search of single levels relies on. */
  ghost predicate LevelsOk(v: Levels) {
    && ValidLevels(v)
    && (forall lv :: 0 < lv < |v| ==> SortedDisjoint(v[lv]))
    && DistinctNumbers(v[0])
    && NewerNumberIsNewer(v[0])
  }

  /** What every installed version satisfies. */
  ghost predicate Ok(v: Levels) {
    LevelsOk(v) && DeeperIsOlder(v) && UniqueSeqnos(AllEntries(v))
  }

  // ----- seeking inside one sorted run of entries

  /** The first entry at or after a key: what a table or memtable Seek positions at. */
  function FirstAtOrAfter(es: seq<Entry>, target: InternalKey): (r: Option<Entry>)
    ensures r.Some? ==> r.value in es && !Less(r.value.ikey, target)
  {
    if es == [] then None
    else if !Less(es[0].ikey, target) then Some(es[0])
    else FirstAtOrAfter(es[1..], target)
  }

  /** The internal key a lookup seeks to: LookupKey(user_key, sequence). */
  function LookupKey(k: UserKey, snap: nat): InternalKey {
    InternalKey(k, snap, Put)
  }

  /** One seek answers the read within a sorted run: the entry found is the newest visible one or the key has none. */
  lemma {:induction false} SeekFindsNewest(es: seq<Entry>, k: UserKey, snap: nat)
    requires SortedEntries(es)
    ensures var r := FirstAtOrAfter(es, LookupKey(k, snap));
            if r.Some? && r.value.ikey.user == k
            then IsNewest(Elems(es), k, snap, r.value)
            else forall e :: e in es ==> !Visible(e, k, snap)
  {
    if es != [] {
      var rest := es[1..];
      assert es == [es[0]] + rest;
      assert SortedEntries(rest);
      SeekFindsNewest(rest, k, snap);
      FirstIsLess(es);
    }
  }

  lemma {:induction false} FirstIsLess(es: seq<Entry>)
    requires SortedEntries(es) && es != []
    ensures forall e :: e in es[1..] ==> Less(es[0].ikey, e.ikey)
  {
    forall e | e in es[1..] ensures Less(es[0].ikey, e.ikey) {
      var i :| 0 <= i < |es| - 1 && es[1..][i] == e;
      assert es[i + 1] == e;
    }
  }

  // ----- memtable

  /** memtable.cc MemTable::Get over the skip list's sorted entries. */
  method MemGet(mem: seq<Entry>, k: UserKey, snap: nat) returns (found: Option<Entry>)
    requires SortedEntries(mem)
    ensures found.Some? ==> IsNewest(Elems(mem), k, snap, found.value)
    ensures found.None? ==> forall e :: e in mem ==> !Visible(e, k, snap)
  {
    SeekFindsNewest(mem, k, snap);
    var it := FirstAtOrAfter(mem, LookupKey(k, snap));
    if it.Some? && it.value.ikey.user == k {
      return it;
    }
    return None;
  }

  // ----- version

  /** A filter that never hides a key its table holds. */
  ghost predicate SoundFilter(v: Levels, mayMatch: (nat, UserKey) -> bool) {
    forall lv, f, e :: 0 <= lv < |v| && f in v[lv] && e in f.entries ==> mayMatch(f.number, e.ikey.user)
  }

  /** std::sort(tmp, NewestFirst). */
  function SortNewestFirst(files: seq<File>): (r: seq<File>)
    ensures forall f :: f in r <==> f in files
    ensures forall i, j :: 0 <= i < j < |r| ==> r[i].number >= r[j].number
  {
    if files == [] then [] else InsertNewestFirst(SortNewestFirst(files[1..]), files[0])
  }

  function InsertNewestFirst(files: seq<File>, f: File): (r: seq<File>)
    requires forall i, j :: 0 <= i < j < |files| ==> files[i].number >= files[j].number
    ensures forall g :: g in r <==> g in files || g == f
    ensures forall i, j :: 0 <= i < j < |r| ==> r[i].number >= r[j].number
  {
    if files == [] || files[0].number <= f.number then [f] + files
    else
      var rest := InsertNewestFirst(files[1..], f);
      assert forall g :: g in rest ==> g.number <= files[0].number;
      [files[0]] + rest
  }

  ghost predicate NothingVisible(files: seq<File>, k: UserKey, snap: nat) {
    forall f, e :: f in files && e in f.entries ==> !Visible(e, k, snap)
  }

  /** What a search level by level finds. */
  ghost predicate ShallowestNewest(v: Levels, k: UserKey, snap: nat, e: Entry) {
    exists lv :: 0 <= lv < |v| && IsNewest(EntriesOf(v[lv]), k, snap, e)
              && forall l :: 0 <= l < lv ==> NothingVisible(v[l], k, snap)
  }

  class Version {
    const files: Levels

    constructor (files: Levels)
      ensures this.files == files
    {
      this.files := files;
    }

    /** TableCache::Get with SaveValue: None is kNotFound. */
    method TableGet(f: File, k: UserKey, snap: nat, mayMatch: (nat, UserKey) -> bool) returns (found: Option<Entry>)
      requires ValidFile(f) && forall e :: e in f.entries ==> mayMatch(f.number, e.ikey.user)
      ensures found.Some? ==> IsNewest(Elems(f.entries), k, snap, found.value)
      ensures found.None? ==> forall e :: e in f.entries ==> !Visible(e, k, snap)
    {
      if !mayMatch(f.number, k) {
        return None;
      }
      found := MemGet(f.entries, k, snap);
    }

    /** The level-0 files whose range holds the key, newest file first. */
    method CoveringNewestFirst(k: UserKey) returns (tmp: seq<File>)
      requires |files| == NUM_LEVELS
      ensures forall f :: f in tmp <==> f in files[0] && Covers(f, k)
      ensures forall i, j :: 0 <= i < j < |tmp| ==> tmp[i].number >= tmp[j].number
    {
      tmp := [];
      for i := 0 to |files[0]|
        invariant forall f :: f in tmp <==> f in files[0][..i] && Covers(f, k)
      {
        if Covers(files[0][i], k) {
          tmp := tmp + [files[0][i]];
        }
      }
      assert files[0][..|files[0]|] == files[0];
      tmp := SortNewestFirst(tmp);
    }

    /** Level 0: newest file first, until one answers. */
    method GetLevelZero(k: UserKey, snap: nat, mayMatch: (nat, UserKey) -> bool) returns (found: Option<Entry>)
      requires |files| == NUM_LEVELS && SoundFilter(files, mayMatch)
      requires ValidFiles(files[0]) && DistinctNumbers(files[0]) && NewerNumberIsNewer(files[0])
      ensures found.Some? ==> IsNewest(EntriesOf(files[0]), k, snap, found.value)
      ensures found.None? ==> NothingVisible(files[0], k, snap)
    {
      var tmp := CoveringNewestFirst(k);
      VisibleIsCovered(files[0], k, snap);
      for i := 0 to |tmp|
        invariant NothingVisible(tmp[..i], k, snap)
      {
        var t := tmp[i];
        assert t in tmp;
        found := TableGet(t, k, snap, mayMatch);
        if found.Some? {
          forall f, x | f in files[0] && x in f.entries && Visible(x, k, snap) && f != t ensures f.number < t.number {
            UnreadIsLower(files[0], tmp, i, f);
          }
          LevelZeroHit(files[0], t, k, snap, found.value);
          return;
        }
        assert tmp[..i + 1] == tmp[..i] + [t];
      }
      assert tmp[..|tmp|] == tmp;
      found := None;
    }

    /** Deeper levels: the one file found by binary search. */
    method GetDeeper(lv: nat, k: UserKey, snap: nat, mayMatch: (nat, UserKey) -> bool) returns (found: Option<Entry>)
      requires LevelsOk(files) && SoundFilter(files, mayMatch) && 0 < lv < NUM_LEVELS
      ensures found.Some? ==> IsNewest(EntriesOf(files[lv]), k, snap, found.value)
      ensures found.None? ==> NothingVisible(files[lv], k, snap)
    {
      var index := FindFile(files[lv], LookupKey(k, snap));
      SearchedFile(files[lv], index, k, snap);
      if index >= |files[lv]| {
        return None;
      }
      var f := files[lv][index];
      if k < f.smallest.user {
        return None;
      }
      found := TableGet(f, k, snap, mayMatch);
    }

    /**
     version_set.cc Version::PickLevelForMemTableOutput: the deepest level, up to 2, reachable without
     meeting an overlapping file on the way or too many overlapping bytes two levels down.
     */
    method PickLevelForMemTableOutput(lo: UserKey, hi: UserKey, maxGrandparentBytes: nat) returns (level: nat)
      requires Ok(files)
      ensures level <= MAX_MEM_COMPACT_LEVEL
      ensures level > 0 ==> forall l :: 0 <= l <= level ==> !SomeOverlap(files[l], Some(lo), Some(hi))
      ensures level < MAX_MEM_COMPACT_LEVEL ==>
                || SomeOverlap(files[0], Some(lo), Some(hi))
                || SomeOverlap(files[level + 1], Some(lo), Some(hi))
                || TotalFileSize(OverlapFilter(files[level + 2], Some(lo), Some(hi))) > maxGrandparentBytes
    {
      level := 0;
      var overlap := SomeFileOverlapsRange(false, files[0], Some(lo), Some(hi));
      if !overlap {
        while level < MAX_MEM_COMPACT_LEVEL
          invariant level <= MAX_MEM_COMPACT_LEVEL
          invariant forall l :: 0 <= l <= level ==> !SomeOverlap(files[l], Some(lo), Some(hi))
        {
          overlap := SomeFileOverlapsRange(true, files[level + 1], Some(lo), Some(hi));
          if overlap {
            break;
          }
          if level + 2 < NUM_LEVELS {
            var overlaps, _, _ := GetOverlappingInputs(level + 2, files[level + 2], Some(lo), Some(hi));
            if TotalFileSize(overlaps) > maxGrandparentBytes {
              break;
            }
          }
          level := level + 1;
        }
      }
    }

    /**
     version_set.cc Version::Get: the newest visible entry of the shallowest level that has one, which is the newest
     of the whole version if deeper levels are older.
     */
    method Get(k: UserKey, snap: nat, mayMatch: (nat, UserKey) -> bool) returns (found: Option<Entry>)
      requires LevelsOk(files) && SoundFilter(files, mayMatch)
      ensures found.Some? ==> ShallowestNewest(files, k, snap, found.value)
      ensures found.Some? && DeeperIsOlder(files) ==> IsNewest(AllEntries(files), k, snap, found.value)
      ensures found.None? ==> forall e :: e in AllEntries(files) ==> !Visible(e, k, snap)
    {
      for lv := 0 to NUM_LEVELS
        invariant forall l :: 0 <= l < lv ==> NothingVisible(files[l], k, snap)
      {
        if lv == 0 {
          found := GetLevelZero(k, snap, mayMatch);
        } else {
          found := GetDeeper(lv, k, snap, mayMatch);
        }
        if found.Some? {
          assert ShallowestNewest(files, k, snap, found.value);
          if DeeperIsOlder(files) {
            ShallowestHit(files, lv, k, snap, found.value);
          }
          return;
        }
      }
      found := None;
    }
  }

  /** The file that answered at level 0 holds the newest entry if all others with a visible one have lower numbers. */
  lemma {:induction false} LevelZeroHit(files: seq<File>, t: File, k: UserKey, snap: nat, e: Entry)
    requires NewerNumberIsNewer(files) && t in files && IsNewest(Elems(t.entries), k, snap, e)
    requires forall f, x :: f in files && x in f.entries && Visible(x, k, snap) && f != t ==> f.number < t.number
    ensures IsNewest(EntriesOf(files), k, snap, e)
  {
    forall x | x in EntriesOf(files) && Visible(x, k, snap) ensures x.ikey.seqno <= e.ikey.seqno {
      var f :| f in files && x in f.entries;
      assert x in Elems(f.entries) && e in Elems(t.entries);
      if f != t {
        assert NewerThan(Elems(t.entries), Elems(f.entries));
      }
    }
  }

  /** Scanning newest first, an unread file comes after the current one and so has a lower number. */
  lemma {:induction false} UnreadIsLower(files: seq<File>, tmp: seq<File>, i: nat, f: File)
    requires DistinctNumbers(files) && (forall g :: g in tmp ==> g in files)
    requires forall x, y :: 0 <= x < y < |tmp| ==> tmp[x].number >= tmp[y].number
    requires i < |tmp| && f in tmp && f !in tmp[..i] && f != tmp[i]
    ensures f.number < tmp[i].number
  {
    assert forall x :: 0 <= x < i ==> tmp[..i][x] == tmp[x];
    var j :| 0 <= j < |tmp| && tmp[j] == f;
    DistinctFiles(files, f, tmp[i]);
  }

  lemma {:induction false} DistinctFiles(files: seq<File>, f: File, g: File)
    requires DistinctNumbers(files) && f in files && g in files && f != g
    ensures f.number != g.number
  {
    var i :| 0 <= i < |files| && files[i] == f;
    var j :| 0 <= j < |files| && files[j] == g;
  }

  lemma {:induction false} VisibleIsCovered(files: seq<File>, k: UserKey, snap: nat)
    requires ValidFiles(files)
    ensures forall f, x :: f in files && x in f.entries && Visible(x, k, snap) ==> Covers(f, k)
  {
    forall f, x | f in files && x in f.entries && Visible(x, k, snap) ensures Covers(f, k) {
      FileBounds(f, x);
    }
  }

  /** What the binary search of one sorted level leaves to look at. */
  lemma {:induction false} SearchedFile(files: seq<File>, index: nat, k: UserKey, snap: nat)
    requires ValidFiles(files) && SortedDisjoint(files) && index <= |files|
    requires forall i :: 0 <= i < index ==> Less(files[i].largest, LookupKey(k, snap))
    requires forall i :: index <= i < |files| ==> !Less(files[i].largest, LookupKey(k, snap))
    ensures index == |files| || k < files[index].smallest.user ==> NothingVisible(files, k, snap)
    ensures index < |files| && (forall e :: e in files[index].entries ==> !Visible(e, k, snap)) ==>
              NothingVisible(files, k, snap)
    ensures index < |files| ==> forall e :: IsNewest(Elems(files[index].entries), k, snap, e) ==>
                                  IsNewest(EntriesOf(files), k, snap, e)
  {
    forall i, x | 0 <= i < |files| && x in files[i].entries && Visible(x, k, snap)
      ensures i >= index && files[index].smallest.user <= k
      ensures exists y :: y in files[index].entries && Visible(y, k, snap)
      ensures forall e :: IsNewest(Elems(files[index].entries), k, snap, e) ==> x.ikey.seqno <= e.ikey.seqno
    {
      assert files[i] in files;
      FileBounds(files[i], x);
      var f := files[index];
      assert f in files;
      var z := f.entries[|f.entries| - 1];
      FileBounds(f, z);
      if i == index {
        assert x in Elems(f.entries);
      } else {
        assert Less(f.largest, files[i].smallest);
        assert Visible(z, k, snap) && z in Elems(f.entries);
      }
    }
    if index < |files| {
      forall e | IsNewest(Elems(files[index].entries), k, snap, e) ensures IsNewest(EntriesOf(files), k, snap, e) {
        assert files[index] in files;
        forall x | x in EntriesOf(files) && Visible(x, k, snap) ensures x.ikey.seqno <= e.ikey.seqno {
          var f :| f in files && x in f.entries;
          var i :| 0 <= i < |files| && files[i] == f;
        }
      }
    }
  }

  /** A hit on the shallowest level that has the key beats every deeper level. */
  lemma {:induction false} ShallowestHit(v: Levels, lv: nat, k: UserKey, snap: nat, e: Entry)
    requires DeeperIsOlder(v) && lv < |v|
    requires forall l :: 0 <= l < lv ==> NothingVisible(v[l], k, snap)
    requires IsNewest(EntriesOf(v[lv]), k, snap, e)
    ensures IsNewest(AllEntries(v), k, snap, e)
  {
    forall x | x in AllEntries(v) && Visible(x, k, snap) ensures x.ikey.seqno <= e.ikey.seqno {
      var l :| 0 <= l < |v| && x in EntriesOf(v[l]);
      if l > lv {
        assert NewerThan(EntriesOf(v[lv]), EntriesOf(v[l]));
      }
    }
  }

  /** A hit in the first of two sources, or a miss there, settles the read of their union. */
  lemma {:induction false} FirstSourceWins(a: set<Entry>, b: set<Entry>, k: UserKey, snap: nat)
    requires NewerThan(a, b)
    ensures forall e :: IsNewest(a, k, snap, e) ==> IsNewest(a + b, k, snap, e)
    ensures (forall e :: e in a ==> !Visible(e, k, snap)) ==> forall e :: IsNewest(b, k, snap, e) ==> IsNewest(a + b,
        k, snap, e)
  {
  }

  // ----- DBImpl::Get

  /** Everything a read has to consider: memtable, immutable memtable (empty when imm_ is NULL), version. */
  ghost function DbEntries(mem: seq<Entry>, imm: seq<Entry>, v: Levels): set<Entry> {
    Elems(mem) + Elems(imm) + AllEntries(v)
  }

  /** The memtable is newer than the immutable memtable, which is newer than every table. */
  ghost predicate DbOk(mem: seq<Entry>, imm: seq<Entry>, v: Levels) {
    && SortedEntries(mem) && SortedEntries(imm) && Ok(v)
    && NewerThan(Elems(imm), AllEntries(v))
    && NewerThan(Elems(mem), Elems(imm) + AllEntries(v))
    && UniqueSeqnos(DbEntries(mem, imm, v))
  }

  function ImmEntries(imm: Option<seq<Entry>>): seq<Entry> {
    if imm.Some? then imm.value else []
  }

  /** db_impl.cc DBImpl::Get: memory first, then the current version; equals the naive read over all entries. */
  method DbGet(mem: seq<Entry>, imm: Option<seq<Entry>>, current: Version, k: UserKey, snap: nat,
          mayMatch: (nat, UserKey) -> bool)
    returns (r: Option<Bytes>)
    requires DbOk(mem, ImmEntries(imm), current.files) && SoundFilter(current.files, mayMatch)
    ensures r == Read(DbEntries(mem, ImmEntries(imm), current.files), k, snap)
  {
    ghost var tables := AllEntries(current.files);
    ghost var older := Elems(ImmEntries(imm)) + tables;
    ghost var all := DbEntries(mem, ImmEntries(imm), current.files);
    assert all == Elems(mem) + older;
    FirstSourceWins(Elems(ImmEntries(imm)), tables, k, snap);
    FirstSourceWins(Elems(mem), older, k, snap);
    var found := MemGet(mem, k, snap);
    if found.None? && imm.Some? {
      found := MemGet(imm.value, k, snap);
    }
    if found.None? {
      found := current.Get(k, snap, mayMatch);
    }
    if found.Some? {
      NewestIs(all, k, snap, found.value);
    } else {
      NewestExists(all, k, snap);
    }
    r := Outcome(found);
  }
}
