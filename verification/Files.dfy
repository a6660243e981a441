/**
 Table files, the levels of a version, and the algorithms over one level's file list
 (FindFile, SomeFileOverlapsRange, GetOverlappingInputs, GetRange, TotalFileSize).
 */
module Files {
  import opened Entries

  const NUM_LEVELS: nat := 7
  const MAX_MEM_COMPACT_LEVEL: nat := 2

  /** FileMetaData together with the contents of the table it describes. */
  datatype File = File(number: nat, size: nat, smallest: InternalKey, largest: InternalKey, entries: seq<Entry>)

  predicate ValidFile(f: File) {
    && |f.entries| > 0
    && SortedEntries(f.entries)
    && f.smallest == f.entries[0].ikey
    && f.largest == f.entries[|f.entries| - 1].ikey
    && (forall i :: 0 <= i < |f.entries| ==> f.entries[i].ikey.seqno <= MAX_SEQUENCE)
  }

  type Levels = seq<seq<File>>

  predicate ValidFiles(files: seq<File>) {
    forall f :: f in files ==> ValidFile(f)
  }

  /** Levels > 0 hold files with disjoint ranges of internal keys, in order. */
  predicate SortedDisjoint(files: seq<File>) {
    forall i, j :: 0 <= i < j < |files| ==> Less(files[i].largest, files[j].smallest)
  }

  predicate DistinctNumbers(files: seq<File>) {
    forall i, j :: 0 <= i < j < |files| ==> files[i].number != files[j].number
  }

  lemma {:induction false} FileBounds(f: File, e: Entry)
    requires ValidFile(f) && e in f.entries
    ensures f.smallest.user <= e.ikey.user <= f.largest.user
    ensures AtMost(f.smallest, e.ikey) && AtMost(e.ikey, f.largest)
    ensures e.ikey.seqno <= MAX_SEQUENCE
  {
    var i :| 0 <= i < |f.entries| && f.entries[i] == e;
  }

  ghost function EntriesOf(files: seq<File>): set<Entry> {
    set f, e | f in files && e in f.entries :: e
  }

  /** version_set.cc TotalFileSize. */
  function TotalFileSize(files: seq<File>): nat {
    if files == [] then 0 else TotalFileSize(files[..|files| - 1]) + files[|files| - 1].size
  }

  // ----- FindFile

  /** version_set.cc FindFile: the smallest index whose file ends at or after the key. */
  method FindFile(files: seq<File>, key: InternalKey) returns (index: nat)
    requires ValidFiles(files) && SortedDisjoint(files)
    ensures index <= |files|
    ensures forall i :: 0 <= i < index ==> Less(files[i].largest, key)
    ensures forall i :: index <= i < |files| ==> !Less(files[i].largest, key)
  {
    var left, right := 0, |files|;
    while left < right
      invariant 0 <= left <= right <= |files|
      invariant forall i :: 0 <= i < left ==> Less(files[i].largest, key)
      invariant forall i :: right <= i < |files| ==> !Less(files[i].largest, key)
    {
      var mid := (left + right) / 2;
      var f := files[mid];
      if Less(f.largest, key) {
        LargestIncreasing(files);
        left := mid + 1;
      } else {
        LargestIncreasing(files);
        right := mid;
      }
    }
    index := right;
  }

  lemma {:induction false} LargestIncreasing(files: seq<File>)
    requires ValidFiles(files) && SortedDisjoint(files)
    ensures forall i, j :: 0 <= i < j < |files| ==> Less(files[i].largest, files[j].largest)
  {
    forall i, j | 0 <= i < j < |files| ensures Less(files[i].largest, files[j].largest) {
      assert files[j] in files;
      FileBounds(files[j], files[j].entries[0]);
    }
  }

  // ----- user-key ranges

  /** A user-key bound; None stands for "before all keys" (low end) or "after all keys" (high end). */
  type Bound = Option<UserKey>

  /** Not AfterFile and not BeforeFile: the user-key range of f meets [lo, hi]. */
  predicate Overlaps(f: File, lo: Bound, hi: Bound) {
    && (lo.Some? ==> lo.value <= f.largest.user)
    && (hi.Some? ==> f.smallest.user <= hi.value)
  }

  predicate SomeOverlap(files: seq<File>, lo: Bound, hi: Bound) {
    exists f :: f in files && Overlaps(f, lo, hi)
  }

  predicate Covers(f: File, k: UserKey) {
    f.smallest.user <= k <= f.largest.user
  }

  ghost predicate Covered(files: seq<File>, k: UserKey) {
    exists f :: f in files && Covers(f, k)
  }

  /** version_set.cc SomeFileOverlapsRange: linear over level 0, binary search elsewhere. */
  method SomeFileOverlapsRange(disjoint: bool, files: seq<File>, lo: Bound, hi: Bound) returns (r: bool)
    requires ValidFiles(files)
    requires disjoint ==> SortedDisjoint(files)
    ensures r <==> SomeOverlap(files, lo, hi)
  {
    if !disjoint {
      for i := 0 to |files|
        invariant forall j :: 0 <= j < i ==> !Overlaps(files[j], lo, hi)
      {
        if Overlaps(files[i], lo, hi) {
          return true;
        }
      }
      return false;
    }
    var index := 0;
    if lo.Some? {
      index := FindFile(files, InternalKey(lo.value, MAX_SEQUENCE, Put));
    }
    forall j | 0 <= j < |files| ensures lo.None? || j >= index <==> (lo.Some? ==> lo.value <= files[j].largest.user) {
      assert files[j] in files;
      FileBounds(files[j], files[j].entries[|files[j].entries| - 1]);
    }
    if index >= |files| {
      return false;
    }
    assert files[index] in files;
    forall j | index < j < |files| ensures files[index].smallest.user <= files[j].smallest.user {
      FileBounds(files[index], files[index].entries[0]);
      assert Less(files[index].largest, files[j].smallest);
    }
    r := !(hi.Some? && hi.value < files[index].smallest.user);
  }

  // ----- GetOverlappingInputs

  /** The files of a level meeting [lo, hi], in level order. */
  function OverlapFilter(files: seq<File>, lo: Bound, hi: Bound): (r: seq<File>)
    ensures forall f :: f in r <==> f in files && Overlaps(f, lo, hi)
    ensures |r| <= |files|
  {
    if files == [] then []
    else
      var last := files[|files| - 1];
      OverlapFilter(files[..|files| - 1], lo, hi) + (if Overlaps(last, lo, hi) then [last] else [])
  }

  /** [lo2, hi2] contains [lo1, hi1]. */
  predicate Contains(lo2: Bound, hi2: Bound, lo1: Bound, hi1: Bound) {
    && (lo2.Some? ==> lo1.Some? && lo2.value <= lo1.value)
    && (hi2.Some? ==> hi1.Some? && hi1.value <= hi2.value)
  }

  /** No file meeting [lo, hi] sticks out of it. */
  predicate ClosedUnder(files: seq<File>, lo: Bound, hi: Bound) {
    forall f :: f in files && Overlaps(f, lo, hi) ==>
      (lo.Some? ==> lo.value <= f.smallest.user) && (hi.Some? ==> f.largest.user <= hi.value)
  }

  ghost predicate LeastClosed(files: seq<File>, lo: Bound, hi: Bound, begin: Bound, end: Bound) {
    ClosedUnder(files, lo, hi) && Forced(files, lo, hi, begin, end)
  }

  /** [lo, hi] contains [begin, end] and lies inside every closed range that does. */
  ghost predicate Forced(files: seq<File>, lo: Bound, hi: Bound, begin: Bound, end: Bound) {
    && Contains(lo, hi, begin, end)
    && lo.Some? == begin.Some? && hi.Some? == end.Some?
    && forall lo', hi' :: Contains(lo', hi', begin, end) && ClosedUnder(files, lo', hi') ==> Contains(lo', hi', lo, hi)
  }

  predicate InRange(k: UserKey, lo: Bound, hi: Bound) {
    (lo.Some? ==> lo.value <= k) && (hi.Some? ==> k <= hi.value)
  }

  /** Every user key gained by widening [begin, end] to [lo, hi] lies inside some file. */
  ghost predicate GainCovered(files: seq<File>, lo: Bound, hi: Bound, begin: Bound, end: Bound) {
    forall k :: InRange(k, lo, hi) && !InRange(k, begin, end) ==> Covered(files, k)
  }

  function Below(files: seq<File>, lo: Bound): set<UserKey> {
    set f | f in files && lo.Some? && f.smallest.user < lo.value :: f.smallest.user
  }

  function Above(files: seq<File>, hi: Bound): set<UserKey> {
    set f | f in files && hi.Some? && f.largest.user > hi.value :: f.largest.user
  }

  lemma {:induction false} WidenLow(files: seq<File>, f: File, lo: Bound, hi: Bound, begin: Bound, end: Bound)
    requires f in files && Overlaps(f, lo, hi) && lo.Some? && f.smallest.user < lo.value
    requires Forced(files, lo, hi, begin, end) && GainCovered(files, lo, hi, begin, end)
    ensures Forced(files, Some(f.smallest.user), hi, begin, end)
    ensures GainCovered(files, Some(f.smallest.user), hi, begin, end)
    ensures Below(files, Some(f.smallest.user)) < Below(files, lo)
  {
    var lo2 := Some(f.smallest.user);
    forall lo', hi' | Contains(lo', hi', begin, end) && ClosedUnder(files, lo', hi')
      ensures Contains(lo', hi', lo2, hi)
    {
      assert Overlaps(f, lo', hi');
    }
    forall k | InRange(k, lo2, hi) && !InRange(k, begin, end)
      ensures Covered(files, k)
    {
      if !InRange(k, lo, hi) { assert Covers(f, k); }
    }
    assert f.smallest.user in Below(files, lo) && f.smallest.user !in Below(files, lo2);
  }

  lemma {:induction false} WidenHigh(files: seq<File>, f: File, lo: Bound, hi: Bound, begin: Bound, end: Bound)
    requires f in files && Overlaps(f, lo, hi) && hi.Some? && f.largest.user > hi.value
    requires Forced(files, lo, hi, begin, end) && GainCovered(files, lo, hi, begin, end)
    ensures Forced(files, lo, Some(f.largest.user), begin, end)
    ensures GainCovered(files, lo, Some(f.largest.user), begin, end)
    ensures Above(files, Some(f.largest.user)) < Above(files, hi)
  {
    var hi2 := Some(f.largest.user);
    forall lo', hi' | Contains(lo', hi', begin, end) && ClosedUnder(files, lo', hi')
      ensures Contains(lo', hi', lo, hi2)
    {
      assert Overlaps(f, lo', hi');
    }
    forall k | InRange(k, lo, hi2) && !InRange(k, begin, end)
      ensures Covered(files, k)
    {
      if !InRange(k, lo, hi) { assert Covers(f, k); }
    }
    assert f.largest.user in Above(files, hi) && f.largest.user !in Above(files, hi2);
  }

  /**
   version_set.cc Version::GetOverlappingInputs. At level 0 the scan restarts every time a picked file
   widens the range; `lo` and `hi` are the range it ends with.
   */
  method GetOverlappingInputs(level: nat, files: seq<File>, begin: Bound, end: Bound)
    returns (inputs: seq<File>, ghost lo: Bound, ghost hi: Bound)
    ensures inputs == OverlapFilter(files, lo, hi)
    ensures level > 0 ==> lo == begin && hi == end
    ensures level == 0 ==> LeastClosed(files, lo, hi, begin, end)
    ensures GainCovered(inputs, lo, hi, begin, end)
  {
    inputs := [];
    var userBegin, userEnd := begin, end;
    var i := 0;
    while i < |files|
      invariant 0 <= i <= |files|
      invariant level > 0 ==> userBegin == begin && userEnd == end
      invariant Forced(files, userBegin, userEnd, begin, end)
      invariant GainCovered(files, userBegin, userEnd, begin, end)
      invariant inputs == OverlapFilter(files[..i], userBegin, userEnd)
      invariant level == 0 ==> ClosedUnder(files[..i], userBegin, userEnd)
      decreases Below(files, userBegin), Above(files, userEnd), |files| - i
    {
      var f := files[i];
      ScanOne(files, i, userBegin, userEnd);
      i := i + 1;
      if !Overlaps(f, userBegin, userEnd) {
      } else {
        inputs := inputs + [f];
        if level == 0 {
          if userBegin.Some? && f.smallest.user < userBegin.value {
            WidenLow(files, f, userBegin, userEnd, begin, end);
            userBegin := Some(f.smallest.user);
            inputs := [];
            i := 0;
          } else if userEnd.Some? && f.largest.user > userEnd.value {
            WidenHigh(files, f, userBegin, userEnd, begin, end);
            userEnd := Some(f.largest.user);
            inputs := [];
            i := 0;
          }
        }
      }
    }
    assert files[..|files|] == files;
    lo, hi := userBegin, userEnd;
    GainByInputs(files, lo, hi, begin, end);
  }

  lemma {:induction false} GainByInputs(files: seq<File>, lo: Bound, hi: Bound, begin: Bound, end: Bound)
    requires GainCovered(files, lo, hi, begin, end)
    ensures GainCovered(OverlapFilter(files, lo, hi), lo, hi, begin, end)
  {
    forall k | InRange(k, lo, hi) && !InRange(k, begin, end)
      ensures Covered(OverlapFilter(files, lo, hi), k)
    {
      var f :| f in files && Covers(f, k);
      assert Overlaps(f, lo, hi);
    }
  }

  lemma {:induction false} ScanOne(files: seq<File>, i: nat, lo: Bound, hi: Bound)
    requires i < |files|
    ensures OverlapFilter(files[..i + 1], lo, hi) ==
              OverlapFilter(files[..i], lo, hi) + (if Overlaps(files[i], lo, hi) then [files[i]] else [])
    ensures ClosedUnder(files[..i], lo, hi) && (Overlaps(files[i], lo, hi) ==>
              (lo.Some? ==> lo.value <= files[i].smallest.user) && (hi.Some? ==> files[i].largest.user <= hi.value))
            ==> ClosedUnder(files[..i + 1], lo, hi)
  {
    assert files[..i + 1][..i] == files[..i];
    assert files[..i + 1] == files[..i] + [files[i]];
  }

  lemma {:induction false} FilterGrows(files: seq<File>, lo: Bound, hi: Bound, lo2: Bound, hi2: Bound)
    requires Contains(lo2, hi2, lo, hi)
    ensures |OverlapFilter(files, lo, hi)| <= |OverlapFilter(files, lo2, hi2)|
    ensures |OverlapFilter(files, lo, hi)| == |OverlapFilter(files, lo2, hi2)| ==>
              OverlapFilter(files, lo, hi) == OverlapFilter(files, lo2, hi2)
  {
    if files != [] {
      FilterGrows(files[..|files| - 1], lo, hi, lo2, hi2);
    }
  }

  // ----- GetRange

  /** [smallest, largest] is the tightest internal-key range around the files. */
  ghost predicate IsRange(files: seq<File>, smallest: InternalKey, largest: InternalKey) {
    && (exists f :: f in files && f.smallest == smallest)
    && (exists f :: f in files && f.largest == largest)
    && (forall f :: f in files ==> AtMost(smallest, f.smallest) && AtMost(f.largest, largest))
  }

  lemma {:induction false} RangeGrows(inputs: seq<File>, i: nat, smallest: InternalKey, largest: InternalKey)
    requires i < |inputs| && IsRange(inputs[..i], smallest, largest)
    ensures var f := inputs[i];
            IsRange(inputs[..i + 1], if Less(f.smallest, smallest) then f.smallest else smallest,
                    if Less(largest, f.largest) then f.largest else largest)
  {
    var f := inputs[i];
    assert inputs[..i + 1] == inputs[..i] + [f];
    assert f in inputs[..i + 1];
    TotalOrder(f.smallest, smallest);
    TotalOrder(f.largest, largest);
  }

  /** version_set.cc VersionSet::GetRange. */
  method GetRange(inputs: seq<File>) returns (smallest: InternalKey, largest: InternalKey)
    requires inputs != []
    ensures IsRange(inputs, smallest, largest)
  {
    smallest, largest := inputs[0].smallest, inputs[0].largest;
    for i := 1 to |inputs|
      invariant IsRange(inputs[..i], smallest, largest)
    {
      var f := inputs[i];
      RangeGrows(inputs, i, smallest, largest);
      if Less(f.smallest, smallest) {
        smallest := f.smallest;
      }
      if Less(largest, f.largest) {
        largest := f.largest;
      }
    }
    assert inputs[..|inputs|] == inputs;
  }

  lemma {:induction false} TotalOrder(a: InternalKey, b: InternalKey)
    ensures a == b || Less(a, b) || Less(b, a)
  {
  }

  /** The smallest and largest user key spanned by a nonempty list of files. */
  function MinUser(files: seq<File>): (k: UserKey)
    requires files != []
    ensures forall f :: f in files ==> k <= f.smallest.user
    ensures exists f :: f in files && f.smallest.user == k
  {
    if |files| == 1 then files[0].smallest.user
    else
      var rest := MinUser(files[1..]);
      if files[0].smallest.user < rest then files[0].smallest.user else rest
  }

  function MaxUser(files: seq<File>): (k: UserKey)
    requires files != []
    ensures forall f :: f in files ==> f.largest.user <= k
    ensures exists f :: f in files && f.largest.user == k
  {
    if |files| == 1 then files[0].largest.user
    else
      var rest := MaxUser(files[1..]);
      if files[0].largest.user > rest then files[0].largest.user else rest
  }

  lemma {:induction false} RangeUserKeys(files: seq<File>, s: InternalKey, l: InternalKey)
    requires files != [] && IsRange(files, s, l)
    ensures s.user == MinUser(files) && l.user == MaxUser(files)
  {
  }
}
