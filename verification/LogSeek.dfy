/**
 Opening a log at an offset: which records come back, and which drops are reported although nothing is damaged.
 */
module LogSeek {
  import opened Entries
  import opened LogFormat
  import opened LogReader
  import opened LogRoundTrip

  // ----- when a skipped record is reported

  /** A fragment before the offset ends the resynchronisation. */
  lemma {:induction false} ResyncEnds(pos: nat, left: nat, size: nat, initial: nat)
    requires Align(pos) < initial
    ensures SkipReports(pos, left, size, true, initial) == SkipReports(pos, left, size, false, initial)
  {
  }

  /** A record that ends by the offset is not reported. */
  lemma {:induction false} EarlyIsQuiet(pos: nat, left: nat, size: nat, resyncing: bool, initial: nat)
    requires RecordEnd(pos, left) <= initial || size <= initial
    ensures SkipReports(pos, left, size, resyncing, initial) == []
    decreases left, Rank(pos)
  {
    FragmentProgress(pos, left);
    RecordEndLater(pos, left);
    AlignFits(pos);
    var n, next := FragmentLength(pos, left), FragmentEnd(pos, left);
    if next <= size && n < left {
      EarlyIsQuiet(next, left - n, size, resyncing && Align(pos) >= initial, initial);
    }
  }

  /** Nor is one that is entered behind the offset while resynchronising. */
  lemma {:induction false} ResyncIsQuiet(pos: nat, left: nat, size: nat, initial: nat)
    requires pos >= initial
    ensures SkipReports(pos, left, size, true, initial) == []
    decreases left, Rank(pos)
  {
    FragmentProgress(pos, left);
    AlignFits(pos);
    var n, next := FragmentLength(pos, left), FragmentEnd(pos, left);
    if next <= size && n < left {
      ResyncIsQuiet(next, left - n, size, initial);
    }
  }

  /** The block after the one that holds position a. */
  function NextBlock(a: nat): nat {
    (a / BLOCK_SIZE + 1) * BLOCK_SIZE
  }

  /** A fragment that is not the last one is followed by one at the next block boundary. */
  lemma {:induction false} FragmentThenBlock(pos: nat, left: nat)
    ensures FragmentEnd(pos, left) <= NextBlock(Align(pos)) && Align(pos) < FragmentEnd(pos, left)
    ensures FragmentLength(pos, left) < left ==>
              FragmentEnd(pos, left) == NextBlock(Align(pos)) && Align(FragmentEnd(pos, left)) == FragmentEnd(pos, left)
  {
    FragmentStaysInBlock(pos, left);
    AlignFits(pos);
  }

  lemma {:induction false} NextOfEarlier(a: nat, initial: nat)
    requires a < initial && StartBlock(initial) < initial
    ensures NextBlock(a) <= StartBlock(initial) + BLOCK_SIZE
    ensures NextBlock(a) >= initial ==> NextBlock(a) == StartBlock(initial) + BLOCK_SIZE
  {
  }

  lemma {:induction false} ReportedIfLate(pos: nat, left: nat, size: nat, initial: nat)
    requires Align(pos) >= initial && FragmentEnd(pos, left) <= size
    ensures SkipReports(pos, left, size, false, initial) != []
  {
  }

  /** A record that starts before the offset is reported if it goes on behind the block where the reader starts. */
  lemma {:induction false} LateIff(pos: nat, left: nat, size: nat, initial: nat)
    requires Align(pos) < initial && StartBlock(initial) < initial && RecordEnd(pos, left) <= size
    ensures SkipReports(pos, left, size, false, initial) == [] <==>
              RecordEnd(pos, left) <= StartBlock(initial) + BLOCK_SIZE
    decreases left, Rank(pos)
  {
    FragmentProgress(pos, left);
    FragmentThenBlock(pos, left);
    RecordEndLater(pos, left);
    NextOfEarlier(Align(pos), initial);
    hide FragmentLength;
    hide FragmentEnd;
    hide Align;
    hide StartBlock;
    hide NextBlock;
    var n, next := FragmentLength(pos, left), FragmentEnd(pos, left);
    if n < left {
      RecordEndLater(next, left - n);
      if next < initial {
        LateIff(next, left - n, size, initial);
      } else {
        FragmentThenBlock(next, left - n);
        ReportedIfLate(next, left - n, size, initial);
      }
    }
  }

  // ----- reading on

  lemma {:induction false} SkipsWholeReports(phys: nat -> Phys, size: nat, pos: nat, left: Bytes, begin: bool,
          initial: nat, resyncing: bool)
    requires FragmentsAt(phys, size, pos, left, begin, initial) && (begin ==> Align(pos) < initial)
    requires var end := RecordEnd(pos, |left|);
             var r := ReadRec(phys, size, Scan(end, false, false, [], 0), initial);
             pos <= end && (r.record.Some? ==> end < r.pos <= size)
    ensures var end := RecordEnd(pos, |left|);
            ReadAllReports(phys, size, pos, resyncing, initial) ==
              SkipReports(pos, |left|, size, resyncing, initial) +
              (if end <= size then ReadAllReports(phys, size, end, false, initial) else [])
  {
    hide ReadRec;
    hide FragmentsAt;
    hide SkipReports;
    hide RecordEnd;
    SkipsRecord(phys, size, Scan(pos, resyncing, false, [], 0), left, begin, initial);
    var end := RecordEnd(pos, |left|);
    var r := ReadRec(phys, size, Scan(end, false, false, [], 0), initial);
    if end <= size && r.record.Some? {
      Associate(SkipReports(pos, |left|, size, resyncing, initial), r.reports,
          ReadAllReports(phys, size, r.pos, r.resyncing, initial));
    }
  }

  lemma {:induction false} SamePhysReports(phys: nat -> Phys, size: nat, p: nat, q: nat, resyncing: bool, initial: nat)
    requires (EndsLog(phys(p)) && EndsLog(phys(q)))
        || (phys(p) == phys(q) && p < phys(p).next <= size && q < phys(p).next)
    ensures ReadRec(phys, size, Scan(p, resyncing, false, [], 0), initial).reports
         == ReadRec(phys, size, Scan(q, resyncing, false, [], 0), initial).reports
  {
    var s, t := Scan(p, resyncing, false, [], 0), Scan(q, resyncing, false, [], 0);
    assert OnRecord(t, phys(q), initial).Continue? ==> OnRecord(s, phys(q), initial) == OnRecord(t, phys(q), initial);
  }

  lemma {:induction false} AtAlignReports(crc: Crc, file: Bytes, pos: nat, resyncing: bool, initial: nat)
    ensures var phys := Reading(crc, file, initial);
            ReadAllReports(phys, |file|, pos, resyncing, initial) ==
                ReadAllReports(phys, |file|, Align(pos), resyncing, initial)
  {
    hide OnRecord;
    hide ReadRec;
    hide PhysRead;
    AlignFits(pos);
    var phys := Reading(crc, file, initial);
    AlignedPhys(crc, file, pos, initial);
    SamePhys(phys, |file|, pos, Align(pos), resyncing, initial);
    SamePhysReports(phys, |file|, pos, Align(pos), resyncing, initial);
    ReadRecAdvances(crc, file, Scan(Align(pos), resyncing, false, [], 0), initial);
    ReadRecAdvances(crc, file, Scan(pos, resyncing, false, [], 0), initial);
  }

  /** The drops reported when reading on from the start of record i: those of the last record before the offset. */
  function ReportsFrom(records: seq<Bytes>, starts: seq<nat>, size: nat, initial: nat, k: nat, i: nat): seq<nat>
    requires |starts| == |records| + 1 && k <= |records|
  {
    if i < k && starts[k - 1] <= size then SkipReports(starts[k - 1], |records[k - 1]|, size, false, initial) else []
  }

  lemma {:induction false} EndsEarly(starts: seq<nat>, initial: nat, k: nat, i: nat)
    requires Ascending(starts) && FromOffset(starts, initial, k) && i + 1 < k
    ensures starts[i + 1] <= starts[k - 1] < initial
  {
    AlignFits(starts[k - 1]);
  }

  lemma {:induction false} ReportsOneRecord(crc: Crc, file: Bytes, pos: nat, record: Bytes, initial: nat,
      resyncing: bool)
    requires FragmentsAt(Reading(crc, file, initial), |file|, pos, record, true, initial)
    requires pos < RecordEnd(pos, |record|)
    ensures var phys, end := Reading(crc, file, initial), RecordEnd(pos, |record|);
            ReadAllReports(phys, |file|, pos, resyncing, initial) ==
              (if Align(pos) < initial then SkipReports(pos, |record|, |file|, false, initial) else []) +
              (if end <= |file| then ReadAllReports(phys, |file|, end, false, initial) else [])
  {
    hide FragmentsAt;
    hide SkipReports;
    hide ReadRec;
    hide ReadAllReports;
    if Align(pos) < initial {
      ReadRecAdvances(crc, file, Scan(RecordEnd(pos, |record|), false, false, [], 0), initial);
      SkipsWholeReports(Reading(crc, file, initial), |file|, pos, record, true, initial, resyncing);
      ResyncEnds(pos, |record|, |file|, initial);
    } else {
      ReadsOneRecord(crc, file, pos, record, initial, resyncing);
    }
  }

  lemma {:induction false} ReportsFromRecord(crc: Crc, file: Bytes, records: seq<Bytes>, starts: seq<nat>, initial: nat,
          k: nat, i: nat, resyncing: bool)
    requires HoldsLog(Reading(crc, file, initial), |file|, records, starts, initial)
    requires FromOffset(starts, initial, k) && |file| <= starts[|records|] && i <= |records| && starts[i] <= |file|
    ensures ReadAllReports(Reading(crc, file, initial), |file|, starts[i], resyncing, initial)
         == ReportsFrom(records, starts, |file|, initial, k, i)
    decreases |records| - i
  {
    hide PhysRead;
    hide ReadRec;
    hide ReadAllReports;
    hide Align;
    hide FragmentsAt;
    hide RecordEnd;
    hide SkipReports;
    if i == |records| {
      NothingMore(crc, file, starts[i], initial, resyncing);
    } else {
      StartsBefore(starts, i, |records|);
      ReportsOneRecord(crc, file, starts[i], records[i], initial, resyncing);
      if starts[i + 1] <= |file| {
        ReportsFromRecord(crc, file, records, starts, initial, k, i + 1, false);
      }
      if i + 1 < k {
        EndsEarly(starts, initial, k, i);
        EarlyIsQuiet(starts[i], |records[i]|, |file|, false, initial);
      }
    }
  }

  // ----- reading from an offset

  /** The drops a reader opened at the offset reports over a written log; k records start before the offset. */
  function SeekReports(records: seq<Bytes>, starts: seq<nat>, size: nat, initial: nat, k: nat): seq<nat>
    requires |starts| == |records| + 1 && k <= |records|
  {
    if StartBlock(initial) >= initial then [] else ReportsFrom(records, starts, size, initial, k, 0)
  }

  /** Nothing is reported of the part of a record before a block boundary that is before the offset. */
  lemma {:induction false} QuietBefore(pos: nat, left: nat, p: nat, size: nat, initial: nat)
    requires p % BLOCK_SIZE == 0 && Align(pos) < p < RecordEnd(pos, left) && p <= size && p < initial
    ensures SkipReports(p, LeftAt(pos, left, p), size, false, initial) == SkipReports(pos, left, size, false, initial)
    decreases left, Rank(pos)
  {
    FragmentProgress(pos, left);
    FragmentThenBlock(pos, left);
    NextIsNear(Align(pos), p);
    hide FragmentLength;
    hide FragmentEnd;
    hide Align;
    hide NextBlock;
    var n, next := FragmentLength(pos, left), FragmentEnd(pos, left);
    if p != next {
      QuietBefore(next, left - n, p, size, initial);
    }
  }

  lemma {:induction false} NextIsNear(a: nat, p: nat)
    requires a < p && p % BLOCK_SIZE == 0
    ensures NextBlock(a) <= p
  {
  }

  lemma {:induction false} EntersInside(crc: Crc, file: Bytes, pos: nat, record: Bytes, initial: nat)
    requires FragmentsAt(Reading(crc, file, initial), |file|, pos, record, true, initial)
    requires Align(pos) < StartBlock(initial) < RecordEnd(pos, |record|) && StartBlock(initial) <= |file|
    ensures var phys, end := Reading(crc, file, initial), RecordEnd(pos, |record|);
            ReadAllReports(phys, |file|, StartBlock(initial), initial > 0, initial) ==
              (if StartBlock(initial) < initial then SkipReports(pos, |record|, |file|, false, initial) else []) +
              (if end <= |file| then ReadAllReports(phys, |file|, end, false, initial) else [])
  {
    hide ReadRec;
    hide ReadAllReports;
    hide SkipReports;
    hide FragmentsAt;
    var phys, p := Reading(crc, file, initial), StartBlock(initial);
    StartBlockMissesNothing(initial, pos);
    AlignFits(p);
    assert Align(p) == p;
    var rest := EnterRecord(phys, |file|, pos, record, true, initial, p);
    ReadRecAdvances(crc, file, Scan(RecordEnd(pos, |record|), false, false, [], 0), initial);
    SkipsWholeReports(phys, |file|, p, rest, false, initial, initial > 0);
    if p < initial {
      ResyncEnds(p, |rest|, |file|, initial);
      QuietBefore(pos, |record|, p, |file|, initial);
    } else {
      ResyncIsQuiet(p, |rest|, |file|, initial);
    }
  }

  /** The block boundary falls behind the first header of record i. */
  lemma {:induction false} SeeksInside(crc: Crc, file: Bytes, records: seq<Bytes>, starts: seq<nat>, initial: nat,
      k: nat, i: nat)
    requires HoldsLog(Reading(crc, file, initial), |file|, records, starts, initial)
    requires FromOffset(starts, initial, k) && |file| <= starts[|records|] && i < |records|
    requires Align(starts[i]) < StartBlock(initial) < starts[i + 1] && StartBlock(initial) < |file|
    ensures ReadAllReports(Reading(crc, file, initial), |file|, StartBlock(initial), initial > 0, initial)
         == SeekReports(records, starts, |file|, initial, k)
  {
    hide PhysRead;
    hide ReadRec;
    hide ReadAllReports;
    hide FragmentsAt;
    hide RecordEnd;
    hide SkipReports;
    var p := StartBlock(initial);
    AlignFits(starts[i]);
    AlignFits(starts[i + 1]);
    EntersInside(crc, file, starts[i], records[i], initial);
    StartBlockMissesNothing(initial, starts[i]);
    if starts[i + 1] <= |file| {
      ReportsFromRecord(crc, file, records, starts, initial, k, i + 1, false);
    }
    if i + 1 < k {
      EndsEarly(starts, initial, k, i);
      EarlyIsQuiet(starts[i], |records[i]|, |file|, false, initial);
    }
  }

  lemma {:induction false} SeeksReports(crc: Crc, file: Bytes, records: seq<Bytes>, starts: seq<nat>, initial: nat,
      k: nat)
    requires HoldsLog(Reading(crc, file, initial), |file|, records, starts, initial)
    requires FromOffset(starts, initial, k) && starts[0] == 0 && |file| <= starts[|records|]
    ensures ReadAllReports(Reading(crc, file, initial), |file|, StartBlock(initial), initial > 0, initial)
         == SeekReports(records, starts, |file|, initial, k)
  {
    hide PhysRead;
    hide ReadRec;
    hide ReadAllReports;
    hide FragmentsAt;
    hide RecordEnd;
    hide SkipReports;
    var p := StartBlock(initial);
    if p >= |file| {
      NothingMore(crc, file, p, initial, initial > 0);
      if p < initial && 0 < k {
        EarlyIsQuiet(starts[k - 1], |records[k - 1]|, |file|, false, initial);
      }
    } else {
      var i := RecordAt(starts, p);
      AlignFits(starts[i]);
      if Align(starts[i]) < p {
        SeeksInside(crc, file, records, starts, initial, k, i);
      } else {
        AtBoundary(starts[i], initial);
        AtAlignReports(crc, file, starts[i], initial > 0, initial);
        ReportsFromRecord(crc, file, records, starts, initial, k, i, initial > 0);
      }
    }
  }

  lemma {:induction false} AtBoundary(pos: nat, initial: nat)
    requires pos <= StartBlock(initial) <= Align(pos)
    ensures Align(pos) == StartBlock(initial)
  {
    StartBlockMissesNothing(initial, pos);
    AlignFits(pos);
  }

  /**
   A reader with any initial offset, over a log that may be torn: exactly the records whose first header is at or
   after the offset and that lie wholly inside the file. The drops it reports are those of the last record before
   the offset, as far as it goes on behind the block where the reader starts.
   */
  lemma {:induction false} SeekReadsSuffix(crc: Crc, records: seq<Bytes>, n: nat, m: nat, initial: nat, k: nat)
    requires n <= |LogBytes(crc, records)|
    requires WhollyInside(Starts(crc, records), n, m) && FromOffset(Starts(crc, records), initial, k)
    ensures ReadAll(Reading(crc, LogBytes(crc, records)[..n], initial), n, StartBlock(initial), initial > 0, initial)
              == Between(records, k, m)
    ensures ReadAllReports(Reading(crc, LogBytes(crc, records)[..n], initial), n, StartBlock(initial), initial > 0,
        initial)
              == SeekReports(records, Starts(crc, records), n, initial, k)
  {
    hide Reading;
    WrittenLog(crc, records, n, initial);
    SeeksReports(crc, LogBytes(crc, records)[..n], records, Starts(crc, records), initial, k);
    SeeksInFile(crc, LogBytes(crc, records)[..n], records, Starts(crc, records), m, initial, k);
  }

  /**
   A seek into an intact log is reported as a corruption if and only if the last record that starts before the
   offset reaches beyond the block where the reader starts, and the offset is not where that block starts.
   */
  lemma {:induction false} SeekIsQuietIff(crc: Crc, records: seq<Bytes>, initial: nat, k: nat)
    requires FromOffset(Starts(crc, records), initial, k)
    ensures var log, starts := LogBytes(crc, records), Starts(crc, records);
            ReadAllReports(Reading(crc, log, initial), |log|, StartBlock(initial), initial > 0, initial) == [] <==>
              StartBlock(initial) >= initial || k == 0 || starts[k] <= StartBlock(initial) + BLOCK_SIZE
  {
    hide Reading;
    hide SkipReports;
    hide StartBlock;
    var log, starts := LogBytes(crc, records), Starts(crc, records);
    assert log[..|log|] == log && records[..|records|] == records;
    WrittenLog(crc, records, |log|, initial);
    SeekReadsSuffix(crc, records, |log|, |records|, initial, k);
    if k > 0 && StartBlock(initial) < initial {
      StartsAscend(crc, records, k, |records|);
      RecordPlace(crc, records, k - 1);
      assert starts[k] == RecordEnd(starts[k - 1], |records[k - 1]|);
      LateIff(starts[k - 1], |records[k - 1]|, |log|, initial);
    }
  }

  lemma {:induction false} TwoBlocks()
    ensures Align(0) == 0 && RecordEnd(0, 40000) == BLOCK_SIZE + HEADER_SIZE + 7239
    ensures SkipReports(0, 40000, RecordEnd(0, 40000), false, 1) == [7239]
  {
    assert RecordEnd(BLOCK_SIZE, 7239) == BLOCK_SIZE + HEADER_SIZE + 7239;
    assert SkipReports(BLOCK_SIZE, 7239, BLOCK_SIZE + HEADER_SIZE + 7239, false, 1) == [7239];
  }

  /** The smallest case: one record over two blocks, and a reader opened behind its first byte. */
  lemma {:induction false} SeekReportsIntactLog(crc: Crc, record: Bytes)
    requires |record| == 40000
    ensures var log := LogBytes(crc, [record]);
            ReadAllReports(Reading(crc, log, 1), |log|, StartBlock(1), true, 1) == [7239]
  {
    hide Reading;
    hide SkipReports;
    hide RecordEnd;
    hide Align;
    hide Emit;
    hide LogBytes;
    hide ReadAllReports;
    var records := [record];
    var log, starts := LogBytes(crc, records), Starts(crc, records);
    TwoBlocks();
    assert records[..0] == [] && records[..1] == records && log[..|log|] == log;
    WrittenLog(crc, records, |log|, 1);
    RecordPlace(crc, records, 0);
    hide Agrees;
    assert FromOffset(starts, 1, 1);
    SeekReadsSuffix(crc, records, |log|, 1, 1, 1);
  }
}
