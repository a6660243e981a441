/**
 What a log reader returns for the bytes a log writer appended: torn tails and initial offsets.
 */
module LogRoundTrip {
  import opened Entries
  import opened LogFormat
  import opened LogReader

  /** From `pos` on, the file holds the bytes `e`, or as many of them as it has room for. */
  predicate Agrees(file: Bytes, pos: nat, e: Bytes) {
    pos <= |file| && forall i :: 0 <= i < |e| && pos + i < |file| ==> file[pos + i] == e[i]
  }

  lemma {:induction false} AgreesOn(file: Bytes, pos: nat, e: Bytes, i: nat, j: nat)
    requires Agrees(file, pos, e) && i <= j <= |e| && pos + j <= |file|
    ensures file[pos + i..pos + j] == e[i..j]
  {
    forall k | 0 <= k < j - i ensures file[pos + i..pos + j][k] == e[i..j][k] {
      assert file[pos + (i + k)] == e[i + k];
    }
  }

  // ----- one physical record

  lemma {:induction false} HeaderRoundTrip(crc: Crc, t: Byte, payload: Bytes, buffer: Bytes)
    requires |payload| <= 0xffff && |buffer| >= HEADER_SIZE && buffer[..HEADER_SIZE] == Header(crc, t, payload)
    ensures DecodeFixed32(buffer) == crc(t, payload)
    ensures buffer[4] as nat + 256 * buffer[5] as nat == |payload| && buffer[6] == t
  {
    var h := Header(crc, t, payload);
    Fixed32RoundTrip(crc(t, payload));
    assert forall i :: 0 <= i < HEADER_SIZE ==> buffer[i] == buffer[..HEADER_SIZE][i];
  }

  /** What a reader of physical records makes of the fragment of `left` at `pos`. */
  function FragmentRead(pos: nat, left: Bytes, begin: bool, initial: nat): Phys {
    var n := FragmentLength(pos, |left|);
    if Align(pos) < initial then Phys(BAD_RECORD, [], FragmentEnd(pos, |left|), None)
    else Phys(FragmentType(begin, n == |left|) as nat, left[..n], FragmentEnd(pos, |left|), None)
  }

  predicate EndsLog(p: Phys) {
    p.kind == EOF && p.payload == [] && p.dropped.None?
  }

  lemma {:induction false} ParsesRecord(crc: Crc, t: Byte, payload: Bytes, buffer: Bytes, end: nat, eof: bool,
      initial: nat)
    requires t != 0 && |payload| <= 0xffff && HEADER_SIZE + |payload| <= |buffer| <= end
    requires buffer[..HEADER_SIZE] == Header(crc, t, payload) && buffer[HEADER_SIZE..HEADER_SIZE + |payload|] == payload
    ensures ParseBuffer(crc, buffer, end, eof, initial) ==
              var next := end - |buffer| + HEADER_SIZE + |payload|;
              if end - |buffer| < initial then Phys(BAD_RECORD, [], next, None) else Phys(t as nat, payload, next, None)
  {
    HeaderRoundTrip(crc, t, payload, buffer);
  }

  lemma {:induction false} ParsesTorn(crc: Crc, t: Byte, payload: Bytes, buffer: Bytes, end: nat, initial: nat)
    requires |payload| <= 0xffff && HEADER_SIZE <= |buffer| < HEADER_SIZE + |payload| && |buffer| <= end
    requires buffer[..HEADER_SIZE] == Header(crc, t, payload)
    ensures EndsLog(ParseBuffer(crc, buffer, end, true, initial))
  {
    HeaderRoundTrip(crc, t, payload, buffer);
  }

  lemma {:induction false} FragmentParts(crc: Crc, pos: nat, left: Bytes, begin: bool)
    ensures var n, f, p := FragmentLength(pos, |left|), Fragment(crc, pos, left, begin), Align(pos) - pos;
            && p >= 0 && |f| == p + HEADER_SIZE + n
            && f[p..p + HEADER_SIZE] == Header(crc, FragmentType(begin, n == |left|), left[..n])
            && f[p + HEADER_SIZE..] == left[..n]
  {
    AlignFits(pos);
  }

  /** The header of a fragment in the file, and its payload as far as the file goes. */
  lemma {:induction false} FragmentInFile(crc: Crc, file: Bytes, pos: nat, left: Bytes, begin: bool, end: nat)
    requires Agrees(file, pos, Fragment(crc, pos, left, begin)) && Align(pos) + HEADER_SIZE <= end <= |file|
    ensures var n, a := FragmentLength(pos, |left|), Align(pos);
            && file[a..end][..HEADER_SIZE] == Header(crc, FragmentType(begin, n == |left|), left[..n])
            && (a + HEADER_SIZE + n <= end ==> file[a..end][HEADER_SIZE..HEADER_SIZE + n] == left[..n])
  {
    FragmentParts(crc, pos, left, begin);
    hide Header;
    hide Fragment;
    hide FragmentLength;
    hide FragmentType;
    hide Align;
    hide Agrees;
    var f, p, n := Fragment(crc, pos, left, begin), Align(pos) - pos, FragmentLength(pos, |left|);
    AgreesOn(file, pos, f, p, p + HEADER_SIZE);
    Subslices(file, pos + p, end, n);
    if Align(pos) + HEADER_SIZE + n <= end {
      AgreesOn(file, pos, f, p + HEADER_SIZE, |f|);
    }
  }

  lemma {:induction false} Subslices(file: Bytes, a: nat, end: nat, n: nat)
    requires a + HEADER_SIZE <= end <= |file|
    ensures file[a..end][..HEADER_SIZE] == file[a..a + HEADER_SIZE]
    ensures a + HEADER_SIZE + n <= end ==>
              file[a..end][HEADER_SIZE..HEADER_SIZE + n] == file[a + HEADER_SIZE..a + HEADER_SIZE + n]
  {
    var buffer := file[a..end];
    assert forall k :: 0 <= k < |buffer| ==> buffer[k] == file[a + k];
    if a + HEADER_SIZE + n <= end {
      var x, y := buffer[HEADER_SIZE..HEADER_SIZE + n], file[a + HEADER_SIZE..a + HEADER_SIZE + n];
      assert |x| == |y| && forall k :: 0 <= k < n ==> x[k] == buffer[HEADER_SIZE + k] == y[k];
    }
  }

  /** A fragment wholly inside the file is read back, or skipped when its header is before the initial offset. */
  lemma {:induction false} ReadsFragment(crc: Crc, file: Bytes, pos: nat, left: Bytes, begin: bool, initial: nat)
    requires Agrees(file, pos, Fragment(crc, pos, left, begin)) && FragmentEnd(pos, |left|) <= |file|
    ensures PhysRead(crc, file, pos, initial) == FragmentRead(pos, left, begin, initial)
  {
    AlignFits(pos);
    FragmentStaysInBlock(pos, |left|);
    var n, a := FragmentLength(pos, |left|), Align(pos);
    var end := BufferEnd(file, a);
    FragmentInFile(crc, file, pos, left, begin, end);
    ParsesRecord(crc, FragmentType(begin, n == |left|), left[..n], file[a..end], end, end % BLOCK_SIZE != 0, initial);
  }

  /** A torn fragment reads as the end of the file. */
  lemma {:induction false} TornFragment(crc: Crc, file: Bytes, pos: nat, left: Bytes, begin: bool, initial: nat)
    requires Agrees(file, pos, Fragment(crc, pos, left, begin)) && |file| < FragmentEnd(pos, |left|)
    ensures EndsLog(PhysRead(crc, file, pos, initial))
  {
    AlignFits(pos);
    FragmentStaysInBlock(pos, |left|);
    var n, a := FragmentLength(pos, |left|), Align(pos);
    if a + HEADER_SIZE <= |file| {
      assert BufferEnd(file, a) == |file| && |file| % BLOCK_SIZE != 0;
      FragmentInFile(crc, file, pos, left, begin, |file|);
      ParsesTorn(crc, FragmentType(begin, n == |left|), left[..n], file[a..|file|], |file|, initial);
    }
  }

  // ----- one logical record

  lemma {:induction false} EmitParts(crc: Crc, file: Bytes, pos: nat, left: Bytes, begin: bool)
    requires Agrees(file, pos, Emit(crc, pos, left, begin))
    ensures Agrees(file, pos, Fragment(crc, pos, left, begin))
    ensures var n, next := FragmentLength(pos, |left|), FragmentEnd(pos, |left|);
            && pos + HEADER_SIZE <= next
            && (n == |left| ==> pos + |Emit(crc, pos, left, begin)| == next)
            && (n < |left| ==> pos + |Emit(crc, pos, left, begin)| == next + |Emit(crc, next, left[n..], false)|)
            && (n < |left| && next <= |file| ==> Agrees(file, next, Emit(crc, next, left[n..], false)))
  {
    AlignFits(pos);
    FragmentSize(crc, pos, left, begin);
    EmitUnfolds(crc, pos, left, begin, []);
    var n, next := FragmentLength(pos, |left|), FragmentEnd(pos, |left|);
    var f, rest := Fragment(crc, pos, left, begin), if n == |left| then [] else Emit(crc, next, left[n..], false);
    assert [] + f == f && [] + Emit(crc, pos, left, begin) == Emit(crc, pos, left, begin);
    AgreesParts(file, pos, f, rest);
  }

  lemma {:induction false} AgreesParts(file: Bytes, pos: nat, f: Bytes, rest: Bytes)
    requires Agrees(file, pos, f + rest)
    ensures Agrees(file, pos, f) && (pos + |f| <= |file| ==> Agrees(file, pos + |f|, rest))
  {
    assert forall i :: 0 <= i < |f| ==> (f + rest)[i] == f[i];
    if pos + |f| <= |file| {
      forall i | 0 <= i < |rest| && pos + |f| + i < |file| ensures file[pos + |f| + i] == rest[i] {
        assert file[pos + (|f| + i)] == (f + rest)[|f| + i];
      }
    }
  }

  /** Same outcome, whatever was reported. */
  predicate SameRecord(a: Result, b: Result) {
    && a.record == b.record
    && (a.record.Some? ==> a.offset == b.offset && a.pos == b.pos && a.resyncing == b.resyncing)
  }

  // ----- the fragments of one record

  /** The physical records at `pos` and on are the fragments of `left`, up to a torn one. */
  ghost predicate FragmentsAt(phys: nat -> Phys, size: nat, pos: nat, left: Bytes, begin: bool, initial: nat)
    decreases |left|, Rank(pos)
  {
    FragmentProgress(pos, |left|);
    var n, next := FragmentLength(pos, |left|), FragmentEnd(pos, |left|);
    if next > size then EndsLog(phys(pos))
    else
      && pos < next && phys(pos) == FragmentRead(pos, left, begin, initial)
      && (n < |left| ==> FragmentsAt(phys, size, next, left[n..], false, initial))
  }

  /** Where the record that has `left` still to come at `pos` ends. */
  function RecordEnd(pos: nat, left: nat): nat
    decreases left, Rank(pos)
  {
    FragmentProgress(pos, left);
    var n, next := FragmentLength(pos, left), FragmentEnd(pos, left);
    if n == left then next else RecordEnd(next, left - n)
  }

  lemma {:induction false} RecordEndLater(pos: nat, left: nat)
    ensures FragmentEnd(pos, left) <= RecordEnd(pos, left)
    decreases left, Rank(pos)
  {
    FragmentProgress(pos, left);
    var n, next := FragmentLength(pos, left), FragmentEnd(pos, left);
    if n < left {
      AlignFits(next);
      RecordEndLater(next, left - n);
    }
  }

  lemma {:induction false} EmitSize(crc: Crc, pos: nat, left: Bytes, begin: bool)
    ensures pos + |Emit(crc, pos, left, begin)| == RecordEnd(pos, |left|)
    decreases |left|, Rank(pos)
  {
    FragmentProgress(pos, |left|);
    FragmentSize(crc, pos, left, begin);
    var n, next := FragmentLength(pos, |left|), FragmentEnd(pos, |left|);
    if n < |left| {
      EmitSize(crc, next, left[n..], false);
    }
  }

  /** The bytes AddRecord appended read back as its fragments. */
  lemma {:induction false} BytesGiveFragments(crc: Crc, file: Bytes, pos: nat, left: Bytes, begin: bool, initial: nat)
    requires Agrees(file, pos, Emit(crc, pos, left, begin))
    ensures FragmentsAt(Reading(crc, file, initial), |file|, pos, left, begin, initial)
    decreases |left|, Rank(pos)
  {
    EmitParts(crc, file, pos, left, begin);
    FragmentProgress(pos, |left|);
    var n, next := FragmentLength(pos, |left|), FragmentEnd(pos, |left|);
    if next > |file| {
      TornFragment(crc, file, pos, left, begin, initial);
    } else {
      ReadsFragment(crc, file, pos, left, begin, initial);
      if n < |left| {
        BytesGiveFragments(crc, file, next, left[n..], false, initial);
      }
    }
  }

  lemma {:induction false} OnFragment(s: Scan, p: Phys, begin: bool, last: bool, initial: nat)
    requires p.kind == FragmentType(begin, last) as nat && p.dropped.None? && p.next >= HEADER_SIZE + |p.payload|
    requires s.inFragment == !begin && (s.resyncing ==> begin)
    ensures var start := if begin then p.next - HEADER_SIZE - |p.payload| else s.start;
            var scratch := (if begin then [] else s.scratch) + p.payload;
            OnRecord(s, p, initial) ==
              if last then Return(Result(Some(scratch), start, p.next, false, []))
              else Continue(Scan(p.next, false, true, scratch, start), [])
  {
    assert [] + p.payload == p.payload;
  }

  lemma {:induction false} OnSkipped(s: Scan, p: Phys, initial: nat)
    requires !s.inFragment && (p.kind == BAD_RECORD || p.kind == MIDDLE as nat || p.kind == LAST as nat)
    ensures var v := OnRecord(s, p, initial);
            && v.Continue? && v.s == s.(pos := p.next, resyncing := s.resyncing && p.kind == MIDDLE as nat)
            && v.reports == if s.resyncing || p.kind == BAD_RECORD then [] else Reported(|p.payload|, p.next, initial)
  {
  }

  lemma {:induction false} OnEnd(s: Scan, p: Phys, initial: nat)
    requires EndsLog(p)
    ensures OnRecord(s, p, initial) == Return(Result(None, 0, p.next, false, []))
  {
  }

  /** What one physical record does to ReadRec. */
  lemma {:induction false} ReadRecBy(phys: nat -> Phys, size: nat, s: Scan, initial: nat, v: Verdict)
    requires v == OnRecord(s, phys(s.pos), initial) && phys(s.pos).dropped.None?
    requires v.Continue? ==> s.pos < v.s.pos <= size
    ensures ReadRec(phys, size, s, initial) ==
              if v.Return? then v.r else Prepend(v.reports, ReadRec(phys, size, v.s, initial))
  {
    ReadRecUnfolds(phys, size, s, initial, []);
    assert forall r: Result :: Prepend([], r) == r;
    if v.Continue? {
      assert [] + [] + v.reports == v.reports;
    }
  }

  /** A record whose headers are not before the initial offset is read whole, or ends the log if it is torn. */
  lemma {:induction false} ReadsRecord(phys: nat -> Phys, size: nat, s: Scan, left: Bytes, begin: bool, initial: nat)
    requires FragmentsAt(phys, size, s.pos, left, begin, initial) && Align(s.pos) >= initial
    requires s.inFragment == !begin && (s.resyncing ==> begin)
    ensures var r, end := ReadRec(phys, size, s, initial), RecordEnd(s.pos, |left|);
            && r.reports == []
            && r.record == (if end <= size then Some((if begin then [] else s.scratch) + left) else None)
            && (r.record.Some? ==>
                  r.offset == (if begin then Align(s.pos) else s.start) && r.pos == end && !r.resyncing)
    decreases |left|, Rank(s.pos)
  {
    hide OnRecord;
    hide ReadRec;
    FragmentProgress(s.pos, |left|);
    RecordEndLater(s.pos, |left|);
    AlignFits(s.pos);
    var n, next := FragmentLength(s.pos, |left|), FragmentEnd(s.pos, |left|);
    var p := phys(s.pos);
    var v := OnRecord(s, p, initial);
    if next > size {
      OnEnd(s, p, initial);
      ReadRecBy(phys, size, s, initial, v);
    } else {
      OnFragment(s, p, begin, n == |left|, initial);
      ReadRecBy(phys, size, s, initial, v);
      if n == |left| {
        assert left[..n] == left;
      } else {
        AlignFits(next);
        ReadsRecord(phys, size, v.s, left[n..], false, initial);
        Regroup(if begin then [] else s.scratch, left[..n], left[n..]);
        assert left[..n] + left[n..] == left;
      }
    }
  }

  /**
   The drops reported while the fragments of a record that is not returned are passed over: one for each fragment
   whose header is at or after the initial offset, once a fragment before the offset has ended the resynchronisation.
   */
  function SkipReports(pos: nat, left: nat, size: nat, resyncing: bool, initial: nat): seq<nat>
    decreases left, Rank(pos)
  {
    FragmentProgress(pos, left);
    var n, next := FragmentLength(pos, left), FragmentEnd(pos, left);
    if next > size then []
    else
      (if Align(pos) >= initial && !resyncing then [n] else []) +
      (if n < left then SkipReports(next, left - n, size, resyncing && Align(pos) >= initial, initial) else [])
  }

  /** What one fragment of a skipped record does to the reports. */
  lemma {:induction false} SkippedFragment(s: Scan, pos: nat, left: Bytes, initial: nat)
    requires !s.inFragment
    ensures var p := FragmentRead(pos, left, false, initial);
            var v := OnRecord(s, p, initial);
            && v.Continue? && v.s.pos == p.next && !v.s.inFragment
            && v.s == s.(pos := p.next, resyncing := v.s.resyncing)
            && v.reports == (if Align(pos) >= initial && !s.resyncing then [FragmentLength(pos, |left|)] else [])
            && (FragmentLength(pos, |left|) < |left| ==> v.s.resyncing == (s.resyncing && Align(pos) >= initial))
            && (FragmentLength(pos, |left|) == |left| ==> !v.s.resyncing)
  {
    AlignFits(pos);
    OnSkipped(s, FragmentRead(pos, left, false, initial), initial);
  }

  lemma {:induction false} SkipsFragments(phys: nat -> Phys, size: nat, s: Scan, left: Bytes, begin: bool, initial: nat)
    requires FragmentsAt(phys, size, s.pos, left, begin, initial) && (begin ==> Align(s.pos) < initial) && !s.inFragment
    ensures var r, end := ReadRec(phys, size, s, initial), RecordEnd(s.pos, |left|);
            if end <= size then SameRecord(r, ReadRec(phys, size, s.(pos := end, resyncing := false), initial))
            else r.record.None?
    decreases |left|, Rank(s.pos)
  {
    hide OnRecord;
    hide ReadRec;
    FragmentProgress(s.pos, |left|);
    RecordEndLater(s.pos, |left|);
    var n, next := FragmentLength(s.pos, |left|), FragmentEnd(s.pos, |left|);
    var p := phys(s.pos);
    var v := OnRecord(s, p, initial);
    if next > size {
      OnEnd(s, p, initial);
      ReadRecBy(phys, size, s, initial, v);
    } else {
      OnSkipped(s, p, initial);
      ReadRecBy(phys, size, s, initial, v);
      if n < |left| {
        SkipsFragments(phys, size, v.s, left[n..], false, initial);
      }
    }
  }

  lemma {:induction false} ReportsFragments(phys: nat -> Phys, size: nat, s: Scan, left: Bytes, begin: bool,
      initial: nat)
    requires FragmentsAt(phys, size, s.pos, left, begin, initial) && (begin ==> Align(s.pos) < initial) && !s.inFragment
    ensures var r, end := ReadRec(phys, size, s, initial), RecordEnd(s.pos, |left|);
            r.reports == SkipReports(s.pos, |left|, size, s.resyncing, initial) +
                         (if end <= size then ReadRec(phys, size, s.(pos := end, resyncing := false), initial).reports
                              else [])
    decreases |left|, Rank(s.pos)
  {
    hide OnRecord;
    hide ReadRec;
    hide FragmentRead;
    hide FragmentLength;
    FragmentProgress(s.pos, |left|);
    RecordEndLater(s.pos, |left|);
    var n, next := FragmentLength(s.pos, |left|), FragmentEnd(s.pos, |left|);
    var p := phys(s.pos);
    var v := OnRecord(s, p, initial);
    if next > size {
      OnEnd(s, p, initial);
      ReadRecBy(phys, size, s, initial, v);
    } else {
      SkippedAlike(s.pos, left, begin, initial);
      SkippedFragment(s, s.pos, left, initial);
      ReadRecBy(phys, size, s, initial, v);
      if n < |left| {
        ReportsFragments(phys, size, v.s, left[n..], false, initial);
        Associate(v.reports, SkipReports(next, |left| - n, size, v.s.resyncing, initial),
                  if RecordEnd(s.pos, |left|) <= size
                  then ReadRec(phys, size, s.(pos := RecordEnd(s.pos, |left|), resyncing := false), initial).reports
                       else []);
      }
    }
  }

  lemma {:induction false} SkippedAlike(pos: nat, left: Bytes, begin: bool, initial: nat)
    requires begin ==> Align(pos) < initial
    ensures var p := FragmentRead(pos, left, begin, initial);
            p == FragmentRead(pos, left, false, initial) && p.dropped.None? && p.next == FragmentEnd(pos, |left|)
  {
  }

  /**
   Fragments of a record whose first header is before the initial offset are passed over, never glued, and
   reported as SkipReports says.
   */
  lemma {:induction false} SkipsRecord(phys: nat -> Phys, size: nat, s: Scan, left: Bytes, begin: bool, initial: nat)
    requires FragmentsAt(phys, size, s.pos, left, begin, initial) && (begin ==> Align(s.pos) < initial) && !s.inFragment
    ensures var r, end := ReadRec(phys, size, s, initial), RecordEnd(s.pos, |left|);
            if end <= size then SameRecord(r, ReadRec(phys, size, s.(pos := end, resyncing := false), initial))
            else r.record.None?
    ensures var r, end := ReadRec(phys, size, s, initial), RecordEnd(s.pos, |left|);
            r.reports == SkipReports(s.pos, |left|, size, s.resyncing, initial) +
                         (if end <= size then ReadRec(phys, size, s.(pos := end, resyncing := false), initial).reports
                              else [])
  {
    SkipsFragments(phys, size, s, left, begin, initial);
    ReportsFragments(phys, size, s, left, begin, initial);
  }

  // ----- whole logs

  /** Where record i starts, and (for i == |records|) where the log ends. */
  function Start(crc: Crc, records: seq<Bytes>, i: nat): nat
    requires i <= |records|
  {
    |LogBytes(crc, records[..i])|
  }

  lemma {:induction false} LogPrefix(crc: Crc, records: seq<Bytes>, i: nat)
    requires i <= |records|
    ensures LogBytes(crc, records[..i]) <= LogBytes(crc, records)
    decreases |records|
  {
    if i < |records| {
      var front := records[..|records| - 1];
      assert front[..i] == records[..i];
      LogPrefix(crc, front, i);
    } else {
      assert records[..i] == records;
    }
  }

  /** Record i occupies the bytes Emit gives it. */
  lemma {:induction false} RecordPlace(crc: Crc, records: seq<Bytes>, i: nat)
    requires i < |records|
    ensures var pos := Start(crc, records, i);
            && Start(crc, records, i + 1) == pos + |Emit(crc, pos, records[i], true)| == RecordEnd(pos, |records[i]|)
            && Agrees(LogBytes(crc, records), pos, Emit(crc, pos, records[i], true))
  {
    hide Emit;
    hide RecordEnd;
    var pos := Start(crc, records, i);
    assert records[..i + 1][..i] == records[..i];
    LogPrefix(crc, records, i + 1);
    EmitSize(crc, pos, records[i], true);
    var before, log := LogBytes(crc, records[..i]), LogBytes(crc, records);
    var e := Emit(crc, pos, records[i], true);
    assert before + e <= log;
    forall k | 0 <= k < |e| ensures log[pos + k] == e[k] {
      assert (before + e)[pos + k] == e[k];
    }
  }

  /** Cutting the file keeps what is left of it. */
  lemma {:induction false} AgreesCut(file: Bytes, pos: nat, e: Bytes, n: nat)
    requires Agrees(file, pos, e) && pos <= n <= |file|
    ensures Agrees(file[..n], pos, e)
  {
  }

  /** The records a recovery loop reads: ReadRecord until it returns false. */
  function ReadAll(phys: nat -> Phys, size: nat, pos: nat, resyncing: bool, initial: nat): seq<Bytes>
    decreases if pos <= size then size - pos else 0
  {
    var r := ReadRec(phys, size, Scan(pos, resyncing, false, [], 0), initial);
    if r.record.None? then []
    else [r.record.value] + if pos < r.pos <= size then ReadAll(phys, size, r.pos, r.resyncing, initial) else []
  }

  function ReadAllReports(phys: nat -> Phys, size: nat, pos: nat, resyncing: bool, initial: nat): seq<nat>
    decreases if pos <= size then size - pos else 0
  {
    var r := ReadRec(phys, size, Scan(pos, resyncing, false, [], 0), initial);
    r.reports +
    if r.record.Some? && pos < r.pos <= size then ReadAllReports(phys, size, r.pos, r.resyncing, initial) else []
  }

  // A log seen as positions: starts[i] is where record i starts, and the last element is where the log ends.

  /** Record m is the first one not wholly inside the first n bytes. */
  predicate WhollyInside(starts: seq<nat>, n: nat, m: nat) {
    m < |starts| && starts[m] <= n && (m + 1 < |starts| ==> n < starts[m + 1])
  }

  /** Records k and on have their first header at or after the initial offset, the others before it. */
  predicate FromOffset(starts: seq<nat>, initial: nat, k: nat) {
    && k < |starts|
    && forall i :: 0 <= i < |starts| - 1 ==> (Align(starts[i]) < initial <==> i < k)
  }

  predicate Ascending(starts: seq<nat>) {
    && (forall i, j :: 0 <= i < j < |starts| ==> starts[i] < starts[j])
    && (forall i :: 0 <= i < |starts| - 1 ==> Align(starts[i]) < starts[i + 1])
  }

  /** The physical records of a file are those of the records, the last ones possibly cut off. */
  ghost predicate HoldsLog(phys: nat -> Phys, size: nat, records: seq<Bytes>, starts: seq<nat>, initial: nat) {
    && |starts| == |records| + 1 && Ascending(starts)
    && (forall i :: 0 <= i < |records| && starts[i] <= size ==>
          starts[i + 1] == RecordEnd(starts[i], |records[i]|)
              && FragmentsAt(phys, size, starts[i], records[i], true, initial))
  }

  /** The next record starts behind this one's first header. */
  lemma {:induction false} StartsApart(crc: Crc, records: seq<Bytes>, i: nat)
    requires i < |records|
    ensures var pos := Start(crc, records, i); pos <= Align(pos) < Align(pos) + HEADER_SIZE <= Start(crc, records,
        i + 1)
  {
    RecordPlace(crc, records, i);
    AlignFits(Start(crc, records, i));
    RecordEndLater(Start(crc, records, i), |records[i]|);
  }

  lemma {:induction false} StartsAscend(crc: Crc, records: seq<Bytes>, i: nat, j: nat)
    requires i <= j <= |records|
    ensures Start(crc, records, i) <= Start(crc, records, j)
    ensures i < j ==> Align(Start(crc, records, i)) + HEADER_SIZE <= Start(crc, records, j)
  {
    if i < j {
      StartsAscend(crc, records, i, j - 1);
      StartsApart(crc, records, j - 1);
    }
  }

  lemma {:induction false} NothingLeft(crc: Crc, file: Bytes, pos: nat, initial: nat, s: Scan)
    requires pos >= |file| && s.pos == pos && !s.inFragment
    ensures ReadRec(Reading(crc, file, initial), |file|, s, initial).record.None?
    ensures ReadRec(Reading(crc, file, initial), |file|, s, initial).reports == []
  {
    AlignFits(pos);
    OnEnd(s, PhysRead(crc, file, pos, initial), initial);
  }

  /** Equal outcomes of the next ReadRecord mean equal records from there on. */
  lemma {:induction false} SameReadAll(phys: nat -> Phys, size: nat, p: nat, rp: bool, q: nat, rq: bool, initial: nat)
    requires p <= q
    requires SameRecord(ReadRec(phys, size, Scan(p, rp, false, [], 0), initial),
        ReadRec(phys, size, Scan(q, rq, false, [], 0), initial))
    requires var r := ReadRec(phys, size, Scan(q, rq, false, [], 0), initial); r.record.Some? ==> q < r.pos <= size
    ensures ReadAll(phys, size, p, rp, initial) == ReadAll(phys, size, q, rq, initial)
  {
  }

  lemma {:induction false} ReadRecAdvances(crc: Crc, file: Bytes, s: Scan, initial: nat)
    ensures var r := ReadRec(Reading(crc, file, initial), |file|, s, initial);
            r.record.Some? ==> s.pos < r.pos <= |file|
    decreases if s.pos <= |file| then |file| - s.pos else 0
  {
    PhysReadAdvances(crc, file, s.pos, initial);
    var v := OnRecord(s, PhysRead(crc, file, s.pos, initial), initial);
    if v.Continue? && s.pos < v.s.pos <= |file| {
      ReadRecAdvances(crc, file, v.s, initial);
    }
  }

  /** A log of records, cut after n bytes: the physical records from the start of record i on. */
  lemma {:induction false} RecordReadable(crc: Crc, records: seq<Bytes>, n: nat, i: nat, initial: nat)
    requires i < |records| && Start(crc, records, i) <= n <= |LogBytes(crc, records)|
    ensures FragmentsAt(Reading(crc, LogBytes(crc, records)[..n], initial), n, Start(crc, records, i), records[i],
        true, initial)
    ensures Start(crc, records, i) < Start(crc, records, i + 1) == RecordEnd(Start(crc, records, i), |records[i]|)
  {
    var pos := Start(crc, records, i);
    RecordPlace(crc, records, i);
    StartsApart(crc, records, i);
    AgreesCut(LogBytes(crc, records), pos, Emit(crc, pos, records[i], true), n);
    BytesGiveFragments(crc, LogBytes(crc, records)[..n], pos, records[i], true, initial);
  }

  lemma {:induction false} SkipsWhole(phys: nat -> Phys, size: nat, pos: nat, left: Bytes, begin: bool, initial: nat,
          resyncing: bool)
    requires FragmentsAt(phys, size, pos, left, begin, initial) && (begin ==> Align(pos) < initial)
    requires var end := RecordEnd(pos, |left|);
             var r := ReadRec(phys, size, Scan(end, false, false, [], 0), initial);
             pos <= end && (r.record.Some? ==> end < r.pos <= size)
    ensures var end := RecordEnd(pos, |left|);
            ReadAll(phys, size, pos, resyncing, initial) ==
                if end <= size then ReadAll(phys, size, end, false, initial) else []
  {
    SkipsRecord(phys, size, Scan(pos, resyncing, false, [], 0), left, begin, initial);
    var end := RecordEnd(pos, |left|);
    if end <= size {
      SameReadAll(phys, size, pos, resyncing, end, false, initial);
    }
  }

  lemma {:induction false} ReadsWhole(phys: nat -> Phys, size: nat, pos: nat, left: Bytes, initial: nat,
      resyncing: bool)
    requires FragmentsAt(phys, size, pos, left, true, initial) && Align(pos) >= initial && pos < RecordEnd(pos, |left|)
    ensures var end := RecordEnd(pos, |left|);
            && ReadAll(phys, size, pos, resyncing, initial) ==
                (if end <= size then [left] + ReadAll(phys, size, end, false, initial) else [])
            && ReadAllReports(phys, size, pos, resyncing, initial) ==
                (if end <= size then ReadAllReports(phys, size, end, false, initial) else [])
  {
    ReadsRecord(phys, size, Scan(pos, resyncing, false, [], 0), left, true, initial);
    assert [] + left == left;
  }

  lemma {:induction false} NothingMore(crc: Crc, file: Bytes, pos: nat, initial: nat, resyncing: bool)
    requires pos >= |file|
    ensures ReadAll(Reading(crc, file, initial), |file|, pos, resyncing, initial) == []
    ensures ReadAllReports(Reading(crc, file, initial), |file|, pos, resyncing, initial) == []
  {
    NothingLeft(crc, file, pos, initial, Scan(pos, resyncing, false, [], 0));
  }

  /** Reading on from the start of one record: it is read or skipped, and then the next one. */
  lemma {:induction false} ReadsOneRecord(crc: Crc, file: Bytes, pos: nat, record: Bytes, initial: nat, resyncing: bool)
    requires FragmentsAt(Reading(crc, file, initial), |file|, pos, record, true, initial)
    requires pos < RecordEnd(pos, |record|)
    ensures var phys, end := Reading(crc, file, initial), RecordEnd(pos, |record|);
            var rest := if end <= |file| then ReadAll(phys, |file|, end, false, initial) else [];
            && ReadAll(phys, |file|, pos, resyncing, initial) ==
                 (if Align(pos) < initial || end > |file| then [] else [record]) + rest
            && (Align(pos) >= initial ==>
                  ReadAllReports(phys, |file|, pos, resyncing, initial) ==
                    if end <= |file| then ReadAllReports(phys, |file|, end, false, initial) else [])
  {
    var phys, end := Reading(crc, file, initial), RecordEnd(pos, |record|);
    if Align(pos) < initial {
      ReadRecAdvances(crc, file, Scan(end, false, false, [], 0), initial);
      SkipsWhole(phys, |file|, pos, record, true, initial, resyncing);
    } else {
      ReadsWhole(phys, |file|, pos, record, initial, resyncing);
    }
  }

  /** Reading on from the start of record i. */
  lemma {:induction false} ReadsFromRecord(crc: Crc, file: Bytes, records: seq<Bytes>, starts: seq<nat>, m: nat,
          initial: nat, k: nat, i: nat, resyncing: bool)
    requires HoldsLog(Reading(crc, file, initial), |file|, records, starts, initial)
    requires WhollyInside(starts, |file|, m) && FromOffset(starts, initial, k) && |file| <= starts[|records|]
    requires i <= m
    ensures var phys := Reading(crc, file, initial);
            ReadAll(phys, |file|, starts[i], resyncing, initial) == Between(records, if i < k then k else i, m)
    decreases m - i
  {
    hide PhysRead;
    hide ReadRec;
    hide ReadAll;
    hide Align;
    hide FragmentsAt;
    hide RecordEnd;
    if i == |records| {
      NothingMore(crc, file, starts[i], initial, resyncing);
    } else {
      StartsBefore(starts, i, m);
      ReadsOneRecord(crc, file, starts[i], records[i], initial, resyncing);
      if i < m {
        StartsBefore(starts, i + 1, m);
        ReadsFromRecord(crc, file, records, starts, m, initial, k, i + 1, false);
        BetweenStep(records, if i < k then k else i, m);
      }
    }
  }

  /** Reading whole records from the start of record i on reports nothing. */
  lemma {:induction false} ReportsNothing(crc: Crc, file: Bytes, records: seq<Bytes>, starts: seq<nat>, i: nat)
    requires HoldsLog(Reading(crc, file, 0), |file|, records, starts, 0) && |file| <= starts[|records|]
    requires i <= |records| && starts[i] <= |file|
    ensures ReadAllReports(Reading(crc, file, 0), |file|, starts[i], false, 0) == []
    decreases |records| - i
  {
    if i == |records| {
      NothingLeft(crc, file, starts[i], 0, Scan(starts[i], false, false, [], 0));
    } else {
      StartsBefore(starts, i, |records|);
      ReadsOneRecord(crc, file, starts[i], records[i], 0, false);
      if starts[i + 1] <= |file| {
        ReportsNothing(crc, file, records, starts, i + 1);
      }
    }
  }

  lemma {:induction false} StartsBefore(starts: seq<nat>, i: nat, m: nat)
    requires Ascending(starts) && i <= m < |starts|
    ensures starts[i] <= starts[m] && (i + 1 < |starts| ==> starts[i] < starts[i + 1])
  {
  }

  lemma {:induction false} BetweenStep(records: seq<Bytes>, lo: nat, hi: nat)
    requires hi <= |records|
    ensures lo < hi ==> Between(records, lo, hi) == [records[lo]] + Between(records, lo + 1, hi)
  {
  }

  function Between(records: seq<Bytes>, lo: nat, hi: nat): seq<Bytes>
    requires hi <= |records|
  {
    if lo <= hi then records[lo..hi] else []
  }

  function Starts(crc: Crc, records: seq<Bytes>): seq<nat> {
    seq(|records| + 1, i requires 0 <= i <= |records| => Start(crc, records, i))
  }

  lemma {:induction false} StartsAreAscending(crc: Crc, records: seq<Bytes>)
    ensures Ascending(Starts(crc, records))
  {
    var starts := Starts(crc, records);
    forall i, j | 0 <= i < j < |starts| ensures starts[i] < starts[j] {
      StartsAscend(crc, records, i, j);
      StartsApart(crc, records, i);
    }
    forall i | 0 <= i < |starts| - 1 ensures Align(starts[i]) < starts[i + 1] {
      StartsApart(crc, records, i);
    }
  }

  /** The first n bytes of a written log hold its records. */
  lemma {:induction false} WrittenLog(crc: Crc, records: seq<Bytes>, n: nat, initial: nat)
    requires n <= |LogBytes(crc, records)|
    ensures HoldsLog(Reading(crc, LogBytes(crc, records)[..n], initial), n, records, Starts(crc, records), initial)
    ensures Starts(crc, records)[0] == 0 && Starts(crc, records)[|records|] == |LogBytes(crc, records)|
  {
    var starts := Starts(crc, records);
    assert records[..|records|] == records;
    StartsAreAscending(crc, records);
    forall i | 0 <= i < |records| && starts[i] <= n
      ensures starts[i + 1] == RecordEnd(starts[i], |records[i]|)
      ensures FragmentsAt(Reading(crc, LogBytes(crc, records)[..n], initial), n, starts[i], records[i], true, initial)
    {
      RecordReadable(crc, records, n, i, initial);
    }
  }

  /** A torn log, read from the start: exactly the records lying wholly inside it, and no corruption report. */
  lemma {:induction false} TornLogReadsWholeRecords(crc: Crc, records: seq<Bytes>, n: nat, m: nat)
    requires n <= |LogBytes(crc, records)| && WhollyInside(Starts(crc, records), n, m)
    ensures var phys := Reading(crc, LogBytes(crc, records)[..n], 0);
            ReadAll(phys, n, 0, false, 0) == records[..m] && ReadAllReports(phys, n, 0, false, 0) == []
  {
    WrittenLog(crc, records, n, 0);
    ReadsFromRecord(crc, LogBytes(crc, records)[..n], records, Starts(crc, records), m, 0, 0, 0, false);
    ReportsNothing(crc, LogBytes(crc, records)[..n], records, Starts(crc, records), 0);
  }

  /** An intact log reads back as the list of its records. */
  lemma {:induction false} LogRoundTrips(crc: Crc, records: seq<Bytes>)
    ensures var log := LogBytes(crc, records);
            var phys := Reading(crc, log, 0);
            ReadAll(phys, |log|, 0, false, 0) == records && ReadAllReports(phys, |log|, 0, false, 0) == []
  {
    var log := LogBytes(crc, records);
    assert log[..|log|] == log && records[..|records|] == records;
    WrittenLog(crc, records, |log|, 0);
    TornLogReadsWholeRecords(crc, records, |log|, |records|);
  }

  // ----- reading from an offset

  /** The first block read does not start behind a header at or after the initial offset. */
  lemma {:induction false} StartBlockMissesNothing(initial: nat, pos: nat)
    ensures StartBlock(initial) % BLOCK_SIZE == 0
    ensures Align(pos) < StartBlock(initial) ==> Align(pos) < initial
  {
    AlignFits(pos);
  }

  /**
   It is the block of the first place for a header there, but for one offset: six bytes before the end of a block no
   header fits any more, and the block is read all the same.
   */
  lemma {:induction false} StartBlockIsLatestIff(initial: nat)
    ensures StartBlock(initial) == Align(initial) / BLOCK_SIZE * BLOCK_SIZE <==>
              initial % BLOCK_SIZE != BLOCK_SIZE - 6
    ensures initial % BLOCK_SIZE == BLOCK_SIZE - 6 ==> StartBlock(initial) + BLOCK_SIZE == Align(initial)
  {
    var off, block := initial % BLOCK_SIZE, initial / BLOCK_SIZE;
    assert initial == block * BLOCK_SIZE + off;
    if off > BLOCK_SIZE - HEADER_SIZE {
      assert Align(initial) == (block + 1) * BLOCK_SIZE && Align(initial) / BLOCK_SIZE == block + 1;
    }
  }

  /** How much of a record is still to come at a block boundary p inside it. */
  function LeftAt(pos: nat, left: nat, p: nat): nat
    decreases left, Rank(pos)
  {
    FragmentProgress(pos, left);
    var n, next := FragmentLength(pos, left), FragmentEnd(pos, left);
    if p == next || n == left then left - n else LeftAt(next, left - n, p)
  }

  /** A block boundary inside a record, behind its first header, is where one of its later fragments starts. */
  lemma {:induction false} EnterRecord(phys: nat -> Phys, size: nat, pos: nat, left: Bytes, begin: bool, initial: nat,
          p: nat)
    returns (rest: Bytes)
    requires FragmentsAt(phys, size, pos, left, begin, initial)
    requires p % BLOCK_SIZE == 0 && Align(pos) < p < RecordEnd(pos, |left|) && p <= size
    ensures FragmentsAt(phys, size, p, rest, false, initial) && RecordEnd(p, |rest|) == RecordEnd(pos, |left|)
    ensures |rest| == LeftAt(pos, |left|, p)
    decreases |left|, Rank(pos)
  {
    FragmentProgress(pos, |left|);
    FragmentStaysInBlock(pos, |left|);
    AlignFits(pos);
    var n, next := FragmentLength(pos, |left|), FragmentEnd(pos, |left|);
    assert p >= (Align(pos) / BLOCK_SIZE + 1) * BLOCK_SIZE;
    if p == next {
      rest := left[n..];
    } else {
      rest := EnterRecord(phys, size, next, left[n..], false, initial, p);
    }
  }

  lemma {:induction false} SamePhys(phys: nat -> Phys, size: nat, p: nat, q: nat, resyncing: bool, initial: nat)
    requires (EndsLog(phys(p)) && EndsLog(phys(q)))
        || (phys(p) == phys(q) && p < phys(p).next <= size && q < phys(p).next)
    ensures SameRecord(ReadRec(phys, size, Scan(p, resyncing, false, [], 0), initial),
                       ReadRec(phys, size, Scan(q, resyncing, false, [], 0), initial))
  {
    SameVerdict(p, q, phys(p), resyncing, initial);
    SameVerdict(p, q, phys(q), resyncing, initial);
    hide OnRecord;
    hide Drops;
  }

  lemma {:induction false} SameVerdict(p: nat, q: nat, ph: Phys, resyncing: bool, initial: nat)
    ensures OnRecord(Scan(p, resyncing, false, [], 0), ph, initial) ==
              OnRecord(Scan(q, resyncing, false, [], 0), ph, initial)
    ensures var v := OnRecord(Scan(p, resyncing, false, [], 0), ph, initial);
            && (v.Continue? ==> v.s.pos == ph.next)
            && (EndsLog(ph) ==> v.Return? && v.r.record.None? && v.r.reports == [])
            && (EndsLog(ph) ==> Drops(ph, initial) == [])
  {
    hide Reported;
  }

  lemma {:induction false} AlignedPhys(crc: Crc, file: Bytes, pos: nat, initial: nat)
    ensures var p, q := PhysRead(crc, file, pos, initial), PhysRead(crc, file, Align(pos), initial);
            (EndsLog(p) && EndsLog(q)) || (p == q && Align(pos) < p.next <= |file|)
  {
    AlignFits(pos);
    PhysReadAdvances(crc, file, Align(pos), initial);
  }

  lemma {:induction false} AtAlign(crc: Crc, file: Bytes, pos: nat, resyncing: bool, initial: nat)
    ensures var phys := Reading(crc, file, initial);
            ReadAll(phys, |file|, pos, resyncing, initial) == ReadAll(phys, |file|, Align(pos), resyncing, initial)
  {
    AlignFits(pos);
    var phys := Reading(crc, file, initial);
    AlignedPhys(crc, file, pos, initial);
    SamePhys(phys, |file|, pos, Align(pos), resyncing, initial);
    ReadRecAdvances(crc, file, Scan(Align(pos), resyncing, false, [], 0), initial);
    SameReadAll(phys, |file|, pos, resyncing, Align(pos), resyncing, initial);
  }

  /** The record that position p falls into. */
  lemma {:induction false} RecordAt(starts: seq<nat>, p: nat) returns (i: nat)
    requires |starts| > 0 && starts[0] <= p < starts[|starts| - 1]
    ensures i + 1 < |starts| && starts[i] <= p < starts[i + 1]
  {
    i := |starts| - 2;
    while p < starts[i]
      invariant i + 1 < |starts| && p < starts[i + 1]
      decreases i
    {
      i := i - 1;
    }
  }

  /** Entering the log at a block boundary p inside record i reads what entering at the record's start reads. */
  lemma {:induction false} EntersAtRecord(crc: Crc, file: Bytes, pos: nat, record: Bytes, initial: nat, p: nat,
          resyncing: bool)
    requires FragmentsAt(Reading(crc, file, initial), |file|, pos, record, true, initial)
    requires pos <= p < RecordEnd(pos, |record|) && p <= |file| && p % BLOCK_SIZE == 0
    requires Align(pos) < p ==> Align(pos) < initial
    ensures var phys := Reading(crc, file, initial);
            ReadAll(phys, |file|, p, resyncing, initial) == ReadAll(phys, |file|, pos, resyncing, initial)
  {
    var phys, end := Reading(crc, file, initial), RecordEnd(pos, |record|);
    AlignFits(pos);
    if Align(pos) < p {
      ReadRecAdvances(crc, file, Scan(end, false, false, [], 0), initial);
      SkipsWhole(phys, |file|, pos, record, true, initial, resyncing);
      var rest := EnterRecord(phys, |file|, pos, record, true, initial, p);
      SkipsWhole(phys, |file|, p, rest, false, initial, resyncing);
    } else {
      assert p == Align(pos);
      AtAlign(crc, file, pos, resyncing, initial);
    }
  }

  /** A record that is kept does not end before the block where the reader starts. */
  lemma {:induction false} KeptIsAhead(starts: seq<nat>, initial: nat, k: nat, i: nat)
    requires Ascending(starts) && k < i < |starts| && Align(starts[k]) >= initial
    ensures starts[i] > StartBlock(initial)
  {
    assert starts[k + 1] <= starts[i];
    StartBlockMissesNothing(initial, starts[k]);
  }

  lemma {:induction false} SeeksInFile(crc: Crc, file: Bytes, records: seq<Bytes>, starts: seq<nat>, m: nat,
          initial: nat, k: nat)
    requires HoldsLog(Reading(crc, file, initial), |file|, records, starts, initial)
    requires WhollyInside(starts, |file|, m) && FromOffset(starts, initial, k) && starts[0] == 0
    requires |file| <= starts[|records|]
    ensures ReadAll(Reading(crc, file, initial), |file|, StartBlock(initial), initial > 0, initial) ==
        Between(records, k, m)
  {
    hide PhysRead;
    hide ReadRec;
    hide Align;
    hide FragmentsAt;
    hide RecordEnd;
    var p := StartBlock(initial);
    if k < m {
      KeptIsAhead(starts, initial, k, m);
    }
    if p >= |file| {
      NothingLeft(crc, file, p, initial, Scan(p, initial > 0, false, [], 0));
    } else {
      var i := RecordAt(starts, p);
      StartBlockMissesNothing(initial, starts[i]);
      EntersAtRecord(crc, file, starts[i], records[i], initial, p, initial > 0);
      BeforeEnd(starts, |file|, m, i);
      ReadsFromRecord(crc, file, records, starts, m, initial, k, i, initial > 0);
      if k < i {
        KeptIsAhead(starts, initial, k, i);
      }
    }
  }

  lemma {:induction false} BeforeEnd(starts: seq<nat>, n: nat, m: nat, i: nat)
    requires Ascending(starts) && WhollyInside(starts, n, m) && i + 1 < |starts| && starts[i] <= n
    ensures i <= m
  {
  }

  // ----- the recovery loop

  /** A record that is returned starts at or after the initial offset. */
  lemma {:induction false} ReturnedIsAhead(crc: Crc, file: Bytes, s: Scan, initial: nat)
    requires s.inFragment ==> s.start >= initial
    ensures var r := ReadRec(Reading(crc, file, initial), |file|, s, initial);
            r.record.Some? ==> r.offset >= initial
    decreases if s.pos <= |file| then |file| - s.pos else 0
  {
    var p := PhysRead(crc, file, s.pos, initial);
    PhysReadAdvances(crc, file, s.pos, initial);
    var v := OnRecord(s, p, initial);
    GoodIsAhead(crc, file, s.pos, initial);
    if v.Continue? && s.pos < v.s.pos <= |file| {
      ReturnedIsAhead(crc, file, v.s, initial);
    }
  }

  lemma {:induction false} GoodIsAhead(crc: Crc, file: Bytes, pos: nat, initial: nat)
    ensures var p := PhysRead(crc, file, pos, initial);
            p.kind == FULL as nat || p.kind == FIRST as nat ==> p.next >= initial + HEADER_SIZE + |p.payload|
  {
    AlignFits(pos);
  }

  /** Where the next ReadRecord starts. */
  ghost predicate ReadyAt(reader: Reader, from: nat, resyncing: bool)
    requires reader.Valid()
    reads reader
  {
    && (reader.lastRecordOffset < reader.initialOffset ==>
          reader.Pos() == 0 && reader.AtBlockStart() && from == StartBlock(reader.initialOffset))
    && (reader.lastRecordOffset >= reader.initialOffset ==> reader.Pos() == from)
    && reader.resyncing == resyncing
  }

  lemma {:induction false} ReadAllTurn(phys: nat -> Phys, size: nat, from: nat, resyncing: bool, initial: nat)
    ensures var r := ReadRec(phys, size, Scan(from, resyncing, false, [], 0), initial);
            && (r.record.None? ==>
                  ReadAll(phys, size, from, resyncing, initial) == []
                  && ReadAllReports(phys, size, from, resyncing, initial) == r.reports)
            && (r.record.Some? && from < r.pos <= size ==>
                  ReadAll(phys, size, from, resyncing, initial) ==
                    [r.record.value] + ReadAll(phys, size, r.pos, r.resyncing, initial)
                  && ReadAllReports(phys, size, from, resyncing, initial) ==
                       r.reports + ReadAllReports(phys, size, r.pos, r.resyncing, initial))
  {
    hide ReadRec;
  }

  lemma {:induction false} ReadAllUnfolds(phys: nat -> Phys, size: nat, from: nat, resyncing: bool, initial: nat,
          done: seq<Bytes>, reported: seq<nat>)
    requires var r := ReadRec(phys, size, Scan(from, resyncing, false, [], 0), initial);
             r.record.Some? ==> from < r.pos <= size
    ensures var r := ReadRec(phys, size, Scan(from, resyncing, false, [], 0), initial);
            && done + ReadAll(phys, size, from, resyncing, initial) ==
                 (if r.record.Some? then done + [r.record.value] + ReadAll(phys, size, r.pos, r.resyncing, initial)
                      else done)
            && reported + ReadAllReports(phys, size, from, resyncing, initial) ==
                 reported + r.reports + (if r.record.Some? then ReadAllReports(phys, size, r.pos, r.resyncing, initial)
                      else [])
  {
    hide ReadRec;
    ReadAllTurn(phys, size, from, resyncing, initial);
    hide ReadAll;
    hide ReadAllReports;
    var r := ReadRec(phys, size, Scan(from, resyncing, false, [], 0), initial);
    if r.record.Some? {
      Associate(reported, r.reports, ReadAllReports(phys, size, r.pos, r.resyncing, initial));
      var rest := ReadAll(phys, size, r.pos, r.resyncing, initial);
      assert done + ([r.record.value] + rest) == done + [r.record.value] + rest;
    } else {
      assert done + [] == done && reported + r.reports + [] == reported + r.reports;
    }
  }

  /** What is still to be read from a position on. */
  ghost predicate Remaining(crc: Crc, file: Bytes, initial: nat, from: nat, resyncing: bool,
                            allRecords: seq<Bytes>, allReports: seq<nat>, records: seq<Bytes>, reports: seq<nat>) {
    && allRecords == records + ReadAll(Reading(crc, file, initial), |file|, from, resyncing, initial)
    && allReports == reports + ReadAllReports(Reading(crc, file, initial), |file|, from, resyncing, initial)
  }

  /** One ReadRecord of the loop. */
  method NextRecord(reader: Reader, ghost from: nat, ghost resyncing: bool, ghost allRecords: seq<Bytes>,
          ghost allReports: seq<nat>, records: seq<Bytes>)
    returns (record: Option<Bytes>, ghost from2: nat, ghost resyncing2: bool)
    requires reader.Valid() && ReadyAt(reader, from, resyncing)
    requires Remaining(reader.crc, reader.file, reader.initialOffset, from, resyncing, allRecords, allReports, records,
        reader.reports)
    modifies reader
    ensures reader.Valid()
    ensures record.Some? ==>
              && from < from2 <= |reader.file| && ReadyAt(reader, from2, resyncing2)
              && Remaining(reader.crc, reader.file, reader.initialOffset, from2, resyncing2, allRecords, allReports,
                           records + [record.value], reader.reports)
    ensures record.None? ==> allRecords == records && allReports == reader.reports
  {
    ghost var s := Scan(from, resyncing, false, [], 0);
    ghost var phys := Reading(reader.crc, reader.file, reader.initialOffset);
    ReturnedIsAhead(reader.crc, reader.file, s, reader.initialOffset);
    ReadRecAdvances(reader.crc, reader.file, s, reader.initialOffset);
    ReadAllUnfolds(phys, |reader.file|, from, resyncing, reader.initialOffset, records, reader.reports);
    ghost var r := ReadRec(phys, |reader.file|, s, reader.initialOffset);
    record := reader.ReadRecord();
    from2, resyncing2 := r.pos, r.resyncing;
  }

  /** The loop of RecoverLogFile and VersionSet::Recover: read records until there are no more. */
  method ReadLog(crc: Crc, file: Bytes, initial: nat) returns (records: seq<Bytes>, reports: seq<nat>)
    ensures records == ReadAll(Reading(crc, file, initial), |file|, StartBlock(initial), initial > 0, initial)
    ensures reports == ReadAllReports(Reading(crc, file, initial), |file|, StartBlock(initial), initial > 0, initial)
  {
    var reader := new Reader(crc, file, initial);
    records := [];
    ghost var from, resyncing := StartBlock(initial), initial > 0;
    ghost var allRecords := ReadAll(Reading(crc, file, initial), |file|, from, resyncing, initial);
    ghost var allReports := ReadAllReports(Reading(crc, file, initial), |file|, from, resyncing, initial);
    assert allRecords == [] + allRecords && allReports == [] + allReports;
    var record;
    record, from, resyncing := NextRecord(reader, from, resyncing, allRecords, allReports, records);
    while record.Some?
      invariant reader.Valid() && fresh(reader) && reader.crc == crc && reader.file == file
      invariant reader.initialOffset == initial
      invariant record.Some? ==>
        && ReadyAt(reader, from, resyncing)
        && Remaining(crc, file, initial, from, resyncing, allRecords, allReports, records + [record.value],
            reader.reports)
      invariant record.None? ==> allRecords == records && allReports == reader.reports
      decreases record.Some?, if from <= |file| then |file| - from else 0
    {
      records := records + [record.value];
      record, from, resyncing := NextRecord(reader, from, resyncing, allRecords, allReports, records);
    }
    reports := reader.reports;
  }

  /** A reader over what a crash left of a written log returns the records wholly inside it, without a report. */
  method ReadTornLog(crc: Crc, ghost written: seq<Bytes>, file: Bytes, ghost m: nat) returns (records: seq<Bytes>,
          reports: seq<nat>)
    requires file <= LogBytes(crc, written) && WhollyInside(Starts(crc, written), |file|, m)
    ensures records == written[..m] && reports == []
  {
    assert file == LogBytes(crc, written)[..|file|];
    TornLogReadsWholeRecords(crc, written, |file|, m);
    records, reports := ReadLog(crc, file, 0);
  }
}
