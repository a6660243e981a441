/**
 log_reader.cc: the physical-record reader, the record assembler, and the functions they compute.
 */
module LogReader {
  import opened Entries
  import opened LogFormat

  function Min(a: nat, b: nat): nat { if a < b then a else b }

  /** The end of the block holding position a, or of the file. */
  function BufferEnd(file: Bytes, a: nat): nat {
    Min((a / BLOCK_SIZE + 1) * BLOCK_SIZE, |file|)
  }

  /**
   What ReadPhysicalRecord yields: a record type (or EOF, BAD_RECORD), its payload, the next position, and the
   number of bytes dropped with a report, if any.
   */
  datatype Phys = Phys(kind: nat, payload: Bytes, next: nat, dropped: Option<nat>)

  /** Parsing the header at the front of the buffer; the buffer ends at file position `end`. */
  function ParseBuffer(crc: Crc, buffer: Bytes, end: nat, eof: bool, initial: nat): Phys
    requires HEADER_SIZE <= |buffer| <= end
  {
    var length, t := buffer[4] as nat + 256 * buffer[5] as nat, buffer[6];
    if HEADER_SIZE + length > |buffer| then
      if eof then Phys(EOF, [], end, None) else Phys(BAD_RECORD, [], end, Some(|buffer|))
    else if t == 0 && length == 0 then Phys(BAD_RECORD, [], end, None)
    else if DecodeFixed32(buffer) != crc(t, buffer[HEADER_SIZE..HEADER_SIZE + length]) then
      Phys(BAD_RECORD, [], end, Some(|buffer|))
    else if end - |buffer| < initial then
      Phys(BAD_RECORD, [], end - |buffer| + HEADER_SIZE + length, None)
    else
      Phys(t as nat, buffer[HEADER_SIZE..HEADER_SIZE + length], end - |buffer| + HEADER_SIZE + length, None)
  }

  /** A header of the type that ReadPhysicalRecord's kEof shares; no writer uses it. */
  ghost predicate HasFalseEnd(file: Bytes) {
    exists a :: 0 <= a && a + HEADER_SIZE <= |file| && file[a..][6] as nat == EOF
  }

  /** The physical record read from file position `pos`. */
  function PhysRead(crc: Crc, file: Bytes, pos: nat, initial: nat): Phys {
    AlignFits(pos);
    var a := Align(pos);
    if a + HEADER_SIZE > |file| then Phys(EOF, [], pos, None)
    else
      var end := BufferEnd(file, a);
      ParseBuffer(crc, file[a..end], end, end % BLOCK_SIZE != 0, initial)
  }

  lemma {:induction false} PhysReadAdvances(crc: Crc, file: Bytes, pos: nat, initial: nat)
    ensures var p := PhysRead(crc, file, pos, initial);
            p.kind != EOF || p.payload != [] ==> pos < p.next <= |file| && |p.payload| < p.next
  {
    AlignFits(pos);
  }

  // ----- ReadRecord as a function

  /** The variables ReadRecord carries from one physical record to the next. */
  datatype Scan = Scan(pos: nat, resyncing: bool, inFragment: bool, scratch: Bytes, start: nat)

  /** A record and the position of its first header, or none; the reader's next position; the bytes reported. */
  datatype Result = Result(record: Option<Bytes>, offset: nat, pos: nat, resyncing: bool, reports: seq<nat>)

  /** ReportDrop's filter: drops before initial_offset are not reported. */
  function Reported(bytes: nat, pos: nat, initial: nat): seq<nat> {
    if pos < bytes || pos - bytes >= initial then [bytes] else []
  }

  function Drops(p: Phys, initial: nat): seq<nat> {
    if p.dropped.Some? then Reported(p.dropped.value, p.next, initial) else []
  }

  function Prepend(reports: seq<nat>, r: Result): Result {
    r.(reports := reports + r.reports)
  }

  /** What ReadRecord does with one physical record: go on, or return. */
  datatype Verdict = Continue(s: Scan, reports: seq<nat>) | Return(r: Result)

  function OnRecord(s: Scan, p: Phys, initial: nat): Verdict {
    var header := if p.next >= HEADER_SIZE + |p.payload| then p.next - HEADER_SIZE - |p.payload| else 0;
    var unfinished := if s.inFragment && s.scratch != [] then Reported(|s.scratch|, p.next, initial) else [];
    if s.resyncing && p.kind == MIDDLE as nat then
      Continue(s.(pos := p.next), [])
    else if s.resyncing && p.kind == LAST as nat then
      Continue(s.(pos := p.next, resyncing := false), [])
    else if p.kind == FULL as nat then
      Return(Result(Some(p.payload), header, p.next, false, unfinished))
    else if p.kind == FIRST as nat then
      Continue(Scan(p.next, false, true, p.payload, header), unfinished)
    else if p.kind == MIDDLE as nat then
      if s.inFragment then Continue(Scan(p.next, false, true, s.scratch + p.payload, s.start), [])
      else Continue(s.(pos := p.next, resyncing := false), Reported(|p.payload|, p.next, initial))
    else if p.kind == LAST as nat then
      if s.inFragment then Return(Result(Some(s.scratch + p.payload), s.start, p.next, false, []))
      else Continue(s.(pos := p.next, resyncing := false), Reported(|p.payload|, p.next, initial))
    else if p.kind == EOF then
      Return(Result(None, 0, p.next, false, []))
    else if p.kind == BAD_RECORD then
      if s.inFragment then Continue(Scan(p.next, false, false, [], s.start), Reported(|s.scratch|, p.next, initial))
      else Continue(s.(pos := p.next, resyncing := false), [])
    else
      var unknown := |p.payload| + if s.inFragment then |s.scratch| else 0;
      Continue(Scan(p.next, false, false, [], s.start), Reported(unknown, p.next, initial))
  }

  /** The reader of physical records over a file, as a function of the position. */
  function Reading(crc: Crc, file: Bytes, initial: nat): nat -> Phys {
    (pos: nat) => PhysRead(crc, file, pos, initial)
  }

  /** ReadRecord over any reader of physical records of a file of `size` bytes. */
  function ReadRec(phys: nat -> Phys, size: nat, s: Scan, initial: nat): Result
    decreases if s.pos <= size then size - s.pos else 0
  {
    var p := phys(s.pos);
    match OnRecord(s, p, initial)
    case Return(r) => Prepend(Drops(p, initial), r)
    case Continue(s2, reports) =>
      if s.pos < s2.pos <= size then Prepend(Drops(p, initial) + reports, ReadRec(phys, size, s2, initial))
      else Result(None, 0, s.pos, false, [])
  }

  /** One unfolding of ReadRec behind reports already made. */
  lemma {:induction false} ReadRecUnfolds(phys: nat -> Phys, size: nat, s: Scan, initial: nat, done: seq<nat>)
    ensures var p := phys(s.pos);
            var v := OnRecord(s, p, initial);
            && (v.Return? ==> Prepend(done, ReadRec(phys, size, s, initial)) == Prepend(done + Drops(p, initial), v.r))
            && (v.Continue? && s.pos < v.s.pos <= size ==>
                  Prepend(done, ReadRec(phys, size, s, initial)) ==
                    Prepend(done + Drops(p, initial) + v.reports, ReadRec(phys, size, v.s, initial)))
  {
    var p := phys(s.pos);
    var v := OnRecord(s, p, initial);
    if v.Return? {
      Associate(done, Drops(p, initial), v.r.reports);
    } else if s.pos < v.s.pos <= size {
      Associate(done, Drops(p, initial), v.reports);
      Associate(done, Drops(p, initial) + v.reports, ReadRec(phys, size, v.s, initial).reports);
    }
  }

  lemma {:induction false} Regroup4(a: seq<nat>, b: seq<nat>, c: seq<nat>, d: seq<nat>)
    ensures a + b + c + d == a + (b + c + d)
  {
  }

  lemma {:induction false} Associate(a: seq<nat>, b: seq<nat>, c: seq<nat>)
    ensures a + (b + c) == a + b + c
  {
  }

  lemma {:induction false} StillInBlock(file: Bytes, a: nat, b: nat)
    requires a <= b < BufferEnd(file, a)
    ensures BufferEnd(file, b) == BufferEnd(file, a)
  {
  }

  // ----- log_reader.cc

  class Reader {
    const crc: Crc
    const file: Bytes            // the contents of *file_
    const initialOffset: nat
    var filePos: nat             // how far *file_ has been read
    var buffer: Bytes
    var eof: bool
    var lastRecordOffset: nat
    var endOfBufferOffset: nat
    var resyncing: bool
    var reports: seq<nat>        // byte counts passed to Reporter::Corruption

    constructor (crc: Crc, file: Bytes, initialOffset: nat)
      ensures Valid() && this.crc == crc && this.file == file && this.initialOffset == initialOffset
      ensures Pos() == 0 && lastRecordOffset == 0 && reports == [] && resyncing == (initialOffset > 0) && AtBlockStart()
    {
      this.crc, this.file, this.initialOffset := crc, file, initialOffset;
      filePos, buffer, eof, lastRecordOffset, endOfBufferOffset := 0, [], false, 0, 0;
      resyncing, reports := initialOffset > 0, [];
    }

    predicate AtBlockStart()
      reads this
    {
      buffer == [] && !eof
    }

    /** The end of the file has been reported; nothing is left to read. */
    predicate Exhausted()
      reads this
    {
      buffer == [] && eof
    }

    /** The buffer is the unread rest of one block of the file, or of its short last block once eof is set. */
    ghost predicate Valid()
      reads this
    {
      && |buffer| <= endOfBufferOffset && filePos == endOfBufferOffset
      && (!eof ==> endOfBufferOffset % BLOCK_SIZE == 0)
      && (eof ==> endOfBufferOffset >= |file|)
      && (buffer != [] ==>
            && endOfBufferOffset <= |file| && buffer == file[Pos()..endOfBufferOffset]
            && endOfBufferOffset == BufferEnd(file, Pos())
            && (eof ==> endOfBufferOffset % BLOCK_SIZE != 0))
    }

    function Pos(): nat
      requires |buffer| <= endOfBufferOffset
      reads this
    {
      endOfBufferOffset - |buffer|
    }

    /** SequentialFile::Read(kBlockSize): up to one block, less only at the end of the file. */
    method FillBuffer()
      requires Valid() && !eof && |buffer| < HEADER_SIZE
      modifies this`buffer, this`filePos, this`endOfBufferOffset, this`eof
      ensures Valid() && Pos() == old(endOfBufferOffset)
      ensures eof || |buffer| == BLOCK_SIZE
    {
      var from := Min(filePos, |file|);
      var to := Min(filePos + BLOCK_SIZE, |file|);
      buffer := file[from..to];
      filePos := filePos + |buffer|;
      endOfBufferOffset := endOfBufferOffset + |buffer|;
      if |buffer| < BLOCK_SIZE {
        eof := true;
      }
    }

    /** Reader::ReportDrop. */
    method ReportDrop(bytes: nat)
      requires |buffer| <= endOfBufferOffset
      modifies this`reports
      ensures reports == old(reports) + Reported(bytes, Pos(), initialOffset)
    {
      if Pos() < bytes || Pos() - bytes >= initialOffset {
        reports := reports + [bytes];
      }
    }

    /** The part of ReadPhysicalRecord after a header is in the buffer. */
    method ParseRecord() returns (kind: nat, payload: Bytes)
      requires HEADER_SIZE <= |buffer| <= endOfBufferOffset
      modifies this`buffer, this`reports
      ensures var p := ParseBuffer(crc, old(buffer), endOfBufferOffset, eof, initialOffset);
              && kind == p.kind && payload == p.payload
              && |buffer| <= |old(buffer)| && buffer == old(buffer)[|old(buffer)| - |buffer|..] && Pos() == p.next
              && reports == old(reports) + Drops(p, initialOffset)
      ensures kind == EOF ==> Exhausted() || old(buffer)[6] as nat == EOF
    {
      var length := buffer[4] as nat + 256 * buffer[5] as nat;
      var t := buffer[6];
      if HEADER_SIZE + length > |buffer| {
        var drop := |buffer|;
        buffer := [];
        if !eof {
          ReportDrop(drop);
          return BAD_RECORD, [];
        }
        return EOF, [];
      }
      if t == 0 && length == 0 {
        buffer := [];
        return BAD_RECORD, [];
      }
      payload := buffer[HEADER_SIZE..HEADER_SIZE + length];
      if DecodeFixed32(buffer) != crc(t, payload) {
        var drop := |buffer|;
        buffer := [];
        ReportDrop(drop);
        return BAD_RECORD, [];
      }
      buffer := buffer[HEADER_SIZE + length..];
      if Pos() - HEADER_SIZE - length < initialOffset {
        return BAD_RECORD, [];
      }
      return t as nat, payload;
    }

    /** Read blocks until a header is in the buffer or the file ends. */
    method FillHeader()
      requires Valid()
      modifies this`buffer, this`filePos, this`endOfBufferOffset, this`eof
      ensures Valid()
      ensures |buffer| < HEADER_SIZE ==> Align(old(Pos())) + HEADER_SIZE > |file| && Exhausted()
      ensures |buffer| >= HEADER_SIZE ==> Pos() == Align(old(Pos()))
    {
      AlignFits(Pos());
      while |buffer| < HEADER_SIZE
        invariant Valid()
        invariant Align(Pos()) == Align(old(Pos()))
        decreases !eof, |file| - endOfBufferOffset
      {
        if !eof {
          FillBuffer();
        } else {
          buffer := [];
          return;
        }
      }
    }

    /** Reader::ReadPhysicalRecord. */
    method ReadPhysicalRecord() returns (kind: nat, payload: Bytes)
      requires Valid()
      modifies this`buffer, this`filePos, this`endOfBufferOffset, this`eof, this`reports
      ensures Valid()
      ensures var p := PhysRead(crc, file, old(Pos()), initialOffset);
              && kind == p.kind && payload == p.payload && (kind != EOF ==> Pos() == p.next)
              && reports == old(reports) + Drops(p, initialOffset)
      ensures kind == EOF ==> Exhausted() || HasFalseEnd(file)
    {
      FillHeader();
      if |buffer| < HEADER_SIZE {
        return EOF, [];
      }
      ghost var a := Pos();
      assert buffer[6] == file[a..][6];
      kind, payload := ParseRecord();
      if buffer != [] {
        StillInBlock(file, a, Pos());
      }
    }

    /** Reader::SkipToInitialBlock: start at the block that can hold the first header at or after initial_offset. */
    method SkipToInitialBlock()
      requires Valid() || Exhausted()
      modifies this`filePos, this`endOfBufferOffset
      ensures AtBlockStart() && old(Pos()) == 0 ==> Valid() && Pos() == StartBlock(initialOffset)
      ensures AtBlockStart() ==> endOfBufferOffset == StartBlock(initialOffset)
    {
      var offsetInBlock := initialOffset % BLOCK_SIZE;
      var blockStart := initialOffset - offsetInBlock;
      if offsetInBlock > BLOCK_SIZE - 6 {
        offsetInBlock := 0;
        blockStart := blockStart + BLOCK_SIZE;
      }
      endOfBufferOffset := blockStart;
      if blockStart > 0 {
        filePos := filePos + blockStart;
      }
    }

    /** The body of ReadRecord's loop, after the physical record is read. */
    method HandleFragment(kind: nat, fragment: Bytes, ghost p: Phys, inFragment: bool, scratch: Bytes, start: nat)
      returns (done: bool, record: Option<Bytes>, inFragment2: bool, scratch2: Bytes, start2: nat)
      requires |buffer| <= endOfBufferOffset
      requires kind == p.kind && fragment == p.payload && (kind != EOF ==> Pos() == p.next)
      modifies this`resyncing, this`lastRecordOffset, this`reports
      ensures match OnRecord(Scan(Pos(), old(resyncing), inFragment, scratch, start), p, initialOffset)
              case Continue(s2, drops) =>
                && !done && s2 == Scan(Pos(), resyncing, inFragment2, scratch2, start2)
                && reports == old(reports) + drops
                && lastRecordOffset == old(lastRecordOffset)
              case Return(r) =>
                && done && record == r.record
                && reports == old(reports) + r.reports
                && (record.Some? ==> lastRecordOffset == r.offset && Pos() == r.pos && resyncing == r.resyncing)
      ensures done && record.None? ==> kind == EOF && lastRecordOffset == old(lastRecordOffset)
    {
      done, record, inFragment2, scratch2, start2 := false, None, inFragment, scratch, start;
      var header := if Pos() >= HEADER_SIZE + |fragment| then Pos() - HEADER_SIZE - |fragment| else 0;
      if resyncing {
        if kind == MIDDLE as nat {
          return;
        } else if kind == LAST as nat {
          resyncing := false;
          return;
        } else {
          resyncing := false;
        }
      }
      if kind == FULL as nat {
        if inFragment {
          if scratch == [] {
            inFragment2 := false;
          } else {
            ReportDrop(|scratch|);
          }
        }
        lastRecordOffset := header;
        done, record := true, Some(fragment);
      } else if kind == FIRST as nat {
        if inFragment && scratch != [] {
          ReportDrop(|scratch|);
        }
        start2, scratch2, inFragment2 := header, fragment, true;
      } else if kind == MIDDLE as nat {
        if !inFragment {
          ReportDrop(|fragment|);
        } else {
          scratch2 := scratch + fragment;
        }
      } else if kind == LAST as nat {
        if !inFragment {
          ReportDrop(|fragment|);
        } else {
          lastRecordOffset := start;
          done, record := true, Some(scratch + fragment);
        }
      } else if kind == EOF {
        done := true;
      } else if kind == BAD_RECORD {
        if inFragment {
          ReportDrop(|scratch|);
          inFragment2, scratch2 := false, [];
        }
      } else {
        ReportDrop(|fragment| + if inFragment then |scratch| else 0);
        inFragment2, scratch2 := false, [];
      }
    }

    /** One iteration of ReadRecord's loop. */
    method ReadFragment(ghost s: Scan, inFragment: bool, scratch: Bytes, start: nat)
      returns (finished: bool, record: Option<Bytes>, inFragment2: bool, scratch2: Bytes, start2: nat, ghost p: Phys)
      requires Valid() && s == Scan(Pos(), resyncing, inFragment, scratch, start)
      modifies this
      ensures Valid() && p == PhysRead(crc, file, s.pos, initialOffset)
      ensures match OnRecord(s, p, initialOffset)
              case Continue(s2, more) =>
                && !finished && reports == old(reports) + Drops(p, initialOffset) + more && s.pos < s2.pos <= |file|
                && s2 == Scan(Pos(), resyncing, inFragment2, scratch2, start2)
              case Return(r) =>
                && finished && reports == old(reports) + Drops(p, initialOffset) + r.reports && record == r.record
                && (record.Some? ==> lastRecordOffset == r.offset && Pos() == r.pos && resyncing == r.resyncing)
      ensures !finished || record.None? ==> lastRecordOffset == old(lastRecordOffset)
      ensures finished && record.None? ==> Exhausted() || HasFalseEnd(file)
    {
      hide HasFalseEnd;
      hide PhysRead;
      hide Drops;
      p := PhysRead(crc, file, s.pos, initialOffset);
      PhysReadAdvances(crc, file, s.pos, initialOffset);
      var kind, fragment := ReadPhysicalRecord();
      finished, record, inFragment2, scratch2, start2 := HandleFragment(kind, fragment, p, inFragment, scratch, start);
    }

    /** The loop of ReadRecord. */
    method Assemble() returns (record: Option<Bytes>)
      requires Valid()
      modifies this
      ensures Valid()
      ensures var r := ReadRec(Reading(crc, file, initialOffset), |file|,
          Scan(old(Pos()), old(resyncing), false, [], 0), initialOffset);
              record == r.record && reports == old(reports) + r.reports
              && (record.Some? ==> lastRecordOffset == r.offset && Pos() == r.pos && resyncing == r.resyncing)
      ensures record.None? ==> lastRecordOffset == old(lastRecordOffset) && (Exhausted() || HasFalseEnd(file))
    {
      hide HasFalseEnd;
      hide PhysRead;
      hide OnRecord;
      hide ReadRec;
      hide Drops;
      var inFragment, scratch := false, [];
      var start: nat := 0;
      var finished := false;
      record := None;
      ghost var phys := Reading(crc, file, initialOffset);
      ghost var goal := ReadRec(phys, |file|, Scan(Pos(), resyncing, false, [], 0), initialOffset);
      ghost var done: seq<nat> := [];
      while !finished
        invariant Valid()
        invariant reports == old(reports) + done
        invariant !finished ==>
          goal ==
              Prepend(done, ReadRec(phys, |file|, Scan(Pos(), resyncing, inFragment, scratch, start), initialOffset))
        invariant finished ==> record == goal.record && done == goal.reports
        invariant finished && record.Some? ==>
                    lastRecordOffset == goal.offset && Pos() == goal.pos && resyncing == goal.resyncing
        invariant !finished || record.None? ==> lastRecordOffset == old(lastRecordOffset)
        invariant finished && record.None? ==> Exhausted() || HasFalseEnd(file)
        decreases !finished, if Pos() <= |file| then |file| - Pos() else 0
      {
        ghost var s := Scan(Pos(), resyncing, inFragment, scratch, start);
        ReadRecUnfolds(phys, |file|, s, initialOffset, done);
        ghost var p;
        ghost var before := done;
        finished, record, inFragment, scratch, start, p := ReadFragment(s, inFragment, scratch, start);
        ghost var v := OnRecord(s, p, initialOffset);
        ghost var more := if v.Return? then v.r.reports else v.reports;
        done := done + Drops(p, initialOffset) + more;
        Regroup4(old(reports), before, Drops(p, initialOffset), more);
      }
    }

    /** No record has been read, and the file has been read to its end: a further call would skip once more. */
    predicate Ended()
      reads this
    {
      lastRecordOffset < initialOffset && Exhausted()
    }

    /** The states ReadRecord is called in: before the first record, behind a record, or after it has found none. */
    ghost predicate Ready()
      reads this
    {
      Ended() || (Valid() && (lastRecordOffset < initialOffset ==> Pos() == 0 && AtBlockStart()))
    }

    /** Reader::ReadRecord. */
    method ReadRecord() returns (record: Option<Bytes>)
      requires Ready()
      modifies this
      ensures !old(Ended()) ==> Valid()
      ensures var from := if old(lastRecordOffset) < initialOffset then StartBlock(initialOffset) else old(Pos());
              var r := ReadRec(Reading(crc, file, initialOffset), |file|, Scan(from, old(resyncing), false, [], 0),
                  initialOffset);
              !old(Ended()) ==>
                record == r.record && reports == old(reports) + r.reports
                && (record.Some? ==> lastRecordOffset == r.offset && Pos() == r.pos && resyncing == r.resyncing)
      ensures old(Ended()) ==> record.None? && reports == old(reports) && Ended()
      ensures record.None? ==> lastRecordOffset == old(lastRecordOffset) && (Ready() || HasFalseEnd(file))
    {
      if Ended() {
        // SkipToInitialBlock moves on behind the end, and ReadPhysicalRecord has nothing more to give
        SkipToInitialBlock();
        resyncing := false;
        return None;
      }
      if lastRecordOffset < initialOffset {
        SkipToInitialBlock();
      }
      record := Assemble();
    }
  }

  /** The block where a reader with this initial offset starts. */
  function StartBlock(initial: nat): nat {
    var off := initial % BLOCK_SIZE;
    if off > BLOCK_SIZE - 6 then initial - off + BLOCK_SIZE else initial - off
  }
}
