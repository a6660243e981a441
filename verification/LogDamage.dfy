/**
 Reading a log of any bytes at all: what log_reader.cc returns was written as it stands, fragment by fragment with its
 checksum, and what it drops it reports.
 */
module LogDamage {
  import opened Entries
  import opened LogFormat
  import opened LogReader
  import opened LogRoundTrip

  // ----- one physical record

  /** The bytes a writer puts at position a for a fragment, with its checksum, inside one block. */
  ghost predicate Intact(crc: Crc, file: Bytes, a: nat, t: Byte, payload: Bytes) {
    && |payload| <= 0xffff && a + HEADER_SIZE + |payload| <= |file|
    && a % BLOCK_SIZE + HEADER_SIZE + |payload| <= BLOCK_SIZE
    && file[a..a + HEADER_SIZE + |payload|] == Header(crc, t, payload) + payload
  }

  lemma {:induction false} Fixed32OfDecode(b: Bytes)
    requires |b| >= 4
    ensures DecodeFixed32(b) < 0x1_0000_0000 && Fixed32(DecodeFixed32(b)) == b[..4]
  {
    var n := DecodeFixed32(b);
    assert n / 256 == b[1] as nat + 256 * (b[2] as nat + 256 * b[3] as nat) && n % 256 == b[0] as nat;
    assert n / 256 / 256 == b[2] as nat + 256 * b[3] as nat;
    assert n / 256 / 256 / 256 == b[3] as nat;
  }

  /** The header and payload that pass ReadPhysicalRecord's checks are those of an intact fragment. */
  lemma {:induction false} PassedIsIntact(crc: Crc, buffer: Bytes, length: nat)
    requires |buffer| >= HEADER_SIZE + length && length == buffer[4] as nat + 256 * buffer[5] as nat
    ensures var payload := buffer[HEADER_SIZE..HEADER_SIZE + length];
            DecodeFixed32(buffer) == crc(buffer[6], payload) <==>
              buffer[..HEADER_SIZE + length] == Header(crc, buffer[6], payload) + payload
  {
    hide DecodeFixed32, Fixed32;
    var payload := buffer[HEADER_SIZE..HEADER_SIZE + length];
    Fixed32OfDecode(buffer);
    Fixed32RoundTrip(crc(buffer[6], payload));
    Fixed32RoundTrip(DecodeFixed32(buffer));
    var h := Header(crc, buffer[6], payload);
    assert |payload| % 256 == buffer[4] as nat && |payload| / 256 % 256 == buffer[5] as nat;
    assert buffer[..HEADER_SIZE] == buffer[..4] + [buffer[4], buffer[5], buffer[6]];
    assert buffer[..HEADER_SIZE + length] == buffer[..HEADER_SIZE] + payload;
    if buffer[..HEADER_SIZE + length] == h + payload {
      assert buffer[..4] == (h + payload)[..4] == Fixed32(crc(buffer[6], payload));
    }
  }

  lemma {:induction false} SliceOfBlock(file: Bytes, a: nat, end: nat, n: nat)
    requires a <= end <= |file| && n <= end - a
    ensures file[a..end][..n] == file[a..a + n]
  {
  }

  lemma {:induction false} BlockAround(file: Bytes, a: nat)
    requires a < |file|
    ensures a < BufferEnd(file, a) <= |file| && BufferEnd(file, a) - a <= BLOCK_SIZE - a % BLOCK_SIZE
    ensures BufferEnd(file, a) % BLOCK_SIZE != 0 ==> BufferEnd(file, a) == |file|
    ensures BufferEnd(file, a) - a == BLOCK_SIZE - a % BLOCK_SIZE || BufferEnd(file, a) == |file|
  {
  }

  /** A fragment that is returned is intact, begins at or after the initial offset, and takes its bytes and no more. */
  lemma {:induction false} ReadIsIntact(crc: Crc, file: Bytes, pos: nat, initial: nat)
    requires var k := PhysRead(crc, file, pos, initial).kind; k != EOF && k != BAD_RECORD
    ensures var p := PhysRead(crc, file, pos, initial);
            && p.kind < 256 && Intact(crc, file, Align(pos), p.kind as Byte, p.payload) && initial <= Align(pos)
            && p.next == Align(pos) + HEADER_SIZE + |p.payload| && p.dropped.None?
  {
    AlignFits(pos);
    var a := Align(pos);
    var end := BufferEnd(file, a);
    BlockAround(file, a);
    var buffer := file[a..end];
    var length := buffer[4] as nat + 256 * buffer[5] as nat;
    hide Align, BufferEnd, Header, DecodeFixed32;
    PassedIsIntact(crc, buffer, length);
    SliceOfBlock(file, a, end, HEADER_SIZE + length);
  }

  /** An intact fragment is read, or passed over in silence before the initial offset; a header of zeros is not one. */
  lemma {:induction false} IntactIsRead(crc: Crc, file: Bytes, pos: nat, initial: nat, t: Byte, payload: Bytes)
    requires Intact(crc, file, Align(pos), t, payload) && !(t == 0 && payload == [])
    ensures var next := Align(pos) + HEADER_SIZE + |payload|;
            PhysRead(crc, file, pos, initial) ==
              if Align(pos) < initial then Phys(BAD_RECORD, [], next, None) else Phys(t as nat, payload, next, None)
  {
    AlignFits(pos);
    var a := Align(pos);
    var end := BufferEnd(file, a);
    BlockAround(file, a);
    var buffer := file[a..end];
    hide Align, BufferEnd;
    SliceOfBlock(file, a, end, HEADER_SIZE + |payload|);
    var whole := Header(crc, t, payload) + payload;
    assert buffer[..HEADER_SIZE + |payload|] == whole;
    assert buffer[..HEADER_SIZE] == whole[..HEADER_SIZE] == Header(crc, t, payload);
    assert buffer[HEADER_SIZE..HEADER_SIZE + |payload|] == whole[HEADER_SIZE..] == payload;
    HeaderRoundTrip(crc, t, payload, buffer);
    hide Header, DecodeFixed32;
  }

  /** No fragment the writer can have written stands at a. */
  ghost predicate Damaged(crc: Crc, file: Bytes, a: nat) {
    forall t, payload :: !Intact(crc, file, a, t, payload)
  }

  /**
   Where no intact fragment stands the rest of the block is given up, and reported as dropped; but for a header of
   zeros, which preallocation leaves, and one cut short by the end of the file, which a crash leaves.
   */
  lemma {:induction false} DamageIsDropped(crc: Crc, file: Bytes, pos: nat, initial: nat)
    requires Align(pos) + HEADER_SIZE <= |file| && Damaged(crc, file, Align(pos))
    ensures var a, end, p := Align(pos), BufferEnd(file, Align(pos)), PhysRead(crc, file, pos, initial);
            var length := file[a + 4] as nat + 256 * file[a + 5] as nat;
            && (p.kind == EOF || p.kind == BAD_RECORD) && p.payload == [] && p.next == end
            && (p.kind == EOF <==> end % BLOCK_SIZE != 0 && a + HEADER_SIZE + length > |file|)
            && p.dropped ==
                 if p.kind == EOF || (length == 0 && file[a + 6] == 0) then None else Some(end - a)
  {
    AlignFits(pos);
    var a := Align(pos);
    var end := BufferEnd(file, a);
    BlockAround(file, a);
    var buffer := file[a..end];
    assert buffer[4] == file[a + 4] && buffer[5] == file[a + 5] && buffer[6] == file[a + 6];
    var length := buffer[4] as nat + 256 * buffer[5] as nat;
    if HEADER_SIZE + length <= |buffer| {
      var payload := buffer[HEADER_SIZE..HEADER_SIZE + length];
      hide Align, BufferEnd, Header, DecodeFixed32;
      PassedIsIntact(crc, buffer, length);
      SliceOfBlock(file, a, end, HEADER_SIZE + length);
      assert !Intact(crc, file, a, buffer[6], payload);
    }
  }

  // ----- whole records

  /** Where fragments with these payloads end, the first of them at a. */
  function PartsEnd(a: nat, parts: seq<Bytes>): nat {
    if parts == [] then a else Align(PartsEnd(a, parts[..|parts| - 1])) + HEADER_SIZE + |parts[|parts| - 1]|
  }

  function Joined(parts: seq<Bytes>): Bytes {
    if parts == [] then [] else Joined(parts[..|parts| - 1]) + parts[|parts| - 1]
  }

  /** Intact fragments one after the other from a, the first of type FIRST and the others of type MIDDLE. */
  ghost predicate IsBegun(crc: Crc, file: Bytes, a: nat, parts: seq<Bytes>) {
    && parts != [] && Align(a) == a
    && forall k :: 0 <= k < |parts| ==>
         Intact(crc, file, Align(PartsEnd(a, parts[..k])), if k == 0 then FIRST else MIDDLE, parts[k])
  }

  /** The record is written at a: in one fragment, or in several one after the other with nothing between them. */
  ghost predicate IsWritten(crc: Crc, file: Bytes, a: nat, record: Bytes) {
    || Intact(crc, file, a, FULL, record)
    || exists parts, last :: IsBegun(crc, file, a, parts)
                             && Intact(crc, file, Align(PartsEnd(a, parts)), LAST, last)
                             && record == Joined(parts) + last
  }

  /** What the reader has put together so far. */
  ghost predicate HoldsBegun(crc: Crc, file: Bytes, s: Scan, initial: nat) {
    s.inFragment ==>
      && !s.resyncing && initial <= s.start
      && exists parts :: IsBegun(crc, file, s.start, parts) && s.scratch == Joined(parts)
                         && s.pos == PartsEnd(s.start, parts)
  }

  lemma {:induction false} OnePart(crc: Crc, file: Bytes, a: nat, payload: Bytes)
    requires Align(a) == a && Intact(crc, file, a, FIRST, payload)
    ensures IsBegun(crc, file, a, [payload]) && Joined([payload]) == payload
    ensures PartsEnd(a, [payload]) == a + HEADER_SIZE + |payload|
  {
    hide Intact, Align;
    assert [payload][..0] == [];
    assert Joined([]) + payload == payload;
  }

  lemma {:induction false} MorePart(crc: Crc, file: Bytes, a: nat, parts: seq<Bytes>, payload: Bytes)
    requires IsBegun(crc, file, a, parts) && Intact(crc, file, Align(PartsEnd(a, parts)), MIDDLE, payload)
    ensures IsBegun(crc, file, a, parts + [payload]) && Joined(parts + [payload]) == Joined(parts) + payload
    ensures PartsEnd(a, parts + [payload]) == Align(PartsEnd(a, parts)) + HEADER_SIZE + |payload|
  {
    hide Intact, Align;
    var more := parts + [payload];
    assert more[..|parts|] == parts;
    assert forall k :: 0 <= k < |parts| ==> more[..k] == parts[..k] && more[k] == parts[k];
  }

  /** One physical record keeps what is held begun, or completes a record that is written. */
  lemma {:induction false} TurnIsIntact(crc: Crc, file: Bytes, s: Scan, initial: nat)
    requires HoldsBegun(crc, file, s, initial)
    ensures var v := OnRecord(s, PhysRead(crc, file, s.pos, initial), initial);
            && (v.Continue? ==> HoldsBegun(crc, file, v.s, initial))
            && (v.Return? && v.r.record.Some? ==>
                  IsWritten(crc, file, v.r.offset, v.r.record.value) && initial <= v.r.offset)
  {
    var p := PhysRead(crc, file, s.pos, initial);
    AlignFits(s.pos);
    hide PhysRead, Intact, Align, Reported;
    if p.kind != EOF && p.kind != BAD_RECORD {
      ReadIsIntact(crc, file, s.pos, initial);
      if p.kind == FIRST as nat {
        OnePart(crc, file, Align(s.pos), p.payload);
      } else if s.inFragment {
        var parts :| IsBegun(crc, file, s.start, parts) && s.scratch == Joined(parts)
                     && s.pos == PartsEnd(s.start, parts);
        if p.kind == MIDDLE as nat {
          MorePart(crc, file, s.start, parts, p.payload);
        }
      }
    }
  }

  /**
   Whatever the bytes of the file are: a record that is returned is written in it as it stands, at the offset given,
   each of its fragments intact.
   */
  lemma {:induction false} ReturnedIsWritten(crc: Crc, file: Bytes, s: Scan, initial: nat)
    requires HoldsBegun(crc, file, s, initial)
    ensures var r := ReadRec(Reading(crc, file, initial), |file|, s, initial);
            r.record.Some? ==> IsWritten(crc, file, r.offset, r.record.value) && initial <= r.offset
    decreases if s.pos <= |file| then |file| - s.pos else 0
  {
    TurnIsIntact(crc, file, s, initial);
    hide HoldsBegun, IsWritten, PhysRead, OnRecord;
    var v := OnRecord(s, PhysRead(crc, file, s.pos, initial), initial);
    if v.Continue? && s.pos < v.s.pos <= |file| {
      ReturnedIsWritten(crc, file, v.s, initial);
    }
  }

  /** So with every record of the whole reading. */
  lemma {:induction false} AllReturnedAreWritten(crc: Crc, file: Bytes, pos: nat, resyncing: bool, initial: nat)
    ensures forall record :: record in ReadAll(Reading(crc, file, initial), |file|, pos, resyncing, initial) ==>
              exists a :: initial <= a && IsWritten(crc, file, a, record)
    decreases if pos <= |file| then |file| - pos else 0
  {
    var s := Scan(pos, resyncing, false, [], 0);
    ReturnedIsWritten(crc, file, s, initial);
    hide IsWritten, PhysRead, OnRecord, ReadRec;
    var r := ReadRec(Reading(crc, file, initial), |file|, s, initial);
    if r.record.Some? && pos < r.pos <= |file| {
      AllReturnedAreWritten(crc, file, r.pos, r.resyncing, initial);
    }
  }

  // ----- what is not returned is reported

  function Total(reports: seq<nat>): nat {
    if reports == [] then 0 else Total(reports[..|reports| - 1]) + reports[|reports| - 1]
  }

  lemma {:induction false} TotalAppends(a: seq<nat>, b: seq<nat>)
    ensures Total(a + b) == Total(a) + Total(b)
  {
    if b == [] {
      assert a + b == a;
    } else {
      assert (a + b)[..|a + b| - 1] == a + b[..|b| - 1];
      TotalAppends(a, b[..|b| - 1]);
    }
  }

  /** The bytes of a record that has been begun. */
  function Pending(s: Scan): nat {
    if s.inFragment then |s.scratch| else 0
  }

  /** The payload bytes of a physical record and the bytes given up for it. A type byte of 6 reads as a bad record. */
  function Given(p: Phys): nat {
    (if p.kind == BAD_RECORD then 0 else |p.payload|) + if p.dropped.Some? then p.dropped.value else 0
  }

  /** Those of the physical records from `pos` up to `to`. */
  function Taken(phys: nat -> Phys, pos: nat, to: nat): nat
    decreases if pos <= to then to - pos else 0
  {
    if pos < phys(pos).next <= to then Given(phys(pos)) + Taken(phys, phys(pos).next, to) else 0
  }

  lemma {:induction false} ReportedTotal(bytes: nat, pos: nat)
    ensures Reported(bytes, pos, 0) == [bytes] && Total([bytes]) == bytes && Total([]) == 0
  {
    assert Total([bytes][..0]) == 0;
  }

  /** One physical record: its payload is held, returned or reported. */
  lemma {:induction false} TurnAccounts(s: Scan, p: Phys)
    requires !s.resyncing
    ensures var v, taken := OnRecord(s, p, 0), Pending(s) + Given(p);
            && (v.Continue? ==>
                  !v.s.resyncing && v.s.pos == p.next && p.kind != EOF
                  && taken == Pending(v.s) + Total(Drops(p, 0)) + Total(v.reports))
            && (v.Return? && v.r.record.Some? ==>
                  v.r.pos == p.next && !v.r.resyncing && p.kind != EOF
                  && taken == |v.r.record.value| + Total(Drops(p, 0)) + Total(v.r.reports))
            && (v.Return? && v.r.record.None? ==> v.r.reports == [] && p.kind == EOF)
  {
    hide Reported, Total, Drops;
    ReportedTotal(|s.scratch|, p.next);
    ReportedTotal(|p.payload|, p.next);
    ReportedTotal(|p.payload| + |s.scratch|, p.next);
    DropsTotal(p);
  }

  lemma {:induction false} DropsTotal(p: Phys)
    ensures Total(Drops(p, 0)) == if p.dropped.Some? then p.dropped.value else 0
  {
    if p.dropped.Some? {
      ReportedTotal(p.dropped.value, p.next);
    } else {
      ReportedTotal(0, 0);
    }
  }

  /** No report is made where the reading ends. */
  lemma {:induction false} EndIsQuiet(crc: Crc, file: Bytes, pos: nat)
    requires PhysRead(crc, file, pos, 0).kind == EOF
    ensures Drops(PhysRead(crc, file, pos, 0), 0) == []
  {
    AlignFits(pos);
  }

  /**
   Whatever the bytes of the file are: all that is taken from it for a record is in the record or in a report. Where
   the reading ends only a record that has been begun and not ended is left out in silence.
   */
  lemma {:induction false} AllIsAccountedFor(crc: Crc, file: Bytes, s: Scan) returns (e: Scan)
    requires !s.resyncing && HoldsBegun(crc, file, s, 0)
    ensures var phys := Reading(crc, file, 0);
            var r := ReadRec(phys, |file|, s, 0);
            && (r.record.Some? ==>
                  s.pos < r.pos <= |file| && !r.resyncing
                  && Pending(s) + Taken(phys, s.pos, r.pos) == |r.record.value| + Total(r.reports))
            && (r.record.None? ==>
                  s.pos <= e.pos && phys(e.pos).kind == EOF && HoldsBegun(crc, file, e, 0)
                  && Pending(s) + Taken(phys, s.pos, e.pos) == Pending(e) + Total(r.reports))
    decreases if s.pos <= |file| then |file| - s.pos else 0
  {
    var phys := Reading(crc, file, 0);
    var p := PhysRead(crc, file, s.pos, 0);
    var v := OnRecord(s, p, 0);
    PhysReadAdvances(crc, file, s.pos, 0);
    TurnAccounts(s, p);
    TurnIsIntact(crc, file, s, 0);
    hide HoldsBegun, PhysRead, OnRecord, Drops, Given;
    e := s;
    if v.Continue? {
      e := AllIsAccountedFor(crc, file, v.s);
      var r := ReadRec(phys, |file|, v.s, 0);
      TotalAppends(Drops(p, 0), v.reports);
      TotalAppends(Drops(p, 0) + v.reports, r.reports);
    } else {
      TotalAppends(Drops(p, 0), v.r.reports);
      if v.r.record.None? {
        EndIsQuiet(crc, file, s.pos);
      }
    }
  }

  /**
   The exception: an intact fragment of type 6, which no writer writes, is taken for a bad record that has been
   reported, and its payload goes unmentioned where any other unknown type is reported.
   */
  lemma {:induction false} TypeSixIsSilent(crc: Crc, file: Bytes, pos: nat, t: Byte, payload: Bytes)
    requires Intact(crc, file, Align(pos), t, payload) && t > 5 && payload != []
    ensures var p := PhysRead(crc, file, pos, 0);
            var v := OnRecord(Scan(pos, false, false, [], 0), p, 0);
            && p.payload == payload && Drops(p, 0) == [] && v.Continue? && v.s.pos == p.next
            && v.reports == if t == 6 then [] else [|payload|]
  {
    hide Intact, Align, PhysRead;
    IntactIsRead(crc, file, pos, 0, t, payload);
    ReportedTotal(|payload|, Align(pos) + HEADER_SIZE + |payload|);
    hide Reported;
  }
}
