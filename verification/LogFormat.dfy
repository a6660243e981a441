/**
 The block-fragmented log format: log_format.h, and the writer of log_writer.cc.
 */
module LogFormat {
  import opened Entries

  const BLOCK_SIZE: nat := 32768
  const HEADER_SIZE: nat := 7
  const FULL: Byte := 1
  const FIRST: Byte := 2
  const MIDDLE: Byte := 3
  const LAST: Byte := 4
  // values ReadPhysicalRecord adds
  const EOF: nat := 5
  const BAD_RECORD: nat := 6

  /** The masked checksum of a record type and payload; any function will do. */
  type Crc = (Byte, Bytes) -> Word
  type Word = n: nat | n < 0x1_0000_0000

  function Fixed32(n: Word): Bytes {
    [n % 256, n / 256 % 256, n / 256 / 256 % 256, n / 256 / 256 / 256 % 256]
  }

  function DecodeFixed32(b: Bytes): nat
    requires |b| >= 4
  {
    b[0] as nat + 256 * (b[1] as nat + 256 * (b[2] as nat + 256 * b[3] as nat))
  }

  lemma {:induction false} Fixed32RoundTrip(n: Word)
    ensures DecodeFixed32(Fixed32(n)) == n
  {
    var b := n / 256;
    var c := b / 256;
    var d := c / 256;
    assert n == n % 256 + 256 * b && b == b % 256 + 256 * c && c == c % 256 + 256 * d && d == d % 256;
  }

  /** The seven header bytes of a physical record. */
  function Header(crc: Crc, t: Byte, payload: Bytes): (h: Bytes)
    ensures |h| == HEADER_SIZE
  {
    Fixed32(crc(t, payload)) + [|payload| % 256, |payload| / 256 % 256, t]
  }

  function Zeros(n: nat): (z: Bytes)
    ensures |z| == n
  {
    seq(n, _ => 0)
  }

  /** Where the next physical header goes: a block tail too short for a header is skipped. */
  function Align(pos: nat): nat {
    if BLOCK_SIZE - pos % BLOCK_SIZE < HEADER_SIZE then (pos / BLOCK_SIZE + 1) * BLOCK_SIZE else pos
  }

  /** How much payload fits behind a header at `a`. */
  function Avail(a: nat): nat
    requires BLOCK_SIZE - a % BLOCK_SIZE >= HEADER_SIZE
  {
    BLOCK_SIZE - a % BLOCK_SIZE - HEADER_SIZE
  }

  lemma {:induction false} AlignFits(pos: nat)
    ensures pos <= Align(pos) < pos + HEADER_SIZE
    ensures BLOCK_SIZE - Align(pos) % BLOCK_SIZE >= HEADER_SIZE
    ensures Align(Align(pos)) == Align(pos)
  {
  }

  function FragmentLength(pos: nat, left: nat): (n: nat)
    ensures n <= left
  {
    AlignFits(pos);
    if left < Avail(Align(pos)) then left else Avail(Align(pos))
  }

  function FragmentType(begin: bool, end: bool): Byte {
    if begin && end then FULL else if begin then FIRST else if end then LAST else MIDDLE
  }

  /** One fragment with its padding, written at file position `pos`. */
  function Fragment(crc: Crc, pos: nat, left: Bytes, begin: bool): Bytes {
    AlignFits(pos);
    var n := FragmentLength(pos, |left|);
    Zeros(Align(pos) - pos) + Header(crc, FragmentType(begin, n == |left|), left[..n]) + left[..n]
  }

  /** Where the fragment written at `pos` ends. */
  function FragmentEnd(pos: nat, left: nat): nat {
    Align(pos) + HEADER_SIZE + FragmentLength(pos, left)
  }

  /** A fragment never crosses a block boundary, and it makes progress. */
  lemma {:induction false} FragmentStaysInBlock(pos: nat, left: nat)
    ensures FragmentEnd(pos, left) <= (Align(pos) / BLOCK_SIZE + 1) * BLOCK_SIZE
    ensures FragmentLength(pos, left) < left ==> FragmentEnd(pos, left) == (Align(pos) / BLOCK_SIZE + 1) * BLOCK_SIZE
    ensures FragmentLength(pos, left) == 0 && left > 0 ==> pos % BLOCK_SIZE == BLOCK_SIZE - HEADER_SIZE
  {
    AlignFits(pos);
  }

  /** 1 when the block has room for a header only, so that the next fragment is empty. */
  function Rank(pos: nat): nat {
    if pos % BLOCK_SIZE == BLOCK_SIZE - HEADER_SIZE then 1 else 0
  }

  lemma {:induction false} FragmentProgress(pos: nat, left: nat)
    ensures var n := FragmentLength(pos, left);
            n < left ==> n > 0 || Rank(FragmentEnd(pos, left)) < Rank(pos)
  {
    FragmentStaysInBlock(pos, left);
  }

  /** All the bytes AddRecord appends for `left`, starting at file position `pos`. */
  function Emit(crc: Crc, pos: nat, left: Bytes, begin: bool): Bytes
    decreases |left|, Rank(pos)
  {
    FragmentProgress(pos, |left|);
    var n := FragmentLength(pos, |left|);
    Fragment(crc, pos, left, begin) +
    (if n == |left| then [] else Emit(crc, FragmentEnd(pos, |left|), left[n..], false))
  }

  /** The file after writing a list of records. */
  function LogBytes(crc: Crc, records: seq<Bytes>): Bytes {
    if records == [] then []
    else
      var before := LogBytes(crc, records[..|records| - 1]);
      before + Emit(crc, |before|, records[|records| - 1], true)
  }

  lemma {:induction false} FragmentSize(crc: Crc, pos: nat, left: Bytes, begin: bool)
    ensures pos + |Fragment(crc, pos, left, begin)| == FragmentEnd(pos, |left|)
  {
    AlignFits(pos);
  }

  // ----- log_writer.cc

  class Writer {
    var dest: Bytes      // the contents of *dest_
    var blockOffset: nat
    const crc: Crc

    constructor (crc: Crc)
      ensures Valid() && dest == [] && this.crc == crc
    {
      this.crc, dest, blockOffset := crc, [], 0;
    }

    /** Reopening a file for appending. */
    constructor Append(crc: Crc, existing: Bytes)
      ensures Valid() && dest == existing && this.crc == crc
    {
      this.crc, dest, blockOffset := crc, existing, |existing| % BLOCK_SIZE;
    }

    predicate Valid()
      reads this
    {
      blockOffset <= BLOCK_SIZE && blockOffset % BLOCK_SIZE == |dest| % BLOCK_SIZE
    }

    /** Writer::EmitPhysicalRecord. */
    method EmitPhysicalRecord(t: Byte, payload: Bytes)
      requires Valid() && |payload| <= 0xffff && blockOffset + HEADER_SIZE + |payload| <= BLOCK_SIZE
      modifies this
      ensures Valid() && dest == old(dest) + Header(crc, t, payload) + payload
      ensures blockOffset == old(blockOffset) + HEADER_SIZE + |payload|
    {
      dest := dest + (Fixed32(crc(t, payload)) + [|payload| % 256, |payload| / 256 % 256, t]);
      dest := dest + payload;
      blockOffset := blockOffset + HEADER_SIZE + |payload|;
    }

    /** Start of an iteration of AddRecord: pad out the block if no header fits. */
    method SwitchBlock()
      requires Valid()
      modifies this
      ensures Valid() && dest == old(dest) + Zeros(Align(|old(dest)|) - |old(dest)|)
      ensures blockOffset == |dest| % BLOCK_SIZE && |dest| == Align(|old(dest)|)
    {
      AlignOffset(|dest|, blockOffset);
      var leftover := BLOCK_SIZE - blockOffset;
      if leftover < HEADER_SIZE {
        if leftover > 0 {
          dest := dest + Zeros(leftover);
        }
        blockOffset := 0;
      }
    }

    /** One iteration of AddRecord. */
    method EmitFragment(left: Bytes, begin: bool) returns (n: nat)
      requires Valid()
      modifies this
      ensures Valid() && n == FragmentLength(|old(dest)|, |left|)
      ensures dest == old(dest) + Fragment(crc, |old(dest)|, left, begin)
    {
      AlignFits(|dest|);
      SwitchBlock();
      var avail := BLOCK_SIZE - blockOffset - HEADER_SIZE;
      n := if |left| < avail then |left| else avail;
      var end := |left| == n;
      var t := if begin && end then FULL else if begin then FIRST else if end then LAST else MIDDLE;
      EmitPhysicalRecord(t, left[..n]);
      ghost var z, h := Zeros(Align(|old(dest)|) - |old(dest)|), Header(crc, t, left[..n]);
      assert old(dest) + z + h + left[..n] == old(dest) + (z + h + left[..n]);
    }

    /** Writer::AddRecord: fragments the record over blocks; an empty record still gets one header. */
    method AddRecord(record: Bytes)
      requires Valid()
      modifies this
      ensures Valid() && dest == old(dest) + Emit(crc, |old(dest)|, record, true)
    {
      var left, begin := record, true;
      ghost var total := Emit(crc, |dest|, record, true);
      ghost var done: Bytes := [];
      while true
        invariant Valid() && dest == old(dest) + done
        invariant total == done + Emit(crc, |dest|, left, begin)
        decreases |left|, Rank(|dest|)
      {
        ghost var pos, f := |dest|, Fragment(crc, |dest|, left, begin);
        FragmentProgress(pos, |left|);
        FragmentSize(crc, pos, left, begin);
        EmitUnfolds(crc, pos, left, begin, done);
        ghost var next := FragmentEnd(pos, |left|);
        var n := EmitFragment(left, begin);
        Regroup(old(dest), done, f);
        assert |dest| == next;
        done := done + f;
        left := left[n..];
        begin := false;
        if |left| == 0 {
          break;
        }
        assert total == done + Emit(crc, next, left, false);
      }
    }
  }

  lemma {:induction false} Regroup(a: Bytes, b: Bytes, c: Bytes)
    ensures a + b + c == a + (b + c)
  {
  }

  lemma {:induction false} AlignOffset(pos: nat, offset: nat)
    requires offset <= BLOCK_SIZE && offset % BLOCK_SIZE == pos % BLOCK_SIZE
    ensures BLOCK_SIZE - offset < HEADER_SIZE ==>
              Align(pos) == pos + BLOCK_SIZE - offset && Align(pos) % BLOCK_SIZE == 0
    ensures BLOCK_SIZE - offset >= HEADER_SIZE ==> Align(pos) == pos && offset == pos % BLOCK_SIZE
  {
  }

  lemma {:induction false} EmitUnfolds(crc: Crc, pos: nat, left: Bytes, begin: bool, done: Bytes)
    ensures var n := FragmentLength(pos, |left|);
            done + Emit(crc, pos, left, begin) ==
              (done + Fragment(crc, pos, left, begin)) + (if n == |left| then []
                    else Emit(crc, FragmentEnd(pos, |left|), left[n..], false))
  {
  }
}
