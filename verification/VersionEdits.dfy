/**
 version_edit.cc: the record format of the manifest, and that decoding inverts encoding.
 */
module VersionEdits {
  import opened Entries
  import opened Coding
  import opened Files

  type U32 = n: nat | n < 0x1_0000_0000
  type U64 = n: nat | n < 0x1_0000_0000_0000_0000

  /** InternalKey::Encode and DecodeFrom. */
  datatype KeyCodec = KeyCodec(enc: InternalKey -> Bytes, dec: Bytes -> InternalKey)

  /** A key of a length and a sequence number the formats have room for. */
  predicate Fits(c: KeyCodec, k: InternalKey) {
    |c.enc(k)| < 0x1_0000_0000 && k.seqno <= MAX_SEQUENCE
  }

  ghost predicate GoodCodec(c: KeyCodec) {
    forall k :: Fits(c, k) ==> c.dec(c.enc(k)) == k
  }

  /** FileMetaData as the manifest stores it. */
  datatype Meta = Meta(number: nat, size: nat, smallest: InternalKey, largest: InternalKey)

  /** `deleted` is the std::set of (level, number) pairs, in its order. */
  datatype Edit = Edit(
    comparator: Option<Bytes>, logNumber: Option<nat>, prevLogNumber: Option<nat>, nextFile: Option<nat>,
    lastSequence: Option<nat>,
    compactPointers: seq<(nat, InternalKey)>, deleted: seq<(nat, nat)>, added: seq<(nat, Meta)>)

  const EMPTY_EDIT := Edit(None, None, None, None, None, [], [], [])

  const COMPARATOR: nat := 1
  const LOG_NUMBER: nat := 2
  const NEXT_FILE_NUMBER: nat := 3
  const LAST_SEQUENCE: nat := 4
  const COMPACT_POINTER: nat := 5
  const DELETED_FILE: nat := 6
  const NEW_FILE: nat := 7
  const PREV_LOG_NUMBER: nat := 9

  predicate PairLess(a: (nat, nat), b: (nat, nat)) {
    a.0 < b.0 || (a.0 == b.0 && a.1 < b.1)
  }

  predicate SortedPairs(s: seq<(nat, nat)>) {
    forall i, j :: 0 <= i < j < |s| ==> PairLess(s[i], s[j])
  }

  predicate ValidMeta(c: KeyCodec, m: Meta) {
    m.number < 0x1_0000_0000_0000_0000 && m.size < 0x1_0000_0000_0000_0000 && Fits(c, m.smallest) && Fits(c, m.largest)
  }

  predicate Fits64(n: Option<nat>) {
    n.Some? ==> n.value < 0x1_0000_0000_0000_0000
  }

  /** What the C++ types guarantee of an edit. */
  predicate ValidEdit(c: KeyCodec, e: Edit) {
    && (e.comparator.Some? ==> |e.comparator.value| < 0x1_0000_0000)
    && Fits64(e.logNumber) && Fits64(e.prevLogNumber) && Fits64(e.nextFile) && Fits64(e.lastSequence)
    && (forall p :: p in e.compactPointers ==> p.0 < NUM_LEVELS && Fits(c, p.1))
    && (forall p :: p in e.deleted ==> p.0 < NUM_LEVELS && p.1 < 0x1_0000_0000_0000_0000)
    && SortedPairs(e.deleted)
    && (forall p :: p in e.added ==> p.0 < NUM_LEVELS && ValidMeta(c, p.1))
  }

  /** std::set::insert. */
  function InsertPair(s: seq<(nat, nat)>, p: (nat, nat)): seq<(nat, nat)> {
    if s == [] then [p]
    else
      var last := s[|s| - 1];
      if PairLess(last, p) then s + [p]
      else if last == p then s
      else InsertPair(s[..|s| - 1], p) + [last]
  }

  // ----- one tagged field

  datatype Field =
    | Comparator(name: Bytes)
    | Number(tag: nat, value: nat)
    | CompactPointer(level: nat, key: InternalKey)
    | Deleted(level: nat, number: nat)
    | NewFile(level: nat, meta: Meta)

  predicate NumberTag(tag: nat) {
    tag == LOG_NUMBER || tag == PREV_LOG_NUMBER || tag == NEXT_FILE_NUMBER || tag == LAST_SEQUENCE
  }

  predicate ValidField(c: KeyCodec, f: Field) {
    match f
    case Comparator(name) => |name| < 0x1_0000_0000
    case Number(tag, value) => NumberTag(tag) && value < 0x1_0000_0000_0000_0000
    case CompactPointer(level, key) => level < NUM_LEVELS && Fits(c, key)
    case Deleted(level, number) => level < NUM_LEVELS && number < 0x1_0000_0000_0000_0000
    case NewFile(level, meta) => level < NUM_LEVELS && ValidMeta(c, meta)
  }

  function PutField(c: KeyCodec, f: Field): Bytes {
    match f
    case Comparator(name) => PutVarint(COMPARATOR) + PutSlice(name)
    case Number(tag, value) => PutVarint(tag) + PutVarint(value)
    case CompactPointer(level, key) => PutVarint(COMPACT_POINTER) + PutVarint(level) + PutSlice(c.enc(key))
    case Deleted(level, number) => PutVarint(DELETED_FILE) + PutVarint(level) + PutVarint(number)
    case NewFile(level, m) =>
      PutVarint(NEW_FILE) + PutVarint(level) + PutVarint(m.number) + PutVarint(m.size)
      + PutSlice(c.enc(m.smallest)) + PutSlice(c.enc(m.largest))
  }

  /** GetLevel. */
  function GetLevel(b: Bytes): (r: Option<(nat, Bytes)>)
    ensures r.Some? ==> |r.value.1| < |b| && r.value.0 < NUM_LEVELS
  {
    var r := GetVarint32(b);
    if r.Some? && r.value.0 < NUM_LEVELS then r else None
  }

  function GetKey(c: KeyCodec, b: Bytes): (r: Option<(InternalKey, Bytes)>)
    ensures r.Some? ==> |r.value.1| < |b|
  {
    match GetSlice(b)
    case None => None
    case Some((s, rest)) => Some((c.dec(s), rest))
  }

  function GetMeta(c: KeyCodec, b: Bytes): (r: Option<(Meta, Bytes)>)
    ensures r.Some? ==> |r.value.1| < |b|
  {
    match GetVarint64(b)
    case None => None
    case Some((number, b1)) =>
      match GetVarint64(b1)
      case None => None
      case Some((size, b2)) =>
        match GetKey(c, b2)
        case None => None
        case Some((smallest, b3)) =>
          match GetKey(c, b3)
          case None => None
          case Some((largest, b4)) => Some((Meta(number, size, smallest, largest), b4))
  }

  /** The field behind a tag. */
  function GetBody(c: KeyCodec, tag: nat, b: Bytes): (r: Option<(Field, Bytes)>)
    ensures r.Some? ==> |r.value.1| < |b|
  {
    if tag == COMPARATOR then
      match GetSlice(b)
      case None => None
      case Some((name, rest)) => Some((Comparator(name), rest))
    else if NumberTag(tag) then
      match GetVarint64(b)
      case None => None
      case Some((n, rest)) => Some((Number(tag, n), rest))
    else if tag == COMPACT_POINTER then
      match GetLevel(b)
      case None => None
      case Some((level, b1)) =>
        match GetKey(c, b1)
        case None => None
        case Some((key, rest)) => Some((CompactPointer(level, key), rest))
    else if tag == DELETED_FILE then
      match GetLevel(b)
      case None => None
      case Some((level, b1)) =>
        match GetVarint64(b1)
        case None => None
        case Some((n, rest)) => Some((Deleted(level, n), rest))
    else if tag == NEW_FILE then
      match GetLevel(b)
      case None => None
      case Some((level, b1)) =>
        match GetMeta(c, b1)
        case None => None
        case Some((m, rest)) => Some((NewFile(level, m), rest))
    else None
  }

  function GetField(c: KeyCodec, b: Bytes): (r: Option<(Field, Bytes)>)
    ensures r.Some? ==> |r.value.1| < |b|
  {
    match GetVarint32(b)
    case None => None
    case Some((tag, rest)) => GetBody(c, tag, rest)
  }

  lemma {:induction false} SmallVarint(n: nat, rest: Bytes)
    requires n < 128
    ensures GetVarint32(PutVarint(n) + rest) == Some((n, rest))
  {
    Varint32RoundTrip(n, rest);
  }

  lemma {:induction false} LevelRoundTrip(level: nat, rest: Bytes)
    requires level < NUM_LEVELS
    ensures GetLevel(PutVarint(level) + rest) == Some((level, rest))
  {
    SmallVarint(level, rest);
  }

  lemma {:induction false} KeyRoundTrip(c: KeyCodec, key: InternalKey, rest: Bytes)
    requires GoodCodec(c) && Fits(c, key)
    ensures GetKey(c, PutSlice(c.enc(key)) + rest) == Some((key, rest))
  {
    SliceRoundTrip(c.enc(key), rest);
  }

  lemma {:induction false} Regroup5(a: Bytes, b: Bytes, c: Bytes, d: Bytes, e: Bytes)
    ensures a + b + c + d + e == a + (b + (c + (d + e)))
    ensures a + b + c + d == a + (b + (c + d))
    ensures a + b + c == a + (b + c)
  {
  }

  lemma {:induction false} MetaRoundTrip(c: KeyCodec, m: Meta, rest: Bytes)
    requires GoodCodec(c) && ValidMeta(c, m)
    ensures GetMeta(c,
        PutVarint(m.number) + (PutVarint(m.size) + (PutSlice(c.enc(m.smallest)) + (PutSlice(c.enc(m.largest)) + rest))))
              == Some((m, rest))
  {
    var b3 := PutSlice(c.enc(m.largest)) + rest;
    var b2 := PutSlice(c.enc(m.smallest)) + b3;
    Varint64RoundTrip(m.number, PutVarint(m.size) + b2);
    Varint64RoundTrip(m.size, b2);
    KeyRoundTrip(c, m.smallest, b3);
    KeyRoundTrip(c, m.largest, rest);
  }

  lemma {:induction false} FieldRoundTrip(c: KeyCodec, f: Field, rest: Bytes)
    requires GoodCodec(c) && ValidField(c, f)
    ensures GetField(c, PutField(c, f) + rest) == Some((f, rest))
  {
    hide GetVarint32;
    hide GetVarint64;
    hide PutVarint;
    hide GetSlice;
    hide PutSlice;
    hide GetKey;
    hide GetLevel;
    hide GetMeta;
    match f
    case Comparator(name) =>
      Regroup5(PutVarint(COMPARATOR), PutSlice(name), rest, [], []);
      SmallVarint(COMPARATOR, PutSlice(name) + rest);
      SliceRoundTrip(name, rest);
    case Number(tag, value) =>
      Regroup5(PutVarint(tag), PutVarint(value), rest, [], []);
      SmallVarint(tag, PutVarint(value) + rest);
      Varint64RoundTrip(value, rest);
    case CompactPointer(level, key) =>
      Regroup5(PutVarint(COMPACT_POINTER), PutVarint(level), PutSlice(c.enc(key)), rest, []);
      SmallVarint(COMPACT_POINTER, PutVarint(level) + (PutSlice(c.enc(key)) + rest));
      LevelRoundTrip(level, PutSlice(c.enc(key)) + rest);
      KeyRoundTrip(c, key, rest);
    case Deleted(level, number) =>
      Regroup5(PutVarint(DELETED_FILE), PutVarint(level), PutVarint(number), rest, []);
      SmallVarint(DELETED_FILE, PutVarint(level) + (PutVarint(number) + rest));
      LevelRoundTrip(level, PutVarint(number) + rest);
      Varint64RoundTrip(number, rest);
    case NewFile(level, m) =>
      NewFileRoundTrip(c, level, m, rest);
  }

  lemma {:induction false} NewFileRoundTrip(c: KeyCodec, level: nat, m: Meta, rest: Bytes)
    requires GoodCodec(c) && level < NUM_LEVELS && ValidMeta(c, m)
    ensures GetField(c, PutField(c, NewFile(level, m)) + rest) == Some((NewFile(level, m), rest))
  {
    hide GetVarint32;
    hide GetVarint64;
    hide PutVarint;
    hide GetSlice;
    hide PutSlice;
    hide GetKey;
    hide GetLevel;
    hide GetMeta;
    var t, l, n, z := PutVarint(NEW_FILE), PutVarint(level), PutVarint(m.number), PutVarint(m.size);
    var a, b := PutSlice(c.enc(m.smallest)), PutSlice(c.enc(m.largest));
    var body := n + (z + (a + (b + rest)));
    assert t + l + n + z + a + b + rest == t + (l + body);
    SmallVarint(NEW_FILE, l + body);
    LevelRoundTrip(level, body);
    MetaRoundTrip(c, m, rest);
  }

  // ----- whole records

  function NumberField(tag: nat, n: Option<nat>): seq<Field> {
    if n.Some? then [Number(tag, n.value)] else []
  }

  function PointerFields(ps: seq<(nat, InternalKey)>): seq<Field> {
    seq(|ps|, i requires 0 <= i < |ps| => CompactPointer(ps[i].0, ps[i].1))
  }

  function DeletedFields(ds: seq<(nat, nat)>): seq<Field> {
    seq(|ds|, i requires 0 <= i < |ds| => Deleted(ds[i].0, ds[i].1))
  }

  function AddedFields(fs: seq<(nat, Meta)>): seq<Field> {
    seq(|fs|, i requires 0 <= i < |fs| => NewFile(fs[i].0, fs[i].1))
  }

  function HeaderFields(e: Edit): seq<Field> {
    (if e.comparator.Some? then [Comparator(e.comparator.value)] else []) +
    NumberField(LOG_NUMBER, e.logNumber) + NumberField(PREV_LOG_NUMBER, e.prevLogNumber) +
    NumberField(NEXT_FILE_NUMBER, e.nextFile) + NumberField(LAST_SEQUENCE, e.lastSequence)
  }

  /** The fields of an edit in the order EncodeTo writes them. */
  function FieldsOf(e: Edit): seq<Field> {
    HeaderFields(e) + PointerFields(e.compactPointers) + DeletedFields(e.deleted) + AddedFields(e.added)
  }

  function PutFields(c: KeyCodec, fs: seq<Field>): Bytes {
    if fs == [] then [] else PutFields(c, fs[..|fs| - 1]) + PutField(c, fs[|fs| - 1])
  }

  /** What one decoded field does to the edit. */
  function ApplyField(e: Edit, f: Field): Edit {
    match f
    case Comparator(name) => e.(comparator := Some(name))
    case Number(tag, n) =>
      if tag == LOG_NUMBER then e.(logNumber := Some(n))
      else if tag == PREV_LOG_NUMBER then e.(prevLogNumber := Some(n))
      else if tag == NEXT_FILE_NUMBER then e.(nextFile := Some(n))
      else e.(lastSequence := Some(n))
    case CompactPointer(level, key) => e.(compactPointers := e.compactPointers + [(level, key)])
    case Deleted(level, number) => e.(deleted := InsertPair(e.deleted, (level, number)))
    case NewFile(level, m) => e.(added := e.added + [(level, m)])
  }

  function ApplyFields(e: Edit, fs: seq<Field>): Edit {
    if fs == [] then e else ApplyField(ApplyFields(e, fs[..|fs| - 1]), fs[|fs| - 1])
  }

  /** The loop of DecodeFrom from a state on; None is a corruption status. */
  function DecodeRest(c: KeyCodec, e: Edit, b: Bytes): Option<Edit>
    decreases |b|
  {
    match GetVarint32(b)
    case None => if b == [] then Some(e) else None
    case Some((tag, b1)) =>
      match GetBody(c, tag, b1)
      case None => None
      case Some((f, rest)) => DecodeRest(c, ApplyField(e, f), rest)
  }

  /** Clear() leaves the compaction pointers alone. */
  function Cleared(e: Edit): Edit {
    EMPTY_EDIT.(compactPointers := e.compactPointers)
  }

  lemma {:induction false} PutFieldsFront(c: KeyCodec, fs: seq<Field>)
    requires fs != []
    ensures PutFields(c, fs) == PutField(c, fs[0]) + PutFields(c, fs[1..])
    decreases |fs|
  {
    hide PutField;
    if |fs| > 1 {
      var front, last := fs[..|fs| - 1], PutField(c, fs[|fs| - 1]);
      PutFieldsFront(c, front);
      assert front[1..] == fs[1..][..|fs| - 2];
      Regroup5(PutField(c, fs[0]), PutFields(c, front[1..]), last, [], []);
    } else {
      assert fs[..0] == [] && fs[1..] == [];
    }
  }

  lemma {:induction false} ApplyFieldsFront(e: Edit, fs: seq<Field>)
    requires fs != []
    ensures ApplyFields(e, fs) == ApplyFields(ApplyField(e, fs[0]), fs[1..])
    decreases |fs|
  {
    if |fs| > 1 {
      var front := fs[..|fs| - 1];
      ApplyFieldsFront(e, front);
      assert front[1..] == fs[1..][..|fs| - 2];
    }
  }

  lemma {:induction false} ApplyFieldsAppend(e: Edit, a: seq<Field>, b: seq<Field>)
    ensures ApplyFields(e, a + b) == ApplyFields(ApplyFields(e, a), b)
    decreases |b|
  {
    if b == [] {
      assert a + b == a;
    } else {
      ApplyFieldsAppend(e, a, b[..|b| - 1]);
      assert (a + b)[..|a + b| - 1] == a + b[..|b| - 1];
    }
  }

  /** Decoding the encoding of a list of fields applies them in order. */
  lemma {:induction false} DecodesFields(c: KeyCodec, e: Edit, fs: seq<Field>)
    requires GoodCodec(c) && ValidFields(c, fs)
    ensures DecodeRest(c, e, PutFields(c, fs)) == Some(ApplyFields(e, fs))
    decreases |fs|
  {
    if fs != [] {
      PutFieldsFront(c, fs);
      FieldRoundTrip(c, fs[0], PutFields(c, fs[1..]));
      DecodesFields(c, ApplyField(e, fs[0]), fs[1..]);
      ApplyFieldsFront(e, fs);
    }
  }

  lemma {:induction false} AppliesPointers(e: Edit, ps: seq<(nat, InternalKey)>)
    ensures ApplyFields(e, PointerFields(ps)) == e.(compactPointers := e.compactPointers + ps)
  {
    if ps != [] {
      AppliesPointers(e, ps[..|ps| - 1]);
      assert PointerFields(ps)[..|ps| - 1] == PointerFields(ps[..|ps| - 1]);
      assert ps == ps[..|ps| - 1] + [ps[|ps| - 1]];
    }
  }

  lemma {:induction false} AppliesDeleted(e: Edit, ds: seq<(nat, nat)>)
    requires SortedPairs(ds) && e.deleted == []
    ensures ApplyFields(e, DeletedFields(ds)) == e.(deleted := ds)
  {
    if ds != [] {
      AppliesDeleted(e, ds[..|ds| - 1]);
      assert DeletedFields(ds)[..|ds| - 1] == DeletedFields(ds[..|ds| - 1]);
      assert ds == ds[..|ds| - 1] + [ds[|ds| - 1]];
    }
  }

  lemma {:induction false} AppliesAdded(e: Edit, fs: seq<(nat, Meta)>)
    ensures ApplyFields(e, AddedFields(fs)) == e.(added := e.added + fs)
  {
    if fs != [] {
      AppliesAdded(e, fs[..|fs| - 1]);
      assert AddedFields(fs)[..|fs| - 1] == AddedFields(fs[..|fs| - 1]);
      assert fs == fs[..|fs| - 1] + [fs[|fs| - 1]];
    }
  }

  lemma {:induction false} OneField(e: Edit, f: Field)
    ensures ApplyFields(e, [f]) == ApplyField(e, f) && ApplyFields(e, []) == e
  {
    assert [f][..0] == [];
  }

  lemma {:induction false} AppliesHeader(start: Edit, e: Edit)
    requires start == Cleared(start)
    ensures ApplyFields(start, HeaderFields(e)) ==
              start.(comparator := e.comparator, logNumber := e.logNumber, prevLogNumber := e.prevLogNumber,
                     nextFile := e.nextFile, lastSequence := e.lastSequence)
  {
    hide ApplyFields;
    var a := if e.comparator.Some? then [Comparator(e.comparator.value)] else [];
    var b, p, n, l := NumberField(LOG_NUMBER, e.logNumber), NumberField(PREV_LOG_NUMBER, e.prevLogNumber),
                      NumberField(NEXT_FILE_NUMBER, e.nextFile), NumberField(LAST_SEQUENCE, e.lastSequence);
    ApplyFieldsAppend(start, a + b + p + n, l);
    ApplyFieldsAppend(start, a + b + p, n);
    ApplyFieldsAppend(start, a + b, p);
    ApplyFieldsAppend(start, a, b);
    if e.comparator.Some? {
      OneField(start, Comparator(e.comparator.value));
    } else {
      OneField(start, Comparator([]));
    }
    var e1 := start.(comparator := e.comparator);
    AppliesNumber(e1, LOG_NUMBER, e.logNumber);
    var e2 := e1.(logNumber := e.logNumber);
    AppliesNumber(e2, PREV_LOG_NUMBER, e.prevLogNumber);
    var e3 := e2.(prevLogNumber := e.prevLogNumber);
    AppliesNumber(e3, NEXT_FILE_NUMBER, e.nextFile);
    AppliesNumber(e3.(nextFile := e.nextFile), LAST_SEQUENCE, e.lastSequence);
  }

  lemma {:induction false} AppliesNumber(e: Edit, tag: nat, n: Option<nat>)
    ensures ApplyFields(e, NumberField(tag, n)) == if n.Some? then ApplyField(e, Number(tag, n.value)) else e
  {
    if n.Some? {
      OneField(e, Number(tag, n.value));
    }
  }

  lemma {:induction false} AppliesAll(start: Edit, e: Edit)
    requires start == Cleared(start) && SortedPairs(e.deleted)
    ensures ApplyFields(start, FieldsOf(e)) == e.(compactPointers := start.compactPointers + e.compactPointers)
  {
    var h, p, d, a := HeaderFields(e), PointerFields(e.compactPointers), DeletedFields(e.deleted), AddedFields(e.added);
    hide ApplyFields;
    hide HeaderFields;
    ApplyFieldsAppend(start, h + p + d, a);
    ApplyFieldsAppend(start, h + p, d);
    ApplyFieldsAppend(start, h, p);
    AppliesHeader(start, e);
    var e1 := ApplyFields(start, h);
    AppliesPointers(e1, e.compactPointers);
    var e2 := ApplyFields(e1, p);
    AppliesDeleted(e2, e.deleted);
    AppliesAdded(ApplyFields(e2, d), e.added);
    assert [] + e.added == e.added;
  }

  predicate ValidFields(c: KeyCodec, fs: seq<Field>) {
    forall f :: f in fs ==> ValidField(c, f)
  }

  lemma {:induction false} PointersAreValid(c: KeyCodec, ps: seq<(nat, InternalKey)>)
    requires forall p :: p in ps ==> p.0 < NUM_LEVELS && Fits(c, p.1)
    ensures ValidFields(c, PointerFields(ps))
  {
  }

  lemma {:induction false} DeletedAreValid(c: KeyCodec, ds: seq<(nat, nat)>)
    requires forall p :: p in ds ==> p.0 < NUM_LEVELS && p.1 < 0x1_0000_0000_0000_0000
    ensures ValidFields(c, DeletedFields(ds))
  {
  }

  lemma {:induction false} AddedAreValid(c: KeyCodec, fs: seq<(nat, Meta)>)
    requires forall p :: p in fs ==> p.0 < NUM_LEVELS && ValidMeta(c, p.1)
    ensures ValidFields(c, AddedFields(fs))
  {
  }

  lemma {:induction false} FieldsAreValid(c: KeyCodec, e: Edit)
    requires ValidEdit(c, e)
    ensures ValidFields(c, FieldsOf(e))
  {
    PointersAreValid(c, e.compactPointers);
    DeletedAreValid(c, e.deleted);
    AddedAreValid(c, e.added);
    hide PointerFields;
    hide DeletedFields;
    hide AddedFields;
    hide SortedPairs;
  }

  function Encode(c: KeyCodec, e: Edit): Bytes {
    PutFields(c, FieldsOf(e))
  }

  /** DecodeFrom inverts EncodeTo, except that compaction pointers already present stay in front. */
  lemma {:induction false} DecodeInvertsEncode(c: KeyCodec, prior: Edit, e: Edit)
    requires GoodCodec(c) && ValidEdit(c, e)
    ensures DecodeRest(c, Cleared(prior), Encode(c, e)) ==
        Some(e.(compactPointers := prior.compactPointers + e.compactPointers))
  {
    FieldsAreValid(c, e);
    DecodesFields(c, Cleared(prior), FieldsOf(e));
    AppliesAll(Cleared(prior), e);
  }

  /** So an edit round-trips exactly when it is decoded into one without compaction pointers. */
  lemma {:induction false} RoundTripIff(c: KeyCodec, prior: Edit, e: Edit)
    requires GoodCodec(c) && ValidEdit(c, e)
    ensures DecodeRest(c, Cleared(prior), Encode(c, e)) == Some(e) <==> prior.compactPointers == []
  {
    DecodeInvertsEncode(c, prior, e);
    if prior.compactPointers == [] {
      assert [] + e.compactPointers == e.compactPointers;
    } else {
      assert |prior.compactPointers + e.compactPointers| > |e.compactPointers|;
    }
  }

  // ----- the class

  class VersionEdit {
    var comparator: Option<Bytes>
    var logNumber: Option<nat>
    var prevLogNumber: Option<nat>
    var nextFile: Option<nat>
    var lastSequence: Option<nat>
    var compactPointers: seq<(nat, InternalKey)>
    var deleted: seq<(nat, nat)>
    var added: seq<(nat, Meta)>

    function State(): Edit
      reads this
    {
      Edit(comparator, logNumber, prevLogNumber, nextFile, lastSequence, compactPointers, deleted, added)
    }

    constructor ()
      ensures State() == EMPTY_EDIT
    {
      comparator, logNumber, prevLogNumber, nextFile, lastSequence := None, None, None, None, None;
      compactPointers, deleted, added := [], [], [];
    }

    method Clear()
      modifies this
      ensures State() == Cleared(old(State()))
    {
      comparator, logNumber, prevLogNumber, nextFile, lastSequence := None, None, None, None, None;
      deleted, added := [], [];
    }

    method AddFile(level: nat, m: Meta)
      modifies this
      ensures State() == old(State()).(added := old(added) + [(level, m)])
    {
      added := added + [(level, m)];
    }

    method DeleteFile(level: nat, number: nat)
      modifies this
      ensures State() == old(State()).(deleted := InsertPair(old(deleted), (level, number)))
    {
      deleted := InsertPair(deleted, (level, number));
    }

    /** Append one field. */
    method Put(c: KeyCodec, dst: Bytes, f: Field, ghost done: seq<Field>) returns (dst2: Bytes)
      requires dst == PutFields(c, done)
      ensures dst2 == PutFields(c, done + [f])
    {
      dst2 := dst + PutField(c, f);
      assert (done + [f])[..|done|] == done;
    }

    method PutNumber(c: KeyCodec, dst: Bytes, tag: nat, n: Option<nat>, ghost done: seq<Field>) returns (dst2: Bytes)
      requires dst == PutFields(c, done)
      ensures dst2 == PutFields(c, done + NumberField(tag, n))
    {
      dst2 := dst;
      if n.Some? {
        dst2 := Put(c, dst, Number(tag, n.value), done);
      } else {
        assert done + [] == done;
      }
    }

    method PutHeader(c: KeyCodec) returns (dst: Bytes)
      ensures dst == PutFields(c, HeaderFields(State()))
    {
      dst := [];
      ghost var done: seq<Field> := [];
      if comparator.Some? {
        dst := Put(c, dst, Comparator(comparator.value), done);
        done := [Comparator(comparator.value)];
      }
      dst := PutNumber(c, dst, LOG_NUMBER, logNumber, done);
      done := done + NumberField(LOG_NUMBER, logNumber);
      dst := PutNumber(c, dst, PREV_LOG_NUMBER, prevLogNumber, done);
      done := done + NumberField(PREV_LOG_NUMBER, prevLogNumber);
      dst := PutNumber(c, dst, NEXT_FILE_NUMBER, nextFile, done);
      done := done + NumberField(NEXT_FILE_NUMBER, nextFile);
      dst := PutNumber(c, dst, LAST_SEQUENCE, lastSequence, done);
    }

    /** VersionEdit::EncodeTo. */
    method EncodeTo(c: KeyCodec) returns (dst: Bytes)
      ensures dst == Encode(c, State())
    {
      dst := PutHeader(c);
      ghost var h := HeaderFields(State());
      ghost var p, d, a := PointerFields(compactPointers), DeletedFields(deleted), AddedFields(added);
      hide PutFields;
      hide HeaderFields;
      assert p[..0] == [] && h + [] == h;
      for i := 0 to |compactPointers|
        invariant dst == PutFields(c, h + p[..i])
      {
        dst := Put(c, dst, CompactPointer(compactPointers[i].0, compactPointers[i].1), h + p[..i]);
        assert h + p[..i] + [p[i]] == h + p[..i + 1];
      }
      assert p[..|p|] == p && h + p + d[..0] == h + p;
      for i := 0 to |deleted|
        invariant dst == PutFields(c, h + p + d[..i])
      {
        dst := Put(c, dst, Deleted(deleted[i].0, deleted[i].1), h + p + d[..i]);
        assert h + p + d[..i] + [d[i]] == h + p + d[..i + 1];
      }
      assert d[..|d|] == d && h + p + d + a[..0] == h + p + d;
      for i := 0 to |added|
        invariant dst == PutFields(c, h + p + d + a[..i])
      {
        dst := Put(c, dst, NewFile(added[i].0, added[i].1), h + p + d + a[..i]);
        assert h + p + d + a[..i] + [a[i]] == h + p + d + a[..i + 1];
      }
      assert a[..|a|] == a;
    }

    /** One case of DecodeFrom's switch. */
    method Accept(f: Field)
      modifies this
      ensures State() == ApplyField(old(State()), f)
    {
      match f
      case Comparator(name) => comparator := Some(name);
      case Number(tag, n) =>
        if tag == LOG_NUMBER {
          logNumber := Some(n);
        } else if tag == PREV_LOG_NUMBER {
          prevLogNumber := Some(n);
        } else if tag == NEXT_FILE_NUMBER {
          nextFile := Some(n);
        } else {
          lastSequence := Some(n);
        }
      case CompactPointer(level, key) => compactPointers := compactPointers + [(level, key)];
      case Deleted(level, number) => DeleteFile(level, number);
      case NewFile(level, m) => AddFile(level, m);
    }

    /** VersionEdit::DecodeFrom: false is a corruption status. */
    method DecodeFrom(c: KeyCodec, src: Bytes) returns (ok: bool)
      modifies this
      ensures var r := DecodeRest(c, Cleared(old(State())), src);
              ok == r.Some? && (ok ==> State() == r.value)
    {
      Clear();
      var input := src;
      ghost var goal := DecodeRest(c, State(), src);
      var next := GetVarint32(input);
      while next.Some?
        invariant goal == DecodeRest(c, State(), input) && next == GetVarint32(input)
        decreases |input|
      {
        var (tag, rest) := next.value;
        var body := GetBody(c, tag, rest);
        if body.None? {
          return false;
        }
        Accept(body.value.0);
        input := body.value.1;
        next := GetVarint32(input);
      }
      ok := input == [];
    }
  }

  /** An encoded edit decodes into a fresh one as itself. */
  method RoundTrip(c: KeyCodec, e: VersionEdit) returns (e2: VersionEdit, ok: bool)
    requires GoodCodec(c) && ValidEdit(c, e.State())
    ensures ok && e2.State() == e.State()
  {
    var bytes := e.EncodeTo(c);
    e2 := new VersionEdit();
    DecodeInvertsEncode(c, EMPTY_EDIT, e.State());
    assert [] + e.compactPointers == e.compactPointers;
    ok := e2.DecodeFrom(c, bytes);
  }
}
