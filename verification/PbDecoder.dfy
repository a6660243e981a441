/**
 pb_decode.c: input streams over a buffer, and the decoder that reads from them into a structure.

 Every method agrees with PbWire and PbDecoding on the bytes left in the stream: it succeeds
 if and only if they give a result, and then it has that result and has taken those bytes.
 */
module PbDecoder {
  import opened Entries
  import opened Coding
  import opened PbWire
  import opened PbSchema
  import opened PbDecoding
  import opened PbMissing
  import opened PbIterator
  import opened PbRequired

  /** The destination structure. */
  class Struct {
    var slots: Message

    constructor (m: Message)
      ensures slots == m
    {
      slots := m;
    }

    /** pb_message_set_to_defaults. */
    method SetToDefaults(fields: seq<Field>)
      requires |slots| == |fields| && NoZeroTag(fields)
      modifies this
      ensures slots == Defaults(fields)
    {
      var iter := new FieldIter(fields);
      if fields == [] {
        return;
      }
      var more := true;
      while more
        invariant iter.Valid() && iter.start == fields && |slots| == |fields|
        invariant forall k :: 0 <= k < (if more then iter.pos else |fields|) ==> slots[k] == DefaultSlot(fields[k])
        decreases more, if more then |fields| - iter.pos else 0
      {
        slots := slots[iter.pos := DefaultSlot(fields[iter.pos])];
        more := iter.Next();
      }
    }
  }

  class IStream {
    const data: Bytes
    var state: nat
    var bytesLeft: nat

    ghost predicate Valid()
      reads this
    {
      state + bytesLeft <= |data|
    }

    ghost function End(): nat
      reads this
    {
      state + bytesLeft
    }

    ghost function Rest(): (b: Bytes)
      requires Valid()
      reads this
      ensures |b| == bytesLeft
    {
      data[state..state + bytesLeft]
    }

    /** pb_istream_from_buffer, and the substreams made from it. */
    constructor (b: Bytes, at: nat, size: nat)
      requires at + size <= |b|
      ensures Valid() && data == b && state == at && bytesLeft == size
    {
      data := b;
      state := at;
      bytesLeft := size;
    }

    // ----- pb_read

    /** pb_read and buf_read. */
    method Read(count: nat) returns (ok: bool, b: Bytes)
      requires Valid()
      modifies this
      ensures Valid() && End() == old(End())
      ensures ok == (count <= |old(Rest())|)
      ensures ok ==> b == old(Rest())[..count] && Rest() == old(Rest())[count..]
    {
      b := [];
      if bytesLeft < count {
        return false, b;
      }
      for i := 0 to count
        invariant Valid() && state == old(state) && bytesLeft == old(bytesLeft)
        invariant b == Rest()[..i]
      {
        b := b + [data[state + i]];
      }
      state := state + count;
      bytesLeft := bytesLeft - count;
      return true, b;
    }

    /** pb_read without a buffer. */
    method Skip(count: nat) returns (ok: bool)
      requires Valid()
      modifies this
      ensures Valid() && End() == old(End())
      ensures ok == (count <= |old(Rest())|)
      ensures ok ==> Rest() == old(Rest())[count..]
    {
      if bytesLeft < count {
        return false;
      }
      state := state + count;
      bytesLeft := bytesLeft - count;
      return true;
    }

    method ReadByte() returns (ok: bool, byte: Byte)
      requires Valid()
      modifies this
      ensures Valid() && End() == old(End())
      ensures ok == (old(Rest()) != [])
      ensures ok ==> byte == old(Rest())[0] && Rest() == old(Rest())[1..]
      ensures !ok ==> bytesLeft == 0
    {
      byte := 0;
      if bytesLeft == 0 {
        return false, byte;
      }
      byte := data[state];
      state := state + 1;
      bytesLeft := bytesLeft - 1;
      return true, byte;
    }

    /** The stream gave a number and went on, or failed, as the reader says. */
    ghost predicate Gave(ok: bool, n: nat, read: Option<(nat, Bytes)>)
      reads this
    {
      Valid() && (ok <==> read.Some?) && (ok ==> n == read.value.0 && Rest() == read.value.1)
    }

    // ----- varints

    /** pb_decode_varint32_eof. */
    method DecodeVarint32() returns (ok: bool, n: nat, eof: bool)
      requires Valid()
      modifies this
      ensures End() == old(End()) && Gave(ok, n, ReadVarint32(old(Rest())))
      ensures eof == (old(Rest()) == [])
    {
      var byte;
      n, eof := 0, false;
      ok, byte := ReadByte();
      if !ok {
        return false, 0, true;
      }
      if byte < 128 {
        return true, byte, false;
      }
      n := byte % 128;
      var bitpos := 7;
      ghost var read := ReadVarint32(old(Rest()));
      while true
        invariant Valid() && End() == old(End()) && MoreVarint32(Rest(), n, bitpos) == read
        decreases bytesLeft
      {
        ok, byte := ReadByte();
        if !ok {
          return;
        }
        if bitpos >= 32 {
          var signExtension := if bitpos < 63 then 0xFF else 0x01;
          if byte % 128 != 0 && (n / TWO_31 == 0 || byte != signExtension) {
            ok := false;
            return;
          }
        } else {
          n := n + Shifted(byte, bitpos);
        }
        bitpos := bitpos + 7;
        if byte < 128 {
          break;
        }
      }
      if bitpos == 35 && byte / 16 != 0 {
        ok := false;
      }
    }

    /** pb_decode_varint. */
    method DecodeVarint() returns (ok: bool, n: nat)
      requires Valid()
      modifies this
      ensures End() == old(End()) && Gave(ok, n, ReadVarint(old(Rest())))
    {
      hide GetVarint;
      ghost var b := Rest();
      var i: nat, weight: nat := 0, 1;
      n := 0;
      while true
        invariant Valid() && End() == old(End()) && i <= 10
        invariant GetVarint(b, 10) == Weighed(n, weight, GetVarint(Rest(), 10 - i))
        decreases 10 - i
      {
        NoByteLeft(Rest(), 10 - i);
        if i * 7 >= 64 {
          return false, 0;
        }
        ghost var before := Rest();
        var byte;
        ok, byte := ReadByte();
        if !ok {
          return;
        }
        WeighedByte(n, weight, before, 10 - i);
        n := n + byte % 128 * weight;
        if byte < 128 {
          break;
        }
        weight := 128 * weight;
        i := i + 1;
      }
      n := n % TWO_64;
    }

    // ----- skipping

    method SkipVarint() returns (ok: bool)
      requires Valid()
      modifies this
      ensures Valid() && End() == old(End())
      ensures ok <==> PbWire.SkipVarint(old(Rest())).Some?
      ensures ok ==> Rest() == PbWire.SkipVarint(old(Rest())).value
    {
      ghost var whole := PbWire.SkipVarint(Rest());
      while true
        invariant Valid() && End() == old(End()) && PbWire.SkipVarint(Rest()) == whole
        decreases bytesLeft
      {
        var byte;
        ok, byte := ReadByte();
        if !ok || byte < 128 {
          return;
        }
      }
    }

    /** pb_skip_field, pb_skip_string. */
    method SkipField(wire: nat) returns (ok: bool)
      requires Valid()
      modifies this
      ensures Valid() && End() == old(End())
      ensures ok <==> PbWire.SkipField(wire, old(Rest())).Some?
      ensures ok ==> Rest() == PbWire.SkipField(wire, old(Rest())).value
    {
      if wire == 0 {
        ok := SkipVarint();
      } else if wire == 1 {
        ok := Skip(8);
      } else if wire == 2 {
        var length, eof;
        ok, length, eof := DecodeVarint32();
        if ok {
          ok := Skip(length);
        }
      } else if wire == 5 {
        ok := Skip(4);
      } else {
        ok := false;
      }
    }

    /** pb_decode_tag: the end of the bytes and a zero both end the message. */
    method DecodeTag() returns (ok: bool, key: nat, eof: bool)
      requires Valid()
      modifies this
      ensures Valid() && End() == old(End())
      ensures ok <==> ReadVarint32(old(Rest())).Some? && ReadVarint32(old(Rest())).value.0 != 0
      ensures ok ==> (key, Rest()) == ReadVarint32(old(Rest())).value
      ensures !ok ==> eof == (old(Rest()) == [] || ReadVarint32(old(Rest())).Some?)
    {
      ok, key, eof := DecodeVarint32();
      if ok && key == 0 {
        return false, 0, true;
      }
    }

    // ----- substreams

    /** pb_make_string_substream. The stream itself moves on only when the substream is closed. */
    method MakeSubstream() returns (ok: bool, sub: IStream)
      requires Valid()
      modifies this
      ensures fresh(sub) && sub.Valid() && sub.data == data && sub.state == state
      ensures ok <==> ReadString(old(Rest())).Some?
      ensures ok ==> sub.Rest() == ReadString(old(Rest())).value.0
      ensures ok ==> sub.End() + bytesLeft == old(End()) <= |data|
      ensures ok ==> data[sub.End()..sub.End() + bytesLeft] == ReadString(old(Rest())).value.1
      ensures !ok ==> Valid() && End() == old(End())
    {
      var size, eof;
      ok, size, eof := DecodeVarint32();
      if !ok {
        sub := new IStream(data, state, 0);
        return;
      }
      if bytesLeft < size {
        sub := new IStream(data, state, 0);
        ok := false;
        return;
      }
      sub := new IStream(data, state, size);
      bytesLeft := bytesLeft - size;
    }

    /** pb_close_string_substream: what the substream leaves unread is skipped. */
    method CloseSubstream(sub: IStream)
      requires sub != this && sub.Valid() && sub.data == data && sub.End() + bytesLeft <= |data|
      modifies this`state, sub
      ensures Valid() && state == old(sub.End())
    {
      if sub.bytesLeft != 0 {
        var skipped := sub.Skip(sub.bytesLeft);
      }
      state := sub.state;
    }

    // ----- values

    /** pb_dec_varint, pb_dec_uvarint, pb_dec_svarint, pb_dec_fixed32, pb_dec_fixed64. */
    method DecodeNumeric(kind: Kind, size: nat) returns (ok: bool, n: int)
      requires Valid() && kind.Packable()
      modifies this
      ensures Valid() && End() == old(End())
      ensures ok <==> DecodeNumber(kind, size, old(Rest())).Some?
      ensures ok ==> (n, Rest()) == DecodeNumber(kind, size, old(Rest())).value
    {
      n := 0;
      if kind.Fixed32? || kind.Fixed64? {
        var b;
        ok, b := Read(if kind.Fixed32? then 4 else 8);
        if ok {
          n := DecodeFixed(b);
        }
        return;
      }
      var u;
      ok, u := DecodeVarint();
      if !ok {
        return;
      }
      match kind
      case Varint =>
        n := if size == 8 then AsI64(u) else AsI32(u);
        ok := FitsSigned(size, n);
      case Svarint =>
        n := Unzigzag(u);
        ok := FitsSigned(size, n);
      case Uvarint =>
        n := u;
        ok := FitsUnsigned(size, n);
    }

    /** pb_dec_bytes, pb_dec_string, pb_dec_fixed_length_bytes. */
    method DecodeByteString(f: Field) returns (ok: bool, v: Value)
      requires Valid()
      modifies this
      ensures Valid() && End() == old(End())
      ensures ok <==> DecodeBytes(f, old(Rest())).Some?
      ensures ok ==> (v, Rest()) == DecodeBytes(f, old(Rest())).value
    {
      var size, eof, content;
      v := Str([]);
      ok, size, eof := DecodeVarint32();
      if !ok {
        return;
      }
      if f.kind.BytesArray? {
        if size + BYTES_HEADER > f.dataSize {
          return false, v;
        }
      } else if f.kind.CString? {
        if size + 1 > f.dataSize {
          return false, v;
        }
      } else {
        if size == 0 {
          return true, Stored(f, []);
        }
        if size != f.dataSize {
          return false, v;
        }
      }
      ok, content := Read(size);
      v := Str(content);
    }

    /** The decoder of PB_DECODERS for the field's type, over what the field holds. */
    method DecodeOne(f: Field, prior: Value) returns (ok: bool, v: Value)
      requires Valid() && SearchableField(f)
      modifies this
      ensures Valid() && End() == old(End())
      ensures ok <==> DecodeValue(f, prior, old(Rest())).Some?
      ensures ok ==> (v, Rest()) == DecodeValue(f, prior, old(Rest())).value
      decreases f, 1
    {
      match f.kind
      case BytesArray | CString | FixedBytes =>
        ok, v := DecodeByteString(f);
      case Submessage =>
        ok, v := DecodeNested(f, Base(f, prior));
      case Varint | Uvarint | Svarint | Fixed32 | Fixed64 =>
        var n;
        ok, n := DecodeNumeric(f.kind, f.dataSize);
        v := Num(n);
    }

    /** pb_dec_submessage. */
    method DecodeNested(f: Field, base: Message) returns (ok: bool, v: Value)
      requires Valid() && |base| == |f.sub| && Searchable(f.sub)
      modifies this
      ensures Valid() && End() == old(End())
      ensures ok <==> PbDecoding.DecodeSubmessage(f, base, old(Rest())).Some?
      ensures ok ==> (v, Rest()) == PbDecoding.DecodeSubmessage(f, base, old(Rest())).value
      decreases f, 0
    {
      hide DecodeMessage, ReadString, RequiredRead, TagsRead, Searchable;
      v := Msg([]);
      var sub;
      ok, sub := MakeSubstream();
      if !ok {
        return;
      }
      var dest := new Struct(base);
      ok := sub.DecodeNoinit(f.sub, dest);
      CloseSubstream(sub);
      v := Msg(dest.slots);
    }

    /** The packed branch of decode_static_field: the elements of a substream, onto those there are. */
    method DecodePackedArray(f: Field, items: seq<Value>) returns (ok: bool, vs: seq<Value>)
      requires Valid() && f.kind.Packable()
      modifies this
      ensures Valid() && End() == old(End())
      ensures ok <==> DecodePacked(f, items, old(Rest())).Some?
      ensures ok ==> vs == DecodePacked(f, items, old(Rest())).value
    {
      vs := items;
      ok := true;
      while bytesLeft > 0 && |vs| < f.arraySize
        invariant Valid() && End() == old(End()) && ok
        invariant DecodePacked(f, vs, Rest()) == DecodePacked(f, items, old(Rest()))
        decreases bytesLeft
      {
        ghost var b := Rest();
        var n;
        ok, n := DecodeNumeric(f.kind, f.dataSize);
        if !ok {
          return;
        }
        vs := vs + [Num(n)];
      }
      if bytesLeft != 0 {
        ok := false;
      }
    }

    /** decode_static_field for field number i. */
    method DecodeStaticField(fields: seq<Field>, i: nat, wire: nat, dest: Struct) returns (ok: bool)
      requires Valid() && i < |fields| && Searchable(fields) && |dest.slots| == |fields|
      modifies this, dest
      ensures Valid() && End() == old(End()) && |dest.slots| == |fields|
      ensures ok <==> DecodeField(fields, old(dest.slots), i, wire, old(Rest())).Some?
      ensures ok ==> (dest.slots, Rest()) == DecodeField(fields, old(dest.slots), i, wire, old(Rest())).value
      decreases fields, 0
    {
      var f := fields[i];
      var v;
      match f.rule
      case Required | Singular =>
        ok, v := DecodeOne(f, Held(dest.slots[i]));
        dest.slots := dest.slots[i := One(v)];
      case Optional =>
        ok, v := DecodeOne(f, Held(dest.slots[i]));
        dest.slots := dest.slots[i := Opt(true, v)];
      case Oneof(_) =>
        ok, v := DecodeOne(f, Held(dest.slots[i]));
        dest.slots := Choose(fields, dest.slots, i, v);
      case Repeated =>
        ok := DecodeRepeated(fields, i, wire, dest);
    }

    method DecodeRepeated(fields: seq<Field>, i: nat, wire: nat, dest: Struct) returns (ok: bool)
      requires Valid() && i < |fields| && Searchable(fields) && |dest.slots| == |fields| && fields[i].rule.Repeated?
      modifies this, dest
      ensures Valid() && End() == old(End()) && |dest.slots| == |fields|
      ensures ok <==> DecodeField(fields, old(dest.slots), i, wire, old(Rest())).Some?
      ensures ok ==> (dest.slots, Rest()) == DecodeField(fields, old(dest.slots), i, wire, old(Rest())).value
      decreases fields[i], 2
    {
      hide DecodeValue, DecodePacked;
      var f := fields[i];
      var items := Items(dest.slots[i]);
      if wire == 2 && f.kind.Packable() {
        var sub, vs;
        ok, sub := MakeSubstream();
        if !ok {
          return;
        }
        ok, vs := sub.DecodePackedArray(f, items);
        CloseSubstream(sub);
        dest.slots := dest.slots[i := Many(vs)];
      } else if |items| >= f.arraySize {
        ok := false;
      } else {
        var v;
        ok, v := DecodeOne(f, Held(dest.slots[i]));
        dest.slots := dest.slots[i := Many(items + [v])];
      }
    }

    /** One turn of the loop, after the tag: what became of the structure and of the bitmap. */
    method DecodeKey(iter: FieldIter, key: nat, dest: Struct, words: array<Word>, ghost met: set<nat>)
      returns (ok: bool, ghost after: set<nat>)
      requires Valid() && iter.Valid() && Searchable(iter.start) && |dest.slots| == |iter.start|
      requires Tracks(iter.start, met, words[..])
      modifies this, dest, iter, words
      ensures Valid() && End() == old(End()) && iter.Valid() && |dest.slots| == |iter.start|
      ensures ok <==> Step(iter.start, Progress(old(dest.slots), met, false), key, old(Rest())).Some?
      ensures var step := Step(iter.start, Progress(old(dest.slots), met, false), key, old(Rest()));
              ok ==> (Progress(dest.slots, after, false), Rest()) == step.value
      ensures ok ==> Tracks(iter.start, after, words[..])
      decreases iter.start, 1
    {
      hide PbWire.SkipField, DecodeField, Tracks, Searchable, Find;
      Unfold(iter.start);
      after := met;
      var found := iter.FindTag(key / 8);
      if !found {
        ok := SkipField(key % 8);
        return;
      }
      if iter.pos == |iter.start| {
        // the terminator of an empty message type: a required field of an impossible size
        return false, met;
      }
      if iter.start[iter.pos].rule.Required? {
        Mark(words, iter.requiredIndex, iter.start, met, iter.pos);
      }
      after := Meet(iter.start, met, iter.pos);
      ok := DecodeStaticField(iter.start, iter.pos, key % 8, dest);
    }

    /** pb_decode_noinit. */
    method DecodeNoinit(fields: seq<Field>, dest: Struct) returns (ok: bool)
      requires Valid() && Searchable(fields) && |dest.slots| == |fields|
      modifies this, dest
      ensures Valid() && End() == old(End()) && |dest.slots| == |fields|
      ensures ok <==> DecodeMessage(fields, old(dest.slots), old(Rest())).Some?
      ensures ok ==> dest.slots == DecodeMessage(fields, old(dest.slots), old(Rest())).value.slots
      ensures ok ==> RequiredRead(fields, TagsRead(fields, old(Rest())))
      decreases fields, 2
    {
      hide Step, ReadVarint32, Tracks, Searchable, AllRequired, RequiredRead, TagsRead;
      Unfold(fields);
      DecodesIff(fields, dest.slots, Rest());
      ghost var whole := DecodeLoop(fields, Progress(dest.slots, {}, false), Rest());
      ghost var met: set<nat> := {};
      var words := new Word[WORDS](_ => {});
      NothingMet(fields);
      assert words[..] == [{}, {}];
      var iter := new FieldIter(fields);
      ghost var stopped := false;
      while bytesLeft > 0
        invariant Valid() && End() == old(End()) && iter.Valid() && iter.start == fields && |dest.slots| == |fields|
        invariant Tracks(fields, met, words[..]) && !stopped
        invariant DecodeLoop(fields, Progress(dest.slots, met, false), Rest()) == whole
        decreases bytesLeft
      {
        var key, eof;
        ok, key, eof := DecodeTag();
        if !ok {
          if eof {
            stopped := true;
            break;
          }
          return;
        }
        ok, met := DecodeKey(iter, key, dest, words, met);
        if !ok {
          return;
        }
      }
      assert whole == Some(Progress(dest.slots, met, stopped));
      var total := CountRequired(iter);
      ok := CheckRequired(words, total, fields, met);
    }
  }

  /** How pb_decode_noinit counts the required fields: by walking on to the end of the description. */
  method CountRequired(iter: FieldIter) returns (count: nat)
    requires iter.Valid()
    modifies iter
    ensures count == RequiredBefore(iter.start, |iter.start|)
  {
    count := iter.requiredIndex;
    var lastRequired := if iter.pos < |iter.start| then iter.start[iter.pos].rule.Required? else true;
    ghost var last: nat := iter.pos;
    var more := iter.Next();
    while more
      invariant iter.Valid() && last <= |iter.start| && (last == |iter.start| ==> last == 0 && !more)
      invariant more ==> iter.pos == last + 1
      invariant !more ==> iter.pos == 0 && (last + 1 == |iter.start| || iter.start == [])
      invariant count == RequiredBefore(iter.start, last)
      invariant last < |iter.start| ==> lastRequired == iter.start[last].rule.Required?
      decreases more, if more then |iter.start| - iter.pos else 0
    {
      count := iter.requiredIndex;
      lastRequired := iter.start[iter.pos].rule.Required?;
      last := iter.pos;
      more := iter.Next();
    }
    if lastRequired && iter.Tag() != 0 {
      count := count + 1;
    }
  }

  lemma {:induction false} Unfold(fields: seq<Field>)
    requires Searchable(fields)
    ensures NoZeroTag(fields) && UniqueTags(fields)
  {
  }

  /** Every field of a description, and of the descriptions inside it, can be found by its tag. */
  ghost predicate SearchableField(f: Field)
    decreases f
  {
    f.kind.Submessage? ==> Searchable(f.sub)
  }

  ghost predicate Searchable(fields: seq<Field>)
    decreases fields
  {
    && NoZeroTag(fields) && UniqueTags(fields)
    && forall i :: 0 <= i < |fields| ==> SearchableField(fields[i])
  }

  /** A number read so far, and what the rest of the varint adds to it. */
  ghost function Weighed(n: nat, weight: nat, more: Option<(nat, Bytes)>): Option<(nat, Bytes)> {
    if more.None? then None else Some((n + more.value.0 * weight, more.value.1))
  }

  lemma {:induction false} NoByteLeft(b: Bytes, limit: nat)
    ensures b == [] || limit == 0 ==> GetVarint(b, limit) == None
  {
  }

  lemma {:induction false} WeighedByte(n: nat, weight: nat, b: Bytes, limit: nat)
    requires b != [] && limit > 0
    ensures Weighed(n, weight, GetVarint(b, limit))
         == if b[0] < 128 then Some((n + b[0] % 128 * weight, b[1..]))
            else Weighed(n + b[0] % 128 * weight, 128 * weight, GetVarint(b[1..], limit - 1))
  {
    if b[0] >= 128 && GetVarint(b[1..], limit - 1).Some? {
      var m := GetVarint(b[1..], limit - 1).value.0;
      assert b[0] % 128 == b[0] - 128;
      Distribute(b[0] % 128, m, weight);
    }
  }

  /** pb_decode. */
  method PbDecode(stream: IStream, fields: seq<Field>, dest: Struct) returns (ok: bool)
    requires stream.Valid() && Searchable(fields) && |dest.slots| == |fields|
    modifies stream, dest
    ensures ok <==> Decode(fields, old(stream.Rest())).Some?
    ensures ok ==> dest.slots == Decode(fields, old(stream.Rest())).value
    ensures ok ==> RequiredRead(fields, TagsRead(fields, old(stream.Rest())))
  {
    Unfold(fields);
    dest.SetToDefaults(fields);
    ok := stream.DecodeNoinit(fields, dest);
  }
}
