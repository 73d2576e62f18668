/** The decoder: length-limited streams over a buffer, and the loops that read them into a struct. */
module ProtoDecoder {
  import opened Coding
  import opened Wrappers
  import opened ProtoScalars
  import opened ProtoMessages
  import opened ProtoFields
  import opened ProtoEncoding
  import opened ProtoDecoding

  /** A stream over a buffer, at `state`, that may read `bytesLeft` more bytes. */
  class IStream {
    const buffer: Bytes
    var state: nat
    var bytesLeft: nat

    constructor (buffer: Bytes, state: nat, bytesLeft: nat)
      ensures this.buffer == buffer && this.state == state && this.bytesLeft == bytesLeft
    {
      this.buffer, this.state, this.bytesLeft := buffer, state, bytesLeft;
    }

    ghost predicate Valid()
      reads this
    {
      state + bytesLeft <= |buffer|
    }

    /** Where the stream's limit lies; reading never moves it. */
    ghost function End(): (r: nat)
      reads this
    {
      state + bytesLeft
    }

    ghost function Rest(): (r: Bytes)
      requires Valid()
      reads this
    {
      buffer[state..state + bytesLeft]
    }

    /** Whether the stream, limited as before, now stands at `rest`. */
    ghost predicate At(end: nat, rest: Bytes)
      reads this
    {
      Valid() && End() == end && Rest() == rest
    }

    /** Whether `r` is what was wanted, and the stream, limited as before, stands behind it. */
    ghost predicate Got<T>(end: nat, want: Read<T>, r: Option<T>)
      reads this
    {
      && Valid() && End() == end
      && (r.None? <==> want.None?)
      && (r.Some? ==> r.value == want.value.0 && Rest() == want.value.1)
    }

    method ReadBytes(count: nat) returns (r: Option<Bytes>)
      requires Valid()
      modifies this
      ensures Got(old(End()), Take(old(Rest()), count), r)
    {
      if bytesLeft < count {
        return None;
      }
      r := Some(buffer[state..state + count]);
      assert r.value == Rest()[..count] && buffer[state + count..state + bytesLeft] == Rest()[count..];
      state, bytesLeft := state + count, bytesLeft - count;
    }

    method ReadByte() returns (r: Option<Byte>)
      requires Valid()
      modifies this
      ensures Valid() && End() == old(End())
      ensures r.None? <==> old(Rest()) == []
      ensures r.Some? ==> r.value == old(Rest())[0] && At(old(End()), old(Rest())[1..])
    {
      if bytesLeft == 0 {
        return None;
      }
      r := Some(buffer[state]);
      state, bytesLeft := state + 1, bytesLeft - 1;
    }
  }

  // ---- Numbers ----

  method DecodeVarint32(s: IStream) returns (r: Option<Word>)
    requires s.Valid()
    modifies s
    ensures s.Got(old(s.End()), Varint32(old(s.Rest())), r)
  {
    var byte := s.ReadByte();
    if byte.None? {
      return None;
    }
    if byte.value < 128 {
      return Some(byte.value);
    }
    r := DecodeVarint32Tail(s, byte.value - 128);
  }

  method DecodeVarint32Tail(s: IStream, first: Word) returns (r: Option<Word>)
    requires s.Valid()
    modifies s
    ensures s.Got(old(s.End()), Varint32Tail(old(s.Rest()), 7, first), r)
  {
    var acc: Word, bitpos: BitPos := first, 7;
    ghost var want := Varint32Tail(s.Rest(), bitpos, acc);
    while true
      invariant s.Valid() && s.End() == old(s.End())
      invariant want == Varint32Tail(s.Rest(), bitpos, acc)
      decreases s.bytesLeft
    {
      var byte := s.ReadByte();
      if byte.None? {
        return None;
      }
      var b := byte.value;
      var sum := AddGroup(b, bitpos, acc);
      if sum.None? {
        return None;
      }
      acc := sum.value;
      NextPosition(bitpos);
      bitpos := (bitpos + 7) % 256;
      if b < 128 {
        return if bitpos == 35 && b >= 16 then None else Some(acc);
      }
    }
  }

  lemma ModAdd(a: nat, b: nat)
    ensures (a % TWO_TO_64 + b) % TWO_TO_64 == (a + b) % TWO_TO_64
  {
    var q := (a + b) / TWO_TO_64 - a / TWO_TO_64;
    Wraps(a % TWO_TO_64 + b, TWO_TO_64, q);
  }

  /** One more group of seven bits. */
  lemma Accumulate(acc: nat, unit: nat, low: nat, high: nat)
    ensures ((acc + low * unit) % TWO_TO_64 + 128 * unit * high) % TWO_TO_64
      == (acc + unit * (low + 128 * high)) % TWO_TO_64
  {
    ModAdd(acc + low * unit, 128 * unit * high);
    assert acc + low * unit + 128 * unit * high == acc + unit * (low + 128 * high);
  }

  /** `want` is what a reader gets that has `k` groups in `acc` and stands at `here`. */
  ghost predicate Remains(want: Read<Quad>, here: Bytes, k: nat, acc: Quad) {
    k <= 10
    && var t := Spelled(here, 10 - k);
       if t.None? then want.None? else want == Some(((acc + Bound(k) * t.value.0) % TWO_TO_64, t.value.1))
  }

  lemma NextGroup(want: Read<Quad>, here: Bytes, k: nat, acc: Quad, sum: Quad)
    requires here != [] && k < 10 && Remains(want, here, k, acc)
    requires sum == (acc + (here[0] as int) % 128 * Bound(k)) % TWO_TO_64
    ensures here[0] >= 128 ==> Remains(want, here[1..], k + 1, sum)
    ensures here[0] < 128 ==> want == Some((sum, here[1..]))
  {
    var t := Spelled(here[1..], 10 - k - 1);
    Accumulate(acc, Bound(k), (here[0] as int) % 128, if here[0] >= 128 && t.Some? then t.value.0 else 0);
  }

  method DecodeVarint(s: IStream) returns (r: Option<Quad>)
    requires s.Valid()
    modifies s
    ensures s.Got(old(s.End()), Varint64(old(s.Rest())), r)
  {
    var acc: Quad, k: nat := 0, 0;
    ghost var want := Varint64(s.Rest());
    assert Bound(0) == 1;
    while k < 10
      invariant k <= 10 && s.Valid() && s.End() == old(s.End()) && Remains(want, s.Rest(), k, acc)
    {
      ghost var here, before := s.Rest(), acc;
      var byte := s.ReadByte();
      if byte.None? {
        return None;
      }
      acc := (acc + (byte.value as int) % 128 * Bound(k)) % TWO_TO_64;
      NextGroup(want, here, k, before, acc);
      k := k + 1;
      if byte.value < 128 {
        return Some(acc);
      }
    }
    return None;
  }

  method SkipVarintBytes(s: IStream) returns (done: bool)
    requires s.Valid()
    modifies s
    ensures s.Valid() && s.End() == old(s.End())
    ensures done == SkipVarint(old(s.Rest())).Some?
    ensures done ==> s.Rest() == SkipVarint(old(s.Rest())).value
  {
    ghost var want := SkipVarint(s.Rest());
    while true
      invariant s.Valid() && s.End() == old(s.End()) && want == SkipVarint(s.Rest())
      decreases s.bytesLeft
    {
      var byte := s.ReadByte();
      if byte.None? {
        return false;
      }
      if byte.value < 128 {
        return true;
      }
    }
  }

  // ---- Substreams ----

  /**
   * A stream limited to the next length-delimited payload. The parent gives up the
   * payload's bytes at once but stays in front of them until the substream is closed.
   */
  method MakeSubstream(s: IStream) returns (sub: Option<IStream>)
    requires s.Valid()
    modifies s
    ensures sub.None? <==> Substream(old(s.Rest())).None?
    ensures sub.None? ==> s.Valid() && s.End() == old(s.End())
    ensures sub.Some? ==>
      var (payload, rest) := Substream(old(s.Rest())).value;
      && fresh(sub.value) && sub.value.buffer == s.buffer && sub.value.Valid()
      && sub.value.Rest() == payload && s.bytesLeft == |rest|
      && sub.value.End() + |rest| == old(s.End())
      && s.buffer[sub.value.End()..old(s.End())] == rest
  {
    var size := DecodeVarint32(s);
    if size.None? {
      return None;
    }
    if s.bytesLeft < size.value {
      return None;
    }
    var substream := new IStream(s.buffer, s.state, size.value);
    s.bytesLeft := s.bytesLeft - size.value;
    return Some(substream);
  }

  /** Skips what is left of the payload; the parent then stands just past it. */
  method CloseSubstream(s: IStream, sub: IStream)
    requires s != sub && sub.Valid() && sub.buffer == s.buffer && sub.End() + s.bytesLeft <= |s.buffer|
    modifies s, sub
    ensures s.Valid() && s.state == old(sub.End()) && s.bytesLeft == old(s.bytesLeft)
  {
    if sub.bytesLeft != 0 {
      var _ := sub.ReadBytes(sub.bytesLeft);
    }
    s.state := sub.state;
  }

  method SkipString(s: IStream) returns (done: bool)
    requires s.Valid()
    modifies s
    ensures s.Valid() && s.End() == old(s.End())
    ensures done == Substream(old(s.Rest())).Some?
    ensures done ==> s.Rest() == Substream(old(s.Rest())).value.1
  {
    var size := DecodeVarint32(s);
    if size.None? {
      return false;
    }
    var skipped := s.ReadBytes(size.value);
    return skipped.Some?;
  }

  method SkipUnknown(s: IStream, wire: nat) returns (done: bool)
    requires s.Valid()
    modifies s
    ensures s.Valid() && s.End() == old(s.End())
    ensures done == SkipField(old(s.Rest()), wire).Some?
    ensures done ==> s.Rest() == SkipField(old(s.Rest()), wire).value
  {
    match wire {
      case 0 =>
        done := SkipVarintBytes(s);
      case 1 =>
        var r := s.ReadBytes(8);
        done := r.Some?;
      case 2 =>
        done := SkipString(s);
      case 5 =>
        var r := s.ReadBytes(4);
        done := r.Some?;
      case _ =>
        done := false;
    }
  }

  // ---- Values ----

  method DecodeScalar(s: IStream, f: Field) returns (r: Option<Value>)
    requires s.Valid() && Packable(f.ltype)
    modifies s
    ensures s.Got(old(s.End()), DecodeNumber(f, old(s.Rest())), r)
  {
    if f.ltype.Bool? {
      var w := DecodeVarint32(s);
      return if w.None? then None else Some(Number(if w.value != 0 then 1 else 0));
    }
    if f.ltype.Fixed32? {
      var b := s.ReadBytes(4);
      return if b.None? then None else Some(Number(DecodeFixed32(b.value)));
    }
    if f.ltype.Fixed64? {
      var b := s.ReadBytes(8);
      return if b.None? then None else Some(Number(DecodeFixed64(b.value)));
    }
    var q := DecodeVarint(s);
    if q.None? {
      return None;
    }
    var n :=
      if f.ltype.Int? then ReadSigned(q.value, f.dataSize)
      else if f.ltype.Uint? then ReadUnsigned(q.value, f.dataSize)
      else ReadZigzag(q.value, f.dataSize);
    return if n.None? then None else Some(Number(n.value));
  }

  method DecodeBuffer(s: IStream, f: Field) returns (r: Option<Value>)
    requires s.Valid() && (f.ltype.SizedBytes? || f.ltype.String? || f.ltype.FixedLengthBytes?)
    modifies s
    ensures s.Got(old(s.End()), DecodeData(f, old(s.Rest())), r)
  {
    var size := DecodeVarint32(s);
    if size.None? {
      return None;
    }
    match f.ltype {
      case FixedLengthBytes =>
        if size.value == 0 {
          return Some(Data(seq(f.dataSize, _ => 0)));
        }
        if size.value != f.dataSize {
          return None;
        }
      case SizedBytes =>
        if size.value + BYTES_HEADER > f.dataSize {
          return None;
        }
      case String =>
        if size.value + 1 > f.dataSize {
          return None;
        }
    }
    var b := s.ReadBytes(size.value);
    if b.None? {
      return None;
    }
    return Some(Data(if f.ltype.String? then CString(b.value) else b.value));
  }

  method DecodeSubmessage(s: IStream, sub: seq<Field>, start: seq<Slot>) returns (r: Option<seq<Slot>>)
    requires s.Valid() && Described(sub)
    modifies s
    ensures s.Valid() && s.End() == old(s.End())
    ensures var payload := Substream(old(s.Rest()));
      && (r.Some? <==> payload.Some? && Decoded(sub, payload.value.0, start, {}).Some?)
      && (r.Some? ==> r.value == Decoded(sub, payload.value.0, start, {}).value.0 && s.Rest() == payload.value.1)
    decreases s.bytesLeft, 2
  {
    var substream := MakeSubstream(s);
    if substream.None? {
      return None;
    }
    r := DecodeMessage(substream.value, sub, start);
    CloseSubstream(s, substream.value);
  }

  method DecodeInto(s: IStream, f: Field, before: Value) returns (r: Option<Value>)
    requires s.Valid() && FieldDescribed(f)
    modifies s
    ensures s.Got(old(s.End()), DecodeValue(f, old(s.Rest()), before), r)
    decreases s.bytesLeft, 3
  {
    match f.ltype {
      case Submessage(sub) =>
        var start := if f.htype.Repeated? then Defaults(sub, |sub|) else AsSlots(before);
        var m := DecodeSubmessage(s, sub, start);
        return if m.None? then None else Some(Message(m.value));
      case SizedBytes =>
        r := DecodeBuffer(s, f);
      case String =>
        r := DecodeBuffer(s, f);
      case FixedLengthBytes =>
        r := DecodeBuffer(s, f);
      case _ =>
        r := DecodeScalar(s, f);
    }
  }

  // ---- Fields ----

  method UnpackLoop(s: IStream, f: Field, before: seq<Value>) returns (r: Option<seq<Value>>)
    requires s.Valid() && Packable(f.ltype)
    modifies s
    ensures s.Valid() && s.End() == old(s.End())
    ensures r == Unpack(f, old(s.Rest()), before)
  {
    var items := before;
    ghost var want := Unpack(f, s.Rest(), items);
    while s.bytesLeft > 0 && |items| < f.arraySize
      invariant s.Valid() && s.End() == old(s.End()) && want == Unpack(f, s.Rest(), items)
      decreases s.bytesLeft
    {
      var item := DecodeScalar(s, f);
      if item.None? {
        return None;
      }
      items := items + [item.value];
    }
    return if s.bytesLeft != 0 then None else Some(items);
  }

  method DecodePacked(s: IStream, f: Field, before: seq<Value>) returns (r: Option<Slot>)
    requires s.Valid() && Packable(f.ltype) && f.htype.Repeated?
    modifies s
    ensures s.Got(old(s.End()), DecodeSlot(f, STRING_TYPE, old(s.Rest()), Array(before), []), r)
  {
    var substream := MakeSubstream(s);
    if substream.None? {
      return None;
    }
    var items := UnpackLoop(substream.value, f, before);
    CloseSubstream(s, substream.value);
    return if items.None? then None else Some(Array(items.value));
  }

  /** Before a union changes its member: the old tag must be one the message knows. */
  method ReleaseUnion(iter: FieldIter, which: nat) returns (known: bool)
    requires iter.Valid() && iter.fields != [] && Described(iter.fields)
    modifies iter
    ensures iter.Valid() && iter.pos == old(iter.pos)
    ensures known <==> which == 0 || which == iter.fields[iter.pos].tag || IndexOf(iter.fields, which, 0).Some?
  {
    var tag := iter.fields[iter.pos].tag;
    if which == 0 || which == tag {
      return true;
    }
    assert HasTag(iter.fields, iter.pos, tag);
    known := iter.Find(which);
    if known {
      known := iter.Find(tag);
    }
  }

  method DecodeField(s: IStream, iter: FieldIter, wire: nat, slot: Slot) returns (r: Option<Slot>)
    requires s.Valid() && iter.Valid() && iter.fields != [] && Described(iter.fields)
    modifies s, iter
    ensures iter.Valid() && iter.pos == old(iter.pos)
    ensures s.Got(old(s.End()), DecodeSlot(iter.fields[iter.pos], wire, old(s.Rest()), slot, iter.fields), r)
    decreases s.bytesLeft, 4
  {
    var f := iter.fields[iter.pos];
    match (f.htype, slot) {
      case (Required, Plain(v)) =>
        var n := DecodeInto(s, f, v);
        return if n.None? then None else Some(Plain(n.value));
      case (Singular, Plain(v)) =>
        var n := DecodeInto(s, f, v);
        return if n.None? then None else Some(Plain(n.value));
      case (Optional, Maybe(_, v)) =>
        var n := DecodeInto(s, f, v);
        return if n.None? then None else Some(Maybe(true, n.value));
      case (Repeated, Array(items)) =>
        if wire == STRING_TYPE && Packable(f.ltype) {
          r := DecodePacked(s, f, items);
          return;
        }
        if |items| >= f.arraySize {
          return None;
        }
        var n := DecodeInto(s, f, Number(0));
        return if n.None? then None else Some(Array(items + [n.value]));
      case (Oneof(_), Union(which, v)) =>
        var known := ReleaseUnion(iter, which);
        if !known {
          return None;
        }
        var n := DecodeInto(s, f, if which == f.tag then v else DefaultValue(f));
        return if n.None? then None else Some(Union(f.tag, n.value));
      case _ =>
        return None;
    }
  }

  // ---- Messages ----

  /** The bits record exactly the required fields among `tags`. */
  ghost predicate Records(fields: seq<Field>, seen: seq<Bits>, tags: set<int>) {
    && |seen| == 2
    && (forall r: nat :: RequiredBefore(fields, |fields|) <= r ==> !Bit(seen, r))
    && (forall i {:trigger fields[i].tag} ::
      0 <= i < |fields| && fields[i].htype.Required? && RequiredBefore(fields, i) < MAX_REQUIRED ==>
      (Bit(seen, RequiredBefore(fields, i)) <==> fields[i].tag in tags))
  }

  /** The loop stops at the end of the input or at a zero key. */
  lemma Stops(fields: seq<Field>, decode: Loop, input: Bytes, slots: seq<Slot>, tags: set<int>)
    requires Follows(fields, decode)
    ensures input == [] ==> decode(input, slots, tags) == Finished(fields, [], slots, tags)
    ensures var key := Varint32(input);
      && (input != [] && key.None? ==> decode(input, slots, tags).None?)
      && (key.Some? && key.value.0 == 0 ==> decode(input, slots, tags) == Finished(fields, key.value.1, slots, tags))
  {
    assert decode(input, slots, tags) == Decoded(fields, input, slots, tags);
  }

  /** The loop passes over a key that names no field. */
  lemma Passes(fields: seq<Field>, decode: Loop, input: Bytes, slots: seq<Slot>, tags: set<int>, key: Word, rest: Bytes)
    requires Follows(fields, decode)
    requires Varint32(input) == Some((key, rest)) && key != 0 && IndexOf(fields, key / 8, 0).None?
    ensures var after := if fields == [] && key / 8 == 0 then SkipTerminator(rest) else SkipField(rest, key % 8);
      decode(input, slots, tags) == if after.None? then None else decode(after.value, slots, tags)
  {
    assert decode(input, slots, tags) == Decoded(fields, input, slots, tags);
    var after := if fields == [] && key / 8 == 0 then SkipTerminator(rest) else SkipField(rest, key % 8);
    if after.Some? {
      assert decode(after.value, slots, tags) == Decoded(fields, after.value, slots, tags);
    }
  }

  /** The loop stores a field that it knows. */
  lemma Stores(
    fields: seq<Field>, decode: Loop, input: Bytes, slots: seq<Slot>, tags: set<int>, key: Word, rest: Bytes, i: nat)
    requires Follows(fields, decode) && Described(fields)
    requires Varint32(input) == Some((key, rest)) && key != 0 && HasTag(fields, i, key / 8)
    ensures var at := SlotOf(fields, i);
      && (at >= |slots| ==> decode(input, slots, tags).None?)
      && (at < |slots| ==>
            var r := DecodeSlot(fields[i], key % 8, rest, slots[at], fields);
            decode(input, slots, tags) ==
              if r.None? then None else decode(r.value.1, slots[at := r.value.0], tags + {key / 8}))
  {
    assert decode(input, slots, tags) == Decoded(fields, input, slots, tags);
    assert IndexOf(fields, key / 8, 0) == Some(i);
    var at := SlotOf(fields, i);
    if at < |slots| {
      var r := DecodeSlot(fields[i], key % 8, rest, slots[at], fields);
      if r.Some? {
        var next, more := slots[at := r.value.0], tags + {key / 8};
        assert decode(r.value.1, next, more) == Decoded(fields, r.value.1, next, more);
      }
    }
  }

  method DecodeMessage(s: IStream, fields: seq<Field>, before: seq<Slot>) returns (r: Option<seq<Slot>>)
    requires s.Valid() && Described(fields)
    modifies s
    ensures s.Got(old(s.End()), Decoded(fields, old(s.Rest()), before, {}), r)
    decreases s.bytesLeft, 1
  {
    var iter := new FieldIter(fields);
    r := DecodeFields(s, iter, before, (input, slots, tags) => Decoded(fields, input, slots, tags));
  }

  method StoreField(
    s: IStream, iter: FieldIter, key: Word, slots: seq<Slot>, ghost here: Bytes, ghost tags: set<int>,
      ghost decode: Loop)
    returns (r: Option<seq<Slot>>)
    requires s.Valid() && iter.Valid() && Described(iter.fields) && Follows(iter.fields, decode)
    requires HasTag(iter.fields, iter.pos, key / 8) && key != 0 && Varint32(here) == Some((key, s.Rest()))
    modifies s, iter
    ensures s.Valid() && s.End() == old(s.End()) && iter.Valid()
    ensures decode(here, slots, tags) == if r.None? then None else decode(s.Rest(), r.value, tags + {key / 8})
    ensures r.Some? ==> s.bytesLeft <= old(s.bytesLeft)
    decreases s.bytesLeft, 5
  {
    Stores(iter.fields, decode, here, slots, tags, key, s.Rest(), iter.pos);
    if iter.slot >= |slots| {
      return None;
    }
    var slot := DecodeField(s, iter, key % 8, slots[iter.slot]);
    return if slot.None? then None else Some(slots[iter.slot := slot.value]);
  }

  /** What follows a key: a field to store, or something to pass over. */
  method TakeField(
    s: IStream, iter: FieldIter, key: Word, slots: seq<Slot>, seen: seq<Bits>, ghost here: Bytes, ghost tags: set<int>,
    ghost decode: Loop)
    returns (r: Option<(seq<Slot>, seq<Bits>)>, ghost met: set<int>)
    requires s.Valid() && iter.Valid() && Described(iter.fields) && Follows(iter.fields, decode)
    requires Records(iter.fields, seen, tags) && key != 0 && Varint32(here) == Some((key, s.Rest()))
    modifies s, iter
    ensures s.Valid() && s.End() == old(s.End()) && iter.Valid() && (r.Some? ==> s.bytesLeft <= old(s.bytesLeft))
    ensures decode(here, slots, tags) == if r.None? then None else decode(s.Rest(), r.value.0, met)
    ensures r.Some? ==> Records(iter.fields, r.value.1, met)
    decreases s.bytesLeft, 6
  {
    var found := iter.Find(key / 8);
    met := tags;
    if !found || iter.fields == [] {
      var done := PassStray(s, iter.fields, key, slots, here, tags, decode);
      return if done then Some((slots, seen)) else None, tags;
    }
    var marked := MarkSeen(iter.fields, iter.pos, iter.requiredIndex, seen, tags);
    var next := StoreField(s, iter, key, slots, here, tags, decode);
    met := tags + {key / 8};
    return if next.None? then None else Some((next.value, marked)), met;
  }

  method DecodeFields(s: IStream, iter: FieldIter, before: seq<Slot>, ghost decode: Loop) returns (r: Option<seq<Slot>>)
    requires s.Valid() && iter.Valid() && Described(iter.fields) && Follows(iter.fields, decode)
    modifies s, iter
    ensures s.Got(old(s.End()), decode(old(s.Rest()), before, {}), r)
    decreases s.bytesLeft, 0
  {
    var slots := before;
    var seen: seq<Bits> := [Ones(0), Ones(0)];
    ghost var tags: set<int> := {};
    ghost var want := decode(s.Rest(), slots, tags);
    while s.bytesLeft > 0
      invariant s.Valid() && s.End() == old(s.End()) && iter.Valid()
      invariant Records(iter.fields, seen, tags) && want == decode(s.Rest(), slots, tags)
      decreases s.bytesLeft
    {
      ghost var here := s.Rest();
      Stops(iter.fields, decode, here, slots, tags);
      var key := DecodeVarint32(s);
      if key.None? {
        return None;
      }
      if key.value == 0 {
        break;
      }
      var turn;
      turn, tags := TakeField(s, iter, key.value, slots, seen, here, tags, decode);
      if turn.None? {
        return None;
      }
      slots, seen := turn.value.0, turn.value.1;
    }
    if s.bytesLeft == 0 {
      Stops(iter.fields, decode, s.Rest(), slots, tags);
    }
    var complete := CheckRequired(iter, seen, tags);
    return if complete then Some(slots) else None;
  }

  /** A key of tag zero stops at the terminator of an empty descriptor and reads a boolean there. */
  method PassStray(
    s: IStream, fields: seq<Field>, key: Word, ghost slots: seq<Slot>, ghost here: Bytes, ghost tags: set<int>,
    ghost decode: Loop)
    returns (done: bool)
    requires s.Valid() && Follows(fields, decode)
    requires key != 0 && Varint32(here) == Some((key, s.Rest())) && IndexOf(fields, key / 8, 0).None?
    modifies s
    ensures s.Valid() && s.End() == old(s.End())
    ensures decode(here, slots, tags) == if done then decode(s.Rest(), slots, tags) else None
    ensures done ==> s.bytesLeft <= old(s.bytesLeft)
  {
    Passes(fields, decode, here, slots, tags, key, s.Rest());
    if fields == [] && key / 8 == 0 {
      var value := DecodeVarint32(s);
      done := value.Some?;
    } else {
      done := SkipUnknown(s, key % 8);
    }
  }

  method CheckRequired(iter: FieldIter, seen: seq<Bits>, ghost tags: set<int>) returns (complete: bool)
    requires iter.Valid() && Records(iter.fields, seen, tags)
    modifies iter
    ensures complete == RequiredSeen(iter.fields, tags)
  {
    var required := iter.CountRequired();
    complete := CheckSeen(seen, required);
    BitsTell(iter.fields, seen, tags);
  }

  method MarkSeen(
    fields: seq<Field>, pos: nat, index: nat, seen: seq<Bits>, ghost tags: set<int>)
    returns (marked: seq<Bits>)
    requires pos < |fields| && index == RequiredBefore(fields, pos)
    requires Described(fields) && Records(fields, seen, tags)
    ensures Records(fields, marked, tags + {fields[pos].tag})
  {
    marked := seen;
    if fields[pos].htype.Required? && index < MAX_REQUIRED {
      marked := Mark(seen, index);
      RequiredGrows(fields, pos, |fields|);
    }
    forall i | 0 <= i < |fields| && fields[i].htype.Required? && RequiredBefore(fields, i) < MAX_REQUIRED
      ensures Bit(marked, RequiredBefore(fields, i)) <==> fields[i].tag in tags + {fields[pos].tag}
    {
      if i < pos {
        RequiredGrows(fields, i, pos);
      } else if pos < i {
        RequiredGrows(fields, pos, i);
      }
    }
  }

  lemma BitsTell(fields: seq<Field>, seen: seq<Bits>, tags: set<int>)
    requires Records(fields, seen, tags)
    ensures RequiredSeen(fields, tags) <==>
      forall r: nat :: r < RequiredBefore(fields, |fields|) && r < MAX_REQUIRED ==> Bit(seen, r)
  {
    forall i | 0 <= i < |fields| && fields[i].htype.Required?
      ensures RequiredBefore(fields, i) < RequiredBefore(fields, |fields|)
    {
      RequiredGrows(fields, i, |fields|);
    }
    if RequiredSeen(fields, tags) {
      forall r: nat | r < RequiredBefore(fields, |fields|) && r < MAX_REQUIRED
        ensures Bit(seen, r)
      {
        var i := RequiredAt(fields, |fields|, r);
      }
    }
  }
}
