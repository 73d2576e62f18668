/** Decoding what the encoder wrote gives the same message back. */
module ProtoRoundTrip {
  import opened Coding
  import opened Wrappers
  import opened ProtoScalars
  import opened ProtoMessages
  import opened ProtoFields
  import opened ProtoEncoding
  import opened ProtoDecoding
  import opened ProtoProgress

  // ---- Values other than submessages ----

  lemma SubstreamOf(payload: Bytes, rest: Bytes)
    requires |payload| < TWO_TO_32
    ensures Substream(LengthPrefixed(payload) + rest) == Some((payload, rest))
  {
    assert LengthPrefixed(payload) + rest == Varint(|payload|) + (payload + rest);
    Varint32Reads(|payload|, payload + rest);
    assert (payload + rest)[..|payload|] == payload && (payload + rest)[|payload|..] == rest;
  }

  lemma {:induction false} CStringKeeps(s: Bytes)
    requires 0 !in s
    ensures CString(s) == s
  {
    if s != [] {
      CStringKeeps(s[1..]);
    }
  }

  /** What a varint field makes of the bytes that spell `q`. */
  lemma VarintField(f: Field, q: Quad, rest: Bytes)
    requires f.ltype.Int? || f.ltype.Uint? || f.ltype.Sint?
    ensures var n :=
        if f.ltype.Int? then ReadSigned(q, f.dataSize)
        else if f.ltype.Uint? then ReadUnsigned(q, f.dataSize)
        else ReadZigzag(q, f.dataSize);
      DecodeNumber(f, Varint(q) + rest) == if n.None? then None else Some((Number(n.value), rest))
  {
    var s := Varint(q) + rest;
    Varint64RoundTrip(q, rest);
    assert Varint64(s) == Some((q, rest));
  }

  lemma NumberRoundTrip(f: Field, v: Value, rest: Bytes)
    requires Packable(f.ltype) && Simple(f, v)
    ensures Wire(f, v).Some? && DecodeNumber(f, Wire(f, v).value + rest) == Some((v, rest))
  {
    if f.ltype.Int? || f.ltype.Uint? || f.ltype.Sint? {
      VarintRoundTrip(f, v.n, rest);
    } else {
      WordRoundTrip(f, v.n, rest);
    }
  }

  lemma VarintRoundTrip(f: Field, n: int, rest: Bytes)
    requires (f.ltype.Int? || f.ltype.Uint? || f.ltype.Sint?) && Simple(f, Number(n))
    ensures Wire(f, Number(n)).Some? && DecodeNumber(f, Wire(f, Number(n)).value + rest) == Some((Number(n), rest))
  {
    if f.ltype.Int? {
      VarintField(f, ToQuad(n), rest);
      SignedRoundTrip(n, f.dataSize);
    } else if f.ltype.Uint? {
      VarintField(f, ToQuad(n), rest);
      UnsignedRoundTrip(n, f.dataSize);
    } else {
      VarintField(f, Zigzag(n), rest);
      ZigzagRoundTrip(n, f.dataSize);
    }
  }

  lemma WordRoundTrip(f: Field, n: int, rest: Bytes)
    requires (f.ltype.Bool? || f.ltype.Fixed32? || f.ltype.Fixed64?) && Simple(f, Number(n))
    ensures Wire(f, Number(n)).Some? && DecodeNumber(f, Wire(f, Number(n)).value + rest) == Some((Number(n), rest))
  {
    if f.ltype.Bool? {
      Varint32Reads(n, rest);
    } else {
      var word := WordOf(f, n);
      WordField(f, word, n, rest);
    }
  }

  /** The bytes of a fixed-width field, and what they decode to. */
  lemma WordOf(f: Field, n: int) returns (word: Bytes)
    requires (f.ltype.Fixed32? || f.ltype.Fixed64?) && Simple(f, Number(n))
    ensures Wire(f, Number(n)) == Some(word)
    ensures f.ltype.Fixed32? ==> |word| == 4 && DecodeFixed32(word) == n
    ensures f.ltype.Fixed64? ==> |word| == 8 && DecodeFixed64(word) == n
  {
    if f.ltype.Fixed32? {
      Wraps(n, TWO_TO_32, 0);
      word := FourBytes(n);
    } else {
      Wraps(n, TWO_TO_64, 0);
      word := EightBytes(n);
    }
  }

  lemma FourBytes(w: Word) returns (word: Bytes)
    ensures word == EncodeFixed32(w) && |word| == 4 && DecodeFixed32(word) == w
  {
    word := EncodeFixed32(w);
    Fixed32RoundTrip(w);
  }

  lemma EightBytes(q: Quad) returns (word: Bytes)
    ensures word == EncodeFixed64(q) && |word| == 8 && DecodeFixed64(word) == q
  {
    word := EncodeFixed64(q);
    Fixed64RoundTrip(q);
  }

  lemma WordField(f: Field, word: Bytes, n: int, rest: Bytes)
    requires (f.ltype.Fixed32? && |word| == 4 && DecodeFixed32(word) == n)
          || (f.ltype.Fixed64? && |word| == 8 && DecodeFixed64(word) == n)
    ensures DecodeNumber(f, word + rest) == Some((Number(n), rest))
  {
    FixedRead(word, rest);
  }

  lemma FixedRead(word: Bytes, rest: Bytes)
    ensures Take(word + rest, |word|) == Some((word, rest))
  {
    assert (word + rest)[..|word|] == word && (word + rest)[|word|..] == rest;
  }

  lemma DataRoundTrip(f: Field, v: Value, rest: Bytes)
    requires f.ltype.SizedBytes? || f.ltype.String? || f.ltype.FixedLengthBytes?
    requires Simple(f, v) && f.dataSize < TWO_TO_32
    ensures Wire(f, v).Some? && DecodeData(f, Wire(f, v).value + rest) == Some((v, rest))
  {
    var d := v.bytes;
    assert LengthPrefixed(d) + rest == Varint(|d|) + (d + rest);
    Varint32Reads(|d|, d + rest);
    FixedRead(d, rest);
    if f.ltype.String? {
      CStringKeeps(d);
    }
    assert |d| == 0 && f.ltype.FixedLengthBytes? ==> seq(f.dataSize, _ => 0) == d;
  }

  /**
   * A string that fills its buffer to the last byte has no terminator. The encoder sends it,
   * and the decoder of the same field takes a string back exactly when there is room for one.
   */
  lemma StringRoundTripsIff(f: Field, d: Bytes, rest: Bytes)
    requires f.ltype.String? && 0 !in d && |d| <= f.dataSize < TWO_TO_32
    ensures Wire(f, Data(d)).Some?
    ensures DecodeData(f, Wire(f, Data(d)).value + rest) == Some((Data(d), rest)) <==> |d| < f.dataSize
  {
    assert LengthPrefixed(d) + rest == Varint(|d|) + (d + rest);
    Varint32Reads(|d|, d + rest);
    FixedRead(d, rest);
    CStringKeeps(d);
  }

  lemma {:induction false} UnpackReads(f: Field, items: seq<Value>, k: nat, done: seq<Value>)
    requires Packable(f.ltype) && k <= |items| && |done| + |items| - k <= f.arraySize
    requires forall j :: 0 <= j < |items| ==> Simple(f, items[j])
    ensures Items(f, items, k, false).Some?
    ensures Unpack(f, Items(f, items, k, false).value, done) == Some(done + items[k..])
    decreases |items| - k
  {
    if k < |items| {
      UnpackReads(f, items, k + 1, done + [items[k]]);
      var rest := Items(f, items, k + 1, false).value;
      NumberRoundTrip(f, items[k], rest);
      assert Items(f, items, k, false) == Some(Wire(f, items[k]).value + rest);
      assert done + items[k..] == done + [items[k]] + items[k + 1..];
    } else {
      assert done + items[k..] == done;
    }
  }

  // ---- Fields left off the wire ----

  lemma {:induction false} DefaultIsSame(f: Field, v: Value)
    requires FieldDescribed(f) && f.htype.Singular? && Sound(f, v) && IsDefault(f, v)
    ensures Same(f, v, DefaultValue(f))
    decreases f, 1
  {
    if f.ltype.Submessage? {
      DefaultsAreSame(f.ltype.fields, v.slots);
    }
  }

  lemma {:induction false} DefaultSlotIsSame(f: Field, slot: Slot)
    requires FieldDescribed(f) && SoundSlot(f, slot) && SlotIsDefault(f, slot)
    ensures SameSlot(f, slot, DefaultSlot(f))
    decreases f, 2
  {
    if f.htype.Singular? {
      DefaultIsSame(f, slot.value);
    }
  }

  lemma {:induction false} AllDefaultAt(fields: seq<Field>, slots: seq<Slot>, n: nat, i: nat)
    requires i < n <= |fields| && AllDefault(fields, slots, n)
    ensures SlotOf(fields, i) < |slots| && SlotIsDefault(fields[i], slots[SlotOf(fields, i)])
  {
    if i < n - 1 {
      AllDefaultAt(fields, slots, n - 1, i);
    }
  }

  lemma {:induction false} DefaultsAreSame(fields: seq<Field>, slots: seq<Slot>)
    requires Described(fields) && SoundSlots(fields, slots) && AllDefault(fields, slots, |fields|)
    ensures SameSlots(fields, slots, Defaults(fields, |fields|))
    decreases fields, 0
  {
    forall i | 0 <= i < |fields|
      ensures SameAt(fields, slots, Defaults(fields, |fields|), i)
    {
      assert SoundAt(fields, slots, i);
      AllDefaultAt(fields, slots, |fields|, i);
      DefaultsAt(fields, |fields|, i);
      assert FieldDescribed(fields[i]);
      DefaultSlotIsSame(fields[i], slots[SlotOf(fields, i)]);
    }
  }

  // ---- The decoding loop, one field at a time ----

  lemma TagFound(fields: seq<Field>, i: nat)
    requires Described(fields) && i < |fields|
    ensures IndexOf(fields, fields[i].tag, 0) == Some(i)
  {
    assert HasTag(fields, i, fields[i].tag);
  }

  /** A key followed by something its field decodes takes the loop one step. */
  lemma KeyStep(
    fields: seq<Field>, decode: Loop, i: nat, wire: nat, body: Bytes, rest: Bytes, d: seq<Slot>, x: Slot,
      tags: set<int>)
    requires Described(fields) && Follows(fields, decode) && i < |fields| && wire < 8 && SlotOf(fields, i) < |d|
    requires DecodeSlot(fields[i], wire, body, d[SlotOf(fields, i)], fields) == Some((x, rest))
    ensures decode(Key(fields[i].tag, wire) + body, d, tags)
         == decode(rest, d[SlotOf(fields, i) := x], tags + {fields[i].tag})
  {
    var tag := fields[i].tag;
    assert FieldDescribed(fields[i]);
    Varint32Reads(8 * tag + wire, body);
    TagFound(fields, i);
    assert (8 * tag + wire) / 8 == tag && (8 * tag + wire) % 8 == wire;
    var input, next, more := Key(tag, wire) + body, d[SlotOf(fields, i) := x], tags + {tag};
    assert decode(input, d, tags) == Decoded(fields, input, d, tags);
    assert decode(rest, next, more) == Decoded(fields, rest, next, more);
  }

  // ---- Values and slots ----

  lemma {:induction false} ValueRoundTrip(f: Field, v: Value, rest: Bytes, before: Value) returns (x: Value)
    requires FieldDescribed(f) && Sound(f, v) && Wire(f, v).Some? && |Wire(f, v).value| < TWO_TO_32
    requires f.ltype.Submessage? && !f.htype.Repeated? ==> before == DefaultValue(f)
    ensures DecodeValue(f, Wire(f, v).value + rest, before) == Some((x, rest)) && Same(f, v, x)
    decreases f, 1
  {
    if f.ltype.Submessage? {
      var payload := Encoded(f.ltype.fields, v.slots, 0).value;
      SubstreamOf(payload, rest);
      var d := MessageRoundTrip(f.ltype.fields, v.slots);
      x := Message(d);
    } else {
      x := v;
      if Packable(f.ltype) {
        NumberRoundTrip(f, v, rest);
      } else {
        DataRoundTrip(f, v, rest);
      }
    }
  }

  /** Whether a slot holds one value, to be sent with the field's own key. */
  ghost predicate Single(f: Field, a: Slot) {
    match f.htype
    case Required => a.Plain?
    case Singular => a.Plain? && !IsDefault(f, a.value)
    case Optional => a.Maybe? && a.has
    case Repeated => false
    case Oneof(_) => a.Union? && a.which == f.tag
  }

  lemma {:induction false} SingleRoundTrip(
    fields: seq<Field>, f: Field, a: Slot, b: Slot, rest: Bytes)
    returns (x: Slot)
    requires FieldDescribed(f) && Single(f, a) && SoundSlot(f, a) && Untouched(fields, f, b)
    requires Wire(f, a.value).Some? && |Wire(f, a.value).value| < TWO_TO_32
    ensures DecodeSlot(f, WireType(f.ltype), Wire(f, a.value).value + rest, b, fields) == Some((x, rest))
    ensures Stored(f, a, b, x)
    decreases f, 2
  {
    var v := ValueRoundTrip(f, a.value, rest, DefaultValue(f));
    match f.htype {
      case Optional =>
        x := Maybe(true, v);
      case Oneof(_) =>
        x := Union(f.tag, v);
      case _ =>
        x := Plain(v);
    }
  }

  /** One key and item, appended to the items already there. */
  lemma {:induction false} ItemStep(
    fields: seq<Field>, decode: Loop, i: nat, v: Value, d: seq<Slot>, done: seq<Value>, tags: set<int>, rest: Bytes)
    returns (x: Value)
    requires Described(fields) && Follows(fields, decode) && i < |fields| && SlotOf(fields, i) < |d|
    requires fields[i].htype.Repeated? && !Packable(fields[i].ltype)
    requires d[SlotOf(fields, i)] == Array(done) && |done| < fields[i].arraySize && Sound(fields[i], v)
    requires Tagged(fields[i], v).Some? && |Tagged(fields[i], v).value| < TWO_TO_32
    ensures Same(fields[i], v, x)
    ensures decode(Tagged(fields[i], v).value + rest, d, tags)
         == decode(rest, d[SlotOf(fields, i) := Array(done + [x])], tags + {fields[i].tag})
    decreases fields[i], 2
  {
    var f := fields[i];
    assert FieldDescribed(f);
    var key, body := Key(f.tag, WireType(f.ltype)), Wire(f, v).value;
    x := ValueRoundTrip(f, v, rest, Number(0));
    KeyStep(fields, decode, i, WireType(f.ltype), body + rest, rest, d, Array(done + [x]), tags);
    assert key + body + rest == key + (body + rest);
  }

  /** The unpacked items from the `k`th on, appended one key at a time to those already there. */
  lemma {:induction false} KeyedItemsStep(
    fields: seq<Field>, decode: Loop, i: nat, items: seq<Value>, k: nat, d: seq<Slot>, done: seq<Value>,
    tags: set<int>, rest: Bytes)
    returns (all: seq<Value>, more: set<int>)
    requires Described(fields) && Follows(fields, decode) && i < |fields| && SlotOf(fields, i) < |d|
    requires fields[i].htype.Repeated? && !Packable(fields[i].ltype)
    requires k <= |items| <= fields[i].arraySize && d[SlotOf(fields, i)] == Array(done) && |done| == k
    requires forall j :: 0 <= j < |items| ==> Sound(fields[i], items[j])
    requires forall j :: 0 <= j < k ==> Same(fields[i], items[j], done[j])
    requires Items(fields[i], items, k, true).Some? && |Items(fields[i], items, k, true).value| < TWO_TO_32
    ensures |all| == |items| && forall j :: 0 <= j < |items| ==> Same(fields[i], items[j], all[j])
    ensures tags <= more
    ensures decode(Items(fields[i], items, k, true).value + rest, d, tags)
         == decode(rest, d[SlotOf(fields, i) := Array(all)], more)
    decreases fields[i], 3, |items| - k
  {
    var f, at := fields[i], SlotOf(fields, i);
    if k == |items| {
      all, more := done, tags;
      assert [] + rest == rest && d[at := Array(all)] == d;
    } else {
      var one, others := Tagged(f, items[k]), Items(f, items, k + 1, true);
      assert Items(f, items, k, true) == Join(one, others);
      var x := ItemStep(fields, decode, i, items[k], d, done, tags, others.value + rest);
      assert one.value + others.value + rest == one.value + (others.value + rest);
      var e := d[at := Array(done + [x])];
      all, more := KeyedItemsStep(fields, decode, i, items, k + 1, e, done + [x], tags + {f.tag}, rest);
      assert e[at := Array(all)] == d[at := Array(all)];
    }
  }

  /** Decoding the bytes of field `i` takes the loop past them and gives the field `m`'s contents. */
  lemma {:induction false} FieldStep(
    fields: seq<Field>, decode: Loop, m: seq<Slot>, i: nat, d: seq<Slot>, tags: set<int>, rest: Bytes)
    returns (x: Slot, more: set<int>)
    requires Described(fields) && Follows(fields, decode) && i < |fields| && SlotOf(fields, i) < |m| == |d|
    requires SoundSlot(fields[i], m[SlotOf(fields, i)]) && Untouched(fields, fields[i], d[SlotOf(fields, i)])
    requires var e := SlotWire(fields[i], m[SlotOf(fields, i)]); e.Some? && |e.value| < TWO_TO_32
    ensures Stored(fields[i], m[SlotOf(fields, i)], d[SlotOf(fields, i)], x) && tags <= more
    ensures fields[i].htype.Required? ==> fields[i].tag in more
    ensures decode(SlotWire(fields[i], m[SlotOf(fields, i)]).value + rest, d, tags)
         == decode(rest, d[SlotOf(fields, i) := x], more)
    decreases fields[i], 5
  {
    var f, at := fields[i], SlotOf(fields, i);
    var a, b := m[at], d[at];
    assert FieldDescribed(f);
    if Single(f, a) {
      x := SingleRoundTrip(fields, f, a, b, rest);
      more := tags + {f.tag};
      var body := Wire(f, a.value).value;
      KeyStep(fields, decode, i, WireType(f.ltype), body + rest, rest, d, x, tags);
      assert SlotWire(f, a).value + rest == Key(f.tag, WireType(f.ltype)) + (body + rest);
    } else if f.htype.Repeated? && a.items != [] {
      x, more := RepeatedStep(fields, decode, i, a.items, d, tags, rest);
    } else {
      x, more := b, tags;
      assert [] + rest == rest && d[at := x] == d;
      if f.htype.Singular? {
        DefaultIsSame(f, a.value);
      }
    }
  }

  lemma {:induction false} RepeatedStep(
    fields: seq<Field>, decode: Loop, i: nat, items: seq<Value>, d: seq<Slot>, tags: set<int>, rest: Bytes)
    returns (x: Slot, more: set<int>)
    requires Described(fields) && Follows(fields, decode) && i < |fields| && SlotOf(fields, i) < |d|
    requires fields[i].htype.Repeated? && items != [] && SoundSlot(fields[i], Array(items))
    requires d[SlotOf(fields, i)] == Array([])
    requires var e := SlotWire(fields[i], Array(items)); e.Some? && |e.value| < TWO_TO_32
    ensures SameSlot(fields[i], Array(items), x) && tags <= more
    ensures decode(SlotWire(fields[i], Array(items)).value + rest, d, tags)
         == decode(rest, d[SlotOf(fields, i) := x], more)
    decreases fields[i], 4
  {
    var f := fields[i];
    if Packable(f.ltype) {
      UnpackReads(f, items, 0, []);
      x, more := Array(items), tags + {f.tag};
      var payload := Items(f, items, 0, false).value;
      SubstreamOf(payload, rest);
      assert [] + items[0..] == items;
      KeyStep(fields, decode, i, STRING_TYPE, LengthPrefixed(payload) + rest, rest, d, x, tags);
      assert SlotWire(f, Array(items)).value + rest == Key(f.tag, STRING_TYPE) + (LengthPrefixed(payload) + rest);
    } else {
      var all;
      all, more := KeyedItemsStep(fields, decode, i, items, 0, d, [], tags, rest);
      x := Array(all);
    }
  }

  // ---- Messages ----

  /** What storing field `i` means for field `j`. */
  lemma ProgressAt(fields: seq<Field>, m: seq<Slot>, d: seq<Slot>, i: nat, x: Slot, j: nat)
    requires Described(fields) && i < |fields| && j < |fields| && Progress(fields, m, d, i)
    requires SlotOf(fields, i) < |m| && Stored(fields[i], m[SlotOf(fields, i)], d[SlotOf(fields, i)], x)
    ensures j <= i ==> SameAt(fields, m, d[SlotOf(fields, i) := x], j)
    ensures j > i ==> Waiting(fields, d[SlotOf(fields, i) := x], j)
  {
    SlotInside(fields, j);
    assert j < i ==> SameAt(fields, m, d, j);
    assert j >= i ==> Waiting(fields, d, j);
    if j != i && SlotOf(fields, j) == SlotOf(fields, i) {
      SharedSlotsAreUnions(fields, i, j);
      TagFound(fields, i);
      assert fields[i].tag != fields[j].tag;
    }
  }

  lemma NextProgress(fields: seq<Field>, m: seq<Slot>, d: seq<Slot>, i: nat, x: Slot)
    requires Described(fields) && i < |fields| && Progress(fields, m, d, i)
    requires SlotOf(fields, i) < |m| && Stored(fields[i], m[SlotOf(fields, i)], d[SlotOf(fields, i)], x)
    ensures Progress(fields, m, d[SlotOf(fields, i) := x], i + 1)
  {
    var e := d[SlotOf(fields, i) := x];
    forall j | 0 <= j <= i
      ensures SameAt(fields, m, e, j)
    {
      ProgressAt(fields, m, d, i, x, j);
    }
    forall j | i < j < |fields|
      ensures Waiting(fields, e, j)
    {
      ProgressAt(fields, m, d, i, x, j);
    }
  }

  lemma NextRequired(fields: seq<Field>, i: nat, tags: set<int>, more: set<int>)
    requires i < |fields| && RequiredMet(fields, i, tags) && tags <= more
    requires fields[i].htype.Required? ==> fields[i].tag in more
    ensures RequiredMet(fields, i + 1, more)
  {
  }

  /** With nothing left to decode, every required field was met and every field is there. */
  lemma AllRestored(fields: seq<Field>, decode: Loop, m: seq<Slot>, i: nat, d: seq<Slot>, tags: set<int>, bytes: Bytes)
    requires Poised(fields, decode, m, i, d, tags, bytes) && i == |fields|
    ensures decode(bytes, d, tags) == Some((d, [])) && SameSlots(fields, m, d)
  {
    assert decode([], d, tags) == Decoded(fields, [], d, tags);
  }

  /** The next field to decode: its contents fit, and its bytes come first. */
  lemma NextField(fields: seq<Field>, m: seq<Slot>, i: nat) returns (part: Bytes, rest: Bytes)
    requires i < |fields| && SoundSlots(fields, m) && Encoded(fields, m, i).Some?
    ensures SlotOf(fields, i) < |m| && SoundSlot(fields[i], m[SlotOf(fields, i)])
    ensures SlotWire(fields[i], m[SlotOf(fields, i)]) == Some(part)
    ensures Encoded(fields, m, i + 1) == Some(rest) && Encoded(fields, m, i) == Some(part + rest)
  {
    assert SoundAt(fields, m, i);
    part, rest := SlotWire(fields[i], m[SlotOf(fields, i)]).value, Encoded(fields, m, i + 1).value;
  }

  /** Decoding field `i` brings the struct one field further. */
  lemma {:induction false} Advance(
    fields: seq<Field>, decode: Loop, m: seq<Slot>, i: nat, d: seq<Slot>, tags: set<int>, bytes: Bytes)
    returns (rest: Bytes, e: seq<Slot>, more: set<int>)
    requires Poised(fields, decode, m, i, d, tags, bytes) && i < |fields|
    ensures Poised(fields, decode, m, i + 1, e, more, rest)
    ensures decode(bytes, d, tags) == decode(rest, e, more)
    decreases fields, 0
  {
    var part, x;
    part, rest := NextField(fields, m, i);
    assert Waiting(fields, d, i);
    x, more := FieldStep(fields, decode, m, i, d, tags, rest);
    e := d[SlotOf(fields, i) := x];
    NextProgress(fields, m, d, i, x);
    NextRequired(fields, i, tags, more);
  }

  /** From field `i` on: what is still to be decoded completes the struct. */
  lemma {:induction false} FieldsRoundTrip(
    fields: seq<Field>, decode: Loop, m: seq<Slot>, i: nat, d: seq<Slot>, tags: set<int>, bytes: Bytes)
    returns (r: seq<Slot>)
    requires Poised(fields, decode, m, i, d, tags, bytes)
    ensures decode(bytes, d, tags) == Some((r, [])) && SameSlots(fields, m, r)
    decreases fields, 1, |fields| - i
  {
    if i == |fields| {
      r := d;
      AllRestored(fields, decode, m, i, d, tags, bytes);
    } else {
      var rest, e, more := Advance(fields, decode, m, i, d, tags, bytes);
      r := FieldsRoundTrip(fields, decode, m, i + 1, e, more, rest);
    }
  }

  /** Decoding an encoded message into a fresh struct uses every byte and gives the same message. */
  lemma {:induction false} MessageRoundTrip(fields: seq<Field>, m: seq<Slot>) returns (d: seq<Slot>)
    requires Described(fields) && SoundSlots(fields, m)
    requires Encoded(fields, m, 0).Some? && |Encoded(fields, m, 0).value| < TWO_TO_32
    ensures Parse(fields, Encoded(fields, m, 0).value) == Some((d, [])) && SameSlots(fields, m, d)
    decreases fields, 2
  {
    var start := Defaults(fields, |fields|);
    forall j: nat | j < |fields|
      ensures Waiting(fields, start, j)
    {
      DefaultsAt(fields, |fields|, j);
      assert FieldDescribed(fields[j]);
    }
    var decode := (input, slots, tags) => Decoded(fields, input, slots, tags);
    d := FieldsRoundTrip(fields, decode, m, 0, start, {}, Encoded(fields, m, 0).value);
  }
}
