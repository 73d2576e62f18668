/** What a decoder makes of bytes that its own encoder would not write: fields from newer
  * descriptors, fields sent twice, and array items sent one by one. */
module ProtoEvolution {
  import opened Coding
  import opened Wrappers
  import opened ProtoScalars
  import opened ProtoMessages
  import opened ProtoFields
  import opened ProtoEncoding
  import opened ProtoDecoding
  import opened ProtoProgress
  import opened ProtoRoundTrip

  // ---- Fields that the descriptor lacks ----

  lemma {:induction false} VarintSkips(v: nat, rest: Bytes)
    ensures SkipVarint(Varint(v) + rest) == Some(rest)
  {
    var s := Varint(v) + rest;
    if v < 128 {
      assert s[0] == v && s[1..] == rest;
    } else {
      assert s[0] >= 128 && s[1..] == Varint(v / 128) + rest;
      VarintSkips(v / 128, rest);
    }
  }

  lemma PrefixedSkips(payload: Bytes, rest: Bytes)
    requires |payload| < TWO_TO_32
    ensures SkipField(LengthPrefixed(payload) + rest, 2) == Some(rest)
  {
    SubstreamOf(payload, rest);
  }

  lemma FixedSkips(word: Bytes, rest: Bytes)
    ensures Take(word + rest, |word|) == Some((word, rest))
  {
    assert (word + rest)[..|word|] == word && (word + rest)[|word|..] == rest;
  }

  /** A value of any type takes exactly the bytes that skipping its wire type passes over. */
  lemma ValueSkips(f: Field, v: Value, rest: Bytes)
    requires Wire(f, v).Some? && |Wire(f, v).value| < TWO_TO_32
    ensures WireType(f.ltype) < 8
    ensures SkipField(Wire(f, v).value + rest, WireType(f.ltype)) == Some(rest)
  {
    var bytes := Wire(f, v).value;
    match f.ltype
    case Bool => VarintSkips(if AsNumber(v) != 0 then 1 else 0, rest);
    case Int => VarintSkips(ToQuad(AsNumber(v)), rest);
    case Uint => VarintSkips(ToQuad(AsNumber(v)), rest);
    case Sint => VarintSkips(Zigzag(AsNumber(v)), rest);
    case Fixed32 => FixedSkips(bytes, rest);
    case Fixed64 => FixedSkips(bytes, rest);
    case Submessage(sub) => PrefixedSkips(Encoded(sub, AsSlots(v), 0).value, rest);
    case _ => PrefixedSkips(AsData(v), rest);
  }

  /** The loop passes over `part` as if it were not there. */
  ghost predicate Skips(decode: Loop, part: Bytes) {
    forall rest, d, tags {:trigger decode(part + rest, d, tags)} ::
      decode(part + rest, d, tags) == decode(rest, d, tags)
  }

  lemma NothingSkips(decode: Loop)
    ensures Skips(decode, [])
  {
    forall rest, d, tags
      ensures decode([] + rest, d, tags) == decode(rest, d, tags)
    {
      assert [] + rest == rest;
    }
  }

  lemma BothSkip(decode: Loop, a: Bytes, b: Bytes)
    requires Skips(decode, a) && Skips(decode, b)
    ensures Skips(decode, a + b)
  {
    forall rest, d, tags
      ensures decode(a + b + rest, d, tags) == decode(rest, d, tags)
    {
      assert a + b + rest == a + (b + rest);
    }
  }

  /** A key with an unknown tag, and what follows it. */
  lemma UnknownKey(fields: seq<Field>, decode: Loop, tag: nat, wire: nat, body: Bytes)
    requires Follows(fields, decode)
    requires fields != [] && 0 < tag < 0x2000_0000 && wire < 8 && IndexOf(fields, tag, 0).None?
    requires forall rest {:trigger body + rest} :: SkipField(body + rest, wire) == Some(rest)
    ensures Skips(decode, Key(tag, wire) + body)
  {
    var key := Key(tag, wire);
    forall rest, d, tags
      ensures decode(key + body + rest, d, tags) == decode(rest, d, tags)
    {
      assert key + body + rest == key + (body + rest);
      KeyPasses(fields, tag, wire, body + rest, rest, d, tags);
    }
  }

  lemma KeyPasses(fields: seq<Field>, tag: nat, wire: nat, body: Bytes, rest: Bytes, slots: seq<Slot>, tags: set<int>)
    requires fields != [] && 0 < tag < 0x2000_0000 && wire < 8 && IndexOf(fields, tag, 0).None?
    requires SkipField(body, wire) == Some(rest)
    ensures Decoded(fields, Key(tag, wire) + body, slots, tags) == Decoded(fields, rest, slots, tags)
  {
    Varint32Reads(8 * tag + wire, body);
    assert (8 * tag + wire) / 8 == tag && (8 * tag + wire) % 8 == wire;
  }

  /** A field that the descriptor lacks. */
  ghost predicate Unknown(fields: seq<Field>, f: Field) {
    fields != [] && FieldDescribed(f) && IndexOf(fields, f.tag, 0).None?
  }

  lemma UnknownIsSkipped(fields: seq<Field>, decode: Loop, f: Field, v: Value)
    requires Follows(fields, decode) && Unknown(fields, f) && Tagged(f, v).Some? && |Tagged(f, v).value| < TWO_TO_32
    ensures Skips(decode, Tagged(f, v).value)
  {
    var body := Wire(f, v).value;
    forall rest
      ensures SkipField(body + rest, WireType(f.ltype)) == Some(rest)
    {
      ValueSkips(f, v, rest);
    }
    UnknownKey(fields, decode, f.tag, WireType(f.ltype), body);
  }

  lemma UnknownArrayIsSkipped(fields: seq<Field>, decode: Loop, f: Field, payload: Bytes)
    requires Follows(fields, decode) && Unknown(fields, f) && |payload| < TWO_TO_32
    ensures Skips(decode, Key(f.tag, STRING_TYPE) + LengthPrefixed(payload))
  {
    forall rest
      ensures SkipField(LengthPrefixed(payload) + rest, STRING_TYPE) == Some(rest)
    {
      PrefixedSkips(payload, rest);
    }
    UnknownKey(fields, decode, f.tag, STRING_TYPE, LengthPrefixed(payload));
  }

  lemma {:induction false} UnknownItemsAreSkipped(fields: seq<Field>, decode: Loop, f: Field, items: seq<Value>, k: nat)
    requires Follows(fields, decode) && Unknown(fields, f) && k <= |items|
    requires Items(f, items, k, true).Some? && |Items(f, items, k, true).value| < TWO_TO_32
    ensures Skips(decode, Items(f, items, k, true).value)
    decreases |items| - k
  {
    if k == |items| {
      NothingSkips(decode);
    } else {
      assert Items(f, items, k, true) == Join(Tagged(f, items[k]), Items(f, items, k + 1, true));
      UnknownIsSkipped(fields, decode, f, items[k]);
      UnknownItemsAreSkipped(fields, decode, f, items, k + 1);
      BothSkip(decode, Tagged(f, items[k]).value, Items(f, items, k + 1, true).value);
    }
  }

  /** A whole struct member of a field that the descriptor lacks. */
  lemma UnknownSlotIsSkipped(fields: seq<Field>, decode: Loop, f: Field, slot: Slot)
    requires Follows(fields, decode) && Unknown(fields, f)
    requires SlotWire(f, slot).Some? && |SlotWire(f, slot).value| < TWO_TO_32
    ensures Skips(decode, SlotWire(f, slot).value)
  {
    if SlotWire(f, slot).value == [] {
      NothingSkips(decode);
    } else if f.htype.Repeated? {
      if Packable(f.ltype) {
        UnknownArrayIsSkipped(fields, decode, f, Items(f, slot.items, 0, false).value);
      } else {
        UnknownItemsAreSkipped(fields, decode, f, slot.items, 0);
      }
    } else {
      UnknownIsSkipped(fields, decode, f, slot.value);
    }
  }

  ghost predicate AllUnknown(fields: seq<Field>, others: seq<Field>) {
    forall i :: 0 <= i < |others| ==> Unknown(fields, others[i])
  }

  /** A message of another descriptor, none of whose tags this one has, is passed over whole. */
  lemma {:induction false} UnknownFieldsAreSkipped(
    fields: seq<Field>, decode: Loop, others: seq<Field>, m: seq<Slot>, i: nat)
    requires Follows(fields, decode) && AllUnknown(fields, others) && i <= |others|
    requires Encoded(others, m, i).Some? && |Encoded(others, m, i).value| < TWO_TO_32
    ensures Skips(decode, Encoded(others, m, i).value)
    decreases |others| - i
  {
    if i == |others| {
      NothingSkips(decode);
    } else {
      var slot := m[SlotOf(others, i)];
      assert Encoded(others, m, i) == Join(SlotWire(others[i], slot), Encoded(others, m, i + 1));
      UnknownSlotIsSkipped(fields, decode, others[i], slot);
      UnknownFieldsAreSkipped(fields, decode, others, m, i + 1);
      BothSkip(decode, SlotWire(others[i], slot).value, Encoded(others, m, i + 1).value);
    }
  }

  /** The bytes of `m` from field `i` on, with `gaps[i]` before field `i` and one more gap at the end. */
  function Mixed(fields: seq<Field>, m: seq<Slot>, gaps: seq<Bytes>, i: nat): (r: Bytes)
    requires i <= |fields| && |gaps| == |fields| + 1 && Encoded(fields, m, i).Some?
    decreases |fields| - i
  {
    gaps[i] +
    if i == |fields| then [] else SlotWire(fields[i], m[SlotOf(fields, i)]).value + Mixed(fields, m, gaps, i + 1)
  }

  ghost predicate Sendable(fields: seq<Field>, m: seq<Slot>) {
    && Described(fields) && SoundSlots(fields, m)
    && Encoded(fields, m, 0).Some? && |Encoded(fields, m, 0).value| < TWO_TO_32
  }

  lemma {:induction false} MixedDecodes(
    fields: seq<Field>, decode: Loop, m: seq<Slot>, gaps: seq<Bytes>, i: nat, d: seq<Slot>, tags: set<int>)
    returns (r: seq<Slot>)
    requires Described(fields) && SoundSlots(fields, m) && Follows(fields, decode)
    requires i <= |fields| && |gaps| == |fields| + 1
    requires Encoded(fields, m, i).Some? && |Encoded(fields, m, i).value| < TWO_TO_32
    requires forall k :: 0 <= k < |gaps| ==> Skips(decode, gaps[k])
    requires Progress(fields, m, d, i) && RequiredMet(fields, i, tags)
    ensures decode(Mixed(fields, m, gaps, i), d, tags) == Some((r, [])) && SameSlots(fields, m, r)
    decreases |fields| - i
  {
    assert Skips(decode, gaps[i]);
    if i == |fields| {
      r := d;
      assert decode([], d, tags) == Decoded(fields, [], d, tags);
    } else {
      var at, rest := SlotOf(fields, i), Mixed(fields, m, gaps, i + 1);
      assert Waiting(fields, d, i) && SoundAt(fields, m, i);
      var x, more := FieldStep(fields, decode, m, i, d, tags, rest);
      NextProgress(fields, m, d, i, x);
      NextRequired(fields, i, tags, more);
      r := MixedDecodes(fields, decode, m, gaps, i + 1, d[at := x], more);
    }
  }

  lemma FreshProgress(fields: seq<Field>, m: seq<Slot>)
    requires Described(fields) && SoundSlots(fields, m)
    ensures Progress(fields, m, Defaults(fields, |fields|), 0)
  {
    forall j: nat | j < |fields|
      ensures Waiting(fields, Defaults(fields, |fields|), j)
    {
      DefaultsAt(fields, |fields|, j);
      assert FieldDescribed(fields[j]);
    }
  }

  /** Messages of other descriptors that share no tag with `fields`. */
  ghost predicate Foreign(fields: seq<Field>, descriptor: seq<Field>, slots: seq<Slot>) {
    && AllUnknown(fields, descriptor)
    && Encoded(descriptor, slots, 0).Some? && |Encoded(descriptor, slots, 0).value| < TWO_TO_32
  }

  /**
   * A reader with an older descriptor gets its own part of the message back, whatever fields a
   * newer writer sends before, between and after it.
   */
  lemma NewerFieldsAreHarmless(fields: seq<Field>, m: seq<Slot>, newer: seq<(seq<Field>, seq<Slot>)>, gaps: seq<Bytes>)
    returns (d: seq<Slot>)
    requires Sendable(fields, m) && |gaps| == |newer| == |fields| + 1
    requires forall k :: 0 <= k < |newer| ==> Foreign(fields, newer[k].0, newer[k].1)
    requires forall k :: 0 <= k < |newer| ==> Some(gaps[k]) == Encoded(newer[k].0, newer[k].1, 0)
    ensures Parse(fields, Mixed(fields, m, gaps, 0)) == Some((d, [])) && SameSlots(fields, m, d)
  {
    var decode := (input, slots, tags) => Decoded(fields, input, slots, tags);
    forall k | 0 <= k < |gaps|
      ensures Skips(decode, gaps[k])
    {
      UnknownFieldsAreSkipped(fields, decode, newer[k].0, newer[k].1, 0);
    }
    FreshProgress(fields, m);
    d := MixedDecodes(fields, decode, m, gaps, 0, Defaults(fields, |fields|), {});
  }

  // ---- Fields that come more than once ----

  /** What a slot holds after one more value of its field. */
  function Holding(f: Field, slot: Slot, v: Value): (r: Slot) {
    match slot
    case Plain(_) => Plain(v)
    case Maybe(_, _) => Maybe(true, v)
    case Array(items) => Array(items + [v])
    case Union(_, _) => Union(f.tag, v)
  }

  /** A slot of the field's shape, with room for one more value. */
  ghost predicate Takes(fields: seq<Field>, f: Field, slot: Slot) {
    match f.htype
    case Required => slot.Plain?
    case Singular => slot.Plain?
    case Optional => slot.Maybe?
    case Repeated => slot.Array? && |slot.items| < f.arraySize
    case Oneof(_) => slot.Union? && (slot.which == 0 || IndexOf(fields, slot.which, 0).Some?)
  }

  /**
   * A value that arrives under its own key replaces what a single field or a union held, flag and
   * `which_` tag included, and is appended to an array, even where its encoder would have packed it.
   */
  lemma {:induction false} ValueArrives(
    fields: seq<Field>, decode: Loop, i: nat, v: Value, rest: Bytes, d: seq<Slot>, tags: set<int>)
    requires Described(fields) && Follows(fields, decode) && i < |fields| && SlotOf(fields, i) < |d|
    requires !fields[i].ltype.Submessage? && Simple(fields[i], v) && Takes(fields, fields[i], d[SlotOf(fields, i)])
    ensures Tagged(fields[i], v).Some?
    ensures decode(Tagged(fields[i], v).value + rest, d, tags)
         == decode(rest, d[SlotOf(fields, i) := Holding(fields[i], d[SlotOf(fields, i)], v)], tags + {fields[i].tag})
  {
    var f, slot := fields[i], d[SlotOf(fields, i)];
    assert FieldDescribed(f);
    ValueDecodes(f, v, rest);
    SlotTakes(fields, f, v, rest, slot);
    var key, body := Key(f.tag, WireType(f.ltype)), Wire(f, v).value;
    KeyStep(fields, decode, i, WireType(f.ltype), body + rest, rest, d, Holding(f, slot, v), tags);
    assert key + body + rest == key + (body + rest);
  }

  lemma ValueDecodes(f: Field, v: Value, rest: Bytes)
    requires FieldDescribed(f) && !f.ltype.Submessage? && Simple(f, v)
    ensures Wire(f, v).Some?
    ensures forall before :: DecodeValue(f, Wire(f, v).value + rest, before) == Some((v, rest))
  {
    if Packable(f.ltype) {
      NumberRoundTrip(f, v, rest);
    } else {
      DataRoundTrip(f, v, rest);
    }
  }

  lemma SlotTakes(fields: seq<Field>, f: Field, v: Value, rest: Bytes, slot: Slot)
    requires Takes(fields, f, slot) && Wire(f, v).Some?
    requires forall before :: DecodeValue(f, Wire(f, v).value + rest, before) == Some((v, rest))
    ensures DecodeSlot(f, WireType(f.ltype), Wire(f, v).value + rest, slot, fields)
         == Some((Holding(f, slot, v), rest))
  {
  }

  /** Of two values for a single field, or for two members of one union, the last one stays. */
  lemma LastValueStays(
    fields: seq<Field>, decode: Loop, i: nat, v: Value, j: nat, w: Value, rest: Bytes, d: seq<Slot>, tags: set<int>)
    requires Described(fields) && Follows(fields, decode) && i < |fields| && j < |fields|
    requires SlotOf(fields, i) == SlotOf(fields, j) < |d| && !fields[i].htype.Repeated?
    requires !fields[i].ltype.Submessage? && Simple(fields[i], v) && Takes(fields, fields[i], d[SlotOf(fields, i)])
    requires !fields[j].ltype.Submessage? && Simple(fields[j], w)
    ensures Tagged(fields[i], v).Some? && Tagged(fields[j], w).Some?
    ensures decode(Tagged(fields[i], v).value + (Tagged(fields[j], w).value + rest), d, tags)
         == decode(rest, d[SlotOf(fields, j) := Holding(fields[j], d[SlotOf(fields, j)], w)],
                   tags + {fields[i].tag} + {fields[j].tag})
  {
    var at := SlotOf(fields, i);
    if i != j {
      SharedSlotsAreUnions(fields, i, j);
    }
    TagFound(fields, i);
    ValueArrives(fields, decode, j, w, rest, d, tags);
    var e := d[at := Holding(fields[i], d[at], v)];
    ValueArrives(fields, decode, i, v, Tagged(fields[j], w).value + rest, d, tags);
    ValueArrives(fields, decode, j, w, rest, e, tags + {fields[i].tag});
    assert e[at := Holding(fields[j], e[at], w)] == d[at := Holding(fields[j], d[at], w)];
  }

  /** The loop fails on a key whose field does not decode. */
  lemma KeyFails(fields: seq<Field>, i: nat, wire: nat, body: Bytes, d: seq<Slot>, tags: set<int>)
    requires Described(fields) && i < |fields| && wire < 8 && SlotOf(fields, i) < |d|
    requires DecodeSlot(fields[i], wire, body, d[SlotOf(fields, i)], fields).None?
    ensures Decoded(fields, Key(fields[i].tag, wire) + body, d, tags).None?
  {
    var tag := fields[i].tag;
    assert FieldDescribed(fields[i]);
    Varint32Reads(8 * tag + wire, body);
    TagFound(fields, i);
    assert (8 * tag + wire) / 8 == tag && (8 * tag + wire) % 8 == wire;
  }

  /** A full array refuses one more item. */
  lemma FullArrayRefuses(fields: seq<Field>, i: nat, v: Value, rest: Bytes, d: seq<Slot>, tags: set<int>)
    requires Described(fields) && i < |fields| && SlotOf(fields, i) < |d|
    requires fields[i].htype.Repeated? && Tagged(fields[i], v).Some?
    requires d[SlotOf(fields, i)].Array? && |d[SlotOf(fields, i)].items| >= fields[i].arraySize
    ensures Decoded(fields, Tagged(fields[i], v).value + rest, d, tags).None?
  {
    var f := fields[i];
    var wire, value := WireType(f.ltype), Wire(f, v).value;
    KeyFails(fields, i, wire, value + rest, d, tags);
    assert Key(f.tag, wire) + value + rest == Key(f.tag, wire) + (value + rest);
  }
}
