/** What every successful encoding or decoding guarantees, whatever the bytes. */
module ProtoGuarantees {
  import opened Coding
  import opened Wrappers
  import opened ProtoScalars
  import opened ProtoMessages
  import opened ProtoFields
  import opened ProtoEncoding
  import opened ProtoDecoding
  import opened ProtoRoundTrip

  // ---- Every sound message can be encoded ----

  lemma {:induction false} ValueEncodes(f: Field, v: Value)
    requires FieldDescribed(f) && Sound(f, v)
    ensures Wire(f, v).Some?
    decreases f, 1
  {
    if f.ltype.Submessage? {
      MessageEncodes(f.ltype.fields, v.slots, 0);
    }
  }

  lemma {:induction false} ItemsEncode(f: Field, items: seq<Value>, k: nat, keyed: bool)
    requires FieldDescribed(f) && k <= |items| && forall j :: 0 <= j < |items| ==> Sound(f, items[j])
    ensures Items(f, items, k, keyed).Some?
    decreases f, 2, |items| - k
  {
    if k < |items| {
      ValueEncodes(f, items[k]);
      ItemsEncode(f, items, k + 1, keyed);
      assert Item(f, items[k], keyed).Some?;
    }
  }

  lemma {:induction false} SlotEncodes(f: Field, slot: Slot)
    requires FieldDescribed(f) && SoundSlot(f, slot)
    ensures SlotWire(f, slot).Some?
    decreases f, 3
  {
    if f.htype.Repeated? {
      ItemsEncode(f, slot.items, 0, !Packable(f.ltype));
    } else if !f.htype.Oneof? || slot.which == f.tag {
      ValueEncodes(f, slot.value);
    }
  }

  lemma {:induction false} MessageEncodes(fields: seq<Field>, slots: seq<Slot>, i: nat)
    requires Described(fields) && SoundSlots(fields, slots) && i <= |fields|
    ensures Encoded(fields, slots, i).Some?
    decreases fields, 0, |fields| - i
  {
    if i < |fields| {
      assert SoundAt(fields, slots, i) && FieldDescribed(fields[i]);
      SlotEncodes(fields[i], slots[SlotOf(fields, i)]);
      MessageEncodes(fields, slots, i + 1);
    }
  }

  /** For every descriptor and every struct that fits it: decoding the encoding gives the same message. */
  lemma EncodedMessageDecodes(fields: seq<Field>, m: seq<Slot>)
    requires Described(fields) && SoundSlots(fields, m)
    ensures Encoded(fields, m, 0).Some?
    ensures var bytes := Encoded(fields, m, 0).value;
      |bytes| < TWO_TO_32 ==>
        var r := Parse(fields, bytes);
        r.Some? && r.value.1 == [] && SameSlots(fields, m, r.value.0)
  {
    MessageEncodes(fields, m, 0);
    if |Encoded(fields, m, 0).value| < TWO_TO_32 {
      var d := MessageRoundTrip(fields, m);
    }
  }

  // ---- What stays off the wire ----

  /** A `which_` tag is zero or that of a member of its own union. */
  ghost predicate KnownUnions(fields: seq<Field>, slots: seq<Slot>) {
    forall i {:trigger fields[i].htype} ::
      0 <= i < |fields| && fields[i].htype.Oneof? && SlotOf(fields, i) < |slots| && slots[SlotOf(fields, i)].Union? ==>
        slots[SlotOf(fields, i)].which == 0 || Member(fields, SlotOf(fields, i), slots[SlotOf(fields, i)].which)
  }

  ghost predicate Member(fields: seq<Field>, at: nat, tag: nat) {
    exists j {:trigger fields[j].tag} :: 0 <= j < |fields| && SlotOf(fields, j) == at && fields[j].tag == tag
  }

  lemma TaggedIsSomething(f: Field, v: Value)
    ensures Tagged(f, v).Some? ==> Tagged(f, v).value != []
  {
  }

  ghost predicate Silent(f: Field, slot: Slot) {
    if f.htype.Oneof? then slot.Union? && slot.which != f.tag else SlotIsDefault(f, slot)
  }

  lemma SlotWritesNothingIff(f: Field, slot: Slot)
    requires SoundSlot(f, slot) && SlotWire(f, slot).Some?
    ensures SlotWire(f, slot).value == [] <==> Silent(f, slot)
  {
    if slot.Array? {
      if slot.items != [] && !Packable(f.ltype) {
        TaggedIsSomething(f, slot.items[0]);
        assert Items(f, slot.items, 0, true) == Join(Item(f, slot.items[0], true), Items(f, slot.items, 1, true));
      }
    } else {
      TaggedIsSomething(f, slot.value);
    }
  }

  lemma {:induction false} EncodedIsEmptyIff(fields: seq<Field>, slots: seq<Slot>, i: nat)
    requires i <= |fields| && Encoded(fields, slots, i).Some?
    ensures Encoded(fields, slots, i).value == [] <==>
      forall j :: i <= j < |fields| ==> WritesNothing(fields, slots, j)
    decreases |fields| - i
  {
    if i < |fields| {
      EncodedIsEmptyIff(fields, slots, i + 1);
      assert WritesNothing(fields, slots, i) <==> SlotWire(fields[i], slots[SlotOf(fields, i)]).value == [];
    }
  }

  ghost predicate WritesNothing(fields: seq<Field>, slots: seq<Slot>, j: nat)
    requires j < |fields|
  {
    SlotOf(fields, j) < |slots| && SlotWire(fields[j], slots[SlotOf(fields, j)]) == Some([])
  }

  ghost predicate DefaultAt(fields: seq<Field>, slots: seq<Slot>, j: nat)
    requires j < |fields|
  {
    SlotOf(fields, j) < |slots| && SlotIsDefault(fields[j], slots[SlotOf(fields, j)])
  }

  lemma {:induction false} AllDefaultIff(fields: seq<Field>, slots: seq<Slot>, n: nat)
    requires n <= |fields|
    ensures AllDefault(fields, slots, n) <==> forall j :: 0 <= j < n ==> DefaultAt(fields, slots, j)
  {
    if n > 0 {
      AllDefaultIff(fields, slots, n - 1);
      assert AllDefault(fields, slots, n) <==> AllDefault(fields, slots, n - 1) && DefaultAt(fields, slots, n - 1);
    }
  }

  lemma WritesNothingIff(fields: seq<Field>, m: seq<Slot>, j: nat)
    requires Described(fields) && SoundSlots(fields, m) && j < |fields|
    ensures SlotOf(fields, j) < |m| && (WritesNothing(fields, m, j) <==> Silent(fields[j], m[SlotOf(fields, j)]))
  {
    assert SoundAt(fields, m, j) && FieldDescribed(fields[j]);
    SlotEncodes(fields[j], m[SlotOf(fields, j)]);
    SlotWritesNothingIff(fields[j], m[SlotOf(fields, j)]);
  }

  /** A message has no bytes exactly when the check that keeps submessages off the wire calls it default. */
  lemma EmptyIffDefault(fields: seq<Field>, m: seq<Slot>)
    requires Described(fields) && SoundSlots(fields, m) && KnownUnions(fields, m)
    ensures Encoded(fields, m, 0) == Some([]) <==> AllDefault(fields, m, |fields|)
  {
    MessageEncodes(fields, m, 0);
    EncodedIsEmptyIff(fields, m, 0);
    AllDefaultIff(fields, m, |fields|);
    if forall j :: 0 <= j < |fields| ==> WritesNothing(fields, m, j) {
      forall j: nat | j < |fields|
        ensures DefaultAt(fields, m, j)
      {
        SilentIsDefault(fields, m, j);
      }
    }
    if forall j :: 0 <= j < |fields| ==> DefaultAt(fields, m, j) {
      forall j: nat | j < |fields|
        ensures WritesNothing(fields, m, j)
      {
        DefaultIsSilent(fields, m, j);
      }
    }
  }

  lemma SilentIsDefault(fields: seq<Field>, m: seq<Slot>, j: nat)
    requires Described(fields) && SoundSlots(fields, m) && KnownUnions(fields, m) && j < |fields|
    requires forall k :: 0 <= k < |fields| ==> WritesNothing(fields, m, k)
    ensures DefaultAt(fields, m, j)
  {
    WritesNothingIff(fields, m, j);
    if fields[j].htype.Oneof? {
      assert SoundAt(fields, m, j);
      var which := m[SlotOf(fields, j)].which;
      if which != 0 {
        var k :| 0 <= k < |fields| && SlotOf(fields, k) == SlotOf(fields, j) && fields[k].tag == which;
        WritesNothingIff(fields, m, k);
      }
    }
  }

  lemma DefaultIsSilent(fields: seq<Field>, m: seq<Slot>, j: nat)
    requires Described(fields) && SoundSlots(fields, m) && j < |fields| && DefaultAt(fields, m, j)
    ensures WritesNothing(fields, m, j)
  {
    WritesNothingIff(fields, m, j);
    assert FieldDescribed(fields[j]);
  }

  // ---- Decoding stays within the struct's memory ----

  lemma {:induction false} DefaultValueSound(f: Field)
    requires FieldDescribed(f)
    ensures Sound(f, DefaultValue(f))
    decreases f, 1
  {
    if f.ltype.Submessage? {
      DefaultsSound(f.ltype.fields);
    }
  }

  lemma {:induction false} DefaultsSound(fields: seq<Field>)
    requires Described(fields)
    ensures SoundSlots(fields, Defaults(fields, |fields|))
    decreases fields, 0
  {
    forall i | 0 <= i < |fields|
      ensures SoundAt(fields, Defaults(fields, |fields|), i)
    {
      DefaultsAt(fields, |fields|, i);
      assert FieldDescribed(fields[i]);
      DefaultValueSound(fields[i]);
    }
  }

  lemma NumberSound(f: Field, input: Bytes)
    requires Packable(f.ltype)
    ensures DecodeNumber(f, input).Some? ==> Simple(f, DecodeNumber(f, input).value.0)
  {
    var r := Varint64(input);
    if r.Some? {
      ReadsAreInRange(r.value.0, f.dataSize);
    }
  }

  lemma DataSound(f: Field, input: Bytes)
    requires f.ltype.SizedBytes? || f.ltype.String? || f.ltype.FixedLengthBytes?
    ensures DecodeData(f, input).Some? ==> Simple(f, DecodeData(f, input).value.0)
  {
  }

  lemma {:induction false} ValueSound(f: Field, input: Bytes, before: Value)
    requires FieldDescribed(f)
    requires f.ltype.Submessage? && !f.htype.Repeated? ==> Sound(f, before)
    ensures DecodeValue(f, input, before).Some? ==> Sound(f, DecodeValue(f, input, before).value.0)
    decreases |input|, 1
  {
    if f.ltype.Submessage? {
      var sub := f.ltype.fields;
      var r := Substream(input);
      if r.Some? {
        DefaultsSound(sub);
        MessageSound(sub, r.value.0, if f.htype.Repeated? then Defaults(sub, |sub|) else AsSlots(before), {});
      }
    } else if Packable(f.ltype) {
      NumberSound(f, input);
    } else {
      DataSound(f, input);
    }
  }

  lemma {:induction false} UnpackSound(f: Field, input: Bytes, items: seq<Value>)
    requires Packable(f.ltype) && SoundItems(f, items)
    ensures Unpack(f, input, items).Some? ==> SoundItems(f, Unpack(f, input, items).value)
    decreases |input|
  {
    if input != [] && |items| < f.arraySize {
      var r := DecodeNumber(f, input);
      if r.Some? {
        NumberSound(f, input);
        UnpackSound(f, r.value.1, items + [r.value.0]);
      }
    }
  }

  predicate SoundItems(f: Field, items: seq<Value>) {
    |items| <= f.arraySize && forall k :: 0 <= k < |items| ==> Sound(f, items[k])
  }

  lemma {:induction false} SlotSound(f: Field, wire: nat, input: Bytes, slot: Slot, fields: seq<Field>)
    requires FieldDescribed(f) && SoundSlot(f, slot)
    ensures var r := DecodeSlot(f, wire, input, slot, fields);
      r.Some? ==> SoundSlot(f, r.value.0) && (f.htype.Oneof? ==> r.value.0.which == f.tag)
    decreases |input|, 2
  {
    match f.htype {
      case Repeated =>
        if wire == STRING_TYPE && Packable(f.ltype) {
          var r := Substream(input);
          if r.Some? {
            UnpackSound(f, r.value.0, slot.items);
          }
        } else {
          ValueSound(f, input, Number(0));
        }
      case Oneof(_) =>
        DefaultValueSound(f);
        ValueSound(f, input, if slot.which == f.tag then slot.value else DefaultValue(f));
      case _ =>
        ValueSound(f, input, slot.value);
    }
  }

  lemma StoreSound(fields: seq<Field>, slots: seq<Slot>, i: nat, x: Slot, e: seq<Slot>)
    requires Described(fields) && SoundSlots(fields, slots) && i < |fields|
    requires SoundSlot(fields[i], x) && (fields[i].htype.Oneof? ==> x.which == fields[i].tag)
    requires SlotOf(fields, i) < |slots| && e == slots[SlotOf(fields, i) := x]
    ensures SoundSlots(fields, e)
  {
    forall j | 0 <= j < |fields|
      ensures SoundAt(fields, e, j)
    {
      assert SoundAt(fields, slots, j);
      if j != i && SlotOf(fields, j) == SlotOf(fields, i) {
        SharedSlotsAreUnions(fields, i, j);
        assert fields[i].tag != fields[j].tag;
      }
    }
  }

  /** Whatever the bytes: no array, string or byte field outgrows its memory, and no number its type. */
  lemma {:induction false} MessageSound(fields: seq<Field>, input: Bytes, slots: seq<Slot>, tags: set<int>)
    requires Described(fields) && SoundSlots(fields, slots)
    ensures Decoded(fields, input, slots, tags).Some? ==>
      SoundSlots(fields, Decoded(fields, input, slots, tags).value.0)
    decreases |input|, 0
  {
    var key := Varint32(input);
    if input != [] && key.Some? && key.value.0 != 0 {
      var tag, wire, rest := key.value.0 / 8, key.value.0 % 8, key.value.1;
      var i := IndexOf(fields, tag, 0);
      if i.None? {
        var after := if fields == [] && tag == 0 then SkipTerminator(rest) else SkipField(rest, wire);
        if after.Some? {
          MessageSound(fields, after.value, slots, tags);
        }
      } else {
        var f, at := fields[i.value], SlotOf(fields, i.value);
        assert SoundAt(fields, slots, i.value) && FieldDescribed(f);
        SlotSound(f, wire, rest, slots[at], fields);
        var r := DecodeSlot(f, wire, rest, slots[at], fields);
        if r.Some? {
          var e := slots[at := r.value.0];
          StoreSound(fields, slots, i.value, r.value.0, e);
          MessageSound(fields, r.value.1, e, tags + {tag});
        }
      }
    }
  }

  // ---- Required fields are read ----

  type Stop = (Bytes, seq<Slot>)

  /** One turn of the decoding loop: past a key and what it announces. */
  function Turn(fields: seq<Field>, at: Stop): (r: Option<Stop>) {
    var (input, slots) := at;
    var key := Varint32(input);
    if key.None? || key.value.0 == 0 then None
    else
      var tag, wire, rest := key.value.0 / 8, key.value.0 % 8, key.value.1;
      var i := IndexOf(fields, tag, 0);
      if i.None? then
        var after := if fields == [] && tag == 0 then SkipTerminator(rest) else SkipField(rest, wire);
        if after.None? then None else Some((after.value, slots))
      else
        var slot := SlotOf(fields, i.value);
        if slot >= |slots| then None
        else
          var r := DecodeSlot(fields[i.value], wire, rest, slots[slot], fields);
          if r.None? then None else Some((r.value.1, slots[slot := r.value.0]))
  }

  /** Where the loop stands, turn by turn. */
  ghost predicate Turns(fields: seq<Field>, stops: seq<Stop>) {
    forall k :: 0 <= k < |stops| - 1 ==> Turn(fields, stops[k]) == Some(stops[k + 1])
  }

  /** From `start` the loop comes to a key of field `i` and decodes it. */
  ghost predicate Reads(fields: seq<Field>, start: Stop, i: nat, stops: seq<Stop>)
    requires i < |fields|
  {
    && |stops| >= 2 && stops[0] == start && Turns(fields, stops)
    && var key := Varint32(stops[|stops| - 2].0); key.Some? && key.value.0 / 8 == fields[i].tag
  }

  /** What a successful run says about its first turn. */
  lemma FirstTurn(
    fields: seq<Field>, input: Bytes, slots: seq<Slot>, tags: set<int>)
    returns (next: Stop, met: set<int>)
    requires Decoded(fields, input, slots, tags).Some? && input != [] && Varint32(input).value.0 != 0
    ensures Turn(fields, (input, slots)) == Some(next) && |next.0| < |input|
    ensures Decoded(fields, next.0, next.1, met).Some? && met <= tags + {Varint32(input).value.0 / 8}
  {
    next := Turn(fields, (input, slots)).value;
    var tag := Varint32(input).value.0 / 8;
    met := if IndexOf(fields, tag, 0).None? then tags else tags + {tag};
  }

  /** A successful run has met, or comes to, each of the first sixty-four required fields. */
  lemma {:induction false} ComesToField(
    fields: seq<Field>, input: Bytes, slots: seq<Slot>, tags: set<int>, i: nat)
    returns (stops: seq<Stop>)
    requires i < |fields| && fields[i].htype.Required? && RequiredBefore(fields, i) < MAX_REQUIRED
    requires Decoded(fields, input, slots, tags).Some? && fields[i].tag !in tags
    ensures Reads(fields, (input, slots), i, stops)
    decreases |input|
  {
    var start := (input, slots);
    var next, met := FirstTurn(fields, input, slots, tags);
    if Varint32(input).value.0 / 8 == fields[i].tag {
      stops := [start, next];
    } else {
      var later := ComesToField(fields, next.0, next.1, met, i);
      stops := [start] + later;
      forall k | 0 <= k < |stops| - 1 ensures Turn(fields, stops[k]) == Some(stops[k + 1]) {
        assert k > 0 ==> Turn(fields, later[k - 1]) == Some(later[k]);
      }
    }
  }

  /** Decoding succeeds only if its loop comes to each of the first sixty-four required fields. */
  lemma RequiredFieldIsRead(fields: seq<Field>, input: Bytes, i: nat)
    requires i < |fields| && fields[i].htype.Required? && RequiredBefore(fields, i) < MAX_REQUIRED
    requires Parse(fields, input).Some?
    ensures exists stops :: Reads(fields, (input, Defaults(fields, |fields|)), i, stops)
  {
    var stops := ComesToField(fields, input, Defaults(fields, |fields|), {}, i);
  }
}
