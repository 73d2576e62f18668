/** Field descriptors, the structs they describe, and when two structs hold the same message. */
module ProtoMessages {
  import opened Coding
  import opened ProtoScalars

  datatype LType =
    | Bool | Int | Uint | Sint | Fixed32 | Fixed64
    | SizedBytes | String | Submessage(fields: seq<Field>) | FixedLengthBytes

  /** `Singular` is an optional field without a `has_` flag; `joins` marks the later members of a union. */
  datatype HType = Required | Optional | Singular | Repeated | Oneof(joins: bool)

  datatype Field = Field(
    tag: nat, ltype: LType, htype: HType, dataSize: nat, arraySize: nat, init: Value)

  datatype Value = Number(n: int) | Data(bytes: Bytes) | Message(slots: seq<Slot>)

  /** A struct member with its flag, count or `which_` tag. A string stops before its terminator. */
  datatype Slot =
    | Plain(value: Value)
    | Maybe(has: bool, value: Value)
    | Array(items: seq<Value>)
    | Union(which: nat, value: Value)

  // What a field's codec finds in memory; a value of another type holds nothing for it.

  function AsNumber(v: Value): (r: int) {
    if v.Number? then v.n else 0
  }

  function AsData(v: Value): (r: Bytes) {
    if v.Data? then v.bytes else []
  }

  function AsSlots(v: Value): (r: seq<Slot>) {
    if v.Message? then v.slots else []
  }

  /** The bytes of a sized byte array that its length takes. */
  const BYTES_HEADER := 4

  const MAX_REQUIRED := 64

  predicate Packable(l: LType) {
    l.Bool? || l.Int? || l.Uint? || l.Sint? || l.Fixed32? || l.Fixed64?
  }

  // ---- Layout ----

  /** Whether field `i` lies in the same union as the field before it. */
  predicate Joins(fields: seq<Field>, i: nat)
    requires i < |fields|
  {
    0 < i && fields[i - 1].htype.Oneof? && fields[i].htype == Oneof(true)
  }

  function SlotOf(fields: seq<Field>, i: nat): (r: nat)
    requires i < |fields|
  {
    if i == 0 then 0 else SlotOf(fields, i - 1) + if Joins(fields, i) then 0 else 1
  }

  /** How many slots the first `i` fields take. */
  function Width(fields: seq<Field>, i: nat): (r: nat)
    requires i <= |fields|
  {
    if i == 0 then 0 else SlotOf(fields, i - 1) + 1
  }

  function RequiredBefore(fields: seq<Field>, i: nat): (r: nat)
    requires i <= |fields|
  {
    if i == 0 then 0 else RequiredBefore(fields, i - 1) + if fields[i - 1].htype.Required? then 1 else 0
  }

  lemma {:induction false} SlotsGrow(fields: seq<Field>, i: nat, j: nat)
    requires i < j < |fields|
    ensures SlotOf(fields, i) <= SlotOf(fields, j)
    ensures SlotOf(fields, i) == SlotOf(fields, j) ==> fields[i].htype.Oneof? && fields[j].htype.Oneof?
  {
    if i + 1 < j {
      SlotsGrow(fields, i, j - 1);
    }
  }

  /** Only members of one union share a slot. */
  lemma SharedSlotsAreUnions(fields: seq<Field>, i: nat, j: nat)
    requires i < |fields| && j < |fields| && i != j && SlotOf(fields, i) == SlotOf(fields, j)
    ensures fields[i].htype.Oneof? && fields[j].htype.Oneof?
  {
    if i < j {
      SlotsGrow(fields, i, j);
    } else {
      SlotsGrow(fields, j, i);
    }
  }

  lemma SlotInside(fields: seq<Field>, i: nat)
    requires i < |fields|
    ensures SlotOf(fields, i) < Width(fields, |fields|)
  {
    if i < |fields| - 1 {
      SlotsGrow(fields, i, |fields| - 1);
    }
  }

  lemma {:induction false} RequiredGrows(fields: seq<Field>, i: nat, j: nat)
    requires i < j <= |fields|
    ensures RequiredBefore(fields, i) <= RequiredBefore(fields, j)
    ensures fields[i].htype.Required? ==> RequiredBefore(fields, i) < RequiredBefore(fields, j)
  {
    if i + 1 < j {
      RequiredGrows(fields, i, j - 1);
    }
  }

  // ---- Default values ----

  function DefaultValue(f: Field): (r: Value)
    decreases f, 1
  {
    if f.ltype.Submessage? then Message(Defaults(f.ltype.fields, |f.ltype.fields|)) else f.init
  }

  function DefaultSlot(f: Field): (r: Slot)
    decreases f, 2
  {
    match f.htype
    case Required => Plain(DefaultValue(f))
    case Singular => Plain(DefaultValue(f))
    case Optional => Maybe(false, DefaultValue(f))
    case Repeated => Array([])
    case Oneof(_) => Union(0, Number(0))
  }

  /** The slots of the first `i` fields as an initialised struct holds them. */
  function Defaults(fields: seq<Field>, i: nat): (slots: seq<Slot>)
    requires i <= |fields|
    ensures |slots| == Width(fields, i)
    decreases fields, 0, i
  {
    if i == 0 then []
    else
      Defaults(fields, i - 1) + if Joins(fields, i - 1) then [] else [DefaultSlot(fields[i - 1])]
  }

  lemma {:induction false} DefaultsAt(fields: seq<Field>, i: nat, k: nat)
    requires k < i <= |fields|
    ensures SlotOf(fields, k) < Width(fields, i)
    ensures Defaults(fields, i)[SlotOf(fields, k)] == DefaultSlot(fields[k])
  {
    if k < i - 1 {
      DefaultsAt(fields, i - 1, k);
    } else if Joins(fields, k) {
      DefaultsAt(fields, i - 1, k - 1);
    }
  }

  /** The check that keeps an unset field without a `has_` flag off the wire. */
  predicate IsDefault(f: Field, v: Value)
    decreases f, 1
  {
    match f.ltype
    case SizedBytes => v == Data([])
    case String => v == Data([])
    case FixedLengthBytes => f.dataSize == 0
    case Submessage(sub) => v.Message? && AllDefault(sub, v.slots, |sub|)
    case _ => v == Number(0)
  }

  predicate SlotIsDefault(f: Field, slot: Slot)
    decreases f, 2
  {
    match f.htype
    case Required => false
    case Singular => slot.Plain? && IsDefault(f, slot.value)
    case Optional => slot.Maybe? && !slot.has
    case Repeated => slot == Array([])
    case Oneof(_) => slot.Union? && slot.which == 0
  }

  predicate AllDefault(fields: seq<Field>, slots: seq<Slot>, i: nat)
    requires i <= |fields|
    decreases fields, 0, i
  {
    i == 0
    || (AllDefault(fields, slots, i - 1)
        && SlotOf(fields, i - 1) < |slots|
        && SlotIsDefault(fields[i - 1], slots[SlotOf(fields, i - 1)]))
  }

  // ---- Descriptors and structs that fit them ----

  function Zero(f: Field): (r: Value) {
    if f.ltype.SizedBytes? || f.ltype.String? then Data([])
    else if f.ltype.FixedLengthBytes? then Data(seq(f.dataSize, _ => 0))
    else Number(0)
  }

  /** Distinct tags that fit a key, sizes the codec accepts, and initial values that fit. */
  predicate Described(fields: seq<Field>)
    decreases fields
  {
    && (forall i, j {:trigger fields[i].tag, fields[j].tag} :: 0 <= i < j < |fields| ==> fields[i].tag != fields[j].tag)
    && (forall i :: 0 <= i < |fields| ==> FieldDescribed(fields[i]))
  }

  predicate FieldDescribed(f: Field)
    decreases f
  {
    && 0 < f.tag < 0x2000_0000
    && f.dataSize < TWO_TO_32
    && (f.ltype.Int? || f.ltype.Uint? || f.ltype.Sint? ==> Span(f.dataSize) > 0)
    && (f.ltype.Submessage? ==> Described(f.ltype.fields))
    && (!f.ltype.Submessage? ==> Simple(f, f.init))
    && (f.htype.Singular? && !f.ltype.Submessage? ==> f.init == Zero(f))
  }

  /** A value that the memory of a field other than a submessage can hold. */
  predicate Simple(f: Field, v: Value) {
    match f.ltype
    case Bool => v == Number(0) || v == Number(1)
    case Int => v.Number? && InSigned(v.n, f.dataSize)
    case Uint => v.Number? && InUnsigned(v.n, f.dataSize)
    case Sint => v.Number? && InSigned(v.n, f.dataSize)
    case Fixed32 => v.Number? && 0 <= v.n < TWO_TO_32
    case Fixed64 => v.Number? && 0 <= v.n < TWO_TO_64
    case SizedBytes => v.Data? && |v.bytes| + BYTES_HEADER <= f.dataSize
    case String => v.Data? && |v.bytes| < f.dataSize && 0 !in v.bytes
    case FixedLengthBytes => v.Data? && |v.bytes| == f.dataSize
    case Submessage(_) => false
  }

  predicate Sound(f: Field, v: Value)
    decreases f, 1
  {
    if f.ltype.Submessage? then v.Message? && SoundSlots(f.ltype.fields, v.slots) else Simple(f, v)
  }

  predicate SoundSlot(f: Field, slot: Slot)
    decreases f, 2
  {
    match f.htype
    case Required => slot.Plain? && Sound(f, slot.value)
    case Singular => slot.Plain? && Sound(f, slot.value)
    case Optional => slot.Maybe? && Sound(f, slot.value)
    case Repeated =>
      slot.Array? && |slot.items| <= f.arraySize && forall k :: 0 <= k < |slot.items| ==> Sound(f, slot.items[k])
    case Oneof(_) => slot.Union? && (slot.which == f.tag ==> Sound(f, slot.value))
  }

  /** Every member holds a value of its type, within the memory it has. */
  predicate SoundSlots(fields: seq<Field>, slots: seq<Slot>)
    decreases fields, 1
  {
    && |slots| == Width(fields, |fields|)
    && forall i {:trigger SoundAt(fields, slots, i)} :: 0 <= i < |fields| ==> SoundAt(fields, slots, i)
  }

  predicate SoundAt(fields: seq<Field>, slots: seq<Slot>, i: nat)
    requires i < |fields|
    decreases fields, 0
  {
    SlotOf(fields, i) < |slots| && SoundSlot(fields[i], slots[SlotOf(fields, i)])
  }

  // ---- The same message ----

  /** What a reader who respects flags, counts and `which_` tags can tell apart. */
  predicate Same(f: Field, a: Value, b: Value)
    decreases f, 1
  {
    if f.ltype.Submessage? then a.Message? && b.Message? && SameSlots(f.ltype.fields, a.slots, b.slots) else a == b
  }

  predicate SameSlot(f: Field, a: Slot, b: Slot)
    decreases f, 2
  {
    match f.htype
    case Required => a.Plain? && b.Plain? && Same(f, a.value, b.value)
    case Singular => a.Plain? && b.Plain? && Same(f, a.value, b.value)
    case Optional => a.Maybe? && b.Maybe? && a.has == b.has && (a.has ==> Same(f, a.value, b.value))
    case Repeated =>
      a.Array? && b.Array? && |a.items| == |b.items|
      && forall k :: 0 <= k < |a.items| ==> Same(f, a.items[k], b.items[k])
    case Oneof(_) =>
      a.Union? && b.Union? && (a.which == f.tag <==> b.which == f.tag)
      && (a.which == f.tag ==> Same(f, a.value, b.value))
  }

  predicate SameSlots(fields: seq<Field>, a: seq<Slot>, b: seq<Slot>)
    decreases fields, 1
  {
    && |a| == |b| == Width(fields, |fields|)
    && forall i {:trigger SameAt(fields, a, b, i)} :: 0 <= i < |fields| ==> SameAt(fields, a, b, i)
  }

  predicate SameAt(fields: seq<Field>, a: seq<Slot>, b: seq<Slot>, i: nat)
    requires i < |fields| && |a| == |b|
    decreases fields, 0
  {
    SlotOf(fields, i) < |a| && SameSlot(fields[i], a[SlotOf(fields, i)], b[SlotOf(fields, i)])
  }
}
