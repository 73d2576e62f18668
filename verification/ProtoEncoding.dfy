/** The bytes of a message, and the encoder that sizes and then writes them. */
module ProtoEncoding {
  import opened Coding
  import opened Wrappers
  import opened ProtoScalars
  import opened ProtoMessages

  // ---- The wire form ----

  function WireType(l: LType): (r: nat) {
    match l
    case Bool => 0
    case Int => 0
    case Uint => 0
    case Sint => 0
    case Fixed32 => 5
    case Fixed64 => 1
    case _ => 2
  }

  const STRING_TYPE := 2

  function Key(tag: nat, wire: nat): (r: Bytes) {
    Varint(8 * tag + wire)
  }

  /** Both parts, if both exist. */
  function Join(a: Option<Bytes>, b: Option<Bytes>): (r: Option<Bytes>) {
    if a.None? || b.None? then None else Some(a.value + b.value)
  }

  function Delimited(payload: Option<Bytes>): (r: Option<Bytes>) {
    if payload.None? then None else Some(LengthPrefixed(payload.value))
  }

  lemma JoinStep(want: Option<Bytes>, done: Bytes, part: Option<Bytes>, rest: Option<Bytes>)
    requires want == Join(Some(done), Join(part, rest))
    ensures part.None? ==> want.None?
    ensures part.Some? ==> want == Join(Some(done + part.value), rest)
    ensures want.Some? ==> part.Some? && |want.value| >= |done| + |part.value|
  {
    assert want.Some? ==> done + (part.value + rest.value) == done + part.value + rest.value;
  }

  /** A field's value; `None` where the encoder reports an error. */
  function Wire(f: Field, v: Value): (r: Option<Bytes>)
    decreases f, 1
  {
    match f.ltype
    case Bool => Some(Varint(if AsNumber(v) != 0 then 1 else 0))
    case Int => if Span(f.dataSize) == 0 then None else Some(Varint(ToQuad(AsNumber(v))))
    case Uint => if Span(f.dataSize) == 0 then None else Some(Varint(ToQuad(AsNumber(v))))
    case Sint => if Span(f.dataSize) == 0 then None else Some(Varint(Zigzag(AsNumber(v))))
    case Fixed32 => Some(EncodeFixed32(AsNumber(v) % TWO_TO_32))
    case Fixed64 => Some(EncodeFixed64(ToQuad(AsNumber(v))))
    case SizedBytes => if |AsData(v)| + BYTES_HEADER > f.dataSize then None else Some(LengthPrefixed(AsData(v)))
    case String => Some(LengthPrefixed(AsData(v)))
    case FixedLengthBytes => Some(LengthPrefixed(AsData(v)))
    case Submessage(sub) => Delimited(Encoded(sub, AsSlots(v), 0))
  }

  function Tagged(f: Field, v: Value): (r: Option<Bytes>)
    decreases f, 2
  {
    Join(Some(Key(f.tag, WireType(f.ltype))), Wire(f, v))
  }

  function Item(f: Field, v: Value, keyed: bool): (r: Option<Bytes>)
    decreases f, 3
  {
    if keyed then Tagged(f, v) else Wire(f, v)
  }

  /** The items from the `k`th on, each with or without its key. */
  function Items(f: Field, items: seq<Value>, k: nat, keyed: bool): (r: Option<Bytes>)
    requires k <= |items|
    decreases f, 4, |items| - k
  {
    if k == |items| then Some([])
    else Join(Item(f, items[k], keyed), Items(f, items, k + 1, keyed))
  }

  function SlotWire(f: Field, slot: Slot): (r: Option<Bytes>)
    decreases f, 5
  {
    match (f.htype, slot)
    case (Required, Plain(v)) => Tagged(f, v)
    case (Singular, Plain(v)) => if IsDefault(f, v) then Some([]) else Tagged(f, v)
    case (Optional, Maybe(has, v)) => if has then Tagged(f, v) else Some([])
    case (Repeated, Array(items)) =>
      if items == [] then Some([])
      else if |items| > f.arraySize then None
      else if Packable(f.ltype) then Join(Some(Key(f.tag, STRING_TYPE)), Delimited(Items(f, items, 0, false)))
      else Items(f, items, 0, true)
    case (Oneof(_), Union(which, v)) => if which == f.tag then Tagged(f, v) else Some([])
    case _ => None
  }

  /** The fields from the `i`th on, in descriptor order. */
  function Encoded(fields: seq<Field>, slots: seq<Slot>, i: nat): (r: Option<Bytes>)
    requires i <= |fields|
    decreases fields, 0, |fields| - i
  {
    if i == |fields| then Some([])
    else if SlotOf(fields, i) >= |slots| then None
    else Join(SlotWire(fields[i], slots[SlotOf(fields, i)]), Encoded(fields, slots, i + 1))
  }

  // ---- The encoder ----

  datatype Status = Ok | StreamFull | BadInput | SubmessageSizeChanged

  /** An output stream: `sizing` when it has no callback and only counts. */
  class OStream {
    const sizing: bool
    const maxSize: nat
    var bytesWritten: nat
    var output: Bytes

    constructor (sizing: bool, maxSize: nat, output: Bytes)
      ensures this.sizing == sizing && this.maxSize == maxSize && bytesWritten == 0 && this.output == output
    {
      this.sizing, this.maxSize, this.bytesWritten, this.output := sizing, maxSize, 0, output;
    }

    ghost predicate Valid()
      reads this
    {
      sizing || bytesWritten <= maxSize
    }

    /** Whether `more` bytes beyond `written` would be accepted. */
    predicate Fits(written: nat, more: nat) {
      sizing || written + more <= maxSize
    }

    /** What holds after `want` was handed to the stream: counted, and written unless the stream is sizing. */
    ghost predicate Took(written: nat, before: Bytes, want: Option<Bytes>, status: Status)
      reads this
    {
      && Valid()
      && status != SubmessageSizeChanged
      && (status == Ok <==> want.Some? && Fits(written, |want.value|))
      && (status == Ok ==> bytesWritten == written + |want.value|)
      && (status == Ok ==> output == if sizing then before else before + want.value)
    }

    method Write(buffer: Bytes) returns (status: Status)
      requires Valid()
      modifies this
      ensures Took(old(bytesWritten), old(output), Some(buffer), status)
    {
      if |buffer| > 0 && !sizing {
        if bytesWritten + |buffer| > maxSize {
          return StreamFull;
        }
        output := output + buffer;
      }
      bytesWritten := bytesWritten + |buffer|;
      return Ok;
    }

    /** Writing without a buffer, as a sizing stream allows. */
    method Count(count: nat)
      requires sizing
      modifies this
      ensures bytesWritten == old(bytesWritten) + count && output == old(output)
    {
      bytesWritten := bytesWritten + count;
    }
  }

  method EncodeVarint(s: OStream, value: nat) returns (status: Status)
    requires s.Valid()
    modifies s
    ensures s.Took(old(s.bytesWritten), old(s.output), Some(Varint(value)), status)
  {
    if value <= 0x7F {
      status := s.Write([value]);
      return;
    }
    var buffer := VarintBuffer(value);
    status := s.Write(buffer);
  }

  /** The encoding loop: every byte gets its top bit, and the last one loses it again. */
  method VarintBuffer(value: nat) returns (buffer: Bytes)
    requires value > 0
    ensures buffer == Varint(value)
  {
    var v: nat := value;
    buffer := [];
    while v != 0
      invariant v > 0 ==> buffer + Varint(v) == Varint(value)
      invariant v == 0 ==> |buffer| > 0 && buffer[|buffer| - 1] >= 128
      invariant v == 0 ==> buffer[..|buffer| - 1] + [buffer[|buffer| - 1] - 128] == Varint(value)
    {
      ghost var before := buffer;
      buffer := buffer + [v % 128 + 128];
      assert buffer[..|buffer| - 1] == before;
      assert v >= 128 ==> before + Varint(v) == buffer + Varint(v / 128);
      v := v / 128;
    }
    buffer := buffer[..|buffer| - 1] + [buffer[|buffer| - 1] - 128];
  }

  method EncodeKey(s: OStream, tag: nat, wire: nat) returns (status: Status)
    requires s.Valid() && wire < 8
    modifies s
    ensures s.Took(old(s.bytesWritten), old(s.output), Some(Key(tag, wire)), status)
  {
    status := EncodeVarint(s, 8 * tag + wire);
  }

  method EncodeString(s: OStream, buffer: Bytes) returns (status: Status)
    requires s.Valid()
    modifies s
    ensures s.Took(old(s.bytesWritten), old(s.output), Some(LengthPrefixed(buffer)), status)
  {
    status := EncodeVarint(s, |buffer|);
    if status == Ok {
      status := s.Write(buffer);
    }
  }

  /** Sizes the message with a counting stream, then writes exactly that much through a limited substream. */
  method EncodeSubmessage(s: OStream, fields: seq<Field>, slots: seq<Slot>) returns (status: Status)
    requires s.Valid()
    modifies s
    ensures s.Took(old(s.bytesWritten), old(s.output), Delimited(Encoded(fields, slots, 0)), status)
    decreases fields, 1
  {
    var counter := new OStream(true, 0, []);
    status := EncodeMessage(counter, fields, slots);
    if status != Ok {
      return;
    }
    var size := counter.bytesWritten;
    status := EncodeVarint(s, size);
    if status != Ok {
      return;
    }
    if s.sizing {
      s.Count(size);
      return Ok;
    }
    if s.bytesWritten + size > s.maxSize {
      return StreamFull;
    }
    var substream := new OStream(false, size, s.output);
    status := EncodeMessage(substream, fields, slots);
    s.bytesWritten := s.bytesWritten + substream.bytesWritten;
    s.output := substream.output;
    if substream.bytesWritten != size {
      return SubmessageSizeChanged;
    }
  }

  method EncodeValue(s: OStream, f: Field, v: Value) returns (status: Status)
    requires s.Valid()
    modifies s
    ensures s.Took(old(s.bytesWritten), old(s.output), Wire(f, v), status)
    decreases f, 2
  {
    match f.ltype {
      case Bool =>
        status := EncodeVarint(s, if AsNumber(v) != 0 then 1 else 0);
      case Int =>
        if Span(f.dataSize) == 0 {
          return BadInput;
        }
        status := EncodeVarint(s, ToQuad(AsNumber(v)));
      case Uint =>
        if Span(f.dataSize) == 0 {
          return BadInput;
        }
        status := EncodeVarint(s, ToQuad(AsNumber(v)));
      case Sint =>
        if Span(f.dataSize) == 0 {
          return BadInput;
        }
        status := EncodeVarint(s, Zigzag(AsNumber(v)));
      case Fixed32 =>
        status := s.Write(EncodeFixed32(AsNumber(v) % TWO_TO_32));
      case Fixed64 =>
        status := s.Write(EncodeFixed64(ToQuad(AsNumber(v))));
      case SizedBytes =>
        if |AsData(v)| + BYTES_HEADER > f.dataSize {
          return BadInput;
        }
        status := EncodeString(s, AsData(v));
      case String =>
        status := EncodeString(s, AsData(v));
      case FixedLengthBytes =>
        status := EncodeString(s, AsData(v));
      case Submessage(sub) =>
        status := EncodeSubmessage(s, sub, AsSlots(v));
    }
  }

  method EncodeTagged(s: OStream, f: Field, v: Value) returns (status: Status)
    requires s.Valid()
    modifies s
    ensures s.Took(old(s.bytesWritten), old(s.output), Tagged(f, v), status)
    decreases f, 3
  {
    status := EncodeKey(s, f.tag, WireType(f.ltype));
    if status == Ok {
      status := EncodeValue(s, f, v);
    }
  }

  method EncodeItem(s: OStream, f: Field, v: Value, keyed: bool) returns (status: Status)
    requires s.Valid()
    modifies s
    ensures s.Took(old(s.bytesWritten), old(s.output), Item(f, v, keyed), status)
    decreases f, 4
  {
    if keyed {
      status := EncodeTagged(s, f, v);
    } else {
      status := EncodeValue(s, f, v);
    }
  }

  method EncodeItems(s: OStream, f: Field, items: seq<Value>, keyed: bool) returns (status: Status)
    requires s.Valid()
    modifies s
    ensures s.Took(old(s.bytesWritten), old(s.output), Items(f, items, 0, keyed), status)
    decreases f, 5
  {
    var i := 0;
    ghost var done: Bytes := [];
    ghost var want := Items(f, items, 0, keyed);
    assert want.Some? ==> done + want.value == want.value;
    while i < |items|
      invariant i <= |items| && s.Valid()
      invariant want == Join(Some(done), Items(f, items, i, keyed))
      invariant s.Fits(old(s.bytesWritten), |done|) && s.bytesWritten == old(s.bytesWritten) + |done|
      invariant s.output == if s.sizing then old(s.output) else old(s.output) + done
    {
      ghost var part := Item(f, items[i], keyed);
      ghost var rest := Items(f, items, i + 1, keyed);
      JoinStep(want, done, part, rest);
      status := EncodeItem(s, f, items[i], keyed);
      if status != Ok {
        return;
      }
      done := done + part.value;
      i := i + 1;
    }
    assert done + [] == done;
    return Ok;
  }

  /** Fixed-width items take a known size each, so the encoder multiplies instead of counting. */
  lemma {:induction false} FixedItemsSize(f: Field, items: seq<Value>, k: nat)
    requires k <= |items| && (f.ltype.Fixed32? || f.ltype.Fixed64?)
    ensures Items(f, items, k, false).Some?
    ensures |Items(f, items, k, false).value| == (|items| - k) * if f.ltype.Fixed32? then 4 else 8
    decreases |items| - k
  {
    if k < |items| {
      var one := Item(f, items[k], false);
      assert one == Wire(f, items[k]) && |one.value| == if f.ltype.Fixed32? then 4 else 8;
      FixedItemsSize(f, items, k + 1);
    }
  }

  method EncodePacked(s: OStream, f: Field, items: seq<Value>) returns (status: Status)
    requires s.Valid() && Packable(f.ltype)
    modifies s
    ensures s.Took(old(s.bytesWritten), old(s.output),
      Join(Some(Key(f.tag, STRING_TYPE)), Delimited(Items(f, items, 0, false))), status)
    decreases f, 6
  {
    ghost var all := Items(f, items, 0, false);
    JoinStep(Join(Some(Key(f.tag, STRING_TYPE)), Delimited(all)), Key(f.tag, STRING_TYPE),
      if all.Some? then Some(Varint(|all.value|)) else None, all);
    status := EncodeKey(s, f.tag, STRING_TYPE);
    if status != Ok {
      return;
    }
    var size: nat;
    if f.ltype.Fixed32? || f.ltype.Fixed64? {
      FixedItemsSize(f, items, 0);
    }
    if f.ltype.Fixed32? {
      size := 4 * |items|;
    } else if f.ltype.Fixed64? {
      size := 8 * |items|;
    } else {
      var counter := new OStream(true, 0, []);
      status := EncodeItems(counter, f, items, false);
      if status != Ok {
        return;
      }
      size := counter.bytesWritten;
    }
    status := EncodeVarint(s, size);
    if status != Ok {
      return;
    }
    if s.sizing {
      s.Count(size);
      return Ok;
    }
    status := EncodeItems(s, f, items, false);
  }

  method EncodeArray(s: OStream, f: Field, items: seq<Value>) returns (status: Status)
    requires s.Valid() && f.htype.Repeated?
    modifies s
    ensures s.Took(old(s.bytesWritten), old(s.output), SlotWire(f, Array(items)), status)
    decreases f, 7
  {
    if items == [] {
      return Ok;
    }
    if |items| > f.arraySize {
      return BadInput;
    }
    if Packable(f.ltype) {
      status := EncodePacked(s, f, items);
    } else {
      status := EncodeItems(s, f, items, true);
    }
  }

  method EncodeField(s: OStream, f: Field, slot: Slot) returns (status: Status)
    requires s.Valid()
    modifies s
    ensures s.Took(old(s.bytesWritten), old(s.output), SlotWire(f, slot), status)
    decreases f, 8
  {
    match (f.htype, slot) {
      case (Required, Plain(v)) =>
        status := EncodeTagged(s, f, v);
      case (Singular, Plain(v)) =>
        if IsDefault(f, v) {
          return Ok;
        }
        status := EncodeTagged(s, f, v);
      case (Optional, Maybe(has, v)) =>
        if !has {
          return Ok;
        }
        status := EncodeTagged(s, f, v);
      case (Repeated, Array(items)) =>
        status := EncodeArray(s, f, items);
      case (Oneof(_), Union(which, v)) =>
        if which != f.tag {
          return Ok;
        }
        status := EncodeTagged(s, f, v);
      case _ =>
        return BadInput;
    }
  }

  /** Encodes every field in order. */
  method EncodeMessage(s: OStream, fields: seq<Field>, slots: seq<Slot>) returns (status: Status)
    requires s.Valid()
    modifies s
    ensures s.Took(old(s.bytesWritten), old(s.output), Encoded(fields, slots, 0), status)
    decreases fields, 0
  {
    var i := 0;
    ghost var done: Bytes := [];
    ghost var want := Encoded(fields, slots, 0);
    assert want.Some? ==> done + want.value == want.value;
    while i < |fields|
      invariant i <= |fields| && s.Valid()
      invariant want == Join(Some(done), Encoded(fields, slots, i))
      invariant s.Fits(old(s.bytesWritten), |done|) && s.bytesWritten == old(s.bytesWritten) + |done|
      invariant s.output == if s.sizing then old(s.output) else old(s.output) + done
    {
      var slot := SlotOf(fields, i);
      if slot >= |slots| {
        return BadInput;
      }
      ghost var part := SlotWire(fields[i], slots[slot]);
      ghost var rest := Encoded(fields, slots, i + 1);
      JoinStep(want, done, part, rest);
      status := EncodeField(s, fields[i], slots[slot]);
      if status != Ok {
        return;
      }
      done := done + part.value;
      i := i + 1;
    }
    assert done + [] == done;
    return Ok;
  }

  /** The size that a dry run reports is the size of what a run into a large enough buffer writes. */
  method EncodedSize(fields: seq<Field>, slots: seq<Slot>) returns (size: Option<nat>)
    ensures size == if Encoded(fields, slots, 0).None? then None else Some(|Encoded(fields, slots, 0).value|)
  {
    var counter := new OStream(true, 0, []);
    var status := EncodeMessage(counter, fields, slots);
    size := if status == Ok then Some(counter.bytesWritten) else None;
  }
}
