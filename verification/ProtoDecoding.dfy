/** What a byte string decodes to. */
module ProtoDecoding {
  import opened Coding
  import opened Wrappers
  import opened ProtoScalars
  import opened ProtoMessages
  import opened ProtoFields
  import opened ProtoEncoding

  /** Something read, and the bytes after it. */
  type Read<T> = Option<(T, Bytes)>

  function Take(input: Bytes, count: nat): (r: Read<Bytes>) {
    if |input| < count then None else Some((input[..count], input[count..]))
  }

  /** A length and that many bytes: the substream and what the parent is left with. */
  function Substream(input: Bytes): (r: Read<Bytes>)
    ensures r.Some? ==> |r.value.0| + |r.value.1| < |input|
  {
    var size := Varint32(input);
    if size.None? then None else Take(size.value.1, size.value.0)
  }

  function SkipVarint(input: Bytes): (r: Option<Bytes>)
    ensures r.Some? ==> |r.value| < |input|
  {
    if input == [] then None
    else if input[0] >= 128 then SkipVarint(input[1..])
    else Some(input[1..])
  }

  /** Passing over a field nobody knows. */
  function SkipField(input: Bytes, wire: nat): (r: Option<Bytes>)
    ensures r.Some? ==> |r.value| <= |input|
  {
    match wire
    case 0 => SkipVarint(input)
    case 1 => var r := Take(input, 8); if r.None? then None else Some(r.value.1)
    case 2 => var r := Substream(input); if r.None? then None else Some(r.value.1)
    case 5 => var r := Take(input, 4); if r.None? then None else Some(r.value.1)
    case _ => None
  }

  /** The part of a buffer that a C string shows. */
  function CString(s: Bytes): (r: Bytes)
    ensures |r| <= |s| && 0 !in r
  {
    if s == [] || s[0] == 0 then [] else [s[0]] + CString(s[1..])
  }

  function Sized(r: Read<Quad>, n: Option<int>): (res: Read<Value>) {
    if r.None? || n.None? then None else Some((Number(n.value), r.value.1))
  }

  /** A number of any of the types that arrays may pack. */
  function DecodeNumber(f: Field, input: Bytes): (r: Read<Value>)
    requires Packable(f.ltype)
    ensures r.Some? ==> |r.value.1| < |input|
  {
    match f.ltype
    case Bool =>
      var r := Varint32(input);
      if r.None? then None else Some((Number(if r.value.0 != 0 then 1 else 0), r.value.1))
    case Int =>
      var r := Varint64(input);
      if r.None? then None else Sized(r, ReadSigned(r.value.0, f.dataSize))
    case Uint =>
      var r := Varint64(input);
      if r.None? then None else Sized(r, ReadUnsigned(r.value.0, f.dataSize))
    case Sint =>
      var r := Varint64(input);
      if r.None? then None else Sized(r, ReadZigzag(r.value.0, f.dataSize))
    case Fixed32 =>
      var r := Take(input, 4);
      if r.None? then None else Some((Number(DecodeFixed32(r.value.0)), r.value.1))
    case Fixed64 =>
      var r := Take(input, 8);
      if r.None? then None else Some((Number(DecodeFixed64(r.value.0)), r.value.1))
  }

  function DecodeData(f: Field, input: Bytes): (r: Read<Value>)
    requires f.ltype.SizedBytes? || f.ltype.String? || f.ltype.FixedLengthBytes?
    ensures r.Some? ==> |r.value.1| < |input|
  {
    var size := Varint32(input);
    if size.None? then None
    else
      var n, rest := size.value.0, size.value.1;
      if f.ltype.FixedLengthBytes? && n == 0 then Some((Data(seq(f.dataSize, _ => 0)), rest))
      else if f.ltype.FixedLengthBytes? && n != f.dataSize then None
      else if f.ltype.SizedBytes? && n + BYTES_HEADER > f.dataSize then None
      else if f.ltype.String? && n + 1 > f.dataSize then None
      else
        var r := Take(rest, n);
        if r.None? then None
        else Some((Data(if f.ltype.String? then CString(r.value.0) else r.value.0), r.value.1))
  }

  /** One value into memory that holds `before`; only a submessage outside an array keeps any of it. */
  function DecodeValue(f: Field, input: Bytes, before: Value): (r: Read<Value>)
    ensures r.Some? ==> |r.value.1| < |input|
    decreases |input|, 1
  {
    match f.ltype
    case Submessage(sub) =>
      var r := Substream(input);
      if r.None? then None
      else
        var start := if f.htype.Repeated? then Defaults(sub, |sub|) else AsSlots(before);
        var m := Decoded(sub, r.value.0, start, {});
        if m.None? then None else Some((Message(m.value.0), r.value.1))
    case SizedBytes => DecodeData(f, input)
    case String => DecodeData(f, input)
    case FixedLengthBytes => DecodeData(f, input)
    case _ => DecodeNumber(f, input)
  }

  /** The numbers of a packed array, appended while there is room; none may be left over. */
  function Unpack(f: Field, input: Bytes, items: seq<Value>): (r: Option<seq<Value>>)
    requires Packable(f.ltype)
    decreases |input|
  {
    if input == [] then Some(items)
    else if |items| >= f.arraySize then None
    else
      var r := DecodeNumber(f, input);
      if r.None? then None else Unpack(f, r.value.1, items + [r.value.0])
  }

  /** One field of `fields` into its slot. */
  function DecodeSlot(f: Field, wire: nat, input: Bytes, slot: Slot, fields: seq<Field>): (r: Read<Slot>)
    ensures r.Some? ==> |r.value.1| <= |input|
    decreases |input|, 2
  {
    match (f.htype, slot)
    case (Required, Plain(v)) =>
      var r := DecodeValue(f, input, v);
      if r.None? then None else Some((Plain(r.value.0), r.value.1))
    case (Singular, Plain(v)) =>
      var r := DecodeValue(f, input, v);
      if r.None? then None else Some((Plain(r.value.0), r.value.1))
    case (Optional, Maybe(_, v)) =>
      var r := DecodeValue(f, input, v);
      if r.None? then None else Some((Maybe(true, r.value.0), r.value.1))
    case (Repeated, Array(items)) =>
      if wire == STRING_TYPE && Packable(f.ltype) then
        var r := Substream(input);
        if r.None? then None
        else
          var all := Unpack(f, r.value.0, items);
          if all.None? then None else Some((Array(all.value), r.value.1))
      else if |items| >= f.arraySize then None
      else
        var r := DecodeValue(f, input, Number(0));
        if r.None? then None else Some((Array(items + [r.value.0]), r.value.1))
    case (Oneof(_), Union(which, v)) =>
      if which != 0 && which != f.tag && IndexOf(fields, which, 0).None? then None
      else
        var r := DecodeValue(f, input, if which == f.tag then v else DefaultValue(f));
        if r.None? then None else Some((Union(f.tag, r.value.0), r.value.1))
    case _ => None
  }

  /** Whether `tags` holds every one of the first sixty-four required fields. */
  predicate RequiredSeen(fields: seq<Field>, tags: set<int>) {
    forall i {:trigger fields[i].tag} ::
      0 <= i < |fields| && fields[i].htype.Required? && RequiredBefore(fields, i) < MAX_REQUIRED ==>
      fields[i].tag in tags
  }

  /**
   * The decoding loop: the struct after reading `input` into `slots`, and what follows a
   * terminating zero. `tags` are the tags met so far.
   */
  function Decoded(fields: seq<Field>, input: Bytes, slots: seq<Slot>, tags: set<int>): (r: Read<seq<Slot>>)
    ensures r.Some? ==> |r.value.1| <= |input|
    decreases |input|, 0
  {
    if input == [] then Finished(fields, input, slots, tags)
    else
      var key := Varint32(input);
      if key.None? then None
      else if key.value.0 == 0 then Finished(fields, key.value.1, slots, tags)
      else
        var tag, wire, rest := key.value.0 / 8, key.value.0 % 8, key.value.1;
        var i := IndexOf(fields, tag, 0);
        if i.None? then
          var after := if fields == [] && tag == 0 then SkipTerminator(rest) else SkipField(rest, wire);
          if after.None? then None else Decoded(fields, after.value, slots, tags)
        else
          var at := SlotOf(fields, i.value);
          if at >= |slots| then None
          else
            var r := DecodeSlot(fields[i.value], wire, rest, slots[at], fields);
            if r.None? then None
            else Decoded(fields, r.value.1, slots[at := r.value.0], tags + {tag})
  }

  /** An empty descriptor's terminator passes for a required boolean, so a tag of zero reads one. */
  function SkipTerminator(input: Bytes): (r: Option<Bytes>)
    ensures r.Some? ==> |r.value| <= |input|
  {
    var r := Varint32(input);
    if r.None? then None else Some(r.value.1)
  }

  function Finished(fields: seq<Field>, rest: Bytes, slots: seq<Slot>, tags: set<int>): (r: Read<seq<Slot>>) {
    if RequiredSeen(fields, tags) then Some((slots, rest)) else None
  }

  type Loop = (Bytes, seq<Slot>, set<int>) -> Read<seq<Slot>>

  /** `decode` is the decoding loop of `fields`. */
  ghost predicate Follows(fields: seq<Field>, decode: Loop) {
    forall input, slots, tags {:trigger Decoded(fields, input, slots, tags)} ::
      decode(input, slots, tags) == Decoded(fields, input, slots, tags)
  }

  /** Decoding into a freshly initialised struct. */
  function Parse(fields: seq<Field>, input: Bytes): (r: Read<seq<Slot>>) {
    Decoded(fields, input, Defaults(fields, |fields|), {})
  }
}
