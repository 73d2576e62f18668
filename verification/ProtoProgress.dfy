/** How far a decoder has come in restoring a message. */
module ProtoProgress {
  import opened Coding
  import opened Wrappers
  import opened ProtoScalars
  import opened ProtoMessages
  import opened ProtoFields
  import opened ProtoEncoding
  import opened ProtoDecoding

  /** Which fields of `d` hold what `m` holds, and which are as they were initialised. */
  ghost predicate Progress(fields: seq<Field>, m: seq<Slot>, d: seq<Slot>, i: nat) {
    && |m| == |d| == Width(fields, |fields|)
    && (forall j {:trigger SameAt(fields, m, d, j)} :: 0 <= j < i && j < |fields| ==> SameAt(fields, m, d, j))
    && (forall j {:trigger Waiting(fields, d, j)} :: i <= j < |fields| ==> Waiting(fields, d, j))
  }

  ghost predicate Waiting(fields: seq<Field>, d: seq<Slot>, j: nat)
    requires j < |fields|
  {
    SlotOf(fields, j) < |d| && Untouched(fields, fields[j], d[SlotOf(fields, j)])
  }

  ghost predicate Untouched(fields: seq<Field>, f: Field, slot: Slot) {
    if f.htype.Oneof? then
      slot.Union? && slot.which != f.tag && (slot.which != 0 ==> IndexOf(fields, slot.which, 0).Some?)
    else slot == DefaultSlot(f)
  }

  /** `x` is what field `f` holds once it was decoded from the bytes of `a`. */
  ghost predicate Stored(f: Field, a: Slot, before: Slot, x: Slot) {
    && SameSlot(f, a, x)
    && (f.htype.Oneof? ==> if a.which == f.tag then x.which == f.tag else x == before)
  }

  /** The required fields among the first `i` were all met. */
  ghost predicate RequiredMet(fields: seq<Field>, i: nat, tags: set<int>) {
    forall j {:trigger fields[j].tag} ::
      0 <= j < i && j < |fields| && fields[j].htype.Required? ==> fields[j].tag in tags
  }

  /** The decoder has `bytes` before it, the fields of `m` from the `i`th on, and holds the others in `d`. */
  ghost predicate Poised(
    fields: seq<Field>, decode: Loop, m: seq<Slot>, i: nat, d: seq<Slot>, tags: set<int>, bytes: Bytes)
  {
    && Described(fields) && Follows(fields, decode) && SoundSlots(fields, m)
    && i <= |fields| && Progress(fields, m, d, i) && RequiredMet(fields, i, tags)
    && Encoded(fields, m, i) == Some(bytes) && |bytes| < TWO_TO_32
  }
}
