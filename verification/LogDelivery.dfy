/** What it takes to deliver the physical records of a log. */
module LogDelivery {
  import opened Coding
  import opened LogFormat
  import opened LogReading
  import opened Wrappers

  /** `stands(k, st)`: at `st` the first `k` physical records are consumed; `inside(k)`: record `k`
      is there to be read. */
  datatype View = View(stands: (nat, Position) -> bool, inside: nat -> bool)

  /** The source delivers the physical records that are there, one after the other, then the end,
      and reports nothing. */
  ghost predicate Delivers(n: nat, source: Source, ps: seq<Phys>, view: View, drops: nat) {
    && Progresses(n, source)
    && (forall k: nat, st ::
          view.stands(k, st) ==>
            k <= |ps| && Inside(n, st) && st.drops == drops && Delivered(ps, view, drops, k, source(st)))
    && (forall j: nat, k: nat :: j <= k && view.inside(k) ==> view.inside(j))
  }

  ghost predicate Delivered(ps: seq<Phys>, view: View, drops: nat, k: nat, r: (Outcome, Position)) {
    if k < |ps| && view.inside(k) then r.0 == Fragment(TypeByte(ps[k].kind), ps[k].payload) && view.stands(k + 1, r.1)
    else r.0 == Eof && r.1.drops == drops
  }

  /** The outcome of reading the rest of a record that ends with physical record `b - 1`. */
  ghost predicate ReadsRecord(view: View, b: nat, record: Bytes, drops: nat, r: (Option<Bytes>, Position))
    requires b > 0
  {
    if view.inside(b - 1) then r.0 == Some(record) && view.stands(b, r.1) else r.0 == None && r.1.drops == drops
  }

  /** The source delivers, and physical records `a` to `b - 1` make up the record. */
  ghost predicate Reading(
    n: nat, source: Source, ps: seq<Phys>, view: View, drops: nat, a: nat, b: nat, record: Bytes)
  {
    Delivers(n, source, ps, view, drops) && IsRecord(ps, a, b, record)
  }
}
