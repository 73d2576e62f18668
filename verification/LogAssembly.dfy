/** Assembling logical records, whatever delivers the physical ones. */
module LogAssembly {
  import opened Coding
  import opened LogFormat
  import opened LogReading
  import opened Wrappers
  import opened LogDelivery

  /** A fragment of a record is absorbed without complaint. */
  lemma AbsorbNext(ps: seq<Phys>, a: nat, b: nat, k: nat, record: Bytes)
    requires IsRecord(ps, a, b, record) && a <= k < b
    ensures Absorb(Fragment(TypeByte(ps[k].kind), ps[k].payload), Payloads(ps, a, k), k > a)
         == (if k + 1 == b then Done(Some(record)) else More(Payloads(ps, a, k + 1), true), 0)
  {
    assert ps[k].kind == KindAt(a, b, k);
    assert Payloads(ps, a, k + 1) == Payloads(ps, a, k) + ps[k].payload;
    if k == a {
      assert Payloads(ps, a, k) == [] && [] + ps[k].payload == ps[k].payload;
    }
  }

  lemma OneStep(
    n: nat, source: Source, ps: seq<Phys>, view: View, drops: nat, a: nat, b: nat, k: nat, record: Bytes,
    st: Position, step: (Verdict, Position))
    requires Delivers(n, source, ps, view, drops) && IsRecord(ps, a, b, record) && a <= k < b && view.stands(k, st)
    requires step == Step(source, st, Payloads(ps, a, k), k > a)
    ensures if step.0.Done? then ReadsRecord(view, b, record, drops, (step.0.record, step.1))
            else k + 1 < b && step.0 == More(Payloads(ps, a, k + 1), true) && view.stands(k + 1, step.1)
  {
    AbsorbNext(ps, a, b, k, record);
    assert Delivered(ps, view, drops, k, source(st));
    assert view.inside(b - 1) ==> view.inside(k);
    if view.inside(k) {
      var next := source(st).1;
      assert step.1 == next.(drops := next.drops + 0) == next;
    }
  }

  /** One fragment in: either the record is decided, or the loop goes on one fragment further. */
  lemma TakeFragment(
    n: nat, source: Source, ps: seq<Phys>, view: View, drops: nat, a: nat, b: nat, k: nat, record: Bytes,
    st: Position, scratch: Bytes)
    returns (step: (Verdict, Position))
    requires Reading(n, source, ps, view, drops, a, b, record) && a <= k < b && view.stands(k, st)
    requires scratch == Payloads(ps, a, k)
    ensures step.0.Done? ==> ReadsRecord(view, b, record, drops, Logical(n, source, st, scratch, k > a))
    ensures step.0.More? ==>
      && k + 1 < b && step.0.scratch == Payloads(ps, a, k + 1) && view.stands(k + 1, step.1)
      && Logical(n, source, st, scratch, k > a) == Logical(n, source, step.1, step.0.scratch, true)
  {
    step := Step(source, st, scratch, k > a);
    OneStep(n, source, ps, view, drops, a, b, k, record, st, step);
    LogicalStep(n, source, st, scratch, k > a, step.0, step.1);
  }

  lemma {:induction false} RecordIsRead(
    n: nat, source: Source, ps: seq<Phys>, view: View, drops: nat, a: nat, b: nat, k: nat, record: Bytes,
    st: Position, scratch: Bytes)
    requires Reading(n, source, ps, view, drops, a, b, record) && a <= k < b && view.stands(k, st)
    requires scratch == Payloads(ps, a, k)
    ensures ReadsRecord(view, b, record, drops, Logical(n, source, st, scratch, k > a))
    decreases b - k
  {
    var step := TakeFragment(n, source, ps, view, drops, a, b, k, record, st, scratch);
    if step.0.More? {
      RecordIsRead(n, source, ps, view, drops, a, b, k + 1, record, step.1, step.0.scratch);
    }
  }

  lemma NothingMore(n: nat, source: Source, ps: seq<Phys>, view: View, drops: nat, st: Position)
    requires Delivers(n, source, ps, view, drops) && view.stands(|ps|, st)
    ensures var r := Logical(n, source, st, [], false); r.0 == None && r.1.drops == drops
  {
    assert Delivered(ps, view, drops, |ps|, source(st));
    var step := Step(source, st, [], false);
    LogicalStep(n, source, st, [], false, step.0, step.1);
  }

  /** Record `j` lies wholly inside. */
  ghost predicate Whole(view: View, ends: seq<nat>, j: nat) {
    j < |ends| && ends[j] > 0 && view.inside(ends[j] - 1)
  }

  /** One call of ReadRecord before logical record `j`: the record if it is whole, else the end. */
  lemma CallReads(
    n: nat, source: Source, shape: Shape, records: seq<Bytes>, view: View, drops: nat, j: nat, st: Position,
    record: Option<Bytes>, next: Position)
    requires Delivers(n, source, shape.ps, view, drops) && AreRecords(shape.ps, shape.ends, records)
    requires EndBefore(shape.ends, |records|) == |shape.ps|
    requires j <= |records| && view.stands(EndBefore(shape.ends, j), st) && Call(n, source, st, record, next)
    ensures if Whole(view, shape.ends, j)
      then record == Some(records[j]) && view.stands(EndBefore(shape.ends, j + 1), next)
            else record == None && next.drops == drops
  {
    if j == |records| {
      NothingMore(n, source, shape.ps, view, drops, st);
    } else {
      var a, b := EndBefore(shape.ends, j), shape.ends[j];
      assert EndsRecord(shape.ps, a, b, records, j);
      RecordIsRead(n, source, shape.ps, view, drops, a, b, a, records[j], st, []);
      assert EndBefore(shape.ends, j + 1) == b;
    }
  }

  lemma {:induction false} CallsRead(
    n: nat, source: Source, shape: Shape, records: seq<Bytes>, view: View, drops: nat, stops: seq<Position>,
    read: seq<Bytes>, j: nat)
    requires Delivers(n, source, shape.ps, view, drops) && AreRecords(shape.ps, shape.ends, records)
    requires EndBefore(shape.ends, |records|) == |shape.ps|
    requires Calls(n, source, stops, read) && j <= |read| && view.stands(0, stops[0])
    ensures j <= |records| && view.stands(EndBefore(shape.ends, j), stops[j])
    ensures j > 0 ==> read[j - 1] == records[j - 1] && Whole(view, shape.ends, j - 1)
  {
    if j > 0 {
      CallsRead(n, source, shape, records, view, drops, stops, read, j - 1);
      CallAt(n, source, stops, read, j - 1);
      CallReads(n, source, shape, records, view, drops, j - 1, stops[j - 1], Some(read[j - 1]), stops[j]);
    }
  }

  lemma CallAt(n: nat, source: Source, stops: seq<Position>, read: seq<Bytes>, i: nat)
    requires Progresses(n, source) && Calls(n, source, stops, read) && i < |read|
    ensures Call(n, source, stops[i], Some(read[i]), stops[i + 1])
  {
  }

  /** Calling until the end returns exactly the whole records that come before the first cut one. */
  lemma ReadsWholeRecords(
    n: nat, source: Source, shape: Shape, records: seq<Bytes>, view: View, drops: nat, stops: seq<Position>,
    read: seq<Bytes>, end: Position)
    requires Delivers(n, source, shape.ps, view, drops) && AreRecords(shape.ps, shape.ends, records)
    requires EndBefore(shape.ends, |records|) == |shape.ps|
    requires Calls(n, source, stops, read) && view.stands(0, stops[0]) && Call(n, source, stops[|read|], None, end)
    ensures read <= records && end.drops == drops && !Whole(view, shape.ends, |read|)
    ensures forall i :: 0 <= i < |read| ==> Whole(view, shape.ends, i)
  {
    CallsRead(n, source, shape, records, view, drops, stops, read, |read|);
    CallReads(n, source, shape, records, view, drops, |read|, stops[|read|], None, end);
    forall i | 0 <= i < |read| ensures read[i] == records[i] && Whole(view, shape.ends, i) {
      CallsRead(n, source, shape, records, view, drops, stops, read, i + 1);
    }
  }
}
