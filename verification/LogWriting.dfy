/** The log writer: each record is cut into fragments that fit the blocks. */
module LogWriting {
  import opened Coding
  import opened LogFormat

  /** Appending one physical record keeps the earlier ones in place. */
  lemma {:induction false} StartOfPrefix(ps: seq<Phys>, p: Phys, k: nat)
    requires k <= |ps|
    ensures Start(ps + [p], k) == Start(ps, k)
  {
    if k > 0 {
      StartOfPrefix(ps, p, k - 1);
    }
  }

  lemma StillPlaced(crc: Crc, file: Bytes, more: Bytes, ps: seq<Phys>, p: Phys, k: nat)
    requires k < |ps| && Placed(crc, file, ps, k)
    ensures Placed(crc, file + more, ps + [p], k)
  {
    StartOfPrefix(ps, p, k);
    var at := Aligned(Start(ps, k));
    var end := at + HEADER_SIZE + |ps[k].payload|;
    assert (file + more)[at..at + HEADER_SIZE] == file[at..at + HEADER_SIZE];
    assert (file + more)[at + HEADER_SIZE..end] == file[at + HEADER_SIZE..end];
  }

  lemma Parts(x: Bytes, h: Bytes, p: Bytes)
    ensures (x + h + p)[|x|..|x| + |h|] == h
    ensures (x + h + p)[|x| + |h|..|x| + |h| + |p|] == p
    ensures forall i :: 0 <= i < |x| ==> (x + h + p)[i] == x[i]
  {
  }

  lemma NewlyPlacedAt(crc: Crc, file: Bytes, zeros: Bytes, p: Phys)
    requires |zeros| == PadLength(|file|) && (forall i :: 0 <= i < |zeros| ==> zeros[i] == 0)
      && |p.payload| <= Available(|file|)
    ensures PlacedAt(crc, file + zeros + Header(crc, p) + p.payload, |file|, p)
  {
    var x := file + zeros;
    var all, at := x + Header(crc, p) + p.payload, |x|;
    Parts(x, Header(crc, p), p.payload);
    assert at == Aligned(|file|);
    assert forall i :: |file| <= i < at ==> all[i] == zeros[i - |file|];
  }

  lemma NewlyPlaced(crc: Crc, file: Bytes, zeros: Bytes, ps: seq<Phys>, p: Phys)
    requires |file| == Start(ps, |ps|) && |zeros| == PadLength(|file|)
      && (forall i :: 0 <= i < |zeros| ==> zeros[i] == 0)
    requires |p.payload| <= Available(|file|)
    ensures Placed(crc, file + zeros + Header(crc, p) + p.payload, ps + [p], |ps|)
  {
    StartOfPrefix(ps, p, |ps|);
    NewlyPlacedAt(crc, file, zeros, p);
  }

  lemma AppendPhysical(crc: Crc, file: Bytes, zeros: Bytes, ps: seq<Phys>, p: Phys)
    requires IsLog(crc, file, ps) && |zeros| == PadLength(|file|) && (forall i :: 0 <= i < |zeros| ==> zeros[i] == 0)
    requires |p.payload| <= Available(|file|)
    ensures IsLog(crc, file + zeros + Header(crc, p) + p.payload, ps + [p])
  {
    var more := zeros + Header(crc, p) + p.payload;
    var all := file + zeros + Header(crc, p) + p.payload;
    assert all == file + more;
    StartOfPrefix(ps, p, |ps|);
    NewlyPlaced(crc, file, zeros, ps, p);
    forall k | 0 <= k < |ps| ensures Placed(crc, all, ps + [p], k) {
      StillPlaced(crc, file, more, ps, p, k);
    }
  }

  lemma {:induction false} PayloadsOfPrefix(ps: seq<Phys>, p: Phys, a: nat, b: nat)
    requires a <= b <= |ps|
    ensures Payloads(ps + [p], a, b) == Payloads(ps, a, b)
    decreases b
  {
    if a < b {
      PayloadsOfPrefix(ps, p, a, b - 1);
    }
  }

  /** The fragments written so far of an unfinished record: the first `done` bytes. */
  ghost predicate Partial(ps: seq<Phys>, a: nat, record: Bytes, done: nat) {
    && a <= |ps| && done <= |record| && Payloads(ps, a, |ps|) == record[..done]
    && forall k :: a <= k < |ps| ==> ps[k].kind == if k == a then First else Middle
  }

  lemma ExtendPartial(ps: seq<Phys>, a: nat, record: Bytes, done: nat, p: Phys)
    requires Partial(ps, a, record, done) && done + |p.payload| <= |record|
    requires p.payload == record[done..done + |p.payload|]
    requires p.kind == if a == |ps| then First else Middle
    ensures Partial(ps + [p], a, record, done + |p.payload|)
  {
    PayloadsOfPrefix(ps, p, a, |ps|);
    assert (ps + [p])[|ps|] == p;
    assert record[..done] + p.payload == record[..done + |p.payload|];
  }

  lemma FinishPartial(ps: seq<Phys>, a: nat, record: Bytes, done: nat, p: Phys)
    requires Partial(ps, a, record, done) && p.payload == record[done..]
    requires p.kind == if a == |ps| then Full else Last
    ensures IsRecord(ps + [p], a, |ps| + 1, record)
  {
    PayloadsOfPrefix(ps, p, a, |ps|);
    assert (ps + [p])[|ps|] == p;
    assert record[..done] + record[done..] == record;
  }

  lemma FragmentDone(ps: seq<Phys>, a: nat, record: Bytes, at: nat, p: Phys)
    requires Partial(ps, a, record, at) && at + |p.payload| <= |record| && p.payload == record[at..at + |p.payload|]
    requires var last := at + |p.payload| == |record|;
      p.kind == if a == |ps| && last then Full else if a == |ps| then First else if last then Last else Middle
    ensures if at + |p.payload| == |record| then IsRecord(ps + [p], a, |ps| + 1, record)
      else Partial(ps + [p], a, record, at + |p.payload|)
  {
    if at + |p.payload| == |record| {
      assert p.payload == record[at..];
      FinishPartial(ps, a, record, at, p);
    } else {
      ExtendPartial(ps, a, record, at, p);
    }
  }

  lemma {:induction false} LengthOfPrefix(records: seq<Bytes>, record: Bytes, n: nat)
    requires n <= |records|
    ensures LengthOf(records + [record], n) == LengthOf(records, n)
  {
    if n > 0 {
      LengthOfPrefix(records, record, n - 1);
    }
  }

  ghost predicate EndsAt(pos: nat, left: nat, end: nat) {
    EndOf(pos, left) == end
  }

  /** A log whose last record, from physical record `a` on, is still being written. */
  ghost predicate InProgress(crc: Crc, file: Bytes, ps: seq<Phys>, a: nat, ends: seq<nat>, records: seq<Bytes>) {
    IsLog(crc, file, ps) && AreRecords(ps, ends, records) && EndBefore(ends, |records|) == a
  }

  lemma StillEnds(ps: seq<Phys>, a: nat, b: nat, records: seq<Bytes>, record: Bytes, j: nat)
    requires j < |records| && EndsRecord(ps, a, b, records, j)
    ensures EndsRecord(ps, a, b, records + [record], j)
  {
    LengthOfPrefix(records, record, j + 1);
  }

  lemma NowEnds(ps: seq<Phys>, a: nat, b: nat, records: seq<Bytes>, record: Bytes)
    requires IsRecord(ps, a, b, record) && EndsAt(LengthOf(records, |records|), |record|, Start(ps, b))
    ensures EndsRecord(ps, a, b, records + [record], |records|)
  {
    LengthOfPrefix(records, record, |records|);
  }

  /** Adding the last record's end to the ends of the earlier ones. */
  lemma EndRecord(ends: seq<nat>, records: seq<Bytes>, ps: seq<Phys>, record: Bytes)
    requires AreRecords(ps, ends, records)
    requires EndsRecord(ps, EndBefore(ends, |records|), |ps|, records + [record], |records|)
    ensures AreRecords(ps, ends + [|ps|], records + [record])
  {
    var ends', all := ends + [|ps|], records + [record];
    forall j | 0 <= j < |all| ensures EndsRecord(ps, EndBefore(ends', j), ends'[j], all, j) {
      assert EndBefore(ends', j) == EndBefore(ends, j);
      if j < |records| {
        StillEnds(ps, EndBefore(ends, j), ends[j], records, record, j);
      }
    }
  }

  lemma FinishRecord(
    crc: Crc, file: Bytes, ps: seq<Phys>, a: nat, ends: seq<nat>, records: seq<Bytes>, record: Bytes, start: nat)
    requires InProgress(crc, file, ps, a, ends, records) && IsRecord(ps, a, |ps|, record)
    requires start == LengthOf(records, |records|) && EndsAt(start, |record|, |file|)
    ensures Wrote(crc, file, Shape(ps, ends + [|ps|]), records + [record])
  {
    NowEnds(ps, a, |ps|, records, record);
    EndRecord(ends, records, ps, record);
  }

  ghost predicate Wrote(crc: Crc, file: Bytes, shape: Shape, records: seq<Bytes>) {
    Holds(crc, file, shape, records) && |file| == LengthOf(records, |records|)
  }

  lemma StillEndsRecord(ps: seq<Phys>, p: Phys, a: nat, b: nat, records: seq<Bytes>, j: nat)
    requires j < |records| && EndsRecord(ps, a, b, records, j)
    ensures EndsRecord(ps + [p], a, b, records, j)
  {
    PayloadsOfPrefix(ps, p, a, b);
    StartOfPrefix(ps, p, b);
  }

  lemma StillRecords(ps: seq<Phys>, p: Phys, ends: seq<nat>, records: seq<Bytes>)
    requires AreRecords(ps, ends, records)
    ensures AreRecords(ps + [p], ends, records)
  {
    forall j | 0 <= j < |records| ensures EndsRecord(ps + [p], EndBefore(ends, j), ends[j], records, j) {
      StillEndsRecord(ps, p, EndBefore(ends, j), ends[j], records, j);
    }
  }

  lemma StillInProgress(
    crc: Crc, file: Bytes, zeros: Bytes, ps: seq<Phys>, p: Phys, a: nat, ends: seq<nat>, records: seq<Bytes>)
    requires InProgress(crc, file, ps, a, ends, records) && |p.payload| <= Available(|file|)
    requires |zeros| == PadLength(|file|) && (forall i :: 0 <= i < |zeros| ==> zeros[i] == 0)
    ensures InProgress(crc, file + zeros + Header(crc, p) + p.payload, ps + [p], a, ends, records)
  {
    AppendPhysical(crc, file, zeros, ps, p);
    StillRecords(ps, p, ends, records);
  }

  lemma OffsetInBlock(length: nat, offset: nat)
    requires offset <= BLOCK_SIZE && offset <= length && (length - offset) % BLOCK_SIZE == 0
    ensures length % BLOCK_SIZE == if offset == BLOCK_SIZE then 0 else offset
  {
    var q := (length - offset) / BLOCK_SIZE;
    assert length == q * BLOCK_SIZE + offset;
  }

  class Writer {
    const crc: Crc
    var file: Bytes
    var blockOffset: nat
    ghost var shape: Shape
    ghost var records: seq<Bytes>

    constructor (crc: Crc)
      ensures this.crc == crc && Valid() && file == [] && records == []
    {
      this.crc, file, blockOffset := crc, [], 0;
      shape, records := Shape([], []), [];
    }

    ghost predicate Valid()
      reads this
    {
      Wrote(crc, file, shape, records) && AtOffset()
    }

    /** A full block counts as offset 32768 until the next record switches blocks. */
    ghost predicate AtOffset()
      reads this
    {
      blockOffset <= BLOCK_SIZE && blockOffset <= |file| && (|file| - blockOffset) % BLOCK_SIZE == 0
    }

    method EmitPhysicalRecord(kind: RecordType, payload: Bytes)
      requires AtOffset() && blockOffset + HEADER_SIZE + |payload| <= BLOCK_SIZE
      modifies this`file, this`blockOffset
      ensures file == old(file) + Header(crc, Phys(kind, payload)) + payload
      ensures AtOffset()
    {
      var length := |payload|;
      var sum := Mask(crc.extend(crc.value([TypeByte(kind)]), payload));
      file := file + (EncodeFixed32(sum) + [length % 256, length / 256, TypeByte(kind)]);
      file := file + payload;
      blockOffset := blockOffset + HEADER_SIZE + length;
    }

    /** The start of the loop body in AddRecord: switch to a new block if no header fits. */
    method SwitchBlock() returns (ghost zeros: Bytes)
      requires AtOffset()
      modifies this`file, this`blockOffset
      ensures |zeros| == PadLength(old(|file|)) && (forall i :: 0 <= i < |zeros| ==> zeros[i] == 0)
        && file == old(file) + zeros
      ensures blockOffset == |file| % BLOCK_SIZE && blockOffset + HEADER_SIZE <= BLOCK_SIZE
      ensures |file| == Aligned(old(|file|))
    {
      var leftover := BLOCK_SIZE - blockOffset;
      zeros := [];
      OffsetInBlock(|file|, blockOffset);
      if leftover < HEADER_SIZE {
        if leftover > 0 {
          zeros := seq(leftover, i => 0);
          file := file + seq(leftover, i => 0);
        }
        blockOffset := 0;
      }
    }

    /** The loop body of AddRecord: writes the next fragment of the record. */
    method WriteFragment(record: Bytes, left: nat, begin: bool) returns (length: nat, ghost zeros: Bytes, ghost p: Phys)
      requires AtOffset() && left <= |record|
      modifies this`file, this`blockOffset
      ensures |p.payload| < 0x1_0000 && AtOffset() && file == old(file) + zeros + Header(crc, p) + p.payload
      ensures |zeros| == PadLength(old(|file|)) && forall i :: 0 <= i < |zeros| ==> zeros[i] == 0
      ensures length == (if left < Available(old(|file|)) then left else Available(old(|file|)))
      ensures p.payload == record[|record| - left..|record| - left + length]
      ensures p.kind ==
        if begin && left == length then Full else if begin then First else if left == length then Last else Middle
    {
      zeros := SwitchBlock();
      var avail := BLOCK_SIZE - blockOffset - HEADER_SIZE;
      length := if left < avail then left else avail;
      var end := left == length;
      var kind := if begin && end then Full else if begin then First else if end then Last else Middle;
      var at := |record| - left;
      var payload := record[at..at + length];
      EmitPhysicalRecord(kind, payload);
      p := Phys(kind, payload);
    }

    method EmitFragment(record: Bytes, left: nat, begin: bool, ghost ps: seq<Phys>, ghost a: nat, ghost end: nat)
      returns (length: nat, ghost ps': seq<Phys>)
      requires AtOffset() && InProgress(crc, file, ps, a, shape.ends, records) && left <= |record|
      requires Partial(ps, a, record, |record| - left) && begin == (|ps| == a) && EndsAt(|file|, left, end)
      modifies this`file, this`blockOffset
      ensures AtOffset() && InProgress(crc, file, ps', a, shape.ends, records) && old(file) <= file && a < |ps'|
      ensures length <= left
      ensures if length == left then IsRecord(ps', a, |ps'|, record) && |file| == end
              else Partial(ps', a, record, |record| - left + length) && EndsAt(|file|, left - length, end)
                   && Rank(|file|, left - length) < Rank(old(|file|), left)
    {
      ghost var before, p, zeros := file, Phys(Full, []), [];
      length, zeros, p := WriteFragment(record, left, begin);
      ps' := ps + [p];
      StillInProgress(crc, before, zeros, ps, p, a, shape.ends, records);
      EndOfStep(|before|, left, length);
      FragmentDone(ps, a, record, |record| - left, p);
    }

    /** The loop of AddRecord. */
    method EmitFragments(record: Bytes) returns (ghost ps: seq<Phys>)
      requires AtOffset() && Holds(crc, file, shape, records)
      modifies this`file, this`blockOffset
      ensures AtOffset() && InProgress(crc, file, ps, |shape.ps|, shape.ends, records)
      ensures IsRecord(ps, |shape.ps|, |ps|, record) && old(file) <= file && EndsAt(old(|file|), |record|, |file|)
    {
      var left, begin := |record|, true;
      ghost var a, end := |shape.ps|, EndOf(|file|, |record|);
      ps := shape.ps;
      while true
        invariant old(file) <= file && left <= |record|
        invariant AtOffset() && InProgress(crc, file, ps, a, shape.ends, records)
        invariant Partial(ps, a, record, |record| - left) && begin == (|ps| == a)
        invariant EndsAt(|file|, left, end)
        decreases Rank(|file|, left)
      {
        var length;
        length, ps := EmitFragment(record, left, begin, ps, a, end);
        left := left - length;
        begin := false;
        if left == 0 { break; }
      }
    }

    /** Appends one record; the file keeps its earlier bytes and now holds the record as well. */
    method AddRecord(record: Bytes)
      requires Valid()
      modifies this
      ensures Valid() && records == old(records) + [record] && old(file) <= file
      ensures |file| == EndOf(old(|file|), |record|)
    {
      ghost var ps := EmitFragments(record);
      FinishRecord(crc, file, ps, |shape.ps|, shape.ends, records, record, old(|file|));
      ghost var shape', records' := Shape(ps, shape.ends + [|ps|]), records + [record];
      records, shape := records', shape';
    }
  }
}
