/** The log reader, on any bytes whatever, and what it makes of a truncated log. */
module LogReading {
  import opened Coding
  import opened LogFormat
  import opened Wrappers

  /** `readPos` bytes of the file were read, in blocks; the unread tail of the last block is in
      `buffer`; `drops` counts the corruptions reported. */
  datatype Position = Position(readPos: nat, buffer: Bytes, eof: bool, drops: nat)

  datatype Outcome = Fragment(kind: Byte, data: Bytes) | Eof | Bad

  ghost predicate InFile(file: Bytes, st: Position) {
    |st.buffer| <= st.readPos <= |file|
  }

  function Remaining(file: Bytes, st: Position): (r: int) {
    |file| - st.readPos + |st.buffer|
  }

  function Min(a: nat, b: nat): (r: nat) { if a < b then a else b }

  /** Reads the next block into the buffer. */
  function LoadBlock(file: Bytes, st: Position): (r: Position)
    requires st.readPos <= |file|
  {
    var end := Min(st.readPos + BLOCK_SIZE, |file|);
    Position(end, file[st.readPos..end], end - st.readPos < BLOCK_SIZE, st.drops)
  }

  function LengthField(buffer: Bytes): (r: nat)
    requires |buffer| >= HEADER_SIZE
  {
    (buffer[4] as int) + (buffer[5] as int) * 256
  }

  /** Takes one physical record off a buffer that has room for a header. */
  function TakePhysical(crc: Crc, st: Position): (r: (Outcome, Position))
    requires |st.buffer| >= HEADER_SIZE
  {
    var buffer, length := st.buffer, LengthField(st.buffer);
    if HEADER_SIZE + length > |buffer| then
      if st.eof then (Eof, st.(buffer := [])) else (Bad, st.(buffer := [], drops := st.drops + 1))
    else if buffer[6] == 0 && length == 0 then (Bad, st.(buffer := []))
    else if crc.value(buffer[6..HEADER_SIZE + length]) != Unmask(DecodeFixed32(buffer)) then
      (Bad, st.(buffer := [], drops := st.drops + 1))
    else (Fragment(buffer[6], buffer[HEADER_SIZE..HEADER_SIZE + length]), st.(buffer := buffer[HEADER_SIZE + length..]))
  }

  function Physical(crc: Crc, file: Bytes, st: Position): (r: (Outcome, Position))
    requires InFile(file, st)
    ensures InFile(file, r.1) && Remaining(file, r.1) <= Remaining(file, st)
    ensures !r.0.Eof? ==> Remaining(file, r.1) < Remaining(file, st)
  {
    var st' := if |st.buffer| < HEADER_SIZE && !st.eof then LoadBlock(file, st) else st;
    if |st'.buffer| < HEADER_SIZE then (Eof, st'.(buffer := [])) else TakePhysical(crc, st')
  }

  /** A record, the end, or more to read with the fragments collected so far. */
  datatype Verdict = Done(record: Option<Bytes>) | More(scratch: Bytes, inRecord: bool)

  /** What one physical record means to the record being assembled, and whether it is reported. */
  function Absorb(outcome: Outcome, scratch: Bytes, inRecord: bool): (r: (Verdict, nat)) {
    match outcome
    case Eof => (Done(None), 0)
    case Bad => (More([], false), if inRecord then 1 else 0)
    case Fragment(kind, data) =>
      var cut := if inRecord && scratch != [] then 1 else 0;
      if kind == TypeByte(Full) then (Done(Some(data)), cut)
      else if kind == TypeByte(First) then (More(data, true), cut)
      else if kind == TypeByte(Middle) then
        if inRecord then (More(scratch + data, true), 0) else (More(scratch, false), 1)
      else if kind == TypeByte(Last) then
        if inRecord then (Done(Some(scratch + data)), 0) else (More(scratch, false), 1)
      else (More([], false), 1)
  }

  /** A source of physical records, of which the block reader is one. */
  type Source = Position -> (Outcome, Position)

  ghost function BlockReader(crc: Crc, file: Bytes): (r: Source) {
    st => if InFile(file, st) then Physical(crc, file, st) else (Eof, st)
  }

  ghost predicate Inside(n: nat, st: Position) {
    |st.buffer| <= st.readPos <= n
  }

  function Left(n: nat, st: Position): (r: int) {
    n - st.readPos + |st.buffer|
  }

  /** The source stays inside its `n` bytes and uses some up with every record. */
  ghost predicate Progresses(n: nat, source: Source) {
    forall st ::
      Inside(n, st) ==> Inside(n, source(st).1) && (!source(st).0.Eof? ==> Left(n, source(st).1) < Left(n, st))
  }

  lemma BlockReaderProgresses(crc: Crc, file: Bytes)
    ensures Progresses(|file|, BlockReader(crc, file))
  {
    forall st | Inside(|file|, st)
      ensures var r := BlockReader(crc, file)(st);
        Inside(|file|, r.1) && (!r.0.Eof? ==> Left(|file|, r.1) < Left(|file|, st))
    {
      assert InFile(file, st);
    }
  }

  /** Reads one physical record and absorbs it. */
  ghost function Step(source: Source, st: Position, scratch: Bytes, inRecord: bool): (r: (Verdict, Position)) {
    var read := source(st);
    var absorbed := Absorb(read.0, scratch, inRecord);
    (absorbed.0, read.1.(drops := read.1.drops + absorbed.1))
  }

  /** Assembles the next logical record. */
  ghost function Logical(
    n: nat, source: Source, st: Position, scratch: Bytes, inRecord: bool): (r: (Option<Bytes>, Position))
    requires Progresses(n, source) && Inside(n, st)
    ensures Inside(n, r.1) && (r.0.Some? ==> Left(n, r.1) < Left(n, st))
    decreases Left(n, st)
  {
    var step := Step(source, st, scratch, inRecord);
    if step.0.Done? then (step.0.record, step.1) else Logical(n, source, step.1, step.0.scratch, step.0.inRecord)
  }

  lemma LogicalStep(
    n: nat, source: Source, st: Position, scratch: Bytes, inRecord: bool, verdict: Verdict, next: Position)
    requires Progresses(n, source) && Inside(n, st) && (verdict, next) == Step(source, st, scratch, inRecord)
    ensures verdict.Done? ==> Logical(n, source, st, scratch, inRecord) == (verdict.record, next)
    ensures verdict.More? ==>
      Inside(n, next) && Logical(n, source, st, scratch, inRecord)
        == Logical(n, source, next, verdict.scratch, verdict.inRecord)
    ensures verdict.More? ==> Left(n, next) < Left(n, st)
  {
  }

  /** One call of ReadRecord: from `st` it returns `record` and leaves the reader at `next`. */
  ghost predicate Call(n: nat, source: Source, st: Position, record: Option<Bytes>, next: Position)
    requires Progresses(n, source)
  {
    Inside(n, st) && Logical(n, source, st, [], false) == (record, next)
  }

  /** Successive calls of ReadRecord, stopping at `stops` in between, returned `records`. */
  ghost predicate Calls(n: nat, source: Source, stops: seq<Position>, records: seq<Bytes>)
    requires Progresses(n, source)
  {
    && |stops| == |records| + 1
    && forall i {:trigger records[i]} ::
      0 <= i < |records| ==> Call(n, source, stops[i], Some(records[i]), stops[i + 1])
  }

  lemma OneMoreCall(n: nat, source: Source, stops: seq<Position>, records: seq<Bytes>, record: Bytes, next: Position)
    requires Progresses(n, source) && Calls(n, source, stops, records)
    requires Call(n, source, stops[|records|], Some(record), next)
    ensures Calls(n, source, stops + [next], records + [record])
  {
  }

  const START := Position(0, [], false, 0)

  class Reader {
    const crc: Crc
    const file: Bytes
    var readPos: nat
    var buffer: Bytes
    var eof: bool
    var drops: nat

    constructor (crc: Crc, file: Bytes)
      ensures this.crc == crc && this.file == file && At() == START && Valid()
    {
      this.crc, this.file := crc, file;
      readPos, buffer, eof, drops := 0, [], false, 0;
    }

    ghost function At(): (r: Position)
      reads this
    {
      Position(readPos, buffer, eof, drops)
    }

    ghost predicate Valid()
      reads this
    {
      InFile(file, At())
    }

    method ReportCorruption()
      modifies this`drops
      ensures drops == old(drops) + 1
    {
      drops := drops + 1;
    }

    method ReadPhysicalRecord() returns (outcome: Outcome)
      requires Valid()
      modifies this
      ensures Valid() && (outcome, At()) == Physical(crc, file, old(At()))
    {
      while |buffer| < HEADER_SIZE
        invariant Valid()
          && (At() == old(At()) || (old(|buffer|) < HEADER_SIZE && !old(eof) && At() == LoadBlock(file, old(At()))))
        decreases |file| - readPos + if eof then 0 else 1
      {
        if !eof {
          // The last read was a full one, so this is a trailer to skip.
          var end := if readPos + BLOCK_SIZE < |file| then readPos + BLOCK_SIZE else |file|;
          buffer := file[readPos..end];
          eof := end - readPos < BLOCK_SIZE;
          readPos := end;
        } else {
          // A truncated header at the end of the file is not an error.
          buffer := [];
          return Eof;
        }
      }
      var length := LengthField(buffer);
      if HEADER_SIZE + length > |buffer| {
        buffer := [];
        if !eof {
          ReportCorruption();
          return Bad;
        }
        // The writer died in the middle of writing the record.
        return Eof;
      }
      if buffer[6] == 0 && length == 0 {
        buffer := [];
        return Bad;
      }
      if crc.value(buffer[6..HEADER_SIZE + length]) != Unmask(DecodeFixed32(buffer)) {
        buffer := [];
        ReportCorruption();
        return Bad;
      }
      outcome := Fragment(buffer[6], buffer[HEADER_SIZE..HEADER_SIZE + length]);
      buffer := buffer[HEADER_SIZE + length..];
    }

    /** The switch in ReadRecord. */
    method Assemble(outcome: Outcome, scratch: Bytes, inRecord: bool) returns (verdict: Verdict)
      modifies this`drops
      ensures (verdict, drops - old(drops)) == Absorb(outcome, scratch, inRecord)
    {
      match outcome
      case Eof => return Done(None);
      case Bad =>
        if inRecord { ReportCorruption(); }
        return More([], false);
      case Fragment(kind, data) =>
        if kind == TypeByte(Full) {
          if inRecord && scratch != [] { ReportCorruption(); }
          return Done(Some(data));
        } else if kind == TypeByte(First) {
          if inRecord && scratch != [] { ReportCorruption(); }
          return More(data, true);
        } else if kind == TypeByte(Middle) {
          if !inRecord {
            ReportCorruption();
            return More(scratch, false);
          }
          return More(scratch + data, true);
        } else if kind == TypeByte(Last) {
          if !inRecord {
            ReportCorruption();
            return More(scratch, false);
          }
          return Done(Some(scratch + data));
        } else {
          ReportCorruption();
          return More([], false);
        }
    }

    method ReadAndAssemble(scratch: Bytes, inRecord: bool) returns (verdict: Verdict)
      requires Valid()
      modifies this
      ensures Valid() && (verdict, At()) == Step(BlockReader(crc, file), old(At()), scratch, inRecord)
    {
      var outcome := ReadPhysicalRecord();
      verdict := Assemble(outcome, scratch, inRecord);
    }

    method ReadRecord() returns (record: Option<Bytes>)
      requires Valid() && Progresses(|file|, BlockReader(crc, file))
      modifies this
      ensures Valid() && Call(|file|, BlockReader(crc, file), old(At()), record, At())
      ensures record.Some? ==> Left(|file|, At()) < Left(|file|, old(At()))
    {
      var scratch: Bytes, inRecord := [], false;
      ghost var n, source := |file|, BlockReader(crc, file);
      ghost var want := Logical(n, source, At(), [], false);
      while true
        invariant Valid() && Logical(n, source, At(), scratch, inRecord) == want
        decreases Left(n, At())
      {
        ghost var st := At();
        var verdict := ReadAndAssemble(scratch, inRecord);
        LogicalStep(n, source, st, scratch, inRecord, verdict, At());
        if verdict.Done? {
          return verdict.record;
        }
        scratch, inRecord := verdict.scratch, verdict.inRecord;
      }
    }

    /** The reading loop of log recovery: it calls until the end is reported. */
    method ReadAll() returns (records: seq<Bytes>, ghost stops: seq<Position>)
      requires Valid() && Progresses(|file|, BlockReader(crc, file))
      modifies this
      ensures Valid() && Calls(|file|, BlockReader(crc, file), stops, records) && stops[0] == old(At())
      ensures Call(|file|, BlockReader(crc, file), stops[|records|], None, At())
    {
      ghost var n, source := |file|, BlockReader(crc, file);
      records := [];
      stops := [At()];
      while true
        invariant Valid() && Calls(n, source, stops, records) && stops[0] == old(At()) && stops[|records|] == At()
        decreases Left(n, At())
      {
        var record := ReadRecord();
        if record.None? {
          return;
        }
        OneMoreCall(n, source, stops, records, record.value, At());
        stops := stops + [At()];
        records := records + [record.value];
      }
    }
  }
}
