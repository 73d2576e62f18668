/** What it means for a record to be in a log file, whoever wrote the bytes. */
module LogEvidence {
  import opened Coding
  import opened LogFormat
  import opened LogReading
  import opened LogTruncation
  import opened Wrappers

  /** The physical record is in the file at `at`, inside one block, under the header that a writer gives it. */
  ghost predicate StandsAt(crc: Crc, file: Bytes, at: nat, p: Phys) {
    && |p.payload| < 0x1_0000 && at % BLOCK_SIZE + HEADER_SIZE + |p.payload| <= BLOCK_SIZE
    && at + HEADER_SIZE + |p.payload| <= |file| && file[at..at + HEADER_SIZE] == Header(crc, p)
    && file[at + HEADER_SIZE..at + HEADER_SIZE + |p.payload|] == p.payload
  }

  /** Where the first `k` of the physical records end that follow one another from `from` on. */
  ghost function EndAfter(ps: seq<Phys>, from: nat, k: nat): (r: nat)
    requires k <= |ps|
  {
    if k == 0 then from else Aligned(EndAfter(ps, from, k - 1)) + HEADER_SIZE + |ps[k - 1].payload|
  }

  ghost predicate StandsInTurn(crc: Crc, file: Bytes, from: nat, ps: seq<Phys>, k: nat)
    requires k < |ps|
  {
    StandsAt(crc, file, Aligned(EndAfter(ps, from, k)), ps[k])
  }

  /** The physical records follow one another in the file from `from` to `end`. */
  ghost predicate Follow(crc: Crc, file: Bytes, from: nat, ps: seq<Phys>, end: int) {
    && EndAfter(ps, from, |ps|) == end
    && forall k {:trigger StandsInTurn(crc, file, from, ps, k)} ::
      0 <= k < |ps| ==> StandsInTurn(crc, file, from, ps, k)
  }

  /** The reader's buffer is a piece of the file inside one block. */
  ghost predicate Framed(file: Bytes, st: Position) {
    InFile(file, st) && Synced(file, Unread(st), st)
  }

  function KindOf(b: Byte): (r: Option<RecordType>)
    ensures r.Some? ==> TypeByte(r.value) == b
  {
    match b case 1 => Some(Full) case 2 => Some(First) case 3 => Some(Middle) case 4 => Some(Last) case _ => None
  }

  /** What taking one record off the buffer says about the file. */
  ghost predicate TookOne(crc: Crc, file: Bytes, end: int, r: (Outcome, Position)) {
    && Framed(file, r.1) && end <= Unread(r.1)
    && (r.0.Fragment? && KindOf(r.0.kind).Some? ==>
          var p := Phys(KindOf(r.0.kind).value, r.0.data);
          && end >= 0 && StandsAt(crc, file, Aligned(end), p)
          && Unread(r.1) == Aligned(end) + HEADER_SIZE + |p.payload|)
  }

  /** The fragments collected so far of a record that is not complete. */
  ghost predicate Collected(
    crc: Crc, file: Bytes, st: Position, scratch: Bytes, inRecord: bool, low: int, from: nat, ps: seq<Phys>)
  {
    inRecord ==>
      && low <= from && ps != [] && Follow(crc, file, from, ps, Unread(st)) && Payloads(ps, 0, |ps|) == scratch
      && forall k :: 0 <= k < |ps| ==> ps[k].kind == if k == 0 then First else Middle
  }

  /** A record whose fragments all stand in the file, one after the other, under headers that match. */
  ghost predicate Backed(crc: Crc, file: Bytes, low: int, end: int, record: Bytes, from: nat, ps: seq<Phys>) {
    low <= from && IsRecord(ps, 0, |ps|, record) && Follow(crc, file, from, ps, end)
  }

  /** A complete record is backed, and so are the fragments of one that is not. */
  ghost predicate Kept(
    crc: Crc, file: Bytes, low: int, step: (Verdict, Position), from: nat, ps: seq<Phys>)
  {
    match step.0
    case Done(record) => record.Some? ==> Backed(crc, file, low, Unread(step.1), record.value, from, ps)
    case More(scratch, inRecord) => Collected(crc, file, step.1, scratch, inRecord, low, from, ps)
  }

  /** A source each of whose physical records stands in the file. */
  ghost predicate Vouches(crc: Crc, file: Bytes, source: Source) {
    forall st {:trigger source(st)} :: Framed(file, st) ==> TookOne(crc, file, Unread(st), source(st))
  }
}
