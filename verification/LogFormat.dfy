/** The write-ahead log's on-disk format: fragments in 32 KiB blocks. */
module LogFormat {
  import opened Coding

  const BLOCK_SIZE: nat := 32768
  const HEADER_SIZE: nat := 7

  datatype RecordType = Full | First | Middle | Last

  function TypeByte(t: RecordType): (r: Byte) {
    match t case Full => 1 case First => 2 case Middle => 3 case Last => 4
  }

  /** CRC32C as an abstract function with its incremental form. */
  datatype Crc = Crc(value: Bytes -> Word, extend: (Word, Bytes) -> Word)

  ghost predicate Lawful(crc: Crc) {
    forall a, b :: crc.extend(crc.value(a), b) == crc.value(a + b)
  }

  /** The stored checksum is rotated right by 15 bits and offset by a constant. */
  function Mask(crc: Word): (r: Word) {
    (crc / 0x8000 + (crc % 0x8000) * 0x2_0000 + 0xa282ead8) % 0x1_0000_0000
  }

  function Unmask(masked: Word): (r: Word) {
    var rot := (masked - 0xa282ead8) % 0x1_0000_0000;
    rot / 0x2_0000 + (rot % 0x2_0000) * 0x8000
  }

  lemma UnmaskUndoesMask(crc: Word)
    ensures Unmask(Mask(crc)) == crc
  {
    var rotated := crc / 0x8000 + (crc % 0x8000) * 0x2_0000;
    assert (Mask(crc) - 0xa282ead8) % 0x1_0000_0000 == rotated;
    assert rotated / 0x2_0000 == crc % 0x8000 && rotated % 0x2_0000 == crc / 0x8000;
  }

  /** Masking is onto: a stored word is the mask of exactly one checksum. */
  lemma MaskUndoesUnmask(masked: Word)
    ensures Mask(Unmask(masked)) == masked
  {
    var rot := (masked - 0xa282ead8) % 0x1_0000_0000;
    var crc := Unmask(masked);
    assert crc / 0x8000 == rot % 0x2_0000 ==> crc % 0x8000 == rot / 0x2_0000;
    assert crc % 0x8000 == rot / 0x2_0000 && crc / 0x8000 == rot % 0x2_0000;
    assert crc / 0x8000 + (crc % 0x8000) * 0x2_0000 == rot;
  }

  // ---- Physical records and their places ----

  datatype Phys = Phys(kind: RecordType, payload: Bytes)

  function Header(crc: Crc, p: Phys): (h: Bytes)
    requires |p.payload| < 0x1_0000
    ensures |h| == HEADER_SIZE
  {
    EncodeFixed32(Mask(crc.extend(crc.value([TypeByte(p.kind)]), p.payload)))
      + [|p.payload| % 256, |p.payload| / 256, TypeByte(p.kind)]
  }

  /** A block's tail too short for a header is filled. */
  function PadLength(pos: nat): (r: nat) {
    var leftover := BLOCK_SIZE - pos % BLOCK_SIZE;
    if leftover < HEADER_SIZE then leftover else 0
  }

  /** Where a fragment written at `pos` starts after filling. */
  function Aligned(pos: nat): (at: nat)
    ensures at % BLOCK_SIZE + HEADER_SIZE <= BLOCK_SIZE
  {
    pos + PadLength(pos)
  }

  function Available(pos: nat): (r: nat) {
    BLOCK_SIZE - Aligned(pos) % BLOCK_SIZE - HEADER_SIZE
  }

  /** Where the `k`-th physical record begins, filling included. */
  ghost function Start(ps: seq<Phys>, k: nat): (r: nat)
    requires k <= |ps|
  {
    if k == 0 then 0 else Aligned(Start(ps, k - 1)) + HEADER_SIZE + |ps[k - 1].payload|
  }

  /** The physical record written at `pos` is in the file, after zeros, inside one block. */
  ghost predicate PlacedAt(crc: Crc, file: Bytes, pos: nat, p: Phys) {
    var at := Aligned(pos);
    && |p.payload| <= Available(pos) && at + HEADER_SIZE + |p.payload| <= |file|
    && (forall i :: pos <= i < at ==> file[i] == 0)
    && file[at..at + HEADER_SIZE] == Header(crc, p)
    && file[at + HEADER_SIZE..at + HEADER_SIZE + |p.payload|] == p.payload
  }

  ghost predicate Placed(crc: Crc, file: Bytes, ps: seq<Phys>, k: nat)
    requires k < |ps|
  {
    PlacedAt(crc, file, Start(ps, k), ps[k])
  }

  ghost predicate IsLog(crc: Crc, file: Bytes, ps: seq<Phys>) {
    && |file| == Start(ps, |ps|)
    && forall k :: 0 <= k < |ps| ==> Placed(crc, file, ps, k)
  }

  // ---- Logical records ----

  ghost function Payloads(ps: seq<Phys>, a: nat, b: nat): (r: Bytes)
    requires a <= b <= |ps|
  {
    if a == b then [] else Payloads(ps, a, b - 1) + ps[b - 1].payload
  }

  ghost function KindAt(a: nat, b: nat, k: nat): (r: RecordType) {
    if b == a + 1 then Full else if k == a then First else if k + 1 == b then Last else Middle
  }

  /** The physical records from `a` to `b` are the fragments of `record`. */
  ghost predicate IsRecord(ps: seq<Phys>, a: nat, b: nat, record: Bytes) {
    && a < b <= |ps| && Payloads(ps, a, b) == record
    && forall k :: a <= k < b ==> ps[k].kind == KindAt(a, b, k)
  }

  /** Where a record of `left` more bytes ends when its next fragment is written at `pos`. */
  ghost function EndOf(pos: nat, left: nat): (r: nat)
    decreases left, if Available(pos) == 0 then 1 else 0
  {
    if left <= Available(pos) then Aligned(pos) + HEADER_SIZE + left
    else EndOf(Aligned(pos) + HEADER_SIZE + Available(pos), left - Available(pos))
  }

  /** Filling a block leaves all of the next one. */
  lemma NextBlockIsEmpty(pos: nat)
    ensures Available(Aligned(pos) + HEADER_SIZE + Available(pos)) == BLOCK_SIZE - HEADER_SIZE
  {
    assert (Aligned(pos) + HEADER_SIZE + Available(pos)) % BLOCK_SIZE == 0;
  }

  /** What the loop that writes a record counts down. */
  ghost function Rank(pos: nat, left: nat): (r: nat) {
    2 * left + if Available(pos) == 0 then 1 else 0
  }

  lemma EndOfStep(pos: nat, left: nat, length: nat)
    requires length == if left < Available(pos) then left else Available(pos)
    ensures var next := Aligned(pos) + HEADER_SIZE + length;
      if length < left then EndOf(next, left - length) == EndOf(pos, left)
        && Rank(next, left - length) < Rank(pos, left)
      else next == EndOf(pos, left)
  {
    NextBlockIsEmpty(pos);
  }

  /** The length of a log of the first `n` records. */
  ghost function LengthOf(records: seq<Bytes>, n: nat): (r: nat)
    requires n <= |records|
  {
    if n == 0 then 0 else EndOf(LengthOf(records, n - 1), |records[n - 1]|)
  }

  /** The shape of a log: its physical records, and after which of them each logical record ends. */
  datatype Shape = Shape(ps: seq<Phys>, ends: seq<nat>)

  ghost function EndBefore(ends: seq<nat>, j: nat): (r: nat)
    requires j <= |ends|
  {
    if j == 0 then 0 else ends[j - 1]
  }

  /** Record `j` consists of the physical records from `a` to `b`, and ends where the format says. */
  ghost predicate EndsRecord(ps: seq<Phys>, a: nat, b: nat, records: seq<Bytes>, j: nat)
    requires j < |records|
  {
    IsRecord(ps, a, b, records[j]) && Start(ps, b) == LengthOf(records, j + 1)
  }

  ghost predicate AreRecords(ps: seq<Phys>, ends: seq<nat>, records: seq<Bytes>) {
    && |ends| == |records|
    && forall j {:trigger EndBefore(ends, j)} ::
      0 <= j < |records| ==> EndsRecord(ps, EndBefore(ends, j), ends[j], records, j)
  }

  ghost predicate Holds(crc: Crc, file: Bytes, shape: Shape, records: seq<Bytes>) {
    IsLog(crc, file, shape.ps) && AreRecords(shape.ps, shape.ends, records)
      && EndBefore(shape.ends, |records|) == |shape.ps|
  }
}
