/** A log cut off at any byte: the reader returns exactly the records that lie wholly inside. */
module LogTruncation {
  import opened Coding
  import opened LogFormat
  import opened LogReading
  import opened LogAssembly
  import opened LogDelivery
  import opened Wrappers

  /** Where the unread bytes in the buffer begin. */
  ghost function Unread(st: Position): (r: int) {
    st.readPos - |st.buffer|
  }

  /** The reader has consumed `k` physical records: the buffer holds the rest of its block. */
  ghost predicate Synced(file: Bytes, pos: nat, st: Position) {
    && InFile(file, st) && st.buffer == file[Unread(st)..st.readPos]
    && (Unread(st) == pos || Unread(st) == Aligned(pos))
    && Unread(st) % BLOCK_SIZE + |st.buffer| <= BLOCK_SIZE
    && if st.eof then st.readPos == |file|
       else
         && st.readPos % BLOCK_SIZE == 0
         && (Unread(st) % BLOCK_SIZE == 0 || Unread(st) % BLOCK_SIZE + |st.buffer| == BLOCK_SIZE)
  }

  ghost function Loaded(file: Bytes, st: Position): (r: Position)
    requires InFile(file, st)
  {
    if |st.buffer| < HEADER_SIZE && !st.eof then LoadBlock(file, st) else st
  }

  /** A load skips exactly the filling and starts the next record's block. */
  lemma LoadAligns(file: Bytes, pos: nat, st: Position)
    requires Synced(file, pos, st) && |st.buffer| < HEADER_SIZE && !st.eof
    ensures Synced(file, pos, LoadBlock(file, st)) && Unread(LoadBlock(file, st)) == Aligned(pos)
  {
    var at := Unread(st);
    var st' := LoadBlock(file, st);
    assert Unread(st') == st.readPos;
    assert st.readPos == Aligned(at) by {
      if at % BLOCK_SIZE != 0 {
        assert BLOCK_SIZE - at % BLOCK_SIZE == |st.buffer|;
      } else {
        assert |st.buffer| == 0 by { MultiplesApart(at, |st.buffer|); }
      }
    }
  }

  lemma MultiplesApart(a: nat, d: nat)
    requires a % BLOCK_SIZE == 0 && (a + d) % BLOCK_SIZE == 0 && d < HEADER_SIZE
    ensures d == 0
  {
  }

  lemma HeaderParses(crc: Crc, p: Phys, buffer: Bytes)
    requires |p.payload| < 0x1_0000 && |buffer| >= HEADER_SIZE && buffer[..HEADER_SIZE] == Header(crc, p)
    ensures LengthField(buffer) == |p.payload| && buffer[6] == TypeByte(p.kind)
    ensures Unmask(DecodeFixed32(buffer)) == crc.extend(crc.value([TypeByte(p.kind)]), p.payload)
  {
    var sum := crc.extend(crc.value([TypeByte(p.kind)]), p.payload);
    var h, fixed := Header(crc, p), EncodeFixed32(Mask(sum));
    assert forall i :: 0 <= i < HEADER_SIZE ==> buffer[i] == buffer[..HEADER_SIZE][i] == h[i];
    assert h[..4] == fixed;
    assert forall i :: 0 <= i < 4 ==> h[i] == h[..4][i] == fixed[i];
    assert DecodeFixed32(buffer) == DecodeFixed32(fixed);
    Fixed32RoundTrip(Mask(sum));
    UnmaskUndoesMask(sum);
  }

  /** A whole record at the front of the buffer is taken off. */
  lemma TakesRecord(crc: Crc, p: Phys, st: Position)
    requires Lawful(crc) && |p.payload| < 0x1_0000 && |st.buffer| >= HEADER_SIZE + |p.payload|
    requires st.buffer[..HEADER_SIZE] == Header(crc, p)
    requires st.buffer[HEADER_SIZE..HEADER_SIZE + |p.payload|] == p.payload
    ensures TakePhysical(crc, st)
      == (Fragment(TypeByte(p.kind), p.payload), st.(buffer := st.buffer[HEADER_SIZE + |p.payload|..]))
  {
    HeaderParses(crc, p, st.buffer);
    assert st.buffer[6..HEADER_SIZE + |p.payload|] == [TypeByte(p.kind)] + p.payload;
  }

  /** A buffer with room for a header starts at the record itself. */
  lemma StandsAtRecord(file: Bytes, pos: nat, st: Position)
    requires Synced(file, pos, st) && |st.buffer| >= HEADER_SIZE
    ensures Unread(st) == Aligned(pos)
  {
  }

  /** What the buffer shows of the record it stands at. */
  lemma BufferShows(crc: Crc, file: Bytes, whole: Bytes, at: nat, st: Position, p: Phys)
    requires file <= whole && |p.payload| < 0x1_0000 && InFile(file, st) && Unread(st) == at
    requires st.buffer == file[at..st.readPos] && |st.buffer| >= HEADER_SIZE
    requires at + HEADER_SIZE + |p.payload| <= |whole| && whole[at..at + HEADER_SIZE] == Header(crc, p)
    requires whole[at + HEADER_SIZE..at + HEADER_SIZE + |p.payload|] == p.payload
    ensures st.buffer[..HEADER_SIZE] == Header(crc, p)
    ensures HEADER_SIZE + |p.payload| <= |st.buffer| ==> st.buffer[HEADER_SIZE..HEADER_SIZE + |p.payload|] == p.payload
  {
    assert st.buffer[..HEADER_SIZE] == whole[at..at + HEADER_SIZE];
    if HEADER_SIZE + |p.payload| <= |st.buffer| {
      var n := HEADER_SIZE + |p.payload|;
      forall i | HEADER_SIZE <= i < n ensures st.buffer[i] == whole[at + i] {
      }
      assert st.buffer[HEADER_SIZE..n] == whole[at + HEADER_SIZE..at + n];
    }
  }

  /** Before the end of the file the buffer holds the whole rest of its block. */
  lemma WholeBlock(file: Bytes, pos: nat, st: Position)
    requires Synced(file, pos, st) && !st.eof && |st.buffer| >= HEADER_SIZE
    ensures Unread(st) % BLOCK_SIZE + |st.buffer| == BLOCK_SIZE
  {
  }

  lemma TakeWhole(crc: Crc, file: Bytes, ps: seq<Phys>, k: nat, st: Position)
    requires Lawful(crc) && k < |ps| && |ps[k].payload| < 0x1_0000 && Synced(file, Start(ps, k), st)
    requires Unread(st) == Aligned(Start(ps, k))
    requires |st.buffer| >= HEADER_SIZE + |ps[k].payload| && st.buffer[..HEADER_SIZE] == Header(crc, ps[k])
    requires st.buffer[HEADER_SIZE..HEADER_SIZE + |ps[k].payload|] == ps[k].payload
    ensures TakenOff(file, ps, k, st, TakePhysical(crc, st))
  {
    TakesRecord(crc, ps[k], st);
    SyncedAfter(file, Start(ps, k), st, HEADER_SIZE + |ps[k].payload|);
  }

  lemma TakeCut(crc: Crc, file: Bytes, ps: seq<Phys>, k: nat, st: Position)
    requires k < |ps| && |ps[k].payload| <= Available(Start(ps, k)) && Synced(file, Start(ps, k), st)
    requires Unread(st) == Aligned(Start(ps, k))
    requires HEADER_SIZE <= |st.buffer| < HEADER_SIZE + |ps[k].payload|
    requires st.buffer[..HEADER_SIZE] == Header(crc, ps[k])
    ensures TakenOff(file, ps, k, st, TakePhysical(crc, st))
  {
    HeaderParses(crc, ps[k], st.buffer);
    if !st.eof {
      WholeBlock(file, Start(ps, k), st);
      assert false;
    }
  }

  lemma TakeOnLog(crc: Crc, file: Bytes, whole: Bytes, ps: seq<Phys>, k: nat, st: Position)
    requires Lawful(crc) && file <= whole && k < |ps| && Placed(crc, whole, ps, k)
    requires Synced(file, Start(ps, k), st) && |st.buffer| >= HEADER_SIZE
    ensures TakenOff(file, ps, k, st, TakePhysical(crc, st))
  {
    StandsAtRecord(file, Start(ps, k), st);
    BufferShows(crc, file, whole, Aligned(Start(ps, k)), st, ps[k]);
    if HEADER_SIZE + |ps[k].payload| <= |st.buffer| {
      TakeWhole(crc, file, ps, k, st);
    } else {
      TakeCut(crc, file, ps, k, st);
    }
  }

  /** The next record if it is whole, and otherwise the end without a report. */
  ghost predicate TakenOff(file: Bytes, ps: seq<Phys>, k: nat, st: Position, r: (Outcome, Position))
    requires k < |ps|
  {
    && r.1.drops == st.drops
    && if Start(ps, k + 1) <= |file| then r.0 == Fragment(TypeByte(ps[k].kind), ps[k].payload)
      && Synced(file, Start(ps, k + 1), r.1)
       else r.0.Eof?
  }

  lemma SyncedAfter(file: Bytes, pos: nat, st: Position, n: nat)
    requires Synced(file, pos, st) && HEADER_SIZE <= n <= |st.buffer|
    ensures Synced(file, Unread(st) + n, st.(buffer := st.buffer[n..]))
  {
    var st' := st.(buffer := st.buffer[n..]);
    assert Unread(st') == Unread(st) + n;
    assert st'.buffer == file[Unread(st')..st.readPos];
    OffsetMoves(Unread(st), n, |st.buffer|);
  }

  lemma OffsetMoves(at: nat, n: nat, size: nat)
    requires at % BLOCK_SIZE + size <= BLOCK_SIZE && 0 < n <= size
    ensures (at + n) % BLOCK_SIZE == if at % BLOCK_SIZE + n == BLOCK_SIZE then 0 else at % BLOCK_SIZE + n
  {
    var q := at / BLOCK_SIZE;
    assert at == q * BLOCK_SIZE + at % BLOCK_SIZE;
    if at % BLOCK_SIZE + n == BLOCK_SIZE {
      assert at + n == (q + 1) * BLOCK_SIZE;
    }
  }

  /** The file is a log cut off somewhere. */
  ghost predicate CutLog(crc: Crc, file: Bytes, whole: Bytes, ps: seq<Phys>) {
    Lawful(crc) && file <= whole && IsLog(crc, whole, ps)
  }

  /** Reading on from `k` consumed records gives record `k` while the file holds it, then the end. */
  lemma PhysicalOnLog(crc: Crc, file: Bytes, whole: Bytes, ps: seq<Phys>, k: nat, st: Position)
    requires CutLog(crc, file, whole, ps) && k <= |ps| && Synced(file, Start(ps, k), st)
    ensures var r := Physical(crc, file, st);
      if k < |ps| then TakenOff(file, ps, k, st, r) else r.0.Eof? && r.1.drops == st.drops
  {
    var pos := Start(ps, k);
    if |st.buffer| < HEADER_SIZE && !st.eof {
      LoadAligns(file, pos, st);
    }
    var st' := Loaded(file, st);
    if k == |ps| {
      assert |st'.buffer| == 0;
    } else if |st'.buffer| >= HEADER_SIZE {
      assert Placed(crc, whole, ps, k);
      TakeOnLog(crc, file, whole, ps, k, st');
    } else {
      assert Start(ps, k + 1) > |file|;
    }
  }

  lemma {:induction false} StartsIncrease(ps: seq<Phys>, a: nat, b: nat)
    requires a <= b <= |ps|
    ensures Start(ps, a) <= Start(ps, b)
    decreases b
  {
    if a < b {
      StartsIncrease(ps, a, b - 1);
    }
  }

  /** What a cut log shows: where the reader stands, and which physical records the cut spares. */
  ghost function CutView(file: Bytes, ps: seq<Phys>): (r: View) {
    View((k: nat, st: Position) => k <= |ps| && st.drops == 0 && Synced(file, Start(ps, k), st),
         (k: nat) => k < |ps| && Start(ps, k + 1) <= |file|)
  }

  lemma CutDelivered(crc: Crc, file: Bytes, whole: Bytes, ps: seq<Phys>, k: nat, st: Position, r: (Outcome, Position))
    requires CutLog(crc, file, whole, ps) && CutView(file, ps).stands(k, st) && r == BlockReader(crc, file)(st)
    ensures k <= |ps| && Inside(|file|, st) && st.drops == 0 && Delivered(ps, CutView(file, ps), 0, k, r)
  {
    PhysicalOnLog(crc, file, whole, ps, k, st);
  }

  lemma CutIsMonotone(file: Bytes, ps: seq<Phys>, j: nat, k: nat)
    requires j <= k && CutView(file, ps).inside(k)
    ensures CutView(file, ps).inside(j)
  {
    StartsIncrease(ps, j + 1, k + 1);
  }

  /** The block reader delivers exactly the physical records that the cut spares. */
  lemma CutLogDelivers(crc: Crc, file: Bytes, whole: Bytes, ps: seq<Phys>)
    requires CutLog(crc, file, whole, ps)
    ensures Delivers(|file|, BlockReader(crc, file), ps, CutView(file, ps), 0)
  {
    var view, source := CutView(file, ps), BlockReader(crc, file);
    BlockReaderProgresses(crc, file);
    forall k: nat, st | view.stands(k, st)
      ensures k <= |ps| && Inside(|file|, st) && st.drops == 0 && Delivered(ps, view, 0, k, source(st))
    {
      CutDelivered(crc, file, whole, ps, k, st, source(st));
    }
    forall j: nat, k: nat | j <= k && view.inside(k) ensures view.inside(j) {
      CutIsMonotone(file, ps, j, k);
    }
  }

  /** A record is spared by the cut exactly if it ends by it. */
  lemma WholeMeans(file: Bytes, shape: Shape, records: seq<Bytes>, j: nat)
    requires AreRecords(shape.ps, shape.ends, records) && j < |records|
    ensures Whole(CutView(file, shape.ps), shape.ends, j) <==> LengthOf(records, j + 1) <= |file|
  {
    assert EndsRecord(shape.ps, EndBefore(shape.ends, j), shape.ends[j], records, j);
    assert Start(shape.ps, shape.ends[j] - 1 + 1) == LengthOf(records, j + 1);
  }

  ghost predicate EndsBy(records: seq<Bytes>, i: nat, n: nat)
    requires i < |records|
  {
    LengthOf(records, i + 1) <= n
  }

  lemma StartStands(file: Bytes, ps: seq<Phys>)
    ensures CutView(file, ps).stands(0, START)
  {
    assert Synced(file, 0, START);
  }

  lemma WholeMeansForAll(file: Bytes, shape: Shape, records: seq<Bytes>)
    requires AreRecords(shape.ps, shape.ends, records)
    ensures forall i :: 0 <= i < |records| ==>
      (Whole(CutView(file, shape.ps), shape.ends, i) <==> EndsBy(records, i, |file|))
  {
    forall i | 0 <= i < |records|
      ensures Whole(CutView(file, shape.ps), shape.ends, i) <==> EndsBy(records, i, |file|)
    {
      WholeMeans(file, shape, records, i);
    }
  }

  /** Whatever the source, the records it makes whole are those that end by `n`. */
  lemma ReadsUpTo(
    n: nat, source: Source, shape: Shape, records: seq<Bytes>, view: View, stops: seq<Position>, read: seq<Bytes>,
    end: Position)
    requires Delivers(n, source, shape.ps, view, 0) && AreRecords(shape.ps, shape.ends, records)
    requires EndBefore(shape.ends, |records|) == |shape.ps|
    requires Calls(n, source, stops, read) && view.stands(0, stops[0]) && Call(n, source, stops[|read|], None, end)
    requires forall i :: 0 <= i < |records| ==> (Whole(view, shape.ends, i) <==> EndsBy(records, i, n))
    ensures read <= records && end.drops == 0
    ensures forall i :: 0 <= i < |records| ==> (i < |read| <==> EndsBy(records, i, n))
  {
    ReadsWholeRecords(n, source, shape, records, view, 0, stops, read, end);
    NothingWholeAfterCut(n, shape.ends, records, view, |read|);
  }

  lemma NothingWholeAfterCut(n: nat, ends: seq<nat>, records: seq<Bytes>, view: View, r: nat)
    requires |ends| == |records| && r <= |records| && !Whole(view, ends, r)
    requires forall i :: 0 <= i < |records| ==> (Whole(view, ends, i) <==> EndsBy(records, i, n))
    requires forall i :: 0 <= i < r ==> Whole(view, ends, i)
    ensures forall i :: 0 <= i < |records| ==> (i < r <==> EndsBy(records, i, n))
  {
    forall i | r <= i < |records| ensures !EndsBy(records, i, n) {
      assert !EndsBy(records, r, n);
      LengthsIncrease(records, r + 1, i + 1);
    }
  }

  /** A reader that starts at the beginning of a log cut off after any byte, and is called until it
      reports the end, returns exactly the records that lie wholly inside the cut, in order, and
      reports no corruption. */
  lemma TruncatedLogReadsBack(crc: Crc, file: Bytes, whole: Bytes, shape: Shape, records: seq<Bytes>,
                              source: Source, stops: seq<Position>, read: seq<Bytes>, end: Position)
    requires Lawful(crc) && Holds(crc, whole, shape, records) && file <= whole && source == BlockReader(crc, file)
    requires Progresses(|file|, source) && Calls(|file|, source, stops, read) && stops[0] == START
    requires Call(|file|, source, stops[|read|], None, end)
    ensures read <= records && end.drops == 0
    ensures forall i :: 0 <= i < |records| ==> (i < |read| <==> EndsBy(records, i, |file|))
  {
    CutLogDelivers(crc, file, whole, shape.ps);
    StartStands(file, shape.ps);
    WholeMeansForAll(file, shape, records);
    ReadsUpTo(|file|, source, shape, records, CutView(file, shape.ps), stops, read, end);
  }

  lemma {:induction false} LengthsIncrease(records: seq<Bytes>, a: nat, b: nat)
    requires a <= b <= |records|
    ensures LengthOf(records, a) <= LengthOf(records, b)
    decreases b
  {
    if a < b {
      LengthsIncrease(records, a, b - 1);
      EndIsLater(LengthOf(records, b - 1), |records[b - 1]|);
    }
  }

  lemma {:induction false} EndIsLater(pos: nat, left: nat)
    ensures pos <= EndOf(pos, left)
    decreases Rank(pos, left)
  {
    if left > Available(pos) {
      EndOfStep(pos, left, Available(pos));
      EndIsLater(Aligned(pos) + HEADER_SIZE + Available(pos), left - Available(pos));
    }
  }
}
