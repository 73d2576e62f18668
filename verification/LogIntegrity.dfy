/** What the log reader returns from bytes that may be damaged in any way. */
module LogIntegrity {
  import opened Coding
  import opened LogFormat
  import opened LogReading
  import opened LogTruncation
  import opened LogEvidence
  import opened Wrappers

  lemma {:induction false} EndAfterPrefix(ps: seq<Phys>, p: Phys, from: nat, k: nat)
    requires k <= |ps|
    ensures EndAfter(ps + [p], from, k) == EndAfter(ps, from, k)
  {
    if k > 0 {
      EndAfterPrefix(ps, p, from, k - 1);
    }
  }

  lemma FollowMore(crc: Crc, file: Bytes, from: nat, ps: seq<Phys>, end: nat, p: Phys)
    requires Follow(crc, file, from, ps, end) && StandsAt(crc, file, Aligned(end), p)
    ensures Follow(crc, file, from, ps + [p], Aligned(end) + HEADER_SIZE + |p.payload|)
  {
    var qs := ps + [p];
    EndAfterPrefix(ps, p, from, |ps|);
    forall k | 0 <= k < |qs|
      ensures StandsInTurn(crc, file, from, qs, k)
    {
      EndAfterPrefix(ps, p, from, k);
      assert k < |ps| ==> StandsInTurn(crc, file, from, ps, k);
    }
  }

  lemma {:induction false} PayloadsPrefix(ps: seq<Phys>, p: Phys, k: nat)
    requires k <= |ps|
    ensures Payloads(ps + [p], 0, k) == Payloads(ps, 0, k)
  {
    if k > 0 {
      PayloadsPrefix(ps, p, k - 1);
    }
  }

  lemma PayloadsMore(ps: seq<Phys>, p: Phys)
    ensures Payloads(ps + [p], 0, |ps| + 1) == Payloads(ps, 0, |ps|) + p.payload
  {
    PayloadsPrefix(ps, p, |ps|);
  }

  // ---- One physical record ----

  /** The stored word that unmasks to a checksum is that checksum, masked. */
  lemma StoredSum(buffer: Bytes, sum: Word)
    requires |buffer| >= 4 && sum == Unmask(DecodeFixed32(buffer))
    ensures buffer[..4] == EncodeFixed32(Mask(sum))
  {
    assert DecodeFixed32(buffer) == DecodeFixed32(buffer[..4]);
    MaskUndoesUnmask(DecodeFixed32(buffer));
    Fixed32Spells(buffer[..4]);
  }

  lemma LengthSplits(buffer: Bytes, n: nat)
    requires |buffer| >= HEADER_SIZE && n == LengthField(buffer)
    ensures n < 0x1_0000 && buffer[4] == n % 256 && buffer[5] == n / 256
  {
  }

  /** A header whose length, type and unmasked checksum fit is the one a writer gives. */
  lemma HeaderIsWriters(crc: Crc, buffer: Bytes, p: Phys)
    requires Lawful(crc) && |buffer| >= HEADER_SIZE && |p.payload| == LengthField(buffer)
    requires buffer[6] == TypeByte(p.kind)
    requires crc.value([TypeByte(p.kind)] + p.payload) == Unmask(DecodeFixed32(buffer))
    ensures |p.payload| < 0x1_0000 && buffer[..HEADER_SIZE] == Header(crc, p)
  {
    LengthSplits(buffer, |p.payload|);
    StoredSum(buffer, crc.extend(crc.value([TypeByte(p.kind)]), p.payload));
    assert buffer[..HEADER_SIZE] == buffer[..4] + [buffer[4], buffer[5], buffer[6]];
  }

  lemma FragmentIsWriters(crc: Crc, st: Position, kind: RecordType)
    requires Lawful(crc) && |st.buffer| >= HEADER_SIZE
    requires TakePhysical(crc, st).0.Fragment? && TypeByte(kind) == TakePhysical(crc, st).0.kind
    ensures var r := TakePhysical(crc, st);
      && HEADER_SIZE + |r.0.data| <= |st.buffer| && |r.0.data| < 0x1_0000
      && st.buffer[..HEADER_SIZE] == Header(crc, Phys(kind, r.0.data))
      && st.buffer[HEADER_SIZE..HEADER_SIZE + |r.0.data|] == r.0.data
      && r.1 == st.(buffer := st.buffer[HEADER_SIZE + |r.0.data|..])
  {
    var data := TakePhysical(crc, st).0.data;
    assert st.buffer[6..HEADER_SIZE + |data|] == [TypeByte(kind)] + data;
    HeaderIsWriters(crc, st.buffer, Phys(kind, data));
  }

  lemma BufferIsFile(file: Bytes, st: Position, n: nat)
    requires Framed(file, st) && HEADER_SIZE <= n <= |st.buffer|
    ensures var at := Unread(st);
      && at >= 0 && at + n <= |file| && at % BLOCK_SIZE + n <= BLOCK_SIZE
      && st.buffer[..HEADER_SIZE] == file[at..at + HEADER_SIZE]
      && st.buffer[HEADER_SIZE..n] == file[at + HEADER_SIZE..at + n]
      && Framed(file, st.(buffer := st.buffer[n..])) && Unread(st.(buffer := st.buffer[n..])) == at + n
  {
    SyncedAfter(file, Unread(st), st, n);
  }

  lemma ClearedIsFramed(file: Bytes, st: Position, drops: nat)
    requires Framed(file, st)
    ensures var st' := st.(buffer := [], drops := drops); Framed(file, st') && Unread(st) <= Unread(st')
  {
  }

  lemma TakeTookOne(crc: Crc, file: Bytes, st: Position)
    requires Lawful(crc) && Framed(file, st) && |st.buffer| >= HEADER_SIZE
    ensures TookOne(crc, file, Unread(st), TakePhysical(crc, st))
  {
    var r := TakePhysical(crc, st);
    assert Aligned(Unread(st)) == Unread(st);
    if r.0.Fragment? {
      BufferIsFile(file, st, HEADER_SIZE + |r.0.data|);
      if KindOf(r.0.kind).Some? {
        FragmentIsWriters(crc, st, KindOf(r.0.kind).value);
      }
    } else {
      ClearedIsFramed(file, st, r.1.drops);
    }
  }

  lemma PhysicalTookOne(crc: Crc, file: Bytes, st: Position)
    requires Lawful(crc) && Framed(file, st)
    ensures TookOne(crc, file, Unread(st), Physical(crc, file, st))
  {
    if |st.buffer| < HEADER_SIZE && !st.eof {
      LoadAligns(file, Unread(st), st);
    }
    var st' := Loaded(file, st);
    if |st'.buffer| >= HEADER_SIZE {
      TakeTookOne(crc, file, st');
      assert Aligned(Aligned(Unread(st))) == Aligned(Unread(st));
    } else {
      ClearedIsFramed(file, st', st'.drops);
    }
  }

  // ---- A logical record ----

  lemma FirstFragment(crc: Crc, file: Bytes, from: nat, p: Phys)
    requires StandsAt(crc, file, Aligned(from), p)
    ensures Follow(crc, file, from, [p], Aligned(from) + HEADER_SIZE + |p.payload|)
    ensures Payloads([p], 0, 1) == p.payload
  {
    FollowMore(crc, file, from, [], from, p);
    PayloadsMore([], p);
    assert [] + [p] == [p] && [] + p.payload == p.payload;
  }

  /** What absorbing one physical record does to the record being assembled. */
  lemma AbsorbKeeps(
    crc: Crc, file: Bytes, st: Position, scratch: Bytes, inRecord: bool, low: int, from: nat, ps: seq<Phys>,
    read: (Outcome, Position), step: (Verdict, Position))
    returns (from': nat, ps': seq<Phys>)
    requires Framed(file, st) && low <= Unread(st) && TookOne(crc, file, Unread(st), read)
    requires Collected(crc, file, st, scratch, inRecord, low, from, ps)
    requires step.0 == Absorb(read.0, scratch, inRecord).0
    requires step.1.readPos == read.1.readPos && step.1.buffer == read.1.buffer
    ensures Kept(crc, file, low, step, from', ps')
  {
    from', ps' := Unread(st), [];
    if read.0.Fragment? && KindOf(read.0.kind).Some? {
      var p := Phys(KindOf(read.0.kind).value, read.0.data);
      if p.kind.Full? || p.kind.First? {
        ps' := [p];
        FirstFragment(crc, file, from', p);
      } else if inRecord {
        from', ps' := from, ps + [p];
        FollowMore(crc, file, from, ps, Unread(st), p);
        PayloadsMore(ps, p);
      }
    }
  }

  lemma StepKeeps(
    crc: Crc, file: Bytes, source: Source, st: Position, scratch: Bytes, inRecord: bool, low: int, from: nat,
    ps: seq<Phys>, step: (Verdict, Position))
    returns (from': nat, ps': seq<Phys>)
    requires Vouches(crc, file, source) && Framed(file, st) && low <= Unread(st)
    requires Collected(crc, file, st, scratch, inRecord, low, from, ps)
    requires step == Step(source, st, scratch, inRecord)
    ensures Kept(crc, file, low, step, from', ps') && Framed(file, step.1) && Unread(st) <= Unread(step.1)
  {
    var read := source(st);
    from', ps' := AbsorbKeeps(crc, file, st, scratch, inRecord, low, from, ps, read, step);
    assert Framed(file, read.1.(drops := step.1.drops));
  }

  lemma {:induction false} RestIsBacked(
    crc: Crc, file: Bytes, source: Source, st: Position, scratch: Bytes, inRecord: bool, low: int, from: nat,
    ps: seq<Phys>)
    returns (from': nat, ps': seq<Phys>)
    requires Vouches(crc, file, source) && Progresses(|file|, source) && Framed(file, st) && low <= Unread(st)
    requires Collected(crc, file, st, scratch, inRecord, low, from, ps)
    ensures var r := Logical(|file|, source, st, scratch, inRecord);
      && Framed(file, r.1) && (r.0.Some? ==> Backed(crc, file, low, Unread(r.1), r.0.value, from', ps'))
    decreases Left(|file|, st)
  {
    var step := Step(source, st, scratch, inRecord);
    from', ps' := StepKeeps(crc, file, source, st, scratch, inRecord, low, from, ps, step);
    LogicalStep(|file|, source, st, scratch, inRecord, step.0, step.1);
    if step.0.More? {
      from', ps' :=
        RestIsBacked(crc, file, source, step.1, step.0.scratch, step.0.inRecord, low, from', ps');
    }
  }

  /** From a framed position one call returns a backed record and stops at a framed position. */
  lemma CallIsBacked(
    crc: Crc, file: Bytes, source: Source, st: Position, record: Option<Bytes>, next: Position)
    returns (from: nat, ps: seq<Phys>)
    requires Vouches(crc, file, source) && Progresses(|file|, source) && Framed(file, st)
    requires Call(|file|, source, st, record, next)
    ensures Framed(file, next)
    ensures record.Some? ==> Backed(crc, file, Unread(st), Unread(next), record.value, from, ps)
  {
    from, ps := RestIsBacked(crc, file, source, st, [], false, Unread(st), 0, []);
  }

  lemma NextIsFramed(crc: Crc, file: Bytes, source: Source, stops: seq<Position>, records: seq<Bytes>, i: nat)
    requires Vouches(crc, file, source) && Progresses(|file|, source) && i < |records|
    requires Calls(|file|, source, stops, records) && Framed(file, stops[i])
    ensures Framed(file, stops[i + 1])
  {
    var st, next, record := stops[i], stops[i + 1], records[i];
    assert Call(|file|, source, st, Some(record), next);
    var from, ps := CallIsBacked(crc, file, source, st, Some(record), next);
  }

  lemma StartIsFramed(file: Bytes)
    ensures Framed(file, START)
  {
    assert START.buffer == file[0..0];
  }

  lemma {:induction false} StopsAreFramed(
    crc: Crc, file: Bytes, source: Source, stops: seq<Position>, records: seq<Bytes>, i: nat)
    requires Vouches(crc, file, source) && Progresses(|file|, source) && i <= |records|
    requires Calls(|file|, source, stops, records) && stops[0] == START
    ensures Framed(file, stops[i])
  {
    if i == 0 {
      StartIsFramed(file);
    } else {
      StopsAreFramed(crc, file, source, stops, records, i - 1);
      NextIsFramed(crc, file, source, stops, records, i - 1);
    }
  }

  lemma BlockReaderVouches(crc: Crc, file: Bytes)
    requires Lawful(crc)
    ensures Vouches(crc, file, BlockReader(crc, file))
  {
    forall st | Framed(file, st)
      ensures TookOne(crc, file, Unread(st), BlockReader(crc, file)(st))
    {
      PhysicalTookOne(crc, file, st);
    }
  }

  /**
   * Whatever the bytes of the file: a record that ReadRecord returns consists of fragments that
   * stand in the file one after the other, first, middles and last, each inside one block and under
   * the header, masked checksum included, that a writer would have given it. Records share no fragment.
   */
  lemma ReturnedRecordIsBacked(crc: Crc, file: Bytes, stops: seq<Position>, records: seq<Bytes>, i: nat)
    returns (from: nat, ps: seq<Phys>)
    requires Lawful(crc) && Progresses(|file|, BlockReader(crc, file)) && i < |records|
    requires Calls(|file|, BlockReader(crc, file), stops, records) && stops[0] == START
    ensures Backed(crc, file, Unread(stops[i]), Unread(stops[i + 1]), records[i], from, ps)
  {
    var source := BlockReader(crc, file);
    BlockReaderVouches(crc, file);
    StopsAreFramed(crc, file, source, stops, records, i);
    assert Call(|file|, source, stops[i], Some(records[i]), stops[i + 1]);
    from, ps := CallIsBacked(crc, file, source, stops[i], Some(records[i]), stops[i + 1]);
  }

  // ---- Damage ----

  function BlockEnd(at: nat): (r: nat) {
    at - at % BLOCK_SIZE + BLOCK_SIZE
  }

  /** A header is at `at`, and whatever follows the file's last block does not excuse its length. */
  ghost predicate MustParse(file: Bytes, at: nat) {
    && at + HEADER_SIZE <= |file| && at % BLOCK_SIZE + HEADER_SIZE <= BLOCK_SIZE
    && (BlockEnd(at) < |file| || at + HEADER_SIZE + LengthField(file[at..]) <= |file|)
  }

  /** The type and length of zeros that a preallocated file shows. */
  ghost predicate Blank(file: Bytes, at: nat)
    requires at + HEADER_SIZE <= |file|
  {
    file[at + 6] == 0 && LengthField(file[at..]) == 0
  }

  /** With the record at the front of the buffer. */
  lemma DamageInBuffer(crc: Crc, file: Bytes, st: Position, at: nat)
    requires Lawful(crc) && Framed(file, st) && |st.buffer| >= HEADER_SIZE && at == Unread(st)
    requires MustParse(file, at) && !Blank(file, at) && forall p :: !StandsAt(crc, file, at, p)
    ensures var r := TakePhysical(crc, st);
      && Unread(r.1) <= BlockEnd(at)
      && (r.0.Fragment? ==> KindOf(r.0.kind).None? && r.1.drops == st.drops)
      && (!r.0.Fragment? ==> r.0.Bad? && r.1.drops == st.drops + 1)
  {
    var r := TakePhysical(crc, st);
    assert LengthField(st.buffer) == LengthField(file[at..]) && st.buffer[6] == file[at + 6];
    assert Aligned(at) == at;
    TakeTookOne(crc, file, st);
    BufferEnds(file, st, at);
  }

  lemma BufferEnds(file: Bytes, st: Position, at: nat)
    requires Framed(file, st) && |st.buffer| >= HEADER_SIZE && at == Unread(st)
    ensures BlockEnd(at) < |file| ==> !st.eof && at + |st.buffer| == BlockEnd(at)
    ensures BlockEnd(at) >= |file| ==> at + |st.buffer| == |file|
  {
    if !st.eof {
      WholeBlock(file, at, st);
    }
  }

  /**
   * Bytes that must parse as a record and that no writer wrote are reported, unless they are blank,
   * and cost no more than the rest of their block.
   */
  lemma DamageIsReported(crc: Crc, file: Bytes, st: Position, inRecord: bool, scratch: Bytes)
    requires Lawful(crc) && Framed(file, st)
    requires var at := Aligned(Unread(st));
      MustParse(file, at) && !Blank(file, at) && forall p :: !StandsAt(crc, file, at, p)
    ensures var next := Step(BlockReader(crc, file), st, scratch, inRecord).1;
      next.drops > st.drops && Unread(next) <= BlockEnd(Aligned(Unread(st)))
  {
    if |st.buffer| < HEADER_SIZE && !st.eof {
      LoadAligns(file, Unread(st), st);
    }
    var st' := Loaded(file, st);
    assert |st'.buffer| >= HEADER_SIZE;
    DamageInBuffer(crc, file, st', Aligned(Unread(st)));
  }

  // ---- Nothing is lost in silence ----

  ghost predicate Counts(source: Source) {
    forall st: Position {:trigger source(st)} :: st.drops <= source(st).1.drops
  }

  function DataOf(outcome: Outcome): (r: nat) {
    if outcome.Fragment? then |outcome.data| else 0
  }

  /** The bytes in all fragments that a call reads. */
  ghost function DataRead(n: nat, source: Source, st: Position, scratch: Bytes, inRecord: bool): (r: nat)
    requires Progresses(n, source) && Inside(n, st)
    decreases Left(n, st)
  {
    var step := Step(source, st, scratch, inRecord);
    DataOf(source(st).0)
    + if step.0.Done? then 0 else DataRead(n, source, step.1, step.0.scratch, step.0.inRecord)
  }

  /** A step that reports nothing keeps what was collected and what it read. */
  lemma SilentStep(source: Source, st: Position, scratch: Bytes, inRecord: bool)
    requires Counts(source) && (!inRecord ==> scratch == [])
    ensures var step := Step(source, st, scratch, inRecord);
      && st.drops <= step.1.drops
      && (step.0.More? && !step.0.inRecord ==> step.0.scratch == [])
      && (step.1.drops == st.drops ==>
            match step.0
            case Done(record) => record.Some? ==> |record.value| == |scratch| + DataOf(source(st).0)
            case More(more, _) => |more| == |scratch| + DataOf(source(st).0))
  {
  }

  lemma {:induction false} SilentRest(n: nat, source: Source, st: Position, scratch: Bytes, inRecord: bool)
    requires Progresses(n, source) && Inside(n, st) && Counts(source) && (!inRecord ==> scratch == [])
    ensures var r := Logical(n, source, st, scratch, inRecord);
      && st.drops <= r.1.drops
      && (r.1.drops == st.drops && r.0.Some? ==>
            |r.0.value| == |scratch| + DataRead(n, source, st, scratch, inRecord))
    decreases Left(n, st)
  {
    var step := Step(source, st, scratch, inRecord);
    SilentStep(source, st, scratch, inRecord);
    LogicalStep(n, source, st, scratch, inRecord, step.0, step.1);
    if step.0.More? {
      SilentRest(n, source, step.1, step.0.scratch, step.0.inRecord);
    }
  }

  lemma SilentCall(n: nat, source: Source, st: Position, record: Bytes, next: Position)
    requires Progresses(n, source) && Counts(source) && Call(n, source, st, Some(record), next)
    requires next.drops == st.drops
    ensures |record| == DataRead(n, source, st, [], false)
  {
    SilentRest(n, source, st, [], false);
  }

  lemma BlockReaderCounts(crc: Crc, file: Bytes)
    ensures Counts(BlockReader(crc, file))
  {
    forall st: Position
      ensures st.drops <= BlockReader(crc, file)(st).1.drops
    {
      if InFile(file, st) {
        assert BlockReader(crc, file)(st) == Physical(crc, file, st);
      }
    }
  }

  /** A call that reports no corruption returns every byte of every fragment that it read. */
  lemma SilentCallLosesNothing(crc: Crc, file: Bytes, st: Position, record: Bytes, next: Position)
    requires Progresses(|file|, BlockReader(crc, file))
    requires Call(|file|, BlockReader(crc, file), st, Some(record), next) && next.drops == st.drops
    ensures |record| == DataRead(|file|, BlockReader(crc, file), st, [], false)
  {
    BlockReaderCounts(crc, file);
    SilentCall(|file|, BlockReader(crc, file), st, record, next);
  }
}
