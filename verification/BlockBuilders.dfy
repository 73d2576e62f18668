/** The block builder, and the round trip through the bytes it produces. */
module BlockBuilders {
  import opened Coding
  import opened WordArrays
  import opened Blocks

  class BlockBuilder {
    const interval: nat
    var buffer: Bytes
    var restarts: seq<nat>
    var counter: nat
    var lastKey: Bytes
    ghost var b: Shape
    ghost var offs: seq<nat>

    constructor (interval: nat)
      requires interval >= 1
      ensures Valid() && Exact() && b.pairs == [] && this.interval == interval && CurrentSizeEstimate() == 8
    {
      this.interval := interval;
      NothingYet(interval);
      buffer, restarts, counter, lastKey := [], [0], 0, [];
      b, offs := Shape([], [], [0]), [0];
    }

    method Reset()
      requires interval >= 1
      modifies this
      ensures Valid() && Exact() && b.pairs == [] && CurrentSizeEstimate() == 8
    {
      NothingYet(interval);
      buffer, restarts, counter, lastKey := [], [0], 0, [];
      b, offs := Shape([], [], [0]), [0];
    }

    /** The size of the finished block. */
    function CurrentSizeEstimate(): (r: nat)
      reads this
    {
      |buffer| + 4 * |restarts| + 4
    }

    predicate Empty()
      requires Valid()
      reads this
      ensures Empty() <==> b.pairs == []
    {
      assert b.pairs != [] ==> offs[0] < offs[|b.pairs|];
      buffer == []
    }

    ghost predicate Valid()
      reads this
    {
      && interval >= 1 && IsBuffer(buffer, b, offs) && PointTo(restarts, b.heads, offs)
      && lastKey == (if b.pairs == [] then [] else b.pairs[|b.pairs| - 1].key)
      && counter == |b.pairs| - b.heads[|b.heads| - 1] <= interval
      && Compressed(b, interval)
    }

    /** The size is that of a block of the added pairs. */
    ghost predicate Exact()
      reads this
    {
      Measured(b.pairs, interval) == Measure(|buffer|, counter, |restarts|)
    }

    /** The estimate is the length of the finished block. */
    lemma EstimateIsLength()
      requires Exact()
      ensures CurrentSizeEstimate() == BlockLength(b.pairs, interval)
    {
    }

    method SharedLength(key: Bytes) returns (shared: nat)
      ensures shared == CommonPrefix(lastKey, key)
    {
      shared := 0;
      var minLength := if |lastKey| < |key| then |lastKey| else |key|;
      while shared < minLength && lastKey[shared] == key[shared]
        invariant shared <= minLength
          && CommonPrefix(lastKey, key) == shared + CommonPrefix(lastKey[shared..], key[shared..])
      {
        assert lastKey[shared..][1..] == lastKey[shared + 1..] && key[shared..][1..] == key[shared + 1..];
        shared := shared + 1;
      }
    }

    /** Share a prefix with the last key, or restart compression. */
    method ShareOrRestart(key: Bytes) returns (shared: nat, ghost heads: seq<nat>)
      requires Valid()
      modifies this`restarts, this`counter
      ensures shared <= |key| && shared <= |lastKey| && key[..shared] == lastKey[..shared]
      ensures NextHeads(b, interval, heads, lastKey, key, shared)
      ensures PointTo(restarts, heads, offs) && counter == |b.pairs| - heads[|heads| - 1] < interval
      ensures |restarts| <= old(|restarts|) + 1
      ensures if old(counter) < interval
        then shared == CommonPrefix(lastKey, key) && counter == old(counter) && |restarts| == old(|restarts|)
        else shared == 0 && counter == 0 && |restarts| == old(|restarts|) + 1
    {
      shared := 0;
      heads := b.heads;
      if counter < interval {
        shared := SharedLength(key);
      } else {
        restarts := restarts + [|buffer|];
        counter := 0;
        heads := heads + [|b.pairs|];
      }
    }

    method AppendEntry(shared: nat, key: Bytes, value: Bytes, ghost b': Shape)
      requires IsBuffer(buffer, b, offs) && WellShaped(b') && shared <= |key| && |key| + |value| < 0x1_0000_0000
      requires b'.pairs == b.pairs + [Pair(key, value)] && b'.shared == b.shared + [shared]
      modifies this`buffer
      ensures IsBuffer(buffer, b', offs + [|buffer|])
      ensures |buffer| <= old(|buffer|) + |key| + |value| + 15
      ensures |buffer| == old(|buffer|) + |EntryBytes(shared, key, value)|
    {
      LengthsAreShort(shared, |key| - shared, |value|);
      var bytes := Varint(shared) + (Varint(|key| - shared) + (Varint(|value|) + (key[shared..] + value)));
      BufferGrows(buffer, b, offs, b', bytes);
      buffer := buffer + bytes;
    }

    method Add(key: Bytes, value: Bytes)
      requires Valid() && Exact() && |key| + |value| < 0x1_0000_0000
      modifies this
      ensures Valid() && Exact() && b.pairs == old(b.pairs) + [Pair(key, value)]
      ensures CurrentSizeEstimate() <= old(CurrentSizeEstimate()) + |key| + |value| + 19
    {
      ghost var pairs, last, m := b.pairs, LastKey(b.pairs), Measure(|buffer|, counter, |restarts|);
      ghost var shared := Put(key, value);
      ExactMore(pairs, interval, last, Pair(key, value), m, shared, Measure(|buffer|, counter, |restarts|));
    }

    /** Adds the entry; what it shares decides how the sizes grow. */
    method Put(key: Bytes, value: Bytes) returns (ghost shared: nat)
      requires Valid() && |key| + |value| < 0x1_0000_0000
      modifies this
      ensures Valid() && b.pairs == old(b.pairs) + [Pair(key, value)]
      ensures CurrentSizeEstimate() <= old(CurrentSizeEstimate()) + |key| + |value| + 19
      ensures shared == (if old(counter) < interval then CommonPrefix(LastKey(old(b.pairs)), key) else 0)
      ensures shared <= |key| && |buffer| == old(|buffer|) + |EntryBytes(shared, key, value)|
      ensures counter == (if old(counter) < interval then old(counter) else 0) + 1
      ensures |restarts| == old(|restarts|) + if old(counter) < interval then 0 else 1
    {
      ghost var heads;
      var prefix;
      prefix, heads := ShareOrRestart(key);
      shared := prefix;
      Append(prefix, key, value, heads);
    }

    /** The entry with its first `shared` key bytes left out, and the state that goes with it. */
    method Append(shared: nat, key: Bytes, value: Bytes, ghost heads: seq<nat>)
      requires interval >= 1 && IsBuffer(buffer, b, offs) && PointTo(restarts, heads, offs)
      requires lastKey == (if b.pairs == [] then [] else b.pairs[|b.pairs| - 1].key) && |key| + |value| < 0x1_0000_0000
      requires shared <= |key| && shared <= |lastKey| && key[..shared] == lastKey[..shared]
      requires NextHeads(b, interval, heads, lastKey, key, shared) && Compressed(b, interval)
      requires counter == |b.pairs| - heads[|heads| - 1] < interval
      modifies this`buffer, this`lastKey, this`counter, this`b, this`offs
      ensures Valid() && b.pairs == old(b.pairs) + [Pair(key, value)]
      ensures |buffer| <= old(|buffer|) + |key| + |value| + 15
      ensures |buffer| == old(|buffer|) + |EntryBytes(shared, key, value)| && counter == old(counter) + 1
    {
      ghost var b' := Shape(b.pairs + [Pair(key, value)], b.shared + [shared], heads);
      ShapeGrows(b, Pair(key, value), shared, heads);
      CompressedGrows(b, interval, Pair(key, value), shared, heads);
      AppendEntry(shared, key, value, b');
      KeyGrows(lastKey, shared, key);
      lastKey := lastKey[..shared] + key[shared..];
      counter := counter + 1;
      ghost var offs' := offs + [|buffer|];
      PointsStill(restarts, heads, offs, |buffer|);
      assert b'.heads == heads && b'.pairs[|b'.pairs| - 1] == Pair(key, value);
      offs, b := offs', b';
    }

    /** The loop of Finish: appends the restart array. */
    method PutRestarts(ghost encode: nat -> Bytes) returns (contents: Bytes)
      requires Valid() && |buffer| < 0x1_0000_0000 && forall i :: 0 <= i < |restarts| ==>
        encode(restarts[i]) == RestartBytes(i)
      ensures contents == buffer + Chunks(encode, restarts, |restarts|)
    {
      contents := buffer;
      for i := 0 to |restarts|
        invariant contents == buffer + Chunks(encode, restarts, i)
      {
        contents := contents + RestartBytes(i);
      }
    }

    function RestartBytes(i: nat): (r: Bytes)
      requires Valid() && i < |restarts| && |buffer| < 0x1_0000_0000
      reads this
    {
      EncodeFixed32(Restart(i))
    }

    /** Appends the restart array and its length. */
    method Finish() returns (contents: Bytes)
      requires Valid() && |buffer| + 4 * |restarts| + 4 < 0x1_0000_0000
      ensures Compressed(b, interval) && |contents| == CurrentSizeEstimate()
      ensures Opens(contents, |buffer|, |restarts|) && IsBlock(contents, |buffer|, b, offs) && |restarts| == |b.heads|
    {
      RestartsAreWords();
      contents := PutRestarts(AsWord());
      Finished(buffer, restarts, b, offs, contents, |restarts|);
      WordsLength(restarts);
      contents := contents + EncodeFixed32(|restarts|);
    }

    lemma RestartsAreWords()
      requires Valid() && |buffer| < 0x1_0000_0000
      ensures forall i :: 0 <= i < |restarts| ==> AsWord()(restarts[i]) == RestartBytes(i)
    {
      forall i | 0 <= i < |restarts| ensures AsWord()(restarts[i]) == RestartBytes(i) {
        assert restarts[i] % 0x1_0000_0000 == Restart(i);
      }
    }

    /** A restart offset fits in a word. */
    function Restart(i: nat): (w: Word)
      requires Valid() && i < |restarts| && |buffer| < 0x1_0000_0000
      reads this
      ensures w == restarts[i]
    {
      HeadInBuffer(buffer, b, offs, restarts, i);
      restarts[i]
    }
  }

  /** Three lengths take at most five bytes each. */
  lemma LengthsAreShort(a: Word, b: Word, c: Word)
    ensures |Varint(a)| <= 5 && |Varint(b)| <= 5 && |Varint(c)| <= 5
  {
    var most := 5;
    Word32Fits(a, most);
    Word32Fits(b, most);
    Word32Fits(c, most);
    VarintLength(a, most);
    VarintLength(b, most);
    VarintLength(c, most);
  }

  lemma HeadInBuffer(buffer: Bytes, b: Shape, offs: seq<nat>, restarts: seq<nat>, i: nat)
    requires IsBuffer(buffer, b, offs) && PointTo(restarts, b.heads, offs) && i < |restarts|
    ensures restarts[i] <= |buffer|
  {
    assert b.heads[i] < |offs|;
  }

  /** Reading an entry back from the finished block. */
  lemma EntryReadsBack(buffer: Bytes, data: Bytes, from: nat, to: nat, shared: nat, pair: Pair)
    requires Written(buffer, from, to, shared, pair) && |buffer| <= |data| && data[..|buffer|] == buffer
    ensures EntryIn(data, |buffer|, from, to, shared, pair)
  {
    var limit := |buffer|;
    assert data[from..limit] == buffer[from..] == buffer[from..to] + buffer[to..];
    EntryRoundTrip(shared, pair.key, pair.value, buffer[to..]);
    var l := DecodeEntry(data[from..limit]).value;
    var head := Varint(shared) + (Varint(|pair.key| - shared) + Varint(|pair.value|));
    EntrySplits(shared, pair, head);
    var start := to - |pair.value| - (|pair.key| - shared);
    assert start == from + |head|;
    EntryParts(data, limit, from, to, head, pair.key[shared..], pair.value, buffer[to..]);
  }

  lemma EntrySplits(shared: nat, pair: Pair, head: Bytes)
    requires shared <= |pair.key| && head == Varint(shared) + (Varint(|pair.key| - shared) + Varint(|pair.value|))
    ensures EntryBytes(shared, pair.key, pair.value) == head + (pair.key[shared..] + pair.value)
  {
  }

  lemma SliceOfSlice(data: Bytes, a: nat, b: nat, c: nat, d: nat)
    requires a <= b <= |data| && c <= d <= b - a
    ensures data[a..b][c..d] == data[a + c..a + d]
  {
    var x, y := data[a..b][c..d], data[a + c..a + d];
    assert |x| == |y| == d - c;
    forall i | 0 <= i < |x| ensures x[i] == y[i] {
      assert x[i] == data[a..b][c + i] == data[a + (c + i)];
    }
  }

  lemma PartsOf(head: Bytes, delta: Bytes, value: Bytes, rest: Bytes)
    ensures var s := head + (delta + value) + rest;
      && s[|head|..] == delta + value + rest
      && s[|head|..|head| + |delta|] == delta
      && s[|head| + |delta|..|head| + |delta| + |value|] == value
  {
  }

  lemma EntryParts(data: Bytes, limit: nat, from: nat, to: nat, head: Bytes, delta: Bytes, value: Bytes, rest: Bytes)
    requires from <= to <= limit <= |data| && to - from == |head| + |delta| + |value|
    requires data[from..limit] == head + (delta + value) + rest
    ensures data[from + |head|..limit] == delta + value + rest
    ensures data[from + |head|..to - |value|] == delta && data[to - |value|..to] == value
  {
    PartsOf(head, delta, value, rest);
    SliceOfSlice(data, from, limit, |head|, limit - from);
    SliceOfSlice(data, from, limit, |head|, |head| + |delta|);
    SliceOfSlice(data, from, limit, |head| + |delta|, |head| + |delta| + |value|);
  }

  lemma NothingYet(interval: nat)
    ensures IsBuffer([], Shape([], [], [0]), [0]) && PointTo([0], [0], [0]) && Compressed(Shape([], [], [0]), interval)
  {
  }

  lemma ExactMore(
    pairs: seq<Pair>, interval: nat, last: Bytes, pair: Pair, m: Measure, shared: nat, m': Measure)
    requires Measured(pairs, interval) == m && last == LastKey(pairs) && shared <= |pair.key|
    requires shared == if m.counter < interval then CommonPrefix(last, pair.key) else 0
    requires m'.bytes == m.bytes + |EntryBytes(shared, pair.key, pair.value)|
    requires m'.counter == (if m.counter < interval then m.counter else 0) + 1
    requires m'.restarts == m.restarts + if m.counter < interval then 0 else 1
    ensures Measured(pairs + [pair], interval) == m'
  {
    MeasuredMore(pairs, interval, pair);
  }

  // ---- Opening a block ----

  /** What the Block constructor finds: where the restart array is, and how long. */
  ghost predicate Opens(contents: Bytes, restarts: nat, count: nat) {
    && |contents| >= 4 && DecodeFixed32(contents[|contents| - 4..]) == count
    && count <= (|contents| - 4) / 4 && restarts == |contents| - (1 + count) * 4
  }

  method Open(contents: Bytes) returns (ok: bool, restarts: nat, count: nat)
    ensures ok ==> Opens(contents, restarts, count)
    ensures !ok ==> forall r, c :: !Opens(contents, r, c)
  {
    ok, restarts, count := false, 0, 0;
    if |contents| >= 4 {
      var n: int := DecodeFixed32(contents[|contents| - 4..]);
      var most := (|contents| - 4) / 4;
      if n <= most {
        ok, count, restarts := true, n, |contents| - (1 + n) * 4;
      }
    }
  }

  lemma RestartReadsBack(buffer: Bytes, restarts: seq<nat>, data: Bytes, tail: Bytes, j: nat)
    requires j < |restarts| && restarts[j] <= |buffer| < 0x1_0000_0000 && data == buffer + Words(restarts) + tail
    ensures |buffer| + 4 * j + 4 <= |data| && RestartPoint(data, |buffer|, j) == restarts[j]
  {
    ChunkInside(AsWord(), restarts, buffer, tail, j);
    WordDecodes(data[|buffer| + 4 * j..], restarts[j]);
  }

  lemma EntriesReadBack(buffer: Bytes, b: Shape, offs: seq<nat>, contents: Bytes)
    requires IsBuffer(buffer, b, offs) && |buffer| <= |contents| && contents[..|buffer|] == buffer
    ensures forall i {:trigger EntryIn(contents, |buffer|, offs[i], offs[i + 1], b.shared[i], b.pairs[i])} ::
      0 <= i < |b.pairs| ==>
              EntryIn(contents, |buffer|, offs[i], offs[i + 1], b.shared[i], b.pairs[i])
  {
    forall i {:trigger EntryIn(contents, |buffer|, offs[i], offs[i + 1], b.shared[i], b.pairs[i])} | 0 <= i < |b.pairs|
      ensures EntryIn(contents, |buffer|, offs[i], offs[i + 1], b.shared[i], b.pairs[i])
    {
      assert Written(buffer, offs[i], offs[i + 1], b.shared[i], b.pairs[i]);
      EntryReadsBack(buffer, contents, offs[i], offs[i + 1], b.shared[i], b.pairs[i]);
    }
  }

  lemma RestartsReadBack(buffer: Bytes, restarts: seq<nat>, b: Shape, offs: seq<nat>, contents: Bytes, tail: Bytes)
    requires IsBuffer(buffer, b, offs) && PointTo(restarts, b.heads, offs) && |buffer| < 0x1_0000_0000
    requires contents == buffer + Words(restarts) + tail
    ensures |buffer| + 4 * |b.heads| <= |contents|
    ensures forall j {:trigger RestartPoint(contents, |buffer|, j)} :: 0 <= j < |b.heads| ==>
      RestartPoint(contents, |buffer|, j) == offs[b.heads[j]]
  {
    WordsLength(restarts);
    forall j {:trigger RestartPoint(contents, |buffer|, j)} | 0 <= j < |b.heads|
      ensures RestartPoint(contents, |buffer|, j) == offs[b.heads[j]]
    {
      HeadInBuffer(buffer, b, offs, restarts, j);
      RestartReadsBack(buffer, restarts, contents, tail, j);
    }
  }

  lemma TailOpens(front: Bytes, count: Word)
    requires 4 * count <= |front|
    ensures Opens(front + EncodeFixed32(count), |front| - 4 * count, count)
  {
    assert (front + EncodeFixed32(count))[|front|..] == EncodeFixed32(count);
    Fixed32RoundTrip(count);
  }

  /** The finished contents open as a block with exactly the builder's pairs. */
  lemma Finished(buffer: Bytes, restarts: seq<nat>, b: Shape, offs: seq<nat>, front: Bytes, count: Word)
    requires IsBuffer(buffer, b, offs) && PointTo(restarts, b.heads, offs) && |buffer| < 0x1_0000_0000
    requires count == |restarts|
    requires front == buffer + Words(restarts)
    ensures IsBlock(front + EncodeFixed32(count), |buffer|, b, offs)
    ensures Opens(front + EncodeFixed32(count), |buffer|, count)
  {
    WordsLength(restarts);
    FinishIsBlock(buffer, restarts, b, offs, front + EncodeFixed32(count), EncodeFixed32(count));
    TailOpens(front, count);
  }

  lemma FinishIsBlock(buffer: Bytes, restarts: seq<nat>, b: Shape, offs: seq<nat>, contents: Bytes, tail: Bytes)
    requires IsBuffer(buffer, b, offs) && PointTo(restarts, b.heads, offs) && |buffer| < 0x1_0000_0000
    requires contents == buffer + Words(restarts) + tail
    ensures IsBlock(contents, |buffer|, b, offs)
  {
    assert contents[..|buffer|] == buffer;
    EntriesReadBack(buffer, b, offs, contents);
    RestartsReadBack(buffer, restarts, b, offs, contents, tail);
  }

  // ---- Growing a block ----

  lemma PointsStill(restarts: seq<nat>, heads: seq<nat>, offs: seq<nat>, more: nat)
    requires PointTo(restarts, heads, offs)
    ensures PointTo(restarts, heads, offs + [more])
  {
  }

  lemma KeyGrows(last: Bytes, shared: nat, key: Bytes)
    requires shared <= |last| && shared <= |key| && key[..shared] == last[..shared]
    ensures last[..shared] + key[shared..] == key
  {
  }

  /** One more pair, as a new head or sharing a prefix with the last one. */
  lemma ShapeGrows(b: Shape, pair: Pair, shared: nat, heads: seq<nat>)
    requires WellShaped(b) && shared <= |pair.key|
    requires shared > 0 ==>
      b.pairs != [] && var last := b.pairs[|b.pairs| - 1].key; shared <= |last| && pair.key[..shared] == last[..shared]
    requires heads == b.heads || (heads == b.heads + [|b.pairs|] && b.pairs != [] && shared == 0)
    ensures WellShaped(Shape(b.pairs + [pair], b.shared + [shared], heads))
  {
    var b' := Shape(b.pairs + [pair], b.shared + [shared], heads);
    forall i | 0 <= i < |b'.pairs| ensures SharesPrefix(b'.pairs, b'.shared, i) {
      if i < |b.pairs| {
        assert b.shared[i] == b'.shared[i] && SharesPrefix(b.pairs, b.shared, i);
      }
    }
  }

  lemma StillWritten(buffer: Bytes, more: Bytes, from: nat, to: nat, shared: nat, pair: Pair)
    requires Written(buffer, from, to, shared, pair)
    ensures Written(buffer + more, from, to, shared, pair)
  {
    assert (buffer + more)[from..to] == buffer[from..to];
  }

  lemma BufferGrows(buffer: Bytes, b: Shape, offs: seq<nat>, b': Shape, bytes: Bytes)
    requires IsBuffer(buffer, b, offs) && WellShaped(b') && |b'.pairs| == |b.pairs| + 1
    requires b'.pairs[..|b.pairs|] == b.pairs && b'.shared[..|b.pairs|] == b.shared
    requires var pair, shared := b'.pairs[|b.pairs|], b'.shared[|b.pairs|];
      shared <= |pair.key| && |pair.key| + |pair.value| < 0x1_0000_0000
        && bytes == EntryBytes(shared, pair.key, pair.value)
    ensures IsBuffer(buffer + bytes, b', offs + [|buffer| + |bytes|])
  {
    var offs', n := offs + [|buffer| + |bytes|], |b.pairs|;
    var pair, shared := b'.pairs[n], b'.shared[n];
    assert |Varint(shared)| >= 1;
    forall i {:trigger Written(buffer + bytes, offs'[i], offs'[i + 1], b'.shared[i], b'.pairs[i])} | 0 <= i <= n
      ensures Written(buffer + bytes, offs'[i], offs'[i + 1], b'.shared[i], b'.pairs[i])
    {
      if i < n {
        assert b'.pairs[i] == b'.pairs[..n][i] == b.pairs[i] && b'.shared[i] == b'.shared[..n][i] == b.shared[i];
        assert Written(buffer, offs[i], offs[i + 1], b.shared[i], b.pairs[i]);
        StillWritten(buffer, bytes, offs[i], offs[i + 1], b.shared[i], b.pairs[i]);
      } else {
        assert (buffer + bytes)[|buffer|..] == bytes;
      }
    }
  }
}
