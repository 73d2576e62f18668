/** Prefix-compressed blocks with restart points: the format. */
module Blocks {
  import opened Coding
  import opened Wrappers

  datatype Pair = Pair(key: Bytes, value: Bytes)

  // ---- One entry ----

  function EntryBytes(shared: nat, key: Bytes, value: Bytes): (r: Bytes)
    requires shared <= |key|
  {
    Varint(shared) + (Varint(|key| - shared) + (Varint(|value|) + (key[shared..] + value)))
  }

  /** The three lengths in front of an entry, and what follows them. */
  datatype Lengths = Lengths(shared: Word, nonShared: Word, valueLength: Word, rest: Bytes)

  function GetThree(s: Bytes): (r: Option<Lengths>) {
    var a := GetVarint32(s);
    if a.None? then None else
    var b := GetVarint32(a.value.1);
    if b.None? then None else
    var c := GetVarint32(b.value.1);
    if c.None? then None else Some(Lengths(a.value.0, b.value.0, c.value.0, c.value.1))
  }

  function DecodeEntry(s: Bytes): (r: Option<Lengths>) {
    if |s| < 3 then None
    else
      var l := if s[0] < 128 && s[1] < 128 && s[2] < 128 then Some(Lengths(s[0], s[1], s[2], s[3..])) else GetThree(s);
      if l.None? || |l.value.rest| < (l.value.nonShared + l.value.valueLength) % 0x1_0000_0000 then None else l
  }

  lemma ThreeRoundTrip(a: Word, b: Word, c: Word, rest: Bytes)
    ensures GetThree(Varint(a) + (Varint(b) + (Varint(c) + rest))) == Some(Lengths(a, b, c, rest))
  {
    Varint32RoundTrip(a, Varint(b) + (Varint(c) + rest));
    Varint32RoundTrip(b, Varint(c) + rest);
    Varint32RoundTrip(c, rest);
  }

  /** A varint whose first byte has no high bit is that byte. */
  lemma OneByte(v: nat, rest: Bytes)
    ensures (Varint(v) + rest)[0] < 128 ==>
      v < 128 && Varint(v) == [v] && (Varint(v) + rest)[0] == v && (Varint(v) + rest)[1..] == rest
  {
    if v < 128 {
      assert ([v] + rest)[1..] == rest;
    }
  }

  lemma FastPathAgrees(a: Word, b: Word, c: Word, rest: Bytes)
    ensures var s := Varint(a) + (Varint(b) + (Varint(c) + rest));
      |s| >= 3 && (s[0] < 128 && s[1] < 128 && s[2] < 128 ==> s[0] == a && s[1] == b && s[2] == c && s[3..] == rest)
  {
    var s3 := Varint(c) + rest;
    var s2 := Varint(b) + s3;
    var s := Varint(a) + s2;
    OneByte(a, s2);
    OneByte(b, s3);
    OneByte(c, rest);
    if s[0] < 128 {
      assert s[1] == s2[0] && s[2] == s2[1];
      if s[1] < 128 {
        assert s2[1] == s3[0];
        if s[2] < 128 {
          assert s[3..] == s2[2..] == s3[1..];
        }
      }
    }
  }

  lemma EntryRoundTrip(shared: nat, key: Bytes, value: Bytes, rest: Bytes)
    requires shared <= |key| && |key| + |value| < 0x1_0000_0000
    ensures DecodeEntry(EntryBytes(shared, key, value) + rest)
         == Some(Lengths(shared, |key| - shared, |value|, key[shared..] + value + rest))
  {
    var a, b, c, body := shared, |key| - shared, |value|, key[shared..] + value;
    assert EntryBytes(shared, key, value) + rest == Varint(a) + (Varint(b) + (Varint(c) + (body + rest)));
    ThreeRoundTrip(a, b, c, body + rest);
    FastPathAgrees(a, b, c, body + rest);
  }

  // ---- A block ----

  /** `shared[i]` bytes of key `i` are those of key `i - 1`; the entries at `heads` share nothing. */
  datatype Shape = Shape(pairs: seq<Pair>, shared: seq<nat>, heads: seq<nat>)

  ghost predicate SharesPrefix(pairs: seq<Pair>, shared: seq<nat>, i: nat)
    requires i < |pairs| && i < |shared|
  {
    && shared[i] <= |pairs[i].key|
    && (shared[i] > 0 ==>
          i > 0 && shared[i] <= |pairs[i - 1].key| && pairs[i].key[..shared[i]] == pairs[i - 1].key[..shared[i]])
  }

  ghost predicate WellShaped(b: Shape) {
    && |b.shared| == |b.pairs|
    && (forall i {:trigger b.shared[i]} :: 0 <= i < |b.pairs| ==> SharesPrefix(b.pairs, b.shared, i))
    && |b.heads| >= 1 && b.heads[0] == 0
    && (forall j :: 0 < j < |b.heads| ==> b.heads[j] < |b.pairs|)
    && (forall j :: 0 <= j < |b.heads| && b.heads[j] < |b.pairs| ==> b.shared[b.heads[j]] == 0)
    && (forall i, j :: 0 <= i < j < |b.heads| ==> b.heads[i] < b.heads[j])
  }

  function CommonPrefix(a: Bytes, b: Bytes): (n: nat)
    ensures n <= |a| && n <= |b| && a[..n] == b[..n]
    ensures n < |a| && n < |b| ==> a[n] != b[n]
  {
    if a == [] || b == [] || a[0] != b[0] then 0
    else
      var n := CommonPrefix(a[1..], b[1..]);
      assert a[..n + 1] == [a[0]] + a[1..][..n] && b[..n + 1] == [b[0]] + b[1..][..n];
      n + 1
  }

  /** Every `interval` entries one shares nothing, and every other entry shares all that it can. */
  ghost predicate Compressed(b: Shape, interval: nat) {
    && |b.shared| == |b.pairs|
    && (forall j {:trigger Spaced(b.heads, interval, j)} :: 0 < j < |b.heads| ==> Spaced(b.heads, interval, j))
    && forall i {:trigger SharesAll(b, i)} :: 0 < i < |b.pairs| ==> SharesAll(b, i)
  }

  ghost predicate Spaced(heads: seq<nat>, interval: nat, j: nat)
    requires 0 < j < |heads|
  {
    heads[j] == heads[j - 1] + interval
  }

  ghost predicate SharesAll(b: Shape, i: nat)
    requires 0 < i < |b.pairs| == |b.shared|
  {
    b.shared[i] == if i in b.heads then 0 else CommonPrefix(b.pairs[i - 1].key, b.pairs[i].key)
  }

  /** The heads once an entry is added, and what it shares. */
  ghost predicate NextHeads(
    b: Shape, interval: nat, heads: seq<nat>, lastKey: Bytes, key: Bytes, shared: nat)
  {
    || (heads == b.heads && shared == CommonPrefix(lastKey, key))
    || (heads == b.heads + [|b.pairs|] && b.pairs != [] && shared == 0 && b.heads != []
        && |b.pairs| == b.heads[|b.heads| - 1] + interval)
  }

  lemma CompressedGrows(b: Shape, interval: nat, pair: Pair, shared: nat, heads: seq<nat>)
    requires WellShaped(b) && Compressed(b, interval)
    requires NextHeads(
      b, interval, heads, if b.pairs == [] then [] else b.pairs[|b.pairs| - 1].key, pair.key, shared)
    ensures Compressed(Shape(b.pairs + [pair], b.shared + [shared], heads), interval)
  {
    var b' := Shape(b.pairs + [pair], b.shared + [shared], heads);
    forall j | 0 < j < |heads|
      ensures Spaced(heads, interval, j)
    {
      assert j < |b.heads| ==> Spaced(b.heads, interval, j);
    }
    forall i | 0 < i < |b'.pairs|
      ensures SharesAll(b', i)
    {
      if i < |b.pairs| {
        assert SharesAll(b, i);
        assert i in heads <==> i in b.heads;
      } else if heads == b.heads {
        assert i !in b.heads;
      } else {
        assert heads[|b.heads|] == i;
      }
    }
  }

  /** So restart `j` is at entry `j * interval`. */
  lemma {:induction false} HeadAt(b: Shape, interval: nat, j: nat)
    requires WellShaped(b) && Compressed(b, interval) && j < |b.heads|
    ensures b.heads[j] == j * interval
  {
    if j > 0 {
      HeadAt(b, interval, j - 1);
      assert Spaced(b.heads, interval, j);
      assert j * interval == (j - 1) * interval + interval;
    }
  }

  /** The entry bytes of a block, the entries since its last restart, and its restarts. */
  datatype Measure = Measure(bytes: nat, counter: nat, restarts: nat)

  function LastKey(pairs: seq<Pair>): (r: Bytes) {
    if pairs == [] then [] else pairs[|pairs| - 1].key
  }

  /** What adding a pair after `last` does to the measure. */
  function Measured1(m: Measure, interval: nat, last: Bytes, pair: Pair): (r: Measure) {
    if m.counter < interval
    then Measure(m.bytes + |EntryBytes(CommonPrefix(last, pair.key), pair.key, pair.value)|, m.counter + 1, m.restarts)
    else Measure(m.bytes + |EntryBytes(0, pair.key, pair.value)|, 1, m.restarts + 1)
  }

  function Measured(pairs: seq<Pair>, interval: nat): (r: Measure) {
    if pairs == [] then Measure(0, 0, 1)
    else
      var front := pairs[..|pairs| - 1];
      Measured1(Measured(front, interval), interval, LastKey(front), pairs[|pairs| - 1])
  }

  /** The length of a block of these pairs. */
  function BlockLength(pairs: seq<Pair>, interval: nat): (r: nat) {
    Measured(pairs, interval).bytes + 4 * Measured(pairs, interval).restarts + 4
  }

  lemma MeasuredMore(pairs: seq<Pair>, interval: nat, pair: Pair)
    ensures Measured(pairs + [pair], interval) == Measured1(Measured(pairs, interval), interval, LastKey(pairs), pair)
  {
    assert (pairs + [pair])[..|pairs|] == pairs;
  }

  // ---- A block as bytes ----

  /** The entry from `from` to `to` decodes to the given pair, of which `shared` key bytes are left out. */
  ghost predicate EntryIn(data: Bytes, limit: nat, from: nat, to: nat, shared: nat, pair: Pair) {
    && from < to <= limit <= |data| && shared <= |pair.key| && |pair.key| - shared + |pair.value| <= to - from
    && var l := DecodeEntry(data[from..limit]);
    && var start := to - |pair.value| - (|pair.key| - shared);
    && l.Some? && l.value.shared == shared && l.value.nonShared == |pair.key| - shared
      && l.value.valueLength == |pair.value|
    && l.value.rest == data[start..limit]
    && data[start..to - |pair.value|] == pair.key[shared..] && data[to - |pair.value|..to] == pair.value
  }

  function RestartPoint(data: Bytes, restarts: nat, j: nat): (r: Word)
    requires restarts + 4 * j + 4 <= |data|
  {
    DecodeFixed32(data[restarts + 4 * j..])
  }

  /** Entry `i` lies from `offs[i]` to `offs[i + 1]`; the restart array behind the entries points to
      the heads. */
  ghost predicate IsBlock(data: Bytes, restarts: nat, b: Shape, offs: seq<nat>) {
    && WellShaped(b) && |offs| == |b.pairs| + 1 && offs[0] == 0 && offs[|b.pairs|] == restarts
    && restarts + 4 * |b.heads| <= |data|
    && (forall i, j :: 0 <= i < j < |offs| ==> offs[i] < offs[j])
    && (forall i {:trigger EntryIn(data, restarts, offs[i], offs[i + 1], b.shared[i], b.pairs[i])} ::
          0 <= i < |b.pairs| ==> EntryIn(data, restarts, offs[i], offs[i + 1], b.shared[i], b.pairs[i]))
    && (forall j {:trigger RestartPoint(data, restarts, j)} ::
          0 <= j < |b.heads| ==> RestartPoint(data, restarts, j) == offs[b.heads[j]])
  }

  // ---- A block under construction ----

  /** The pair was written from `from` to `to`. */
  ghost predicate Written(buffer: Bytes, from: nat, to: nat, shared: nat, pair: Pair) {
    && from < to <= |buffer| && shared <= |pair.key| && |pair.key| + |pair.value| < 0x1_0000_0000
    && buffer[from..to] == EntryBytes(shared, pair.key, pair.value)
  }

  ghost predicate IsBuffer(buffer: Bytes, b: Shape, offs: seq<nat>) {
    && WellShaped(b) && |offs| == |b.pairs| + 1 && offs[0] == 0 && offs[|b.pairs|] == |buffer|
    && (forall i, j :: 0 <= i < j < |offs| ==> offs[i] < offs[j])
    && (forall i {:trigger Written(buffer, offs[i], offs[i + 1], b.shared[i], b.pairs[i])} :: 0 <= i < |b.pairs| ==>
          Written(buffer, offs[i], offs[i + 1], b.shared[i], b.pairs[i]))
  }

  ghost predicate PointTo(restarts: seq<nat>, heads: seq<nat>, offs: seq<nat>) {
    |restarts| == |heads| && forall j :: 0 <= j < |heads| ==> heads[j] < |offs| && restarts[j] == offs[heads[j]]
  }
}
