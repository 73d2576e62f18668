/** Arrays of four-byte words inside a byte string. */
module WordArrays {
  import opened Coding

  /** The first `n` numbers, each in four bytes. */
  ghost function Chunks(encode: nat -> Bytes, ws: seq<nat>, n: nat): (s: Bytes)
    requires n <= |ws|
  {
    if n == 0 then [] else Chunks(encode, ws, n - 1) + encode(ws[n - 1])
  }

  ghost predicate FourEach(encode: nat -> Bytes) {
    forall w: nat :: |encode(w)| == 4
  }

  lemma {:induction false} ChunkAt(encode: nat -> Bytes, ws: seq<nat>, n: nat, j: nat)
    requires j < n <= |ws| && FourEach(encode)
    ensures |Chunks(encode, ws, n)| == 4 * n && Chunks(encode, ws, n)[4 * j..4 * j + 4] == encode(ws[j])
  {
    ChunksLength(encode, ws, n - 1);
    if j < n - 1 {
      ChunkAt(encode, ws, n - 1, j);
      assert Chunks(encode, ws, n)[4 * j..4 * j + 4] == Chunks(encode, ws, n - 1)[4 * j..4 * j + 4];
    }
  }

  lemma {:induction false} ChunksLength(encode: nat -> Bytes, ws: seq<nat>, n: nat)
    requires n <= |ws| && FourEach(encode)
    ensures |Chunks(encode, ws, n)| == 4 * n
  {
    if n > 0 {
      ChunksLength(encode, ws, n - 1);
    }
  }

  /** A number as a little-endian word. */
  ghost function AsWord(): (r: nat -> Bytes) {
    (w: nat) => EncodeFixed32(w % 0x1_0000_0000)
  }

  ghost function Words(ws: seq<nat>): (r: Bytes) {
    Chunks(AsWord(), ws, |ws|)
  }

  lemma WordsLength(ws: seq<nat>)
    ensures |Words(ws)| == 4 * |ws|
  {
    ChunksLength(AsWord(), ws, |ws|);
  }

  lemma DecodeFirstFour(s: Bytes, w: Word)
    requires |s| >= 4 && s[..4] == EncodeFixed32(w)
    ensures DecodeFixed32(s) == w
  {
    assert forall i :: 0 <= i < 4 ==> s[i] == s[..4][i];
    assert DecodeFixed32(s) == DecodeFixed32(EncodeFixed32(w));
    Fixed32RoundTrip(w);
  }

  lemma ChunkInside(encode: nat -> Bytes, ws: seq<nat>, front: Bytes, tail: Bytes, j: nat)
    requires FourEach(encode) && j < |ws|
    ensures var data := front + Chunks(encode, ws, |ws|) + tail;
      |data| >= |front| + 4 * j + 4 && data[|front| + 4 * j..][..4] == encode(ws[j])
  {
    ChunkAt(encode, ws, |ws|, j);
    WordInside(front, Chunks(encode, ws, |ws|), tail, 4 * j);
  }

  lemma WordInside(a: Bytes, b: Bytes, c: Bytes, k: nat)
    requires k + 4 <= |b|
    ensures (a + b + c)[|a| + k..][..4] == b[k..k + 4]
  {
  }

  lemma WordDecodes(s: Bytes, r: nat)
    requires r < 0x1_0000_0000 && |s| >= 4 && s[..4] == EncodeFixed32(r % 0x1_0000_0000)
    ensures DecodeFixed32(s) == r
  {
    DecodeFirstFour(s, r);
  }
}
