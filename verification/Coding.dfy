/** Fixed-width and variable-length integers, and length-prefixed strings. */
module Coding {
  import opened Wrappers

  type Byte = b: int | 0 <= b < 256
  type Bytes = seq<Byte>
  type Word = w: int | 0 <= w < 0x1_0000_0000
  type Quad = q: int | 0 <= q < 0x1_0000_0000_0000_0000

  function EncodeFixed32(w: Word): (s: Bytes)
    ensures |s| == 4
  {
    [w % 256, w / 256 % 256, w / 0x1_0000 % 256, w / 0x100_0000]
  }

  function DecodeFixed32(s: Bytes): (r: Word)
    requires |s| >= 4
  {
    (s[0] as int) + (s[1] as int) * 256 + (s[2] as int) * 0x1_0000 + (s[3] as int) * 0x100_0000
  }

  lemma Fixed32RoundTrip(w: Word)
    ensures DecodeFixed32(EncodeFixed32(w)) == w
  {
    var w1, w2 := w / 256, w / 0x1_0000;
    assert w2 == w1 / 256 && w / 0x100_0000 == w2 / 256;
    assert w == w % 256 + 256 * w1 && w1 == w1 % 256 + 256 * w2 && w2 == w2 % 256 + 256 * (w2 / 256);
  }

  /** Four bytes spell one word only. */
  lemma Fixed32Spells(s: Bytes)
    requires |s| == 4
    ensures EncodeFixed32(DecodeFixed32(s)) == s
  {
    var w: int := DecodeFixed32(s);
    var b0: int, b1: int, b2: int, b3: int := s[0], s[1], s[2], s[3];
    var w2 := b2 + 256 * b3;
    var w1 := b1 + 256 * w2;
    assert w == b0 + 256 * w1;
    assert w / 256 == w1 && w1 / 256 == w2 && w2 / 256 == b3;
    assert w / 0x1_0000 == w2 && w / 0x100_0000 == b3;
  }

  function EncodeFixed64(q: Quad): (s: Bytes)
    ensures |s| == 8
  {
    EncodeFixed32(q % 0x1_0000_0000) + EncodeFixed32(q / 0x1_0000_0000)
  }

  function DecodeFixed64(s: Bytes): (r: Quad)
    requires |s| >= 8
  {
    DecodeFixed32(s[..4]) + DecodeFixed32(s[4..8]) * 0x1_0000_0000
  }

  lemma Fixed64RoundTrip(q: Quad)
    ensures DecodeFixed64(EncodeFixed64(q)) == q
  {
    var low, high: Word := q % 0x1_0000_0000, q / 0x1_0000_0000;
    var s := EncodeFixed64(q);
    assert s[..4] == EncodeFixed32(low) && s[4..8] == EncodeFixed32(high);
    Fixed32RoundTrip(low);
    Fixed32RoundTrip(high);
  }

  function Pow2(n: nat): (p: nat)
    ensures p > 0
  {
    if n == 0 then 1 else 2 * Pow2(n - 1)
  }

  // ---- Varints ----

  /** Seven bits per byte, least significant first, the high bit set on all but the last. */
  function Varint(v: nat): (s: Bytes)
    ensures |s| >= 1
  {
    if v < 128 then [v] else [128 + v % 128] + Varint(v / 128)
  }

  /** The number that the bytes up to the first one without a high bit spell, within `most` bytes. */
  function Spelled(s: Bytes, most: nat): (r: Option<(nat, Bytes)>) {
    if most == 0 || s == [] then None
    else if s[0] < 128 then Some((s[0] as int, s[1..]))
    else
      var rest := Spelled(s[1..], most - 1);
      if rest.None? then None else Some(((s[0] as int) - 128 + 128 * rest.value.0, rest.value.1))
  }

  lemma {:induction false} SpelledShrinks(s: Bytes, most: nat)
    ensures Spelled(s, most).Some? ==> |Spelled(s, most).value.1| < |s|
  {
    if most > 0 && s != [] {
      SpelledShrinks(s[1..], most - 1);
    }
  }

  /** The largest number that fits in `n` varint bytes, plus one. */
  function Bound(n: nat): (r: nat) {
    if n == 0 then 1 else 128 * Bound(n - 1)
  }

  lemma {:induction false} VarintSpells(v: nat, rest: Bytes, most: nat)
    requires most > 0 && v < Bound(most)
    ensures Spelled(Varint(v) + rest, most) == Some((v, rest))
  {
    var s := Varint(v) + rest;
    if v < 128 {
      assert s[1..] == rest;
    } else {
      assert most > 1 by { assert Bound(1) == 128; }
      assert s[1..] == Varint(v / 128) + rest;
      VarintSpells(v / 128, rest, most - 1);
    }
  }

  /** Five bytes at most; bits beyond the thirty-second are lost. */
  function GetVarint32(s: Bytes): (r: Option<(Word, Bytes)>) {
    var r := Spelled(s, 5);
    if r.None? then None else Some((r.value.0 % 0x1_0000_0000, r.value.1))
  }

  function GetVarint64(s: Bytes): (r: Option<(Quad, Bytes)>) {
    var r := Spelled(s, 10);
    if r.None? then None else Some((r.value.0 % 0x1_0000_0000_0000_0000, r.value.1))
  }

  lemma Word32Fits(w: Word, most: nat)
    requires most == 5
    ensures w < Bound(most)
  {
    assert Bound(most) == 128 * Bound(most - 1) && Bound(most - 1) == 128 * Bound(most - 2);
    assert Bound(most - 2) == 128 * Bound(most - 3) && Bound(most - 3) == 128 * Bound(most - 4);
    assert Bound(most - 4) == 128 * Bound(most - 5);
  }

  lemma Quad64Fits(q: Quad, most: nat)
    requires most == 10
    ensures q < Bound(most)
  {
    Word32Fits(0, most - 5);
    assert Bound(most - 5) == 0x8_0000_0000 by { FiveMore(0); }
    FiveMore(5);
  }

  lemma {:induction false} VarintLength(v: nat, most: nat)
    requires v < Bound(most)
    ensures |Varint(v)| <= if most == 0 then 1 else most
  {
    if v >= 128 {
      assert most > 1 by { assert Bound(0) == 1 && Bound(1) == 128; }
      VarintLength(v / 128, most - 1);
    }
  }

  lemma FiveMore(n: nat)
    ensures Bound(n + 5) == 0x8_0000_0000 * Bound(n)
  {
    assert Bound(n + 5) == 128 * Bound(n + 4) && Bound(n + 4) == 128 * Bound(n + 3);
    assert Bound(n + 3) == 128 * Bound(n + 2) && Bound(n + 2) == 128 * Bound(n + 1);
    assert Bound(n + 1) == 128 * Bound(n);
  }

  lemma Narrow(s: Bytes, v: nat, rest: Bytes)
    ensures v < 0x1_0000_0000 && Spelled(s, 5) == Some((v, rest)) ==> GetVarint32(s) == Some((v, rest))
    ensures v < 0x1_0000_0000_0000_0000 && Spelled(s, 10) == Some((v, rest)) ==> GetVarint64(s) == Some((v, rest))
  {
  }

  lemma Varint32RoundTrip(w: Word, rest: Bytes)
    ensures GetVarint32(Varint(w) + rest) == Some((w, rest))
  {
    var most := 5;
    Word32Fits(w, most);
    VarintSpells(w, rest, most);
    Narrow(Varint(w) + rest, w, rest);
  }

  lemma Varint64RoundTrip(q: Quad, rest: Bytes)
    ensures GetVarint64(Varint(q) + rest) == Some((q, rest))
  {
    var most := 10;
    Quad64Fits(q, most);
    VarintSpells(q, rest, most);
    Narrow(Varint(q) + rest, q, rest);
  }

  /** The unrolled 32-bit encoder. */
  method EncodeVarint32(v: Word) returns (s: Bytes)
    ensures s == Varint(v)
  {
    if v < 0x80 {
      s := [v];
    } else if v < 0x4000 {
      s := [v % 128 + 128, v / 0x80];
    } else if v < 0x20_0000 {
      s := [v % 128 + 128, v / 0x80 % 128 + 128, v / 0x4000];
      assert Varint(v / 0x80) == [v / 0x80 % 128 + 128, v / 0x4000];
    } else if v < 0x1000_0000 {
      s := [v % 128 + 128, v / 0x80 % 128 + 128, v / 0x4000 % 128 + 128, v / 0x20_0000];
      assert Varint(v / 0x4000) == [v / 0x4000 % 128 + 128, v / 0x20_0000];
      assert Varint(v / 0x80) == [v / 0x80 % 128 + 128] + Varint(v / 0x4000);
    } else {
      s := [v % 128 + 128, v / 0x80 % 128 + 128, v / 0x4000 % 128 + 128, v / 0x20_0000 % 128 + 128, v / 0x1000_0000];
      assert Varint(v / 0x20_0000) == [v / 0x20_0000 % 128 + 128, v / 0x1000_0000];
      assert Varint(v / 0x4000) == [v / 0x4000 % 128 + 128] + Varint(v / 0x20_0000);
      assert Varint(v / 0x80) == [v / 0x80 % 128 + 128] + Varint(v / 0x4000);
    }
  }

  method EncodeVarint64(q: Quad) returns (s: Bytes)
    ensures s == Varint(q)
  {
    var v: nat := q;
    s := [];
    while v >= 128
      invariant s + Varint(v) == Varint(q)
    {
      assert s + Varint(v) == s + [v % 128 + 128] + Varint(v / 128);
      s := s + [v % 128 + 128];
      v := v / 128;
    }
    s := s + [v];
  }

  lemma ScaleUp(acc: nat, scale: nat, low: nat, high: nat)
    ensures acc + scale * (low + 128 * high) == (acc + low * scale) + (scale * 128) * high
    ensures low * scale >= 0
  {
  }

  /** The decoding loop shared by both widths; the caller's width truncates the sum. */
  method ParseVarint(s: Bytes, most: nat) returns (r: Option<(nat, Bytes)>)
    ensures r == Spelled(s, most)
  {
    var acc: nat, scale: nat, i: nat := 0, 1, 0;
    ghost var want := Spelled(s, most);
    while i < most && i < |s|
      invariant i <= most && i <= |s|
      invariant var t := Spelled(s[i..], most - i);
        if t.None? then want == None else want == Some((acc + scale * t.value.0, t.value.1))
    {
      var byte: int := s[i];
      ghost var t := Spelled(s[i + 1..], most - (i + 1));
      assert s[i..][1..] == s[i + 1..];
      i := i + 1;
      if byte >= 128 {
        ScaleUp(acc, scale, byte - 128, if t.Some? then t.value.0 else 0);
        acc := acc + (byte - 128) * scale;
        scale := scale * 128;
      } else {
        ScaleUp(acc, scale, byte, 0);
        return Some((acc + byte * scale, s[i..]));
      }
    }
    return None;
  }

  // ---- Length-prefixed strings ----

  function LengthPrefixed(s: Bytes): (r: Bytes) {
    Varint(|s|) + s
  }

  function GetLengthPrefixed(input: Bytes): (r: Option<(Bytes, Bytes)>) {
    var r := GetVarint32(input);
    if r.None? || r.value.0 > |r.value.1| then None
    else Some((r.value.1[..r.value.0], r.value.1[r.value.0..]))
  }

  lemma LengthPrefixedRoundTrip(s: Bytes, rest: Bytes)
    requires |s| < 0x1_0000_0000
    ensures GetLengthPrefixed(LengthPrefixed(s) + rest) == Some((s, rest))
  {
    assert LengthPrefixed(s) + rest == Varint(|s|) + (s + rest);
    Varint32RoundTrip(|s|, s + rest);
    assert (s + rest)[..|s|] == s && (s + rest)[|s|..] == rest;
  }
}
