/** Numbers on the wire: tags, varints of either width, zigzag, sized integers and fixed-width words. */
module ProtoScalars {
  import opened Coding
  import opened Wrappers

  const TWO_TO_31 := 0x8000_0000
  const TWO_TO_32 := 0x1_0000_0000
  const TWO_TO_64 := 0x1_0000_0000_0000_0000

  // ---- Bits ----

  /** The bitwise or of the low `n` bits. */
  function OrBits(a: nat, b: nat, n: nat): (r: nat)
    ensures r < Pow2(n)
  {
    if n == 0 then 0 else (if a % 2 == 1 || b % 2 == 1 then 1 else 0) + 2 * OrBits(a / 2, b / 2, n - 1)
  }

  lemma FourMore(n: nat)
    ensures Pow2(n + 4) == 16 * Pow2(n)
  {
    assert Pow2(n + 4) == 2 * Pow2(n + 3) && Pow2(n + 3) == 2 * Pow2(n + 2);
    assert Pow2(n + 2) == 2 * Pow2(n + 1) && Pow2(n + 1) == 2 * Pow2(n);
  }

  lemma WordHasBits(n: nat)
    requires n == 32
    ensures Pow2(n) == TWO_TO_32
  {
    assert Pow2(n - 32) == 1;
    FourMore(n - 32);
    FourMore(n - 28);
    FourMore(n - 24);
    FourMore(n - 20);
    FourMore(n - 16);
    FourMore(n - 12);
    FourMore(n - 8);
    FourMore(n - 4);
  }

  function OrWord(a: Word, b: Word): (r: Word) {
    WordHasBits(32);
    OrBits(a, b, 32)
  }

  lemma {:induction false} OrZero(c: nat, n: nat)
    requires c < Pow2(n)
    ensures OrBits(0, c, n) == c
  {
    if n > 0 {
      OrZero(c / 2, n - 1);
    }
  }

  /** Bits that do not meet add up. */
  lemma {:induction false} OrAdds(a: nat, c: nat, p: nat, n: nat)
    requires p <= n && a < Pow2(p) && a + c * Pow2(p) < Pow2(n)
    ensures OrBits(a, c * Pow2(p), n) == a + c * Pow2(p)
  {
    if p == 0 {
      OrZero(c, n);
    } else {
      var half := c * Pow2(p - 1);
      assert c * Pow2(p) == 2 * half by {
        assert Pow2(p) == 2 * Pow2(p - 1);
      }
      OrAdds(a / 2, c, p - 1, n - 1);
    }
  }

  // ---- The 32-bit varint reader ----

  /** The shift counter is an eight-bit number. */
  type BitPos = p: int | 0 <= p < 256

  /** Like a varint, but loose: bytes beyond the thirty-second bit may be padding or a sign extension. */
  function Varint32(s: Bytes): (r: Option<(Word, Bytes)>)
    ensures r.Some? ==> |r.value.1| < |s|
  {
    if s == [] then None
    else if s[0] < 128 then Some((s[0], s[1..]))
    else Varint32Tail(s[1..], 7, s[0] - 128)
  }

  /** What a byte at `bitpos` turns the accumulated bits into; `None` where it cannot stand. */
  function AddGroup(byte: Byte, bitpos: BitPos, acc: Word): (r: Option<Word>) {
    if bitpos >= 32 then
      var extension := if bitpos < 63 then 255 else 1;
      if byte % 128 != 0 && (acc < TWO_TO_31 || byte != extension) then None else Some(acc)
    else Some(OrWord(acc, byte % 128 * Pow2(bitpos) % TWO_TO_32))
  }

  /** The reader's loop, with the bits read so far in `acc`. */
  function Varint32Tail(s: Bytes, bitpos: BitPos, acc: Word): (r: Option<(Word, Bytes)>)
    ensures r.Some? ==> |r.value.1| < |s|
    decreases |s|
  {
    if s == [] then None
    else
      var sum := AddGroup(s[0], bitpos, acc);
      if sum.None? then None
      else if s[0] >= 128 then Varint32Tail(s[1..], (bitpos + 7) % 256, sum.value)
      // The last byte at bit 28 has room for four bits.
      else if bitpos == 28 && s[0] >= 16 then None
      else Some((sum.value, s[1..]))
  }

  lemma NextPosition(bitpos: BitPos)
    ensures (bitpos + 7) % 256 == if bitpos < 249 then bitpos + 7 else bitpos - 249
  {
  }

  lemma GroupSizes()
    ensures Bound(1) == 0x80 && Bound(2) == 0x4000 && Bound(3) == 0x20_0000 && Bound(4) == 0x1000_0000
  {
    assert Bound(1) == 128 * Bound(0);
    assert Bound(2) == 128 * Bound(1);
    assert Bound(3) == 128 * Bound(2);
    assert Bound(4) == 128 * Bound(3);
  }

  lemma {:induction false} GroupBits(k: nat)
    ensures Pow2(7 * k) == Bound(k)
  {
    if k > 0 {
      GroupBits(k - 1);
      var n := 7 * k - 7;
      assert Pow2(n + 1) == 2 * Pow2(n) && Pow2(n + 2) == 2 * Pow2(n + 1) && Pow2(n + 3) == 2 * Pow2(n + 2);
      FourMore(n + 3);
    }
  }

  /** A group whose bits fit is added. */
  lemma GroupAdds(byte: Byte, k: nat, acc: Word, sum: nat)
    requires 1 <= k <= 4 && acc < Bound(k) && sum == acc + (byte as int) % 128 * Bound(k) && sum < TWO_TO_32
    ensures AddGroup(byte, 7 * k, acc) == Some(sum)
  {
    var c := (byte as int) % 128;
    GroupBits(k);
    WordHasBits(32);
    OrAdds(acc, c, 7 * k, 32);
    Wraps(c * Bound(k), TWO_TO_32, 0);
  }

  lemma Regroup(v: nat, unit: nat, acc: nat)
    ensures acc + v * unit == (acc + v % 128 * unit) + v / 128 * (128 * unit)
    ensures v / 128 * (128 * unit) >= 0
    ensures v >= 128 ==> v * unit >= 128 * unit
  {
    calc {
      v * unit;
      { assert v == v % 128 + 128 * (v / 128); }
      (v % 128 + 128 * (v / 128)) * unit;
      v % 128 * unit + v / 128 * (128 * unit);
    }
  }

  /** One turn of the reader's loop, at a byte that continues the number. */
  lemma TailStep(s: Bytes, k: nat, acc: Word, sum: Word)
    requires s != [] && 1 <= k <= 4 && acc < Bound(k) && sum == acc + (s[0] as int) % 128 * Bound(k) && s[0] >= 128
    ensures Varint32Tail(s, 7 * k, acc) == Varint32Tail(s[1..], 7 * k + 7, sum)
  {
    GroupAdds(s[0], k, acc, sum);
  }

  /** And at the last one. */
  lemma TailEnds(s: Bytes, k: nat, acc: Word, sum: Word)
    requires s != [] && 1 <= k <= 4 && acc < Bound(k) && sum == acc + (s[0] as int) % 128 * Bound(k) && s[0] < 128
    requires k < 4 || s[0] < 16
    ensures Varint32Tail(s, 7 * k, acc) == Some((sum, s[1..]))
  {
    GroupAdds(s[0], k, acc, sum);
  }

  lemma {:induction false} TailReadsVarint(v: nat, rest: Bytes, k: nat, acc: Word)
    requires 1 <= k <= 4 && acc < Bound(k) && acc + v * Bound(k) < TWO_TO_32
    ensures Varint32Tail(Varint(v) + rest, 7 * k, acc) == Some((acc + v * Bound(k), rest))
    decreases 4 - k
  {
    var s, sum := Varint(v) + rest, acc + v % 128 * Bound(k);
    GroupFits(v, k, acc, sum);
    VarintStarts(v, rest);
    if v < 128 {
      TailEnds(s, k, acc, sum);
    } else {
      TailStep(s, k, acc, sum);
      TailReadsVarint(v / 128, rest, k + 1, sum);
      assert 7 * (k + 1) == 7 * k + 7;
    }
  }

  /** What the sum leaves for the groups that follow. */
  lemma GroupFits(v: nat, k: nat, acc: nat, sum: nat)
    requires 1 <= k <= 4 && acc < Bound(k) && acc + v * Bound(k) < TWO_TO_32 && sum == acc + v % 128 * Bound(k)
    ensures sum + v / 128 * Bound(k + 1) == acc + v * Bound(k) && sum < TWO_TO_32
    ensures v >= 128 ==> k < 4 && sum < Bound(k + 1)
    ensures v < 128 ==> (k < 4 || v < 16) && sum == acc + v * Bound(k)
  {
    GroupSizes();
    var unit := Bound(k);
    Regroup(v, unit, acc);
    assert Bound(k + 1) == 128 * unit;
    assert v % 128 * unit <= 127 * unit;
  }

  lemma VarintStarts(v: nat, rest: Bytes)
    ensures var s := Varint(v) + rest;
      if v < 128 then s[0] == v && s[1..] == rest
      else s[0] == 128 + v % 128 && s[1..] == Varint(v / 128) + rest
  {
  }

  lemma Varint32Reads(w: Word, rest: Bytes)
    ensures Varint32(Varint(w) + rest) == Some((w, rest))
  {
    var s := Varint(w) + rest;
    if w < 128 {
      assert s[1..] == rest;
    } else {
      assert s[0] == 128 + w % 128 && s[1..] == Varint(w / 128) + rest;
      GroupSizes();
      TailReadsVarint(w / 128, rest, 1, w % 128);
    }
  }

  /** The 64-bit reader keeps the low sixty-four bits of at most ten groups. */
  function Varint64(s: Bytes): (r: Option<(Quad, Bytes)>)
    ensures r.Some? ==> |r.value.1| < |s|
  {
    SpelledShrinks(s, 10);
    GetVarint64(s)
  }

  // ---- Integers of a declared size ----

  /** The number of values a C integer of `size` bytes can hold; zero for a size the codec refuses. */
  function Span(size: nat): (r: nat) {
    match size
    case 1 => 0x100
    case 2 => 0x1_0000
    case 4 => TWO_TO_32
    case 8 => TWO_TO_64
    case _ => 0
  }

  /** Reading the low bits of `n` as a two's complement number with `span` values. */
  function Signed(n: int, span: nat): (r: int)
    requires span > 0
  {
    if n % span < span / 2 then n % span else n % span - span
  }

  predicate InSigned(n: int, size: nat) {
    -(Span(size) as int) / 2 <= n < Span(size) / 2
  }

  predicate InUnsigned(n: int, size: nat) {
    0 <= n < Span(size)
  }

  function ReadSigned(q: Quad, size: nat): (r: Option<int>) {
    if Span(size) == 0 then None
    else
      var n := if size == 8 then Signed(q, TWO_TO_64) else Signed(q, TWO_TO_32);
      var clamped := Signed(n, Span(size));
      if clamped != n then None else Some(n)
  }

  function ReadUnsigned(q: Quad, size: nat): (r: Option<int>) {
    if Span(size) == 0 then None
    else
      var clamped := q % Span(size);
      if clamped != q then None else Some(q)
  }

  function ReadZigzag(q: Quad, size: nat): (r: Option<int>) {
    if Span(size) == 0 then None
    else
      var n := Unzigzag(q);
      var clamped := Signed(n, Span(size));
      if clamped != n then None else Some(n)
  }

  /** The cast to an unsigned 64-bit number. */
  function ToQuad(n: int): (r: Quad) {
    n % TWO_TO_64
  }

  function Zigzag(n: int): (r: Quad) {
    if n < 0 then TWO_TO_64 - 1 - ToQuad(2 * n) else ToQuad(2 * n)
  }

  function Unzigzag(q: Quad): (r: int) {
    if q % 2 == 1 then Signed(TWO_TO_64 - 1 - q / 2, TWO_TO_64) else Signed(q / 2, TWO_TO_64)
  }

  lemma Clamps(n: int, size: nat)
    ensures InSigned(n, size) ==> Signed(n, Span(size)) == n
    ensures Span(size) > 0 ==> InSigned(Signed(n, Span(size)), size)
  {
    var span := Span(size);
    if InSigned(n, size) {
      if n < 0 {
        Wraps(n, span, -1);
      } else {
        Wraps(n, span, 0);
      }
    }
  }

  lemma Wraps(n: int, span: nat, k: int)
    requires span > 0 && k * span <= n < k * span + span
    ensures n % span == n - k * span
  {
    var q, r := n / span, n % span;
    assert n == q * span + r;
    assert q < k ==> (q + 1) * span <= k * span;
    assert q > k ==> (k + 1) * span <= q * span;
  }

  lemma SignedRoundTrip(n: int, size: nat)
    requires InSigned(n, size)
    ensures ReadSigned(ToQuad(n), size) == Some(n)
  {
    Clamps(n, size);
    if size == 8 {
      Wide(n);
    } else {
      Narrow32(n);
    }
  }

  /** A negative number's unsigned image, read back as a signed one. */
  lemma Wide(n: int)
    requires InSigned(n, 8)
    ensures Signed(ToQuad(n), TWO_TO_64) == n
  {
    Wraps(n, TWO_TO_64, if n < 0 then -1 else 0);
    Wraps(ToQuad(n), TWO_TO_64, 0);
  }

  lemma Narrow32(n: int)
    requires InSigned(n, 4)
    ensures Signed(ToQuad(n), TWO_TO_32) == n
  {
    Wraps(n, TWO_TO_64, if n < 0 then -1 else 0);
    Wraps(ToQuad(n), TWO_TO_32, if n < 0 then TWO_TO_32 - 1 else 0);
  }

  lemma UnsignedRoundTrip(n: int, size: nat)
    requires InUnsigned(n, size)
    ensures ReadUnsigned(ToQuad(n), size) == Some(n)
  {
    Wraps(n, TWO_TO_64, 0);
    Wraps(n, Span(size), 0);
  }

  lemma ZigzagRoundTrip(n: int, size: nat)
    requires InSigned(n, size)
    ensures ReadZigzag(Zigzag(n), size) == Some(n)
  {
    Clamps(n, size);
    Unzigzags(n);
  }

  lemma Unzigzags(n: int)
    requires InSigned(n, 8)
    ensures Unzigzag(Zigzag(n)) == n
  {
    Clamps(n, 8);
    if n < 0 {
      Wraps(2 * n, TWO_TO_64, -1);
      var q := Zigzag(n);
      assert q == -2 * n - 1 && q % 2 == 1 && q / 2 == -n - 1;
      Wraps(TWO_TO_64 + n, TWO_TO_64, 0);
    } else {
      Wraps(2 * n, TWO_TO_64, 0);
      var q := Zigzag(n);
      assert q % 2 == 0 && q / 2 == n;
    }
  }

  lemma ReadsAreInRange(q: Quad, size: nat)
    ensures ReadSigned(q, size).Some? ==> InSigned(ReadSigned(q, size).value, size)
    ensures ReadZigzag(q, size).Some? ==> InSigned(ReadZigzag(q, size).value, size)
    ensures ReadUnsigned(q, size).Some? ==> InUnsigned(ReadUnsigned(q, size).value, size)
  {
    if Span(size) > 0 {
      Clamps(if size == 8 then Signed(q, TWO_TO_64) else Signed(q, TWO_TO_32), size);
      Clamps(Unzigzag(q), size);
    }
  }
}
