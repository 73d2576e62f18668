/** The Bloom filter policy: a filter never rejects a key it was built from. */
module Bloom {
  import opened Coding
  import opened FilterLayout

  type Bits = seq<bv8>

  /** The hash of a key, seeded for filters. */
  type Hash = Bytes -> Word

  /** The first hash rotated right by 17 bits. */
  function Delta(h: Word): (r: Word) {
    h / 0x2_0000 + (h % 0x2_0000) * 0x8000
  }

  function Plus(a: Word, b: Word): (r: Word) {
    (a + b) % 0x1_0000_0000
  }

  /** The `j`-th probe, by double hashing. */
  function Probe(h: Word, j: nat): (r: Word) {
    if j == 0 then h else Plus(Probe(h, j - 1), Delta(h))
  }

  function Position(h: Word, bits: nat): (p: nat)
    requires bits > 0
    ensures p < bits
  {
    h % bits
  }

  predicate IsSet(bs: Bits, p: nat)
    requires p < 8 * |bs|
  {
    bs[p / 8] & (1 << (p % 8)) != 0
  }

  function Set(bs: Bits, p: nat): (r: Bits)
    requires p < 8 * |bs|
    ensures |r| == |bs|
  {
    bs[p / 8 := bs[p / 8] | (1 << (p % 8))]
  }

  lemma MaskIsOneBit(k: nat)
    requires k < 8
    ensures (1 as bv8) << k != 0
  {
    if k == 0 {} else if k == 1 {} else if k == 2 {} else if k == 3 {} else if k == 4 {} else if k == 5 {}
      else if k == 6 {} else {}
  }

  lemma OrKeeps(x: bv8, y: bv8, m: bv8)
    ensures x & m != 0 ==> (x | y) & m != 0
    ensures m != 0 ==> (x | m) & m != 0
  {
  }

  lemma SetSets(bs: Bits, p: nat, q: nat)
    requires p < 8 * |bs| && q < 8 * |bs|
    ensures IsSet(Set(bs, p), p) && (IsSet(bs, q) ==> IsSet(Set(bs, p), q))
  {
    MaskIsOneBit(p % 8);
    var m: bv8 := 1 << (p % 8);
    OrKeeps(bs[p / 8], m, m);
    OrKeeps(bs[q / 8], m, 1 << (q % 8));
  }

  /** All probes of the hash are set. */
  predicate Covers(bs: Bits, h: Word, k: nat) {
    |bs| > 0 && forall j :: 0 <= j < k ==> IsSet(bs, Position(Probe(h, j), 8 * |bs|))
  }

  /** Setting more bits loses none. */
  ghost predicate Extends(a: Bits, b: Bits) {
    |a| == |b| && forall p :: 0 <= p < 8 * |a| && IsSet(a, p) ==> IsSet(b, p)
  }

  lemma SetExtends(bs: Bits, p: nat)
    requires p < 8 * |bs|
    ensures Extends(bs, Set(bs, p)) && IsSet(Set(bs, p), p)
  {
    SetSets(bs, p, p);
    forall q | 0 <= q < 8 * |bs| && IsSet(bs, q) ensures IsSet(Set(bs, p), q) {
      SetSets(bs, p, q);
    }
  }

  lemma ExtendsTransitive(a: Bits, b: Bits, c: Bits)
    requires Extends(a, b) && Extends(b, c)
    ensures Extends(a, c)
  {
  }

  lemma StillCovers(a: Bits, b: Bits, h: Word, k: nat)
    requires Extends(a, b) && Covers(a, h, k)
    ensures Covers(b, h, k)
  {
  }

  lemma CoversOneMore(bs: Bits, h: Word, j: nat)
    requires Covers(bs, h, j) && IsSet(bs, Position(Probe(h, j), 8 * |bs|))
    ensures Covers(bs, h, j + 1)
  {
  }

  lemma NextProbe(h: Word, j: nat)
    ensures Probe(h, j + 1) == Plus(Probe(h, j), Delta(h))
  {
  }

  // ---- Creating a filter ----

  /** The bits with the first `k` probes of a hash set. */
  function WithProbes(bs: Bits, h: Word, k: nat): (r: Bits)
    requires |bs| > 0
    ensures |r| == |bs|
  {
    if k == 0 then bs else Set(WithProbes(bs, h, k - 1), Position(Probe(h, k - 1), 8 * |bs|))
  }

  /** The bits with the probes of the first `n` keys set. */
  function WithKeys(hash: Hash, bs: Bits, keys: seq<Bytes>, n: nat, k: nat): (r: Bits)
    requires |bs| > 0 && n <= |keys|
    ensures |r| == |bs|
  {
    if n == 0 then bs else WithProbes(WithKeys(hash, bs, keys, n - 1, k), hash(keys[n - 1]), k)
  }

  lemma {:induction false} ProbesCover(bs: Bits, h: Word, k: nat)
    requires |bs| > 0
    ensures Extends(bs, WithProbes(bs, h, k)) && Covers(WithProbes(bs, h, k), h, k)
  {
    if k > 0 {
      ProbesCover(bs, h, k - 1);
      var before := WithProbes(bs, h, k - 1);
      SetExtends(before, Position(Probe(h, k - 1), 8 * |bs|));
      ExtendsTransitive(bs, before, WithProbes(bs, h, k));
      StillCovers(before, WithProbes(bs, h, k), h, k - 1);
      CoversOneMore(WithProbes(bs, h, k), h, k - 1);
    }
  }

  lemma {:induction false} KeysCovered(hash: Hash, bs: Bits, keys: seq<Bytes>, n: nat, k: nat, i: nat)
    requires |bs| > 0 && i < n <= |keys|
    ensures Covers(WithKeys(hash, bs, keys, n, k), hash(keys[i]), k)
  {
    var before := WithKeys(hash, bs, keys, n - 1, k);
    ProbesCover(before, hash(keys[n - 1]), k);
    if i < n - 1 {
      KeysCovered(hash, bs, keys, n - 1, k, i);
      StillCovers(before, WithKeys(hash, bs, keys, n, k), hash(keys[i]), k);
    }
  }

  /** The inner loop of CreateFilter: sets the bits of one key. */
  method AddKey(bs: Bits, hash: Word, k: nat) returns (r: Bits)
    requires |bs| > 0
    ensures r == WithProbes(bs, hash, k)
  {
    r := bs;
    var h, delta := hash, Delta(hash);
    for j := 0 to k
      invariant r == WithProbes(bs, hash, j) && h == Probe(hash, j)
    {
      r := Set(r, Position(h, 8 * |r|));
      NextProbe(hash, j);
      h := Plus(h, delta);
    }
  }

  /** No bit set: at least 64 bits, and whole bytes. */
  function Cleared(n: nat, bitsPerKey: nat): (bs: Bits)
    ensures |bs| >= 8
  {
    var bits := if n * bitsPerKey < 64 then 64 else n * bitsPerKey;
    seq((bits + 7) / 8, _ => 0)
  }

  function Bits8(bs: Bits): (r: Bytes) {
    seq(|bs|, i requires 0 <= i < |bs| => bs[i] as int)
  }

  function FromBits8(s: Bytes): (r: Bits) {
    seq(|s|, i requires 0 <= i < |s| => s[i] as bv8)
  }

  lemma BitsRoundTrip(bs: Bits)
    ensures FromBits8(Bits8(bs)) == bs
  {
  }

  /** The bytes of a filter: its bits, then the number of probes. */
  function FilterBytes(hash: Hash, keys: seq<Bytes>, bitsPerKey: nat, k: nat): (r: Bytes)
    requires k < 256
  {
    Bits8(WithKeys(hash, Cleared(|keys|, bitsPerKey), keys, |keys|, k)) + [k]
  }

  method CreateFilter(hash: Hash, keys: seq<Bytes>, bitsPerKey: nat, k: nat) returns (filter: Bytes)
    requires 1 <= k <= 30
    ensures filter == FilterBytes(hash, keys, bitsPerKey, k)
  {
    var bits := |keys| * bitsPerKey;
    if bits < 64 {
      bits := 64;
    }
    var bytes := (bits + 7) / 8;
    var bs: Bits := seq(bytes, _ => 0);
    ghost var zeros := Cleared(|keys|, bitsPerKey);
    for i := 0 to |keys|
      invariant bs == WithKeys(hash, zeros, keys, i, k)
    {
      bs := AddKey(bs, hash(keys[i]), k);
    }
    filter := Bits8(bs) + [k];
  }

  // ---- Asking a filter ----

  predicate Accepts(hash: Hash, key: Bytes, filter: Bytes) {
    |filter| >= 2
    && var last := |filter| - 1;
       // More than thirty probes are reserved for new encodings, which match everything.
       filter[last] > 30 || Covers(FromBits8(filter[..last]), hash(key), filter[last])
  }

  method KeyMayMatch(hash: Hash, key: Bytes, filter: Bytes) returns (match_: bool)
    ensures match_ == Accepts(hash, key, filter)
  {
    if |filter| < 2 {
      return false;
    }
    var k := filter[|filter| - 1];
    if k > 30 {
      return true;
    }
    var bs := FromBits8(filter[..|filter| - 1]);
    var first := hash(key);
    var h, delta := first, Delta(first);
    for j := 0 to k
      invariant h == Probe(first, j) && Covers(bs, first, j)
    {
      if !IsSet(bs, Position(h, 8 * |bs|)) {
        return false;
      }
      CoversOneMore(bs, first, j);
      NextProbe(first, j);
      h := Plus(h, delta);
    }
    return true;
  }

  /** A filter accepts every key it was created from. */
  lemma CreatedFilterMatches(hash: Hash, keys: seq<Bytes>, bitsPerKey: nat, k: nat, i: nat)
    requires k < 256 && i < |keys|
    ensures Accepts(hash, keys[i], FilterBytes(hash, keys, bitsPerKey, k))
  {
    var bs := WithKeys(hash, Cleared(|keys|, bitsPerKey), keys, |keys|, k);
    var filter := FilterBytes(hash, keys, bitsPerKey, k);
    KeysCovered(hash, Cleared(|keys|, bitsPerKey), keys, |keys|, k, i);
    assert filter[..|filter| - 1] == Bits8(bs);
    BitsRoundTrip(bs);
  }

  // ---- Nothing else is set ----

  lemma MaskOf(k: nat)
    requires k < 8
    ensures (1 as bv8) << k == if k == 0 then 1 else if k == 1 then 2 else if k == 2 then 4 else if k == 3 then 8
      else if k == 4 then 16 else if k == 5 then 32 else if k == 6 then 64 else 128
  {
    if k == 0 {} else if k == 1 {} else if k == 2 {} else if k == 3 {} else if k == 4 {} else if k == 5 {}
      else if k == 6 {} else {}
  }

  lemma MasksApart(k: nat, l: nat)
    requires k < 8 && l < 8 && k != l
    ensures ((1 as bv8) << k) & ((1 as bv8) << l) == 0
  {
    MaskOf(k);
    MaskOf(l);
  }

  lemma OrAdds(x: bv8, y: bv8, m: bv8)
    requires y & m == 0
    ensures (x | y) & m == x & m
  {
  }

  /** Setting a bit sets no other. */
  lemma SetOnly(bs: Bits, p: nat, q: nat)
    requires p < 8 * |bs| && q < 8 * |bs|
    ensures IsSet(Set(bs, p), q) <==> q == p || IsSet(bs, q)
  {
    SetSets(bs, p, q);
    if p / 8 == q / 8 && p != q {
      MasksApart(p % 8, q % 8);
      OrAdds(bs[p / 8], 1 << (p % 8), 1 << (q % 8));
    }
  }

  /** Bit `p` is one of the first `k` probes of the hash. */
  ghost predicate IsProbe(h: Word, k: nat, bits: nat, p: nat)
    requires bits > 0
  {
    exists j {:trigger Probe(h, j)} :: 0 <= j < k && Position(Probe(h, j), bits) == p
  }

  lemma {:induction false} ProbesOnly(bs: Bits, h: Word, k: nat, p: nat)
    requires p < 8 * |bs|
    ensures IsSet(WithProbes(bs, h, k), p) <==> IsSet(bs, p) || IsProbe(h, k, 8 * |bs|, p)
  {
    if k > 0 {
      var at := Position(Probe(h, k - 1), 8 * |bs|);
      ProbesOnly(bs, h, k - 1, p);
      SetOnly(WithProbes(bs, h, k - 1), at, p);
      assert IsProbe(h, k, 8 * |bs|, p) <==> IsProbe(h, k - 1, 8 * |bs|, p) || at == p;
    }
  }

  /** Bit `p` is a probe of one of the first `n` keys. */
  ghost predicate IsProbeOf(hash: Hash, keys: seq<Bytes>, n: nat, k: nat, bits: nat, p: nat)
    requires bits > 0 && n <= |keys|
  {
    exists i :: 0 <= i < n && IsProbe(hash(keys[i]), k, bits, p)
  }

  lemma {:induction false} KeysOnly(hash: Hash, bs: Bits, keys: seq<Bytes>, n: nat, k: nat, p: nat)
    requires p < 8 * |bs| && n <= |keys|
    ensures IsSet(WithKeys(hash, bs, keys, n, k), p) <==>
      IsSet(bs, p) || IsProbeOf(hash, keys, n, k, 8 * |bs|, p)
  {
    if n > 0 {
      KeysOnly(hash, bs, keys, n - 1, k, p);
      ProbesOnly(WithKeys(hash, bs, keys, n - 1, k), hash(keys[n - 1]), k, p);
      assert IsProbeOf(hash, keys, n, k, 8 * |bs|, p) <==>
        IsProbeOf(hash, keys, n - 1, k, 8 * |bs|, p) || IsProbe(hash(keys[n - 1]), k, 8 * |bs|, p);
    }
  }

  /** Each of the first `k` probes of the key is also a probe of one of `keys`. */
  ghost predicate ProbesShared(hash: Hash, keys: seq<Bytes>, k: nat, bits: nat, key: Bytes)
    requires bits > 0
  {
    forall j {:trigger Probe(hash(key), j)} ::
      0 <= j < k ==> IsProbeOf(hash, keys, |keys|, k, bits, Position(Probe(hash(key), j), bits))
  }

  lemma CoversIffShared(hash: Hash, zeros: Bits, keys: seq<Bytes>, k: nat, key: Bytes)
    requires |zeros| > 0 && forall i :: 0 <= i < |zeros| ==> zeros[i] == 0
    ensures Covers(WithKeys(hash, zeros, keys, |keys|, k), hash(key), k) <==>
      ProbesShared(hash, keys, k, 8 * |zeros|, key)
  {
    var bs, bits := WithKeys(hash, zeros, keys, |keys|, k), 8 * |zeros|;
    forall j | 0 <= j < k
      ensures IsSet(bs, Position(Probe(hash(key), j), bits)) <==>
        IsProbeOf(hash, keys, |keys|, k, bits, Position(Probe(hash(key), j), bits))
    {
      var p := Position(Probe(hash(key), j), bits);
      KeysOnly(hash, zeros, keys, |keys|, k, p);
      AndZero(1 << (p % 8));
    }
  }

  /** A filter accepts a key exactly when each probe of the key is also a probe of a key that it was created from. */
  lemma FilterAcceptsIff(hash: Hash, keys: seq<Bytes>, bitsPerKey: nat, k: nat, key: Bytes)
    requires 1 <= k <= 30
    ensures Accepts(hash, key, FilterBytes(hash, keys, bitsPerKey, k)) <==>
      ProbesShared(hash, keys, k, 8 * |Cleared(|keys|, bitsPerKey)|, key)
  {
    var zeros, filter := Cleared(|keys|, bitsPerKey), FilterBytes(hash, keys, bitsPerKey, k);
    var bs := WithKeys(hash, zeros, keys, |keys|, k);
    assert filter[..|filter| - 1] == Bits8(bs) && filter[|filter| - 1] == k;
    BitsRoundTrip(bs);
    CoversIffShared(hash, zeros, keys, k, key);
  }

  lemma AndZero(m: bv8)
    ensures (0 as bv8) & m == 0
  {
  }

  /** A filter has at least `bitsPerKey` bits for each key, at least 64, and less than a byte more. */
  lemma FilterSize(hash: Hash, keys: seq<Bytes>, bitsPerKey: nat, k: nat)
    requires k < 256
    ensures var bits, n := |keys| * bitsPerKey, 8 * (|FilterBytes(hash, keys, bitsPerKey, k)| - 1);
      n >= 64 && bits <= n && (bits >= 64 ==> n < bits + 8) && (bits < 64 ==> n == 64)
  {
  }

  /** The policy a table is built and read with; the probe count lies between 1 and 30. */
  function BloomPolicy(hash: Hash, bitsPerKey: nat, k: nat): (r: Policy)
    requires 1 <= k <= 30
  {
    Policy(keys => FilterBytes(hash, keys, bitsPerKey, k), (key, filter) => Accepts(hash, key, filter))
  }

  /** What filter blocks and tables require of a policy. */
  lemma BloomIsLawful(hash: Hash, bitsPerKey: nat, k: nat)
    requires 1 <= k <= 30
    ensures Lawful(BloomPolicy(hash, bitsPerKey, k))
  {
    var policy := BloomPolicy(hash, bitsPerKey, k);
    forall keys, i | 0 <= i < |keys| ensures policy.matches(keys[i], policy.create(keys)) {
      CreatedFilterMatches(hash, keys, bitsPerKey, k, i);
    }
  }
}
