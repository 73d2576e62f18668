/** The bytewise comparator, internal keys as bytes, and the short keys that separate blocks. */
module Separators {
  import opened Coding
  import InternalKeys
  import Order

  predicate LexLess(a: Bytes, b: Bytes) {
    if b == [] then false
    else if a == [] then true
    else if a[0] != b[0] then a[0] < b[0]
    else LexLess(a[1..], b[1..])
  }

  lemma {:induction false} LexIrreflexive(a: Bytes)
    ensures !LexLess(a, a)
  {
    if a != [] {
      LexIrreflexive(a[1..]);
    }
  }

  lemma {:induction false} LexTransitive(a: Bytes, b: Bytes, c: Bytes)
    requires LexLess(a, b) && LexLess(b, c)
    ensures LexLess(a, c)
  {
    if a != [] && a[0] == b[0] == c[0] {
      LexTransitive(a[1..], b[1..], c[1..]);
    }
  }

  lemma {:induction false} LexTotal(a: Bytes, b: Bytes)
    ensures a == b || LexLess(a, b) || LexLess(b, a)
  {
    if a != [] && b != [] && a[0] == b[0] {
      LexTotal(a[1..], b[1..]);
      assert a == [a[0]] + a[1..] && b == [b[0]] + b[1..];
    }
  }

  /** After a common prefix the first difference decides. */
  lemma {:induction false} LexAt(a: Bytes, b: Bytes, d: nat)
    requires d < |a| && d < |b| && a[..d] == b[..d] && a[d] != b[d]
    ensures LexLess(a, b) <==> a[d] < b[d]
  {
    if d > 0 {
      assert a[0] == a[..d][0] && b[0] == b[..d][0];
      assert a[1..][..d - 1] == a[..d][1..] && b[1..][..d - 1] == b[..d][1..];
      LexAt(a[1..], b[1..], d - 1);
    }
  }

  /** At `d` the strings differ for the first time, and `start` can be raised there and stay below `limit`. */
  ghost predicate Splits(start: Bytes, limit: Bytes, d: nat) {
    && d < |start| && d < |limit| && start[..d] == limit[..d]
    && start[d] as int + 1 < limit[d] as int
  }

  /** The first byte that can be raised. */
  ghost predicate Raises(key: Bytes, i: nat) {
    i < |key| && key[i] != 0xff && forall k :: 0 <= k < i ==> key[k] == 0xff
  }

  /** The string raised at `d` and cut off behind it. */
  function Raised(s: Bytes, d: nat): (r: Bytes)
    requires d < |s| && s[d] != 0xff
  {
    s[..d] + [s[d] + 1]
  }

  lemma SameBelow(a: Bytes, b: Bytes, n: nat)
    requires n <= |a| && n <= |b| && a[..n] == b[..n]
    ensures forall k :: 0 <= k < n ==> a[k] == b[k]
  {
    forall k | 0 <= k < n ensures a[k] == b[k] {
      assert a[k] == a[..n][k] && b[k] == b[..n][k];
    }
  }

  /** The strings differ for the first time at one place only. */
  lemma SplitsOnce(start: Bytes, limit: Bytes, diff: nat, d: nat)
    requires diff <= |start| && diff <= |limit| && start[..diff] == limit[..diff] && Splits(start, limit, d)
    requires diff < |start| && diff < |limit| ==> start[diff] != limit[diff]
    ensures d == diff
  {
    SameBelow(start, limit, diff);
    SameBelow(start, limit, d);
  }

  /** Shortens `start` to a string from `start` on that is still below `limit`. */
  method FindShortestSeparator(start: Bytes, limit: Bytes) returns (r: Bytes)
    ensures |r| <= |start| && (r == start || (LexLess(start, r) && LexLess(r, limit)))
    ensures forall d: nat :: Splits(start, limit, d) ==> r == Raised(start, d)
    ensures (forall d: nat :: !Splits(start, limit, d)) ==> r == start
  {
    var minLength := if |start| < |limit| then |start| else |limit|;
    var diff := 0;
    while diff < minLength && start[diff] == limit[diff]
      invariant diff <= minLength && start[..diff] == limit[..diff]
    {
      diff := diff + 1;
    }
    forall d: nat | Splits(start, limit, d) ensures d == diff {
      SplitsOnce(start, limit, diff, d);
    }
    r := start;
    if diff >= minLength {
      // Do not shorten if one string is a prefix of the other.
    } else {
      var diffByte: int := start[diff];
      if diffByte < 0xff && diffByte + 1 < limit[diff] {
        r := start[..diff] + [diffByte + 1];
        assert r[..diff] == start[..diff];
        LexAt(start, r, diff);
        LexAt(r, limit, diff);
        assert Splits(start, limit, diff);
      }
    }
  }

  /** Among the strings between both, the separator is a shortest one, and of those the least. */
  lemma {:induction false} SeparatorIsShortest(start: Bytes, limit: Bytes, d: nat, s: Bytes)
    requires Splits(start, limit, d) && LexLess(start, s) && LexLess(s, limit)
    ensures |s| > d && (|s| == d + 1 ==> s == Raised(start, d) || LexLess(Raised(start, d), s))
  {
    if d > 0 {
      assert start[0] == start[..d][0] == limit[0];
      assert start[1..][..d - 1] == start[..d][1..] && limit[1..][..d - 1] == limit[..d][1..];
      SeparatorIsShortest(start[1..], limit[1..], d - 1, s[1..]);
      assert Raised(start, d)[1..] == Raised(start[1..], d - 1);
      assert s == [s[0]] + s[1..] && Raised(start, d) == [start[0]] + Raised(start, d)[1..];
    } else {
      assert |s| == 1 ==> s == [s[0]];
    }
  }

  method FindShortSuccessor(key: Bytes) returns (r: Bytes)
    ensures |r| <= |key| && (r == key || LexLess(key, r))
    ensures forall i: nat :: Raises(key, i) ==> r == Raised(key, i)
    ensures (forall i: nat :: !Raises(key, i)) ==> r == key
  {
    for i := 0 to |key|
      invariant forall k :: 0 <= k < i ==> key[k] == 0xff
    {
      var byte: int := key[i];
      if byte != 0xff {
        r := key[..i] + [byte + 1];
        assert r[..i] == key[..i];
        LexAt(key, r, i);
        assert Raises(key, i) && forall k :: Raises(key, k) ==> k == i;
        return;
      }
    }
    // The key is a run of 0xff bytes and is left alone.
    r := key;
  }

  /** Among the strings above the key, the successor is a shortest one, and of those the least. */
  lemma {:induction false} SuccessorIsShortest(key: Bytes, i: nat, s: Bytes)
    requires Raises(key, i) && LexLess(key, s)
    ensures |s| > i && (|s| == i + 1 ==> s == Raised(key, i) || LexLess(Raised(key, i), s))
  {
    if i > 0 {
      assert Raises(key[1..], i - 1);
      SuccessorIsShortest(key[1..], i - 1, s[1..]);
      assert Raised(key, i)[1..] == Raised(key[1..], i - 1);
      assert s == [s[0]] + s[1..] && Raised(key, i) == [key[0]] + Raised(key, i)[1..];
    } else {
      assert |s| == 1 ==> s == [s[0]];
    }
  }

  // ---- Internal keys ----

  /** A user key and its eight-byte tag, sequence number and type packed. */
  datatype Key = Key(user: Bytes, tag: Quad)

  const MAX_TAG: Quad := 0xFF_FFFF_FFFF_FFFF * 256 + 1

  predicate Before(a: Key, b: Key) {
    LexLess(a.user, b.user) || (a.user == b.user && a.tag > b.tag)
  }

  predicate AtMost(a: Key, b: Key) {
    a == b || Before(a, b)
  }

  lemma BeforeTransitive(a: Key, b: Key, c: Key)
    requires AtMost(a, b) && AtMost(b, c)
    ensures AtMost(a, c) && (Before(a, b) || Before(b, c) ==> Before(a, c))
  {
    if LexLess(a.user, b.user) && LexLess(b.user, c.user) {
      LexTransitive(a.user, b.user, c.user);
    }
  }

  lemma BeforeTotal(a: Key, b: Key)
    ensures a == b || Before(a, b) || Before(b, a)
  {
    LexTotal(a.user, b.user);
  }

  /** The bytewise comparator, as a relation. */
  ghost const LEX := (a: Bytes, b: Bytes) => LexLess(a, b)

  lemma LexIsTotalOrder()
    ensures Order.StrictTotalOrder(LEX)
  {
    forall a ensures !LEX(a, a) {
      LexIrreflexive(a);
    }
    forall a, b, c | LEX(a, b) && LEX(b, c) ensures LEX(a, c) {
      LexTransitive(a, b, c);
    }
    forall a, b | a != b ensures LEX(a, b) || LEX(b, a) {
      LexTotal(a, b);
    }
  }

  /** Byte keys compare as the ranked keys of the store modules do. */
  lemma RankedKeysCompare(users: set<Bytes>, a: Key, b: Key, ra: InternalKeys.InternalKey, rb: InternalKeys.InternalKey)
    requires a.user in users && b.user in users
    requires ra.user == Order.Rank(LEX, users, a.user) && InternalKeys.Tag(ra) == a.tag
    requires rb.user == Order.Rank(LEX, users, b.user) && InternalKeys.Tag(rb) == b.tag
    ensures Before(a, b) <==> InternalKeys.Before(ra, rb)
  {
    LexIsTotalOrder();
    Order.RankPreservesOrder(LEX, users, a.user, b.user);
  }

  /** A separator is the last key of its block, or its user key lies strictly between the last
      user key of the block and the first one of the next. */
  ghost predicate Separates(last: Key, sep: Key, limit: Key) {
    sep == last || (LexLess(last.user, sep.user) && LexLess(sep.user, limit.user))
  }

  method FindInternalSeparator(start: Key, limit: Key) returns (r: Key)
    ensures Separates(start, r, limit) && |r.user| <= |start.user|
    ensures forall d: nat :: Splits(start.user, limit.user, d) && d + 1 < |start.user| ==>
      r == Key(Raised(start.user, d), MAX_TAG)
    ensures (forall d: nat :: Splits(start.user, limit.user, d) ==> d + 1 >= |start.user|) ==> r == start
  {
    LexIrreflexive(start.user);
    var tmp := FindShortestSeparator(start.user, limit.user);
    if |tmp| < |start.user| && LexLess(start.user, tmp) {
      // Shorter physically, but larger logically: the earliest possible tag goes with it.
      r := Key(tmp, MAX_TAG);
    } else {
      r := start;
    }
  }

  method FindInternalSuccessor(key: Key) returns (r: Key)
    ensures (r == key || LexLess(key.user, r.user)) && |r.user| <= |key.user|
    ensures forall i: nat :: Raises(key.user, i) && i + 1 < |key.user| ==> r == Key(Raised(key.user, i), MAX_TAG)
    ensures (forall i: nat :: Raises(key.user, i) ==> i + 1 >= |key.user|) ==> r == key
  {
    var tmp := FindShortSuccessor(key.user);
    if |tmp| < |key.user| && LexLess(key.user, tmp) {
      r := Key(tmp, MAX_TAG);
    } else {
      r := key;
    }
  }
}
