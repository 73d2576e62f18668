/** User comparators, and why the store modules may use integers as user keys. */
module Order {
  // LevelDB never looks inside a user key: it only asks the user's comparator
  // how two keys compare.  For any strict total order and any finite set of
  // keys, replacing each key by the number of smaller keys in the set changes
  // no comparison, so a statement about every finite store with integer keys is
  // a statement about every finite store under every comparator.

  ghost predicate StrictTotalOrder<K(!new)>(lt: (K, K) -> bool) {
    && (forall a :: !lt(a, a))
    && (forall a, b, c :: lt(a, b) && lt(b, c) ==> lt(a, c))
    && (forall a, b :: a != b ==> lt(a, b) || lt(b, a))
  }

  ghost function Smaller<K(!new)>(lt: (K, K) -> bool, keys: set<K>, k: K): (r: set<K>) {
    set x | x in keys && lt(x, k)
  }

  /** The rank of `k` among `keys`. */
  ghost function Rank<K(!new)>(lt: (K, K) -> bool, keys: set<K>, k: K): (r: nat) {
    |Smaller(lt, keys, k)|
  }

  lemma SubsetCardinality<K>(a: set<K>, b: set<K>)
    requires a < b
    ensures |a| < |b|
  {
    var extra := b - a;
    assert a + extra == b && a !! extra;
    assert |b| == |a| + |extra|;
    var x :| x in extra;
  }

  lemma RankIncreases<K(!new)>(lt: (K, K) -> bool, keys: set<K>, a: K, b: K)
    requires StrictTotalOrder(lt) && a in keys && lt(a, b)
    ensures Rank(lt, keys, a) < Rank(lt, keys, b)
  {
    assert a in Smaller(lt, keys, b) && a !in Smaller(lt, keys, a);
    SubsetCardinality(Smaller(lt, keys, a), Smaller(lt, keys, b));
  }

  /** Ranks compare exactly as the keys do. */
  lemma RankPreservesOrder<K(!new)>(lt: (K, K) -> bool, keys: set<K>, a: K, b: K)
    requires StrictTotalOrder(lt) && a in keys && b in keys
    ensures lt(a, b) <==> Rank(lt, keys, a) < Rank(lt, keys, b)
    ensures a == b <==> Rank(lt, keys, a) == Rank(lt, keys, b)
  {
    if lt(a, b) {
      RankIncreases(lt, keys, a, b);
    } else if lt(b, a) {
      RankIncreases(lt, keys, b, a);
    }
  }
}
