/** The cache's chained hash table: a map through every insertion, removal and resizing. */
module HandleTables {
  import opened Wrappers
  import opened Coding

  type Key = seq<int>
  type Id = nat

  datatype Item = Item(key: Key, id: Id)

  /** Bucket `b` holds the items whose key hashes there, each key once. */
  ghost predicate BucketOk(hash: Key -> nat, list: seq<seq<Item>>, b: nat)
    requires b < |list|
  {
    && (forall i :: 0 <= i < |list[b]| ==> hash(list[b][i].key) % |list| == b)
    && forall i, j :: 0 <= i < j < |list[b]| ==> list[b][i].key != list[b][j].key
  }

  ghost predicate InBucket(bucket: seq<Item>, key: Key, id: Id) {
    exists i :: 0 <= i < |bucket| && bucket[i] == Item(key, id)
  }

  /** The buckets hold exactly the map. */
  ghost predicate Represents(hash: Key -> nat, list: seq<seq<Item>>, m: map<Key, Id>) {
    && |list| > 0 && (forall b {:trigger BucketOk(hash, list, b)} :: 0 <= b < |list| ==> BucketOk(hash, list, b))
    && (forall k {:trigger InBucket(list[hash(k) % |list|], k, m[k])} ::
          k in m ==> InBucket(list[hash(k) % |list|], k, m[k]))
    && (forall b, i {:trigger list[b][i]} ::
          0 <= b < |list| && 0 <= i < |list[b]| ==> list[b][i].key in m && m[list[b][i].key] == list[b][i].id)
  }

  /** Replacing bucket `b` by one that differs only in `key`. */
  lemma BucketChanged(
    hash: Key -> nat, list: seq<seq<Item>>, m: map<Key, Id>, key: Key, bucket: seq<Item>, m': map<Key, Id>)
    requires Represents(hash, list, m)
    requires forall i :: 0 <= i < |bucket| ==> hash(bucket[i].key) % |list| == hash(key) % |list|
    requires forall i, j :: 0 <= i < j < |bucket| ==> bucket[i].key != bucket[j].key
    requires forall i :: 0 <= i < |bucket| ==> bucket[i].key in m' && m'[bucket[i].key] == bucket[i].id
    requires forall k, id :: k != key && InBucket(list[hash(key) % |list|], k, id) ==> InBucket(bucket, k, id)
    requires forall k :: k != key ==> (k in m' <==> k in m) && (k in m ==> m'[k] == m[k])
    requires key in m' ==> InBucket(bucket, key, m'[key])
    ensures Represents(hash, list[hash(key) % |list| := bucket], m')
  {
    var b := hash(key) % |list|;
    var list' := list[b := bucket];
    forall c {:trigger BucketOk(hash, list', c)} | 0 <= c < |list'| ensures BucketOk(hash, list', c) {
      assert BucketOk(hash, list, c);
    }
    forall c, i | 0 <= c < |list'| && 0 <= i < |list'[c]|
      ensures list'[c][i].key in m' && m'[list'[c][i].key] == list'[c][i].id
    {
      if c != b {
        assert BucketOk(hash, list, c);
        assert list'[c][i] == list[c][i] && list[c][i].key != key;
      }
    }
    forall k {:trigger InBucket(list'[hash(k) % |list'|], k, m'[k])} | k in m'
      ensures InBucket(list'[hash(k) % |list'|], k, m'[k])
    {
      if k != key {
        assert InBucket(list[hash(k) % |list|], k, m[k]);
      }
    }
  }

  ghost predicate IsPowerOfTwo(n: nat) {
    exists k: nat :: n == Pow2(k)
  }

  lemma DoublePower(n: nat)
    requires IsPowerOfTwo(n)
    ensures IsPowerOfTwo(2 * n)
  {
    var k: nat :| n == Pow2(k);
    assert Pow2(k + 1) == 2 * n;
  }

  /** The least power of two, from four on, that is no smaller. */
  method LengthFor(elems: nat) returns (length: nat)
    ensures length >= 4 && length >= elems && IsPowerOfTwo(length) && (length == 4 || length < 2 * elems)
  {
    length := 4;
    assert Pow2(2) == 4;
    while length < elems
      invariant length >= 4 && IsPowerOfTwo(length) && (length == 4 || length < 2 * elems)
      decreases elems - length
    {
      DoublePower(length);
      length := length * 2;
    }
  }

  class HandleTable {
    const hash: Key -> nat
    var list: seq<seq<Item>>
    var elems: nat
    ghost var m: map<Key, Id>

    constructor (hash: Key -> nat)
      ensures Valid() && m == map[] && this.hash == hash
    {
      this.hash := hash;
      list, elems, m := [[], [], [], []], 0, map[];
      new;
      assert forall b :: 0 <= b < 4 ==> BucketOk(hash, list, b);
      assert Pow2(2) == 4;
    }

    ghost predicate Holds()
      reads this
    {
      Represents(hash, list, m) && elems == |m|
    }

    /** No more entries than buckets, so that chains are short, and as many buckets as the bit mask of a hash takes. */
    ghost predicate Valid()
      reads this
    {
      Holds() && elems <= |list| && IsPowerOfTwo(|list|)
    }

    /** The position of the key in its bucket, or the end of the bucket. */
    method FindPointer(key: Key) returns (b: nat, i: nat)
      requires Holds()
      ensures b == hash(key) % |list| && i <= |list[b]|
      ensures i < |list[b]| ==> list[b][i].key == key && key in m && m[key] == list[b][i].id
      ensures i == |list[b]| ==> key !in m && forall j :: 0 <= j < i ==> list[b][j].key != key
    {
      b := hash(key) % |list|;
      i := 0;
      while i < |list[b]| && list[b][i].key != key
        invariant i <= |list[b]| && forall j :: 0 <= j < i ==> list[b][j].key != key
      {
        i := i + 1;
      }
      if key in m {
        assert InBucket(list[hash(key) % |list|], key, m[key]);
      }
    }

    method Lookup(key: Key) returns (r: Option<Id>)
      requires Holds()
      ensures r == if key in m then Some(m[key]) else None
    {
      var b, i := FindPointer(key);
      r := if i < |list[b]| then Some(list[b][i].id) else None;
    }

    method ReplaceAt(b: nat, i: nat, key: Key, id: Id)
      requires Holds() && b == hash(key) % |list| && i < |list[b]| && list[b][i].key == key && key in m
      modifies this
      ensures Holds() && m == old(m)[key := id] && |list| == old(|list|) && elems == old(elems)
    {
      ReplacedInBucket(hash, list, m, b, i, key, id);
      BucketChanged(hash, list, m, key, list[b][i := Item(key, id)], m[key := id]);
      list := list[b := list[b][i := Item(key, id)]];
      CountOf(m, key, id);
      m := m[key := id];
    }

    method AppendTo(b: nat, key: Key, id: Id)
      requires Holds() && b == hash(key) % |list| && key !in m
      modifies this
      ensures Holds() && m == old(m)[key := id] && |list| == old(|list|) && elems == old(elems) + 1
    {
      AppendedToBucket(hash, list, m, b, key, id);
      BucketChanged(hash, list, m, key, list[b] + [Item(key, id)], m[key := id]);
      list := list[b := list[b] + [Item(key, id)]];
      elems := elems + 1;
      CountOf(m, key, id);
      m := m[key := id];
    }

    /** Replaces the entry of the key or appends one; returns the replaced entry. */
    method Insert(key: Key, id: Id) returns (previous: Option<Id>)
      requires Valid()
      modifies this
      ensures Valid() && m == old(m)[key := id] && previous == if key in old(m) then Some(old(m)[key]) else None
    {
      var b, i := FindPointer(key);
      if i < |list[b]| {
        previous := Some(list[b][i].id);
        ReplaceAt(b, i, key, id);
      } else {
        previous := None;
        AppendTo(b, key, id);
        if elems > |list| {
          Resize();
        }
      }
    }

    method Remove(key: Key) returns (removed: Option<Id>)
      requires Valid()
      modifies this
      ensures Valid() && m == old(m) - {key} && removed == if key in old(m) then Some(old(m)[key]) else None
    {
      var b, i := FindPointer(key);
      if i < |list[b]| {
        removed := Some(list[b][i].id);
        var bucket := list[b][..i] + list[b][i + 1..];
        RemovedFromBucket(hash, list, m, b, i, key);
        BucketChanged(hash, list, m, key, bucket, m - {key});
        list := list[b := bucket];
        elems := elems - 1;
        assert (m - {key}).Keys == m.Keys - {key} && |(m - {key}).Keys| == |m - {key}| && |m.Keys| == |m|;
        m := m - {key};
      } else {
        removed := None;
        assert m - {key} == m;
      }
    }

    method Resize()
      requires Holds()
      modifies this`list
      ensures Valid() && (|list| == 4 || |list| < 2 * elems)
    {
      var newLength := LengthFor(elems);
      list := Rehash(newLength);
    }

    /** Moves every entry to the front of its new bucket. */
    method Rehash(newLength: nat) returns (newList: seq<seq<Item>>)
      requires Holds() && newLength > 0
      ensures Represents(hash, newList, m) && |newList| == newLength
    {
      newList := seq(newLength, i => []);
      ghost var done: map<Key, Id> := map[];
      assert Represents(hash, newList, done) by {
        assert forall b :: 0 <= b < |newList| ==> BucketOk(hash, newList, b);
      }
      for b := 0 to |list|
        invariant Represents(hash, newList, done) && IsMoved(list, b, 0, m, done) && |newList| == newLength
      {
        newList, done := MoveBucket(b, newList, done);
      }
      AllMoved(hash, list, m, done);
    }

    method MoveBucket(
      b: nat, list0: seq<seq<Item>>, ghost done0: map<Key, Id>)
      returns (newList: seq<seq<Item>>, ghost done: map<Key, Id>)
      requires Holds() && b < |list| && Represents(hash, list0, done0) && IsMoved(list, b, 0, m, done0)
      ensures Represents(hash, newList, done) && IsMoved(list, b + 1, 0, m, done) && |newList| == |list0|
    {
      newList, done := list0, done0;
      for i := 0 to |list[b]|
        invariant Represents(hash, newList, done) && IsMoved(list, b, i, m, done) && |newList| == |list0|
      {
        var h := list[b][i];
        var c := hash(h.key) % |newList|;
        MoveOne(hash, list, m, b, i, newList, done);
        newList := newList[c := [h] + newList[c]];
        done := done[h.key := h.id];
      }
    }
  }

  lemma CountOf(m: map<Key, Id>, key: Key, id: Id)
    ensures |m[key := id]| == if key in m then |m| else |m| + 1
  {
    var m' := m[key := id];
    assert m'.Keys == m.Keys + {key} && |m'.Keys| == |m'| && |m.Keys| == |m|;
    assert key in m ==> m'.Keys == m.Keys;
  }

  lemma ReplacedInBucket(hash: Key -> nat, list: seq<seq<Item>>, m: map<Key, Id>, b: nat, i: nat, key: Key, id: Id)
    requires Represents(hash, list, m) && b == hash(key) % |list| && i < |list[b]| && list[b][i].key == key
    ensures var bucket := list[b][i := Item(key, id)];
      && (forall j :: 0 <= j < |bucket| ==> hash(bucket[j].key) % |list| == b)
      && (forall j, k :: 0 <= j < k < |bucket| ==> bucket[j].key != bucket[k].key)
      && (forall j ::
            0 <= j < |bucket| ==> bucket[j].key in m[key := id] && m[key := id][bucket[j].key] == bucket[j].id)
      && (forall k, v :: k != key && InBucket(list[b], k, v) ==> InBucket(bucket, k, v)) && InBucket(bucket, key, id)
  {
    assert BucketOk(hash, list, b);
    var bucket := list[b][i := Item(key, id)];
    assert bucket[i] == Item(key, id);
    forall k, v | k != key && InBucket(list[b], k, v) ensures InBucket(bucket, k, v) {
      var j :| 0 <= j < |list[b]| && list[b][j] == Item(k, v);
      assert bucket[j] == Item(k, v);
    }
  }

  lemma AppendedToBucket(hash: Key -> nat, list: seq<seq<Item>>, m: map<Key, Id>, b: nat, key: Key, id: Id)
    requires Represents(hash, list, m) && b == hash(key) % |list| && key !in m
    ensures var bucket := list[b] + [Item(key, id)];
      && (forall j :: 0 <= j < |bucket| ==> hash(bucket[j].key) % |list| == b)
      && (forall j, k :: 0 <= j < k < |bucket| ==> bucket[j].key != bucket[k].key)
      && (forall j ::
            0 <= j < |bucket| ==> bucket[j].key in m[key := id] && m[key := id][bucket[j].key] == bucket[j].id)
      && (forall k, v :: k != key && InBucket(list[b], k, v) ==> InBucket(bucket, k, v)) && InBucket(bucket, key, id)
  {
    assert BucketOk(hash, list, b);
    var bucket := list[b] + [Item(key, id)];
    assert bucket[|list[b]|] == Item(key, id);
    forall k, v | k != key && InBucket(list[b], k, v) ensures InBucket(bucket, k, v) {
      var j :| 0 <= j < |list[b]| && list[b][j] == Item(k, v);
      assert bucket[j] == Item(k, v);
    }
  }

  lemma RemovedFromBucket(hash: Key -> nat, list: seq<seq<Item>>, m: map<Key, Id>, b: nat, i: nat, key: Key)
    requires Represents(hash, list, m) && b == hash(key) % |list| && i < |list[b]| && list[b][i].key == key
    ensures var bucket := list[b][..i] + list[b][i + 1..];
      && (forall j :: 0 <= j < |bucket| ==> hash(bucket[j].key) % |list| == b)
      && (forall j, k :: 0 <= j < k < |bucket| ==> bucket[j].key != bucket[k].key)
      && (forall j :: 0 <= j < |bucket| ==> bucket[j].key in m - {key} && (m - {key})[bucket[j].key] == bucket[j].id)
      && (forall k, v :: k != key && InBucket(list[b], k, v) ==> InBucket(bucket, k, v))
  {
    assert BucketOk(hash, list, b);
    var bucket := list[b][..i] + list[b][i + 1..];
    assert forall j :: 0 <= j < |bucket| ==> bucket[j] == list[b][if j < i then j else j + 1];
    forall k, v | k != key && InBucket(list[b], k, v) ensures InBucket(bucket, k, v) {
      var j :| 0 <= j < |list[b]| && list[b][j] == Item(k, v);
      assert bucket[if j < i then j else j - 1] == Item(k, v);
    }
  }

  /** The entries of the buckets before `b`, and of bucket `b` before `i`, were moved. */
  ghost predicate IsMoved(list: seq<seq<Item>>, b: nat, i: nat, m: map<Key, Id>, done: map<Key, Id>) {
    && (forall k :: k in done ==> k in m && done[k] == m[k])
    && (forall c, j ::
          0 <= c < |list| && 0 <= j < |list[c]| ==> (list[c][j].key in done <==> c < b || (c == b && j < i)))
  }

  lemma MoveOne(
    hash: Key -> nat, list: seq<seq<Item>>, m: map<Key, Id>, b: nat, i: nat, newList: seq<seq<Item>>,
    done: map<Key, Id>)
    requires Represents(hash, list, m) && Represents(hash, newList, done) && b < |list| && i < |list[b]|
    requires IsMoved(list, b, i, m, done)
    ensures var h := list[b][i]; var c := hash(h.key) % |newList|;
      Represents(hash, newList[c := [h] + newList[c]], done[h.key := h.id])
        && IsMoved(list, b, i + 1, m, done[h.key := h.id])
  {
    var h := list[b][i];
    var c := hash(h.key) % |newList|;
    var bucket := [h] + newList[c];
    assert h.key !in done && BucketOk(hash, newList, c);
    assert bucket[0] == h;
    forall k, v | k != h.key && InBucket(newList[c], k, v) ensures InBucket(bucket, k, v) {
      var j :| 0 <= j < |newList[c]| && newList[c][j] == Item(k, v);
      assert bucket[j + 1] == Item(k, v);
    }
    BucketChanged(hash, newList, done, h.key, bucket, done[h.key := h.id]);
    KeysAreUnique(hash, list, m, b, i);
  }

  /** A key occurs at one place of the table only. */
  lemma KeysAreUnique(hash: Key -> nat, list: seq<seq<Item>>, m: map<Key, Id>, b: nat, i: nat)
    requires Represents(hash, list, m) && b < |list| && i < |list[b]|
    ensures forall c, j :: 0 <= c < |list| && 0 <= j < |list[c]| && list[c][j].key == list[b][i].key ==>
      c == b && j == i
  {
    forall c, j | 0 <= c < |list| && 0 <= j < |list[c]| && list[c][j].key == list[b][i].key ensures c == b && j == i {
      assert BucketOk(hash, list, b) && BucketOk(hash, list, c);
    }
  }

  lemma AllMoved(hash: Key -> nat, list: seq<seq<Item>>, m: map<Key, Id>, done: map<Key, Id>)
    requires Represents(hash, list, m) && IsMoved(list, |list|, 0, m, done)
    ensures done == m
  {
    forall k | k in m ensures k in done {
      assert InBucket(list[hash(k) % |list|], k, m[k]);
    }
  }
}
