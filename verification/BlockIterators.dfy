/** The block iterator: a cursor on the block's pairs. */
module BlockIterators {
  import opened Coding
  import opened Blocks

  type Less = (Bytes, Bytes) -> bool

  /** What a seek needs of the order: a key before one that is below the target is below it too. */
  ghost predicate Monotone(pairs: seq<Pair>, less: Less, target: Bytes) {
    forall i, j :: 0 <= i < j < |pairs| && less(pairs[j].key, target) ==> less(pairs[i].key, target)
  }

  /** `p` is the first entry whose key is not below the target. */
  ghost predicate IsFirstFrom(pairs: seq<Pair>, less: Less, target: Bytes, p: nat) {
    && p <= |pairs|
    && (forall i :: 0 <= i < p ==> less(pairs[i].key, target))
    && (p < |pairs| ==> !less(pairs[p].key, target))
  }

  lemma KeyJoins(last: Bytes, shared: nat, delta: Bytes, key: Bytes)
    requires shared <= |last| && shared <= |key| && last[..shared] == key[..shared] && delta == key[shared..]
    ensures last[..shared] + delta == key
  {
  }

  class Iter {
    const data: Bytes
    const restarts: nat
    const numRestarts: nat
    ghost const b: Shape
    ghost const offs: seq<nat>
    var current: nat
    var restartIndex: nat
    var key: Bytes
    var valueStart: nat
    var valueEnd: nat
    /** The entry under the iterator; the number of entries if it is not valid. */
    ghost var at: nat

    constructor (data: Bytes, restarts: nat, numRestarts: nat, ghost b: Shape, ghost offs: seq<nat>)
      requires IsBlock(data, restarts, b, offs) && numRestarts == |b.heads|
      ensures this.data == data && this.restarts == restarts && this.numRestarts == numRestarts && this.b == b
      ensures this.offs == offs
      ensures Opened() && Consistent() && at == |b.pairs|
    {
      this.data, this.restarts, this.numRestarts := data, restarts, numRestarts;
      this.b, this.offs := b, offs;
      current, restartIndex, key, valueStart, valueEnd := restarts, numRestarts, [], 0, 0;
      at := |b.pairs|;
    }

    ghost predicate Opened() {
      IsBlock(data, restarts, b, offs) && numRestarts == |b.heads|
    }

    predicate Valid()
      reads this
    {
      current < restarts
    }

    /** The iterator stands on entry `p`. */
    ghost predicate On(p: nat)
      requires Opened()
      reads this
    {
      && p < |b.pairs| && current == offs[p] && key == b.pairs[p].key
      && valueEnd == offs[p + 1] && valueStart == valueEnd - |b.pairs[p].value|
      && RightRestart(p)
    }

    /** The restart region of entry `p`, counting a head with its own region or the one before. */
    ghost predicate RightRestart(p: nat)
      requires Opened()
      reads this
    {
      restartIndex < |b.heads| && b.heads[restartIndex] <= p
        && (restartIndex + 1 < |b.heads| ==> p <= b.heads[restartIndex + 1])
    }

    ghost predicate Consistent()
      requires Opened()
      reads this
    {
      at <= |b.pairs| && if at == |b.pairs| then current == restarts else On(at)
    }

    method Value() returns (v: Bytes)
      requires Opened() && Consistent() && Valid()
      ensures at < |b.pairs| && v == b.pairs[at].value && key == b.pairs[at].key
    {
      assert EntryIn(data, restarts, offs[at], offs[at + 1], b.shared[at], b.pairs[at]);
      v := data[valueStart..valueEnd];
    }

    method GetRestartPoint(index: nat) returns (r: nat)
      requires Opened() && index < numRestarts
      ensures r == offs[b.heads[index]]
    {
      r := RestartPoint(data, restarts, index);
    }

    method Decode(from: nat, ghost i: nat) returns (shared: nat, nonShared: nat, valueLength: nat, p: nat)
      requires Opened() && i < |b.pairs| && from == offs[i]
      ensures shared == b.shared[i] <= |b.pairs[i].key| && nonShared == |b.pairs[i].key| - shared
      ensures valueLength == |b.pairs[i].value|
      ensures p + nonShared + valueLength == offs[i + 1] <= |data| && data[p..p + nonShared] == b.pairs[i].key[shared..]
    {
      assert EntryIn(data, restarts, offs[i], offs[i + 1], b.shared[i], b.pairs[i]);
      var l := DecodeEntry(data[from..restarts]).value;
      shared, nonShared, valueLength, p := l.shared, l.nonShared, l.valueLength, restarts - |l.rest|;
    }

    method SeekToRestartPoint(index: nat)
      requires Opened() && index < numRestarts
      modifies this
      ensures Primed(b.heads[index]) && key == [] && restartIndex == index
    {
      key := [];
      restartIndex := index;
      var offset := GetRestartPoint(index);
      valueStart, valueEnd := offset, offset;
    }

    /** Ready to parse entry `p`: its shared prefix is in `key`. */
    ghost predicate Primed(p: nat)
      requires Opened()
      reads this
    {
      && p <= |b.pairs| && valueEnd == offs[p] && restartIndex < |b.heads| && b.heads[restartIndex] <= p
      && (p < |b.pairs| ==>
            b.shared[p] <= |key| && b.shared[p] <= |b.pairs[p].key|
              && key[..b.shared[p]] == b.pairs[p].key[..b.shared[p]])
    }

    method ParseNextKey(ghost p: nat) returns (ok: bool)
      requires Opened() && Primed(p)
      modifies this
      ensures Consistent() && at == p && ok == (p < |b.pairs|)
    {
      current := valueEnd;
      at := p;
      if current >= restarts {
        current, restartIndex := restarts, numRestarts;
        return false;
      }
      var shared, nonShared, valueLength, q := Decode(current, p);
      KeyJoins(key, shared, data[q..q + nonShared], b.pairs[p].key);
      key := key[..shared] + data[q..q + nonShared];
      valueStart, valueEnd := q + nonShared, q + nonShared + valueLength;
      AdvanceRestart(p);
      return true;
    }

    method AdvanceRestart(ghost p: nat)
      requires Opened() && p < |b.pairs| && current == offs[p] && restartIndex < |b.heads| && b.heads[restartIndex] <= p
      modifies this`restartIndex
      ensures RightRestart(p)
    {
      while restartIndex + 1 < numRestarts
        invariant restartIndex < |b.heads| && b.heads[restartIndex] <= p
        decreases numRestarts - restartIndex
      {
        var r := GetRestartPoint(restartIndex + 1);
        if r >= current { break; }
        restartIndex := restartIndex + 1;
      }
    }

    method Next()
      requires Opened() && Consistent() && Valid()
      modifies this
      ensures Consistent() && at == old(at) + 1
    {
      assert SharesPrefix(b.pairs, b.shared, at);
      if at + 1 < |b.pairs| {
        assert SharesPrefix(b.pairs, b.shared, at + 1);
      }
      var _ := ParseNextKey(at + 1);
    }

    method SeekToFirst()
      requires Opened()
      modifies this
      ensures Consistent() && at == 0
    {
      SeekToRestartPoint(0);
      var _ := ParseNextKey(0);
    }

    /** Ready for the entry after the one under the iterator. */
    lemma PrimeNext()
      requires Opened() && Consistent() && at < |b.pairs|
      ensures Primed(at + 1)
    {
      assert SharesPrefix(b.pairs, b.shared, at);
      if at + 1 < |b.pairs| {
        assert SharesPrefix(b.pairs, b.shared, at + 1);
      }
    }

    /** Parses on from `from` until the end of the current entry reaches `stop`. */
    method ParseUpTo(stop: nat, ghost from: nat, ghost p: nat)
      requires Opened() && Primed(from) && (from < |b.pairs| ==> from <= p < |b.pairs| && stop == offs[p + 1])
      modifies this
      ensures Consistent() && at == if from < |b.pairs| then p else from
    {
      var ok := ParseNextKey(from);
      while ok && valueEnd < stop
        invariant Consistent() && ok == (from < |b.pairs|) && (ok ==> from <= at <= p) && (!ok ==> at == from)
        decreases |b.pairs| - at
      {
        PrimeNext();
        ok := ParseNextKey(at + 1);
      }
    }

    method SeekToLast()
      requires Opened()
      modifies this
      ensures Consistent() && (|b.pairs| == 0 ==> at == 0) && (|b.pairs| > 0 ==> at == |b.pairs| - 1)
    {
      SeekToRestartPoint(numRestarts - 1);
      ParseUpTo(restarts, b.heads[numRestarts - 1], if |b.pairs| == 0 then 0 else |b.pairs| - 1);
    }

    method Prev()
      requires Opened() && Consistent() && Valid()
      modifies this
      ensures Consistent() && at == if old(at) == 0 then |b.pairs| else old(at) - 1
    {
      var original := current;
      ghost var p := at;
      var r := GetRestartPoint(restartIndex);
      while r >= original
        invariant restartIndex < numRestarts && b.heads[restartIndex] <= p && r == offs[b.heads[restartIndex]]
          && at == p
        decreases restartIndex
      {
        if restartIndex == 0 {
          current, restartIndex := restarts, numRestarts;
          at := |b.pairs|;
          return;
        }
        restartIndex := restartIndex - 1;
        r := GetRestartPoint(restartIndex);
      }
      SeekToRestartPoint(restartIndex);
      ParseUpTo(original, b.heads[restartIndex], p - 1);
    }

    /** The binary search over the restart points: the last region that starts below the target. */
    method FindRegion(target: Bytes, less: Less) returns (left: nat)
      requires Opened()
      ensures left < numRestarts && (left > 0 ==> less(b.pairs[b.heads[left]].key, target))
      ensures left + 1 < numRestarts ==> !less(b.pairs[b.heads[left + 1]].key, target)
    {
      left := 0;
      var right := numRestarts - 1;
      while left < right
        invariant left <= right < numRestarts && (left > 0 ==> less(b.pairs[b.heads[left]].key, target))
        invariant right + 1 < numRestarts ==> !less(b.pairs[b.heads[right + 1]].key, target)
      {
        var mid := (left + right + 1) / 2;
        var offset := GetRestartPoint(mid);
        var shared, nonShared, _, p := Decode(offset, b.heads[mid]);
        var midKey := data[p..p + nonShared];
        assert midKey == b.pairs[b.heads[mid]].key;
        if less(midKey, target) {
          left := mid;
        } else {
          right := mid - 1;
        }
      }
    }

    method Seek(target: Bytes, less: Less)
      requires Opened() && Monotone(b.pairs, less, target)
      modifies this
      ensures Consistent() && IsFirstFrom(b.pairs, less, target, at)
    {
      var left := FindRegion(target, less);
      SeekToRestartPoint(left);
      ScanFrom(target, less, b.heads[left]);
    }

    /** The linear search within the restart region. */
    method ScanFrom(target: Bytes, less: Less, ghost from: nat)
      requires Opened() && Primed(from) && forall i :: 0 <= i < from ==> less(b.pairs[i].key, target)
      modifies this
      ensures Consistent() && IsFirstFrom(b.pairs, less, target, at)
    {
      ghost var p := from;
      while true
        invariant Primed(p) && forall i :: 0 <= i < p ==> less(b.pairs[i].key, target)
        decreases |b.pairs| - p
      {
        var ok := ParseNextKey(p);
        if !ok { return; }
        if !less(key, target) { return; }
        PrimeNext();
        p := p + 1;
      }
    }
  }
}
