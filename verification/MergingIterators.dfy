/** The merging iterator: several sorted cursors act as one cursor on their sorted union. */
module MergingIterators {
  import opened InternalKeys
  import opened Wrappers
  import opened Cursors
  import opened DbIterator

  /** A cut in the key order: keys `Below` it lie to its left. */
  datatype Cut = Bottom | JustBefore(key: InternalKey) | JustAfter(key: InternalKey) | Top

  ghost predicate Below(k: InternalKey, cut: Cut) {
    match cut
    case Bottom => false
    case JustBefore(key) => Before(k, key)
    case JustAfter(key) => AtMost(k, key)
    case Top => true
  }

  ghost function Union(runs: seq<seq<Entry>>): (r: set<Entry>) {
    set i, j | 0 <= i < |runs| && 0 <= j < |runs[i]| :: runs[i][j]
  }

  /** `c` is the first entry of `entries` right of the cut. */
  ghost predicate FirstAfter(entries: set<Entry>, cut: Cut, c: Option<Entry>) {
    if c.Some? then
      && c.value in entries && !Below(c.value.key, cut)
      && forall e :: e in entries && !Below(e.key, cut) ==> AtMost(c.value.key, e.key)
    else
      forall e :: e in entries ==> Below(e.key, cut)
  }

  /** `c` is the last entry of `entries` left of the cut. */
  ghost predicate LastLeftOf(entries: set<Entry>, cut: Cut, c: Option<Entry>) {
    if c.Some? then
      && c.value in entries && Below(c.value.key, cut)
      && forall e :: e in entries && Below(e.key, cut) ==> AtMost(e.key, c.value.key)
    else
      forall e :: e in entries ==> !Below(e.key, cut)
  }

  /** On the merged sequence itself, the entry after a cut and the entry before it are neighbours. */
  lemma CursorOnUnion(merged: seq<Entry>, cut: Cut, at: int, c: Option<Entry>)
    requires Sorted(merged) && CutsAt(merged, cut, at)
    ensures FirstAfter(Contents(merged), cut, c) <==> c == if at < |merged| then Some(merged[at]) else None
    ensures LastLeftOf(Contents(merged), cut, c) <==> c == if at > 0 then Some(merged[at - 1]) else None
  {
    forall e | e in Contents(merged)
      ensures exists j :: 0 <= j < |merged| && merged[j] == e
    {
    }
    if at < |merged| {
      assert merged[at] in Contents(merged);
      forall j | at < j < |merged|
        ensures Before(merged[at].key, merged[j].key) && !Before(merged[j].key, merged[at].key)
      {
      }
    }
    if at > 0 {
      assert merged[at - 1] in Contents(merged);
      forall j | 0 <= j < at - 1
        ensures Before(merged[j].key, merged[at - 1].key) && !Before(merged[at - 1].key, merged[j].key)
      {
      }
    }
  }

  ghost function Keys(run: seq<Entry>): (r: set<InternalKey>) {
    set j | 0 <= j < |run| :: run[j].key
  }

  /** Every child is sorted and no key occurs in two children. */
  ghost predicate Mergeable(runs: seq<seq<Entry>>) {
    && (forall i :: 0 <= i < |runs| ==> Sorted(runs[i]))
    && forall i, j :: 0 <= i < j < |runs| ==> Keys(runs[i]) !! Keys(runs[j])
  }

  /** Exactly the entries left of the cut are left of index `at`. */
  ghost predicate CutsAt(run: seq<Entry>, cut: Cut, at: int) {
    && 0 <= at <= |run|
    && forall j :: 0 <= j < |run| ==> (j < at <==> Below(run[j].key, cut))
  }

  lemma SeekCuts(run: seq<Entry>, target: InternalKey)
    requires Sorted(run)
    ensures CutsAt(run, JustBefore(target), SeekIndex(run, target))
  {
    SeekSplits(run, target);
  }

  /** Stepping over an entry moves the cut over its key. */
  lemma StepCuts(run: seq<Entry>, at: int)
    requires Sorted(run) && 0 <= at < |run|
    ensures CutsAt(run, JustBefore(run[at].key), at) && CutsAt(run, JustAfter(run[at].key), at + 1)
  {
    forall j | 0 <= j < |run| && j != at ensures j < at <==> Before(run[j].key, run[at].key) {
      assert if j < at then Before(run[j].key, run[at].key) else Before(run[at].key, run[j].key);
    }
  }

  /** Without the key itself, the cuts before and after it are the same. */
  lemma AbsentKeyCuts(run: seq<Entry>, key: InternalKey, at: int)
    requires key !in Keys(run)
    ensures CutsAt(run, JustBefore(key), at) <==> CutsAt(run, JustAfter(key), at)
  {
    assert forall j :: 0 <= j < |run| ==> run[j].key in Keys(run);
  }

  /** All children stand at the cut. */
  ghost predicate AllCut(runs: seq<seq<Entry>>, children: seq<Cursor>, cut: Cut) {
    forall i :: 0 <= i < |children| && i < |runs| ==> CutsAt(runs[i], cut, children[i].at)
  }

  /** All children stand just left of the cut: their next entry is right of it. */
  ghost predicate AllCutReverse(runs: seq<seq<Entry>>, children: seq<Cursor>, cut: Cut) {
    forall i :: 0 <= i < |children| && i < |runs| ==> CutsAt(runs[i], cut, children[i].at + 1)
  }

  ghost predicate Smallest(children: seq<Cursor>, current: Option<nat>) {
    match current
    case None => forall i :: 0 <= i < |children| ==> !children[i].Valid()
    case Some(c) =>
      && c < |children| && children[c].Valid()
      && forall i ::
        0 <= i < |children| && children[i].Valid() ==> AtMost(children[c].Current().key, children[i].Current().key)
  }

  ghost predicate Largest(children: seq<Cursor>, current: Option<nat>) {
    match current
    case None => forall i :: 0 <= i < |children| ==> !children[i].Valid()
    case Some(c) =>
      && c < |children| && children[c].Valid()
      && forall i ::
        0 <= i < |children| && children[i].Valid() ==> AtMost(children[i].Current().key, children[c].Current().key)
  }

  ghost predicate ChildrenOf(runs: seq<seq<Entry>>, children: seq<Cursor>) {
    |children| == |runs| && forall i :: 0 <= i < |runs| ==> children[i].run == runs[i]
  }

  ghost function CurrentOf(children: seq<Cursor>, current: Option<nat>): (r: Option<Entry>)
    requires current.Some? ==> current.value < |children| && children[current.value].Valid()
  {
    if current.Some? then Some(children[current.value].Current()) else None
  }

  lemma SmallestIsFirst(runs: seq<seq<Entry>>, children: seq<Cursor>, cut: Cut, current: Option<nat>)
    requires Mergeable(runs) && ChildrenOf(runs, children) && AllCut(runs, children, cut) && Smallest(children, current)
    ensures FirstAfter(Union(runs), cut, CurrentOf(children, current))
  {
    forall i, j | 0 <= i < |runs| && 0 <= j < |runs[i]| && !Below(runs[i][j].key, cut)
      ensures current.Some? && AtMost(children[current.value].Current().key, runs[i][j].key)
    {
      assert children[i].at <= j;
      assert children[i].at < j ==> Before(runs[i][children[i].at].key, runs[i][j].key);
    }
    if current.Some? {
      var c := current.value;
      assert runs[c][children[c].at] in Union(runs);
    }
  }

  lemma LargestIsLast(runs: seq<seq<Entry>>, children: seq<Cursor>, cut: Cut, current: Option<nat>)
    requires Mergeable(runs) && ChildrenOf(runs, children) && AllCutReverse(runs, children, cut)
    requires Largest(children, current)
    ensures LastLeftOf(Union(runs), cut, CurrentOf(children, current))
  {
    forall i, j | 0 <= i < |runs| && 0 <= j < |runs[i]| && Below(runs[i][j].key, cut)
      ensures current.Some? && AtMost(runs[i][j].key, children[current.value].Current().key)
    {
      assert j <= children[i].at;
      assert j < children[i].at ==> Before(runs[i][j].key, runs[i][children[i].at].key);
    }
    if current.Some? {
      var c := current.value;
      assert runs[c][children[c].at] in Union(runs);
    }
  }

  lemma RecutForward(runs: seq<seq<Entry>>, children: seq<Cursor>, cut: Cut, current: Option<nat>)
    requires Mergeable(runs) && ChildrenOf(runs, children) && AllCut(runs, children, cut)
    requires Smallest(children, current) && current.Some?
    ensures AllCut(runs, children, JustBefore(children[current.value].Current().key))
  {
    var key := children[current.value].Current().key;
    forall i | 0 <= i < |runs| ensures CutsAt(runs[i], JustBefore(key), children[i].at) {
      forall j | 0 <= j < |runs[i]| ensures j < children[i].at <==> Before(runs[i][j].key, key) {
        assert j > children[i].at ==> Before(runs[i][children[i].at].key, runs[i][j].key);
      }
    }
  }

  lemma RecutReverse(runs: seq<seq<Entry>>, children: seq<Cursor>, cut: Cut, current: Option<nat>)
    requires Mergeable(runs) && ChildrenOf(runs, children) && AllCutReverse(runs, children, cut)
    requires Largest(children, current) && current.Some?
    ensures AllCutReverse(runs, children, JustAfter(children[current.value].Current().key))
  {
    var key := children[current.value].Current().key;
    forall i | 0 <= i < |runs| ensures CutsAt(runs[i], JustAfter(key), children[i].at + 1) {
      forall j | 0 <= j < |runs[i]| ensures j <= children[i].at <==> AtMost(runs[i][j].key, key) {
        assert j < children[i].at ==> Before(runs[i][j].key, runs[i][children[i].at].key);
      }
    }
  }

  lemma OnlyInItsRun(runs: seq<seq<Entry>>, c: nat, at: nat, i: nat)
    requires Mergeable(runs) && c < |runs| && at < |runs[c]| && i < |runs| && i != c
    ensures runs[c][at].key !in Keys(runs[i])
  {
    assert runs[c][at].key in Keys(runs[c]);
    assert if i < c then Keys(runs[i]) !! Keys(runs[c]) else Keys(runs[c]) !! Keys(runs[i]);
  }

  /** A seek that does not hit the key stands after it as well. */
  lemma MissCuts(run: seq<Entry>, key: InternalKey, at: int)
    requires Sorted(run) && CutsAt(run, JustBefore(key), at) && (at < |run| ==> run[at].key != key)
    ensures CutsAt(run, JustAfter(key), at)
  {
    forall j | at <= j < |run| ensures run[j].key != key {
      assert at < j ==> Before(run[at].key, run[j].key);
    }
  }

  lemma OthersAfter(runs: seq<seq<Entry>>, children: seq<Cursor>, c: nat)
    requires Mergeable(runs) && ChildrenOf(runs, children) && c < |children| && children[c].Valid()
    requires AllCut(runs, children, JustBefore(children[c].Current().key))
    ensures forall i :: 0 <= i < |runs| && i != c ==>
      CutsAt(runs[i], JustAfter(children[c].Current().key), children[i].at)
  {
    var key := children[c].Current().key;
    forall i | 0 <= i < |runs| && i != c ensures CutsAt(runs[i], JustAfter(key), children[i].at) {
      OnlyInItsRun(runs, c, children[c].at, i);
      AbsentKeyCuts(runs[i], key, children[i].at);
    }
  }

  lemma OthersBefore(runs: seq<seq<Entry>>, children: seq<Cursor>, c: nat)
    requires Mergeable(runs) && ChildrenOf(runs, children) && c < |children| && children[c].Valid()
    requires AllCutReverse(runs, children, JustAfter(children[c].Current().key))
    ensures forall i :: 0 <= i < |runs| && i != c ==>
      CutsAt(runs[i], JustBefore(children[c].Current().key), children[i].at + 1)
  {
    var key := children[c].Current().key;
    forall i | 0 <= i < |runs| && i != c ensures CutsAt(runs[i], JustBefore(key), children[i].at + 1) {
      OnlyInItsRun(runs, c, children[c].at, i);
      AbsentKeyCuts(runs[i], key, children[i].at + 1);
    }
  }

  class MergingIterator {
    ghost const runs: seq<seq<Entry>>
    var children: seq<Cursor>
    var current: Option<nat>
    var direction: Direction

    constructor (children: seq<Cursor>)
      requires Mergeable(seq(|children|, i requires 0 <= i < |children| => children[i].run))
      ensures this.children == children && runs == seq(|children|, i requires 0 <= i < |children| => children[i].run)
      ensures Consistent() && Current().None?
    {
      this.children := children;
      runs := seq(|children|, i requires 0 <= i < |children| => children[i].run);
      current, direction := None, Forward;
    }

    ghost predicate Consistent()
      reads this
    {
      && Mergeable(runs) && ChildrenOf(runs, children)
      && (current.Some? ==>
            && current.value < |children| && children[current.value].Valid()
            && match direction
               case Forward => AllCut(runs, children, JustBefore(children[current.value].Current().key))
               case Reverse => AllCutReverse(runs, children, JustAfter(children[current.value].Current().key)))
    }

    /** The entry the iterator stands on, if it is valid. */
    ghost function Current(): (r: Option<Entry>)
      requires Consistent()
      reads this
    {
      CurrentOf(children, current)
    }

    method FindSmallest()
      modifies this`current
      ensures Smallest(children, current)
    {
      var smallest: Option<nat> := None;
      for i := 0 to |children|
        invariant Smallest(children[..i], smallest)
      {
        if children[i].Valid() {
          if smallest.None? {
            smallest := Some(i);
          } else if Before(children[i].Current().key, children[smallest.value].Current().key) {
            smallest := Some(i);
          }
        }
        assert children[..i + 1] == children[..i] + [children[i]];
      }
      assert children[..|children|] == children;
      current := smallest;
    }

    method FindLargest()
      modifies this`current
      ensures Largest(children, current)
    {
      var largest: Option<nat> := None;
      for i := |children| downto 0
        invariant largest.Some? ==> i <= largest.value < |children| && children[largest.value].Valid()
        invariant forall j :: i <= j < |children| && children[j].Valid() ==>
                    largest.Some? && AtMost(children[j].Current().key, children[largest.value].Current().key)
      {
        if children[i].Valid() {
          if largest.None? {
            largest := Some(i);
          } else if Before(children[largest.value].Current().key, children[i].Current().key) {
            largest := Some(i);
          }
        }
      }
      current := largest;
    }

    method SeekToFirst()
      requires Consistent()
      modifies this
      ensures Consistent() && FirstAfter(Union(runs), Bottom, Current())
    {
      for i := 0 to |children|
        invariant ChildrenOf(runs, children)
        invariant forall k :: 0 <= k < i ==> children[k].at == 0
      {
        children := children[i := children[i].SeekToFirst()];
      }
      assert AllCut(runs, children, Bottom);
      FindSmallest();
      direction := Forward;
      SmallestIsFirst(runs, children, Bottom, current);
      if current.Some? {
        RecutForward(runs, children, Bottom, current);
      }
    }

    method SeekToLast()
      requires Consistent()
      modifies this
      ensures Consistent() && LastLeftOf(Union(runs), Top, Current())
    {
      for i := 0 to |children|
        invariant ChildrenOf(runs, children)
        invariant forall k :: 0 <= k < i ==> children[k].at == |runs[k]| - 1
      {
        children := children[i := children[i].SeekToLast()];
      }
      assert AllCutReverse(runs, children, Top);
      FindLargest();
      direction := Reverse;
      LargestIsLast(runs, children, Top, current);
      if current.Some? {
        RecutReverse(runs, children, Top, current);
      }
    }

    method Seek(target: InternalKey)
      requires Consistent()
      modifies this
      ensures Consistent() && FirstAfter(Union(runs), JustBefore(target), Current())
    {
      for i := 0 to |children|
        invariant ChildrenOf(runs, children)
        invariant forall k :: 0 <= k < i ==> CutsAt(runs[k], JustBefore(target), children[k].at)
      {
        SeekCuts(runs[i], target);
        children := children[i := children[i].Seek(target)];
      }
      FindSmallest();
      direction := Forward;
      SmallestIsFirst(runs, children, JustBefore(target), current);
      if current.Some? {
        RecutForward(runs, children, JustBefore(target), current);
      }
    }

    method Next()
      requires Consistent() && current.Some?
      modifies this
      ensures Consistent() && FirstAfter(Union(runs), JustAfter(old(Current()).value.key), Current())
    {
      var c := current.value;
      var key := children[c].Current().key;
      if direction.Reverse? {
        // Position every other child after the current key.
        for i := 0 to |children|
          invariant ChildrenOf(runs, children) && children[c] == old(children[c])
          invariant forall k :: 0 <= k < i && k != c ==> CutsAt(runs[k], JustAfter(key), children[k].at)
        {
          if i != c {
            SeekCuts(runs[i], key);
            children := children[i := children[i].Seek(key)];
            if children[i].Valid() && children[i].Current().key == key {
              StepCuts(runs[i], children[i].at);
              children := children[i := children[i].Next()];
            } else {
              MissCuts(runs[i], key, children[i].at);
            }
          }
        }
        direction := Forward;
      } else {
        OthersAfter(runs, children, c);
      }
      StepCuts(runs[c], children[c].at);
      children := children[c := children[c].Next()];
      assert AllCut(runs, children, JustAfter(key));
      FindSmallest();
      SmallestIsFirst(runs, children, JustAfter(key), current);
      if current.Some? {
        RecutForward(runs, children, JustAfter(key), current);
      }
    }

    method Prev()
      requires Consistent() && current.Some?
      modifies this
      ensures Consistent() && LastLeftOf(Union(runs), JustBefore(old(Current()).value.key), Current())
    {
      var c := current.value;
      var key := children[c].Current().key;
      if direction.Forward? {
        // Position every other child before the current key.
        for i := 0 to |children|
          invariant ChildrenOf(runs, children) && children[c] == old(children[c])
          invariant forall k :: 0 <= k < i && k != c ==> CutsAt(runs[k], JustBefore(key), children[k].at + 1)
        {
          if i != c {
            SeekCuts(runs[i], key);
            children := children[i := children[i].Seek(key)];
            if children[i].Valid() {
              children := children[i := children[i].Prev()];
            } else {
              children := children[i := children[i].SeekToLast()];
            }
          }
        }
        direction := Reverse;
      } else {
        OthersBefore(runs, children, c);
      }
      StepCuts(runs[c], children[c].at);
      children := children[c := children[c].Prev()];
      assert AllCutReverse(runs, children, JustBefore(key));
      FindLargest();
      LargestIsLast(runs, children, JustBefore(key), current);
      if current.Some? {
        RecutReverse(runs, children, JustBefore(key), current);
      }
    }
  }
}
