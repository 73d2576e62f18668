/** Which cached entries go first: the order of releases as clients see it. */
module LruOrder {
  import opened Wrappers
  import opened HandleTables
  import opened LruLists

  ghost predicate IsRun(capacity: nat, run: seq<Cache>, calls: seq<Call>) {
    && |run| == |calls| + 1 && run[0] == Cache(Shard(map[], [], [], 0, map[], []), map[], 0)
    && forall i :: 0 <= i < |calls| ==> Does(capacity, run[i], calls[i], run[i + 1])
  }

  /** The call hands out or takes back a reference to `x`. */
  predicate Concerns(c: Cache, call: Call, x: Id) {
    match call
    case LookUp(key) => key in c.m && c.m[key] == x
    case ReleaseOf(e) => e == x
    case _ => false
  }

  /** Before call `i`, the last call that concerned `x` was its release at call `t`. */
  ghost predicate LastReleased(run: seq<Cache>, calls: seq<Call>, i: nat, t: nat, x: Id) {
    && t < i <= |calls| && i < |run| && calls[t] == ReleaseOf(x)
    && forall j :: t < j < i ==> !Concerns(run[j], calls[j], x)
  }

  /** Before call `i`, `x` is cached, no client holds it, and its last client released it at call `t`. */
  ghost predicate IdleSince(run: seq<Cache>, calls: seq<Call>, i: nat, t: nat, x: Id) {
    && LastReleased(run, calls, i, t, x)
    && x in run[i].s.handles && run[i].s.handles[x].inCache && x in run[i].s.clients && run[i].s.clients[x] == 0
  }

  /** `x` was evicted before `y` since the deleters in `before` ran. */
  ghost predicate GoneBefore(before: seq<Id>, after: seq<Id>, x: Id, y: Id) {
    exists a, b :: |before| <= a < b < |after| && after[a] == x && after[b] == y
  }

  // ---- Release times beside the list ----

  ghost predicate Increasing(times: seq<nat>) {
    forall p, q :: 0 <= p < q < |times| ==> times[p] < times[q]
  }

  /** The entries of `list` were released at these times, one after the other. */
  ghost predicate Timed(run: seq<Cache>, calls: seq<Call>, i: nat, list: seq<Id>, times: seq<nat>) {
    && |times| == |list| && Increasing(times)
    && forall p :: 0 <= p < |list| ==> LastReleased(run, calls, i, times[p], list[p])
  }

  /** A call that concerns nothing on the list leaves its times. */
  lemma TimesStay(run: seq<Cache>, calls: seq<Call>, i: nat, list: seq<Id>, times: seq<nat>)
    requires i < |calls| && |run| == |calls| + 1 && Timed(run, calls, i, list, times)
    requires forall x :: x in list ==> !Concerns(run[i], calls[i], x)
    ensures Timed(run, calls, i + 1, list, times)
  {
  }

  lemma {:induction false} WithoutAt(s: seq<Id>, k: nat)
    requires Unique(s) && k < |s|
    ensures Without(s, s[k]) == s[..k] + s[k + 1..]
  {
    if k > 0 {
      assert s[0] != s[k] && s[1..][k - 1] == s[k];
      WithoutAt(s[1..], k - 1);
      assert s[1..][..k - 1] == s[1..k] && s[1..][k..] == s[k + 1..];
    }
  }

  lemma TimesWithout(run: seq<Cache>, calls: seq<Call>, i: nat, list: seq<Id>, times: seq<nat>, x: Id)
    returns (times': seq<nat>)
    requires Unique(list) && Timed(run, calls, i, list, times)
    ensures Timed(run, calls, i, Without(list, x), times')
  {
    if k :| 0 <= k < |list| && list[k] == x {
      WithoutAt(list, k);
      times' := times[..k] + times[k + 1..];
    } else {
      WithoutAbsent(list, x);
      times' := times;
    }
  }

  lemma TimesFrom(run: seq<Cache>, calls: seq<Call>, i: nat, list: seq<Id>, times: seq<nat>, n: nat)
    requires Timed(run, calls, i, list, times) && n <= |list|
    ensures Timed(run, calls, i, list[n..], times[n..])
  {
  }

  // ---- Every call keeps the list in the order of releases ----

  lemma LookUpKeepsTimes(capacity: nat, run: seq<Cache>, calls: seq<Call>, i: nat, times: seq<nat>)
    returns (times': seq<nat>)
    requires IsRun(capacity, run, calls) && i < |calls| && calls[i].LookUp?
    requires Timed(run, calls, i, run[i].s.lru, times)
    ensures Timed(run, calls, i + 1, run[i + 1].s.lru, times')
  {
    var c, key := run[i], calls[i].key;
    assert Does(capacity, c, calls[i], run[i + 1]);
    if key in c.m {
      var x := c.m[key];
      times' := TimesWithout(run, calls, i, c.s.lru, times, x);
      WithoutIs(c.s.lru, x);
      if x !in c.s.lru {
        WithoutAbsent(c.s.lru, x);
      }
      assert run[i + 1].s.lru == Without(c.s.lru, x);
      TimesStay(run, calls, i, Without(c.s.lru, x), times');
    } else {
      times' := times;
      TimesStay(run, calls, i, c.s.lru, times);
    }
  }

  lemma ReleaseKeepsTimes(capacity: nat, run: seq<Cache>, calls: seq<Call>, i: nat, times: seq<nat>)
    returns (times': seq<nat>)
    requires IsRun(capacity, run, calls) && i < |calls| && calls[i].ReleaseOf?
    requires Timed(run, calls, i, run[i].s.lru, times)
    ensures Timed(run, calls, i + 1, run[i + 1].s.lru, times')
  {
    var c, e := run[i], calls[i].e;
    assert Does(capacity, c, calls[i], run[i + 1]);
    assert e !in c.s.lru;
    TimesStay(run, calls, i, c.s.lru, times);
    if run[i + 1].s.lru == c.s.lru {
      times' := times;
    } else {
      assert run[i + 1].s.lru == c.s.lru + [e];
      assert LastReleased(run, calls, i + 1, i, e);
      times' := times + [i];
    }
  }

  /** The list when eviction begins. */
  lemma EnteredList(s: Shard, m: map<Key, Id>, e: Id, key: Key, charge: nat, capacity: nat)
    requires Ready(s, m, e)
    ensures Entered(s, m, e, key, charge, capacity).lru
      == if capacity > 0 && key in m then Without(s.lru, m[key]) else s.lru
  {
  }

  lemma InsertKeepsTimes(capacity: nat, run: seq<Cache>, calls: seq<Call>, i: nat, times: seq<nat>)
    returns (times': seq<nat>)
    requires IsRun(capacity, run, calls) && i < |calls| && calls[i].InsertOf?
    requires Timed(run, calls, i, run[i].s.lru, times)
    ensures Timed(run, calls, i + 1, run[i + 1].s.lru, times')
  {
    var c, key, charge := run[i], calls[i].key, calls[i].charge;
    assert Does(capacity, c, calls[i], run[i + 1]);
    var n: nat :| Inserts(capacity, c, key, charge, n, run[i + 1]);
    var list := Entered(c.s, c.m, c.next, key, charge, capacity).lru;
    EnteredList(c.s, c.m, c.next, key, charge, capacity);
    var left := times;
    if capacity > 0 && key in c.m {
      left := TimesWithout(run, calls, i, c.s.lru, times, c.m[key]);
    }
    TimesStay(run, calls, i, list, left);
    TimesFrom(run, calls, i + 1, list, left, n);
    times' := left[n..];
  }

  lemma OthersKeepTimes(capacity: nat, run: seq<Cache>, calls: seq<Call>, i: nat, times: seq<nat>)
    returns (times': seq<nat>)
    requires IsRun(capacity, run, calls) && i < |calls| && (calls[i].EraseOf? || calls[i].PruneAll?)
    requires Timed(run, calls, i, run[i].s.lru, times)
    ensures Timed(run, calls, i + 1, run[i + 1].s.lru, times')
  {
    var c := run[i];
    assert Does(capacity, c, calls[i], run[i + 1]);
    if calls[i].PruneAll? {
      times' := [];
    } else if calls[i].key in c.m {
      times' := TimesWithout(run, calls, i, c.s.lru, times, c.m[calls[i].key]);
      TimesStay(run, calls, i, Without(c.s.lru, c.m[calls[i].key]), times');
    } else {
      times' := times;
      TimesStay(run, calls, i, c.s.lru, times);
    }
  }

  lemma CallKeepsTimes(capacity: nat, run: seq<Cache>, calls: seq<Call>, i: nat, times: seq<nat>)
    returns (times': seq<nat>)
    requires IsRun(capacity, run, calls) && i < |calls| && Timed(run, calls, i, run[i].s.lru, times)
    ensures Timed(run, calls, i + 1, run[i + 1].s.lru, times')
  {
    match calls[i]
    case LookUp(_) => times' := LookUpKeepsTimes(capacity, run, calls, i, times);
    case ReleaseOf(_) => times' := ReleaseKeepsTimes(capacity, run, calls, i, times);
    case InsertOf(_, _) => times' := InsertKeepsTimes(capacity, run, calls, i, times);
    case _ => times' := OthersKeepTimes(capacity, run, calls, i, times);
  }

  /** The list is in the order of releases before every call. */
  lemma {:induction false} ListIsTimed(capacity: nat, run: seq<Cache>, calls: seq<Call>, i: nat)
    returns (times: seq<nat>)
    requires IsRun(capacity, run, calls) && i < |run|
    ensures Timed(run, calls, i, run[i].s.lru, times)
  {
    times := [];
    if i > 0 {
      var before := ListIsTimed(capacity, run, calls, i - 1);
      times := CallKeepsTimes(capacity, run, calls, i - 1, before);
    }
  }

  // ---- What goes first ----

  lemma OneLastRelease(run: seq<Cache>, calls: seq<Call>, i: nat, t: nat, u: nat, x: Id)
    requires LastReleased(run, calls, i, t, x) && LastReleased(run, calls, i, u, x)
    ensures t == u
  {
    assert Concerns(run[t], calls[t], x) && Concerns(run[u], calls[u], x);
  }

  /** An entry released earlier stands before one released later. */
  lemma EarlierStandsBefore(
    capacity: nat, run: seq<Cache>, calls: seq<Call>, i: nat, x: Id, y: Id, tx: nat, ty: nat)
    returns (a: nat, b: nat)
    requires IsRun(capacity, run, calls) && i < |calls|
    requires IdleSince(run, calls, i, tx, x) && IdleSince(run, calls, i, ty, y) && tx < ty
    ensures a < b < |run[i].s.lru| && run[i].s.lru[a] == x && run[i].s.lru[b] == y
  {
    assert Does(capacity, run[i], calls[i], run[i + 1]);
    var list := run[i].s.lru;
    var times := ListIsTimed(capacity, run, calls, i);
    assert x in list && y in list;
    a :| 0 <= a < |list| && list[a] == x;
    b :| 0 <= b < |list| && list[b] == y;
    OneLastRelease(run, calls, i, times[a], tx, x);
    OneLastRelease(run, calls, i, times[b], ty, y);
  }

  lemma {:induction false} OrderWithout(s: seq<Id>, e: Id, a: nat, b: nat) returns (c: nat, d: nat)
    requires Unique(s) && a < b < |s| && s[a] != e && s[b] != e
    ensures c < d < |Without(s, e)| && Without(s, e)[c] == s[a] && Without(s, e)[d] == s[b]
  {
    if k :| 0 <= k < |s| && s[k] == e {
      WithoutAt(s, k);
      c, d := if a < k then a else a - 1, if b < k then b else b - 1;
    } else {
      WithoutAbsent(s, e);
      c, d := a, b;
    }
  }

  /** What an eviction takes is a prefix. */
  lemma EvictedInOrder(s: Shard, m: map<Key, Id>, n: nat, s': Shard, m': map<Key, Id>, a: nat, b: nat)
    requires Evicted(s, m, n, s', m') && a < b < |s.lru| && s.lru[b] in s.handles && s.lru[b] !in s'.handles
    requires Unique(s.lru)
    ensures s.lru[a] !in s'.handles && GoneBefore(s.deleted, s'.deleted, s.lru[a], s.lru[b])
  {
    assert s.lru[b] in s.lru[..n];
    var k :| 0 <= k < n && s.lru[..n][k] == s.lru[b];
    assert k == b;
    assert s.lru[..n][a] == s.lru[a];
    assert s'.deleted[|s.deleted| + a] == s.lru[a] && s'.deleted[|s.deleted| + b] == s.lru[b];
  }

  /**
   * Of two entries that no client holds, the one whose last client released it earlier goes first:
   * an insert that evicts the other one evicts it too, and before the other one.
   */
  lemma EarlierReleaseGoesFirst(
    capacity: nat, run: seq<Cache>, calls: seq<Call>, i: nat, x: Id, y: Id, tx: nat, ty: nat)
    requires IsRun(capacity, run, calls) && i < |calls| && calls[i].InsertOf?
    requires IdleSince(run, calls, i, tx, x) && IdleSince(run, calls, i, ty, y) && tx < ty
    requires run[i].s.handles[y].key != calls[i].key && y !in run[i + 1].s.handles
    ensures x !in run[i + 1].s.handles && GoneBefore(run[i].s.deleted, run[i + 1].s.deleted, x, y)
  {
    var a, b := EarlierStandsBefore(capacity, run, calls, i, x, y, tx, ty);
    InsertTakesInOrder(capacity, run[i], calls[i].key, calls[i].charge, run[i + 1], a, b);
  }

  /** The entry that the new one replaces is not `y`; if it is `x`, its deleter runs before the eviction. */
  lemma Replaced(capacity: nat, c: Cache, key: Key, charge: nat, x: Id, y: Id)
    requires Usable(c) && x in c.s.lru && y in c.s.lru && c.s.handles[y].key != key
    ensures var s1 := Entered(c.s, c.m, c.next, key, charge, capacity);
      && y in s1.lru && |s1.deleted| >= |c.s.deleted|
      && (x !in s1.lru ==> s1.deleted == c.s.deleted + [x] && x !in s1.handles)
  {
    EnteredList(c.s, c.m, c.next, key, charge, capacity);
    EntryEntered(c.s, c.m, c.next, key, charge, capacity);
    if key in c.m {
      WithoutIs(c.s.lru, c.m[key]);
    }
  }

  lemma StillInOrder(capacity: nat, c: Cache, key: Key, charge: nat, a: nat, b: nat) returns (a': nat, b': nat)
    requires Usable(c) && a < b < |c.s.lru|
    requires c.s.lru[a] in Entered(c.s, c.m, c.next, key, charge, capacity).lru
    requires c.s.lru[b] in Entered(c.s, c.m, c.next, key, charge, capacity).lru
    ensures var list := Entered(c.s, c.m, c.next, key, charge, capacity).lru;
      a' < b' < |list| && list[a'] == c.s.lru[a] && list[b'] == c.s.lru[b]
  {
    EnteredList(c.s, c.m, c.next, key, charge, capacity);
    a', b' := a, b;
    if capacity > 0 && key in c.m {
      WithoutIs(c.s.lru, c.m[key]);
      a', b' := OrderWithout(c.s.lru, c.m[key], a, b);
    }
  }

  /** An entry evicted after others were deleted. */
  lemma EvictedLater(s: Shard, m: map<Key, Id>, n: nat, s': Shard, m': map<Key, Id>, before: seq<Id>, x: Id, y: Id)
    requires Evicted(s, m, n, s', m') && s.deleted == before + [x] && x !in s.handles
    requires y in s.lru && y in s.handles && y !in s'.handles
    ensures x !in s'.handles && GoneBefore(before, s'.deleted, x, y)
  {
    assert y in s.lru[..n];
    var k :| 0 <= k < n && s.lru[..n][k] == y;
    assert s'.deleted[|before|] == x && s'.deleted[|before| + 1 + k] == y;
  }

  lemma InsertTakesInOrder(capacity: nat, c: Cache, key: Key, charge: nat, c': Cache, a: nat, b: nat)
    requires Does(capacity, c, InsertOf(key, charge), c') && a < b < |c.s.lru|
    requires c.s.lru[b] in c.s.handles && c.s.handles[c.s.lru[b]].key != key && c.s.lru[b] !in c'.s.handles
    ensures c.s.lru[a] !in c'.s.handles && GoneBefore(c.s.deleted, c'.s.deleted, c.s.lru[a], c.s.lru[b])
  {
    var n: nat :| Inserts(capacity, c, key, charge, n, c');
    EvictionInOrder(capacity, c, key, charge, n, c'.s, c'.m, a, b);
  }

  lemma EvictionInOrder(
    capacity: nat, c: Cache, key: Key, charge: nat, n: nat, s': Shard, m': map<Key, Id>, a: nat, b: nat)
    requires Usable(c) && a < b < |c.s.lru| && c.s.lru[b] in c.s.handles && c.s.handles[c.s.lru[b]].key != key
    requires Evicting(
      Entered(c.s, c.m, c.next, key, charge, capacity), EnteredTable(c.m, c.next, key, capacity), capacity, n, s', m')
    requires c.s.lru[b] !in s'.handles
    ensures c.s.lru[a] !in s'.handles && GoneBefore(c.s.deleted, s'.deleted, c.s.lru[a], c.s.lru[b])
  {
    var x, y, s1 := c.s.lru[a], c.s.lru[b], Entered(c.s, c.m, c.next, key, charge, capacity);
    var m1 := EnteredTable(c.m, c.next, key, capacity);
    Replaced(capacity, c, key, charge, x, y);
    if x in s1.lru {
      var a', b' := StillInOrder(capacity, c, key, charge, a, b);
      EvictedInOrder(s1, m1, n, s', m', a', b');
      assert GoneBefore(s1.deleted, s'.deleted, x, y);
    } else {
      EvictedLater(s1, m1, n, s', m', c.s.deleted, x, y);
    }
  }

  /** Pruning takes every entry that no client holds, in the order of their releases. */
  lemma EarlierReleaseIsPrunedFirst(
    capacity: nat, run: seq<Cache>, calls: seq<Call>, i: nat, x: Id, y: Id, tx: nat, ty: nat)
    requires IsRun(capacity, run, calls) && i < |calls| && calls[i].PruneAll?
    requires IdleSince(run, calls, i, tx, x) && IdleSince(run, calls, i, ty, y) && tx < ty
    ensures x !in run[i + 1].s.handles && y !in run[i + 1].s.handles
    ensures GoneBefore(run[i].s.deleted, run[i + 1].s.deleted, x, y)
  {
    var a, b := EarlierStandsBefore(capacity, run, calls, i, x, y, tx, ty);
    var c, c' := run[i], run[i + 1];
    assert Does(capacity, c, calls[i], c');
    assert c.s.lru[..|c.s.lru|] == c.s.lru && y in c.s.lru;
    EvictedInOrder(c.s, c.m, |c.s.lru|, c'.s, c'.m, a, b);
  }
}
