/** The lists and reference counts of one shard of the block cache. */
module LruLists {
  import opened Wrappers
  import opened HandleTables

  datatype Handle = Handle(key: Key, charge: nat, inCache: bool, refs: nat)

  /** `clients` counts the references handed out and not released; `deleted` lists the entries whose
      deleter ran, in order. */
  datatype Shard = Shard(handles: map<Id, Handle>, lru: seq<Id>, inUse: seq<Id>, usage: int, clients: map<Id, nat>,
    deleted: seq<Id>)

  // ---- Lists ----

  ghost predicate Unique(s: seq<Id>) {
    forall i, j :: 0 <= i < j < |s| ==> s[i] != s[j]
  }

  function Without(s: seq<Id>, e: Id): (r: seq<Id>) {
    if s == [] then [] else if s[0] == e then s[1..] else [s[0]] + Without(s[1..], e)
  }

  lemma {:induction false} WithoutIs(s: seq<Id>, e: Id)
    requires Unique(s)
    ensures Unique(Without(s, e)) && forall x :: x in Without(s, e) <==> x in s && x != e
  {
    if s != [] {
      WithoutIs(s[1..], e);
      assert s == [s[0]] + s[1..];
      if s[0] != e {
        assert forall i :: 0 < i < |s| ==> s[i] != s[0];
        assert s[0] !in s[1..] && s[0] !in Without(s[1..], e);
      } else {
        assert e !in s[1..];
      }
    }
  }

  ghost predicate AllIn(handles: map<Id, Handle>, s: seq<Id>) {
    forall x :: x in s ==> x in handles
  }

  ghost function Charges(handles: map<Id, Handle>, s: seq<Id>): (r: int)
    requires AllIn(handles, s)
  {
    if s == [] then 0 else
      assert s[0] in s && forall x :: x in s[1..] ==> x in s;
      handles[s[0]].charge + Charges(handles, s[1..])
  }

  lemma {:induction false} ChargesWithout(handles: map<Id, Handle>, s: seq<Id>, e: Id)
    requires AllIn(handles, s) && Unique(s) && e in s
    ensures AllIn(handles, Without(s, e)) && Charges(handles, Without(s, e)) == Charges(handles, s) - handles[e].charge
  {
    WithoutIs(s, e);
    assert s == [s[0]] + s[1..];
    if s[0] != e {
      ChargesWithout(handles, s[1..], e);
      assert Without(s, e)[1..] == Without(s[1..], e);
    }
  }

  lemma {:induction false} ChargesAppend(handles: map<Id, Handle>, s: seq<Id>, e: Id)
    requires AllIn(handles, s) && e in handles
    ensures AllIn(handles, s + [e]) && Charges(handles, s + [e]) == Charges(handles, s) + handles[e].charge
  {
    if s == [] {
      assert s + [e] == [e];
      assert [e][1..] == [];
    } else {
      assert (s + [e])[1..] == s[1..] + [e];
      ChargesAppend(handles, s[1..], e);
    }
  }

  /** Only the charges of the listed entries matter. */
  lemma {:induction false} ChargesAgree(h: map<Id, Handle>, h': map<Id, Handle>, s: seq<Id>)
    requires AllIn(h, s) && AllIn(h', s) && forall x :: x in s ==> h'[x].charge == h[x].charge
    ensures Charges(h', s) == Charges(h, s)
  {
    if s != [] {
      assert s[0] in s && forall x :: x in s[1..] ==> x in s;
      ChargesAgree(h, h', s[1..]);
    }
  }

  // ---- The invariant ----

  ghost predicate Counted(s: Shard) {
    && s.clients.Keys == s.handles.Keys
    && forall e :: e in s.handles ==>
         && s.handles[e].refs == s.clients[e] + (if s.handles[e].inCache then 1 else 0)
         && s.handles[e].refs >= 1
  }

  /** A cached entry is on the LRU list if only the cache refers to it, and on the other list if a
      client does; an entry outside the cache is on neither. */
  ghost predicate Listed(s: Shard) {
    && Unique(s.lru) && Unique(s.inUse)
    && (forall e :: e in s.lru <==> e in s.handles && s.handles[e].inCache && s.handles[e].refs == 1)
    && (forall e :: e in s.inUse <==> e in s.handles && s.handles[e].inCache && s.handles[e].refs >= 2)
  }

  ghost predicate Charged(s: Shard) {
    && AllIn(s.handles, s.lru) && AllIn(s.handles, s.inUse)
    && s.usage == Charges(s.handles, s.lru) + Charges(s.handles, s.inUse)
  }

  /** Each deleter ran at most once, and only for entries that are gone. */
  ghost predicate DeletedOnce(s: Shard) {
    Unique(s.deleted) && forall e :: e in s.deleted ==> e !in s.handles
  }

  ghost predicate Inv(s: Shard) {
    Counted(s) && Listed(s) && Charged(s) && DeletedOnce(s)
  }

  /** The hash table maps the key of every cached entry to it. */
  ghost predicate Agrees(s: Shard, m: map<Key, Id>) {
    && (forall k :: k in m ==> m[k] in s.handles && s.handles[m[k]].inCache && s.handles[m[k]].key == k)
    && forall e :: e in s.handles && s.handles[e].inCache ==> s.handles[e].key in m && m[s.handles[e].key] == e
  }

  // ---- The operations on the lists and counts ----

  function Ref(s: Shard, e: Id): (r: Shard)
    requires e in s.handles && e in s.clients
  {
    var h := s.handles[e];
    var s1 := if h.refs == 1 && h.inCache then s.(lru := Without(s.lru, e), inUse := s.inUse + [e]) else s;
    s1.(handles := s.handles[e := h.(refs := h.refs + 1)], clients := s.clients[e := s.clients[e] + 1])
  }

  /** Dropping one reference; the last one runs the deleter. */
  function Unref(s: Shard, e: Id): (r: Shard)
    requires e in s.handles && s.handles[e].refs > 0
  {
    var h := s.handles[e].(refs := s.handles[e].refs - 1);
    if h.refs == 0 then s.(handles := s.handles - {e}, clients := s.clients - {e}, deleted := s.deleted + [e])
    else
      var s1 := s.(handles := s.handles[e := h]);
      if h.inCache && h.refs == 1 then s1.(inUse := Without(s.inUse, e), lru := s.lru + [e]) else s1
  }

  function Release(s: Shard, e: Id): (r: Shard)
    requires e in s.handles && e in s.clients && s.clients[e] > 0 && s.handles[e].refs > 0
  {
    Unref(s.(clients := s.clients[e := s.clients[e] - 1]), e)
  }

  /** Taking an entry out of the cache: off its list, its charge returned, the cache's reference dropped. */
  function FinishErase(s: Shard, e: Id): (r: Shard)
    requires e in s.handles && s.handles[e].refs > 0
  {
    var h := s.handles[e];
    Unref(s.(lru := Without(s.lru, e), inUse := Without(s.inUse, e), handles := s.handles[e := h.(inCache := false)],
      usage := s.usage - h.charge), e)
  }

  /** Erasing a key takes out the entry that the hash table maps it to, if any. */
  function EraseKey(s: Shard, m: map<Key, Id>, key: Key): (r: Shard) {
    if key in m && m[key] in s.handles && s.handles[m[key]].refs > 0 then FinishErase(s, m[key]) else s
  }

  /** A new entry with one client reference and, unless caching is off, one of the cache. */
  function Enter(s: Shard, e: Id, key: Key, charge: nat, caching: bool): (r: Shard) {
    if caching then
      s.(handles := s.handles[e := Handle(key, charge, true, 2)], clients := s.clients[e := 1],
        inUse := s.inUse + [e], usage := s.usage + charge)
    else s.(handles := s.handles[e := Handle(key, charge, false, 1)], clients := s.clients[e := 1])
  }

  lemma RefKeepsLists(s: Shard, e: Id)
    requires Counted(s) && Listed(s) && DeletedOnce(s) && e in s.handles
    ensures Counted(Ref(s, e)) && Listed(Ref(s, e)) && DeletedOnce(Ref(s, e))
  {
    WithoutIs(s.lru, e);
  }

  lemma RefKeepsCharge(s: Shard, e: Id)
    requires Counted(s) && Listed(s) && Charged(s) && e in s.handles
    ensures Charged(Ref(s, e))
  {
    var s' := Ref(s, e);
    WithoutIs(s.lru, e);
    if s.handles[e].refs == 1 && s.handles[e].inCache {
      ChargesWithout(s.handles, s.lru, e);
      ChargesAppend(s.handles, s.inUse, e);
    }
    ChargesAgree(s.handles, s'.handles, s'.lru);
    ChargesAgree(s.handles, s'.handles, s'.inUse);
  }

  lemma ReleaseKeepsLists(s: Shard, e: Id)
    requires Counted(s) && Listed(s) && DeletedOnce(s) && e in s.handles && s.clients[e] > 0
    ensures Counted(Release(s, e)) && Listed(Release(s, e)) && DeletedOnce(Release(s, e))
  {
    WithoutIs(s.inUse, e);
  }

  lemma ReleaseKeepsCharge(s: Shard, e: Id)
    requires Counted(s) && Listed(s) && Charged(s) && e in s.handles && s.clients[e] > 0
    ensures Charged(Release(s, e))
  {
    var s' := Release(s, e);
    WithoutIs(s.inUse, e);
    if s.handles[e].inCache && s.handles[e].refs == 2 {
      ChargesWithout(s.handles, s.inUse, e);
      ChargesAppend(s.handles, s.lru, e);
    }
    ChargesAgree(s.handles, s'.handles, s'.lru);
    ChargesAgree(s.handles, s'.handles, s'.inUse);
  }

  lemma EraseKeepsLists(s: Shard, e: Id)
    requires Counted(s) && Listed(s) && DeletedOnce(s) && e in s.handles && s.handles[e].inCache
    ensures Counted(FinishErase(s, e)) && Listed(FinishErase(s, e)) && DeletedOnce(FinishErase(s, e))
  {
    WithoutIs(s.lru, e);
    WithoutIs(s.inUse, e);
  }

  lemma {:induction false} WithoutAbsent(s: seq<Id>, e: Id)
    requires e !in s
    ensures Without(s, e) == s
  {
    if s != [] {
      WithoutAbsent(s[1..], e);
    }
  }

  lemma EraseKeepsCharge(s: Shard, e: Id)
    requires Counted(s) && Listed(s) && Charged(s) && e in s.handles && s.handles[e].inCache
    ensures Charged(FinishErase(s, e))
  {
    var s' := FinishErase(s, e);
    WithoutIs(s.lru, e);
    WithoutIs(s.inUse, e);
    if e in s.lru {
      ChargesWithout(s.handles, s.lru, e);
      WithoutAbsent(s.inUse, e);
    } else {
      ChargesWithout(s.handles, s.inUse, e);
      WithoutAbsent(s.lru, e);
    }
    ChargesAgree(s.handles, s'.handles, s'.lru);
    ChargesAgree(s.handles, s'.handles, s'.inUse);
  }

  lemma EnterKeepsLists(s: Shard, e: Id, key: Key, charge: nat, caching: bool)
    requires Counted(s) && Listed(s) && DeletedOnce(s) && e !in s.handles && e !in s.deleted
    ensures var s' := Enter(s, e, key, charge, caching); Counted(s') && Listed(s') && DeletedOnce(s')
  {
  }

  lemma EnterKeepsCharge(s: Shard, e: Id, key: Key, charge: nat, caching: bool)
    requires Listed(s) && Charged(s) && e !in s.handles
    ensures Charged(Enter(s, e, key, charge, caching))
  {
    var s' := Enter(s, e, key, charge, caching);
    ChargesAgree(s.handles, s'.handles, s.lru);
    ChargesAgree(s.handles, s'.handles, s.inUse);
    if caching {
      ChargesAppend(s'.handles, s.inUse, e);
    }
  }

  // ---- The hash table stays in step ----

  /** Every identity handed out so far is alive, or its deleter has run; none beyond is known. */
  ghost predicate FreshFrom(s: Shard, n: Id) {
    && (forall e :: e in s.handles ==> e < n) && (forall e :: e in s.deleted ==> e < n)
    && forall e: Id {:trigger Accounted(s, e)} :: e < n ==> Accounted(s, e)
  }

  ghost predicate Accounted(s: Shard, e: Id) {
    e in s.handles || e in s.deleted
  }

  ghost predicate Ready(s: Shard, m: map<Key, Id>, n: Id) {
    Inv(s) && Agrees(s, m) && FreshFrom(s, n)
  }

  lemma RefKeepsReady(s: Shard, m: map<Key, Id>, n: Id, e: Id)
    requires Ready(s, m, n) && e in s.handles
    ensures Ready(Ref(s, e), m, n)
  {
    assert forall x: Id :: Accounted(s, x) ==> Accounted(Ref(s, e), x);
    RefKeepsLists(s, e);
    RefKeepsCharge(s, e);
  }

  lemma ReleaseKeepsTable(s: Shard, m: map<Key, Id>, n: Id, e: Id)
    requires Counted(s) && Agrees(s, m) && FreshFrom(s, n) && e in s.handles && s.clients[e] > 0
    ensures Agrees(Release(s, e), m) && FreshFrom(Release(s, e), n)
  {
    assert forall x: Id :: Accounted(s, x) ==> Accounted(Release(s, e), x);
  }

  lemma ReleaseKeepsReady(s: Shard, m: map<Key, Id>, n: Id, e: Id)
    requires Ready(s, m, n) && e in s.handles && s.clients[e] > 0
    ensures Ready(Release(s, e), m, n)
  {
    ReleaseKeepsLists(s, e);
    ReleaseKeepsCharge(s, e);
    ReleaseKeepsTable(s, m, n, e);
  }

  lemma EraseKeepsTable(s: Shard, m: map<Key, Id>, n: Id, e: Id)
    requires Agrees(s, m) && FreshFrom(s, n) && e in s.handles && s.handles[e].inCache && s.handles[e].refs > 0
    ensures Agrees(FinishErase(s, e), m - {s.handles[e].key}) && FreshFrom(FinishErase(s, e), n)
  {
    assert forall x: Id :: Accounted(s, x) ==> Accounted(FinishErase(s, e), x);
  }

  lemma EraseKeepsReady(s: Shard, m: map<Key, Id>, n: Id, e: Id)
    requires Ready(s, m, n) && e in s.handles && s.handles[e].inCache
    ensures Ready(FinishErase(s, e), m - {s.handles[e].key}, n)
  {
    EraseKeepsLists(s, e);
    EraseKeepsCharge(s, e);
    EraseKeepsTable(s, m, n, e);
  }

  /** The state after entering a new entry and taking out the one it replaces. */
  function Replace(s: Shard, e: Id, key: Key, charge: nat, previous: Option<Id>): (r: Shard) {
    var s1 := Enter(s, e, key, charge, true);
    if previous.Some? && previous.value in s.handles && s.handles[previous.value].refs > 0 && previous.value != e then
      FinishErase(s1, previous.value)
    else s1
  }

  lemma ReplaceKeepsTable(s: Shard, m: map<Key, Id>, e: Id, key: Key, charge: nat)
    requires Counted(s) && Agrees(s, m) && FreshFrom(s, e)
    ensures var previous := if key in m then Some(m[key]) else None;
      Agrees(Replace(s, e, key, charge, previous), m[key := e])
        && FreshFrom(Replace(s, e, key, charge, previous), e + 1)
  {
    var previous := if key in m then Some(m[key]) else None;
    assert forall x: Id :: Accounted(s, x) || x == e ==> Accounted(Replace(s, e, key, charge, previous), x);
  }

  lemma ReplaceKeepsReady(s: Shard, m: map<Key, Id>, e: Id, key: Key, charge: nat)
    requires Ready(s, m, e)
    ensures var previous := if key in m then Some(m[key]) else None;
      Ready(Replace(s, e, key, charge, previous), m[key := e], e + 1)
  {
    EnterKeepsLists(s, e, key, charge, true);
    EnterKeepsCharge(s, e, key, charge, true);
    if key in m {
      EraseKeepsLists(Enter(s, e, key, charge, true), m[key]);
      EraseKeepsCharge(Enter(s, e, key, charge, true), m[key]);
    }
    ReplaceKeepsTable(s, m, e, key, charge);
  }

  lemma UncachedKeepsReady(s: Shard, m: map<Key, Id>, e: Id, key: Key, charge: nat)
    requires Ready(s, m, e)
    ensures Ready(Enter(s, e, key, charge, false), m, e + 1)
  {
    assert forall x: Id :: Accounted(s, x) || x == e ==> Accounted(Enter(s, e, key, charge, false), x);
    EnterKeepsLists(s, e, key, charge, false);
    EnterKeepsCharge(s, e, key, charge, false);
  }

  /** Whatever a client holds stays, with its count. */
  ghost predicate KeepsHeld(s: Shard, s': Shard) {
    forall x ::
      x in s.handles && x in s.clients && s.clients[x] > 0 ==>
        x in s'.handles && x in s'.clients && s'.clients[x] == s.clients[x]
  }

  lemma InTable(s: Shard, m: map<Key, Id>, key: Key)
    requires Counted(s) && Agrees(s, m) && key in m
    ensures m[key] in s.handles && s.handles[m[key]].inCache && s.handles[m[key]].refs > 0
    ensures s.handles[m[key]].key == key
  {
  }

  lemma OldestIsCached(s: Shard, m: map<Key, Id>)
    requires Counted(s) && Listed(s) && Agrees(s, m) && s.lru != []
    ensures var e := s.lru[0];
      e in s.lru && e in s.handles && s.handles[e].inCache && s.handles[e].refs == 1 && s.handles[e].key in m
        && m[s.handles[e].key] == e
  {
    assert s.lru[0] in s.lru;
  }

  // ---- Eviction ----

  ghost function Ids(es: seq<Id>): (r: set<Id>) {
    set e | e in es
  }

  /** The table without the entries of `gone`. */
  ghost function Unmapped(m: map<Key, Id>, gone: set<Id>): (r: map<Key, Id>) {
    map k | k in m && m[k] !in gone :: m[k]
  }

  /** From `s` the `n` oldest unreferenced entries were evicted, oldest first, and nothing else changed. */
  ghost predicate Evicted(s: Shard, m: map<Key, Id>, n: nat, s': Shard, m': map<Key, Id>) {
    && n <= |s.lru| && AllIn(s.handles, s.lru[..n])
    && s'.lru == s.lru[n..] && s'.inUse == s.inUse
    && s'.deleted == s.deleted + s.lru[..n]
    && s'.usage == s.usage - Charges(s.handles, s.lru[..n])
    && s'.handles == s.handles - Ids(s.lru[..n]) && s'.clients == s.clients - Ids(s.lru[..n])
    && m' == Unmapped(m, Ids(s.lru[..n]))
  }

  lemma NoneEvicted(s: Shard, m: map<Key, Id>)
    ensures Evicted(s, m, 0, s, m)
  {
    assert s.lru[..0] == [] && Ids([]) == {};
    assert Unmapped(m, {}) == m;
  }

  lemma OneEvicted(s: Shard, m: map<Key, Id>)
    requires Counted(s) && Listed(s) && Agrees(s, m) && s.lru != []
    ensures var e := s.lru[0];
      e in s.handles && s.handles[e].refs > 0 && Evicted(s, m, 1, FinishErase(s, e), m - {s.handles[e].key})
  {
    var e := s.lru[0];
    assert e in s.lru && s.lru[..1] == [e] && Ids([e]) == {e} && [e][1..] == [];
    assert Charges(s.handles, [e]) == s.handles[e].charge;
    WithoutAbsent(s.inUse, e);
    assert m - {s.handles[e].key} == Unmapped(m, {e});
  }

  lemma {:induction false} ChargesPrefix(handles: map<Id, Handle>, es: seq<Id>, n: nat)
    requires n < |es| && AllIn(handles, es[..n + 1])
    ensures AllIn(handles, es[..n]) && es[n] in handles
    ensures Charges(handles, es[..n + 1]) == Charges(handles, es[..n]) + handles[es[n]].charge
  {
    assert es[..n + 1] == es[..n] + [es[n]];
    assert forall x :: x in es[..n] ==> x in es[..n + 1];
    assert es[n] in es[..n + 1];
    ChargesAppend(handles, es[..n], es[n]);
  }

  /** Evicting one more. */
  lemma OneMoreEvicted(s: Shard, m: map<Key, Id>, n: nat, t: Shard, m1: map<Key, Id>, t': Shard, m2: map<Key, Id>)
    requires Listed(s) && Evicted(s, m, n, t, m1) && Evicted(t, m1, 1, t', m2)
    ensures Evicted(s, m, n + 1, t', m2)
  {
    var e := s.lru[n];
    assert t.lru[..1] == [e] && Ids([e]) == {e} && [e][1..] == [];
    assert s.lru[..n + 1] == s.lru[..n] + [e];
    assert Ids(s.lru[..n + 1]) == Ids(s.lru[..n]) + {e};
    assert e in s.lru && AllIn(s.handles, s.lru[..n + 1]);
    ChargesPrefix(s.handles, s.lru, n);
    assert e in t.handles && t.handles[e] == s.handles[e];
    assert Charges(t.handles, [e]) == s.handles[e].charge;
    assert Unmapped(m1, {e}) == Unmapped(m, Ids(s.lru[..n + 1]));
  }

  /** Eviction stops as soon as the usage fits. */
  ghost predicate OnlyWhileOver(s: Shard, n: nat, capacity: int)
    requires AllIn(s.handles, s.lru)
  {
    n <= |s.lru| && forall k :: 0 <= k < n ==>
      AllIn(s.handles, s.lru[..k]) && s.usage - Charges(s.handles, s.lru[..k]) > capacity
  }

  /** The eviction loop so far. */
  ghost predicate Evicting(s: Shard, m: map<Key, Id>, capacity: int, n: nat, t: Shard, m1: map<Key, Id>) {
    Listed(s) && AllIn(s.handles, s.lru) && Evicted(s, m, n, t, m1) && OnlyWhileOver(s, n, capacity)
  }

  /** The pruning loop so far. */
  ghost predicate Pruning(s: Shard, m: map<Key, Id>, n: nat, t: Shard, m1: map<Key, Id>) {
    Listed(s) && Evicted(s, m, n, t, m1)
  }

  lemma AllPruned(s: Shard, m: map<Key, Id>, n: nat, t: Shard, m1: map<Key, Id>)
    requires Pruning(s, m, n, t, m1) && t.lru == []
    ensures Evicted(s, m, |s.lru|, t, m1)
  {
  }

  lemma EvictNext(
    s: Shard, m: map<Key, Id>, capacity: int, n: nat, t: Shard, m1: map<Key, Id>, t': Shard, m2: map<Key, Id>)
    requires Evicting(s, m, capacity, n, t, m1) && Evicted(t, m1, 1, t', m2) && t.usage > capacity
    ensures Evicting(s, m, capacity, n + 1, t', m2) && |t'.lru| < |t.lru|
  {
    OneMoreEvicted(s, m, n, t, m1, t', m2);
  }

  lemma EvictionKeepsHeld(s: Shard, m: map<Key, Id>, n: nat, s': Shard, m': map<Key, Id>)
    requires Counted(s) && Listed(s) && Evicted(s, m, n, s', m')
    ensures KeepsHeld(s, s')
  {
    forall x | x in s.handles && x in s.clients && s.clients[x] > 0 ensures x !in Ids(s.lru[..n]) {
      assert x !in s.lru;
    }
  }

  /** The state in which Insert starts to evict. */
  function Entered(s: Shard, m: map<Key, Id>, e: Id, key: Key, charge: nat, capacity: nat): (r: Shard) {
    if capacity == 0 then Enter(s, e, key, charge, false)
    else Replace(s, e, key, charge, if key in m then Some(m[key]) else None)
  }

  function EnteredTable(m: map<Key, Id>, e: Id, key: Key, capacity: nat): (r: map<Key, Id>) {
    if capacity == 0 then m else m[key := e]
  }

  /** What Insert enters: the entry as asked for, held by its client, and the one it replaces dropped by the cache. */
  lemma EntryEntered(s: Shard, m: map<Key, Id>, e: Id, key: Key, charge: nat, capacity: nat)
    requires Counted(s) && Agrees(s, m) && FreshFrom(s, e)
    ensures var s1 := Entered(s, m, e, key, charge, capacity);
      && e in s1.handles && s1.handles[e]
        == (if capacity > 0 then Handle(key, charge, true, 2) else Handle(key, charge, false, 1))
      && e in s1.clients && s1.clients[e] == 1 && KeepsHeld(s, s1)
      && s1.deleted == s.deleted + if capacity > 0 && key in m && s.handles[m[key]].refs == 1 then [m[key]] else []
  {
  }

  /** An entry that a client holds survives the eviction, and so does its place in the table. */
  lemma EnteredSurvives(s: Shard, m: map<Key, Id>, n: nat, s': Shard, m': map<Key, Id>, e: Id)
    requires Counted(s) && Listed(s) && Evicted(s, m, n, s', m')
    requires e in s.handles && s.clients[e] > 0
    ensures e in s'.handles && s'.handles[e] == s.handles[e] && e in s'.clients && s'.clients[e] == s.clients[e]
    ensures forall k :: k in m && m[k] == e ==> k in m' && m'[k] == e
  {
    assert e !in s.lru;
  }

  // ---- The calls of clients ----

  /** A shard, the map that its hash table stands for, and the next fresh identity. */
  datatype Cache = Cache(s: Shard, m: map<Key, Id>, next: Id)

  datatype Call = LookUp(key: Key) | ReleaseOf(e: Id) | InsertOf(key: Key, charge: nat) | EraseOf(key: Key) | PruneAll

  ghost predicate Usable(c: Cache) {
    Ready(c.s, c.m, c.next)
  }

  /** What a call does to the cache. */
  ghost predicate Does(capacity: nat, c: Cache, call: Call, c': Cache) {
    && Usable(c) && Usable(c')
    && match call
       case LookUp(key) =>
         if key in c.m && c.m[key] in c.s.handles && c.m[key] in c.s.clients then c' == c.(s := Ref(c.s, c.m[key]))
         else key !in c.m && c' == c
       case ReleaseOf(e) =>
         && e in c.s.handles && e in c.s.clients && c.s.clients[e] > 0 && c.s.handles[e].refs > 0
         && c' == c.(s := Release(c.s, e))
       case InsertOf(key, charge) =>
         && c'.next == c.next + 1
         && exists n: nat :: Inserts(capacity, c, key, charge, n, c')
       case EraseOf(key) => c' == Cache(EraseKey(c.s, c.m, key), c.m - {key}, c.next)
       case PruneAll => c'.next == c.next && Evicted(c.s, c.m, |c.s.lru|, c'.s, c'.m)
  }

  /** The new entry is entered, then `n` entries are evicted, until the usage fits or nothing can go. */
  ghost predicate Inserts(capacity: nat, c: Cache, key: Key, charge: nat, n: nat, c': Cache) {
    && Evicting(Entered(c.s, c.m, c.next, key, charge, capacity), EnteredTable(c.m, c.next, key, capacity), capacity, n,
                c'.s, c'.m)
    && (c'.s.usage <= capacity || c'.s.lru == [])
  }
}
