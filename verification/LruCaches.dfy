/** One shard of the block cache: reference counts, two lists, a hash table and a charge. */
module LruCaches {
  import opened Wrappers
  import opened HandleTables
  import opened LruLists

  class LRUCache {
    const capacity: nat
    const table: HandleTable
    var s: Shard
    var nextId: Id

    constructor (capacity: nat, hash: Key -> nat)
      ensures Valid() && fresh(table) && this.capacity == capacity && s == Shard(map[], [], [], 0, map[], [])
    {
      this.capacity := capacity;
      table := new HandleTable(hash);
      s, nextId := Shard(map[], [], [], 0, map[], []), 0;
    }

    ghost predicate Valid()
      reads this, table
    {
      Ready(s, table.m, nextId) && table.Valid()
    }

    ghost function State(): (c: Cache)
      reads this, table
    {
      Cache(s, table.m, nextId)
    }

    method Lookup(key: Key) returns (r: Option<Id>)
      requires Valid()
      modifies this
      ensures Valid()
      ensures match r
        case None => key !in table.m && s == old(s)
        case Some(e) =>
          && key in table.m && e == table.m[key] && e in old(s.handles) && e in old(s.clients)
          && s == Ref(old(s), e)
      ensures Does(capacity, old(State()), LookUp(key), State())
    {
      r := table.Lookup(key);
      if r.Some? {
        RefKeepsReady(s, table.m, nextId, r.value);
        s := Ref(s, r.value);
      }
    }

    method ReleaseHandle(e: Id)
      requires Valid() && e in s.handles && s.clients[e] > 0
      modifies this
      ensures Valid() && s == Release(old(s), e)
      ensures Does(capacity, old(State()), ReleaseOf(e), State())
    {
      ReleaseKeepsReady(s, table.m, nextId, e);
      s := Release(s, e);
    }

    /** Finishes the removal of an entry that is no longer in the hash table. */
    method Drop(e: Id, ghost m0: map<Key, Id>)
      requires table.Valid() && Ready(s, m0, nextId) && e in s.handles && s.handles[e].inCache && s.handles[e].refs > 0
      requires table.m == m0 - {s.handles[e].key}
      modifies this
      ensures Valid() && nextId == old(nextId) && s == FinishErase(old(s), e)
    {
      EraseKeepsReady(s, m0, nextId, e);
      s := FinishErase(s, e);
    }

    method Erase(key: Key)
      requires Valid()
      modifies this, table
      ensures Valid() && table.m == old(table.m) - {key} && s == EraseKey(old(s), old(table.m), key)
      ensures Does(capacity, old(State()), EraseOf(key), State())
    {
      ghost var c := State();
      var removed := table.Remove(key);
      if removed.Some? {
        InTable(s, c.m, key);
        Drop(removed.value, c.m);
      } else {
        assert c.m - {key} == c.m;
      }
      ErasedKey(capacity, c, key, State());
    }

    /** Evicts the oldest unreferenced entry. */
    method EvictOldest()
      requires Valid() && s.lru != []
      modifies this, table
      ensures Valid() && nextId == old(nextId) && Evicted(old(s), old(table.m), 1, s, table.m)
    {
      var e := s.lru[0];
      ghost var m0 := table.m;
      OldestIsCached(s, m0);
      OneEvicted(s, m0);
      var removed := table.Remove(s.handles[e].key);
      Drop(removed.value, m0);
    }

    /** Enters the entry into the hash table and takes out the one it replaces. */
    method EnterCached(e: Id, key: Key, charge: nat)
      requires Valid() && e == nextId && capacity > 0
      modifies this, table
      ensures Valid() && nextId == e + 1 && s == Entered(old(s), old(table.m), e, key, charge, capacity)
      ensures table.m == EnteredTable(old(table.m), e, key, capacity)
    {
      ReplaceKeepsReady(s, table.m, e, key, charge);
      nextId := nextId + 1;
      var previous := table.Insert(key, e);
      s := Replace(s, e, key, charge, previous);
    }

    /** With no capacity the entry is handed out but not cached. */
    method EnterUncached(e: Id, key: Key, charge: nat)
      requires Valid() && e == nextId && capacity == 0
      modifies this
      ensures Valid() && nextId == e + 1 && s == Entered(old(s), table.m, e, key, charge, capacity)
    {
      UncachedKeepsReady(s, table.m, e, key, charge);
      nextId := nextId + 1;
      s := Enter(s, e, key, charge, false);
    }

    method EnterNew(key: Key, charge: nat) returns (e: Id)
      requires Valid()
      modifies this, table
      ensures Valid() && e == old(nextId) && nextId == e + 1
      ensures s == Entered(old(s), old(table.m), e, key, charge, capacity)
      ensures table.m == EnteredTable(old(table.m), e, key, capacity)
    {
      e := nextId;
      if capacity > 0 {
        EnterCached(e, key, charge);
      } else {
        EnterUncached(e, key, charge);
      }
    }

    /**
     * Enters a new entry, held by the caller, and evicts the `n` oldest unreferenced
     * entries, oldest first, as long as the usage exceeds the capacity.
     */
    method Insert(key: Key, charge: nat) returns (e: Id, ghost n: nat)
      requires Valid()
      modifies this, table
      ensures Valid() && e !in old(s.handles) && e !in old(s.deleted)
      ensures var s1 := Entered(old(s), old(table.m), e, key, charge, capacity);
        Evicting(s1, EnteredTable(old(table.m), e, key, capacity), capacity, n, s, table.m)
      ensures s.usage <= capacity || s.lru == []
      ensures Does(capacity, old(State()), InsertOf(key, charge), State())
    {
      e := EnterNew(key, charge);
      n := EvictWhileFull();
      assert Inserts(capacity, old(State()), key, charge, n, State());
    }

    /** The eviction loop of Insert. */
    method EvictWhileFull() returns (ghost n: nat)
      requires Valid()
      modifies this, table
      ensures Valid() && nextId == old(nextId) && Evicting(old(s), old(table.m), capacity, n, s, table.m)
      ensures s.usage <= capacity || s.lru == []
    {
      n := 0;
      NoneEvicted(s, table.m);
      while s.usage > capacity && s.lru != []
        invariant Valid() && nextId == old(nextId) && Evicting(old(s), old(table.m), capacity, n, s, table.m)
        decreases |s.lru|
      {
        EvictOneMore(old(s), old(table.m), capacity, n);
        n := n + 1;
      }
    }

    method EvictOneMore(ghost s0: Shard, ghost m0: map<Key, Id>, ghost limit: int, ghost n: nat)
      requires Valid() && s.lru != [] && s.usage > limit && Evicting(s0, m0, limit, n, s, table.m)
      modifies this, table
      ensures Valid() && nextId == old(nextId)
      ensures Evicting(s0, m0, limit, n + 1, s, table.m) && |s.lru| < old(|s.lru|)
    {
      EvictOldest();
      EvictNext(s0, m0, limit, n, old(s), old(table.m), s, table.m);
    }

    /** Evicts every unreferenced entry. */
    method Prune()
      requires Valid()
      modifies this, table
      ensures Valid() && Evicted(old(s), old(table.m), |old(s.lru)|, s, table.m)
      ensures Does(capacity, old(State()), PruneAll, State())
    {
      ghost var n := 0;
      NoneEvicted(s, table.m);
      while s.lru != []
        invariant Valid() && nextId == old(nextId) && Pruning(old(s), old(table.m), n, s, table.m)
        decreases |s.lru|
      {
        PruneOneMore(old(s), old(table.m), n);
        n := n + 1;
      }
      AllPruned(old(s), old(table.m), n, s, table.m);
    }

    method PruneOneMore(ghost s0: Shard, ghost m0: map<Key, Id>, ghost n: nat)
      requires Valid() && s.lru != [] && Pruning(s0, m0, n, s, table.m)
      modifies this, table
      ensures Valid() && nextId == old(nextId) && Pruning(s0, m0, n + 1, s, table.m) && |s.lru| < old(|s.lru|)
    {
      EvictOldest();
      OneMoreEvicted(s0, m0, n, old(s), old(table.m), s, table.m);
    }
  }

  /** What a caller of Insert can rely on, from the states before and after. */
  lemma InsertedIsCached(
    s: Shard, m: map<Key, Id>, e: Id, key: Key, charge: nat, capacity: nat, n: nat, s': Shard, m': map<Key, Id>)
    requires Ready(s, m, e)
    requires Evicted(Entered(s, m, e, key, charge, capacity), EnteredTable(m, e, key, capacity), n, s', m')
    ensures e in s'.handles && s'.handles[e].key == key && s'.handles[e].charge == charge
    ensures e in s'.clients && s'.clients[e] == 1 && KeepsHeld(s, s')
    ensures capacity > 0 ==> key in m' && m'[key] == e && s'.handles[e].inCache
  {
    var s1, m1 := Entered(s, m, e, key, charge, capacity), EnteredTable(m, e, key, capacity);
    EntryEntered(s, m, e, key, charge, capacity);
    EnteredReady(s, m, e, key, charge, capacity);
    EnteredSurvives(s1, m1, n, s', m', e);
    EvictionKeepsHeld(s1, m1, n, s', m');
  }

  lemma ErasedKey(capacity: nat, c: Cache, key: Key, c': Cache)
    requires Usable(c) && Usable(c') && c' == Cache(EraseKey(c.s, c.m, key), c.m - {key}, c.next)
    ensures Does(capacity, c, EraseOf(key), c')
  {
  }

  lemma EnteredReady(s: Shard, m: map<Key, Id>, e: Id, key: Key, charge: nat, capacity: nat)
    requires Ready(s, m, e)
    ensures Ready(Entered(s, m, e, key, charge, capacity), EnteredTable(m, e, key, capacity), e + 1)
  {
    if capacity == 0 {
      UncachedKeepsReady(s, m, e, key, charge);
    } else {
      ReplaceKeepsReady(s, m, e, key, charge);
    }
  }
}
