/** The abstract store: a flat set of versioned entries, read at a snapshot. */
module FlatStore {
  import opened Coding
  import opened InternalKeys
  import opened Wrappers

  ghost predicate Visible(store: set<Entry>, user: UserKey, s: SequenceNumber, e: Entry) {
    e in store && e.key.user == user && e.key.seqno <= s
  }

  ghost predicate Newest(store: set<Entry>, user: UserKey, s: SequenceNumber, e: Entry) {
    && Visible(store, user, s, e)
    && forall f :: Visible(store, user, s, f) ==> f.key.seqno <= e.key.seqno
  }

  /** No two entries of one user key carry the same sequence number. */
  ghost predicate Distinct(store: set<Entry>) {
    forall e, f :: e in store && f in store && e.key.user == f.key.user && e.key.seqno == f.key.seqno ==> e == f
  }

  function Meaning(e: Entry): (r: Option<Bytes>) {
    if e.key.kind.Value? then Some(e.value) else None
  }

  ghost function TheNewest(store: set<Entry>, user: UserKey, s: SequenceNumber): (e: Entry)
    requires exists e :: Newest(store, user, s, e)
    ensures Newest(store, user, s, e)
  {
    var e :| Newest(store, user, s, e); e
  }

  /** The newest entry at or below the snapshot decides; a tombstone means absent. */
  ghost function Read(store: set<Entry>, user: UserKey, s: SequenceNumber): (r: Option<Bytes>) {
    if exists e :: Newest(store, user, s, e) then Meaning(TheNewest(store, user, s)) else None
  }

  lemma {:induction false} NewestExists(store: set<Entry>, user: UserKey, s: SequenceNumber, e: Entry)
    requires Visible(store, user, s, e)
    ensures exists n :: Newest(store, user, s, n)
    decreases |store|
  {
    if !Newest(store, user, s, e) {
      var f :| Visible(store, user, s, f) && f.key.seqno > e.key.seqno;
      var rest := store - {e};
      NewestExists(rest, user, s, f);
      var n :| Newest(rest, user, s, n);
      assert Visible(rest, user, s, f);
      forall g | Visible(store, user, s, g) ensures g.key.seqno <= n.key.seqno {
        assert g == e || Visible(rest, user, s, g);
      }
      assert Newest(store, user, s, n);
    }
  }

  lemma ReadNewest(store: set<Entry>, user: UserKey, s: SequenceNumber, e: Entry)
    requires Distinct(store) && Newest(store, user, s, e)
    ensures Read(store, user, s) == Meaning(e)
  {
    assert TheNewest(store, user, s) == e;
  }

  lemma ReadNothing(store: set<Entry>, user: UserKey, s: SequenceNumber)
    requires forall e :: !Visible(store, user, s, e)
    ensures Read(store, user, s) == None
  {
  }

  /** Entries of `a` are newer than the entries of `b` for the same user key. */
  ghost predicate Newer(a: set<Entry>, b: set<Entry>) {
    forall e, f :: e in a && f in b && e.key.user == f.key.user ==> e.key.seqno > f.key.seqno
  }

  /** What seeking one sorted run for (user, s) yields: its newest visible entry. */
  function Probe(run: seq<Entry>, user: UserKey, s: SequenceNumber): (r: Option<Entry>) {
    var i := SeekIndex(run, LookupKey(user, s));
    if i < |run| && run[i].key.user == user then Some(run[i]) else None
  }

  lemma ProbeIsNewest(run: seq<Entry>, user: UserKey, s: SequenceNumber)
    requires Sorted(run)
    ensures Probe(run, user, s).Some? ==> Newest(Contents(run), user, s, Probe(run, user, s).value)
    ensures Probe(run, user, s).None? ==> forall e :: !Visible(Contents(run), user, s, e)
  {
    var i := SeekIndex(run, LookupKey(user, s));
    forall e | Visible(Contents(run), user, s, e)
      ensures i < |run| && run[i].key.user == user && e.key.seqno <= run[i].key.seqno
    {
      var j :| 0 <= j < |run| && run[j] == e;
      assert !Before(run[j].key, LookupKey(user, s));
      assert i <= j;
    }
  }

  /** A hit in a run that is newer than everything not yet searched is the answer. */
  lemma FirstHitWins(store: set<Entry>, done: set<Entry>, run: set<Entry>, user: UserKey, s: SequenceNumber, e: Entry)
    requires Distinct(store) && run <= store
    requires forall f :: !Visible(done, user, s, f)
    requires Newest(run, user, s, e)
    requires forall f :: f in store && f !in done && f !in run && f.key.user == user ==> f.key.seqno < e.key.seqno
    ensures Read(store, user, s) == Meaning(e)
  {
    forall f | Visible(store, user, s, f) ensures f.key.seqno <= e.key.seqno {
      assert f in done ==> Visible(done, user, s, f);
      assert f in run ==> Visible(run, user, s, f);
    }
    assert Newest(store, user, s, e);
    ReadNewest(store, user, s, e);
  }
}
