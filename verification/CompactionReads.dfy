/** When a compaction leaves every live read unchanged. */
module CompactionReads {
  import opened InternalKeys
  import opened FlatStore
  import opened Wrappers
  import opened Levels
  import opened LayeredGet
  import opened InputSelection
  import opened CompactionWork

  /** The store after `inputs` are merged and their dropped entries removed. */
  ghost function After(
    store: set<Entry>, v: Version, level: nat, inputs: set<Entry>, snapshot: SequenceNumber): (r: set<Entry>) {
    store - DroppedBy(v, level, inputs, snapshot)
  }

  ghost predicate SameReads(before: set<Entry>, after: set<Entry>, snapshot: SequenceNumber) {
    forall user, s: SequenceNumber :: snapshot <= s ==> Read(after, user, s) == Read(before, user, s)
  }

  /** `t` is the tombstone that decides its key at the oldest live snapshot, the merge is
      about to drop it, and the newest entry of that key outside the inputs is the value `g`. */
  ghost predicate Resurrects(
    store: set<Entry>, v: Version, level: nat, inputs: set<Entry>, snapshot: SequenceNumber, oldest: SequenceNumber,
    t: Entry, g: Entry) {
    && t in inputs && Obsolete(v, level, snapshot, t)
    && Newest(store, t.key.user, oldest, t)
    && Newest(store - inputs, t.key.user, oldest, g) && g.key.kind.Value?
  }

  ghost predicate Leaks(
    store: set<Entry>, v: Version, level: nat, inputs: set<Entry>, snapshot: SequenceNumber, oldest: SequenceNumber) {
    exists t, g :: Resurrects(store, v, level, inputs, snapshot, oldest, t, g)
  }

  /** A merge that drops entries by the rules for `snapshot` preserves all reads at the oldest live
      snapshot and later, which may have moved on since the merge began, if and only if it does
      not drop a tombstone that still covers an older value outside its inputs. */
  lemma CompactionPreservesReadsIff(
    store: set<Entry>, v: Version, level: nat, inputs: set<Entry>, snapshot: SequenceNumber, oldest: SequenceNumber)
    requires Distinct(store) && inputs <= store && snapshot <= oldest
    ensures SameReads(store, After(store, v, level, inputs, snapshot), oldest)
            <==> !Leaks(store, v, level, inputs, snapshot, oldest)
  {
    var after := After(store, v, level, inputs, snapshot);
    if Leaks(store, v, level, inputs, snapshot, oldest) {
      var t, g :| Resurrects(store, v, level, inputs, snapshot, oldest, t, g);
      LeakChangesRead(store, v, level, inputs, snapshot, oldest, t, g);
      assert Read(after, t.key.user, oldest) != Read(store, t.key.user, oldest);
    } else {
      forall user, s: SequenceNumber | oldest <= s ensures Read(after, user, s) == Read(store, user, s) {
        ReadSurvives(store, v, level, inputs, snapshot, oldest, user, s);
      }
    }
  }

  lemma LeakChangesRead(
    store: set<Entry>, v: Version, level: nat, inputs: set<Entry>, snapshot: SequenceNumber, oldest: SequenceNumber,
    t: Entry, g: Entry)
    requires Distinct(store) && inputs <= store && snapshot <= oldest
    requires Resurrects(store, v, level, inputs, snapshot, oldest, t, g)
    ensures Read(store, t.key.user, oldest) == None
    ensures Read(After(store, v, level, inputs, snapshot), t.key.user, oldest) == Some(g.value)
  {
    var after := After(store, v, level, inputs, snapshot);
    ReadNewest(store, t.key.user, oldest, t);
    forall f | Visible(after, t.key.user, oldest, f) ensures f.key.seqno <= g.key.seqno {
      OnlyOutsidersRemain(store, v, level, inputs, snapshot, oldest, t, f);
    }
    assert Visible(store, t.key.user, oldest, g);
    assert Newest(after, t.key.user, oldest, g);
    ReadNewest(after, t.key.user, oldest, g);
  }

  lemma InputOfKeyIsDropped(
    store: set<Entry>, v: Version, level: nat, inputs: set<Entry>, snapshot: SequenceNumber, oldest: SequenceNumber,
    t: Entry, f: Entry)
    requires Distinct(store) && inputs <= store && snapshot <= oldest
    requires t in inputs && Obsolete(v, level, snapshot, t)
    requires Newest(store, t.key.user, oldest, t)
    requires Visible(store, t.key.user, oldest, f)
    ensures f in inputs ==> f in DroppedBy(v, level, inputs, snapshot)
  {
    assert f == t || f.key.seqno < t.key.seqno;
    assert f != t ==> Hidden(inputs, snapshot, f);
  }

  /** Once the deciding tombstone is dropped, what is left of its key lies outside the inputs. */
  lemma OnlyOutsidersRemain(
    store: set<Entry>, v: Version, level: nat, inputs: set<Entry>, snapshot: SequenceNumber, oldest: SequenceNumber,
    t: Entry, f: Entry)
    requires Distinct(store) && inputs <= store && snapshot <= oldest
    requires t in inputs && Obsolete(v, level, snapshot, t)
    requires Newest(store, t.key.user, oldest, t)
    requires Visible(After(store, v, level, inputs, snapshot), t.key.user, oldest, f)
    ensures Visible(store - inputs, t.key.user, oldest, f)
  {
    InputOfKeyIsDropped(store, v, level, inputs, snapshot, oldest, t, f);
  }

  lemma ReadSurvives(
    store: set<Entry>, v: Version, level: nat, inputs: set<Entry>, snapshot: SequenceNumber, oldest: SequenceNumber,
    user: UserKey, s: SequenceNumber)
    requires Distinct(store) && inputs <= store && snapshot <= oldest <= s
    requires !Leaks(store, v, level, inputs, snapshot, oldest)
    ensures Read(After(store, v, level, inputs, snapshot), user, s) == Read(store, user, s)
  {
    var after := After(store, v, level, inputs, snapshot);
    if exists n :: Newest(store, user, s, n) {
      var n :| Newest(store, user, s, n);
      ReadNewest(store, user, s, n);
      if n in after {
        assert forall f :: Visible(after, user, s, f) ==> Visible(store, user, s, f);
        assert Newest(after, user, s, n);
        ReadNewest(after, user, s, n);
      } else {
        assert Obsolete(v, level, snapshot, n) by {
          assert forall f :: f in inputs && f.key.user == user && f.key.seqno <= snapshot ==>
            Visible(store, user, s, f);
        }
        DroppedTombstoneReadsNone(store, v, level, inputs, snapshot, oldest, n, s);
      }
    } else {
      forall f ensures !Visible(after, user, s, f) {
        if Visible(store, user, s, f) {
          NewestExists(store, user, s, f);
        }
      }
    }
  }

  lemma DroppedTombstoneReadsNone(
    store: set<Entry>, v: Version, level: nat, inputs: set<Entry>, snapshot: SequenceNumber, oldest: SequenceNumber,
    n: Entry, s: SequenceNumber)
    requires Distinct(store) && inputs <= store && snapshot <= oldest <= s
    requires !Leaks(store, v, level, inputs, snapshot, oldest)
    requires n in inputs && Newest(store, n.key.user, s, n) && Obsolete(v, level, snapshot, n)
    ensures Read(After(store, v, level, inputs, snapshot), n.key.user, s) == None
  {
    var user := n.key.user;
    var after := After(store, v, level, inputs, snapshot);
    forall f | Visible(store, user, s, f) ensures f.key.seqno <= n.key.seqno && Visible(store, user, oldest, f) {
    }
    assert Newest(store, user, oldest, n) by {
      assert forall f :: Visible(store, user, oldest, f) ==> Visible(store, user, s, f);
    }
    forall f | Visible(after, user, s, f) ensures Visible(store - inputs, user, oldest, f) {
      assert Visible(store, user, s, f);
      OnlyOutsidersRemain(store, v, level, inputs, snapshot, oldest, n, f);
    }
    if exists f :: Visible(after, user, s, f) {
      var f :| Visible(after, user, s, f);
      NewestExists(store - inputs, user, oldest, f);
      var g :| Newest(store - inputs, user, oldest, g);
      assert !Resurrects(store, v, level, inputs, snapshot, oldest, n, g);
      assert Newest(after, user, s, g);
      ReadNewest(after, user, s, g);
    } else {
      ReadNothing(after, user, s);
    }
  }
}
