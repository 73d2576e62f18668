/** Whole runs of the store: what readers at live snapshots see. */
module StoreRuns {
  import opened InternalKeys
  import opened FlatStore
  import opened Wrappers
  import opened Levels
  import opened LayeredGet
  import opened InputSelection
  import opened CompactionWork
  import opened CompactionReads
  import opened VersionBuilder
  import opened Layering
  import opened StoreSteps

  /** At every snapshot a reader can hold, the stored entries read like the full history. */
  ghost predicate Faithful(s: State) {
    && Distinct(s.history) && Everything(s) <= s.history
    && (forall e :: e in s.history ==> e.key.seqno <= s.lastSequence)
    && SameReads(s.history, Everything(s), Oldest(s))
  }

  /** The compaction would drop a tombstone that still covers an older value. */
  ghost predicate Leaky(s: State, step: Step) {
    step.Compact?
      && Leaks(Everything(s), s.version, step.into, InputContents(step.in0, step.in1), step.snapshot, Oldest(s))
  }

  lemma NewEntriesDecide(
    store: set<Entry>, full: set<Entry>, batch: set<Entry>, last: SequenceNumber, user: UserKey, t: SequenceNumber)
    requires store <= full && Distinct(full + batch)
    requires forall e :: e in full ==> e.key.seqno <= last
    requires forall e :: e in batch ==> e.key.seqno > last
    requires Read(store, user, t) == Read(full, user, t)
    ensures Read(store + batch, user, t) == Read(full + batch, user, t)
  {
    if e :| Visible(batch, user, t, e) {
      NewestExists(batch, user, t, e);
      var n :| Newest(batch, user, t, n);
      assert Newest(store + batch, user, t, n) && Newest(full + batch, user, t, n);
      ReadNewest(store + batch, user, t, n);
      ReadNewest(full + batch, user, t, n);
    } else {
      UnseenEntries(store, batch, user, t);
      UnseenEntries(full, batch, user, t);
    }
  }

  /** Entries that are not visible change no read. */
  lemma UnseenEntries(store: set<Entry>, batch: set<Entry>, user: UserKey, t: SequenceNumber)
    requires Distinct(store + batch) && forall e :: !Visible(batch, user, t, e)
    ensures Read(store + batch, user, t) == Read(store, user, t)
  {
    assert forall e :: Visible(store + batch, user, t, e) ==> Visible(store, user, t, e) by {
      assert forall e :: e in batch && e.key.user == user && e.key.seqno <= t ==> Visible(batch, user, t, e);
    }
    assert forall e :: Visible(store, user, t, e) ==> Visible(store + batch, user, t, e);
    if n :| Newest(store, user, t, n) {
      assert Newest(store + batch, user, t, n);
      ReadNewest(store + batch, user, t, n);
      ReadNewest(store, user, t, n);
    } else {
      forall e ensures !Visible(store, user, t, e) {
        if Visible(store, user, t, e) {
          NewestExists(store, user, t, e);
        }
      }
    }
  }

  /** What a step does to the history and the sequence counter. */
  ghost predicate Records(s: State, step: Step, s': State) {
    && Oldest(s) <= Oldest(s')
    && if step.Write? then
         && Sequenced(step.batch, s.lastSequence)
         && s'.history == s.history + Contents(step.batch) && s'.lastSequence == s.lastSequence + |step.batch|
       else s'.history == s.history && s'.lastSequence == s.lastSequence
  }

  lemma StepRecords(s: State, step: Step, s': State)
    requires SnapshotsOk(s) && Next(s, step, s')
    ensures Records(s, step, s')
  {
    SnapshotStep(s, step, s');
  }

  lemma WriteKeepsReads(s: State, step: Step, s': State)
    requires Faithful(s) && step.Write? && Effect(s, step, s') && Records(s, step, s')
    ensures Faithful(s')
  {
    SequencedDistinct(s.history, s.lastSequence, step.batch);
    forall user, t: SequenceNumber | Oldest(s') <= t
      ensures Read(Everything(s'), user, t) == Read(s'.history, user, t)
    {
      NewEntriesDecide(Everything(s), s.history, Contents(step.batch), s.lastSequence, user, t);
    }
  }

  lemma CompactKeepsReads(s: State, step: Step, s': State)
    requires Faithful(s) && step.Compact? && Effect(s, step, s') && Records(s, step, s') && !Leaky(s, step)
    ensures Faithful(s')
  {
    DistinctSubset(Everything(s), s.history);
    CompactionPreservesReadsIff(
      Everything(s), s.version, step.into, InputContents(step.in0, step.in1), step.snapshot, Oldest(s));
    SameReadsCompose(s.history, Everything(s), Everything(s'), Oldest(s), Oldest(s'));
  }

  lemma SameReadsCompose(a: set<Entry>, b: set<Entry>, c: set<Entry>, t: SequenceNumber, t': SequenceNumber)
    requires SameReads(a, b, t) && SameReads(b, c, t) && t <= t'
    ensures SameReads(a, c, t')
  {
  }

  lemma StepKeepsReads(s: State, step: Step, s': State)
    requires Structured(s) && Faithful(s) && Next(s, step, s') && !Leaky(s, step)
    ensures Faithful(s')
  {
    StepKeepsStructure(s, step, s');
    StepRecords(s, step, s');
    StepReads(s, step, s');
  }

  lemma StepReads(s: State, step: Step, s': State)
    requires Faithful(s) && Effect(s, step, s') && Records(s, step, s') && !Leaky(s, step)
    ensures Faithful(s')
  {
    if step.Write? {
      WriteKeepsReads(s, step, s');
    } else if step.Compact? {
      CompactKeepsReads(s, step, s');
    }
  }

  lemma DistinctSubset(a: set<Entry>, b: set<Entry>)
    requires a <= b && Distinct(b)
    ensures Distinct(a)
  {
  }

  /** One compaction step preserves every live read if and only if it is not leaky. */
  lemma CompactStepReadsIff(s: State, step: Step, s': State)
    requires Structured(s) && step.Compact? && Next(s, step, s')
    ensures SameReads(Everything(s), Everything(s'), Oldest(s)) <==> !Leaky(s, step)
  {
    StepKeepsStructure(s, step, s');
    CompactionPreservesReadsIff(
      Everything(s), s.version, step.into, InputContents(step.in0, step.in1), step.snapshot, Oldest(s));
  }

  /** A leaky step turns an absent key into the value its tombstone had deleted. */
  lemma LeakyStepChangesRead(s: State, step: Step, s': State, t: Entry, g: Entry)
    requires Structured(s) && step.Compact? && Next(s, step, s')
    requires Resurrects(
      Everything(s), s.version, step.into, InputContents(step.in0, step.in1), step.snapshot, Oldest(s), t, g)
    ensures Leaky(s, step)
    ensures Read(Everything(s), t.key.user, Oldest(s)) == None
    ensures Read(Everything(s'), t.key.user, Oldest(s)) == Some(g.value)
  {
    StepKeepsStructure(s, step, s');
    LeakChangesRead(
      Everything(s), s.version, step.into, InputContents(step.in0, step.in1), step.snapshot, Oldest(s), t, g);
  }

  ghost predicate IsRun(states: seq<State>, steps: seq<Step>) {
    && |states| == |steps| + 1 && Init(states[0])
    && forall i :: 0 <= i < |steps| ==> Next(states[i], steps[i], states[i + 1])
  }

  /** Layering holds in every reachable state. */
  lemma {:induction false} RunsAreStructured(states: seq<State>, steps: seq<Step>, i: nat)
    requires IsRun(states, steps) && i < |states|
    ensures Structured(states[i])
  {
    if i == 0 {
      InitIsStructured(states[0]);
    } else {
      RunsAreStructured(states, steps, i - 1);
      StepKeepsStructure(states[i - 1], steps[i - 1], states[i]);
    }
  }

  lemma InitIsStructured(s: State)
    requires Init(s)
    ensures Structured(s) && Faithful(s)
  {
    assert VersionContents(s.version) == {};
    assert Everything(s) == {};
  }

  /** In every reachable state before which no compaction leaked, every snapshot a
      reader can hold reads the newest entry ever written at or below it. */
  lemma {:induction false} RunsReadHistory(states: seq<State>, steps: seq<Step>, i: nat)
    requires IsRun(states, steps) && i < |states|
    requires forall j :: 0 <= j < i ==> !Leaky(states[j], steps[j])
    ensures Faithful(states[i])
    ensures forall user, t: SequenceNumber :: Oldest(states[i]) <= t ==>
      Read(Everything(states[i]), user, t) == Read(states[i].history, user, t)
  {
    if i == 0 {
      InitIsStructured(states[0]);
    } else {
      RunsAreStructured(states, steps, i - 1);
      RunsReadHistory(states, steps, i - 1);
      StepKeepsReads(states[i - 1], steps[i - 1], states[i]);
    }
  }

  /** Later steps add nothing to what a snapshot sees of the history. */
  lemma {:induction false} HistoryIsStable(
    states: seq<State>, steps: seq<Step>, i: nat, j: nat, user: UserKey, t: SequenceNumber)
    requires |states| == |steps| + 1 && i <= j < |states| && t <= states[i].lastSequence
    requires forall k :: i <= k < j ==> Faithful(states[k]) && Records(states[k], steps[k], states[k + 1])
    ensures Read(states[j].history, user, t) == Read(states[i].history, user, t)
    ensures t <= states[j].lastSequence
    decreases j - i
  {
    if i < j {
      HistoryIsStable(states, steps, i, j - 1, user, t);
      RecordingIsStable(states[j - 1], steps[j - 1], states[j], user, t);
    }
  }

  lemma RunRecords(states: seq<State>, steps: seq<Step>, i: nat)
    requires IsRun(states, steps) && i < |steps|
    requires forall k :: 0 <= k < i ==> !Leaky(states[k], steps[k])
    ensures Faithful(states[i]) && Records(states[i], steps[i], states[i + 1])
  {
    RunsReadHistory(states, steps, i);
    RunsAreStructured(states, steps, i);
    StepRecords(states[i], steps[i], states[i + 1]);
  }

  lemma RecordingIsStable(s: State, step: Step, s': State, user: UserKey, t: SequenceNumber)
    requires Faithful(s) && Records(s, step, s') && t <= s.lastSequence
    ensures Read(s'.history, user, t) == Read(s.history, user, t)
  {
    if step.Write? {
      SequencedDistinct(s.history, s.lastSequence, step.batch);
      UnseenEntries(s.history, Contents(step.batch), user, t);
    }
  }

  /** Repeatable reads: a snapshot that stays live reads the same in all later states. */
  lemma SnapshotsAreRepeatable(states: seq<State>, steps: seq<Step>, i: nat, j: nat, user: UserKey, t: SequenceNumber)
    requires IsRun(states, steps) && i <= j < |states|
    requires forall k :: 0 <= k < j ==> !Leaky(states[k], steps[k])
    requires Oldest(states[i]) <= t <= states[i].lastSequence && Oldest(states[j]) <= t
    ensures Read(Everything(states[j]), user, t) == Read(Everything(states[i]), user, t)
  {
    RunsReadHistory(states, steps, i);
    RunsReadHistory(states, steps, j);
    forall k | i <= k < j ensures Faithful(states[k]) && Records(states[k], steps[k], states[k + 1]) {
      RunRecords(states, steps, k);
    }
    HistoryIsStable(states, steps, i, j, user, t);
  }
}
