/** The merges of the leveled store drop only what crash recovery can do without. */
module MergeRules {
  import opened InternalKeys
  import opened FlatStore
  import opened Levels
  import opened LayeredGet
  import opened InputSelection
  import opened CompactionWork
  import opened Layering
  import opened BoundaryRule
  import Store = StoreSteps
  import Crash = CrashSafety
  import CrashReads

  /** The numbered tables of a merge hold what the files of the levels hold. */
  ghost predicate SameTables(s: Store.State, step: Store.Step, d: Crash.Disk, c: Crash.Compaction)
    requires step.Compact? && c.Merging?
  {
    var inputs := Store.InputContents(step.in0, step.in1);
    && (forall e :: Crash.InTables(d, c.inputs, e) <==> e in inputs)
    && (forall e :: Crash.InTables(d, c.outputs, e) <==> e in LevelContents(step.outputs))
    && (forall e :: Crash.InTables(d, c.version - c.inputs + c.outputs, e) ==>
          e in VersionContents(s.version) - inputs || e in LevelContents(step.outputs))
  }

  /** Outside the inputs nothing is older than a dropped tombstone. */
  lemma NoOlderOutsider(v: Version, level: nat, in0: seq<File>, in1: seq<File>, t: Entry, g: Entry)
    requires LayeredVersion(v) && GoodInputs(v, level, in0, in1) && EndsOnOwnKey(v, level, in1)
    requires t in Store.InputContents(in0, in1) && IsBase(v, level, t.key.user)
    requires g in VersionContents(v) && g !in Store.InputContents(in0, in1)
    ensures !CrashReads.NewerVersion(t, g)
  {
    if CrashReads.NewerVersion(t, g) {
      var f, k := OlderOutsiderIsBoundary(v, level, in0, in1, t, g);
    }
  }

  /** A dropped entry is hidden by a newer input, or it is a tombstone with nothing older left. */
  lemma DropIsAllowed(v: Version, level: nat, in0: seq<File>, in1: seq<File>, snapshot: SequenceNumber, e: Entry)
    requires LayeredVersion(v) && GoodInputs(v, level, in0, in1) && EndsOnOwnKey(v, level, in1)
    requires e in DroppedBy(v, level, Store.InputContents(in0, in1), snapshot)
    ensures var inputs := Store.InputContents(in0, in1);
      || (exists f :: f in inputs && CrashReads.NewerVersion(f, e))
      || (e.key.kind.Deletion?
          && forall g :: g in VersionContents(v) - inputs || g in inputs - DroppedBy(v, level, inputs, snapshot) ==>
               !CrashReads.NewerVersion(e, g))
  {
    var inputs := Store.InputContents(in0, in1);
    if f :| f in inputs && f.key.user == e.key.user && e.key.seqno < f.key.seqno <= snapshot {
      assert CrashReads.NewerVersion(f, e);
    } else {
      forall g | g in VersionContents(v) - inputs || g in inputs - DroppedBy(v, level, inputs, snapshot)
        ensures !CrashReads.NewerVersion(e, g)
      {
        if g in inputs {
          assert CrashReads.NewerVersion(e, g) ==> Hidden(inputs, snapshot, g);
        } else {
          NoOlderOutsider(v, level, in0, in1, e, g);
        }
      }
    }
  }

  /** Where the next level's inputs end on a user key of their own, the store's compaction is a sound merge. */
  lemma CompactionIsSoundMerge(s: Store.State, step: Store.Step, s': Store.State, d: Crash.Disk, c: Crash.Compaction)
    requires Store.Structured(s) && step.Compact? && Store.Next(s, step, s')
    requires EndsOnOwnKey(s.version, step.into, step.in1)
    requires c.Merging? && SameTables(s, step, d, c)
    ensures CrashReads.MergeOk(d, c)
  {
    var v, level, in0, in1, snapshot := s.version, step.into, step.in0, step.in1, step.snapshot;
    var inputs := Store.InputContents(in0, in1);
    Store.MergeOutputs(v, s'.nextFile, snapshot, level, in0, in1, step.input, step.outputs);
    forall e | e in Crash.LeftOut(d, c.inputs, c.outputs)
      ensures CrashReads.HiddenByInput(d, c.inputs, e) || CrashReads.ObsoleteTombstone(d, c, e)
    {
      assert Crash.InTables(d, c.inputs, e);
      DropIsAllowed(v, level, in0, in1, snapshot, e);
      if f :| f in inputs && CrashReads.NewerVersion(f, e) {
        assert Crash.InTables(d, c.inputs, f);
      }
    }
  }
}
