/** The guard that input selection applies to its own level and omits at the next one. */
module BoundaryRule {
  import opened InternalKeys
  import opened FlatStore
  import opened Wrappers
  import opened Levels
  import opened LayeredGet
  import opened InputSelection
  import opened CompactionWork
  import opened CompactionReads
  import opened Layering
  import opened StoreSteps
  import opened StoreRuns

  /** What FindSmallestBoundaryFile returns for the largest key `k` of the next level's inputs. */
  ghost predicate LeftBehind(v: Version, level: nat, in1: seq<File>, k: InternalKey, f: File) {
    && level + 1 < NUM_LEVELS && IsLargestKey(in1, k)
    && f in v[level + 1] && IsBoundary(f, k)
    && forall g :: g in v[level + 1] && IsBoundary(g, k) ==> AtMost(f.smallest, g.smallest)
  }

  /** The merge drops tombstone `t`, although it is the newest version of its key at the oldest snapshot. */
  ghost predicate DropsDecider(s: State, step: Step, t: Entry)
    requires step.Compact?
  {
    && t in InputContents(step.in0, step.in1) && Obsolete(s.version, step.into, step.snapshot, t)
    && Newest(Everything(s), t.key.user, Oldest(s), t)
  }

  /** A boundary file that starts with a value is left behind while its key's deciding tombstone goes. */
  ghost predicate LeavesValue(s: State, step: Step, k: InternalKey, f: File, t: Entry)
    requires step.Compact?
  {
    && LeftBehind(s.version, step.into, step.in1, k, f)
    && f.smallest.kind.Value? && t.key.user == k.user && DropsDecider(s, step, t)
  }

  /** An entry older than an input of the same base-level key can only sit beside the next level's inputs. */
  lemma OlderOutsider(v: Version, level: nat, in0: seq<File>, in1: seq<File>, t: Entry, g: Entry, l: nat, f: File)
    requires LayeredVersion(v) && GoodInputs(v, level, in0, in1)
    requires t in InputContents(in0, in1) && IsBase(v, level, t.key.user)
    requires l < NUM_LEVELS && f in v[l] && g in f.entries
    requires g !in InputContents(in0, in1) && g.key.user == t.key.user && g.key.seqno < t.key.seqno
    ensures l == level + 1 && f !in in1
  {
    NextLevelInputsInLevel(v, level, in0, in1);
    InLevel(v, l, f, g);
    if l >= level + 2 {
      DeepKeyHasNoBase(v, level, l, f, g);
    } else if l < level {
      ShallowIsNewer(v, level, l, t, g);
    } else if l == level {
      OlderInInputLevel(v, level, in0, t, g, f);
    }
  }

  lemma DeepKeyHasNoBase(v: Version, level: nat, l: nat, f: File, g: Entry)
    requires level + 2 <= l < NUM_LEVELS && f in v[l] && WellFormed(f) && g in f.entries
    ensures !IsBase(v, level, g.key.user)
  {
    EntryInRange(f, g);
    assert InSomeRange(v[l], g.key.user);
  }

  lemma ShallowIsNewer(v: Version, level: nat, l: nat, t: Entry, g: Entry)
    requires LayeredVersion(v) && l < level && level + 1 < NUM_LEVELS && g in LevelContents(v[l])
    requires g.key.user == t.key.user
    requires t in LevelContents(v[level]) || t in LevelContents(v[level + 1])
    ensures g.key.seqno > t.key.seqno
  {
    assert Newer(LevelContents(v[l]), LevelContents(v[level]))
      && Newer(LevelContents(v[l]), LevelContents(v[level + 1]));
  }

  lemma OlderInInputLevel(v: Version, level: nat, in0: seq<File>, t: Entry, g: Entry, f: File)
    requires LayeredVersion(v) && level + 1 < NUM_LEVELS && ClosedInputs(v[level], level, in0)
    requires f in v[level] && g in f.entries && g !in LevelContents(in0) && g.key.user == t.key.user
    requires t in LevelContents(in0) || t in LevelContents(v[level + 1])
    ensures g.key.seqno > t.key.seqno
  {
    assert f !in in0;
    if t in LevelContents(in0) {
      RemainingIsNewer(v, level, in0, f, g, t);
    } else {
      InLevel(v, level, f, g);
      assert Newer(LevelContents(v[level]), LevelContents(v[level + 1]));
    }
  }

  lemma InLevel(v: Version, l: nat, f: File, e: Entry)
    requires l < NUM_LEVELS && f in v[l] && e in f.entries
    ensures e in LevelContents(v[l])
  {
  }

  lemma OlderIsInFiles(mem: seq<Entry>, imm: Option<seq<Entry>>, v: Version, t: Entry, g: Entry)
    requires Newer(Contents(mem) + ImmContents(imm), VersionContents(v))
    requires t in VersionContents(v) && g in AllContents(mem, imm, v) && g.key.user == t.key.user
    requires g.key.seqno < t.key.seqno
    ensures g in VersionContents(v)
  {
  }

  /** Outside the inputs, older versions of an input key lie only in boundary files of the next level. */
  lemma OlderOutsiderIsBoundary(v: Version, level: nat, in0: seq<File>, in1: seq<File>, t: Entry, g: Entry)
    returns (f: File, k: InternalKey)
    requires LayeredVersion(v) && GoodInputs(v, level, in0, in1)
    requires t in InputContents(in0, in1) && IsBase(v, level, t.key.user)
    requires g in VersionContents(v) && g !in InputContents(in0, in1)
    requires g.key.user == t.key.user && g.key.seqno < t.key.seqno
    ensures f in v[level + 1] && g in f.entries && IsLargestKey(in1, k) && IsBoundary(f, k) && k.user == t.key.user
  {
    var l;
    l, f := Locate(v, g);
    OlderOutsider(v, level, in0, in1, t, g, l, f);
    NextLevelInputsInLevel(v, level, in0, in1);
    var h :| (h in in0 || h in in1) && t in h.entries;
    assert WellFormed(h) && WellFormed(f);
    EntryInRange(h, t);
    EntryInRange(f, g);
    FollowsInputs(v, level, in0, in1, f, h, t, g);
    k := LargestKey(in1);
  }

  lemma LargestKey(files: seq<File>) returns (k: InternalKey)
    requires files != []
    ensures IsLargestKey(files, k)
  {
    if |files| == 1 {
      k := files[0].largest;
      assert files[0] in files;
    } else {
      var front, last := files[..|files| - 1], files[|files| - 1];
      var m := LargestKey(front);
      assert files == front + [last];
      k := if Before(m, last.largest) then last.largest else m;
    }
  }

  /** The file holding the older version follows all inputs, and the newer one lies in the next level. */
  lemma FollowsInputs(v: Version, level: nat, in0: seq<File>, in1: seq<File>, f: File, h: File, t: Entry, g: Entry)
    requires LayeredVersion(v) && GoodInputs(v, level, in0, in1)
    requires f in v[level + 1] && f !in in1 && (h in in0 || h in in1)
    requires AtMost(h.smallest, t.key) && AtMost(t.key, h.largest) && AtMost(f.smallest, g.key)
    requires AtMost(g.key, f.largest)
    requires g.key.user == t.key.user && g.key.seqno < t.key.seqno
    ensures h in in1
    ensures forall k :: IsLargestKey(in1, k) ==> IsBoundary(f, k) && k.user == t.key.user
  {
    MissesInputs(v, level, in0, in1, f, h, t);
    OutsiderIsClear(v, level, in0, in1, f);
    assert Before(t.key, g.key);
    assert forall x :: x in in0 || x in in1 ==> Before(x.largest, f.smallest);
    forall k | IsLargestKey(in1, k) ensures IsBoundary(f, k) && k.user == t.key.user {
      assert AtMost(h.largest, k);
    }
  }

  /** An unselected file that shares a user key with an input lies beyond the files of the input level. */
  lemma MissesInputs(v: Version, level: nat, in0: seq<File>, in1: seq<File>, f: File, h: File, t: Entry)
    requires GoodInputs(v, level, in0, in1) && f in v[level + 1] && f !in in1 && (h in in0 || h in in1)
    requires AtMost(h.smallest, t.key) && AtMost(t.key, h.largest)
    requires f.smallest.user <= t.key.user <= f.largest.user
    ensures h !in in0 && Beyond(f, in0)
  {
  }

  /** A boundary file's first entry `g`, outside the inputs. */
  lemma FirstEntry(v: Version, level: nat, in0: seq<File>, in1: seq<File>, k: InternalKey, f: File) returns (g: Entry)
    requires LayeredVersion(v) && GoodInputs(v, level, in0, in1) && LeftBehind(v, level, in1, k, f)
    ensures g.key == f.smallest && g.key.user == k.user
    ensures g in LevelContents(v[level + 1]) && g in VersionContents(v) && g !in InputContents(in0, in1)
  {
    assert WellFormed(f);
    g := f.entries[0];
    assert g in f.entries;
    FileInVersion(v, level + 1, f, g);
    if g in InputContents(in0, in1) {
      NextLevelInputsInLevel(v, level, in0, in1);
      var h :| (h in in0 || h in in1) && g in h.entries;
      EntryHasOneFile(v, level + 1, f, if h in in1 then level + 1 else level, h, g);
    }
  }

  /** The newer version of a left-behind key is an input, so it precedes the boundary file. */
  lemma InputIsNewer(
    v: Version, level: nat, in0: seq<File>, in1: seq<File>, k: InternalKey, f: File, t: Entry, g: Entry)
    requires LayeredVersion(v) && GoodInputs(v, level, in0, in1) && LeftBehind(v, level, in1, k, f)
    requires t in InputContents(in0, in1) && t.key.user == k.user
    requires g.key == f.smallest && g in LevelContents(v[level + 1])
    ensures g.key.seqno < t.key.seqno
  {
    NextLevelInputsInLevel(v, level, in0, in1);
    if t in LevelContents(in0) {
      assert Newer(LevelContents(v[level]), LevelContents(v[level + 1]));
    } else {
      var h :| h in in1 && t in h.entries;
      InSameLevel(v, level + 1, h, t, k, g);
    }
  }

  lemma InSameLevel(v: Version, l: nat, h: File, t: Entry, k: InternalKey, g: Entry)
    requires LayeredVersion(v) && l < NUM_LEVELS && h in v[l] && t in h.entries && g in LevelContents(v[l])
    requires AtMost(h.largest, k) && Before(k, g.key) && t.key.user == g.key.user
    ensures g.key.seqno < t.key.seqno
  {
    assert WellFormed(h);
    EntryInRange(h, t);
    FileInVersion(v, l, h, t);
    assert g in VersionContents(v);
    assert Before(t.key, g.key);
  }

  lemma SmallestLeftBehind(v: Version, level: nat, in1: seq<File>, k: InternalKey, f: File) returns (r: File)
    requires level + 1 < NUM_LEVELS && LayeredVersion(v) && f in v[level + 1] && IsBoundary(f, k)
    requires IsLargestKey(in1, k)
    ensures LeftBehind(v, level, in1, k, r)
  {
    var files := v[level + 1];
    var i: nat := 0;
    while !IsBoundary(files[i], k)
      invariant i < |files| && exists j :: i <= j < |files| && IsBoundary(files[j], k)
      invariant forall j :: 0 <= j < i ==> !IsBoundary(files[j], k)
      decreases |files| - i
    {
      i := i + 1;
    }
    r := files[i];
    forall g | g in files && IsBoundary(g, k) ensures AtMost(r.smallest, g.smallest) {
      var j :| 0 <= j < |files| && files[j] == g;
    }
  }

  /** No older outsider of the key is newer than the first entry of the smallest boundary file. */
  lemma BoundaryCovers(
    v: Version, level: nat, in0: seq<File>, in1: seq<File>, k: InternalKey, f: File, t: Entry, g: Entry, x: Entry)
    requires LayeredVersion(v) && GoodInputs(v, level, in0, in1) && LeftBehind(v, level, in1, k, f)
    requires g.key == f.smallest
    requires t in InputContents(in0, in1) && IsBase(v, level, t.key.user) && t.key.user == k.user
    requires x in VersionContents(v) && x !in InputContents(in0, in1)
    requires x.key.user == t.key.user && x.key.seqno < t.key.seqno
    ensures x.key.seqno <= g.key.seqno
  {
    var h, m := OlderOutsiderIsBoundary(v, level, in0, in1, t, x);
    assert WellFormed(h);
    EntryInRange(h, x);
    SameLargest(in1, k, m);
  }

  lemma SameLargest(files: seq<File>, k: InternalKey, m: InternalKey)
    requires IsLargestKey(files, k) && IsLargestKey(files, m)
    ensures k == m
  {
  }

  /** What is visible under the deciding tombstone and lies outside the inputs is an older table entry. */
  lemma OlderThanDecider(s: State, step: Step, t: Entry)
    requires Structured(s) && step.Compact? && GoodInputs(s.version, step.into, step.in0, step.in1)
    requires DropsDecider(s, step, t)
    ensures UnderTombstone(Everything(s), s.version, InputContents(step.in0, step.in1), Oldest(s), t)
  {
    var store, inputs := Everything(s), InputContents(step.in0, step.in1);
    InputsInVersion(s.version, step.into, step.in0, step.in1);
    forall x | Visible(store - inputs, t.key.user, Oldest(s), x)
      ensures x in VersionContents(s.version) && x.key.seqno < t.key.seqno
    {
      assert Visible(store, t.key.user, Oldest(s), x);
      OlderIsInFiles(s.mem, s.imm, s.version, t, x);
    }
  }

  ghost predicate UnderTombstone(
    store: set<Entry>, v: Version, inputs: set<Entry>, snapshot: SequenceNumber, t: Entry) {
    && VersionContents(v) <= store && Distinct(store) && t.key.seqno <= snapshot
    && forall x ::
      Visible(store - inputs, t.key.user, snapshot, x) ==> x in VersionContents(v) && x.key.seqno < t.key.seqno
  }

  /** The first entry of the smallest boundary file is the newest outsider of its key. */
  lemma FirstIsNewestOutsider(
    store: set<Entry>, v: Version, level: nat, in0: seq<File>, in1: seq<File>, snapshot: SequenceNumber,
    k: InternalKey, f: File, t: Entry)
    returns (g: Entry)
    requires LayeredVersion(v) && GoodInputs(v, level, in0, in1) && LeftBehind(v, level, in1, k, f)
    requires t in InputContents(in0, in1) && IsBase(v, level, t.key.user) && t.key.user == k.user
    requires UnderTombstone(store, v, InputContents(in0, in1), snapshot, t)
    ensures g.key == f.smallest && Newest(store - InputContents(in0, in1), t.key.user, snapshot, g)
  {
    var inputs := InputContents(in0, in1);
    g := FirstEntry(v, level, in0, in1, k, f);
    InputIsNewer(v, level, in0, in1, k, f, t, g);
    forall x | Visible(store - inputs, t.key.user, snapshot, x) ensures x.key.seqno <= g.key.seqno {
      BoundaryCovers(v, level, in0, in1, k, f, t, g, x);
    }
  }

  /** A value left behind comes back. */
  lemma LeavingValueLeaks(s: State, step: Step, s': State, k: InternalKey, f: File, t: Entry) returns (g: Entry)
    requires Structured(s) && step.Compact? && Next(s, step, s') && LeavesValue(s, step, k, f, t)
    ensures Resurrects(
      Everything(s), s.version, step.into, InputContents(step.in0, step.in1), step.snapshot, Oldest(s), t, g)
  {
    OlderThanDecider(s, step, t);
    g := FirstIsNewestOutsider(Everything(s), s.version, step.into, step.in0, step.in1, Oldest(s), k, f, t);
  }

  /** The newest outsider below a dropped tombstone is the first entry of the smallest boundary file. */
  lemma OutsiderIsFirst(
    store: set<Entry>, v: Version, level: nat, in0: seq<File>, in1: seq<File>, snapshot: SequenceNumber, t: Entry,
      g: Entry)
    returns (k: InternalKey, f: File)
    requires LayeredVersion(v) && GoodInputs(v, level, in0, in1)
    requires t in InputContents(in0, in1) && IsBase(v, level, t.key.user)
    requires UnderTombstone(store, v, InputContents(in0, in1), snapshot, t)
    requires Newest(store - InputContents(in0, in1), t.key.user, snapshot, g)
    ensures LeftBehind(v, level, in1, k, f) && f.smallest == g.key && t.key.user == k.user
  {
    var h;
    h, k := OlderOutsiderIsBoundary(v, level, in0, in1, t, g);
    f := SmallestLeftBehind(v, level, in1, k, h);
    var first := FirstIsNewestOutsider(store, v, level, in0, in1, snapshot, k, f, t);
  }

  /** A leak leaves a value behind. */
  lemma LeakLeavesValue(s: State, step: Step, s': State, t: Entry, g: Entry) returns (k: InternalKey, f: File)
    requires Structured(s) && step.Compact? && Next(s, step, s')
    requires Resurrects(
      Everything(s), s.version, step.into, InputContents(step.in0, step.in1), step.snapshot, Oldest(s), t, g)
    ensures LeavesValue(s, step, k, f, t)
  {
    OlderThanDecider(s, step, t);
    k, f := OutsiderIsFirst(Everything(s), s.version, step.into, step.in0, step.in1, Oldest(s), t, g);
  }

  /**
   * A compaction preserves every live read unless all of this holds: a file of the next
   * level that was not selected starts with the user key on which the selected ones end,
   * it starts with a value, and the merge drops the tombstone that decides that key.
   */
  lemma CompactionReadsIff(s: State, step: Step, s': State)
    requires Structured(s) && step.Compact? && Next(s, step, s')
    ensures SameReads(Everything(s), Everything(s'), Oldest(s)) <==> !exists k, f, t :: LeavesValue(s, step, k, f, t)
    ensures Leaky(s, step) <==> exists k, f, t :: LeavesValue(s, step, k, f, t)
  {
    CompactStepReadsIff(s, step, s');
    var inputs := InputContents(step.in0, step.in1);
    if Leaky(s, step) {
      var t, g :| Resurrects(Everything(s), s.version, step.into, inputs, step.snapshot, Oldest(s), t, g);
      var k, f := LeakLeavesValue(s, step, s', t, g);
    }
    if k, f, t :| LeavesValue(s, step, k, f, t) {
      var g := LeavingValueLeaks(s, step, s', k, f, t);
    }
  }

  /** The rule AddBoundaryInputs establishes at the input level. */
  ghost predicate EndsOnOwnKey(v: Version, level: nat, in1: seq<File>) {
    level + 1 < NUM_LEVELS && forall k, f :: IsLargestKey(in1, k) && f in v[level + 1] ==> !IsBoundary(f, k)
  }

  lemma NothingLeftBehind(s: State, step: Step)
    requires step.Compact? && EndsOnOwnKey(s.version, step.into, step.in1)
    ensures forall k, f, t :: !LeavesValue(s, step, k, f, t)
  {
    forall k, f, t ensures !LeavesValue(s, step, k, f, t) {
      assert IsLargestKey(step.in1, k) && f in s.version[step.into + 1] ==> !IsBoundary(f, k);
    }
  }

  /** Where the next level's inputs end on a user key of their own, no hypothesis on the data is needed. */
  lemma ClosedBoundaryPreservesReads(s: State, step: Step, s': State)
    requires Structured(s) && step.Compact? && Next(s, step, s')
    requires EndsOnOwnKey(s.version, step.into, step.in1)
    ensures SameReads(Everything(s), Everything(s'), Oldest(s)) && !Leaky(s, step)
  {
    NothingLeftBehind(s, step);
    CompactionReadsIff(s, step, s');
  }

  /** A run in which no compaction leaves a value behind reads its whole history at every live snapshot. */
  lemma GuardedRunsReadHistory(states: seq<State>, steps: seq<Step>, i: nat)
    requires IsRun(states, steps) && i < |states|
    requires forall j :: 0 <= j < i && steps[j].Compact? ==>
      !exists k, f, t :: LeavesValue(states[j], steps[j], k, f, t)
    ensures forall user, t: SequenceNumber :: Oldest(states[i]) <= t ==>
      Read(Everything(states[i]), user, t) == Read(states[i].history, user, t)
  {
    forall j | 0 <= j < i ensures !Leaky(states[j], steps[j]) {
      RunsAreStructured(states, steps, j);
      if steps[j].Compact? {
        CompactionReadsIff(states[j], steps[j], states[j + 1]);
      }
    }
    RunsReadHistory(states, steps, i);
  }

  /** The first compaction of a run that leaves a value behind makes the store misread its history. */
  lemma FirstLeakMisreads(states: seq<State>, steps: seq<Step>, i: nat, k: InternalKey, f: File, t: Entry)
    requires IsRun(states, steps) && i < |steps| && steps[i].Compact? && LeavesValue(states[i], steps[i], k, f, t)
    requires forall j :: 0 <= j < i ==> !Leaky(states[j], steps[j])
    ensures var s := states[i + 1];
      Read(s.history, k.user, Oldest(s)) == None && Read(Everything(s), k.user, Oldest(s)) != None
  {
    RunsAreStructured(states, steps, i);
    RunsReadHistory(states, steps, i);
    var g := LeavingValueLeaks(states[i], steps[i], states[i + 1], k, f, t);
    LeakyStepChangesRead(states[i], steps[i], states[i + 1], t, g);
  }
}
