/** The store as a state machine: every step keeps the layering invariant. */
module StoreSteps {
  import opened InternalKeys
  import opened FlatStore
  import opened Wrappers
  import opened Levels
  import opened LayeredGet
  import opened InputSelection
  import opened CompactionWork
  import opened VersionBuilder
  import opened Layering

  /** `history` holds every entry ever written; nothing is ever removed from it. */
  datatype State = State(
    mem: seq<Entry>,
    imm: Option<seq<Entry>>,
    version: Version,
    nextFile: nat,
    lastSequence: SequenceNumber,
    snapshots: seq<SequenceNumber>,
    history: set<Entry>)

  datatype Step =
    | Write(batch: seq<Entry>)
    | SwitchMemTable
    | DropEmptyMemTable
    | FlushMemTable(level: nat, table: File)
    | TrivialMove(from: nat, moved: File)
    | Compact(into: nat, in0: seq<File>, in1: seq<File>, snapshot: SequenceNumber, input: seq<Entry>,
              outputs: seq<File>)
    | ReserveNumber
    | TakeSnapshot
    | ReleaseSnapshot(index: nat)

  ghost function Everything(s: State): (r: set<Entry>) {
    AllContents(s.mem, s.imm, s.version)
  }

  /** The oldest snapshot a reader can still hold. */
  function Oldest(s: State): (r: SequenceNumber) {
    if s.snapshots == [] then s.lastSequence else s.snapshots[0]
  }

  ghost predicate UniqueNumbers(v: Version) {
    && (forall l :: 0 <= l < NUM_LEVELS ==> SameMetadata(FileSet(v[l])))
    && (forall l, m :: 0 <= l < m < NUM_LEVELS ==> NumbersDiffer(v[l], v[m]))
  }

  ghost predicate NumbersDiffer(a: seq<File>, b: seq<File>) {
    forall f, g :: f in a && g in b ==> f.number != g.number
  }

  ghost predicate NumbersBelow(v: Version, n: nat) {
    forall l, f :: 0 <= l < NUM_LEVELS && f in v[l] ==> f.number < n
  }

  ghost predicate SnapshotsOk(s: State) {
    && (forall i, j :: 0 <= i < j < |s.snapshots| ==> s.snapshots[i] <= s.snapshots[j])
    && (forall i :: 0 <= i < |s.snapshots| ==> s.snapshots[i] <= s.lastSequence)
  }

  /** The structural invariant. */
  ghost predicate Structured(s: State) {
    && Layered(s.mem, s.imm, s.version)
    && (forall l :: 0 <= l < NUM_LEVELS ==> SortedFiles(s.version[l]))
    && UniqueNumbers(s.version) && NumbersBelow(s.version, s.nextFile)
    && (forall e :: e in Everything(s) ==> e.key.seqno <= s.lastSequence)
    && s.lastSequence < MAX_SEQUENCE
    && SnapshotsOk(s)
  }

  ghost predicate Init(s: State) {
    && s.mem == [] && s.imm == None && s.lastSequence == 0 && s.snapshots == [] && s.history == {}
    && forall l :: 0 <= l < NUM_LEVELS ==> s.version[l] == []
  }

  function CompactionEdit(level: nat, in0: seq<File>, in1: seq<File>, outputs: seq<File>): (r: Edit) {
    Edit(seq(|in0|, i requires 0 <= i < |in0| => (level, in0[i].number))
         + seq(|in1|, i requires 0 <= i < |in1| => (level + 1, in1[i].number)),
         seq(|outputs|, i requires 0 <= i < |outputs| => (level + 1, outputs[i])))
  }

  /** A batch takes the next sequence numbers, in order. */
  ghost predicate Sequenced(batch: seq<Entry>, last: SequenceNumber) {
    forall i :: 0 <= i < |batch| ==> batch[i].key.seqno == last + 1 + i
  }

  ghost predicate CanFlushTo(v: Version, level: nat, f: File) {
    level <= MAX_MEM_COMPACT_LEVEL
    && (level > 0 ==> forall l :: 0 <= l <= level ==> NoOverlap(v[l], f.smallest.user, f.largest.user))
  }

  ghost predicate UnusedNumber(v: Version, number: nat) {
    forall l, g :: 0 <= l < NUM_LEVELS && g in v[l] ==> g.number != number
  }

  /** Each output has a number of its own below `n`. */
  ghost predicate NewOutputs(v: Version, n: nat, outputs: seq<File>) {
    && (forall f :: f in outputs ==> WellFormed(f) && f.number < n && UnusedNumber(v, f.number))
    && forall f, g :: f in outputs && g in outputs && f.number == g.number ==> f == g
  }

  /** `outputs` is what the merge loop makes of the inputs, where `snapshot` was the oldest live
      snapshot when it began, and no output spans a file that was not selected. */
  ghost predicate MergesInputs(v: Version, n: nat, snapshot: SequenceNumber,
                               level: nat, in0: seq<File>, in1: seq<File>, input: seq<Entry>, outputs: seq<File>) {
    && GoodInputs(v, level, in0, in1) && OutputsClear(v, level, in1, outputs)
    && Sorted(input) && Contents(input) == InputContents(in0, in1)
    && Payloads(outputs) == Survivors(input, DroppedBy(v, level, Contents(input), snapshot))
    && NewOutputs(v, n, outputs)
  }

  ghost predicate Next(s: State, step: Step, s': State) {
    match step
    case Write(batch) =>
      && s.lastSequence + |batch| < MAX_SEQUENCE && Sequenced(batch, s.lastSequence)
      && Sorted(s'.mem) && Contents(s'.mem) == Contents(s.mem) + Contents(batch)
      && s' == s.(mem := s'.mem, lastSequence := s.lastSequence + |batch|, history := s.history + Contents(batch))
    case SwitchMemTable =>
      s.imm.None? && s' == s.(mem := [], imm := Some(s.mem))
    case DropEmptyMemTable =>
      s.imm == Some([]) && s' == s.(imm := None)
    case FlushMemTable(level, table) =>
      && s.imm.Some? && WellFormed(table) && table.entries == s.imm.value && table.number == s.nextFile
      && CanFlushTo(s.version, level, table)
      && Installs(s.version, Edit([], [(level, table)]), s'.version)
      && s' == s.(imm := None, version := s'.version, nextFile := s.nextFile + 1)
    case TrivialMove(level, f) =>
      && GoodInputs(s.version, level, [f], [])
      && Installs(s.version, CompactionEdit(level, [f], [], [f]), s'.version)
      && s' == s.(version := s'.version)
    case Compact(level, in0, in1, snapshot, input, outputs) =>
      && snapshot <= Oldest(s) && s.nextFile <= s'.nextFile
      && MergesInputs(s.version, s'.nextFile, snapshot, level, in0, in1, input, outputs)
      && Installs(s.version, CompactionEdit(level, in0, in1, outputs), s'.version)
      && s' == s.(version := s'.version, nextFile := s'.nextFile)
    case ReserveNumber =>
      s' == s.(nextFile := s.nextFile + 1)
    case TakeSnapshot =>
      s' == s.(snapshots := s.snapshots + [s.lastSequence])
    case ReleaseSnapshot(i) =>
      i < |s.snapshots| && s' == s.(snapshots := s.snapshots[..i] + s.snapshots[i + 1..])
  }

  // ---- What an installed edit does to the levels ----

  lemma EditSets(level: nat, in0: seq<File>, in1: seq<File>, outputs: seq<File>)
    ensures var e := CompactionEdit(level, in0, in1, outputs);
            && DeletedIn(e, level) == Numbers(FileSet(in0)) && DeletedIn(e, level + 1) == Numbers(FileSet(in1))
            && AddedIn(e, level + 1) == FileSet(outputs) && AddedIn(e, level) == {}
            && forall l: nat :: l != level && l != level + 1 ==> DeletedIn(e, l) == {} && AddedIn(e, l) == {}
  {
    var e := CompactionEdit(level, in0, in1, outputs);
    forall n | n in Numbers(FileSet(in0)) ensures n in DeletedIn(e, level) {
      var f :| f in FileSet(in0) && f.number == n;
      var i :| 0 <= i < |in0| && in0[i] == f;
      assert e.deleted[i] == (level, n);
    }
    forall n | n in Numbers(FileSet(in1)) ensures n in DeletedIn(e, level + 1) {
      var f :| f in FileSet(in1) && f.number == n;
      var i :| 0 <= i < |in1| && in1[i] == f;
      assert e.deleted[|in0| + i] == (level + 1, n);
    }
    forall f | f in FileSet(outputs) ensures f in AddedIn(e, level + 1) {
      var i :| 0 <= i < |outputs| && outputs[i] == f;
      assert e.added[i] == (level + 1, f);
    }
  }

  lemma UntouchedLevel(v: Version, e: Edit, v': Version, l: nat)
    requires Installs(v, e, v') && l < NUM_LEVELS && SortedFiles(v[l])
    requires DeletedIn(e, l) == {} && AddedIn(e, l) == {}
    ensures v'[l] == v[l]
  {
    assert FileSet(v'[l]) == FileSet(v[l]);
    SortedListsAgree(v'[l], v[l]);
  }

  /** An installed compaction edit replaces exactly the inputs by the outputs. */
  lemma InstallReplaces(v: Version, level: nat, in0: seq<File>, in1: seq<File>, outputs: seq<File>, v': Version)
    requires level + 1 < NUM_LEVELS && UniqueNumbers(v) && forall l :: 0 <= l < NUM_LEVELS ==> SortedFiles(v[l])
    requires forall f :: f in in0 ==> f in v[level]
    requires forall f :: f in in1 ==> f in v[level + 1]
    requires forall f, g :: f in outputs && g in v[level + 1] && f.number == g.number ==> f == g
    requires Installs(v, CompactionEdit(level, in0, in1, outputs), v')
    ensures FileSet(v'[level]) == FileSet(v[level]) - FileSet(in0)
    ensures FileSet(v'[level + 1]) == FileSet(v[level + 1]) - FileSet(in1) + FileSet(outputs)
    ensures forall l :: 0 <= l < NUM_LEVELS && l != level && l != level + 1 ==> v'[l] == v[l]
  {
    EditSets(level, in0, in1, outputs);
    var e := CompactionEdit(level, in0, in1, outputs);
    forall l | 0 <= l < NUM_LEVELS && l != level && l != level + 1 ensures v'[l] == v[l] {
      UntouchedLevel(v, e, v', l);
    }
    RemoveByNumber(v, level, in0);
    RemoveByNumber(v, level + 1, in1);
    var kept := FileSet(v[level + 1]) - FileSet(in1);
    assert FileSet(v'[level + 1])
      == Live(FileSet(v[level + 1]), Numbers(FileSet(in1)) - Numbers(FileSet(outputs)), FileSet(outputs));
    forall f | f in FileSet(v'[level + 1]) ensures f in kept + FileSet(outputs) {
      if f.number in Numbers(FileSet(outputs)) {
        var g :| g in FileSet(outputs) && g.number == f.number;
      }
    }
    forall f | f in FileSet(outputs) ensures f in FileSet(v'[level + 1]) {
      assert f.number in Numbers(FileSet(outputs));
    }
  }

  lemma RemoveByNumber(v: Version, l: nat, gone: seq<File>)
    requires l < NUM_LEVELS && UniqueNumbers(v) && forall f :: f in gone ==> f in v[l]
    ensures forall f :: f in FileSet(v[l]) ==> (f.number in Numbers(FileSet(gone)) <==> f in FileSet(gone))
  {
    forall f | f in FileSet(v[l]) && f.number in Numbers(FileSet(gone)) ensures f in FileSet(gone) {
      var g :| g in FileSet(gone) && g.number == f.number;
      assert g in v[l];
    }
  }

  /** No entry is stored twice. */
  lemma EntryHasOneFile(v: Version, l: nat, f: File, m: nat, g: File, e: Entry)
    requires LayeredVersion(v) && l < NUM_LEVELS && m < NUM_LEVELS
    requires f in v[l] && g in v[m] && e in f.entries && e in g.entries
    ensures l == m && f == g
  {
    assert e in LevelContents(v[l]) && e in LevelContents(v[m]);
    assert l < m ==> Newer(LevelContents(v[l]), LevelContents(v[m]));
    assert m < l ==> Newer(LevelContents(v[m]), LevelContents(v[l]));
    assert l == m;
    EntryInRange(f, e);
    EntryInRange(g, e);
    if l > 0 && f != g {
      DisjointApart(v[l], f, g);
    }
    assert e in Contents(f.entries) && e in Contents(g.entries);
  }

  ghost function InputContents(in0: seq<File>, in1: seq<File>): (r: set<Entry>) {
    LevelContents(in0) + LevelContents(in1)
  }

  /** The files of `v'` are those of `v` with the inputs replaced by the outputs. */
  ghost predicate Replaces(v: Version, level: nat, in0: seq<File>, in1: seq<File>, outputs: seq<File>, v': Version) {
    && level + 1 < NUM_LEVELS
    && (forall f :: f in v'[level] <==> f in v[level] && f !in in0)
    && (forall f :: f in v'[level + 1] <==> (f in v[level + 1] && f !in in1) || f in outputs)
    && forall l :: 0 <= l < NUM_LEVELS && l != level && l != level + 1 ==> v'[l] == v[l]
  }

  predicate IsInput(level: nat, in0: seq<File>, in1: seq<File>, l: nat, f: File) {
    (l == level && f in in0) || (l == level + 1 && f in in1)
  }

  /** Replacing inputs by outputs changes the contents by exactly what the outputs leave out. */
  lemma ReplacedContents(v: Version, level: nat, in0: seq<File>, in1: seq<File>, outputs: seq<File>, v': Version)
    requires LayeredVersion(v) && GoodInputs(v, level, in0, in1) && Replaces(v, level, in0, in1, outputs, v')
    requires LevelContents(outputs) <= InputContents(in0, in1)
    ensures VersionContents(v') == VersionContents(v) - (InputContents(in0, in1) - LevelContents(outputs))
  {
    forall e
      ensures e in VersionContents(v')
        <==> e in VersionContents(v) && (e !in InputContents(in0, in1) || e in LevelContents(outputs))
    {
      if e in VersionContents(v') {
        NothingNew(v, level, in0, in1, outputs, v', e);
      }
      if e in VersionContents(v) && (e !in InputContents(in0, in1) || e in LevelContents(outputs)) {
        NothingLost(v, level, in0, in1, outputs, v', e);
      }
    }
  }

  lemma NothingNew(v: Version, level: nat, in0: seq<File>, in1: seq<File>, outputs: seq<File>, v': Version, e: Entry)
    requires LayeredVersion(v) && GoodInputs(v, level, in0, in1) && Replaces(v, level, in0, in1, outputs, v')
    requires LevelContents(outputs) <= InputContents(in0, in1)
    requires e in VersionContents(v')
    ensures e in VersionContents(v) && (e !in InputContents(in0, in1) || e in LevelContents(outputs))
  {
    var l, f := Locate(v', e);
    if f in v[l] && !IsInput(level, in0, in1, l, f) {
      FileInVersion(v, l, f, e);
      KeptIsNoInput(v, level, in0, in1, l, f, e);
    } else {
      OutputEntry(v, level, in0, in1, outputs, f, e);
    }
  }

  lemma NothingLost(v: Version, level: nat, in0: seq<File>, in1: seq<File>, outputs: seq<File>, v': Version, e: Entry)
    requires Replaces(v, level, in0, in1, outputs, v')
    requires e in VersionContents(v) && (e !in InputContents(in0, in1) || e in LevelContents(outputs))
    ensures e in VersionContents(v')
  {
    if e in LevelContents(outputs) {
      var o :| o in outputs && e in o.entries;
      FileInVersion(v', level + 1, o, e);
    } else {
      var l, f := Locate(v, e);
      assert f in in0 ==> e in LevelContents(in0);
      assert f in in1 ==> e in LevelContents(in1);
      FileInVersion(v', l, f, e);
    }
  }

  lemma Locate(v: Version, e: Entry) returns (l: nat, f: File)
    requires e in VersionContents(v)
    ensures l < NUM_LEVELS && f in v[l] && e in f.entries
  {
    l :| 0 <= l < NUM_LEVELS && e in LevelContents(v[l]);
    f :| f in v[l] && e in f.entries;
  }

  lemma FileInVersion(v: Version, l: nat, f: File, e: Entry)
    requires l < NUM_LEVELS && f in v[l] && e in f.entries
    ensures e in VersionContents(v)
  {
    assert e in LevelContents(v[l]);
  }

  lemma OutputEntry(v: Version, level: nat, in0: seq<File>, in1: seq<File>, outputs: seq<File>, f: File, e: Entry)
    requires GoodInputs(v, level, in0, in1) && LevelContents(outputs) <= InputContents(in0, in1)
    requires f in outputs && e in f.entries
    ensures e in LevelContents(outputs) && e in VersionContents(v)
  {
    NextLevelInputsInLevel(v, level, in0, in1);
    assert e in LevelContents(outputs);
    assert e in LevelContents(v[level]) || e in LevelContents(v[level + 1]);
  }

  lemma KeptIsNoInput(v: Version, level: nat, in0: seq<File>, in1: seq<File>, l: nat, f: File, e: Entry)
    requires LayeredVersion(v) && GoodInputs(v, level, in0, in1)
    requires l < NUM_LEVELS && f in v[l] && e in f.entries && !IsInput(level, in0, in1, l, f)
    ensures e !in InputContents(in0, in1)
  {
    NextLevelInputsInLevel(v, level, in0, in1);
    forall g | g in in0 ensures e !in g.entries {
      if e in g.entries {
        EntryHasOneFile(v, l, f, level, g, e);
      }
    }
    forall g | g in in1 ensures e !in g.entries {
      if e in g.entries {
        EntryHasOneFile(v, l, f, level + 1, g, e);
      }
    }
  }

  lemma ShrinkKeepsLayered(mem: seq<Entry>, imm: Option<seq<Entry>>, v: Version, v': Version)
    requires Layered(mem, imm, v) && LayeredVersion(v') && VersionContents(v') <= VersionContents(v)
    ensures Layered(mem, imm, v')
    ensures AllContents(mem, imm, v') <= AllContents(mem, imm, v)
  {
  }

  lemma InstallGivesReplaces(v: Version, level: nat, in0: seq<File>, in1: seq<File>, outputs: seq<File>, v': Version)
    requires level + 1 < NUM_LEVELS && UniqueNumbers(v) && forall l :: 0 <= l < NUM_LEVELS ==> SortedFiles(v[l])
    requires forall f :: f in in0 ==> f in v[level]
    requires forall f :: f in in1 ==> f in v[level + 1]
    requires forall f, g :: f in outputs && g in v[level + 1] && f.number == g.number ==> f == g
    requires Installs(v, CompactionEdit(level, in0, in1, outputs), v')
    ensures Replaces(v, level, in0, in1, outputs, v')
  {
    InstallReplaces(v, level, in0, in1, outputs, v');
    forall f ensures f in v'[level] <==> f in v[level] && f !in in0 {
      assert f in v'[level] <==> f in FileSet(v'[level]);
    }
    forall f ensures f in v'[level + 1] <==> (f in v[level + 1] && f !in in1) || f in outputs {
      assert f in v'[level + 1] <==> f in FileSet(v'[level + 1]);
    }
  }

  /** Shared by compactions and trivial moves. */
  lemma ReplaceKeepsStructure(v: Version, level: nat, in0: seq<File>, in1: seq<File>, outputs: seq<File>, v': Version)
    requires LayeredVersion(v) && GoodInputs(v, level, in0, in1) && Replaces(v, level, in0, in1, outputs, v')
    requires (forall f :: f in outputs ==> WellFormed(f)) && SortedDisjoint(outputs)
    requires LevelContents(outputs) <= InputContents(in0, in1) && OutputsClear(v, level, in1, outputs)
    requires forall l :: 0 <= l < NUM_LEVELS ==> SortedFiles(v'[l])
    ensures LayeredVersion(v')
    ensures VersionContents(v') == VersionContents(v) - (InputContents(in0, in1) - LevelContents(outputs))
  {
    ReplacedContents(v, level, in0, in1, outputs, v');
    assert MovesDown(v, level, in0, in1, outputs, v');
    MoveDownKeepsLayering(v, level, in0, in1, outputs, v');
  }

  /** Numbers taken one after the other are new. */
  lemma OutputNumbers(v: Version, outputs: seq<File>, first: nat)
    requires Numbered(outputs, first) && NumbersBelow(v, first)
    ensures NewOutputs(v, first + |outputs|, outputs)
  {
  }

  /** The merge's outputs hold the inputs minus what it drops. */
  lemma MergeOutputs(
    v: Version, n: nat, snapshot: SequenceNumber, level: nat, in0: seq<File>, in1: seq<File>, input: seq<Entry>,
    outputs: seq<File>)
    requires MergesInputs(v, n, snapshot, level, in0, in1, input, outputs)
    ensures SortedDisjoint(outputs)
    ensures LevelContents(outputs) == InputContents(in0, in1) - DroppedBy(v, level, InputContents(in0, in1), snapshot)
  {
    var dropped := DroppedBy(v, level, Contents(input), snapshot);
    SurvivorsSorted(input, dropped);
    SurvivorsContents(input, dropped);
    PayloadContents(outputs);
    CutsAreDisjoint(outputs);
  }

  ghost predicate VersionOk(v: Version, nextFile: nat) {
    && (forall l :: 0 <= l < NUM_LEVELS ==> SortedFiles(v[l]))
    && UniqueNumbers(v) && NumbersBelow(v, nextFile)
  }

  lemma ReplaceKeepsNumbers(
    v: Version, n: nat, level: nat, in0: seq<File>, in1: seq<File>, outputs: seq<File>, v': Version, n': nat)
    requires VersionOk(v, n) && Replaces(v, level, in0, in1, outputs, v') && n <= n'
    requires forall f :: f in outputs ==> f.number < n' && (UnusedNumber(v, f.number) || (f in in0 && f in v[level]))
    requires forall f, g :: f in outputs && g in outputs && f.number == g.number ==> f == g
    ensures UniqueNumbers(v') && NumbersBelow(v', n')
  {
    forall l, f | 0 <= l < NUM_LEVELS && f in v'[l]
      ensures (f in v[l] && !(l == level && f in in0)) || (l == level + 1 && f in outputs)
    {
    }
  }

  /** A version-level summary of compactions and moves. */
  lemma VersionReplaced(
    v: Version, n: nat, level: nat, in0: seq<File>, in1: seq<File>, outputs: seq<File>, v': Version, n': nat)
    requires LayeredVersion(v) && VersionOk(v, n) && n <= n' && GoodInputs(v, level, in0, in1)
    requires forall f :: f in outputs ==>
      WellFormed(f) && f.number < n' && (UnusedNumber(v, f.number) || (f in in0 && f in v[level]))
    requires forall f, g :: f in outputs && g in outputs && f.number == g.number ==> f == g
    requires SortedDisjoint(outputs) && LevelContents(outputs) <= InputContents(in0, in1)
    requires OutputsClear(v, level, in1, outputs)
    requires Installs(v, CompactionEdit(level, in0, in1, outputs), v')
    ensures LayeredVersion(v') && VersionOk(v', n')
    ensures VersionContents(v') == VersionContents(v) - (InputContents(in0, in1) - LevelContents(outputs))
  {
    NextLevelInputsInLevel(v, level, in0, in1);
    InstallGivesReplaces(v, level, in0, in1, outputs, v');
    ReplaceKeepsStructure(v, level, in0, in1, outputs, v');
    ReplaceKeepsNumbers(v, n, level, in0, in1, outputs, v', n');
  }

  lemma CompactedVersion(
    v: Version, n: nat, n': nat, snapshot: SequenceNumber, level: nat, in0: seq<File>, in1: seq<File>,
    input: seq<Entry>, outputs: seq<File>, v': Version)
    requires LayeredVersion(v) && VersionOk(v, n) && n <= n'
    requires MergesInputs(v, n', snapshot, level, in0, in1, input, outputs)
    requires Installs(v, CompactionEdit(level, in0, in1, outputs), v')
    ensures LayeredVersion(v') && VersionOk(v', n')
    ensures VersionContents(v') == VersionContents(v) - DroppedBy(v, level, InputContents(in0, in1), snapshot)
  {
    MergeOutputs(v, n', snapshot, level, in0, in1, input, outputs);
    VersionReplaced(v, n, level, in0, in1, outputs, v', n');
  }

  lemma MovedIsClear(v: Version, level: nat, f: File)
    requires GoodInputs(v, level, [f], [])
    ensures OutputsClear(v, level, [], [f])
  {
    forall g | g in v[level + 1] ensures Apart(f, g) {
      assert f in [f] && (Beyond(g, [f]) || InGap(g, [f], []));
    }
  }

  lemma MovedVersion(v: Version, n: nat, level: nat, f: File, v': Version)
    requires LayeredVersion(v) && VersionOk(v, n) && GoodInputs(v, level, [f], [])
    requires Installs(v, CompactionEdit(level, [f], [], [f]), v')
    ensures LayeredVersion(v') && VersionOk(v', n)
    ensures VersionContents(v') == VersionContents(v)
  {
    assert f in [f];
    assert f in v[level] && WellFormed(f);
    MovedIsClear(v, level, f);
    VersionReplaced(v, n, level, [f], [], [f], v', n);
  }

  lemma InputsInVersion(v: Version, level: nat, in0: seq<File>, in1: seq<File>)
    requires GoodInputs(v, level, in0, in1)
    ensures InputContents(in0, in1) <= VersionContents(v)
  {
    NextLevelInputsInLevel(v, level, in0, in1);
    LevelInVersion(v, level);
    LevelInVersion(v, level + 1);
  }

  lemma MemoryHoldsNoInput(mem: seq<Entry>, imm: Option<seq<Entry>>, v: Version, inputs: set<Entry>)
    requires Newer(Contents(mem) + ImmContents(imm), VersionContents(v)) && inputs <= VersionContents(v)
    ensures (Contents(mem) + ImmContents(imm)) !! inputs
  {
    forall e | e in inputs ensures e !in Contents(mem) + ImmContents(imm) {
      assert e in VersionContents(v);
    }
  }

  lemma FlushInstalls(v: Version, level: nat, f: File, v': Version)
    requires (forall l :: 0 <= l < NUM_LEVELS ==> SortedFiles(v[l])) && level < NUM_LEVELS
    requires Installs(v, Edit([], [(level, f)]), v')
    ensures forall g :: g in v'[level] <==> g in v[level] || g == f
    ensures forall l :: 0 <= l < NUM_LEVELS && l != level ==> v'[l] == v[l]
  {
    var e := Edit([], [(level, f)]);
    assert e.added[0] == (level, f);
    assert AddedIn(e, level) == {f} && forall l: nat :: DeletedIn(e, l) == {} && (l != level ==> AddedIn(e, l) == {});
    forall l | 0 <= l < NUM_LEVELS && l != level ensures v'[l] == v[l] {
      UntouchedLevel(v, e, v', l);
    }
    forall g ensures g in v'[level] <==> g in v[level] || g == f {
      assert g in v'[level] <==> g in FileSet(v'[level]);
    }
  }

  lemma FlushNumbers(v: Version, n: nat, level: nat, f: File, v': Version)
    requires UniqueNumbers(v) && NumbersBelow(v, n) && f.number == n && level < NUM_LEVELS
    requires forall g :: g in v'[level] <==> g in v[level] || g == f
    requires forall l :: 0 <= l < NUM_LEVELS && l != level ==> v'[l] == v[l]
    ensures UniqueNumbers(v') && NumbersBelow(v', n + 1)
  {
    forall l, g | 0 <= l < NUM_LEVELS && g in v'[l] ensures g in v[l] || (l == level && g == f) {
    }
  }

  lemma FlushedVersion(v: Version, n: nat, level: nat, f: File, v': Version)
    requires LayeredVersion(v) && VersionOk(v, n) && WellFormed(f) && f.number == n && CanFlushTo(v, level, f)
    requires Newer(Contents(f.entries), VersionContents(v)) && Distinct(VersionContents(v) + Contents(f.entries))
    requires Installs(v, Edit([], [(level, f)]), v')
    ensures LayeredVersion(v') && VersionOk(v', n + 1)
    ensures VersionContents(v') == VersionContents(v) + Contents(f.entries)
  {
    FlushInstalls(v, level, f, v');
    FlushNumbers(v, n, level, f, v');
    assert Flushes(v, level, f, v');
    FlushContents(v, level, f, v');
    FlushKeepsLayering(v, level, f, v');
  }

  lemma FlushedLayers(mem: seq<Entry>, imm: seq<Entry>, v: Version, v': Version)
    requires Layered(mem, Some(imm), v) && LayeredVersion(v')
    requires VersionContents(v') == VersionContents(v) + Contents(imm)
    ensures Layered(mem, None, v')
    ensures AllContents(mem, None, v') == AllContents(mem, Some(imm), v)
  {
    assert AllContents(mem, None, v') == AllContents(mem, Some(imm), v);
  }

  lemma WrittenLayers(
    mem: seq<Entry>, imm: Option<seq<Entry>>, v: Version, last: SequenceNumber, batch: seq<Entry>, mem': seq<Entry>)
    requires Layered(mem, imm, v) && forall e :: e in AllContents(mem, imm, v) ==> e.key.seqno <= last
    requires Sequenced(batch, last) && Sorted(mem') && Contents(mem') == Contents(mem) + Contents(batch)
    ensures Layered(mem', imm, v)
    ensures AllContents(mem', imm, v) == AllContents(mem, imm, v) + Contents(batch)
  {
    assert AllContents(mem', imm, v) == AllContents(mem, imm, v) + Contents(batch);
    SequencedDistinct(AllContents(mem, imm, v), last, batch);
    forall e | e in Contents(batch) ensures e.key.seqno > last {
      var i :| 0 <= i < |batch| && batch[i] == e;
    }
  }

  lemma SequencedDistinct(store: set<Entry>, last: SequenceNumber, batch: seq<Entry>)
    requires Distinct(store) && Sequenced(batch, last) && forall e :: e in store ==> e.key.seqno <= last
    ensures Distinct(store + Contents(batch))
    ensures forall e :: e in Contents(batch) ==> last < e.key.seqno <= last + |batch|
  {
  }

  lemma SnapshotStep(s: State, step: Step, s': State)
    requires SnapshotsOk(s) && Next(s, step, s')
    ensures SnapshotsOk(s')
    ensures Oldest(s) <= Oldest(s')
  {
  }

  /** What a step does to the stored entries. */
  ghost predicate Effect(s: State, step: Step, s': State) {
    match step
    case Write(batch) => Everything(s') == Everything(s) + Contents(batch)
    case Compact(level, in0, in1, snapshot, _, _) =>
      && InputContents(in0, in1) <= Everything(s) && snapshot <= Oldest(s)
      && Everything(s') == Everything(s) - DroppedBy(s.version, level, InputContents(in0, in1), snapshot)
    case _ => Everything(s') == Everything(s)
  }

  lemma WriteStep(s: State, step: Step, s': State)
    requires Structured(s) && step.Write? && Next(s, step, s')
    ensures Structured(s') && Effect(s, step, s')
  {
    SnapshotStep(s, step, s');
    WrittenLayers(s.mem, s.imm, s.version, s.lastSequence, step.batch, s'.mem);
    SequencedDistinct(Everything(s), s.lastSequence, step.batch);
  }

  lemma StructuredParts(s: State)
    requires Structured(s)
    ensures Layered(s.mem, s.imm, s.version) && LayeredVersion(s.version) && VersionOk(s.version, s.nextFile)
    ensures s.imm.Some? ==> Newer(Contents(s.imm.value), VersionContents(s.version))
    ensures s.imm.Some? ==> Distinct(VersionContents(s.version) + Contents(s.imm.value))
  {
    if s.imm.Some? {
      assert VersionContents(s.version) + Contents(s.imm.value) <= Everything(s);
    }
  }

  /** Reassembling the invariant after the files changed and nothing was written. */
  lemma Reassemble(s: State, s': State)
    requires Structured(s) && Layered(s'.mem, s'.imm, s'.version) && VersionOk(s'.version, s'.nextFile)
    requires Everything(s') <= Everything(s)
    requires s'.lastSequence == s.lastSequence && s'.snapshots == s.snapshots
    ensures Structured(s')
  {
  }

  lemma FlushStep(s: State, step: Step, s': State)
    requires Structured(s) && step.FlushMemTable? && Next(s, step, s')
    ensures Structured(s') && Effect(s, step, s')
  {
    StructuredParts(s);
    FlushFiles(s.mem, s.imm.value, s.version, s.nextFile, step.level, step.table, s'.version);
    Reassemble(s, s');
  }

  lemma FlushFiles(mem: seq<Entry>, imm: seq<Entry>, v: Version, n: nat, level: nat, f: File, v': Version)
    requires Layered(mem, Some(imm), v) && VersionOk(v, n)
    requires Newer(Contents(imm), VersionContents(v)) && Distinct(VersionContents(v) + Contents(imm))
    requires WellFormed(f) && f.entries == imm && f.number == n && CanFlushTo(v, level, f)
    requires Installs(v, Edit([], [(level, f)]), v')
    ensures Layered(mem, None, v') && VersionOk(v', n + 1)
    ensures AllContents(mem, None, v') == AllContents(mem, Some(imm), v)
  {
    FlushedVersion(v, n, level, f, v');
    FlushedLayers(mem, imm, v, v');
  }

  lemma MoveStep(s: State, step: Step, s': State)
    requires Structured(s) && step.TrivialMove? && Next(s, step, s')
    ensures Structured(s') && Effect(s, step, s')
  {
    StructuredParts(s);
    MovedVersion(s.version, s.nextFile, step.from, step.moved, s'.version);
    ShrinkKeepsLayered(s.mem, s.imm, s.version, s'.version);
    Reassemble(s, s');
  }

  lemma CompactStep(s: State, step: Step, s': State)
    requires Structured(s) && step.Compact? && Next(s, step, s')
    ensures Structured(s') && Effect(s, step, s')
  {
    StructuredParts(s);
    CompactFiles(s.version, s.nextFile, s'.nextFile, step, s'.version);
    var inputs := InputContents(step.in0, step.in1);
    CompactMemory(s.mem, s.imm, s.version, s'.version, inputs, DroppedBy(s.version, step.into, inputs, step.snapshot));
    Reassemble(s, s');
  }

  lemma CompactMemory(
    mem: seq<Entry>, imm: Option<seq<Entry>>, v: Version, v': Version, inputs: set<Entry>, dropped: set<Entry>)
    requires Layered(mem, imm, v) && LayeredVersion(v')
    requires dropped <= inputs <= VersionContents(v) && VersionContents(v') == VersionContents(v) - dropped
    ensures Layered(mem, imm, v')
    ensures AllContents(mem, imm, v') == AllContents(mem, imm, v) - dropped
  {
    ShrinkKeepsLayered(mem, imm, v, v');
    MemoryHoldsNoInput(mem, imm, v, inputs);
    DropFromFiles(Contents(mem) + ImmContents(imm), VersionContents(v), inputs, dropped);
  }

  lemma DropFromFiles(memory: set<Entry>, files: set<Entry>, inputs: set<Entry>, dropped: set<Entry>)
    requires memory !! inputs && dropped <= inputs
    ensures memory + (files - dropped) == memory + files - dropped
  {
  }

  lemma CompactFiles(v: Version, n: nat, n': nat, c: Step, v': Version)
    requires LayeredVersion(v) && VersionOk(v, n) && n <= n' && c.Compact?
    requires MergesInputs(v, n', c.snapshot, c.into, c.in0, c.in1, c.input, c.outputs)
    requires Installs(v, CompactionEdit(c.into, c.in0, c.in1, c.outputs), v')
    ensures LayeredVersion(v') && VersionOk(v', n')
    ensures VersionContents(v') == VersionContents(v) - DroppedBy(v, c.into, InputContents(c.in0, c.in1), c.snapshot)
    ensures InputContents(c.in0, c.in1) <= VersionContents(v)
  {
    CompactedVersion(v, n, n', c.snapshot, c.into, c.in0, c.in1, c.input, c.outputs, v');
    InputsInVersion(v, c.into, c.in0, c.in1);
  }

  lemma MemoryStep(s: State, step: Step, s': State)
    requires Structured(s) && Next(s, step, s')
    requires step.SwitchMemTable? || step.DropEmptyMemTable? || step.TakeSnapshot? || step.ReleaseSnapshot?
      || step.ReserveNumber?
    ensures Structured(s') && Effect(s, step, s')
  {
    SnapshotStep(s, step, s');
    assert Everything(s') == Everything(s);
  }

  /** Layering is inductive: no hypothesis on what compactions drop is needed. */
  lemma StepKeepsStructure(s: State, step: Step, s': State)
    requires Structured(s) && Next(s, step, s')
    ensures Structured(s')
    ensures Effect(s, step, s')
  {
    match step
    case Write(_) => WriteStep(s, step, s');
    case FlushMemTable(_, _) => FlushStep(s, step, s');
    case TrivialMove(_, _) => MoveStep(s, step, s');
    case Compact(_, _, _, _, _, _) => CompactStep(s, step, s');
    case _ => MemoryStep(s, step, s');
  }
}
