/** A run from the empty store whose last compaction brings a deleted value back. */
module LeakRun {
  // The value of key 2 is written and a snapshot taken; its tombstone and a value of key 1
  // follow.  The table flushed from them is compacted one level down while the snapshot
  // still needs both versions of key 2, and the output is cut between them.  The snapshot
  // is released, key 1 is written again and flushed, and the next compaction takes only
  // the first of the two tables.

  import opened InternalKeys
  import opened FlatStore
  import opened Wrappers
  import opened Levels
  import opened LayeredGet
  import opened InputSelection
  import opened CompactionWork
  import opened CompactionReads
  import opened VersionBuilder
  import opened Layering
  import opened StoreSteps
  import opened StoreRuns
  import opened BoundaryLeak

  const UPPER := Entry(InternalKey(1, 4, Value), [40])
  const LOWER := Entry(InternalKey(1, 3, Value), seq(1_046_528, _ => 30))
  const TOMBSTONE := Entry(InternalKey(2, 2, Deletion), [])
  const DELETED := Entry(InternalKey(2, 1, Value), [10])

  function Table(number: nat, first: Entry, entries: seq<Entry>, last: Entry): (f: File)
    requires AtMost(first.key, last.key)
    ensures f.number == number && f.entries == entries && f.smallest == first.key && f.largest == last.key
  {
    FileMetaData(number, |entries|, first.key, last.key, entries)
  }

  const WHOLE: File := Table(0, LOWER, [LOWER, TOMBSTONE, DELETED], DELETED)
  const FIRST: File := Table(1, LOWER, [LOWER, TOMBSTONE], TOMBSTONE)
  const SECOND: File := Table(2, DELETED, [DELETED], DELETED)
  const TOP: File := Table(3, UPPER, [UPPER], UPPER)
  const MERGED: File := Table(4, UPPER, [UPPER], UPPER)

  /** Only levels 2 and 3 ever hold files. */
  function Files(two: seq<File>, three: seq<File>): (v: Version)
    ensures v[2] == two && v[3] == three
    ensures forall l :: 0 <= l < NUM_LEVELS && l != 2 && l != 3 ==> v[l] == []
  {
    [[], [], two, three, [], [], []]
  }

  const SETUP := Setup(2, TOP, FIRST, SECOND, MERGED, UPPER, LOWER, TOMBSTONE, DELETED)

  lemma SetupFits()
    ensures SetupOk(SETUP)
    ensures IsBefore(SETUP, Files([TOP], [FIRST, SECOND])) && IsAfter(SETUP, Files([], [MERGED, SECOND]))
  {
  }

  lemma ListOf(es: seq<Entry>)
    requires |es| == 1 || |es| == 2 || |es| == 3
    ensures |es| == 1 ==> Contents(es) == {es[0]}
    ensures |es| == 2 ==> Contents(es) == {es[0], es[1]}
    ensures |es| == 3 ==> Contents(es) == {es[0], es[1], es[2]}
  {
  }

  lemma WholeContents()
    ensures Sorted(WHOLE.entries) && WellFormed(WHOLE)
    ensures Contents(WHOLE.entries) == {LOWER, TOMBSTONE, DELETED}
    ensures LevelContents([WHOLE]) == {LOWER, TOMBSTONE, DELETED} && LevelContents([]) == {}
  {
    ListOf(WHOLE.entries);
    ListContents(WHOLE, WHOLE);
  }

  // ---- The steps ----

  lemma FirstWrite(s: State, s': State)
    requires s.mem == [] && s.lastSequence == 0 && s'.mem == [DELETED]
    requires s' == s.(mem := [DELETED], lastSequence := 1, history := s.history + {DELETED})
    ensures Next(s, Write([DELETED]), s')
  {
    ListOf([DELETED]);
  }

  lemma SecondWrite(s: State, s': State)
    requires s.mem == [DELETED] && s.lastSequence == 1
    requires s' == s.(mem := WHOLE.entries, lastSequence := 3, history := s.history + {TOMBSTONE, LOWER})
    ensures Next(s, Write([TOMBSTONE, LOWER]), s')
  {
    WholeContents();
    ListOf([DELETED]);
    ListOf([TOMBSTONE, LOWER]);
  }

  lemma ThirdWrite(s: State, s': State)
    requires s.mem == [] && s.lastSequence == 3
    requires s' == s.(mem := [UPPER], lastSequence := 4, history := s.history + {UPPER})
    ensures Next(s, Write([UPPER]), s')
  {
    ListOf([UPPER]);
  }

  /** A table that overlaps nothing above or at level 2 is flushed there. */
  lemma Flush(s: State, f: File, three: seq<File>, s': State)
    requires s.version == Files([], three) && SortedFiles(three)
    requires s.imm == Some(f.entries) && WellFormed(f) && f.number == s.nextFile
    requires s' == s.(imm := None, version := Files([f], three), nextFile := s.nextFile + 1)
    ensures Next(s, FlushMemTable(2, f), s')
  {
    var e := Edit([], [(2, f)]);
    assert e.added[0] == (2, f);
    assert AddedIn(e, 2) == {f} && forall l: nat :: DeletedIn(e, l) == {} && (l != 2 ==> AddedIn(e, l) == {});
    assert FileSet([f]) == {f} && FileSet([]) == {};
    forall l | 0 <= l < NUM_LEVELS
      ensures SortedFiles(s'.version[l]) && FileSet(s'.version[l]) == Install(FileSet(s.version[l]), e, l)
    {
    }
  }

  /** With the snapshot alive nothing is dropped. */
  lemma NothingDropped(v: Version)
    ensures DroppedBy(v, 2, {LOWER, TOMBSTONE, DELETED}, 1) == {}
    ensures Survivors(WHOLE.entries, {}) == WHOLE.entries
  {
    var run := WHOLE.entries;
    assert run[..2] == [LOWER, TOMBSTONE] && run[..2][..1] == [LOWER] && [LOWER][..0] == [];
    assert Survivors([LOWER], {}) == [LOWER];
    assert Survivors([LOWER, TOMBSTONE], {}) == [LOWER, TOMBSTONE];
  }

  lemma SplitPayloads()
    ensures Payloads([FIRST, SECOND]) == WHOLE.entries
  {
    assert [FIRST, SECOND][..1] == [FIRST] && [FIRST][..0] == [];
    assert Payloads([FIRST]) == FIRST.entries;
  }

  lemma SplitFiles()
    ensures WellFormed(FIRST) && WellFormed(SECOND)
  {
  }

  lemma NewPair(v: Version, n: nat, whole: File, f: File, g: File)
    requires v == Files([whole], []) && whole.number < f.number < g.number < n && WellFormed(f) && WellFormed(g)
    ensures NewOutputs(v, n, [f, g])
  {
  }

  lemma WholeIsInput(v: Version)
    requires v == Files([WHOLE], [])
    ensures PickedInputs(v, 2, [WHOLE], []) && GoodInputs(v, 2, [WHOLE], [])
    ensures OutputsClear(v, 2, [], [FIRST, SECOND])
    ensures InputContents([WHOLE], []) == {LOWER, TOMBSTONE, DELETED}
  {
    WholeContents();
    var lo, hi := WHOLE.smallest, WHOLE.largest;
    assert WHOLE in [WHOLE] && IsHull([WHOLE], lo, hi);
    assert OverlappingFiles(v[3], Some(lo.user), Some(hi.user)) == [] && IsSlice(v[2], 0, [WHOLE]);
    PickedIsGood(v, 2, [WHOLE], []);
  }

  lemma SplitInstalls(v: Version, v': Version)
    requires v == Files([WHOLE], []) && v' == Files([], [FIRST, SECOND])
    ensures Installs(v, CompactionEdit(2, [WHOLE], [], [FIRST, SECOND]), v')
  {
    var e := CompactionEdit(2, [WHOLE], [], [FIRST, SECOND]);
    EditSets(2, [WHOLE], [], [FIRST, SECOND]);
    assert FileSet([WHOLE]) == {WHOLE} && FileSet([]) == {} && FileSet([FIRST, SECOND]) == {FIRST, SECOND};
    assert Numbers({WHOLE}) == {0} && Numbers({}) == {} && Numbers({FIRST, SECOND}) == {1, 2};
    forall l | 0 <= l < NUM_LEVELS ensures SortedFiles(v'[l]) && FileSet(v'[l]) == Install(FileSet(v[l]), e, l) {
    }
  }

  ghost const SPLIT := Compact(2, [WHOLE], [], 1, WHOLE.entries, [FIRST, SECOND])

  lemma Split(s: State, s': State)
    requires s.version == Files([WHOLE], []) && s.snapshots == [1] && s.nextFile == 1
    requires s' == s.(version := Files([], [FIRST, SECOND]), nextFile := 3)
    ensures Next(s, SPLIT, s')
  {
    WholeContents();
    WholeIsInput(s.version);
    NothingDropped(s.version);
    SplitPayloads();
    SplitFiles();
    NewPair(s.version, 3, WHOLE, FIRST, SECOND);
    SplitInstalls(s.version, s'.version);
  }

  // ---- The run ----

  ghost const STATES: seq<State> := [
    State([], None, Files([], []), 0, 0, [], {}),
    State([DELETED], None, Files([], []), 0, 1, [], {DELETED}),
    State([DELETED], None, Files([], []), 0, 1, [1], {DELETED}),
    State(WHOLE.entries, None, Files([], []), 0, 3, [1], {DELETED, TOMBSTONE, LOWER}),
    State([], Some(WHOLE.entries), Files([], []), 0, 3, [1], {DELETED, TOMBSTONE, LOWER}),
    State([], None, Files([WHOLE], []), 1, 3, [1], {DELETED, TOMBSTONE, LOWER}),
    State([], None, Files([], [FIRST, SECOND]), 3, 3, [1], {DELETED, TOMBSTONE, LOWER}),
    State([], None, Files([], [FIRST, SECOND]), 3, 3, [], {DELETED, TOMBSTONE, LOWER}),
    State([UPPER], None, Files([], [FIRST, SECOND]), 3, 4, [], {DELETED, TOMBSTONE, LOWER, UPPER}),
    State([], Some([UPPER]), Files([], [FIRST, SECOND]), 3, 4, [], {DELETED, TOMBSTONE, LOWER, UPPER}),
    State([], None, Files([TOP], [FIRST, SECOND]), 4, 4, [], {DELETED, TOMBSTONE, LOWER, UPPER}),
    State([], None, Files([], [MERGED, SECOND]), 5, 4, [], {DELETED, TOMBSTONE, LOWER, UPPER})]

  ghost const STEPS: seq<Step> := [
    Write([DELETED]), TakeSnapshot, Write([TOMBSTONE, LOWER]), SwitchMemTable, FlushMemTable(2, WHOLE), SPLIT,
    ReleaseSnapshot(0), Write([UPPER]), SwitchMemTable, FlushMemTable(2, TOP), Merge(SETUP)]

  lemma EarlySteps(i: nat)
    requires i < 3
    ensures Next(STATES[i], STEPS[i], STATES[i + 1])
  {
    match i {
      case 0 => FirstWrite(STATES[0], STATES[1]);
      case 1 =>
      case 2 => SecondWrite(STATES[2], STATES[3]);
    }
  }

  lemma FirstFlush()
    ensures Next(STATES[4], STEPS[4], STATES[5])
  {
    WholeContents();
    Flush(STATES[4], WHOLE, [], STATES[5]);
  }

  lemma MiddleSteps(i: nat)
    requires 3 <= i < 6
    ensures Next(STATES[i], STEPS[i], STATES[i + 1])
  {
    match i {
      case 3 =>
      case 4 => FirstFlush();
      case 5 => Split(STATES[5], STATES[6]);
    }
  }

  lemma LateSteps(i: nat)
    requires 6 <= i < 11
    ensures Next(STATES[i], STEPS[i], STATES[i + 1])
  {
    match i {
      case 6 =>
      case 7 => ThirdWrite(STATES[7], STATES[8]);
      case 8 =>
      case 9 => Flush(STATES[9], TOP, [FIRST, SECOND], STATES[10]);
      case 10 => LastStep();
    }
  }

  lemma LastStep()
    ensures STATES[10] == Start(SETUP, Files([TOP], [FIRST, SECOND]))
    ensures Next(STATES[10], Merge(SETUP), STATES[11])
  {
    SetupFits();
    MergeIsLegal(SETUP, Files([TOP], [FIRST, SECOND]), Files([], [MERGED, SECOND]));
  }

  /** The failing input, step by step from the empty store. */
  lemma DeletedValueReturnsInARun()
    ensures IsRun(STATES, STEPS) && Leaky(STATES[10], STEPS[10])
    ensures Read(Everything(STATES[10]), 2, 4) == None && Read(Everything(STATES[11]), 2, 4) == Some([10])
  {
    forall i | 0 <= i < |STEPS| ensures Next(STATES[i], STEPS[i], STATES[i + 1]) {
      if i < 3 {
        EarlySteps(i);
      } else if i < 6 {
        MiddleSteps(i);
      } else {
        LateSteps(i);
      }
    }
    SetupFits();
    LastStep();
    ReadChanges(SETUP, Files([TOP], [FIRST, SECOND]), Files([], [MERGED, SECOND]));
  }
}
