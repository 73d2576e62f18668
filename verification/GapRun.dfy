/** A run from the empty store in which a manual compaction hides an acknowledged write. */
module GapRun {
  // Keys 1 and 9 are written twice, each write flushed to a table of its own: the old
  // versions go to level 2, the new ones to level 1.  A manual compaction of level 1 takes all
  // four tables.  While it runs, key 5 is written and flushed; its table meets nothing in
  // levels 0 to 2 and goes to level 2.  The output of the compaction spans keys 1 to 9, so
  // level 2 ends up with a table inside another, and the binary search never looks at it.

  import opened InternalKeys
  import opened FlatStore
  import opened Wrappers
  import opened Levels
  import opened LayeredGet
  import opened InputSelection
  import opened CompactionWork
  import opened VersionBuilder
  import opened Layering
  import opened StoreSteps
  import opened StoreRuns
  import opened RunningCompactions
  import BoundaryLeak

  const OLD1 := Entry(InternalKey(1, 1, Value), [10])
  const OLD9 := Entry(InternalKey(9, 2, Value), [20])
  const NEW1 := Entry(InternalKey(1, 3, Value), [11])
  const NEW9 := Entry(InternalKey(9, 4, Value), [21])
  const MIDDLE := Entry(InternalKey(5, 5, Value), [30])

  function Table(number: nat, first: Entry, entries: seq<Entry>, last: Entry): (f: File)
    requires AtMost(first.key, last.key)
  {
    FileMetaData(number, |entries|, first.key, last.key, entries)
  }

  const A: File := Table(0, OLD1, [OLD1], OLD1)
  const B: File := Table(1, OLD9, [OLD9], OLD9)
  const C: File := Table(2, NEW1, [NEW1], NEW1)
  const D: File := Table(3, NEW9, [NEW9], NEW9)
  const OUTPUT: File := Table(4, NEW1, [NEW1, NEW9], NEW9)
  const BETWEEN: File := Table(5, MIDDLE, [MIDDLE], MIDDLE)

  /** Only levels 1 and 2 ever hold files. */
  function Files(one: seq<File>, two: seq<File>): (v: Version)
    ensures v[1] == one && v[2] == two
    ensures forall l :: 0 <= l < NUM_LEVELS && l != 1 && l != 2 ==> v[l] == []
  {
    [[], one, two, [], [], [], []]
  }

  // ---- The steps ----

  lemma One(e: Entry)
    ensures Contents([e]) == {e}
  {
  }

  lemma Put(s: State, e: Entry, s': State)
    requires s.mem == [] && e.key.seqno == s.lastSequence + 1 < MAX_SEQUENCE
    requires s' == s.(mem := [e], lastSequence := s.lastSequence + 1, history := s.history + {e})
    ensures Next(s, Write([e]), s')
  {
    One(e);
  }

  lemma Flush(s: State, level: nat, f: File, s': State)
    requires s.imm == Some(f.entries) && WellFormed(f) && f.number == s.nextFile && CanFlushTo(s.version, level, f)
    requires forall l :: 0 <= l < NUM_LEVELS ==>
      SortedFiles(s'.version[l]) && FileSet(s'.version[l]) == FileSet(s.version[l]) + if l == level then {f} else {}
    requires s' == s.(imm := None, version := s'.version, nextFile := s.nextFile + 1)
    ensures Next(s, FlushMemTable(level, f), s')
  {
    var e := Edit([], [(level, f)]);
    assert e.added[0] == (level, f);
    assert AddedIn(e, level) == {f} && forall l: nat :: DeletedIn(e, l) == {} && (l != level ==> AddedIn(e, l) == {});
  }

  lemma FlushToOne(s: State, f: File, one: seq<File>, two: seq<File>, one': seq<File>, s': State)
    requires s.version == Files(one, two) && s'.version == Files(one', two)
    requires s.imm == Some(f.entries) && WellFormed(f) && f.number == s.nextFile
    requires NoOverlap(one, f.smallest.user, f.largest.user)
    requires SortedFiles(one') && SortedFiles(two) && FileSet(one') == FileSet(one) + {f}
    requires s' == s.(imm := None, version := s'.version, nextFile := s.nextFile + 1)
    ensures Next(s, FlushMemTable(1, f), s')
  {
    Flush(s, 1, f, s');
  }

  lemma FlushToTwo(s: State, f: File, one: seq<File>, two: seq<File>, two': seq<File>, s': State)
    requires s.version == Files(one, two) && s'.version == Files(one, two')
    requires s.imm == Some(f.entries) && WellFormed(f) && f.number == s.nextFile
    requires NoOverlap(one, f.smallest.user, f.largest.user) && NoOverlap(two, f.smallest.user, f.largest.user)
    requires SortedFiles(one) && SortedFiles(two') && FileSet(two') == FileSet(two) + {f}
    requires s' == s.(imm := None, version := s'.version, nextFile := s.nextFile + 1)
    ensures Next(s, FlushMemTable(2, f), s')
  {
    Flush(s, 2, f, s');
  }

  lemma Pair(f: File, g: File)
    ensures FileSet([]) == {} && FileSet([f]) == {f} && FileSet([f, g]) == {f, g}
  {
    assert [f, g][0] == f && [f, g][1] == g;
  }

  lemma Picked(v: Version)
    requires v == Files([C, D], [A, B])
    ensures PickedInputs(v, 1, [C, D], [A, B])
  {
    assert C in [C, D] && D in [C, D] && IsHull([C, D], C.smallest, D.largest);
    FilterOfRun([A, B], Some(1), Some(9), 0, 2);
    assert [A, B][0..2] == [A, B];
    assert IsSlice(v[1], 0, [C, D]);
  }

  lemma FourInputs()
    ensures InputContents([C, D], [A, B]) == {NEW1, OLD1, NEW9, OLD9}
    ensures Contents([NEW1, OLD1, NEW9, OLD9]) == {NEW1, OLD1, NEW9, OLD9}
    ensures Sorted([NEW1, OLD1, NEW9, OLD9])
  {
    BoundaryLeak.ListContents(C, D);
    BoundaryLeak.ListContents(A, B);
    One(NEW1);
    One(NEW9);
    One(OLD1);
    One(OLD9);
    var input := [NEW1, OLD1, NEW9, OLD9];
    assert input[0] == NEW1 && input[1] == OLD1 && input[2] == NEW9 && input[3] == OLD9;
  }

  lemma OldOnesDropped(v: Version)
    requires v == Files([C, D], [A, B])
    ensures DroppedBy(v, 1, {NEW1, OLD1, NEW9, OLD9}, 4) == {OLD1, OLD9}
  {
    var inputs := {NEW1, OLD1, NEW9, OLD9};
    assert Hidden(inputs, 4, OLD1) by { assert NEW1 in inputs; }
    assert Hidden(inputs, 4, OLD9) by { assert NEW9 in inputs; }
  }

  lemma Survive()
    ensures Survivors([NEW1, OLD1, NEW9, OLD9], {OLD1, OLD9}) == [NEW1, NEW9] == Payloads([OUTPUT])
  {
    var dropped := {OLD1, OLD9};
    assert [NEW1, OLD1, NEW9, OLD9][..3] == [NEW1, OLD1, NEW9];
    assert [NEW1, OLD1, NEW9][..2] == [NEW1, OLD1] && [NEW1, OLD1][..1] == [NEW1] && [NEW1][..0] == [];
    assert Survivors([NEW1], dropped) == [NEW1];
    assert Survivors([NEW1, OLD1], dropped) == [NEW1];
    assert Survivors([NEW1, OLD1, NEW9], dropped) == [NEW1, NEW9];
    assert [OUTPUT][..0] == [];
  }

  ghost const JOB := Running(Files([C, D], [A, B]), 1, [C, D], [A, B], 4, [4])
  ghost const END := Act.Finish([NEW1, OLD1, NEW9, OLD9], [OUTPUT])

  lemma MergedFrom(job: Job, input: seq<Entry>, outputs: seq<File>, inputs: set<Entry>, dropped: set<Entry>)
    requires job.Running? && Sorted(input) && Contents(input) == inputs == InputContents(job.in0, job.in1)
    requires DroppedBy(job.base, job.level, inputs, job.snapshot) == dropped
    requires Payloads(outputs) == Survivors(input, dropped) && NumberedBy(outputs, job.numbers)
    ensures MergedBy(job, input, outputs)
  {
  }

  lemma OutputIsNumbered()
    ensures NumberedBy([OUTPUT], [4])
  {
    assert Sorted([NEW1, NEW9]);
  }

  lemma Merges(v: Version)
    requires v == Files([C, D], [A, B])
    ensures MergedBy(Running(v, 1, [C, D], [A, B], 4, [4]), [NEW1, OLD1, NEW9, OLD9], [OUTPUT])
  {
    var job := Running(v, 1, [C, D], [A, B], 4, [4]);
    FourInputs();
    OldOnesDropped(v);
    Survive();
    OutputIsNumbered();
    MergedFrom(job, [NEW1, OLD1, NEW9, OLD9], [OUTPUT], {NEW1, OLD1, NEW9, OLD9}, {OLD1, OLD9});
  }

  lemma EndInstalls(v: Version, v': Version)
    requires v == Files([C, D], [A, BETWEEN, B]) && v' == Files([], [OUTPUT, BETWEEN])
    ensures Installs(v, CompactionEdit(1, [C, D], [A, B], [OUTPUT]), v')
  {
    var e := CompactionEdit(1, [C, D], [A, B], [OUTPUT]);
    EditSets(1, [C, D], [A, B], [OUTPUT]);
    Pair(C, D);
    Pair(A, B);
    Pair(OUTPUT, BETWEEN);
    assert FileSet([A, BETWEEN, B]) == {A, BETWEEN, B};
    assert Numbers({C, D}) == {2, 3} && Numbers({A, B}) == {0, 1} && Numbers({OUTPUT}) == {4};
    forall l | 0 <= l < NUM_LEVELS ensures SortedFiles(v'[l]) && FileSet(v'[l]) == Install(FileSet(v[l]), e, l) {
    }
  }

  // ---- The run ----

  ghost const H1 := {OLD1}
  ghost const H2 := {OLD1, OLD9}
  ghost const H3 := {OLD1, OLD9, NEW1}
  ghost const H4 := {OLD1, OLD9, NEW1, NEW9}
  ghost const H5 := {OLD1, OLD9, NEW1, NEW9, MIDDLE}
  ghost const TAKEN := JOB.(numbers := [])

  ghost const RUN: seq<System> := [
    System(State([], None, Files([], []), 0, 0, [], {}), Idle),
    System(State([OLD1], None, Files([], []), 0, 1, [], H1), Idle),
    System(State([], Some([OLD1]), Files([], []), 0, 1, [], H1), Idle),
    System(State([], None, Files([], [A]), 1, 1, [], H1), Idle),
    System(State([OLD9], None, Files([], [A]), 1, 2, [], H2), Idle),
    System(State([], Some([OLD9]), Files([], [A]), 1, 2, [], H2), Idle),
    System(State([], None, Files([], [A, B]), 2, 2, [], H2), Idle),
    System(State([NEW1], None, Files([], [A, B]), 2, 3, [], H3), Idle),
    System(State([], Some([NEW1]), Files([], [A, B]), 2, 3, [], H3), Idle),
    System(State([], None, Files([C], [A, B]), 3, 3, [], H3), Idle),
    System(State([NEW9], None, Files([C], [A, B]), 3, 4, [], H4), Idle),
    System(State([], Some([NEW9]), Files([C], [A, B]), 3, 4, [], H4), Idle),
    System(State([], None, Files([C, D], [A, B]), 4, 4, [], H4), Idle),
    System(State([], None, Files([C, D], [A, B]), 4, 4, [], H4), TAKEN),
    System(State([], None, Files([C, D], [A, B]), 5, 4, [], H4), JOB),
    System(State([MIDDLE], None, Files([C, D], [A, B]), 5, 5, [], H5), JOB),
    System(State([], Some([MIDDLE]), Files([C, D], [A, B]), 5, 5, [], H5), JOB),
    System(State([], None, Files([C, D], [A, BETWEEN, B]), 6, 5, [], H5), JOB),
    System(State([], None, Files([], [OUTPUT, BETWEEN]), 6, 5, [], H5), Idle)]

  ghost const ACTS: seq<Act> := [
    Foreground(Write([OLD1])), Foreground(SwitchMemTable), Foreground(FlushMemTable(2, A)),
    Foreground(Write([OLD9])), Foreground(SwitchMemTable), Foreground(FlushMemTable(2, B)),
    Foreground(Write([NEW1])), Foreground(SwitchMemTable), Foreground(FlushMemTable(1, C)),
    Foreground(Write([NEW9])), Foreground(SwitchMemTable), Foreground(FlushMemTable(1, D)),
    Begin(1, [C, D], [A, B]), OpenOutput,
    Foreground(Write([MIDDLE])), Foreground(SwitchMemTable), Foreground(FlushMemTable(2, BETWEEN)),
    END]

  lemma Puts(i: nat)
    requires i == 0 || i == 3 || i == 6 || i == 9 || i == 14
    ensures Does(RUN[i], ACTS[i], RUN[i + 1])
  {
    Put(RUN[i].store, ACTS[i].step.batch[0], RUN[i + 1].store);
  }

  lemma Switches(i: nat)
    requires i == 1 || i == 4 || i == 7 || i == 10 || i == 15
    ensures Does(RUN[i], ACTS[i], RUN[i + 1])
  {
  }

  lemma OldFlushes(i: nat)
    requires i == 2 || i == 5
    ensures Does(RUN[i], ACTS[i], RUN[i + 1])
  {
    Pair(A, B);
    if i == 2 {
      FlushToTwo(RUN[2].store, A, [], [], [A], RUN[3].store);
    } else {
      FlushToTwo(RUN[5].store, B, [], [A], [A, B], RUN[6].store);
    }
  }

  lemma NewFlushes(i: nat)
    requires i == 8 || i == 11
    ensures Does(RUN[i], ACTS[i], RUN[i + 1])
  {
    Pair(C, D);
    if i == 8 {
      FlushToOne(RUN[8].store, C, [], [A, B], [C], RUN[9].store);
    } else {
      FlushToOne(RUN[11].store, D, [C], [A, B], [C, D], RUN[12].store);
    }
  }

  lemma FlushBetween()
    ensures Does(RUN[16], ACTS[16], RUN[17])
  {
    Pair(A, B);
    assert FileSet([A, BETWEEN, B]) == {A, BETWEEN, B};
    FlushToTwo(RUN[16].store, BETWEEN, [C, D], [A, B], [A, BETWEEN, B], RUN[17].store);
  }

  lemma Compacts(i: nat)
    requires i == 12 || i == 13 || i == 17
    ensures Does(RUN[i], ACTS[i], RUN[i + 1])
  {
    if i == 12 {
      Picked(RUN[i].store.version);
    } else if i == 13 {
      assert [] + [4] == JOB.numbers;
    } else {
      Merges(JOB.base);
      EndInstalls(RUN[i].store.version, RUN[i + 1].store.version);
    }
  }

  lemma IsARun()
    ensures IsSystemRun(RUN, ACTS)
  {
    forall i | 0 <= i < |ACTS| ensures Does(RUN[i], ACTS[i], RUN[i + 1]) {
      if i == 0 || i == 3 || i == 6 || i == 9 || i == 14 {
        Puts(i);
      } else if i == 1 || i == 4 || i == 7 || i == 10 || i == 15 {
        Switches(i);
      } else if i == 2 || i == 5 {
        OldFlushes(i);
      } else if i == 8 || i == 11 {
        NewFlushes(i);
      } else if i == 16 {
        FlushBetween();
      } else {
        Compacts(i);
      }
    }
  }

  /** The search of level 2 ends on the wide table. */
  lemma SearchMisses()
    ensures LevelProbe([OUTPUT, BETWEEN], 5, 5) == None
  {
    var files, key := [OUTPUT, BETWEEN], LookupKey(5, 5);
    assert SearchFrom(files, key, 0, 0) == 0;
    assert SearchFrom(files, key, 0, 1) == 0;
    assert SearchFrom(files, key, 0, 2) == 0;
    assert OUTPUT.entries[1..] == [NEW9];
  }

  lemma LookupMisses(v: Version)
    requires v == Files([], [OUTPUT, BETWEEN])
    ensures DeepProbe(v, 5, 5, 1) == None
  {
    SearchMisses();
    forall l | 1 <= l < NUM_LEVELS ensures LevelProbe(v[l], 5, 5) == None {
    }
    NoHits(v, 5, 5, 1);
  }

  lemma {:induction false} NoHits(v: Version, user: UserKey, s: SequenceNumber, level: nat)
    requires 1 <= level <= NUM_LEVELS && forall l :: 1 <= l < NUM_LEVELS ==> LevelProbe(v[l], user, s) == None
    ensures DeepProbe(v, user, s, level) == None
    decreases NUM_LEVELS - level
  {
    if level < NUM_LEVELS {
      NoHits(v, user, s, level + 1);
    }
  }

  lemma HistoryHasKey(history: set<Entry>)
    requires history == H5
    ensures Read(history, 5, 5) == Some([30])
  {
    assert Visible(history, 5, 5, MIDDLE);
    assert Newest(history, 5, 5, MIDDLE);
    ReadNewest(history, 5, 5, MIDDLE);
  }

  /** Key 5 was written and nothing written later concerns it; at the end no memtable and no
      file of level 0 exists, and the search of the deeper levels does not find it. */
  lemma AcknowledgedWriteIsHidden()
    ensures IsSystemRun(RUN, ACTS)
    ensures var s := RUN[18].store; Read(s.history, 5, 5) == Some([30])
    ensures var s := RUN[18].store;
      s.mem == [] && s.imm.None? && s.version[0] == [] && DeepProbe(s.version, 5, 5, 1) == None
  {
    IsARun();
    HistoryHasKey(RUN[18].store.history);
    LookupMisses(RUN[18].store.version);
  }
}
