/** The background thread's work, put together: each turn of it is one step of the store. */
module BackgroundWork {
  import opened InternalKeys
  import opened FlatStore
  import opened Wrappers
  import opened Levels
  import opened LayeredGet
  import opened InputSelection
  import opened CompactionWork
  import opened OutputCuts
  import opened VersionBuilder
  import opened Layering
  import opened StoreSteps
  import opened Cursors
  import opened MergingIterators
  import opened StoreIterators

  // ---- The iterator over a compaction's inputs ----

  /** One child per level-0 file, and one concatenation for the files of a deeper level. */
  function LevelInputRuns(level: nat, files: seq<File>): (r: seq<seq<Entry>>) {
    if files == [] then [] else if level == 0 then FileRuns(files) else [Payloads(files)]
  }

  function InputRuns(level: nat, in0: seq<File>, in1: seq<File>): (r: seq<seq<Entry>>) {
    LevelInputRuns(level, in0) + LevelInputRuns(level + 1, in1)
  }

  lemma {:induction false} OverlapSorted(files: seq<File>, lo: Bound, hi: Bound)
    requires SortedFiles(files)
    ensures SortedFiles(OverlappingFiles(files, lo, hi))
  {
    if files != [] {
      var n := |files| - 1;
      var front := OverlappingFiles(files[..n], lo, hi);
      OverlapSorted(files[..n], lo, hi);
      OverlapMembers(files[..n], lo, hi);
      forall i | 0 <= i < |front| ensures FileLess(front[i], files[n]) {
        assert front[i] in front && front[i] in files[..n];
      }
    }
  }

  /** The inputs are listed without repetition, in the order of their level. */
  lemma SeedIsSorted(files: seq<File>, level: nat, inputs: seq<File>)
    requires SortedFiles(files) && Seed(files, level, inputs)
    ensures SortedFiles(inputs)
    ensures level > 0 && SortedDisjoint(files) ==> SortedDisjoint(inputs)
  {
    if level == 0 {
      var lo, hi :| Closed(files, lo, hi) && inputs == OverlappingFiles(files, lo, hi);
      OverlapSorted(files, lo, hi);
    } else {
      var a: nat :| IsSlice(files, a, inputs);
    }
  }

  lemma FileRunsUnion(files: seq<File>)
    ensures Union(FileRuns(files)) == LevelContents(files)
  {
    var runs := FileRuns(files);
    forall e | e in LevelContents(files) ensures e in Union(runs) {
      var f :| f in files && e in f.entries;
      var i :| 0 <= i < |files| && files[i] == f;
      var j :| 0 <= j < |f.entries| && f.entries[j] == e;
      assert runs[i][j] == e;
    }
    forall e | e in Union(runs) ensures e in LevelContents(files) {
      var i, j :| 0 <= i < |runs| && 0 <= j < |runs[i]| && runs[i][j] == e;
      assert files[i] in files && e in files[i].entries;
    }
  }

  lemma LevelZeroRuns(v: Version, inputs: seq<File>)
    requires LayeredVersion(v) && SortedFiles(inputs) && forall f :: f in inputs ==> f in v[0]
    ensures Mergeable(FileRuns(inputs))
  {
    forall i | 0 <= i < |inputs| ensures Sorted(inputs[i].entries) {
      assert inputs[i] in inputs && inputs[i] in v[0] && WellFormed(inputs[i]);
    }
    forall i, j | 0 <= i < j < |inputs| ensures Keys(inputs[i].entries) !! Keys(inputs[j].entries) {
      LevelZeroFilesApart(v, inputs[i], inputs[j]);
    }
  }

  lemma LevelZeroFilesApart(v: Version, f: File, g: File)
    requires LayeredVersion(v) && f in v[0] && g in v[0] && FileLess(f, g)
    ensures KeysApart(f.entries, g.entries)
  {
    assert f != g;
    assert OlderFile(f, g) || OlderFile(g, f);
    NewerIsApart(f.entries, g.entries);
  }

  lemma DeeperRun(files: seq<File>)
    requires SortedDisjoint(files) && forall f :: f in files ==> WellFormed(f)
    ensures Mergeable([Payloads(files)]) && Union([Payloads(files)]) == LevelContents(files)
  {
    LevelRunSorted(files);
    PayloadContents(files);
    var run := Payloads(files);
    assert [run][0] == run;
    assert Union([run]) == Contents(run);
  }

  lemma LevelInputsMerge(v: Version, level: nat, inputs: seq<File>)
    requires LayeredVersion(v) && level < NUM_LEVELS && SortedFiles(inputs) && forall f :: f in inputs ==> f in v[level]
    requires level > 0 ==> SortedDisjoint(inputs)
    ensures Mergeable(LevelInputRuns(level, inputs))
    ensures Union(LevelInputRuns(level, inputs)) == LevelContents(inputs)
  {
    if inputs != [] && level == 0 {
      LevelZeroRuns(v, inputs);
      FileRunsUnion(inputs);
    } else if inputs != [] {
      DeeperRun(inputs);
    }
  }

  lemma JoinRuns(a: seq<seq<Entry>>, b: seq<seq<Entry>>)
    requires Mergeable(a) && Mergeable(b)
    requires forall e, f :: e in Union(a) && f in Union(b) ==> e.key != f.key
    ensures Mergeable(a + b) && Union(a + b) == Union(a) + Union(b)
  {
    forall e | e in Union(a) + Union(b) ensures e in Union(a + b) {
      if e in Union(a) {
        var i, j :| 0 <= i < |a| && 0 <= j < |a[i]| && a[i][j] == e;
        assert (a + b)[i][j] == e;
      } else {
        var i, j :| 0 <= i < |b| && 0 <= j < |b[i]| && b[i][j] == e;
        assert (a + b)[|a| + i][j] == e;
      }
    }
    forall i, j | 0 <= i < |a| && 0 <= j < |b| ensures Keys(a[i]) !! Keys(b[j]) {
      assert forall p :: 0 <= p < |a[i]| ==> a[i][p] in Union(a);
      assert forall p :: 0 <= p < |b[j]| ==> b[j][p] in Union(b);
    }
  }

  lemma FirstInputsMerge(v: Version, level: nat, in0: seq<File>)
    requires LayeredVersion(v) && level < NUM_LEVELS && SortedFiles(v[level]) && Seed(v[level], level, in0)
    requires forall f :: f in in0 ==> f in v[level]
    ensures Mergeable(LevelInputRuns(level, in0)) && Union(LevelInputRuns(level, in0)) == LevelContents(in0)
  {
    SeedIsSorted(v[level], level, in0);
    LevelInputsMerge(v, level, in0);
  }

  lemma NextInputsMerge(v: Version, level: nat, in0: seq<File>, in1: seq<File>)
    requires LayeredVersion(v) && PickedInputs(v, level, in0, in1) && SortedFiles(v[level + 1])
    requires forall f :: f in in1 ==> f in v[level + 1]
    ensures Mergeable(LevelInputRuns(level + 1, in1)) && Union(LevelInputRuns(level + 1, in1)) == LevelContents(in1)
  {
    NextInputsSorted(v, level, in0, in1);
    LevelInputsMerge(v, level + 1, in1);
  }

  lemma LevelKeysApart(v: Version, level: nat, a: set<Entry>, b: set<Entry>)
    requires LayeredVersion(v) && level + 1 < NUM_LEVELS && a <= LevelContents(v[level])
    requires b <= LevelContents(v[level + 1])
    ensures forall e, f :: e in a && f in b ==> e.key != f.key
  {
    NewerParts(LevelContents(v[level]), LevelContents(v[level + 1]), a, b);
  }

  /** The children of the input iterator can be merged, and hold exactly the inputs. */
  lemma InputsMerge(v: Version, level: nat, in0: seq<File>, in1: seq<File>)
    requires LayeredVersion(v) && (forall l :: 0 <= l < NUM_LEVELS ==> SortedFiles(v[l]))
    requires PickedInputs(v, level, in0, in1)
    ensures Mergeable(InputRuns(level, in0, in1))
    ensures Union(InputRuns(level, in0, in1)) == InputContents(in0, in1)
  {
    PickedIsGood(v, level, in0, in1);
    NextLevelInputsInLevel(v, level, in0, in1);
    FirstInputsMerge(v, level, in0);
    NextInputsMerge(v, level, in0, in1);
    LevelKeysApart(v, level, LevelContents(in0), LevelContents(in1));
    JoinRuns(LevelInputRuns(level, in0), LevelInputRuns(level + 1, in1));
  }

  lemma NextInputsSorted(v: Version, level: nat, in0: seq<File>, in1: seq<File>)
    requires PickedInputs(v, level, in0, in1) && SortedFiles(v[level + 1]) && SortedDisjoint(v[level + 1])
    ensures SortedFiles(in1) && SortedDisjoint(in1)
  {
    var lo, hi :| IsHull(in0, lo, hi) && in1 == OverlappingFiles(v[level + 1], Some(lo.user), Some(hi.user));
    OverlapSorted(v[level + 1], Some(lo.user), Some(hi.user));
    var a := OverlapIsSlice(v[level + 1], Some(lo.user), Some(hi.user));
  }

  // ---- Draining it ----

  /** `input` is the part of `all` left of the cut, in order. */
  ghost predicate Drained(all: set<Entry>, cut: Cut, input: seq<Entry>) {
    Sorted(input) && forall e :: e in input <==> e in all && Below(e.key, cut)
  }

  lemma DrainOne(all: set<Entry>, cut: Cut, input: seq<Entry>, e: Entry)
    requires Distinct(all) && Drained(all, cut, input) && FirstAfter(all, cut, Some(e))
    ensures Drained(all, JustAfter(e.key), input + [e])
    ensures e !in Contents(input) && e in all
  {
    assert e !in input;
    forall f | f in input ensures Before(f.key, e.key) {
      BelowBefore(f.key, e.key, cut);
    }
    forall f | f in all && !Below(f.key, cut) && AtMost(f.key, e.key) ensures f == e {
      assert AtMost(e.key, f.key);
    }
  }

  lemma BelowBefore(a: InternalKey, b: InternalKey, cut: Cut)
    requires Below(a, cut) && !Below(b, cut)
    ensures Before(a, b)
  {
    BeforeIsTotal(a, b);
  }

  /** Reads one entry and moves on. */
  method TakeOne(it: MergingIterator, ghost all: set<Entry>, ghost cut: Cut) returns (e: Entry)
    requires it.Consistent() && it.current.Some? && all == Union(it.runs)
    requires FirstAfter(all, cut, it.Current())
    modifies it
    ensures it.Consistent() && FirstAfter(all, cut, Some(e)) && FirstAfter(all, JustAfter(e.key), it.Current())
  {
    e := it.children[it.current.value].Current();
    it.Next();
  }

  lemma OneFewer(all: set<Entry>, input: seq<Entry>, e: Entry)
    requires e in all && e !in Contents(input)
    ensures |all - Contents(input + [e])| < |all - Contents(input)|
  {
    assert all - Contents(input + [e]) == (all - Contents(input)) - {e};
  }

  lemma AllDrained(all: set<Entry>, cut: Cut, input: seq<Entry>)
    requires Drained(all, cut, input) && FirstAfter(all, cut, None)
    ensures Sorted(input) && Contents(input) == all
  {
  }

  /** Reads the merged inputs from first to last. */
  method Drain(it: MergingIterator, ghost all: set<Entry>) returns (input: seq<Entry>)
    requires it.Consistent() && all == Union(it.runs) && Distinct(all)
    modifies it
    ensures Sorted(input) && Contents(input) == all
  {
    input := [];
    ghost var cut := Bottom;
    it.SeekToFirst();
    while it.current.Some?
      invariant it.Consistent() && FirstAfter(all, cut, it.Current())
      invariant Drained(all, cut, input)
      decreases |all - Contents(input)|
    {
      var e := TakeOne(it, all, cut);
      DrainOne(all, cut, input, e);
      OneFewer(all, input, e);
      input := input + [e];
      cut := JustAfter(e.key);
    }
    AllDrained(all, cut, input);
  }

  /** Makes the iterator over the runs and reads it to the end. */
  method DrainRuns(runs: seq<seq<Entry>>, ghost all: set<Entry>) returns (input: seq<Entry>)
    requires Mergeable(runs) && Union(runs) == all && Distinct(all)
    ensures Sorted(input) && Contents(input) == all
  {
    var children := seq(|runs|, i requires 0 <= i < |runs| => Cursor(runs[i], -1));
    assert seq(|children|, i requires 0 <= i < |children| => children[i].run) == runs;
    var it := new MergingIterator(children);
    input := Drain(it, all);
  }

  // ---- A compaction ----

  lemma VersionFacts(s: State)
    requires Structured(s)
    ensures LayeredVersion(s.version) && VersionOk(s.version, s.nextFile)
    ensures Oldest(s) < MAX_SEQUENCE
  {
  }

  lemma OutputsAreNew(v: Version, n: nat, level: nat, in0: seq<File>, in1: seq<File>, outputs: seq<File>)
    requires VersionOk(v, n) && level + 1 < NUM_LEVELS && Numbered(outputs, n)
    ensures var e := CompactionEdit(level, in0, in1, outputs);
            ValidEdit(e) && forall l :: 0 <= l < NUM_LEVELS ==> Installable(v[l], AddedIn(e, l))
  {
    var e := CompactionEdit(level, in0, in1, outputs);
    OutputNumbers(v, outputs, n);
    EditSets(level, in0, in1, outputs);
    forall l | 0 <= l < NUM_LEVELS ensures Installable(v[l], AddedIn(e, l)) {
      assert AddedIn(e, l) == (if l == level + 1 then FileSet(outputs) else {});
    }
  }

  /** The files are new to the level, and their numbers too. */
  ghost predicate Installable(files: seq<File>, added: set<File>) {
    FileSet(files) !! added && SameMetadata(FileSet(files) + added)
  }

  lemma InputsAreDistinct(v: Version, level: nat, in0: seq<File>, in1: seq<File>)
    requires Distinct(VersionContents(v)) && PickedInputs(v, level, in0, in1)
    ensures Distinct(InputContents(in0, in1))
  {
    PickedIsGood(v, level, in0, in1);
    InputsInVersion(v, level, in0, in1);
  }

  lemma VersionInputs(v: Version, level: nat, in0: seq<File>, in1: seq<File>)
    requires LayeredVersion(v) && (forall l :: 0 <= l < NUM_LEVELS ==> SortedFiles(v[l]))
    requires PickedInputs(v, level, in0, in1)
    ensures Mergeable(InputRuns(level, in0, in1))
    ensures Union(InputRuns(level, in0, in1)) == InputContents(in0, in1)
    ensures Distinct(InputContents(in0, in1))
  {
    InputsMerge(v, level, in0, in1);
    InputsAreDistinct(v, level, in0, in1);
  }

  /** The inputs in one sorted run. */
  method MergedInputs(v: Version, level: nat, in0: seq<File>, in1: seq<File>) returns (input: seq<Entry>)
    requires LayeredVersion(v) && (forall l :: 0 <= l < NUM_LEVELS ==> SortedFiles(v[l]))
    requires PickedInputs(v, level, in0, in1)
    ensures Sorted(input) && Contents(input) == InputContents(in0, in1) && Distinct(Contents(input))
  {
    VersionInputs(v, level, in0, in1);
    input := DrainRuns(InputRuns(level, in0, in1), InputContents(in0, in1));
  }

  lemma PickedMergesInputs(
    v: Version, n: nat, snapshot: SequenceNumber, level: nat, in0: seq<File>, in1: seq<File>, input: seq<Entry>,
    outputs: seq<File>)
    requires LayeredVersion(v) && NumbersBelow(v, n) && PickedInputs(v, level, in0, in1)
    requires Sorted(input) && Contents(input) == InputContents(in0, in1)
    requires Payloads(outputs) == Survivors(input, DroppedBy(v, level, Contents(input), snapshot))
    requires Numbered(outputs, n)
    ensures MergesInputs(v, n + |outputs|, snapshot, level, in0, in1, input, outputs)
  {
    PickedIsGood(v, level, in0, in1);
    OutputNumbers(v, outputs, n);
    PayloadContents(outputs);
    SurvivorsContents(input, DroppedBy(v, level, Contents(input), snapshot));
    BeyondOutputsClear(v, level, in0, in1, outputs);
  }

  method Merge(
    v: Version, n: nat, snapshot: SequenceNumber, level: nat, in0: seq<File>, in1: seq<File>,
    grandparents: seq<File>, limits: Limits, tableSize: seq<Entry> -> nat)
    returns (input: seq<Entry>, outputs: seq<File>)
    requires LayeredVersion(v) && VersionOk(v, n) && snapshot < MAX_SEQUENCE && PickedInputs(v, level, in0, in1)
    requires SortedDisjoint(grandparents)
    ensures MergesInputs(v, n + |outputs|, snapshot, level, in0, in1, input, outputs) && Numbered(outputs, n)
    ensures CutWell(grandparents, limits, outputs)
  {
    input := MergedInputs(v, level, in0, in1);
    outputs := DoCompactionWork(v, level, grandparents, input, snapshot, n, limits, tableSize);
    PickedMergesInputs(v, n, snapshot, level, in0, in1, input, outputs);
  }

  method InstallOutputs(v: Version, n: nat, level: nat, in0: seq<File>, in1: seq<File>, outputs: seq<File>)
    returns (v': Version)
    requires VersionOk(v, n) && level + 1 < NUM_LEVELS && Numbered(outputs, n)
    ensures Installs(v, CompactionEdit(level, in0, in1, outputs), v')
  {
    OutputsAreNew(v, n, level, in0, in1, outputs);
    v' := InstallEdit(v, CompactionEdit(level, in0, in1, outputs));
  }

  method CompactVersion(
    v: Version, n: nat, snapshot: SequenceNumber, level: nat, in0: seq<File>, in1: seq<File>,
    grandparents: seq<File>, limits: Limits, tableSize: seq<Entry> -> nat)
    returns (input: seq<Entry>, outputs: seq<File>, v': Version)
    requires LayeredVersion(v) && VersionOk(v, n) && snapshot < MAX_SEQUENCE
    requires PickedInputs(v, level, in0, in1) && AreGrandparents(v, level, in0, in1, grandparents)
    requires forall l :: 1 <= l < NUM_LEVELS ==> SortedDisjoint(v[l])
    ensures MergesInputs(v, n + |outputs|, snapshot, level, in0, in1, input, outputs)
    ensures Installs(v, CompactionEdit(level, in0, in1, outputs), v')
    ensures Tidy(v, level, in0, in1, limits, outputs)
  {
    GrandparentsAreSorted(v, level, in0, in1, grandparents);
    InputsAreWellFormed(v, level, in0, in1);
    input, outputs := Merge(v, n, snapshot, level, in0, in1, grandparents, limits, tableSize);
    v' := InstallOutputs(v, n, level, in0, in1, outputs);
    OutputsAreTidy(v, n + |outputs|, snapshot, level, in0, in1, input, outputs, grandparents, limits);
  }

  lemma CompactIsStep(
    s: State, level: nat, in0: seq<File>, in1: seq<File>, input: seq<Entry>, outputs: seq<File>, v: Version)
    requires MergesInputs(s.version, s.nextFile + |outputs|, Oldest(s), level, in0, in1, input, outputs)
    requires Installs(s.version, CompactionEdit(level, in0, in1, outputs), v)
    ensures Next(s, Compact(level, in0, in1, Oldest(s), input, outputs),
                 s.(version := v, nextFile := s.nextFile + |outputs|))
  {
  }

  /** Merges the inputs into new tables and installs the result. */
  method MergeAndInstall(
    s: State, level: nat, in0: seq<File>, in1: seq<File>, grandparents: seq<File>, limits: Limits,
    tableSize: seq<Entry> -> nat)
    returns (s': State, step: Step)
    requires Structured(s) && PickedInputs(s.version, level, in0, in1)
    requires AreGrandparents(s.version, level, in0, in1, grandparents)
    ensures Next(s, step, s') && step.Compact? && step.into == level && step.in0 == in0 && step.in1 == in1
    ensures step.snapshot == Oldest(s) && Tidy(s.version, level, in0, in1, limits, step.outputs)
  {
    VersionFacts(s);
    LevelsAreSorted(s);
    var input, outputs, v := CompactVersion(
      s.version, s.nextFile, Oldest(s), level, in0, in1, grandparents, limits, tableSize);
    CompactIsStep(s, level, in0, in1, input, outputs, v);
    s' := s.(version := v, nextFile := s.nextFile + |outputs|);
    step := Compact(level, in0, in1, Oldest(s), input, outputs);
  }

  // ---- Grandparents ----

  /** The files two levels down that meet the range of the inputs. */
  ghost predicate AreGrandparents(
    v: Version, level: nat, in0: seq<File>, in1: seq<File>, grandparents: seq<File>)
  {
    if level + 2 < NUM_LEVELS then
      exists lo, hi ::
        && IsHull(in0 + in1, lo, hi)
        && grandparents == OverlappingFiles(v[level + 2], Some(lo.user), Some(hi.user))
    else grandparents == []
  }

  lemma GrandparentsAreSorted(v: Version, level: nat, in0: seq<File>, in1: seq<File>, grandparents: seq<File>)
    requires AreGrandparents(v, level, in0, in1, grandparents)
    requires forall l :: 1 <= l < NUM_LEVELS ==> SortedDisjoint(v[l])
    ensures SortedDisjoint(grandparents)
  {
    if level + 2 < NUM_LEVELS {
      var lo, hi :| IsHull(in0 + in1, lo, hi)
        && grandparents == OverlappingFiles(v[level + 2], Some(lo.user), Some(hi.user));
      var a := OverlapIsSlice(v[level + 2], Some(lo.user), Some(hi.user));
    }
  }

  method Grandparents(v: Version, level: nat, in0: seq<File>, in1: seq<File>) returns (grandparents: seq<File>)
    requires in0 != []
    ensures AreGrandparents(v, level, in0, in1, grandparents)
  {
    grandparents := [];
    if level + 2 < NUM_LEVELS {
      var allStart, allLimit := GetRange(in0 + in1);
      ghost var lo, hi;
      grandparents, lo, hi := GetOverlappingInputs(
        false, v[level + 2], Some(allStart.user), Some(allLimit.user));
    }
  }

  lemma {:induction false} SliceSizes(files: seq<File>, a: nat, r: seq<File>, n: nat)
    requires IsSlice(files, a, r) && n <= |r|
    ensures SizeOfFirst(files, a + n) == SizeOfFirst(files, a) + SizeOfFirst(r, n)
  {
    if n > 0 {
      SliceSizes(files, a, r, n - 1);
      OneMoreSize(files, a + n - 1);
      OneMoreSize(r, n - 1);
    }
  }

  /** Meeting few grandparents is meeting few files of their level. */
  lemma FewOfTheLevel(files: seq<File>, lo: UserKey, hi: UserKey, maxBytes: nat, entries: seq<Entry>)
    requires SortedDisjoint(files) && MeetsFew(OverlappingFiles(files, Some(lo), Some(hi)), maxBytes, entries)
    requires lo <= entries[0].key.user && entries[|entries| - 1].key.user <= hi
    ensures MeetsFew(files, maxBytes, entries)
  {
    var picked := OverlappingFiles(files, Some(lo), Some(hi));
    var at := OverlapIsSlice(files, Some(lo), Some(hi));
    var a: nat, b: nat :| MeetsWithin(picked, maxBytes, entries, a, b);
    OverlapMembers(files, Some(lo), Some(hi));
    SliceSizes(files, at, picked, a);
    SliceSizes(files, at, picked, b);
    forall m | 0 <= m < |files| && Meets(files[m], entries)
      ensures at + a <= m <= at + b
    {
      assert Overlaps(files[m], Some(lo), Some(hi));
      var j :| 0 <= j < |picked| && picked[j] == files[m];
      SameIndex(files, at + j, m);
    }
    assert MeetsWithin(files, maxBytes, entries, at + a, at + b);
  }

  lemma SameIndex(files: seq<File>, i: nat, j: nat)
    requires SortedDisjoint(files) && i < |files| && j < |files| && files[i] == files[j]
    ensures i == j
  {
  }

  lemma InHull(in0: seq<File>, in1: seq<File>, lo: InternalKey, hi: InternalKey, e: Entry)
    requires IsHull(in0 + in1, lo, hi) && e in InputContents(in0, in1)
    requires forall g :: g in in0 || g in in1 ==> WellFormed(g)
    ensures lo.user <= e.key.user <= hi.user
  {
    var g :| (g in in0 || g in in1) && e in g.entries;
    EntryInRange(g, e);
    assert g in in0 + in1;
  }

  /** Every output meets few files two levels down, so that a later compaction of it stays small. */
  lemma OutputsMeetFew(
    v: Version, level: nat, in0: seq<File>, in1: seq<File>, grandparents: seq<File>, limits: Limits, f: File)
    requires AreGrandparents(v, level, in0, in1, grandparents) && level + 2 < NUM_LEVELS && SortedDisjoint(v[level + 2])
    requires forall g :: g in in0 || g in in1 ==> WellFormed(g)
    requires WellFormed(f) && forall e :: e in f.entries ==> e in InputContents(in0, in1)
    requires WellCut(grandparents, limits, f.entries)
    ensures MeetsFew(v[level + 2], limits.maxGrandparentBytes, f.entries)
  {
    var lo, hi :| IsHull(in0 + in1, lo, hi)
      && grandparents == OverlappingFiles(v[level + 2], Some(lo.user), Some(hi.user));
    InHull(in0, in1, lo, hi, f.entries[0]);
    InHull(in0, in1, lo, hi, f.entries[|f.entries| - 1]);
    FewOfTheLevel(v[level + 2], lo.user, hi.user, limits.maxGrandparentBytes, f.entries);
  }

  /** The tables of a compaction, cut where the limits say so. */
  ghost predicate Tidy(
    v: Version, level: nat, in0: seq<File>, in1: seq<File>, limits: Limits, outputs: seq<File>)
  {
    && (forall f :: f in outputs ==> NotOverfull(limits, f.entries))
    && (level + 2 < NUM_LEVELS ==>
          forall f :: f in outputs ==> MeetsFew(v[level + 2], limits.maxGrandparentBytes, f.entries))
    && exists g :: AreGrandparents(v, level, in0, in1, g) && FewShort(g, limits, outputs)
  }

  lemma OutputIsOfInputs(
    v: Version, n: nat, snapshot: SequenceNumber, level: nat, in0: seq<File>, in1: seq<File>, input: seq<Entry>,
    outputs: seq<File>, f: File)
    requires MergesInputs(v, n, snapshot, level, in0, in1, input, outputs) && f in outputs
    ensures WellFormed(f) && forall e :: e in f.entries ==> e in InputContents(in0, in1)
  {
    PayloadContents(outputs);
    SurvivorsContents(input, DroppedBy(v, level, Contents(input), snapshot));
    forall e | e in f.entries ensures e in InputContents(in0, in1) {
      assert e in LevelContents(outputs);
      assert e in Contents(input);
    }
  }

  lemma InputsAreWellFormed(v: Version, level: nat, in0: seq<File>, in1: seq<File>)
    requires LayeredVersion(v) && PickedInputs(v, level, in0, in1)
    ensures forall g :: g in in0 || g in in1 ==> WellFormed(g)
  {
    PickedIsGood(v, level, in0, in1);
    forall g | g in in0 || g in in1 ensures WellFormed(g) {
      assert g in v[level] || g in v[level + 1];
    }
  }

  lemma OutputsAreTidy(
    v: Version, n: nat, snapshot: SequenceNumber, level: nat, in0: seq<File>, in1: seq<File>, input: seq<Entry>,
    outputs: seq<File>, grandparents: seq<File>, limits: Limits)
    requires MergesInputs(v, n, snapshot, level, in0, in1, input, outputs)
    requires forall g :: g in in0 || g in in1 ==> WellFormed(g)
    requires level + 2 < NUM_LEVELS ==> SortedDisjoint(v[level + 2])
    requires AreGrandparents(v, level, in0, in1, grandparents) && CutWell(grandparents, limits, outputs)
    ensures Tidy(v, level, in0, in1, limits, outputs)
  {
    forall f | f in outputs
      ensures NotOverfull(limits, f.entries)
      ensures level + 2 < NUM_LEVELS ==> MeetsFew(v[level + 2], limits.maxGrandparentBytes, f.entries)
    {
      assert WellCut(grandparents, limits, f.entries);
      OutputIsOfInputs(v, n, snapshot, level, in0, in1, input, outputs, f);
      if level + 2 < NUM_LEVELS {
        OutputsMeetFew(v, level, in0, in1, grandparents, limits, f);
      }
    }
  }

  /** A single input that meets nothing below it changes level without being rewritten. */
  method MoveFile(s: State, level: nat, f: File) returns (s': State, step: Step)
    requires Structured(s) && PickedInputs(s.version, level, [f], [])
    ensures Next(s, step, s') && step == TrivialMove(level, f)
  {
    VersionFacts(s);
    PickedIsGood(s.version, level, [f], []);
    assert f in [f];
    MovedIsNew(s.version, s.nextFile, level, f);
    var v := InstallEdit(s.version, CompactionEdit(level, [f], [], [f]));
    s', step := s.(version := v), TrivialMove(level, f);
  }

  lemma MovedIsNew(v: Version, n: nat, level: nat, f: File)
    requires VersionOk(v, n) && level + 1 < NUM_LEVELS && f in v[level]
    ensures var e := CompactionEdit(level, [f], [], [f]);
            ValidEdit(e) && forall l :: 0 <= l < NUM_LEVELS ==> Installable(v[l], AddedIn(e, l))
  {
    var e := CompactionEdit(level, [f], [], [f]);
    EditSets(level, [f], [], [f]);
    assert FileSet([f]) == {f};
    forall l | 0 <= l < NUM_LEVELS ensures Installable(v[l], AddedIn(e, l)) {
      assert AddedIn(e, l) == (if l == level + 1 then {f} else {});
    }
  }

  // ---- A memtable ----

  lemma FlushIsNew(v: Version, n: nat, level: nat, f: File)
    requires VersionOk(v, n) && level < NUM_LEVELS && f.number == n
    ensures ValidEdit(Edit([], [(level, f)]))
    ensures forall l :: 0 <= l < NUM_LEVELS ==> Installable(v[l], AddedIn(Edit([], [(level, f)]), l))
  {
    forall l | 0 <= l < NUM_LEVELS ensures Installable(v[l], AddedIn(Edit([], [(level, f)]), l)) {
      assert AddedIn(Edit([], [(level, f)]), l) <= {f};
    }
  }

  /** The memtable's table goes to the level that the rules pick for its range. */
  ghost predicate FlushOf(s: State, maxGrandparentBytes: nat, step: Step) {
    && step.FlushMemTable? && s.imm.Some? && step.table.entries == s.imm.value
    && PicksLevel(s.version, step.table.smallest.user, step.table.largest.user, maxGrandparentBytes, step.level)
  }

  /** Writes the immutable memtable to a table, unless it is empty, and installs it. */
  method CompactMemTable(s: State, tableSize: seq<Entry> -> nat, maxGrandparentBytes: nat)
    returns (s': State, step: Step)
    requires Structured(s) && s.imm.Some?
    ensures Next(s, step, s') && s'.imm.None?
    ensures if s.imm.value == [] then step.DropEmptyMemTable? else FlushOf(s, maxGrandparentBytes, step)
  {
    if s.imm.value == [] {
      s', step := s.(imm := None), DropEmptyMemTable;
    } else {
      VersionFacts(s);
      var f := MakeFile(s.nextFile, s.imm.value, tableSize);
      var level := PickLevelForMemTableOutput(s.version, f.smallest.user, f.largest.user, maxGrandparentBytes);
      FlushIsNew(s.version, s.nextFile, level, f);
      var v := InstallEdit(s.version, Edit([], [(level, f)]));
      s' := s.(imm := None, version := v, nextFile := s.nextFile + 1);
      step := FlushMemTable(level, f);
    }
  }

  // ---- One turn of the background thread ----

  /** An automatic compaction starts from one file, a manual one from a range of user keys. */
  datatype Request = Automatic(level: nat, file: File) | Manual(level: nat, begin: Bound, end: Bound)

  ghost predicate ValidRequest(v: Version, r: Request) {
    r.level + 1 < NUM_LEVELS && (r.Automatic? ==> r.file in v[r.level])
  }

  /** The range that a request asks for. */
  function RangeOf(r: Request): (b: (Bound, Bound)) {
    if r.Automatic? then (Some(r.file.smallest.user), Some(r.file.largest.user)) else (r.begin, r.end)
  }

  /** What a request starts from: in level 0 all files of the least closed range around its range; in a deeper
      level the file alone, or the files that meet the range, up to the one that reaches the size limit. */
  ghost predicate StartsFrom(v: Version, r: Request, limit: nat, inputs: seq<File>) {
    && r.level < NUM_LEVELS
    && if r.level == 0 then Around(v[0], 0, RangeOf(r).0, RangeOf(r).1, inputs)
       else if r.Automatic? then inputs == [r.file]
       else TakenUpTo(OverlappingFiles(v[r.level], r.begin, r.end), limit, inputs)
  }

  /** `r` is the part of `files` up to and including the first one with which the total reaches the limit. */
  ghost predicate TakenUpTo(files: seq<File>, limit: nat, r: seq<File>) {
    && r <= files && (files != [] ==> r != [])
    && (forall k :: 0 < k < |r| ==> TotalFileSize(r[..k]) < limit)
    && (r != files ==> TotalFileSize(r) >= limit)
  }

  /** The files a compaction starts from; none if the range meets no file. */
  method FirstInputs(v: Version, r: Request, limit: nat) returns (inputs: seq<File>)
    requires ValidRequest(v, r) && forall l :: 1 <= l < NUM_LEVELS ==> SortedDisjoint(v[l])
    ensures StartsFrom(v, r, limit, inputs)
    ensures inputs != [] ==> Seed(v[r.level], r.level, inputs)
    ensures r.Automatic? ==> r.file in inputs && Connected(inputs, [])
    ensures inputs == [] ==> r.Manual? && forall f :: f in v[r.level] ==> !Overlaps(f, r.begin, r.end)
  {
    var files := v[r.level];
    if r.Automatic? && r.level > 0 {
      inputs := [r.file];
      ghost var i: nat :| i < |files| && files[i] == r.file;
      assert IsSlice(files, i, inputs);
      OneIsConnected(r.file);
    } else {
      var begin, end := if r.Automatic? then Some(r.file.smallest.user) else r.begin,
        if r.Automatic? then Some(r.file.largest.user) else r.end;
      ghost var lo, hi;
      inputs, lo, hi := GetOverlappingInputs(r.level == 0, files, begin, end);
      OverlapMembers(files, lo, hi);
      Picked(files, begin, end, lo, hi);
      if r.Automatic? {
        OneIsConnected(r.file);
        GrownConnects(files, [r.file], [], r.file.smallest.user, r.file.largest.user, lo, hi);
      }
      if r.level > 0 {
        ghost var a := OverlapIsSlice(files, lo, hi);
        inputs := TakeUpTo(inputs, limit);
        assert inputs != [] ==> IsSlice(files, a, inputs);
      }
    }
  }

  lemma OneIsConnected(f: File)
    ensures Connected([f], [])
  {
    assert f in [f];
  }

  lemma Picked(files: seq<File>, begin: Bound, end: Bound, lo: Bound, hi: Bound)
    requires Covers(lo, hi, begin, end)
    ensures forall f :: f in files && Overlaps(f, begin, end) ==> Overlaps(f, lo, hi)
  {
  }

  method TakeUpTo(files: seq<File>, limit: nat) returns (r: seq<File>)
    ensures TakenUpTo(files, limit, r)
  {
    r := [];
    var total := 0;
    while |r| < |files|
      invariant r <= files && total == TotalFileSize(r)
      invariant forall k :: 0 < k <= |r| ==> TotalFileSize(files[..k]) < limit
    {
      OneMoreSize(files, |r|);
      assert files[..|r|] == r;
      total := total + files[|r|].size;
      r := files[..|r| + 1];
      if total >= limit {
        break;
      }
    }
    forall k | 0 < k < |r| ensures TotalFileSize(r[..k]) < limit {
      assert r[..k] == files[..k];
    }
  }

  /** A lone automatic input that meets nothing below it, and not too much in the level after that, is moved. */
  ghost predicate Moves(v: Version, level: nat, mayMove: bool, in0: seq<File>, in1: seq<File>, limits: Limits) {
    && mayMove && |in0| == 1 && in1 == []
    && (level + 2 < NUM_LEVELS ==>
          TotalFileSize(OverlappingFiles(v[level + 2], Some(in0[0].smallest.user), Some(in0[0].largest.user)))
            <= limits.maxGrandparentBytes)
  }

  /** The step moves the inputs selected from `seed`, or compacts them at the oldest live snapshot. */
  ghost predicate WorksOn(
    s: State, level: nat, seed: seq<File>, mayMove: bool, expandedLimit: nat, limits: Limits, step: Step) {
    exists in0, in1 ::
      && Selected(s.version, level, seed, expandedLimit, in0, in1)
      && if Moves(s.version, level, mayMove, in0, in1, limits) then step == TrivialMove(level, in0[0])
         else
           && step.Compact? && (step.into, step.in0, step.in1, step.snapshot) == (level, in0, in1, Oldest(s))
           && Tidy(s.version, level, in0, in1, limits, step.outputs)
  }

  /** The step is the one that the request asks for. */
  ghost predicate CompactionOf(
    s: State, r: Request, seedLimit: nat, expandedLimit: nat, limits: Limits, step: Step) {
    exists seed ::
      && StartsFrom(s.version, r, seedLimit, seed)
      && WorksOn(s, r.level, seed, r.Automatic?, expandedLimit, limits, step)
  }

  /** A waiting memtable goes first; otherwise the requested compaction or move is done. */
  method BackgroundCompaction(
    s: State, request: Request, seedLimit: nat, expandedLimit: nat, limits: Limits, tableSize: seq<Entry> -> nat)
    returns (s': State, step: Option<Step>)
    requires Structured(s) && ValidRequest(s.version, request)
    ensures step.Some? ==> Next(s, step.value, s')
    ensures step.Some? && step.value.Compact? && request.Automatic? ==> Gapless(step.value.in0, step.value.in1)
    ensures s.imm.None? && step.Some? ==> CompactionOf(s, request, seedLimit, expandedLimit, limits, step.value)
    ensures s.imm.Some? ==>
      step.Some? && (step.value.DropEmptyMemTable? || FlushOf(s, limits.maxGrandparentBytes, step.value))
    ensures step.None? ==> s' == s && s.imm.None? && request.Manual?
    ensures step.None? ==> forall f :: f in s.version[request.level] ==> !Overlaps(f, request.begin, request.end)
    ensures s.imm.Some? ==> s'.imm.None?
  {
    if s.imm.Some? {
      var done;
      s', done := CompactMemTable(s, tableSize, limits.maxGrandparentBytes);
      step := Some(done);
    } else {
      VersionFacts(s);
      var seed := FirstInputs(s.version, request, seedLimit);
      if seed == [] {
        s', step := s, None;
      } else {
        var done;
        s', done := CompactFrom(
          s, request.level, seed, request.Automatic?, expandedLimit, limits, tableSize);
        step := Some(done);
      }
    }
  }

  method CompactFrom(
    s: State, level: nat, seed: seq<File>, mayMove: bool, expandedLimit: nat, limits: Limits,
    tableSize: seq<Entry> -> nat)
    returns (s': State, step: Step)
    requires Structured(s) && level + 1 < NUM_LEVELS && Seed(s.version[level], level, seed)
    ensures Next(s, step, s')
    ensures WorksOn(s, level, seed, mayMove, expandedLimit, limits, step)
    ensures step.Compact? && Connected(seed, []) ==> Gapless(step.in0, step.in1)
  {
    LevelsAreSorted(s);
    var in0, in1 := SetupOtherInputs(s.version, level, seed, expandedLimit);
    var grandparents := Grandparents(s.version, level, in0, in1);
    var move := IsTrivialMove(s.version, level, mayMove, in0, in1, grandparents, limits);
    if move {
      LoneInput(in0);
      s', step := MoveFile(s, level, in0[0]);
    } else {
      s', step := MergeAndInstall(s, level, in0, in1, grandparents, limits, tableSize);
    }
  }

  lemma LoneInput(in0: seq<File>)
    requires |in0| == 1
    ensures in0 == [in0[0]]
  {
  }

  lemma LevelsAreSorted(s: State)
    requires Structured(s)
    ensures forall l :: 1 <= l < NUM_LEVELS ==> SortedDisjoint(s.version[l])
  {
  }

  method IsTrivialMove(
    v: Version, level: nat, mayMove: bool, in0: seq<File>, in1: seq<File>, grandparents: seq<File>, limits: Limits)
    returns (move: bool)
    requires level + 1 < NUM_LEVELS && AreGrandparents(v, level, in0, in1, grandparents)
    ensures move <==> Moves(v, level, mayMove, in0, in1, limits)
  {
    move := mayMove && |in0| == 1 && in1 == [] && TotalFileSize(grandparents) <= limits.maxGrandparentBytes;
    if |in0| == 1 && in1 == [] {
      LoneGrandparents(v, level, in0, in1, grandparents);
    }
  }

  lemma LoneGrandparents(v: Version, level: nat, in0: seq<File>, in1: seq<File>, grandparents: seq<File>)
    requires AreGrandparents(v, level, in0, in1, grandparents) && |in0| == 1 && in1 == []
    ensures grandparents ==
      if level + 2 < NUM_LEVELS
      then OverlappingFiles(v[level + 2], Some(in0[0].smallest.user), Some(in0[0].largest.user))
      else []
  {
    assert in0 + in1 == [in0[0]];
  }
}
