/** Compactions take time: memtables are flushed while the inputs are being merged. */
module RunningCompactions {
  import opened InternalKeys
  import opened FlatStore
  import opened Wrappers
  import opened Levels
  import opened LayeredGet
  import opened InputSelection
  import opened CompactionWork
  import opened VersionBuilder
  import opened Layering
  import opened StoreSteps
  import opened StoreRuns

  /** A compaction under way: the version it selected its inputs from, the inputs, the oldest
      live snapshot when it began, and the file numbers its outputs have taken so far. */
  datatype Job =
    | Idle
    | Running(base: Version, level: nat, in0: seq<File>, in1: seq<File>, snapshot: SequenceNumber, numbers: seq<nat>)

  datatype System = System(store: State, job: Job)

  datatype Act =
    | Foreground(step: Step)
    | Begin(level: nat, in0: seq<File>, in1: seq<File>)
    | OpenOutput
    | Finish(input: seq<Entry>, outputs: seq<File>)
    | Abandon

  ghost predicate NumberedBy(outputs: seq<File>, numbers: seq<nat>) {
    && |outputs| == |numbers|
    && forall i :: 0 <= i < |outputs| ==> WellFormed(outputs[i]) && outputs[i].number == numbers[i]
  }

  /** The outputs are merged from the inputs by what the input version and the noted snapshot allow to drop. */
  ghost predicate MergedBy(job: Job, input: seq<Entry>, outputs: seq<File>)
    requires job.Running?
  {
    && Sorted(input) && Contents(input) == InputContents(job.in0, job.in1)
    && Payloads(outputs) == Survivors(input, DroppedBy(job.base, job.level, Contents(input), job.snapshot))
    && NumberedBy(outputs, job.numbers)
  }

  /** Everything but the compaction itself may happen while it runs; the result is
      installed on the version that is current at the end. */
  ghost predicate Does(y: System, act: Act, y': System) {
    match act
    case Foreground(step) =>
      && Next(y.store, step, y'.store) && !step.Compact? && (step.TrivialMove? ==> y.job.Idle?)
      && y'.job == y.job
    case Begin(level, in0, in1) =>
      && y.job.Idle? && y.store.imm.None? && PickedInputs(y.store.version, level, in0, in1)
      && y' == System(y.store, Running(y.store.version, level, in0, in1, Oldest(y.store), []))
    case OpenOutput =>
      && y.job.Running?
      && y' == System(y.store.(nextFile := y.store.nextFile + 1),
                      y.job.(numbers := y.job.numbers + [y.store.nextFile]))
    case Finish(input, outputs) =>
      && y.job.Running? && MergedBy(y.job, input, outputs)
      && Installs(y.store.version, CompactionEdit(y.job.level, y.job.in0, y.job.in1, outputs), y'.store.version)
      && y' == System(y.store.(version := y'.store.version), Idle)
    case Abandon =>
      y.job.Running? && y' == System(y.store, Idle)
  }

  // ---- What stays true of a running compaction ----

  /** The numbers taken are different, below `n`, and in no file of the version. */
  ghost predicate NumbersTaken(numbers: seq<nat>, v: Version, n: nat) {
    && (forall i :: 0 <= i < |numbers| ==> numbers[i] < n && UnusedNumber(v, numbers[i]))
    && forall i, j :: 0 <= i < j < |numbers| ==> numbers[i] < numbers[j]
  }

  /** The inputs are still good ones in the current version, and its deeper levels hide the same keys. */
  ghost predicate JobOk(job: Job, v: Version, n: nat, oldest: SequenceNumber)
    requires job.Running?
  {
    && GoodInputs(v, job.level, job.in0, job.in1) && SameBase(job, v)
    && NumbersTaken(job.numbers, v, n) && job.snapshot <= oldest
  }

  ghost predicate SameBase(job: Job, v: Version)
    requires job.Running?
  {
    forall e :: e in InputContents(job.in0, job.in1) ==>
      (IsBase(job.base, job.level, e.key.user) <==> IsBase(v, job.level, e.key.user))
  }

  ghost predicate Sound(y: System) {
    && Structured(y.store)
    && (y.job.Running? ==> JobOk(y.job, y.store.version, y.store.nextFile, Oldest(y.store)))
  }

  /** A flushed table may only enter a level below level 0 where it meets nothing on the way. */
  ghost predicate Flushed(v: Version, at: nat, t: File, v': Version) {
    && at < NUM_LEVELS && CanFlushTo(v, at, t)
    && (forall l, g :: 0 <= l < NUM_LEVELS && g in v[l] ==> g.number < t.number)
    && (forall g :: g in v'[at] <==> g in v[at] || g == t)
    && forall l :: 0 <= l < NUM_LEVELS && l != at ==> v'[l] == v[l]
  }

  lemma ApartByUser(files: seq<File>, t: File)
    requires NoOverlap(files, t.smallest.user, t.largest.user)
    ensures forall f :: f in files ==> f.largest.user < t.smallest.user || t.largest.user < f.smallest.user
  {
    forall f | f in files ensures f.largest.user < t.smallest.user || t.largest.user < f.smallest.user {
      assert !Overlaps(f, Some(t.smallest.user), Some(t.largest.user));
    }
  }

  lemma FlushKeepsClosed(v: Version, level: nat, in0: seq<File>, at: nat, t: File, v': Version)
    requires level < NUM_LEVELS && ClosedInputs(v[level], level, in0) && Flushed(v, at, t, v')
    ensures ClosedInputs(v'[level], level, in0)
  {
    if at == level && level > 0 {
      ApartByUser(v[level], t);
    }
  }

  lemma FlushIsInGap(
    v: Version, level: nat, in0: seq<File>, in1: seq<File>, at: nat, t: File, v': Version)
    requires level < at && GoodInputs(v, level, in0, in1) && Flushed(v, at, t, v')
    ensures InGap(t, in0, in1)
  {
    ApartByUser(v[level], t);
    ApartByUser(v[level + 1], t);
  }

  lemma FlushKeepsInputs(v: Version, level: nat, in0: seq<File>, in1: seq<File>, at: nat, t: File, v': Version)
    requires GoodInputs(v, level, in0, in1) && Flushed(v, at, t, v')
    ensures GoodInputs(v', level, in0, in1)
  {
    FlushKeepsClosed(v, level, in0, at, t, v');
    if at == level + 1 {
      FlushIsInGap(v, level, in0, in1, at, t, v');
    }
  }

  /** A table between the inputs covers none of their keys. */
  lemma GapCoversNoInput(v: Version, level: nat, in0: seq<File>, in1: seq<File>, t: File, e: Entry)
    requires LayeredVersion(v) && GoodInputs(v, level, in0, in1) && InGap(t, in0, in1)
    requires e in InputContents(in0, in1)
    ensures !(t.smallest.user <= e.key.user <= t.largest.user)
  {
    var f :| (f in in0 || f in in1) && e in f.entries;
    assert WellFormed(f);
    EntryInRange(f, e);
  }

  lemma SameRanges(v: Version, at: nat, t: File, v': Version, level: nat, user: UserKey)
    requires Flushed(v, at, t, v') && (at >= level + 2 ==> !(t.smallest.user <= user <= t.largest.user))
    ensures IsBase(v, level, user) <==> IsBase(v', level, user)
  {
    forall l | level + 2 <= l < NUM_LEVELS ensures InSomeRange(v'[l], user) <==> InSomeRange(v[l], user) {
    }
  }

  /** A flushed table deeper than the output level covers no key of the inputs. */
  lemma FlushKeepsBase(
    v: Version, level: nat, in0: seq<File>, in1: seq<File>, at: nat, t: File, v': Version, e: Entry)
    requires LayeredVersion(v) && GoodInputs(v, level, in0, in1) && Flushed(v, at, t, v')
    requires e in InputContents(in0, in1)
    ensures IsBase(v, level, e.key.user) <==> IsBase(v', level, e.key.user)
  {
    if at >= level + 2 {
      FlushIsInGap(v, level, in0, in1, at, t, v');
      GapCoversNoInput(v, level, in0, in1, t, e);
    }
    SameRanges(v, at, t, v', level, e.key.user);
  }

  lemma StoreStepFlushes(s: State, step: Step, s': State)
    requires Structured(s) && Next(s, step, s') && step.FlushMemTable?
    ensures Flushed(s.version, step.level, step.table, s'.version)
  {
    FlushInstalls(s.version, step.level, step.table, s'.version);
  }

  lemma FlushKeepsJob(job: Job, s: State, step: Step, s': State)
    requires job.Running? && Structured(s) && Next(s, step, s') && step.FlushMemTable?
    requires JobOk(job, s.version, s.nextFile, Oldest(s))
    ensures JobOk(job, s'.version, s'.nextFile, Oldest(s'))
  {
    StoreStepFlushes(s, step, s');
    FlushKeepsInputs(s.version, job.level, job.in0, job.in1, step.level, step.table, s'.version);
    forall e | e in InputContents(job.in0, job.in1)
      ensures IsBase(job.base, job.level, e.key.user) <==> IsBase(s'.version, job.level, e.key.user)
    {
      FlushKeepsBase(s.version, job.level, job.in0, job.in1, step.level, step.table, s'.version, e);
    }
    FlushKeepsTaken(job.numbers, s.version, s.nextFile, step.level, step.table, s'.version);
  }

  lemma FlushKeepsTaken(numbers: seq<nat>, v: Version, n: nat, at: nat, t: File, v': Version)
    requires NumbersTaken(numbers, v, n) && Flushed(v, at, t, v') && t.number == n
    ensures NumbersTaken(numbers, v', n + 1)
  {
  }

  /** Steps that leave the files alone leave a running compaction alone. */
  lemma OtherStepKeepsJob(job: Job, s: State, step: Step, s': State)
    requires job.Running? && Structured(s) && Next(s, step, s')
    requires !step.FlushMemTable? && !step.Compact? && !step.TrivialMove?
    requires JobOk(job, s.version, s.nextFile, Oldest(s))
    ensures JobOk(job, s'.version, s'.nextFile, Oldest(s'))
  {
    SnapshotStep(s, step, s');
  }

  lemma ForegroundKeepsSound(y: System, act: Act, y': System)
    requires Sound(y) && act.Foreground? && Does(y, act, y')
    ensures Sound(y')
  {
    StepKeepsStructure(y.store, act.step, y'.store);
    if y.job.Running? && act.step.FlushMemTable? {
      FlushKeepsJob(y.job, y.store, act.step, y'.store);
    } else if y.job.Running? {
      OtherStepKeepsJob(y.job, y.store, act.step, y'.store);
    }
  }

  lemma ReserveKeepsStructure(s: State)
    requires Structured(s)
    ensures Structured(s.(nextFile := s.nextFile + 1))
    ensures Everything(s.(nextFile := s.nextFile + 1)) == Everything(s)
  {
    StepKeepsStructure(s, ReserveNumber, s.(nextFile := s.nextFile + 1));
  }

  lemma BackgroundKeepsSound(y: System, act: Act, y': System)
    requires Sound(y) && Does(y, act, y') && (act.Begin? || act.OpenOutput? || act.Abandon?)
    ensures Sound(y')
  {
    if act.Begin? {
      PickedIsGood(y.store.version, act.level, act.in0, act.in1);
    } else if act.OpenOutput? {
      ReserveKeepsStructure(y.store);
    }
  }

  // ---- The end of a compaction ----

  /** What finishing means for the store. */
  ghost function AsCompaction(job: Job, act: Act): (r: Step)
    requires job.Running? && act.Finish?
  {
    Compact(job.level, job.in0, job.in1, job.snapshot, act.input, act.outputs)
  }

  lemma SameDrops(job: Job, v: Version)
    requires job.Running? && SameBase(job, v)
    ensures DroppedBy(job.base, job.level, InputContents(job.in0, job.in1), job.snapshot)
      == DroppedBy(v, job.level, InputContents(job.in0, job.in1), job.snapshot)
  {
  }

  lemma TakenNumbersAreNew(outputs: seq<File>, numbers: seq<nat>, v: Version, n: nat)
    requires NumberedBy(outputs, numbers) && NumbersTaken(numbers, v, n)
    ensures NewOutputs(v, n, outputs)
  {
    forall f, g | f in outputs && g in outputs && f.number == g.number ensures f == g {
      var i :| 0 <= i < |outputs| && outputs[i] == f;
      var j :| 0 <= j < |outputs| && outputs[j] == g;
    }
  }

  /** Finishing is a compaction of the store as it is now, provided no output spans another table. */
  lemma FinishIsCompaction(y: System, act: Act, y': System)
    requires Sound(y) && act.Finish? && Does(y, act, y')
    requires OutputsClear(y.store.version, y.job.level, y.job.in1, act.outputs)
    ensures Next(y.store, AsCompaction(y.job, act), y'.store)
  {
    SameDrops(y.job, y.store.version);
    TakenNumbersAreNew(act.outputs, y.job.numbers, y.store.version, y.store.nextFile);
  }

  lemma MergedContents(job: Job, input: seq<Entry>, outputs: seq<File>)
    requires job.Running? && MergedBy(job, input, outputs)
    ensures LevelContents(outputs) <= InputContents(job.in0, job.in1)
    ensures forall o :: o in outputs ==> WellFormed(o)
  {
    SurvivorsContents(input, DroppedBy(job.base, job.level, Contents(input), job.snapshot));
    PayloadContents(outputs);
  }

  /** An output that spans a table of its level ends up beside it. */
  lemma FinishMisplaces(y: System, act: Act, y': System)
    requires Sound(y) && act.Finish? && Does(y, act, y')
    requires !OutputsClear(y.store.version, y.job.level, y.job.in1, act.outputs)
    ensures !SortedDisjoint(y'.store.version[y.job.level + 1])
  {
    var v, level, in0, in1, v' := y.store.version, y.job.level, y.job.in0, y.job.in1, y'.store.version;
    TakenNumbersAreNew(act.outputs, y.job.numbers, v, y.store.nextFile);
    var o, g :| o in act.outputs && g in v[level + 1] && g !in in1 && !Apart(o, g);
    StructuredParts(y.store);
    NextLevelInputsInLevel(v, level, in0, in1);
    InstallGivesReplaces(v, level, in0, in1, act.outputs, v');
    assert o in v'[level + 1] && g in v'[level + 1] && o != g;
    if SortedDisjoint(v'[level + 1]) {
      DisjointApart(v'[level + 1], o, g);
    }
  }

  /** A compaction keeps the store's structure if and only if no output spans a table that
      was put into the output level while the compaction ran. */
  lemma FinishKeepsStructureIff(y: System, act: Act, y': System)
    requires Sound(y) && act.Finish? && Does(y, act, y')
    ensures Structured(y'.store) <==> OutputsClear(y.store.version, y.job.level, y.job.in1, act.outputs)
  {
    if OutputsClear(y.store.version, y.job.level, y.job.in1, act.outputs) {
      FinishIsCompaction(y, act, y');
      StepKeepsStructure(y.store, AsCompaction(y.job, act), y'.store);
    } else {
      FinishMisplaces(y, act, y');
    }
  }

  /** No table fits between gapless inputs. */
  lemma GaplessHasNoGap(in0: seq<File>, in1: seq<File>, g: File)
    requires Gapless(in0, in1) && InGap(g, in0, in1)
    ensures Beyond(g, in0)
  {
    if !Beyond(g, in0) {
      var a :| a in in0 && a.smallest.user <= g.largest.user;
      var b :| b in in0 && g.smallest.user <= b.largest.user;
      assert Between(a, b, g.smallest.user);
    }
  }

  lemma GaplessFinishIsClear(y: System, act: Act)
    requires Sound(y) && act.Finish? && y.job.Running? && MergedBy(y.job, act.input, act.outputs)
    requires Gapless(y.job.in0, y.job.in1)
    ensures OutputsClear(y.store.version, y.job.level, y.job.in1, act.outputs)
  {
    var v, level, in0, in1 := y.store.version, y.job.level, y.job.in0, y.job.in1;
    forall g | g in v[level + 1] && g !in in1 ensures Beyond(g, in0) {
      if InGap(g, in0, in1) {
        GaplessHasNoGap(in0, in1, g);
      }
    }
    MergedContents(y.job, act.input, act.outputs);
    StructuredParts(y.store);
    BeyondOutputsClear(v, level, in0, in1, act.outputs);
  }

  // ---- Whole runs ----

  ghost predicate Starts(y: System) {
    Init(y.store) && y.job.Idle?
  }

  ghost predicate IsSystemRun(ys: seq<System>, acts: seq<Act>) {
    && |ys| == |acts| + 1 && Starts(ys[0])
    && forall i :: 0 <= i < |acts| ==> Does(ys[i], acts[i], ys[i + 1])
  }

  /** If this ends a compaction, no output spans a table that was flushed beside the inputs. */
  ghost predicate EndsClear(y: System, act: Act) {
    act.Finish? && y.job.Running? ==> OutputsClear(y.store.version, y.job.level, y.job.in1, act.outputs)
  }

  lemma ActKeepsSound(y: System, act: Act, y': System)
    requires Sound(y) && Does(y, act, y') && EndsClear(y, act)
    ensures Sound(y')
  {
    match act
    case Foreground(_) => ForegroundKeepsSound(y, act, y');
    case Finish(_, _) => FinishKeepsStructureIff(y, act, y');
    case _ => BackgroundKeepsSound(y, act, y');
  }

  lemma {:induction false} RunsStaySound(ys: seq<System>, acts: seq<Act>, i: nat)
    requires IsSystemRun(ys, acts) && i < |ys| && forall j :: 0 <= j < i ==> EndsClear(ys[j], acts[j])
    ensures Sound(ys[i])
  {
    if i == 0 {
      InitIsStructured(ys[0].store);
    } else {
      RunsStaySound(ys, acts, i - 1);
      ActKeepsSound(ys[i - 1], acts[i - 1], ys[i]);
    }
  }

  lemma {:induction false} FirstBadEnd(ys: seq<System>, acts: seq<Act>, n: nat) returns (i: nat)
    requires n < |acts| && |ys| > n && !EndsClear(ys[n], acts[n])
    ensures i <= n && !EndsClear(ys[i], acts[i]) && forall j :: 0 <= j < i ==> EndsClear(ys[j], acts[j])
  {
    i := 0;
    while EndsClear(ys[i], acts[i])
      invariant i <= n && forall j :: 0 <= j < i ==> EndsClear(ys[j], acts[j])
      decreases n - i
    {
      i := i + 1;
    }
  }

  /** Layering holds in every state of a run if and only if every compaction ends clear of the
      tables that were flushed while it ran. */
  lemma RunIsStructuredIff(ys: seq<System>, acts: seq<Act>)
    requires IsSystemRun(ys, acts)
    ensures (forall i :: 0 <= i < |ys| ==> Structured(ys[i].store))
            <==> (forall i :: 0 <= i < |acts| ==> EndsClear(ys[i], acts[i]))
  {
    if forall i :: 0 <= i < |acts| ==> EndsClear(ys[i], acts[i]) {
      forall i | 0 <= i < |ys| ensures Structured(ys[i].store) {
        RunsStaySound(ys, acts, i);
      }
    } else {
      var n :| 0 <= n < |acts| && !EndsClear(ys[n], acts[n]);
      var i := FirstBadEnd(ys, acts, n);
      RunsStaySound(ys, acts, i);
      FinishKeepsStructureIff(ys[i], acts[i], ys[i + 1]);
      assert !Structured(ys[i + 1].store);
    }
  }

  ghost predicate GaplessJob(y: System) {
    y.job.Running? ==> Gapless(y.job.in0, y.job.in1)
  }

  lemma GaplessEndsClear(y: System, act: Act, y': System)
    requires Sound(y) && GaplessJob(y) && Does(y, act, y')
    ensures EndsClear(y, act)
  {
    if act.Finish? {
      GaplessFinishIsClear(y, act);
    }
  }

  lemma JobStaysGapless(y: System, act: Act, y': System)
    requires GaplessJob(y) && Does(y, act, y') && (act.Begin? ==> Gapless(act.in0, act.in1))
    ensures GaplessJob(y')
  {
  }

  lemma {:induction false} GaplessRunsStaySound(ys: seq<System>, acts: seq<Act>, i: nat)
    requires IsSystemRun(ys, acts) && i < |ys|
    requires forall j :: 0 <= j < |acts| && acts[j].Begin? ==> Gapless(acts[j].in0, acts[j].in1)
    ensures Sound(ys[i]) && GaplessJob(ys[i])
  {
    if i == 0 {
      InitIsStructured(ys[0].store);
    } else {
      GaplessRunsStaySound(ys, acts, i - 1);
      GaplessEndsClear(ys[i - 1], acts[i - 1], ys[i]);
      ActKeepsSound(ys[i - 1], acts[i - 1], ys[i]);
      JobStaysGapless(ys[i - 1], acts[i - 1], ys[i]);
    }
  }

  /** Where the inputs of every compaction are gapless, as those of automatic compactions
      are, layering holds in every state, whatever is flushed meanwhile. */
  lemma GaplessRunsAreStructured(ys: seq<System>, acts: seq<Act>, i: nat)
    requires IsSystemRun(ys, acts) && i < |ys|
    requires forall j :: 0 <= j < |acts| && acts[j].Begin? ==> Gapless(acts[j].in0, acts[j].in1)
    ensures Structured(ys[i].store)
  {
    GaplessRunsStaySound(ys, acts, i);
  }

  // ---- Runs with running compactions are runs of the store ----

  ghost function StoreStep(y: System, act: Act): (r: Option<Step>) {
    match act
    case Foreground(step) => Some(step)
    case OpenOutput => Some(ReserveNumber)
    case Finish(_, _) => if y.job.Running? then Some(AsCompaction(y.job, act)) else None
    case _ => None
  }

  lemma ActIsStoreStep(y: System, act: Act, y': System)
    requires Sound(y) && Does(y, act, y') && EndsClear(y, act)
    ensures match StoreStep(y, act)
            case Some(step) => Next(y.store, step, y'.store)
            case None => y'.store == y.store
  {
    if act.Finish? {
      FinishIsCompaction(y, act, y');
    }
  }

  /** One of the first `i` acts is `step`, done in state `s`. */
  ghost predicate DoneIn(ys: seq<System>, acts: seq<Act>, i: nat, s: State, step: Step) {
    i <= |acts| && i < |ys| && exists j :: 0 <= j < i && ys[j].store == s && StoreStep(ys[j], acts[j]) == Some(step)
  }

  /** The store run of the first `i` acts. */
  ghost predicate Projects(
    ys: seq<System>, acts: seq<Act>, i: nat, states: seq<State>, steps: seq<Step>) {
    && i < |ys| && i <= |acts| && IsRun(states, steps) && states[|steps|] == ys[i].store
    && forall k :: 0 <= k < |steps| ==> DoneIn(ys, acts, i, states[k], steps[k])
  }

  lemma ExtendProjection(ys: seq<System>, acts: seq<Act>, i: nat, states: seq<State>, steps: seq<Step>)
    returns (states': seq<State>, steps': seq<Step>)
    requires i + 1 < |ys| && i < |acts| && Projects(ys, acts, i, states, steps)
    requires match StoreStep(ys[i], acts[i])
             case Some(step) => Next(ys[i].store, step, ys[i + 1].store)
             case None => ys[i + 1].store == ys[i].store
    ensures Projects(ys, acts, i + 1, states', steps')
  {
    EarlierIsDone(ys, acts, i + 1, states, steps);
    var step := StoreStep(ys[i], acts[i]);
    states', steps' := states, steps;
    if step.Some? {
      assert DoneIn(ys, acts, i + 1, ys[i].store, step.value);
      states', steps' := states + [ys[i + 1].store], steps + [step.value];
    }
  }

  /** The store of a run whose compactions end clear goes through a run of its own. */
  lemma {:induction false} ProjectRun(ys: seq<System>, acts: seq<Act>, i: nat)
    returns (states: seq<State>, steps: seq<Step>)
    requires IsSystemRun(ys, acts) && i < |ys| && forall j :: 0 <= j < i ==> EndsClear(ys[j], acts[j])
    ensures Projects(ys, acts, i, states, steps)
  {
    if i == 0 {
      states, steps := [ys[0].store], [];
    } else {
      states, steps := ProjectRun(ys, acts, i - 1);
      RunsStaySound(ys, acts, i - 1);
      ActIsStoreStep(ys[i - 1], acts[i - 1], ys[i]);
      states, steps := ExtendProjection(ys, acts, i - 1, states, steps);
    }
  }

  lemma EarlierIsDone(ys: seq<System>, acts: seq<Act>, i: nat, states: seq<State>, steps: seq<Step>)
    requires 0 < i <= |acts| && i < |ys| && |steps| <= |states|
    requires forall k :: 0 <= k < |steps| ==> DoneIn(ys, acts, i - 1, states[k], steps[k])
    ensures forall k :: 0 <= k < |steps| ==> DoneIn(ys, acts, i, states[k], steps[k])
  {
  }

  /** So what readers of live snapshots see is what was written, unless a merge leaks. */
  lemma SystemReadsHistory(ys: seq<System>, acts: seq<Act>, i: nat)
    requires IsSystemRun(ys, acts) && i < |ys| && forall j :: 0 <= j < i ==> EndsClear(ys[j], acts[j])
    requires forall j, step :: 0 <= j < i && StoreStep(ys[j], acts[j]) == Some(step) ==> !Leaky(ys[j].store, step)
    ensures Structured(ys[i].store) && Faithful(ys[i].store)
  {
    var states, steps := ProjectRun(ys, acts, i);
    RunsAreStructured(states, steps, |steps|);
    RunsReadHistory(states, steps, |steps|);
  }
}
