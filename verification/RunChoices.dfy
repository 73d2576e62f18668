/** The runs of LeakRun and GapRun are the code's own: where their tables are flushed to, which files their
  * compactions take and where the outputs are cut is what the rules for the background thread choose. */
module RunChoices {
  import opened InternalKeys
  import opened Wrappers
  import opened Levels
  import opened InputSelection
  import opened OutputCuts
  import opened Layering
  import opened StoreSteps
  import opened BackgroundWork
  import LeakRun
  import GapRun
  import BoundaryLeak

  // ---- Small levels ----

  lemma NoFiles(lo: Bound, hi: Bound)
    ensures OverlappingFiles([], lo, hi) == [] && TotalFileSize([]) == 0
  {
  }

  lemma OneFile(f: File, lo: Bound, hi: Bound)
    ensures OverlappingFiles([f], lo, hi) == if Overlaps(f, lo, hi) then [f] else []
    ensures TotalFileSize([f]) == f.size
  {
    assert [f][..0] == [];
    NoFiles(lo, hi);
  }

  lemma TwoFiles(f: File, g: File, lo: Bound, hi: Bound)
    ensures OverlappingFiles([f, g], lo, hi)
      == (if Overlaps(f, lo, hi) then [f] else []) + (if Overlaps(g, lo, hi) then [g] else [])
    ensures TotalFileSize([f, g]) == f.size + g.size
  {
    assert [f, g][..1] == [f];
    OneFile(f, lo, hi);
    assert [f, g][1..] == [g] && TotalFileSize([g]) == g.size;
  }

  /** A run of files without a boundary file behind it is complete. */
  lemma Complete(files: seq<File>, seed: seq<File>)
    requires !HasBoundary(files, seed)
    ensures Completed(files, seed, seed)
  {
  }

  lemma MeetsNothing(maxBytes: nat, entries: seq<Entry>)
    requires entries != []
    ensures MeetsFew([], maxBytes, entries)
  {
    assert MeetsWithin([], maxBytes, entries, 0, 0);
  }

  lemma NoGrandparents(v: Version, level: nat, in0: seq<File>, in1: seq<File>, lo: InternalKey, hi: InternalKey)
    requires level + 2 < NUM_LEVELS && v[level + 2] == [] && IsHull(in0 + in1, lo, hi)
    ensures AreGrandparents(v, level, in0, in1, [])
  {
    NoFiles(Some(lo.user), Some(hi.user));
  }

  lemma OneIsFew(limits: Limits, outputs: seq<File>)
    requires CountShort(outputs, limits) <= 1
    ensures FewShort([], limits, outputs)
  {
    var n: int, unit := CountShort(outputs, limits) - 1, limits.maxGrandparentBytes + 1;
    if n == 0 {
      assert n * unit == 0;
    }
  }

  /** Outputs that meet no file two levels down are cut well enough if they are cut by size. */
  lemma TidyAbove(
    v: Version, level: nat, in0: seq<File>, in1: seq<File>, limits: Limits, outputs: seq<File>, lo: InternalKey,
    hi: InternalKey)
    requires level + 2 < NUM_LEVELS && v[level + 2] == [] && IsHull(in0 + in1, lo, hi)
    requires forall f :: f in outputs ==> f.entries != [] && NotOverfull(limits, f.entries)
    requires CountShort(outputs, limits) <= 1
    ensures Tidy(v, level, in0, in1, limits, outputs)
  {
    forall f | f in outputs ensures MeetsFew([], limits.maxGrandparentBytes, f.entries) {
      MeetsNothing(limits.maxGrandparentBytes, f.entries);
    }
    NoGrandparents(v, level, in0, in1, lo, hi);
    OneIsFew(limits, outputs);
  }

  lemma IsChosen(
    s: State, r: Request, seedLimit: nat, expandedLimit: nat, limits: Limits, seed: seq<File>, in0: seq<File>,
    in1: seq<File>, step: Step)
    requires StartsFrom(s.version, r, seedLimit, seed) && Selected(s.version, r.level, seed, expandedLimit, in0, in1)
    requires !Moves(s.version, r.level, r.Automatic?, in0, in1, limits)
    requires step.Compact? && (step.into, step.in0, step.in1, step.snapshot) == (r.level, in0, in1, Oldest(s))
    requires Tidy(s.version, r.level, in0, in1, limits, step.outputs)
    ensures CompactionOf(s, r, seedLimit, expandedLimit, limits, step)
  {
    assert WorksOn(s, r.level, seed, r.Automatic?, expandedLimit, limits, step);
  }

  /** A seed that is complete and that its first attempt at expansion does not grow. */
  lemma SelectedAtOnce(
    v: Version, level: nat, seed: seq<File>, expandedLimit: nat, in1: seq<File>, lo: InternalKey, hi: InternalKey)
    requires level > 0 && PickedInputs(v, level, seed, in1) && Completed(v[level], seed, seed)
    requires IsHull(seed + in1, lo, hi) && OverlappingFiles(v[level], Some(lo.user), Some(hi.user)) == seed
    ensures Selected(v, level, seed, expandedLimit, seed, in1)
  {
    assert FirstAttempt(v, level, seed, seed, in1);
    assert Around(v[level], level, Some(lo.user), Some(hi.user), seed);
    assert Expanded(v, level, seed, in1, seed, in1);
  }

  // ---- The run in which a deleted value returns ----

  /** Tables end after the tombstone of key 2, and nowhere else. */
  ghost predicate CutsAfterTombstone(limits: Limits) {
    && limits.maxGrandparentBytes >= 3
    && limits.fileSize([LeakRun.LOWER]) < limits.maxOutputSize
    && limits.fileSize([LeakRun.LOWER, LeakRun.TOMBSTONE]) >= limits.maxOutputSize
  }

  lemma LeakFlushes(limits: Limits)
    requires CutsAfterTombstone(limits)
    ensures forall i :: i == 4 || i == 9 ==>
      FlushOf(LeakRun.STATES[i], limits.maxGrandparentBytes, LeakRun.STEPS[i])
  {
    NoFiles(Some(1), Some(2));
    NoFiles(Some(1), Some(1));
    TwoFiles(LeakRun.FIRST, LeakRun.SECOND, Some(1), Some(1));
  }

  /** Its first compaction is the manual one of all of level 2. */
  lemma SplitIsChosen(seedLimit: nat, expandedLimit: nat, limits: Limits)
    requires CutsAfterTombstone(limits)
    ensures CompactionOf(
      LeakRun.STATES[5], Manual(2, None, None), seedLimit, expandedLimit, limits, LeakRun.STEPS[5])
  {
    var s, in0 := LeakRun.STATES[5], [LeakRun.WHOLE];
    WholeIsSelected(s.version, seedLimit, expandedLimit);
    SplitIsTidy(limits);
    IsChosen(s, Manual(2, None, None), seedLimit, expandedLimit, limits, in0, in0, [], LeakRun.STEPS[5]);
  }

  lemma WholeIsSelected(v: Version, seedLimit: nat, expandedLimit: nat)
    requires v == LeakRun.Files([LeakRun.WHOLE], [])
    ensures StartsFrom(v, Manual(2, None, None), seedLimit, [LeakRun.WHOLE])
    ensures Selected(v, 2, [LeakRun.WHOLE], expandedLimit, [LeakRun.WHOLE], [])
  {
    var in0 := [LeakRun.WHOLE];
    LeakRun.WholeIsInput(v);
    OneFile(LeakRun.WHOLE, None, None);
    Complete(in0, in0);
    assert FirstAttempt(v, 2, in0, in0, []);
  }

  lemma SplitIsTidy(limits: Limits)
    requires CutsAfterTombstone(limits)
    ensures Tidy(LeakRun.STATES[5].version, 2, [LeakRun.WHOLE], [], limits, [LeakRun.FIRST, LeakRun.SECOND])
  {
    var outputs := [LeakRun.FIRST, LeakRun.SECOND];
    OneTable(LeakRun.FIRST, limits);
    assert outputs[..1] == [LeakRun.FIRST];
    assert LeakRun.FIRST.entries[..1] == [LeakRun.LOWER];
    assert LeakRun.WHOLE in [LeakRun.WHOLE] + [];
    TidyAbove(
      LeakRun.STATES[5].version, 2, [LeakRun.WHOLE], [], limits, outputs, LeakRun.WHOLE.smallest,
      LeakRun.WHOLE.largest);
  }

  lemma OneTable(f: File, limits: Limits)
    ensures CountShort([f], limits) == if limits.fileSize(f.entries) < limits.maxOutputSize then 1 else 0
  {
    assert [f][..0] == [];
    assert CountShort([], limits) == 0;
  }

  /** Its last compaction is the automatic one of the table above them. */
  lemma MergeIsChosen(seedLimit: nat, expandedLimit: nat, limits: Limits)
    requires CutsAfterTombstone(limits)
    ensures CompactionOf(
      LeakRun.STATES[10], Automatic(2, LeakRun.TOP), seedLimit, expandedLimit, limits, LeakRun.STEPS[10])
  {
    var s := LeakRun.STATES[10];
    TopIsSelected(s.version, seedLimit, expandedLimit);
    MergeIsTidy(limits);
    IsChosen(s, Automatic(2, LeakRun.TOP), seedLimit, expandedLimit, limits, [LeakRun.TOP], [LeakRun.TOP],
      [LeakRun.FIRST], LeakRun.STEPS[10]);
  }

  lemma MergeIsTidy(limits: Limits)
    ensures Tidy(LeakRun.STATES[10].version, 2, [LeakRun.TOP], [LeakRun.FIRST], limits, [LeakRun.MERGED])
  {
    OneTable(LeakRun.MERGED, limits);
    TopHull();
    TidyAbove(
      LeakRun.STATES[10].version, 2, [LeakRun.TOP], [LeakRun.FIRST], limits, [LeakRun.MERGED], LeakRun.TOP.smallest,
      LeakRun.FIRST.largest);
  }

  lemma TopHull()
    ensures IsHull([LeakRun.TOP] + [LeakRun.FIRST], LeakRun.TOP.smallest, LeakRun.FIRST.largest)
  {
    var both := [LeakRun.TOP] + [LeakRun.FIRST];
    assert both[0] == LeakRun.TOP && both[1] == LeakRun.FIRST;
  }

  lemma TopIsSelected(v: Version, seedLimit: nat, expandedLimit: nat)
    requires v == LeakRun.Files([LeakRun.TOP], [LeakRun.FIRST, LeakRun.SECOND])
    ensures StartsFrom(v, Automatic(2, LeakRun.TOP), seedLimit, [LeakRun.TOP])
    ensures Selected(v, 2, [LeakRun.TOP], expandedLimit, [LeakRun.TOP], [LeakRun.FIRST])
  {
    var in0, in1 := [LeakRun.TOP], [LeakRun.FIRST];
    LeakRun.SetupFits();
    BoundaryLeak.InputsAreChosen(LeakRun.SETUP, v);
    Complete(in0, in0);
    OneFile(LeakRun.TOP, Some(1), Some(2));
    TopHull();
    SelectedAtOnce(v, 2, in0, expandedLimit, in1, LeakRun.TOP.smallest, LeakRun.FIRST.largest);
  }

  /** Its two flushes and its two compactions, as the rules choose them. */
  lemma LeakRunIsTheCodes(seedLimit: nat, expandedLimit: nat, limits: Limits)
    requires CutsAfterTombstone(limits)
    ensures FlushOf(LeakRun.STATES[4], limits.maxGrandparentBytes, LeakRun.STEPS[4])
    ensures CompactionOf(
      LeakRun.STATES[5], Manual(2, None, None), seedLimit, expandedLimit, limits, LeakRun.STEPS[5])
    ensures FlushOf(LeakRun.STATES[9], limits.maxGrandparentBytes, LeakRun.STEPS[9])
    ensures CompactionOf(
      LeakRun.STATES[10], Automatic(2, LeakRun.TOP), seedLimit, expandedLimit, limits, LeakRun.STEPS[10])
  {
    LeakFlushes(limits);
    SplitIsChosen(seedLimit, expandedLimit, limits);
    MergeIsChosen(seedLimit, expandedLimit, limits);
  }

  // ---- The run in which an acknowledged write is hidden ----

  ghost predicate CutsNowhere(limits: Limits) {
    limits.maxGrandparentBytes >= 2 && limits.fileSize([GapRun.NEW1]) < limits.maxOutputSize
  }

  lemma OldFlushes(maxBytes: nat)
    ensures FlushOf(GapRun.RUN[2].store, maxBytes, FlushMemTable(2, GapRun.A))
    ensures FlushOf(GapRun.RUN[5].store, maxBytes, FlushMemTable(2, GapRun.B))
  {
    NoFiles(Some(1), Some(1));
    NoFiles(Some(9), Some(9));
    OneFile(GapRun.A, Some(9), Some(9));
  }

  /** Level 1 is free, and level 2 holds an older version of the key. */
  lemma PicksLevelOne(one: seq<File>, user: UserKey, maxBytes: nat)
    requires (user == 1 || user == 9) && maxBytes >= 2 && NoOverlap(one, user, user)
    ensures PicksLevel(GapRun.Files(one, [GapRun.A, GapRun.B]), user, user, maxBytes, 1)
  {
    var two := [GapRun.A, GapRun.B];
    TwoFiles(GapRun.A, GapRun.B, Some(user), Some(user));
    assert two[0] == GapRun.A && two[1] == GapRun.B;
    OneFile(if user == 1 then GapRun.A else GapRun.B, None, None);
    assert OverlappingFiles(two, Some(user), Some(user)) == [if user == 1 then GapRun.A else GapRun.B];
    assert Overlaps(if user == 1 then GapRun.A else GapRun.B, Some(user), Some(user));
  }

  lemma NewFlushes(maxBytes: nat)
    requires maxBytes >= 2
    ensures FlushOf(GapRun.RUN[8].store, maxBytes, FlushMemTable(1, GapRun.C))
    ensures FlushOf(GapRun.RUN[11].store, maxBytes, FlushMemTable(1, GapRun.D))
  {
    PicksLevelOne([], 1, maxBytes);
    PicksLevelOne([GapRun.C], 9, maxBytes);
  }

  lemma FlushBetween(maxBytes: nat)
    ensures FlushOf(GapRun.RUN[16].store, maxBytes, FlushMemTable(2, GapRun.BETWEEN))
  {
    NoFiles(Some(5), Some(5));
    TwoFiles(GapRun.A, GapRun.B, Some(5), Some(5));
  }

  lemma FourFiles()
    ensures IsHull([GapRun.C, GapRun.D] + [GapRun.A, GapRun.B], GapRun.C.smallest, GapRun.B.largest)
  {
    var all := [GapRun.C, GapRun.D] + [GapRun.A, GapRun.B];
    assert all[0] == GapRun.C && all[1] == GapRun.D && all[2] == GapRun.A && all[3] == GapRun.B;
  }

  /** The manual compaction of all of level 1 takes the four tables. */
  lemma AllAreSelected(v: Version, expandedLimit: nat)
    requires v == GapRun.Files([GapRun.C, GapRun.D], [GapRun.A, GapRun.B])
    ensures Selected(v, 1, [GapRun.C, GapRun.D], expandedLimit, [GapRun.C, GapRun.D], [GapRun.A, GapRun.B])
  {
    GapRun.Picked(v);
    BothAreComplete();
    FourFiles();
    SelectedAtOnce(
      v, 1, [GapRun.C, GapRun.D], expandedLimit, [GapRun.A, GapRun.B], GapRun.C.smallest, GapRun.B.largest);
  }

  lemma BothAreComplete()
    ensures var both := [GapRun.C, GapRun.D];
      && Completed(both, both, both)
      && OverlappingFiles(both, Some(GapRun.C.smallest.user), Some(GapRun.B.largest.user)) == both
  {
    NothingBehind();
    Complete([GapRun.C, GapRun.D], [GapRun.C, GapRun.D]);
    TwoFiles(GapRun.C, GapRun.D, Some(1), Some(9));
  }

  lemma NothingBehind()
    ensures !HasBoundary([GapRun.C, GapRun.D], [GapRun.C, GapRun.D])
  {
  }

  lemma BothAreSeed(v: Version, seedLimit: nat)
    requires v == GapRun.Files([GapRun.C, GapRun.D], [GapRun.A, GapRun.B]) && seedLimit >= 2
    ensures StartsFrom(v, Manual(1, None, None), seedLimit, [GapRun.C, GapRun.D])
  {
    TwoFiles(GapRun.C, GapRun.D, None, None);
    OneFile(GapRun.C, None, None);
    assert [GapRun.C, GapRun.D][..1] == [GapRun.C];
  }

  lemma OutputIsTidy(v: Version, limits: Limits)
    requires v == GapRun.Files([GapRun.C, GapRun.D], [GapRun.A, GapRun.B]) && CutsNowhere(limits)
    ensures Tidy(v, 1, [GapRun.C, GapRun.D], [GapRun.A, GapRun.B], limits, [GapRun.OUTPUT])
  {
    OneTable(GapRun.OUTPUT, limits);
    assert GapRun.OUTPUT.entries[..1] == [GapRun.NEW1];
    FourFiles();
    TidyAbove(
      v, 1, [GapRun.C, GapRun.D], [GapRun.A, GapRun.B], limits, [GapRun.OUTPUT], GapRun.C.smallest, GapRun.B.largest);
  }

  /** Its flushes go where the rules send them, and its manual compaction starts from the four tables
      that the rules select and ends its one output where they allow. */
  lemma GapRunIsTheCodes(seedLimit: nat, expandedLimit: nat, limits: Limits)
    requires CutsNowhere(limits) && seedLimit >= 2
    ensures FlushOf(GapRun.RUN[2].store, limits.maxGrandparentBytes, FlushMemTable(2, GapRun.A))
    ensures FlushOf(GapRun.RUN[5].store, limits.maxGrandparentBytes, FlushMemTable(2, GapRun.B))
    ensures FlushOf(GapRun.RUN[8].store, limits.maxGrandparentBytes, FlushMemTable(1, GapRun.C))
    ensures FlushOf(GapRun.RUN[11].store, limits.maxGrandparentBytes, FlushMemTable(1, GapRun.D))
    ensures FlushOf(GapRun.RUN[16].store, limits.maxGrandparentBytes, FlushMemTable(2, GapRun.BETWEEN))
    ensures var v, job := GapRun.JOB.base, GapRun.JOB;
      && StartsFrom(v, Manual(job.level, None, None), seedLimit, job.in0)
      && Selected(v, job.level, job.in0, expandedLimit, job.in0, job.in1)
      && Tidy(v, job.level, job.in0, job.in1, limits, [GapRun.OUTPUT])
  {
    OldFlushes(limits.maxGrandparentBytes);
    NewFlushes(limits.maxGrandparentBytes);
    FlushBetween(limits.maxGrandparentBytes);
    BothAreSeed(GapRun.JOB.base, seedLimit);
    AllAreSelected(GapRun.JOB.base, expandedLimit);
    OutputIsTidy(GapRun.JOB.base, limits);
  }
}
