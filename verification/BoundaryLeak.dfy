/** A family of compactions that bring a deleted value back. */
module BoundaryLeak {
  // Level `level` holds one file with key a.  The next level holds two files that meet
  // inside a later key b: the first ends with a tombstone for b, the second starts with
  // the value it deletes.  Compacting the upper file selects only the first of them,
  // because the boundary rule is applied to `level` and not to the next level; the merge
  // then drops the tombstone.

  import opened InternalKeys
  import opened FlatStore
  import opened Wrappers
  import opened Levels
  import opened LayeredGet
  import opened InputSelection
  import opened CompactionWork
  import opened CompactionReads
  import opened VersionBuilder
  import opened Layering
  import opened StoreSteps
  import opened StoreRuns

  datatype Setup = Setup(level: nat, top: File, first: File, second: File, merged: File,
                         upper: Entry, lower: Entry, tombstone: Entry, deleted: Entry)

  ghost predicate SetupOk(x: Setup) {
    && 1 <= x.level && x.level + 1 < NUM_LEVELS
    && x.top.entries == [x.upper] && x.first.entries == [x.lower, x.tombstone] && x.second.entries == [x.deleted]
    && x.merged.entries == [x.upper]
    && WellFormed(x.top) && WellFormed(x.first) && WellFormed(x.second) && WellFormed(x.merged)
    && x.first.number < x.second.number < x.top.number && x.merged.number == x.top.number + 1
    && x.upper.key.user == x.lower.key.user < x.tombstone.key.user == x.deleted.key.user
    && x.upper.key.seqno > x.lower.key.seqno && x.tombstone.key.seqno > x.deleted.key.seqno
    && x.upper.key.seqno < MAX_SEQUENCE && x.tombstone.key.seqno <= x.upper.key.seqno
    && x.upper.key.kind.Value? && x.tombstone.key.kind.Deletion? && x.deleted.key.kind.Value?
  }

  ghost predicate IsBefore(x: Setup, v: Version) {
    && x.level + 1 < NUM_LEVELS
    && v[x.level] == [x.top] && v[x.level + 1] == [x.first, x.second]
    && forall l :: 0 <= l < NUM_LEVELS && l != x.level && l != x.level + 1 ==> v[l] == []
  }

  ghost predicate IsAfter(x: Setup, v: Version) {
    && x.level + 1 < NUM_LEVELS
    && v[x.level] == [] && v[x.level + 1] == [x.merged, x.second]
    && forall l :: 0 <= l < NUM_LEVELS && l != x.level && l != x.level + 1 ==> v[l] == []
  }

  ghost function Entries(x: Setup): (r: set<Entry>) {
    {x.upper, x.lower, x.tombstone, x.deleted}
  }

  ghost function Start(x: Setup, v: Version): (r: State) {
    State([], None, v, x.top.number + 1, x.upper.key.seqno, [], Entries(x))
  }

  ghost function Merge(x: Setup): (r: Step) {
    Compact(x.level, [x.top], [x.first], x.upper.key.seqno, [x.upper, x.lower, x.tombstone], [x.merged])
  }

  lemma ListContents(f: File, g: File)
    ensures LevelContents([f]) == Contents(f.entries)
    ensures LevelContents([f, g]) == Contents(f.entries) + Contents(g.entries)
  {
    assert f in [f] && f in [f, g] && g in [f, g];
  }

  lemma EntryLists(a: Entry, b: Entry)
    ensures Contents([a]) == {a} && Contents([a, b]) == {a, b}
  {
    assert a in [a] && a in [a, b] && b in [a, b];
  }

  lemma LevelsOf(x: Setup, v: Version, l: nat)
    requires SetupOk(x) && IsBefore(x, v) && l < NUM_LEVELS
    ensures LevelContents(v[l]) ==
      if l == x.level then {x.upper} else if l == x.level + 1 then {x.lower, x.tombstone, x.deleted} else {}
    ensures forall f :: f in v[l] ==> WellFormed(f) && f.number <= x.top.number
    ensures SortedDisjoint(v[l]) && SortedFiles(v[l])
  {
    ListContents(x.top, x.top);
    ListContents(x.first, x.second);
    EntryLists(x.upper, x.upper);
    EntryLists(x.lower, x.tombstone);
    EntryLists(x.deleted, x.deleted);
  }

  lemma ContentsOf(x: Setup, v: Version)
    requires SetupOk(x) && IsBefore(x, v)
    ensures VersionContents(v) == Entries(x)
  {
    LevelsOf(x, v, x.level);
    LevelsOf(x, v, x.level + 1);
    LevelInVersion(v, x.level);
    LevelInVersion(v, x.level + 1);
    forall e | e in VersionContents(v) ensures e in Entries(x) {
      var l :| 0 <= l < NUM_LEVELS && e in LevelContents(v[l]);
      LevelsOf(x, v, l);
    }
  }

  lemma LevelsAreNewer(x: Setup, v: Version, l: nat, m: nat)
    requires SetupOk(x) && IsBefore(x, v) && l < m < NUM_LEVELS
    ensures Newer(LevelContents(v[l]), LevelContents(v[m]))
  {
    LevelsOf(x, v, l);
    LevelsOf(x, v, m);
  }

  lemma EntriesAreDistinct(x: Setup)
    requires SetupOk(x)
    ensures Distinct(Entries(x))
    ensures (forall e :: e in Entries(x) ==> e.key.seqno <= x.upper.key.seqno) && x.upper.key.seqno < MAX_SEQUENCE
  {
  }

  lemma BeforeIsLayered(x: Setup, v: Version)
    requires SetupOk(x) && IsBefore(x, v)
    ensures LayeredVersion(v)
  {
    ContentsOf(x, v);
    EntriesAreDistinct(x);
    forall l | 0 <= l < NUM_LEVELS ensures SortedDisjoint(v[l]) && forall f :: f in v[l] ==> WellFormed(f) {
      LevelsOf(x, v, l);
    }
    forall l, m | 0 <= l < m < NUM_LEVELS ensures Newer(LevelContents(v[l]), LevelContents(v[m])) {
      LevelsAreNewer(x, v, l, m);
    }
  }

  lemma BeforeHasNumbers(x: Setup, v: Version)
    requires SetupOk(x) && IsBefore(x, v)
    ensures VersionOk(v, x.top.number + 1)
  {
    forall l | 0 <= l < NUM_LEVELS ensures SortedFiles(v[l]) && forall f :: f in v[l] ==> f.number <= x.top.number {
      LevelsOf(x, v, l);
    }
    forall l, f | 0 <= l < NUM_LEVELS && f in v[l]
      ensures (l == x.level && f == x.top) || (l == x.level + 1 && (f == x.first || f == x.second))
    {
    }
  }

  lemma OnlyFiles(v: Version, n: nat, last: SequenceNumber, all: set<Entry>)
    requires LayeredVersion(v) && VersionOk(v, n) && VersionContents(v) == all && Distinct(all)
    requires (forall e :: e in all ==> e.key.seqno <= last) && last < MAX_SEQUENCE
    ensures var s := State([], None, v, n, last, [], all); Everything(s) == all && Structured(s)
  {
    var s := State([], None, v, n, last, [], all);
    assert Contents(s.mem) == {};
    assert Everything(s) == all;
  }

  lemma CompleteIsFaithful(s: State)
    requires Everything(s) == s.history && Distinct(s.history)
    requires forall e :: e in s.history ==> e.key.seqno <= s.lastSequence
    ensures Faithful(s)
  {
  }

  lemma BeforeIsStructured(x: Setup, v: Version)
    requires SetupOk(x) && IsBefore(x, v)
    ensures Everything(Start(x, v)) == Entries(x)
    ensures Structured(Start(x, v))
  {
    BeforeIsLayered(x, v);
    BeforeHasNumbers(x, v);
    ContentsOf(x, v);
    EntriesAreDistinct(x);
    OnlyFiles(v, x.top.number + 1, x.upper.key.seqno, Entries(x));
  }

  /** The store is in a legal state that reads its whole history. */
  lemma BeforeIsLegal(x: Setup, v: Version)
    requires SetupOk(x) && IsBefore(x, v)
    ensures Structured(Start(x, v)) && Faithful(Start(x, v))
  {
    BeforeIsStructured(x, v);
    EntriesAreDistinct(x);
    CompleteIsFaithful(Start(x, v));
  }

  /** The rules of input selection pick the upper file and only the first lower file. */
  lemma InputsAreChosen(x: Setup, v: Version)
    requires SetupOk(x) && IsBefore(x, v)
    ensures PickedInputs(v, x.level, [x.top], [x.first])
    ensures InputContents([x.top], [x.first]) == {x.upper, x.lower, x.tombstone}
  {
    var lo, hi := x.top.smallest, x.top.largest;
    assert x.top in [x.top] && IsHull([x.top], lo, hi);
    FilterOfRun([x.first, x.second], Some(lo.user), Some(hi.user), 0, 1);
    assert IsSlice(v[x.level], 0, [x.top]);
    ListContents(x.top, x.top);
    ListContents(x.first, x.first);
    EntryLists(x.upper, x.upper);
    EntryLists(x.lower, x.tombstone);
  }

  lemma DroppedEntries(x: Setup, v: Version)
    requires SetupOk(x) && IsBefore(x, v)
    ensures DroppedBy(v, x.level, {x.upper, x.lower, x.tombstone}, x.upper.key.seqno) == {x.lower, x.tombstone}
    ensures IsBase(v, x.level, x.tombstone.key.user)
  {
    var inputs := {x.upper, x.lower, x.tombstone};
    assert IsBase(v, x.level, x.tombstone.key.user);
    assert Hidden(inputs, x.upper.key.seqno, x.lower) by { assert x.upper in inputs; }
    assert !Hidden(inputs, x.upper.key.seqno, x.upper);
  }

  lemma SurvivorsOf(a: Entry, b: Entry, c: Entry)
    requires a != b && a != c
    ensures Survivors([a, b, c], {b, c}) == [a]
    ensures Contents([a, b, c]) == {a, b, c}
  {
    var input := [a, b, c];
    assert input[0] == a && input[1] == b && input[2] == c;
    assert input[..2] == [a, b] && [a, b][..1] == [a] && [a][..0] == [];
    assert Survivors([a], {b, c}) == [a];
    assert Survivors([a, b], {b, c}) == [a];
  }

  lemma MergedTable(x: Setup)
    requires SetupOk(x)
    ensures Sorted([x.upper, x.lower, x.tombstone])
    ensures Payloads([x.merged]) == [x.upper]
  {
    assert [x.merged][..0] == [];
  }

  lemma MergedIsClear(x: Setup, v: Version)
    requires SetupOk(x) && IsBefore(x, v)
    ensures OutputsClear(v, x.level, [x.first], [x.merged]) && NewOutputs(v, x.top.number + 2, [x.merged])
  {
  }

  lemma MergeIsNext(x: Setup, v: Version, v': Version)
    requires SetupOk(x) && IsBefore(x, v) && IsAfter(x, v')
    ensures MergesInputs(v, x.top.number + 2, x.upper.key.seqno, x.level, [x.top], [x.first],
      [x.upper, x.lower, x.tombstone], [x.merged])
  {
    InputsAreChosen(x, v);
    PickedIsGood(v, x.level, [x.top], [x.first]);
    MergedIsClear(x, v);
    DroppedEntries(x, v);
    SurvivorsOf(x.upper, x.lower, x.tombstone);
    MergedTable(x);
  }

  lemma InstalledFiles(x: Setup, v: Version, v': Version)
    requires SetupOk(x) && IsBefore(x, v) && IsAfter(x, v')
    ensures Installs(v, CompactionEdit(x.level, [x.top], [x.first], [x.merged]), v')
  {
    var e := CompactionEdit(x.level, [x.top], [x.first], [x.merged]);
    EditSets(x.level, [x.top], [x.first], [x.merged]);
    assert FileSet([x.top]) == {x.top} && FileSet([x.first]) == {x.first} && FileSet([x.merged]) == {x.merged};
    assert Numbers({x.top}) == {x.top.number} && Numbers({x.first}) == {x.first.number}
      && Numbers({x.merged}) == {x.merged.number};
    assert FileSet([x.first, x.second]) == {x.first, x.second} && FileSet([x.merged, x.second]) == {x.merged, x.second};
    forall l | 0 <= l < NUM_LEVELS ensures SortedFiles(v'[l]) && FileSet(v'[l]) == Install(FileSet(v[l]), e, l) {
    }
  }

  ghost function Finish(x: Setup, v: Version, v': Version): (r: State) {
    Start(x, v).(version := v', nextFile := x.top.number + 2)
  }

  /** The compaction is a legal step. */
  lemma MergeIsLegal(x: Setup, v: Version, v': Version)
    requires SetupOk(x) && IsBefore(x, v) && IsAfter(x, v')
    ensures Next(Start(x, v), Merge(x), Finish(x, v, v'))
  {
    MergeIsNext(x, v, v');
    InstalledFiles(x, v, v');
  }

  lemma ReadChanges(x: Setup, v: Version, v': Version)
    requires SetupOk(x) && IsBefore(x, v) && IsAfter(x, v')
    ensures Read(Everything(Start(x, v)), x.deleted.key.user, x.upper.key.seqno) == None
    ensures Read(Everything(Finish(x, v, v')), x.deleted.key.user, x.upper.key.seqno) == Some(x.deleted.value)
    ensures Leaky(Start(x, v), Merge(x))
  {
    BeforeIsStructured(x, v);
    MergeIsLegal(x, v, v');
    ResurrectsHere(x, v);
    LeakyStepChangesRead(Start(x, v), Merge(x), Finish(x, v, v'), x.tombstone, x.deleted);
  }

  /** In every such set-up a legal compaction of a legal state that reads its whole history
      turns a key that read as absent into its deleted value. */
  lemma DeletedValueReturns(x: Setup, v: Version, v': Version)
    requires SetupOk(x) && IsBefore(x, v) && IsAfter(x, v')
    ensures Structured(Start(x, v)) && Faithful(Start(x, v)) && Next(Start(x, v), Merge(x), Finish(x, v, v'))
    ensures Read(Everything(Start(x, v)), x.deleted.key.user, x.upper.key.seqno) == None
    ensures Read(Everything(Finish(x, v, v')), x.deleted.key.user, x.upper.key.seqno) == Some(x.deleted.value)
    ensures Leaky(Start(x, v), Merge(x))
  {
    BeforeIsLegal(x, v);
    MergeIsLegal(x, v, v');
    ReadChanges(x, v, v');
  }

  lemma ResurrectsHere(x: Setup, v: Version)
    requires SetupOk(x) && IsBefore(x, v)
    ensures Resurrects(Entries(x), v, x.level, InputContents([x.top], [x.first]), x.upper.key.seqno,
      x.upper.key.seqno, x.tombstone, x.deleted)
  {
    InputsAreChosen(x, v);
    DroppedEntries(x, v);
    NewestOfKey(x);
  }

  /** The tombstone decides its key, and without the inputs the deleted value would. */
  lemma NewestOfKey(x: Setup)
    requires SetupOk(x)
    ensures Newest(Entries(x), x.tombstone.key.user, x.upper.key.seqno, x.tombstone)
    ensures Newest(Entries(x) - {x.upper, x.lower, x.tombstone}, x.tombstone.key.user, x.upper.key.seqno, x.deleted)
  {
    var rest := Entries(x) - {x.upper, x.lower, x.tombstone};
    assert Visible(Entries(x), x.tombstone.key.user, x.upper.key.seqno, x.tombstone);
    assert Visible(rest, x.tombstone.key.user, x.upper.key.seqno, x.deleted);
  }
}
