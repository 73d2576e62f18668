/** The merge loop of a compaction and the entries it drops. */
module CompactionWork {
  import opened InternalKeys
  import opened FlatStore
  import opened Levels
  import opened OutputCuts

  /** No file below the output level can hold `user`. */
  ghost predicate IsBase(v: Version, level: nat, user: UserKey) {
    forall l :: level + 2 <= l < NUM_LEVELS ==> !InSomeRange(v[l], user)
  }

  /** Rule (A): a newer input entry of the same user key is old enough for every live snapshot. */
  ghost predicate Hidden(inputs: set<Entry>, snapshot: SequenceNumber, e: Entry) {
    exists f :: f in inputs && f.key.user == e.key.user && e.key.seqno < f.key.seqno <= snapshot
  }

  ghost predicate Obsolete(v: Version, level: nat, snapshot: SequenceNumber, e: Entry) {
    e.key.kind.Deletion? && e.key.seqno <= snapshot && IsBase(v, level, e.key.user)
  }

  ghost function DroppedBy(v: Version, level: nat, inputs: set<Entry>, snapshot: SequenceNumber): (r: set<Entry>) {
    set e | e in inputs && (Hidden(inputs, snapshot, e) || Obsolete(v, level, snapshot, e))
  }

  /** The entries of `run` outside `dropped`, in order. */
  ghost function Survivors(run: seq<Entry>, dropped: set<Entry>): (r: seq<Entry>) {
    if run == [] then []
    else
      var last := run[|run| - 1];
      Survivors(run[..|run| - 1], dropped) + if last in dropped then [] else [last]
  }

  /** The per-level cursors that make the base-level test cheap: keys arrive in
      increasing order, so a file that ends before one key ends before all later ones.
      A further cursor walks the grandparents, the files two levels down that meet the inputs. */
  class Compaction {
    const level: nat
    const version: Version
    const grandparents: seq<File>
    const maxGrandparentBytes: nat
    var levelPtrs: array<nat>
    var grandparentIndex: nat
    var seenKey: bool
    var overlappedBytes: nat
    ghost var floor: UserKey

    ghost predicate Valid()
      reads this, levelPtrs
    {
      && levelPtrs.Length == NUM_LEVELS && level + 2 <= NUM_LEVELS
      && (forall l :: 1 <= l < NUM_LEVELS ==> SortedDisjoint(version[l]))
      && forall l :: level + 2 <= l < NUM_LEVELS ==>
           levelPtrs[l] <= |version[l]| && forall i :: 0 <= i < levelPtrs[l] ==> version[l][i].largest.user < floor
    }

    constructor (
      level: nat, version: Version, grandparents: seq<File>, maxGrandparentBytes: nat, ghost first: UserKey)
      requires level + 2 <= NUM_LEVELS && forall l :: 1 <= l < NUM_LEVELS ==> SortedDisjoint(version[l])
      ensures Valid() && fresh(levelPtrs) && Watched() == Watch(0, false, 0)
      ensures this.level == level && this.version == version && floor == first
      ensures this.grandparents == grandparents && this.maxGrandparentBytes == maxGrandparentBytes
    {
      this.level, this.version, floor := level, version, first;
      this.grandparents, this.maxGrandparentBytes := grandparents, maxGrandparentBytes;
      grandparentIndex, seenKey, overlappedBytes := 0, false, 0;
      levelPtrs := new nat[NUM_LEVELS](i => 0);
    }

    ghost function Watched(): (w: Watch)
      reads this
    {
      Watch(grandparentIndex, seenKey, overlappedBytes)
    }

    /** Passes the grandparents that end before the key, and stops once too many bytes were passed. */
    method ShouldStopBefore(key: InternalKey) returns (stop: bool)
      requires Valid() && grandparentIndex <= |grandparents|
      modifies this`grandparentIndex, this`seenKey, this`overlappedBytes
      ensures Valid() && Looked(grandparents, maxGrandparentBytes, old(Watched()), key, stop, Watched())
    {
      ghost var first := grandparentIndex;
      while grandparentIndex < |grandparents| && Before(grandparents[grandparentIndex].largest, key)
        invariant Valid() && first <= grandparentIndex <= |grandparents| && seenKey == old(seenKey)
        invariant forall m :: first <= m < grandparentIndex ==> Before(grandparents[m].largest, key)
        invariant overlappedBytes == old(overlappedBytes) + if seenKey
          then SizeOfFirst(grandparents, grandparentIndex) - SizeOfFirst(grandparents, first) else 0
      {
        OneMoreSize(grandparents, grandparentIndex);
        if seenKey {
          overlappedBytes := overlappedBytes + grandparents[grandparentIndex].size;
        }
        grandparentIndex := grandparentIndex + 1;
      }
      seenKey := true;
      stop := overlappedBytes > maxGrandparentBytes;
      if stop {
        overlappedBytes := 0;
      }
    }

    /** Agrees with a full scan of the deeper levels, for keys asked in increasing order. */
    method IsBaseLevelForKey(user: UserKey) returns (base: bool)
      requires Valid() && floor <= user
      modifies this`floor, levelPtrs
      ensures Valid() && floor == user
      ensures base <==> IsBase(version, level, user)
    {
      floor := user;
      for lvl := level + 2 to NUM_LEVELS
        invariant Valid() && floor == user && levelPtrs == old(levelPtrs)
        invariant forall l :: level + 2 <= l < lvl ==> !InSomeRange(version[l], user)
      {
        while levelPtrs[lvl] < |version[lvl]|
          invariant Valid() && floor == user && levelPtrs == old(levelPtrs)
          decreases |version[lvl]| - levelPtrs[lvl]
        {
          var f := version[lvl][levelPtrs[lvl]];
          if user <= f.largest.user {
            if user >= f.smallest.user {
              assert InSomeRange(version[lvl], user);
              return false;
            }
            break;
          }
          levelPtrs[lvl] := levelPtrs[lvl] + 1;
        }
        NotInRange(version[lvl], levelPtrs[lvl], user);
      }
      base := true;
    }
  }

  lemma NotInRange(files: seq<File>, p: nat, user: UserKey)
    requires SortedDisjoint(files) && p <= |files|
    requires forall i :: 0 <= i < p ==> files[i].largest.user < user
    requires p < |files| ==> user < files[p].smallest.user
    ensures !InSomeRange(files, user)
  {
    forall f | f in files ensures !(f.smallest.user <= user <= f.largest.user) {
      var i :| 0 <= i < |files| && files[i] == f;
      assert i <= p || Before(files[p].largest, f.smallest);
    }
  }

  /** In a sorted input, rule (A) is decided by the previous entry alone. */
  lemma HiddenByPrevious(input: seq<Entry>, snapshot: SequenceNumber, i: nat)
    requires Sorted(input) && Distinct(Contents(input)) && i < |input|
    ensures Hidden(Contents(input), snapshot, input[i]) <==>
            i > 0 && input[i - 1].key.user == input[i].key.user && input[i - 1].key.seqno <= snapshot
  {
    var e := input[i];
    if i > 0 && input[i - 1].key.user == e.key.user && input[i - 1].key.seqno <= snapshot {
      assert input[i - 1] in Contents(input) && e in Contents(input);
    }
    forall f | f in Contents(input) && f.key.user == e.key.user && e.key.seqno < f.key.seqno <= snapshot
      ensures i > 0 && input[i - 1].key.user == e.key.user && input[i - 1].key.seqno <= snapshot
    {
      var j :| 0 <= j < |input| && input[j] == f;
      assert j < i;
      assert j == i - 1 || Before(f.key, input[i - 1].key);
    }
  }

  /** An output table: numbered, with its metadata taken from its entries. */
  ghost predicate IsOutput(f: File, number: nat, entries: seq<Entry>) {
    f.number == number && f.entries == entries && WellFormed(f)
  }

  function MakeFile(number: nat, entries: seq<Entry>, tableSize: seq<Entry> -> nat): (f: File)
    requires |entries| > 0 && Sorted(entries)
    ensures IsOutput(f, number, entries)
  {
    FileMetaData(number, tableSize(entries), entries[0].key, entries[|entries| - 1].key, entries)
  }

  function Payloads(files: seq<File>): (r: seq<Entry>) {
    if files == [] then [] else Payloads(files[..|files| - 1]) + files[|files| - 1].entries
  }

  /** What the merge loop remembers of the entry before position `i`. */
  datatype Previous = Previous(hasCurrentUserKey: bool, currentUserKey: UserKey, lastSequenceForKey: SequenceNumber)

  ghost predicate Remembers(p: Previous, input: seq<Entry>, i: nat) {
    && i <= |input| && p.hasCurrentUserKey == (i > 0)
    && (i > 0 ==> p.currentUserKey == input[i - 1].key.user && p.lastSequenceForKey == input[i - 1].key.seqno)
  }

  /** The drop decision for one entry. */
  method ShouldDrop(
    c: Compaction, p: Previous, e: Entry, snapshot: SequenceNumber, ghost input: seq<Entry>, ghost i: nat)
    returns (drop: bool, p': Previous)
    requires c.Valid() && i < |input| && e == input[i] && c.floor <= e.key.user
    requires Sorted(input) && Distinct(Contents(input)) && Remembers(p, input, i)
    requires snapshot < MAX_SEQUENCE
    modifies c`floor, c.levelPtrs
    ensures c.Valid() && c.floor <= e.key.user && c.levelPtrs == old(c.levelPtrs)
    ensures drop <==> e in DroppedBy(c.version, c.level, Contents(input), snapshot)
    ensures Remembers(p', input, i + 1)
  {
    var last := p.lastSequenceForKey;
    if !p.hasCurrentUserKey || e.key.user != p.currentUserKey {
      last := MAX_SEQUENCE;
    }
    HiddenByPrevious(input, snapshot, i);
    drop := false;
    if last <= snapshot {
      drop := true;
    } else if e.key.kind.Deletion? && e.key.seqno <= snapshot {
      drop := c.IsBaseLevelForKey(e.key.user);
    }
    p' := Previous(true, e.key.user, e.key.seqno);
    assert e in Contents(input);
  }

  /** The merge loop: one pass over the sorted inputs that drops hidden entries and
      obsolete tombstones and cuts the rest into tables where the limits say so. */
  method DoCompactionWork(
    v: Version, level: nat, grandparents: seq<File>, input: seq<Entry>, snapshot: SequenceNumber, nextFile: nat,
    limits: Limits, tableSize: seq<Entry> -> nat)
    returns (outputs: seq<File>)
    requires level + 2 <= NUM_LEVELS && forall l :: 1 <= l < NUM_LEVELS ==> SortedDisjoint(v[l])
    requires Sorted(input) && Distinct(Contents(input)) && SortedDisjoint(grandparents)
    requires snapshot < MAX_SEQUENCE
    ensures Payloads(outputs) == Survivors(input, DroppedBy(v, level, Contents(input), snapshot))
    ensures forall i :: 0 <= i < |outputs| ==> WellFormed(outputs[i]) && outputs[i].number == nextFile + i
    ensures CutWell(grandparents, limits, outputs)
  {
    ghost var dropped := DroppedBy(v, level, Contents(input), snapshot);
    var compaction := new Compaction(
      level, v, grandparents, limits.maxGrandparentBytes, if input == [] then 0 else input[0].key.user);
    var builder;
    ghost var from, stops;
    outputs, builder, from, stops := MergeAll(compaction, input, snapshot, nextFile, limits, tableSize, dropped);
    AllMerged(input, dropped, nextFile, outputs, builder);
    outputs, builder := FinishLast(
      grandparents, limits, compaction.Watched(), input, outputs, builder, from, stops, nextFile, tableSize);
  }

  /** The loop: on return the last table is still open. */
  method MergeAll(
    c: Compaction, input: seq<Entry>, snapshot: SequenceNumber, nextFile: nat, limits: Limits,
    tableSize: seq<Entry> -> nat, ghost dropped: set<Entry>)
    returns (outputs: seq<File>, builder: seq<Entry>, ghost from: nat, ghost stops: nat)
    requires Serves(c, c.version, c.level, c.grandparents, limits) && SortedDisjoint(c.grandparents)
    requires c.Watched() == Watch(0, false, 0) && (input != [] ==> c.floor <= input[0].key.user)
    requires Sorted(input) && Distinct(Contents(input)) && snapshot < MAX_SEQUENCE
    requires dropped == DroppedBy(c.version, c.level, Contents(input), snapshot)
    modifies c, c.levelPtrs
    ensures Merged(input, |input|, dropped, nextFile, outputs, builder)
    ensures Cutting(c.grandparents, limits, c.Watched(), input, |input|, outputs, builder, from, stops)
  {
    outputs, builder, from, stops := [], [], 0, 0;
    var previous := Previous(false, 0, MAX_SEQUENCE);
    NothingMerged(input, dropped, nextFile, previous);
    StartCutting(c.grandparents, limits, input);
    for i := 0 to |input|
      invariant Serves(c, c.version, c.level, c.grandparents, limits) && c.levelPtrs == old(c.levelPtrs)
      invariant i < |input| ==> c.floor <= input[i].key.user
      invariant Merging(input, i, dropped, nextFile, outputs, builder, previous)
      invariant Cutting(c.grandparents, limits, c.Watched(), input, i, outputs, builder, from, stops)
    {
      outputs, builder, previous, from, stops := MergeEntry(
        c, input, i, snapshot, outputs, builder, previous, nextFile, limits, tableSize, dropped, from, stops);
    }
  }

  /** The compaction object was made for these inputs and limits. */
  ghost predicate Serves(c: Compaction, v: Version, level: nat, grandparents: seq<File>, limits: Limits)
    reads c, c.levelPtrs
  {
    && c.Valid() && c.level == level && c.version == v
    && c.grandparents == grandparents && c.maxGrandparentBytes == limits.maxGrandparentBytes
  }

  method FinishLast(
    ghost grandparents: seq<File>, ghost limits: Limits, ghost w: Watch, ghost input: seq<Entry>, outputs: seq<File>,
    builder: seq<Entry>, ghost from: nat, ghost stops: nat, nextFile: nat, tableSize: seq<Entry> -> nat)
    returns (outputs': seq<File>, builder': seq<Entry>)
    requires SortedDisjoint(grandparents) && Sorted(builder) && Numbered(outputs, nextFile)
    requires Cutting(grandparents, limits, w, input, |input|, outputs, builder, from, stops)
    ensures Written(outputs', builder') == Written(outputs, builder) && builder' == []
    ensures Numbered(outputs', nextFile) && CutWell(grandparents, limits, outputs')
  {
    outputs', builder' := FinishIf(true, outputs, builder, nextFile, tableSize);
    LastTable(grandparents, limits, w, input, |input|, outputs, builder, from, stops, outputs', builder');
  }

  lemma AllMerged(input: seq<Entry>, dropped: set<Entry>, nextFile: nat, outputs: seq<File>, builder: seq<Entry>)
    requires Merged(input, |input|, dropped, nextFile, outputs, builder)
    ensures Written(outputs, builder) == Survivors(input, dropped)
  {
    assert input[..|input|] == input;
  }

  lemma NothingMerged(input: seq<Entry>, dropped: set<Entry>, nextFile: nat, previous: Previous)
    requires previous == Previous(false, 0, MAX_SEQUENCE)
    ensures Merging(input, 0, dropped, nextFile, [], [], previous)
  {
  }

  /** One turn of the loop: maybe close the open table, decide on the entry, and keep it or not. */
  method MergeEntry(
    c: Compaction, input: seq<Entry>, i: nat, snapshot: SequenceNumber, outputs: seq<File>, builder: seq<Entry>,
    previous: Previous, nextFile: nat, limits: Limits, tableSize: seq<Entry> -> nat, ghost dropped: set<Entry>,
    ghost from: nat, ghost stops: nat)
    returns (
      outputs': seq<File>, builder': seq<Entry>, previous': Previous, ghost from': nat, ghost stops': nat)
    requires Serves(c, c.version, c.level, c.grandparents, limits) && SortedDisjoint(c.grandparents)
    requires i < |input| && c.floor <= input[i].key.user
    requires Sorted(input) && Distinct(Contents(input)) && snapshot < MAX_SEQUENCE
    requires Merging(input, i, dropped, nextFile, outputs, builder, previous)
    requires Cutting(c.grandparents, limits, c.Watched(), input, i, outputs, builder, from, stops)
    requires dropped == DroppedBy(c.version, c.level, Contents(input), snapshot)
    modifies c`floor, c.levelPtrs, c`grandparentIndex, c`seenKey, c`overlappedBytes
    ensures c.Valid() && c.levelPtrs == old(c.levelPtrs)
    ensures i + 1 < |input| ==> c.floor <= input[i + 1].key.user
    ensures Merging(input, i + 1, dropped, nextFile, outputs', builder', previous')
    ensures Cutting(c.grandparents, limits, c.Watched(), input, i + 1, outputs', builder', from', stops')
  {
    outputs', builder', stops' := StopIfDue(c, input, i, outputs, builder, nextFile, limits, tableSize, from, stops);
    MergedStays(input, i, dropped, nextFile, outputs, builder, outputs', builder');
    ghost var w := c.Watched();
    var drop;
    drop, previous' := ShouldDrop(c, previous, input[i], snapshot, input, i);
    outputs', builder', from' := TakeEntry(
      drop, input, i, outputs', builder', nextFile, c.grandparents, limits, tableSize, dropped, w, from, stops');
  }

  lemma MergedStays(
    input: seq<Entry>, i: nat, dropped: set<Entry>, nextFile: nat, outputs: seq<File>, builder: seq<Entry>,
    outputs': seq<File>, builder': seq<Entry>)
    requires Merged(input, i, dropped, nextFile, outputs, builder)
    requires Written(outputs', builder') == Written(outputs, builder) && Numbered(outputs', nextFile)
    requires builder' == builder || builder' == []
    ensures Merged(input, i, dropped, nextFile, outputs', builder')
  {
  }

  /** Ends the open table if the grandparents call for it. */
  method StopIfDue(
    c: Compaction, input: seq<Entry>, i: nat, outputs: seq<File>, builder: seq<Entry>, nextFile: nat, limits: Limits,
    tableSize: seq<Entry> -> nat, ghost from: nat, ghost stops: nat)
    returns (outputs': seq<File>, builder': seq<Entry>, ghost stops': nat)
    requires Serves(c, c.version, c.level, c.grandparents, limits) && SortedDisjoint(c.grandparents)
    requires i < |input| && Sorted(input) && Sorted(builder) && Numbered(outputs, nextFile)
    requires Cutting(c.grandparents, limits, c.Watched(), input, i, outputs, builder, from, stops)
    modifies c`grandparentIndex, c`seenKey, c`overlappedBytes
    ensures c.Valid()
    ensures Written(outputs', builder') == Written(outputs, builder) && Numbered(outputs', nextFile)
    ensures builder' == builder || builder' == []
    ensures Cutting(c.grandparents, limits, c.Watched(), input, i + 1, outputs', builder', from, stops')
  {
    ghost var w := c.Watched();
    var stop := c.ShouldStopBefore(input[i].key);
    outputs', builder' := FinishIf(stop, outputs, builder, nextFile, tableSize);
    stops' := if stop then stops + 1 else stops;
    StopStep(
      c.grandparents, limits, w, input, i, outputs, builder, from, stops, stop, c.Watched(), outputs', builder');
  }

  ghost predicate Merging(
    input: seq<Entry>, i: nat, dropped: set<Entry>, nextFile: nat, outputs: seq<File>, builder: seq<Entry>,
    previous: Previous)
  {
    Remembers(previous, input, i) && Merged(input, i, dropped, nextFile, outputs, builder)
  }

  /** The first `i` entries are merged: survivors written, the open table ending before the next entry. */
  ghost predicate Merged(
    input: seq<Entry>, i: nat, dropped: set<Entry>, nextFile: nat, outputs: seq<File>, builder: seq<Entry>)
  {
    && i <= |input| && Written(outputs, builder) == Survivors(input[..i], dropped)
    && EndsBefore(builder, input, i) && Numbered(outputs, nextFile)
  }

  /** Adds an entry that is not dropped to the open table, and ends the table if it is full. */
  method TakeEntry(
    drop: bool, input: seq<Entry>, i: nat, outputs: seq<File>, builder: seq<Entry>, nextFile: nat,
    ghost grandparents: seq<File>, limits: Limits, tableSize: seq<Entry> -> nat, ghost dropped: set<Entry>,
    ghost w: Watch, ghost from: nat, ghost stops: nat)
    returns (outputs': seq<File>, builder': seq<Entry>, ghost from': nat)
    requires Sorted(input) && i < |input| && (drop <==> input[i] in dropped) && SortedDisjoint(grandparents)
    requires Merged(input, i, dropped, nextFile, outputs, builder)
    requires Cutting(grandparents, limits, w, input, i + 1, outputs, builder, from, stops)
    ensures Merged(input, i + 1, dropped, nextFile, outputs', builder')
    ensures Cutting(grandparents, limits, w, input, i + 1, outputs', builder', from', stops)
  {
    outputs', builder', from' := outputs, builder, from;
    SurvivorsStep(input, i, dropped);
    AppendKeepsOrder(builder, input, i);
    if !drop {
      AppendWritten(outputs, builder, input[i]);
      var full := limits.fileSize(builder + [input[i]]) >= limits.maxOutputSize;
      outputs', builder' := FinishIf(full, outputs, builder + [input[i]], nextFile, tableSize);
      from' := FromOf(w, builder, from);
      TakeStep(grandparents, limits, w, input, i, outputs, builder, from, stops, outputs', builder');
    }
  }

  /** Everything written so far: finished tables, then the table being built. */
  ghost function Written(outputs: seq<File>, builder: seq<Entry>): (r: seq<Entry>) {
    Payloads(outputs) + builder
  }

  lemma AppendWritten(outputs: seq<File>, builder: seq<Entry>, e: Entry)
    ensures Written(outputs, builder + [e]) == Written(outputs, builder) + [e]
  {
  }

  lemma SurvivorsStep(input: seq<Entry>, i: nat, dropped: set<Entry>)
    requires i < |input|
    ensures Survivors(input[..i + 1], dropped) == Survivors(input[..i], dropped)
      + if input[i] in dropped then [] else [input[i]]
  {
    assert input[..i + 1][..i] == input[..i];
  }

  /** Sorted, and made of entries that come before position `i`. */
  ghost predicate EndsBefore(builder: seq<Entry>, input: seq<Entry>, i: nat) {
    && Sorted(builder)
    && forall j :: 0 <= j < |builder| && i < |input| ==> Before(builder[j].key, input[i].key)
  }

  lemma AppendKeepsOrder(builder: seq<Entry>, input: seq<Entry>, i: nat)
    requires Sorted(input) && i < |input| && EndsBefore(builder, input, i)
    ensures EndsBefore(builder, input, i + 1)
    ensures EndsBefore(builder + [input[i]], input, i + 1)
  {
    if i + 1 < |input| {
      assert Before(input[i].key, input[i + 1].key);
    }
  }

  ghost predicate Numbered(files: seq<File>, first: nat) {
    forall j :: 0 <= j < |files| ==> WellFormed(files[j]) && files[j].number == first + j
  }

  /** Closes the table being built, if there is one and it is time to. */
  method FinishIf(cut: bool, outputs: seq<File>, builder: seq<Entry>, nextFile: nat, tableSize: seq<Entry> -> nat)
    returns (outputs': seq<File>, builder': seq<Entry>)
    requires Sorted(builder) && Numbered(outputs, nextFile)
    ensures Written(outputs', builder') == Written(outputs, builder)
    ensures Numbered(outputs', nextFile) && Ends(cut, outputs, builder, outputs', builder')
  {
    if cut && builder != [] {
      outputs' := outputs + [MakeFile(nextFile + |outputs|, builder, tableSize)];
      assert outputs'[..|outputs|] == outputs;
      builder' := [];
    } else {
      outputs', builder' := outputs, builder;
    }
  }

  lemma {:induction false} SurvivorsContents(run: seq<Entry>, dropped: set<Entry>)
    ensures Contents(Survivors(run, dropped)) == Contents(run) - dropped
  {
    if run == [] {
      assert Contents(Survivors(run, dropped)) == {};
    } else {
      var front, last := run[..|run| - 1], run[|run| - 1];
      SurvivorsContents(front, dropped);
      assert run == front + [last];
      assert Contents(run) == Contents(front) + {last};
      var kept := Survivors(front, dropped);
      if last in dropped {
        assert Survivors(run, dropped) == kept;
      } else {
        assert Contents(kept + [last]) == Contents(kept) + {last};
      }
    }
  }

  lemma {:induction false} SurvivorsSorted(run: seq<Entry>, dropped: set<Entry>)
    requires Sorted(run)
    ensures Sorted(Survivors(run, dropped))
  {
    if run != [] {
      var front, last := run[..|run| - 1], run[|run| - 1];
      SurvivorsSorted(front, dropped);
      SurvivorsContents(front, dropped);
      var kept := Survivors(front, dropped);
      forall i | 0 <= i < |kept| ensures Before(kept[i].key, last.key) {
        assert kept[i] in Contents(kept);
        assert kept[i] in front;
      }
    }
  }

  lemma {:induction false} PayloadContents(files: seq<File>)
    ensures Contents(Payloads(files)) == LevelContents(files)
  {
    if files != [] {
      var front, last := files[..|files| - 1], files[|files| - 1];
      PayloadContents(front);
      assert files == front + [last];
      forall e | e in LevelContents(files) ensures e in Contents(Payloads(files)) {
        var f :| f in files && e in f.entries;
        assert f in front || f == last;
        assert f in front ==> e in LevelContents(front);
      }
      forall e | e in Contents(Payloads(files)) ensures e in LevelContents(files) {
        if e in Payloads(front) {
          assert e in LevelContents(front);
        } else {
          assert last in files;
        }
      }
    }
  }

  /** Tables cut from one sorted run are sorted and disjoint. */
  lemma {:induction false} CutsAreDisjoint(files: seq<File>)
    requires Sorted(Payloads(files)) && forall f :: f in files ==> WellFormed(f)
    ensures SortedDisjoint(files)
  {
    if files != [] {
      var front, last := files[..|files| - 1], files[|files| - 1];
      assert files == front + [last];
      var p := Payloads(front);
      assert p == Payloads(files)[..|p|];
      CutsAreDisjoint(front);
      PayloadContents(front);
      forall i | 0 <= i < |front| ensures Before(front[i].largest, last.smallest) {
        assert front[i] in files && last in files && WellFormed(front[i]) && WellFormed(last);
        var e := front[i].entries[|front[i].entries| - 1];
        assert front[i] in front && e in front[i].entries;
        assert e in LevelContents(front);
        var j :| 0 <= j < |p| && p[j] == e;
        assert Payloads(files)[j] == e && Payloads(files)[|p|] == last.entries[0];
      }
    }
  }
}
