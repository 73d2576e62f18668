/** Applying version edits: the builder that merges base files with added files, and
  * why replaying a manifest through one builder equals installing edit by edit. */
module VersionBuilder {
  import opened InternalKeys
  import opened FlatStore
  import opened Wrappers
  import opened Levels

  /** By smallest key, ties broken by file number. */
  predicate FileLess(f: File, g: File) {
    Before(f.smallest, g.smallest) || (f.smallest == g.smallest && f.number < g.number)
  }

  ghost predicate SortedFiles(files: seq<File>) {
    forall i, j :: 0 <= i < j < |files| ==> FileLess(files[i], files[j])
  }

  ghost function FileSet(files: seq<File>): (r: set<File>) {
    set f | f in files
  }

  /** What one level's pending edits leave of the files in `base`. */
  ghost function Live(base: set<File>, deleted: set<nat>, added: set<File>): (r: set<File>) {
    set f | f in base + added && f.number !in deleted
  }

  /** Two sorted lists of the same files are the same list. */
  lemma {:induction false} SortedListsAgree(a: seq<File>, b: seq<File>)
    requires SortedFiles(a) && SortedFiles(b) && FileSet(a) == FileSet(b)
    ensures a == b
  {
    HeadInSet(a);
    HeadInSet(b);
    if a != [] {
      var j :| 0 <= j < |b| && b[j] == a[0];
      var i :| 0 <= i < |a| && a[i] == b[0];
      assert i == 0 && j == 0;
      TailSet(a);
      TailSet(b);
      SortedListsAgree(a[1..], b[1..]);
    }
  }

  lemma HeadInSet(a: seq<File>)
    ensures a == [] || a[0] in FileSet(a)
    ensures a == [] ==> FileSet(a) == {}
  {
  }

  lemma TailSet(a: seq<File>)
    requires a != [] && SortedFiles(a)
    ensures FileSet(a[1..]) == FileSet(a) - {a[0]}
  {
    assert a == [a[0]] + a[1..];
    assert forall f :: f in a[1..] ==> FileLess(a[0], f);
  }

  datatype LevelState = LevelState(deleted: set<nat>, added: seq<File>)

  /** One version edit: deletions and additions as (level, file) pairs. */
  datatype Edit = Edit(deleted: seq<(nat, nat)>, added: seq<(nat, File)>)

  ghost predicate ValidEdit(e: Edit) {
    && (forall d :: d in e.deleted ==> d.0 < NUM_LEVELS)
    && (forall a :: a in e.added ==> a.0 < NUM_LEVELS)
  }

  ghost function DeletedIn(e: Edit, l: nat): (r: set<nat>) {
    set d | d in e.deleted && d.0 == l :: d.1
  }

  ghost function AddedIn(e: Edit, l: nat): (r: set<File>) {
    set a | a in e.added && a.0 == l :: a.1
  }

  ghost function Numbers(files: set<File>): (r: set<nat>) {
    set f | f in files :: f.number
  }

  /** A file number always carries the same metadata. */
  ghost predicate SameMetadata(files: set<File>) {
    forall f, g :: f in files && g in files && f.number == g.number ==> f == g
  }

  lemma SpliceSorted(files: seq<File>, i: nat, f: File)
    requires SortedFiles(files) && i <= |files|
    requires forall j :: 0 <= j < i ==> FileLess(files[j], f)
    requires i < |files| ==> FileLess(f, files[i])
    ensures SortedFiles(files[..i] + [f] + files[i..])
  {
    var r := files[..i] + [f] + files[i..];
    assert forall k :: 0 <= k < |r| ==> r[k] == if k < i then files[k] else if k == i then f else files[k - 1];
    assert forall j :: i < j < |files| ==> FileLess(files[i], files[j]);
  }

  lemma SpliceSet(files: seq<File>, i: nat, f: File)
    requires i <= |files|
    ensures FileSet(files[..i] + [f] + files[i..]) == FileSet(files) + {f}
  {
    assert files == files[..i] + files[i..];
  }

  /** Puts `f` into a sorted list unless it is already there. */
  method InsertSorted(files: seq<File>, f: File) returns (r: seq<File>)
    requires SortedFiles(files) && SameMetadata(FileSet(files) + {f})
    ensures SortedFiles(r)
    ensures FileSet(r) == FileSet(files) + {f}
  {
    var i := 0;
    while i < |files| && FileLess(files[i], f)
      invariant 0 <= i <= |files|
      invariant forall j :: 0 <= j < i ==> FileLess(files[j], f)
    {
      i := i + 1;
    }
    if i < |files| && !FileLess(f, files[i]) {
      assert files[i] in FileSet(files) + {f};
      r := files;
    } else {
      SpliceSorted(files, i, f);
      SpliceSet(files, i, f);
      r := files[..i] + [f] + files[i..];
    }
  }

  /** Merges a level's base files with its added files, leaving out deleted numbers. */
  method SaveTo(base: seq<File>, added: seq<File>, deleted: set<nat>) returns (r: seq<File>)
    requires SortedFiles(base) && SortedFiles(added) && SameMetadata(FileSet(base) + FileSet(added))
    requires forall f :: f in base && f in added ==> f.number in deleted
    ensures SortedFiles(r)
    ensures FileSet(r) == Live(FileSet(base), deleted, FileSet(added))
  {
    r := [];
    var b := 0;
    for k := 0 to |added|
      invariant 0 <= b <= |base|
      invariant Merged(base, b, added, k, deleted, r)
      invariant k < |added| ==> PassedBy(base, b, added[k])
    {
      b, r := AddSmallerBase(base, b, added, k, deleted, r);
      AddAdded(base, b, added, k, deleted, r);
      r := MaybeAddFile(r, added[k], deleted);
      if k + 1 < |added| {
        PassedByNext(base, b, added[k], added[k + 1]);
      }
    }
    while b < |base|
      invariant 0 <= b <= |base|
      invariant Merged(base, b, added, |added|, deleted, r)
    {
      AddBase(base, b, added, |added|, deleted, r);
      r := MaybeAddFile(r, base[b], deleted);
      b := b + 1;
    }
    assert base[..|base|] == base && added[..|added|] == added;
  }

  /** The base files before the cursor sort before `f`, unless they are `f`. */
  ghost predicate PassedBy(base: seq<File>, b: nat, f: File) {
    b <= |base| && forall i :: 0 <= i < b && base[i] != f ==> FileLess(base[i], f)
  }

  lemma PassedByNext(base: seq<File>, b: nat, f: File, g: File)
    requires PassedBy(base, b, f) && FileLess(f, g)
    ensures PassedBy(base, b, g)
  {
  }

  lemma PassOne(base: seq<File>, b: nat, added: seq<File>, k: nat)
    requires b < |base| && k < |added| && SameMetadata(FileSet(base) + FileSet(added))
    requires PassedBy(base, b, added[k]) && !FileLess(added[k], base[b])
    ensures PassedBy(base, b + 1, added[k])
  {
    assert base[b] in FileSet(base) + FileSet(added) && added[k] in FileSet(base) + FileSet(added);
    BeforeIsTotal(base[b].smallest, added[k].smallest);
    assert base[b] == added[k] || FileLess(base[b], added[k]);
  }

  /** Adds the base files that do not sort after the added file at `k`. */
  method AddSmallerBase(base: seq<File>, b0: nat, added: seq<File>, k: nat, deleted: set<nat>, r0: seq<File>)
    returns (b: nat, r: seq<File>)
    requires SortedFiles(base) && k < |added| && SameMetadata(FileSet(base) + FileSet(added))
    requires forall f :: f in base && f in added ==> f.number in deleted
    requires Merged(base, b0, added, k, deleted, r0) && PassedBy(base, b0, added[k])
    ensures Merged(base, b, added, k, deleted, r) && PassedBy(base, b, added[k])
    ensures b < |base| ==> FileLess(added[k], base[b])
  {
    b, r := b0, r0;
    while b < |base| && !FileLess(added[k], base[b])
      invariant Merged(base, b, added, k, deleted, r) && PassedBy(base, b, added[k])
    {
      AddBase(base, b, added, k, deleted, r);
      r := MaybeAddFile(r, base[b], deleted);
      PassOne(base, b, added, k);
      b := b + 1;
    }
  }

  function MaybeAddFile(files: seq<File>, f: File, deleted: set<nat>): (r: seq<File>) {
    if f.number in deleted then files else files + [f]
  }

  /** `r` is the merge of the first `b` base files and the first `k` added files. */
  ghost predicate Merged(base: seq<File>, b: nat, added: seq<File>, k: nat, deleted: set<nat>, r: seq<File>) {
    && b <= |base| && k <= |added|
    && SortedFiles(r)
    && FileSet(r) == Live(FileSet(base[..b]), deleted, FileSet(added[..k]))
    && (forall i, j :: 0 <= i < k && b <= j < |base| && added[i] != base[j] ==> FileLess(added[i], base[j]))
  }

  lemma SnocSet(files: seq<File>, f: File)
    ensures FileSet(files + [f]) == FileSet(files) + {f}
  {
  }

  lemma AddLive(base: set<File>, deleted: set<nat>, added: set<File>, f: File)
    ensures Live(base + {f}, deleted, added) == Live(base, deleted, added + {f})
    ensures Live(base + {f}, deleted, added) == Live(base, deleted, added) + if f.number in deleted then {} else {f}
  {
  }

  lemma AppendLarger(r: seq<File>, f: File, deleted: set<nat>)
    requires SortedFiles(r)
    requires f.number !in deleted ==> forall g :: g in FileSet(r) ==> FileLess(g, f)
    ensures SortedFiles(MaybeAddFile(r, f, deleted))
    ensures FileSet(MaybeAddFile(r, f, deleted)) == FileSet(r) + if f.number in deleted then {} else {f}
  {
    SnocSet(r, f);
    assert f.number !in deleted ==> forall i :: 0 <= i < |r| ==> r[i] in FileSet(r);
  }

  lemma PrefixSet(files: seq<File>, n: nat)
    requires n < |files|
    ensures FileSet(files[..n + 1]) == FileSet(files[..n]) + {files[n]}
  {
    assert files[..n + 1] == files[..n] + [files[n]];
    SnocSet(files[..n], files[n]);
  }

  /** A file merged so far is a live base file or a live added file before the cursors. */
  lemma MergedFrom(base: seq<File>, b: nat, added: seq<File>, k: nat, deleted: set<nat>, r: seq<File>, g: File)
    requires Merged(base, b, added, k, deleted, r) && g in FileSet(r)
    ensures g.number !in deleted
    ensures (exists i :: 0 <= i < b && base[i] == g) || (exists i :: 0 <= i < k && added[i] == g)
  {
    if g in base[..b] {
      var i :| 0 <= i < b && base[..b][i] == g;
      assert base[i] == g;
    } else {
      var i :| 0 <= i < k && added[..k][i] == g;
      assert added[i] == g;
    }
  }

  lemma AddBase(base: seq<File>, b: nat, added: seq<File>, k: nat, deleted: set<nat>, r: seq<File>)
    requires b < |base| && SortedFiles(base) && Merged(base, b, added, k, deleted, r)
    requires forall f :: f in base && f in added ==> f.number in deleted
    ensures Merged(base, b + 1, added, k, deleted, MaybeAddFile(r, base[b], deleted))
  {
    PrefixSet(base, b);
    AddLive(FileSet(base[..b]), deleted, FileSet(added[..k]), base[b]);
    forall g | g in FileSet(r) && base[b].number !in deleted ensures FileLess(g, base[b]) {
      MergedFrom(base, b, added, k, deleted, r, g);
      assert base[b] in base;
    }
    AppendLarger(r, base[b], deleted);
  }

  lemma AddAdded(base: seq<File>, b: nat, added: seq<File>, k: nat, deleted: set<nat>, r: seq<File>)
    requires k < |added| && SortedFiles(added) && SortedFiles(base) && Merged(base, b, added, k, deleted, r)
    requires forall f :: f in base && f in added ==> f.number in deleted
    requires forall i :: 0 <= i < b && base[i] != added[k] ==> FileLess(base[i], added[k])
    requires b < |base| ==> FileLess(added[k], base[b])
    ensures Merged(base, b, added, k + 1, deleted, MaybeAddFile(r, added[k], deleted))
  {
    PrefixSet(added, k);
    AddLive(FileSet(base[..b]), deleted, FileSet(added[..k]), added[k]);
    forall g | g in FileSet(r) && added[k].number !in deleted ensures FileLess(g, added[k]) {
      MergedFrom(base, b, added, k, deleted, r, g);
      assert added[k] in added;
    }
    AppendLarger(r, added[k], deleted);
    forall j | b <= j < |base| ensures FileLess(added[k], base[j]) {
      assert j == b || FileLess(base[b], base[j]);
    }
  }

  /** The pending edits of all levels. */
  class Builder {
    var levels: seq<LevelState>

    ghost predicate Valid()
      reads this
    {
      |levels| == NUM_LEVELS && forall l :: 0 <= l < NUM_LEVELS ==> SortedFiles(levels[l].added)
    }

    constructor ()
      ensures Valid()
      ensures forall l :: 0 <= l < NUM_LEVELS ==> levels[l] == LevelState({}, [])
    {
      levels := seq(NUM_LEVELS, i => LevelState({}, []));
    }

    method RecordDeletions(deleted: seq<(nat, nat)>)
      requires Valid() && forall d :: d in deleted ==> d.0 < NUM_LEVELS
      modifies this
      ensures Valid()
      ensures forall l :: 0 <= l < NUM_LEVELS ==>
                levels[l] == old(levels[l]).(deleted := old(levels[l].deleted) + DeletedIn(Edit(deleted, []), l))
    {
      for i := 0 to |deleted|
        invariant Valid()
        invariant forall l :: 0 <= l < NUM_LEVELS ==>
                    levels[l] == old(levels[l]).(deleted := old(levels[l].deleted) + DeletedIn(Edit(deleted[..i], []),
                      l))
      {
        var (level, number) := deleted[i];
        DeletedStep(deleted, i);
        levels := levels[level := levels[level].(deleted := levels[level].deleted + {number})];
      }
      assert deleted[..|deleted|] == deleted;
    }

    method RecordAdditions(added: seq<(nat, File)>)
      requires Valid() && forall a :: a in added ==> a.0 < NUM_LEVELS
      requires forall l :: 0 <= l < NUM_LEVELS ==> SameMetadata(FileSet(levels[l].added) + AddedIn(Edit([], added), l))
      modifies this
      ensures Valid()
      ensures forall l :: 0 <= l < NUM_LEVELS ==> Added(old(levels[l]), levels[l], AddedIn(Edit([], added), l))
    {
      for i := 0 to |added|
        invariant Valid()
        invariant forall l :: 0 <= l < NUM_LEVELS ==> Added(old(levels[l]), levels[l], AddedIn(Edit([], added[..i]), l))
      {
        var (level, f) := added[i];
        AddedStep(added, i);
        var more := InsertSorted(levels[level].added, f);
        var next := LevelState(levels[level].deleted - {f.number}, more);
        AddOne(old(levels[level]), levels[level], AddedIn(Edit([], added[..i]), level), f, next);
        levels := levels[level := next];
      }
      assert added[..|added|] == added;
    }

    /** Deletions first; an added file is taken off the deleted list again. */
    method Apply(e: Edit)
      requires Valid() && ValidEdit(e)
      requires forall l :: 0 <= l < NUM_LEVELS ==> SameMetadata(FileSet(levels[l].added) + AddedIn(e, l))
      modifies this
      ensures Valid()
      ensures forall l :: 0 <= l < NUM_LEVELS ==>
                Pending(levels[l]) == ApplyTo(old(Pending(levels[l])), DeletedIn(e, l), AddedIn(e, l))
    {
      assert forall l: nat :: DeletedIn(Edit(e.deleted, []), l) == DeletedIn(e, l);
      assert forall l: nat :: AddedIn(Edit([], e.added), l) == AddedIn(e, l);
      RecordDeletions(e.deleted);
      RecordAdditions(e.added);
    }

    /** The version that the pending edits make of `base`. */
    method Save(base: Version) returns (v: Version)
      requires Valid() && forall l :: 0 <= l < NUM_LEVELS ==> SortedFiles(base[l])
      requires forall l :: 0 <= l < NUM_LEVELS ==>
                 FileSet(base[l]) !! FileSet(levels[l].added)
                   && SameMetadata(FileSet(base[l]) + FileSet(levels[l].added))
      ensures forall l :: 0 <= l < NUM_LEVELS ==>
                SortedFiles(v[l]) && FileSet(v[l]) == Live(FileSet(base[l]), Pending(levels[l]).0, Pending(levels[l]).1)
    {
      v := base;
      for l := 0 to NUM_LEVELS
        invariant |v| == NUM_LEVELS
        invariant forall k :: 0 <= k < l ==>
                    SortedFiles(v[k]) && FileSet(v[k])
                      == Live(FileSet(base[k]), levels[k].deleted, FileSet(levels[k].added))
      {
        assert forall f :: f in base[l] && f in levels[l].added ==>
          f in FileSet(base[l]) && f in FileSet(levels[l].added);
        var files := SaveTo(base[l], levels[l].added, levels[l].deleted);
        v := v[l := files];
      }
    }
  }

  /** Pending edits of one level, as sets. */
  ghost function Pending(s: LevelState): (r: (set<nat>, set<File>)) {
    (s.deleted, FileSet(s.added))
  }

  ghost function ApplyTo(p: (set<nat>, set<File>), deleted: set<nat>, added: set<File>): (r: (set<nat>, set<File>)) {
    (p.0 + deleted - Numbers(added), p.1 + added)
  }

  lemma DeletedStep(deleted: seq<(nat, nat)>, i: nat)
    requires i < |deleted|
    ensures forall l: nat :: DeletedIn(Edit(deleted[..i + 1], []), l)
                             == DeletedIn(Edit(deleted[..i], []), l) + if deleted[i].0 == l then {deleted[i].1} else {}
  {
    assert deleted[..i + 1] == deleted[..i] + [deleted[i]];
  }

  lemma AddedStep(added: seq<(nat, File)>, i: nat)
    requires i < |added|
    ensures forall l: nat :: AddedIn(Edit([], added[..i + 1]), l)
                             == AddedIn(Edit([], added[..i]), l) + if added[i].0 == l then {added[i].1} else {}
    ensures forall l: nat :: AddedIn(Edit([], added[..i]), l) <= AddedIn(Edit([], added), l)
    ensures added[i].1 in AddedIn(Edit([], added), added[i].0)
  {
    assert added[..i + 1] == added[..i] + [added[i]];
  }

  /** `s'` is `s` with `files` added and taken off the deleted list. */
  ghost predicate Added(s: LevelState, s': LevelState, files: set<File>) {
    s'.deleted == s.deleted - Numbers(files) && FileSet(s'.added) == FileSet(s.added) + files
  }

  lemma AddOne(s: LevelState, s': LevelState, files: set<File>, f: File, s'': LevelState)
    requires Added(s, s', files)
    requires s''.deleted == s'.deleted - {f.number} && FileSet(s''.added) == FileSet(s'.added) + {f}
    ensures Added(s, s'', files + {f})
  {
    assert Numbers(files + {f}) == Numbers(files) + {f.number};
  }

  /** All edits of one level recorded in a builder that starts from nothing. */
  ghost function Recorded(edits: seq<Edit>, l: nat): (r: (set<nat>, set<File>)) {
    if edits == [] then ({}, {})
    else ApplyTo(Recorded(edits[..|edits| - 1], l), DeletedIn(edits[|edits| - 1], l), AddedIn(edits[|edits| - 1], l))
  }

  /** One edit installed on top of a level. */
  ghost function Install(files: set<File>, e: Edit, l: nat): (r: set<File>) {
    Live(files, DeletedIn(e, l) - Numbers(AddedIn(e, l)), AddedIn(e, l))
  }

  ghost function InstallAll(edits: seq<Edit>, l: nat): (r: set<File>) {
    if edits == [] then {} else Install(InstallAll(edits[..|edits| - 1], l), edits[|edits| - 1], l)
  }

  ghost function EverAdded(edits: seq<Edit>, l: nat): (r: set<File>) {
    if edits == [] then {} else EverAdded(edits[..|edits| - 1], l) + AddedIn(edits[|edits| - 1], l)
  }

  /** Folding all edits through one builder leaves the files that installing each in turn leaves. */
  lemma {:induction false} ReplayEqualsInstalling(edits: seq<Edit>, l: nat)
    requires SameMetadata(EverAdded(edits, l))
    ensures Recorded(edits, l).1 == EverAdded(edits, l)
    ensures Live({}, Recorded(edits, l).0, Recorded(edits, l).1) == InstallAll(edits, l)
  {
    if edits != [] {
      var front, e := edits[..|edits| - 1], edits[|edits| - 1];
      ReplayEqualsInstalling(front, l);
      OneMoreEdit(Recorded(front, l), e, l);
    }
  }

  lemma OneMoreEdit(p: (set<nat>, set<File>), e: Edit, l: nat)
    requires SameMetadata(p.1 + AddedIn(e, l))
    ensures var q := ApplyTo(p, DeletedIn(e, l), AddedIn(e, l));
            Live({}, q.0, q.1) == Install(Live({}, p.0, p.1), e, l)
  {
    var added := AddedIn(e, l);
    forall f | f in p.1 && f.number in Numbers(added) ensures f in added {
      var g :| g in added && g.number == f.number;
    }
  }

  /** Recovery: every logged edit through one builder on an empty version, saved once. */
  method Replay(edits: seq<Edit>) returns (v: Version)
    requires forall e :: e in edits ==> ValidEdit(e)
    requires forall l :: 0 <= l < NUM_LEVELS ==> SameMetadata(EverAdded(edits, l))
    ensures forall l :: 0 <= l < NUM_LEVELS ==> SortedFiles(v[l]) && FileSet(v[l]) == InstallAll(edits, l)
  {
    var builder := new Builder();
    assert FileSet([]) == {};
    for i := 0 to |edits|
      invariant fresh(builder) && builder.Valid()
      invariant forall l :: 0 <= l < NUM_LEVELS ==> Pending(builder.levels[l]) == Recorded(edits[..i], l)
    {
      assert edits[..i + 1][..i] == edits[..i];
      forall l | 0 <= l < NUM_LEVELS ensures SameMetadata(FileSet(builder.levels[l].added) + AddedIn(edits[i], l)) {
        AddedSoFar(edits, i, l);
      }
      builder.Apply(edits[i]);
    }
    assert edits[..|edits|] == edits;
    forall l | 0 <= l < NUM_LEVELS
      ensures Live({}, Recorded(edits, l).0, Recorded(edits, l).1) == InstallAll(edits, l)
      ensures SameMetadata(FileSet([]) + Recorded(edits, l).1)
    {
      ReplayEqualsInstalling(edits, l);
    }
    v := builder.Save([[], [], [], [], [], [], []]);
  }

  lemma {:induction false} AddedSoFar(edits: seq<Edit>, i: nat, l: nat)
    requires i < |edits| && SameMetadata(EverAdded(edits, l))
    ensures Recorded(edits[..i], l).1 + AddedIn(edits[i], l) <= EverAdded(edits, l)
    ensures SameMetadata(Recorded(edits[..i], l).1 + AddedIn(edits[i], l))
  {
    EverAddedGrows(edits, i + 1, l);
    assert edits[..i + 1][..i] == edits[..i];
    ReplayEqualsInstalling(edits[..i], l);
  }

  lemma {:induction false} EverAddedGrows(edits: seq<Edit>, n: nat, l: nat)
    requires n <= |edits|
    ensures EverAdded(edits[..n], l) <= EverAdded(edits, l)
    decreases |edits| - n
  {
    if n == |edits| {
      assert edits[..n] == edits;
    } else {
      assert edits[..n + 1][..n] == edits[..n];
      EverAddedGrows(edits, n + 1, l);
    }
  }

  /** The new version an edit produces, level by level. */
  ghost predicate Installs(v: Version, e: Edit, v': Version) {
    forall l :: 0 <= l < NUM_LEVELS ==> SortedFiles(v'[l]) && FileSet(v'[l]) == Install(FileSet(v[l]), e, l)
  }

  /** A running database's versions, one per logged edit, from the empty version on. */
  ghost predicate History(versions: seq<Version>, edits: seq<Edit>) {
    && |versions| == |edits| + 1
    && (forall l :: 0 <= l < NUM_LEVELS ==> versions[0][l] == [])
    && forall i :: 0 <= i < |edits| ==> Installs(versions[i], edits[i], versions[i + 1])
  }

  lemma {:induction false} HistoryInstalls(versions: seq<Version>, edits: seq<Edit>, l: nat)
    requires History(versions, edits) && l < NUM_LEVELS
    ensures SortedFiles(versions[|edits|][l]) && FileSet(versions[|edits|][l]) == InstallAll(edits, l)
  {
    if edits != [] {
      var n := |edits| - 1;
      HistoryInstalls(versions[..n + 1], edits[..n], l);
      assert Installs(versions[n], edits[n], versions[n + 1]);
    }
  }

  /** Recovery rebuilds exactly the version the database had installed last. */
  lemma ManifestReplay(versions: seq<Version>, edits: seq<Edit>, recovered: Version)
    requires History(versions, edits)
    requires forall l :: 0 <= l < NUM_LEVELS ==>
      SortedFiles(recovered[l]) && FileSet(recovered[l]) == InstallAll(edits, l)
    ensures recovered == versions[|edits|]
  {
    forall l | 0 <= l < NUM_LEVELS ensures recovered[l] == versions[|edits|][l] {
      HistoryInstalls(versions, edits, l);
      SortedListsAgree(recovered[l], versions[|edits|][l]);
    }
  }

  /** Installing one edit on the current version. */
  method InstallEdit(v: Version, e: Edit) returns (v': Version)
    requires ValidEdit(e) && forall l :: 0 <= l < NUM_LEVELS ==> SortedFiles(v[l])
    requires forall l :: 0 <= l < NUM_LEVELS ==>
      FileSet(v[l]) !! AddedIn(e, l) && SameMetadata(FileSet(v[l]) + AddedIn(e, l))
    ensures Installs(v, e, v')
  {
    var builder := new Builder();
    assert forall l :: 0 <= l < NUM_LEVELS ==> FileSet(builder.levels[l].added) == {};
    builder.Apply(e);
    v' := builder.Save(v);
  }
}
