/** The iterator of a whole store: memtables, level-0 files and levels under one user iterator. */
module StoreIterators {
  import opened Coding
  import opened InternalKeys
  import opened FlatStore
  import opened Wrappers
  import opened Levels
  import opened LayeredGet
  import opened CompactionWork
  import opened VersionBuilder
  import opened DbIterator
  import opened MergingIterators
  import opened TwoLevelIterators
  import opened Flattening

  // ---- A level is the concatenation of its files ----

  lemma {:induction false} LevelRunSorted(files: seq<File>)
    requires SortedDisjoint(files) && forall f :: f in files ==> WellFormed(f)
    ensures Sorted(Payloads(files))
  {
    if files != [] {
      var n := |files| - 1;
      var front, last := files[..n], files[n];
      LevelRunSorted(front);
      PayloadContents(front);
      assert last in files && WellFormed(last);
      var p := Payloads(front);
      forall i, j | 0 <= i < |p| && 0 <= j < |last.entries| ensures Before(p[i].key, last.entries[j].key) {
        EarlierFileEntry(files, n, p[i], last.entries[j]);
      }
    }
  }

  lemma EarlierFileEntry(files: seq<File>, n: nat, e: Entry, x: Entry)
    requires n < |files| && SortedDisjoint(files) && forall f :: f in files ==> WellFormed(f)
    requires e in Payloads(files[..n]) && x in files[n].entries
    ensures Before(e.key, x.key)
  {
    PayloadContents(files[..n]);
    assert e in Contents(Payloads(files[..n]));
    var f :| f in files[..n] && e in f.entries;
    var k :| 0 <= k < n && files[k] == f;
    assert f in files && files[n] in files;
    EntryInRange(f, e);
    EntryInRange(files[n], x);
  }

  /** What the two-level iterator of a level reads: an index of largest keys over the files' entries. */
  ghost function LevelIndex(files: seq<File>): (r: seq<IndexEntry>) {
    seq(|files|, i requires 0 <= i < |files| => IndexEntry(files[i].largest, i))
  }

  function FileRuns(files: seq<File>): (r: seq<seq<Entry>>) {
    seq(|files|, i requires 0 <= i < |files| => files[i].entries)
  }

  lemma LevelIsSeparated(files: seq<File>)
    requires SortedDisjoint(files) && forall f :: f in files ==> WellFormed(f)
    ensures Separated(LevelIndex(files), FileRuns(files))
    ensures Flatten(FileRuns(files)) == Payloads(files)
  {
    var index: seq<IndexEntry>, blocks: seq<seq<Entry>> := LevelIndex(files), FileRuns(files);
    forall i, p | 0 <= i < |blocks| && 0 <= p < |blocks[i]| ensures AtMost(blocks[i][p].key, index[i].key) {
      assert files[i] in files && blocks[i][p] in files[i].entries;
      EntryInRange(files[i], blocks[i][p]);
    }
    forall i, j, p | 0 <= i < j < |blocks| && 0 <= p < |blocks[j]| ensures Before(index[i].key, blocks[j][p].key) {
      assert files[j] in files && blocks[j][p] in files[j].entries;
      EntryInRange(files[j], blocks[j][p]);
    }
    FlattenedPayloads(files);
  }

  lemma {:induction false} FlattenedPayloads(files: seq<File>)
    ensures Flatten(FileRuns(files)) == Payloads(files)
  {
    if files != [] {
      var n := |files| - 1;
      FlattenedPayloads(files[..n]);
      assert FileRuns(files)[..n] == FileRuns(files[..n]);
    }
  }

  // ---- The children of the merging iterator ----

  ghost function Memtables(mem: seq<Entry>, imm: Option<seq<Entry>>): (r: seq<seq<Entry>>) {
    [mem] + if imm.Some? then [imm.value] else []
  }

  ghost function LevelRuns(v: Version): (r: seq<seq<Entry>>) {
    seq(NUM_LEVELS - 1, i requires 0 <= i < NUM_LEVELS - 1 => Payloads(v[i + 1]))
  }

  ghost function Children(mem: seq<Entry>, imm: Option<seq<Entry>>, v: Version): (r: seq<seq<Entry>>) {
    Memtables(mem, imm) + VersionRuns(v)
  }

  ghost function VersionRuns(v: Version): (r: seq<seq<Entry>>) {
    FileRuns(v[0]) + LevelRuns(v)
  }

  /** No internal key occurs in both runs. */
  ghost predicate KeysApart(a: seq<Entry>, b: seq<Entry>) {
    forall e, f :: e in a && f in b ==> e.key != f.key
  }

  lemma NewerIsApart(a: seq<Entry>, b: seq<Entry>)
    requires Newer(Contents(a), Contents(b)) || Newer(Contents(b), Contents(a))
    ensures KeysApart(a, b) && KeysApart(b, a)
  {
    forall e, f | e in a && f in b ensures e.key != f.key {
      assert e in Contents(a) && f in Contents(b);
    }
  }

  ghost predicate Stored(mem: seq<Entry>, imm: Option<seq<Entry>>, v: Version) {
    Layered(mem, imm, v) && SortedFiles(v[0])
  }

  lemma LevelRunContents(v: Version, l: nat)
    requires l < NUM_LEVELS
    ensures Contents(Payloads(v[l])) == LevelContents(v[l]) && LevelContents(v[l]) <= VersionContents(v)
  {
    PayloadContents(v[l]);
    forall e | e in LevelContents(v[l]) ensures e in VersionContents(v) {
    }
  }

  lemma FileRunContents(v: Version, i: nat)
    requires i < |v[0]|
    ensures Contents(v[0][i].entries) <= LevelContents(v[0]) <= VersionContents(v)
  {
    assert v[0][i] in v[0];
    LevelRunContents(v, 0);
  }

  lemma MemtableContents(mem: seq<Entry>, imm: Option<seq<Entry>>, i: nat)
    requires i < |Memtables(mem, imm)|
    ensures Contents(Memtables(mem, imm)[i]) <= Contents(mem) + ImmContents(imm)
  {
  }

  lemma NewerParts(a: set<Entry>, b: set<Entry>, a': set<Entry>, b': set<Entry>)
    requires Newer(a, b) && a' <= a && b' <= b
    ensures Newer(a', b')
  {
  }

  /** Two level-0 files at different places hold different keys. */
  lemma FilesApart(v: Version, i: nat, j: nat)
    requires LayeredVersion(v) && SortedFiles(v[0]) && i < j < |v[0]|
    ensures KeysApart(v[0][i].entries, v[0][j].entries)
  {
    var f, g := v[0][i], v[0][j];
    assert FileLess(f, g) && f in v[0] && g in v[0] && f != g;
    assert OlderFile(f, g) || OlderFile(g, f);
    NewerIsApart(f.entries, g.entries);
  }

  lemma ChildAt(mem: seq<Entry>, imm: Option<seq<Entry>>, v: Version, i: nat)
    requires i < |Children(mem, imm, v)|
    ensures var m, n, run := |Memtables(mem, imm)|, |v[0]|, Children(mem, imm, v)[i];
      && (i < m ==> run == Memtables(mem, imm)[i])
      && (m <= i < m + n ==> run == v[0][i - m].entries)
      && (m + n <= i ==> i - m - n + 1 < NUM_LEVELS && run == Payloads(v[i - m - n + 1]))
  {
  }

  lemma MemtablesApart(mem: seq<Entry>, imm: seq<Entry>, v: Version)
    requires Layered(mem, Some(imm), v)
    ensures KeysApart(mem, imm)
  {
    NewerIsApart(mem, imm);
  }

  lemma MemoryApart(mem: seq<Entry>, imm: Option<seq<Entry>>, v: Version, a: seq<Entry>, b: seq<Entry>)
    requires Layered(mem, imm, v)
    requires Contents(a) <= Contents(mem) + ImmContents(imm) && Contents(b) <= VersionContents(v)
    ensures KeysApart(a, b)
  {
    NewerParts(Contents(mem) + ImmContents(imm), VersionContents(v), Contents(a), Contents(b));
    NewerIsApart(a, b);
  }

  lemma LevelsApart(v: Version, l: nat, m: nat, a: seq<Entry>, b: seq<Entry>)
    requires LayeredVersion(v) && l < m < NUM_LEVELS
    requires Contents(a) <= LevelContents(v[l]) && Contents(b) <= LevelContents(v[m])
    ensures KeysApart(a, b)
  {
    NewerParts(LevelContents(v[l]), LevelContents(v[m]), Contents(a), Contents(b));
    NewerIsApart(a, b);
  }

  lemma MemoryChildApart(mem: seq<Entry>, imm: Option<seq<Entry>>, v: Version, i: nat, j: nat)
    requires Stored(mem, imm, v) && i < j < |Children(mem, imm, v)| && i < |Memtables(mem, imm)|
    ensures KeysApart(Children(mem, imm, v)[i], Children(mem, imm, v)[j])
  {
    var m := |Memtables(mem, imm)|;
    ChildAt(mem, imm, v, i);
    ChildAt(mem, imm, v, j);
    if j < m {
      MemtablesApart(mem, imm.value, v);
    } else {
      MemtableContents(mem, imm, i);
      BelowMemory(v, j - m);
      MemoryApart(mem, imm, v, Children(mem, imm, v)[i], Children(mem, imm, v)[j]);
    }
  }

  /** Two runs of the version, level-0 files before deeper levels. */
  lemma VersionRunsApart(v: Version, i: nat, j: nat, a: seq<Entry>, b: seq<Entry>)
    requires LayeredVersion(v) && SortedFiles(v[0])
    requires i < j < |VersionRuns(v)| && a == VersionRuns(v)[i] && b == VersionRuns(v)[j]
    ensures KeysApart(a, b)
  {
    var n := |v[0]|;
    if j < n {
      FilesApart(v, i, j);
    } else {
      LevelRunContents(v, j - n + 1);
      if i < n {
        FileRunContents(v, i);
        LevelsApart(v, 0, j - n + 1, a, b);
      } else {
        LevelRunContents(v, i - n + 1);
        LevelsApart(v, i - n + 1, j - n + 1, a, b);
      }
    }
  }

  lemma VersionChildApart(
    mem: seq<Entry>, imm: Option<seq<Entry>>, v: Version, i: nat, j: nat, a: seq<Entry>, b: seq<Entry>)
    requires LayeredVersion(v) && SortedFiles(v[0]) && |Memtables(mem, imm)| <= i < j < |Children(mem, imm, v)|
    requires a == Children(mem, imm, v)[i] && b == Children(mem, imm, v)[j]
    ensures KeysApart(a, b)
  {
    var m := |Memtables(mem, imm)|;
    ChildBelow(mem, imm, v, i);
    ChildBelow(mem, imm, v, j);
    VersionRunsApart(v, i - m, j - m, a, b);
  }

  lemma ChildrenApart(mem: seq<Entry>, imm: Option<seq<Entry>>, v: Version, i: nat, j: nat)
    requires Stored(mem, imm, v) && i < j < |Children(mem, imm, v)|
    ensures KeysApart(Children(mem, imm, v)[i], Children(mem, imm, v)[j])
  {
    if i < |Memtables(mem, imm)| {
      MemoryChildApart(mem, imm, v, i, j);
    } else {
      StoredVersion(mem, imm, v);
      VersionChildApart(mem, imm, v, i, j, Children(mem, imm, v)[i], Children(mem, imm, v)[j]);
    }
  }

  lemma ChildBelow(mem: seq<Entry>, imm: Option<seq<Entry>>, v: Version, i: nat)
    requires |Memtables(mem, imm)| <= i < |Children(mem, imm, v)|
    ensures var k := i - |Memtables(mem, imm)|; k < |VersionRuns(v)| && Children(mem, imm, v)[i] == VersionRuns(v)[k]
  {
  }

  lemma StoredVersion(mem: seq<Entry>, imm: Option<seq<Entry>>, v: Version)
    requires Stored(mem, imm, v)
    ensures LayeredVersion(v) && SortedFiles(v[0])
  {
  }

  lemma BelowMemory(v: Version, k: nat)
    requires k < |VersionRuns(v)|
    ensures Contents(VersionRuns(v)[k]) <= VersionContents(v)
  {
    if k < |v[0]| {
      FileRunContents(v, k);
    } else {
      LevelRunContents(v, k - |v[0]| + 1);
    }
  }

  /** The children of a layered store can be merged. */
  lemma ChildrenAreMergeable(mem: seq<Entry>, imm: Option<seq<Entry>>, v: Version)
    requires Stored(mem, imm, v)
    ensures Mergeable(Children(mem, imm, v))
  {
    var runs := Children(mem, imm, v);
    forall i | 0 <= i < |runs| ensures Sorted(runs[i]) {
      ChildIsSorted(mem, imm, v, i);
    }
    forall i, j | 0 <= i < j < |runs| ensures Keys(runs[i]) !! Keys(runs[j]) {
      ChildrenApart(mem, imm, v, i, j);
    }
  }

  lemma ChildIsSorted(mem: seq<Entry>, imm: Option<seq<Entry>>, v: Version, i: nat)
    requires Stored(mem, imm, v) && i < |Children(mem, imm, v)|
    ensures Sorted(Children(mem, imm, v)[i])
  {
    var m, n := |Memtables(mem, imm)|, |v[0]|;
    if m <= i < m + n {
      assert v[0][i - m] in v[0] && WellFormed(v[0][i - m]);
    } else if m + n <= i {
      LevelRunSorted(v[i - m - n + 1]);
    }
  }

  // ---- Together they hold the store ----

  lemma ChildInStore(mem: seq<Entry>, imm: Option<seq<Entry>>, v: Version, i: nat)
    requires i < |Children(mem, imm, v)|
    ensures Contents(Children(mem, imm, v)[i]) <= AllContents(mem, imm, v)
  {
    var m := |Memtables(mem, imm)|;
    if i < m {
      MemtableContents(mem, imm, i);
    } else {
      BelowMemory(v, i - m);
    }
  }

  lemma StoreInChildren(mem: seq<Entry>, imm: Option<seq<Entry>>, v: Version, e: Entry) returns (i: nat)
    requires e in AllContents(mem, imm, v)
    ensures i < |Children(mem, imm, v)| && e in Children(mem, imm, v)[i]
  {
    var m, n := |Memtables(mem, imm)|, |v[0]|;
    if e in Contents(mem) {
      i := 0;
    } else if e in ImmContents(imm) {
      i := 1;
    } else {
      var l :| 0 <= l < NUM_LEVELS && e in LevelContents(v[l]);
      if l == 0 {
        var f :| f in v[0] && e in f.entries;
        var k :| 0 <= k < n && v[0][k] == f;
        i := m + k;
      } else {
        LevelRunContents(v, l);
        i := m + n + l - 1;
        assert e in Contents(Payloads(v[l]));
      }
    }
  }

  lemma ChildrenHoldStore(mem: seq<Entry>, imm: Option<seq<Entry>>, v: Version)
    ensures Union(Children(mem, imm, v)) == AllContents(mem, imm, v)
  {
    var runs := Children(mem, imm, v);
    forall e | e in AllContents(mem, imm, v) ensures e in Union(runs) {
      var i := StoreInChildren(mem, imm, v, e);
      var j :| 0 <= j < |runs[i]| && runs[i][j] == e;
    }
    forall e | e in Union(runs) ensures e in AllContents(mem, imm, v) {
      var i, j :| 0 <= i < |runs| && 0 <= j < |runs[i]| && runs[i][j] == e;
      ChildInStore(mem, imm, v, i);
      assert e in Contents(runs[i]);
    }
  }

  // ---- The merged sequence ----

  lemma InsertSortedEntry(run: seq<Entry>, e: Entry) returns (r: seq<Entry>)
    requires Sorted(run) && forall f :: f in run ==> f.key != e.key
    ensures Sorted(r) && Contents(r) == Contents(run) + {e}
  {
    var i := SeekIndex(run, e.key);
    r := run[..i] + [e] + run[i..];
    forall j | i <= j < |run| ensures Before(e.key, run[j].key) {
      AfterSeek(run, e, i, j);
    }
    SpliceIsSorted(run, e, i, r);
    SpliceContents(run, e, i, r);
  }

  lemma SpliceContents(run: seq<Entry>, e: Entry, i: nat, r: seq<Entry>)
    requires i <= |run| && r == run[..i] + [e] + run[i..]
    ensures Contents(r) == Contents(run) + {e}
  {
    assert run == run[..i] + run[i..];
  }

  lemma AfterSeek(run: seq<Entry>, e: Entry, i: nat, j: nat)
    requires Sorted(run) && i <= j < |run| && !Before(run[i].key, e.key) && run[i].key != e.key
    ensures Before(e.key, run[j].key)
  {
    BeforeIsTotal(e.key, run[i].key);
    assert i < j ==> Before(run[i].key, run[j].key);
  }

  lemma SpliceIsSorted(run: seq<Entry>, e: Entry, i: nat, r: seq<Entry>)
    requires Sorted(run) && i <= |run| && r == run[..i] + [e] + run[i..]
    requires forall j :: 0 <= j < i ==> Before(run[j].key, e.key)
    requires forall j :: i <= j < |run| ==> Before(e.key, run[j].key)
    ensures Sorted(r)
  {
    forall p, q | 0 <= p < q < |r| ensures Before(r[p].key, r[q].key) {
      assert r[p] == if p < i then run[p] else if p == i then e else run[p - 1];
      assert r[q] == if q < i then run[q] else if q == i then e else run[q - 1];
    }
  }

  /** Every store has one sorted sequence, the one the merging iterator walks. */
  lemma {:induction false} SortedSequence(store: set<Entry>) returns (merged: seq<Entry>)
    requires Distinct(store)
    ensures Sorted(merged) && Contents(merged) == store
    decreases |store|
  {
    if store == {} {
      merged := [];
    } else {
      var e :| e in store;
      var rest := SortedSequence(store - {e});
      assert forall f :: f in rest ==> f in Contents(rest);
      merged := InsertSortedEntry(rest, e);
    }
  }

  /** A user iterator over the merged children yields exactly what lookups find, key by key. */
  lemma IteratorYieldsWhatGetFinds(
    mem: seq<Entry>, imm: Option<seq<Entry>>, v: Version, merged: seq<Entry>, user: UserKey, s: SequenceNumber,
    value: Bytes)
    requires Stored(mem, imm, v) && Sorted(merged) && Contents(merged) == Union(Children(mem, imm, v))
    ensures Iterable(merged) && Contents(merged) == AllContents(mem, imm, v)
    ensures Read(AllContents(mem, imm, v), user, s) == Some(value) <==>
      exists i :: Yields(merged, s, i) && merged[i].key.user == user && merged[i].value == value
  {
    ChildrenHoldStore(mem, imm, v);
    if Read(AllContents(mem, imm, v), user, s) == Some(value) {
      var i := ReadIsYielded(merged, s, user);
      YieldIsRead(merged, s, i);
    }
    if i :| Yields(merged, s, i) && merged[i].key.user == user && merged[i].value == value {
      YieldIsRead(merged, s, i);
    }
  }

  /** The sequence under the user iterator exists, and the merging iterator's positions are positions in it. */
  lemma MergedStore(mem: seq<Entry>, imm: Option<seq<Entry>>, v: Version) returns (merged: seq<Entry>)
    requires Stored(mem, imm, v)
    ensures Mergeable(Children(mem, imm, v)) && Iterable(merged)
    ensures Contents(merged) == Union(Children(mem, imm, v)) == AllContents(mem, imm, v)
    ensures forall cut, at, c :: CutsAt(merged, cut, at) ==>
      && (FirstAfter(Union(Children(mem, imm, v)), cut, c) <==> c == if at < |merged| then Some(merged[at]) else None)
      && (LastLeftOf(Union(Children(mem, imm, v)), cut, c) <==> c == if at > 0 then Some(merged[at - 1]) else None)
  {
    ChildrenAreMergeable(mem, imm, v);
    ChildrenHoldStore(mem, imm, v);
    merged := SortedSequence(AllContents(mem, imm, v));
    forall cut, at, c | CutsAt(merged, cut, at)
      ensures FirstAfter(Contents(merged), cut, c) <==> c == if at < |merged| then Some(merged[at]) else None
      ensures LastLeftOf(Contents(merged), cut, c) <==> c == if at > 0 then Some(merged[at - 1]) else None
    {
      CursorOnUnion(merged, cut, at, c);
    }
  }
}
