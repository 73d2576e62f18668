/** A manifest that starts with a snapshot of the current version. */
module ManifestSnapshots {
  import opened Coding
  import opened InternalKeys
  import opened Wrappers
  import opened Levels
  import opened VersionBuilder
  import opened ManifestRecovery
  import Records = VersionEdits

  type Speller = InternalKey -> Bytes

  /** The file's metadata fits a record, and a reader of the record gets it back. */
  ghost predicate Named(n: Naming, spell: Speller, f: File) {
    && f.number < 0x1_0000_0000_0000_0000 && f.size < 0x1_0000_0000_0000_0000
    && Records.ValidKey(spell(f.smallest)) && n.key(spell(f.smallest)) == f.smallest
    && Records.ValidKey(spell(f.largest)) && n.key(spell(f.largest)) == f.largest
    && n.contents(f.number) == f.entries
  }

  ghost predicate AllNamed(n: Naming, spell: Speller, v: Version) {
    forall l, f :: 0 <= l < NUM_LEVELS && f in v[l] ==> Named(n, spell, f)
  }

  function FileRecord(level: nat, f: File, spell: Speller): (r: Records.NewFile)
    requires f.number < 0x1_0000_0000_0000_0000 && f.size < 0x1_0000_0000_0000_0000
  {
    Records.NewFile(level, f.number, f.size, spell(f.smallest), spell(f.largest))
  }

  /** `r` lists the first `i` files of level `l`, and all files of the levels before it. */
  ghost predicate Lists(n: Naming, v: Version, files: seq<Records.NewFile>, l: nat, i: nat)
    requires l < NUM_LEVELS ==> i <= |v[l]|
  {
    && (forall k :: 0 <= k < |files| ==> SoundFile(n, files[k]) && RecordValid(files[k]))
    && (forall k :: 0 <= k < |files| ==> Listed(v, TableFile(n, files[k]), l, i))
    && (forall m, j {:trigger v[m][j]} :: 0 <= m < NUM_LEVELS && 0 <= j < |v[m]| && (m < l || (m == l && j < i)) ==>
          Recorded(n, files, (m, v[m][j])))
  }

  ghost predicate Recorded(n: Naming, files: seq<Records.NewFile>, a: (nat, File)) {
    exists k :: 0 <= k < |files| && SoundFile(n, files[k]) && TableFile(n, files[k]) == a
  }

  ghost predicate RecordValid(f: Records.NewFile) {
    f.level < NUM_LEVELS && Records.ValidKey(f.smallest) && Records.ValidKey(f.largest)
  }

  ghost predicate Listed(v: Version, a: (nat, File), l: nat, i: nat) {
    a.0 < NUM_LEVELS && exists j :: 0 <= j < |v[a.0]| && v[a.0][j] == a.1 && (a.0 < l || (a.0 == l && j < i))
  }

  lemma ListsOneMore(n: Naming, spell: Speller, v: Version, files: seq<Records.NewFile>, l: nat, i: nat)
    requires l < NUM_LEVELS && i < |v[l]| && Lists(n, v, files, l, i) && Named(n, spell, v[l][i])
    ensures Lists(n, v, files + [FileRecord(l, v[l][i], spell)], l, i + 1)
  {
    var next := FileRecord(l, v[l][i], spell);
    var more := files + [next];
    assert TableFile(n, next) == (l, v[l][i]);
    forall k | 0 <= k < |more| ensures Listed(v, TableFile(n, more[k]), l, i + 1) {
      if k < |files| {
        assert Listed(v, TableFile(n, files[k]), l, i);
      } else {
        assert v[l][i] == v[l][i];
      }
    }
    forall m, j | 0 <= m < NUM_LEVELS && 0 <= j < |v[m]| && (m < l || (m == l && j < i + 1))
      ensures Recorded(n, more, (m, v[m][j]))
    {
      if m == l && j == i {
        assert more[|files|] == next;
      } else {
        assert Recorded(n, files, (m, v[m][j]));
        var k :| 0 <= k < |files| && SoundFile(n, files[k]) && TableFile(n, files[k]) == (m, v[m][j]);
        assert more[k] == files[k];
      }
    }
  }

  lemma ListsNextLevel(n: Naming, v: Version, files: seq<Records.NewFile>, l: nat)
    requires l < NUM_LEVELS && Lists(n, v, files, l, |v[l]|)
    ensures Lists(n, v, files, l + 1, 0)
  {
    forall k | 0 <= k < |files| ensures Listed(v, TableFile(n, files[k]), l + 1, 0) {
      assert Listed(v, TableFile(n, files[k]), l, |v[l]|);
    }
  }

  /** The pairs of a level and its compaction pointer, in level order, for every pointer that is set. */
  ghost predicate ListsPointers(pointers: Pointers, cs: seq<(nat, Bytes)>, upTo: nat) {
    && (forall k :: 0 <= k < |cs| ==> cs[k].0 < upTo && cs[k].0 < NUM_LEVELS && cs[k].1 == pointers[cs[k].0] != [])
    && (forall j, k :: 0 <= j < k < |cs| ==> cs[j].0 < cs[k].0)
    && forall l :: 0 <= l < upTo && l < NUM_LEVELS && pointers[l] != [] ==> (l, pointers[l]) in cs
  }

  /** The record that WriteSnapshot encodes: the comparator, the compaction pointers and every file. */
  ghost predicate IsSnapshot(n: Naming, v: Version, pointers: Pointers, r: Records.Edit) {
    && ListsPointers(pointers, r.compactPointers, NUM_LEVELS)
    && SoundRecord(n, r) && Records.ValidEdit(r) && r.deleted == []
    && r.logNumber == None && r.prevLogNumber == None && r.nextFile == None && r.lastSequence == None
    && forall l :: 0 <= l < NUM_LEVELS ==> AddedIn(FileEdit(n, r), l) == FileSet(v[l])
  }

  lemma ListedIsSnapshot(n: Naming, v: Version, pointers: Pointers, r: Records.Edit)
    requires Lists(n, v, r.newFiles, NUM_LEVELS, 0) && r.deleted == []
    requires r.logNumber == None && r.prevLogNumber == None && r.nextFile == None && r.lastSequence == None
    requires ListsPointers(pointers, r.compactPointers, NUM_LEVELS)
    requires forall l :: 0 <= l < NUM_LEVELS ==> |pointers[l]| < 0x1_0000_0000
    requires r.comparator.Some? ==> |r.comparator.value| < 0x1_0000_0000
    ensures IsSnapshot(n, v, pointers, r)
  {
    var e := FileEdit(n, r);
    forall l | 0 <= l < NUM_LEVELS ensures AddedIn(e, l) == FileSet(v[l]) {
      forall f | f in FileSet(v[l]) ensures f in AddedIn(e, l) {
        var j :| 0 <= j < |v[l]| && v[l][j] == f;
        assert Recorded(n, r.newFiles, (l, v[l][j]));
        var k :| 0 <= k < |r.newFiles| && TableFile(n, r.newFiles[k]) == (l, v[l][j]);
        assert e.added[k] == (l, f);
      }
      forall f | f in AddedIn(e, l) ensures f in FileSet(v[l]) {
        var a :| a in e.added && a.0 == l && a.1 == f;
        var k :| 0 <= k < |e.added| && e.added[k] == a;
        assert Listed(v, TableFile(n, r.newFiles[k]), NUM_LEVELS, 0);
      }
    }
    assert Records.ValidItems(Records.Items(r));
  }

  /** The loop over compaction pointers; an empty one is left out. */
  method CompactPointers(pointers: Pointers) returns (cs: seq<(nat, Bytes)>)
    ensures ListsPointers(pointers, cs, NUM_LEVELS)
  {
    cs := [];
    for l := 0 to NUM_LEVELS
      invariant ListsPointers(pointers, cs, l)
    {
      if pointers[l] != [] {
        cs := cs + [(l, pointers[l])];
      }
    }
  }

  /** The loops over the levels and their files. */
  method SnapshotFiles(ghost n: Naming, spell: Speller, v: Version) returns (files: seq<Records.NewFile>)
    requires AllNamed(n, spell, v)
    ensures Lists(n, v, files, NUM_LEVELS, 0)
  {
    files := [];
    for l := 0 to NUM_LEVELS
      invariant Lists(n, v, files, l, 0)
    {
      for i := 0 to |v[l]|
        invariant Lists(n, v, files, l, i)
      {
        assert v[l][i] in v[l] && Named(n, spell, v[l][i]);
        ListsOneMore(n, spell, v, files, l, i);
        files := files + [FileRecord(l, v[l][i], spell)];
      }
      ListsNextLevel(n, v, files, l);
    }
  }

  method WriteSnapshot(ghost n: Naming, spell: Speller, v: Version, comparator: Bytes, pointers: Pointers)
    returns (record: Bytes, ghost r: Records.Edit)
    requires AllNamed(n, spell, v) && |comparator| < 0x1_0000_0000
    requires forall l :: 0 <= l < NUM_LEVELS ==> |pointers[l]| < 0x1_0000_0000
    ensures IsSnapshot(n, v, pointers, r) && r.comparator == Some(comparator)
    ensures record == Records.EncodeItems(Records.Items(r))
    ensures Records.DecodeItems(record, Records.Edit(None, None, None, None, None, [], [], [])) == (true, r)
  {
    var edit := new Records.VersionEdit();
    var cs := CompactPointers(pointers);
    var files := SnapshotFiles(n, spell, v);
    edit.edit := edit.edit.(comparator := Some(comparator), compactPointers := cs, newFiles := files);
    record := edit.EncodeTo();
    r := edit.edit;
    ListedIsSnapshot(n, v, pointers, r);
    DecodesTo(r, record);
  }

  // ---- Replay from a snapshot ----

  const EMPTY: Version := [[], [], [], [], [], [], []]

  /** Installing the snapshot on nothing gives the version it was taken of. */
  lemma SnapshotInstalls(n: Naming, v: Version, pointers: Pointers, r: Records.Edit)
    requires IsSnapshot(n, v, pointers, r) && forall l :: 0 <= l < NUM_LEVELS ==> SortedFiles(v[l])
    ensures Installs(EMPTY, FileEdit(n, r), v)
  {
    var e := FileEdit(n, r);
    forall l | 0 <= l < NUM_LEVELS ensures FileSet(v[l]) == Install(FileSet(EMPTY[l]), e, l) {
      assert EMPTY[l] == [] && FileSet([]) == {} && DeletedIn(e, l) == {};
    }
  }

  /** The versions of a running database since the manifest's snapshot was written. */
  ghost predicate HistoryFrom(v: Version, versions: seq<Version>, edits: seq<Edit>) {
    && |versions| == |edits| + 1 && versions[0] == v
    && forall i :: 0 <= i < |edits| ==> Installs(versions[i], edits[i], versions[i + 1])
  }

  lemma {:induction false} PointersListed(pointers: Pointers, cs: seq<(nat, Bytes)>, upTo: nat, l: nat)
    requires ListsPointers(pointers, cs, upTo) && l < upTo <= NUM_LEVELS
    ensures PointerIn(cs, l) == if pointers[l] != [] then Some(pointers[l]) else None
  {
    if cs != [] {
      var n := |cs| - 1;
      var last := cs[n];
      assert cs == cs[..n] + [last];
      if last.0 != l {
        if l < last.0 {
          ListsFewer(pointers, cs, upTo);
          PointersListed(pointers, cs[..n], last.0, l);
        } else {
          NoPointerAbove(cs, l);
        }
      }
    }
  }

  lemma ListsFewer(pointers: Pointers, cs: seq<(nat, Bytes)>, upTo: nat)
    requires ListsPointers(pointers, cs, upTo) && cs != []
    ensures ListsPointers(pointers, cs[..|cs| - 1], cs[|cs| - 1].0)
  {
    var n := |cs| - 1;
    forall l | 0 <= l < cs[n].0 && l < NUM_LEVELS && pointers[l] != [] ensures (l, pointers[l]) in cs[..n] {
      var k :| 0 <= k < |cs| && cs[k] == (l, pointers[l]);
    }
  }

  lemma {:induction false} NoPointerAbove(cs: seq<(nat, Bytes)>, l: nat)
    requires forall k :: 0 <= k < |cs| ==> cs[k].0 != l
    ensures PointerIn(cs, l) == None
  {
    if cs != [] {
      NoPointerAbove(cs[..|cs| - 1], l);
    }
  }

  lemma {:induction false} FirstThenRest(first: Records.Edit, rs: seq<Records.Edit>, l: nat)
    ensures LatestPointer([first] + rs, l)
      == if LatestPointer(rs, l).Some? then LatestPointer(rs, l) else PointerIn(first.compactPointers, l)
  {
    if rs == [] {
      assert ([first] + rs)[..0] == [];
    } else {
      assert ([first] + rs)[..|rs|] == [first] + rs[..|rs| - 1];
      FirstThenRest(first, rs[..|rs| - 1], l);
    }
  }

  /** Replay starts from the snapshot's pointers. */
  lemma SnapshotPointers(
    pointers: Pointers, first: Records.Edit, rs: seq<Records.Edit>, ps: Pointers)
    requires ListsPointers(pointers, first.compactPointers, NUM_LEVELS)
    requires PointersAfter(NO_POINTERS, [first] + rs, ps)
    ensures PointersAfter(pointers, rs, ps)
  {
    forall l | 0 <= l < NUM_LEVELS
      ensures ps[l] == if LatestPointer(rs, l).Some? then LatestPointer(rs, l).value else pointers[l]
    {
      LevelPointer(pointers, first, rs, l);
    }
  }

  lemma LevelPointer(pointers: Pointers, first: Records.Edit, rs: seq<Records.Edit>, l: nat)
    requires ListsPointers(pointers, first.compactPointers, NUM_LEVELS) && l < NUM_LEVELS
    ensures LatestPointer([first] + rs, l)
      == if LatestPointer(rs, l).Some? then LatestPointer(rs, l)
         else if pointers[l] != [] then Some(pointers[l]) else None
  {
    FirstThenRest(first, rs, l);
    PointersListed(pointers, first.compactPointers, NUM_LEVELS, l);
  }

  /** Recovery from a manifest that starts mid-history gives the version installed last, and the
      compaction pointers as the snapshot and the records after it left them. */
  lemma SnapshotManifestRecovers(
    n: Naming, v: Version, pointers: Pointers, first: Records.Edit, rs: seq<Records.Edit>, versions: seq<Version>,
    r: Recovered)
    requires IsSnapshot(n, v, pointers, first) && forall l :: 0 <= l < NUM_LEVELS ==> SortedFiles(v[l])
    requires AllSound(n, rs) && AllSound(n, [first] + rs)
    requires HistoryFrom(v, versions, FileEdits(n, rs)) && RecoversTo(n, [first] + rs, r)
    ensures r.version == versions[|rs|]
    ensures PointersAfter(pointers, rs, r.pointers) && (rs == [] ==> r.pointers == pointers)
  {
    var all, whole := FileEdits(n, [first] + rs), [EMPTY] + versions;
    SnapshotInstalls(n, v, pointers, first);
    forall i | 0 <= i < |all| ensures Installs(whole[i], all[i], whole[i + 1]) {
      if i > 0 {
        assert all[i] == FileEdits(n, rs)[i - 1];
        assert Installs(versions[i - 1], FileEdits(n, rs)[i - 1], versions[i]);
      }
    }
    RecoveredVersionIsInstalled(n, [first] + rs, whole, r);
    SnapshotPointers(pointers, first, rs, r.pointers);
  }
}
