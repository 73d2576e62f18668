/** The layering invariant and the point lookup that relies on it. */
module LayeredGet {
  import opened Coding
  import opened InternalKeys
  import opened FlatStore
  import opened Wrappers
  import opened Levels

  /** Levels 1..6 are sorted and disjoint, a user key's entries get older from
      level to level, and in level 0 from a higher file number to a lower one. */
  ghost predicate LayeredVersion(v: Version) {
    && (forall l, f :: 0 <= l < NUM_LEVELS && f in v[l] ==> WellFormed(f))
    && (forall l :: 1 <= l < NUM_LEVELS ==> SortedDisjoint(v[l]))
    && (forall f, g :: f in v[0] && g in v[0] && f.number >= g.number ==> f == g || OlderFile(g, f))
    && (forall l, m :: 0 <= l < m < NUM_LEVELS ==> Newer(LevelContents(v[l]), LevelContents(v[m])))
    && Distinct(VersionContents(v))
  }

  ghost predicate OlderFile(a: File, b: File) {
    Newer(Contents(b.entries), Contents(a.entries)) && a.number != b.number
  }

  ghost function ImmContents(imm: Option<seq<Entry>>): (r: set<Entry>) {
    if imm.Some? then Contents(imm.value) else {}
  }

  ghost function AllContents(mem: seq<Entry>, imm: Option<seq<Entry>>, v: Version): (r: set<Entry>) {
    Contents(mem) + ImmContents(imm) + VersionContents(v)
  }

  ghost predicate Layered(mem: seq<Entry>, imm: Option<seq<Entry>>, v: Version) {
    && Sorted(mem) && (imm.Some? ==> Sorted(imm.value))
    && LayeredVersion(v)
    && Newer(Contents(mem), ImmContents(imm))
    && Newer(Contents(mem) + ImmContents(imm), VersionContents(v))
    && Distinct(AllContents(mem, imm, v))
  }

  /** Outcome of a search: the newest visible entry, or proof that there is none. */
  ghost predicate Answers(store: set<Entry>, user: UserKey, s: SequenceNumber, r: Option<Entry>) {
    if r.Some? then Newest(store, user, s, r.value) else forall e :: !Visible(store, user, s, e)
  }

  predicate InRange(user: UserKey, f: File) {
    f.smallest.user <= user <= f.largest.user
  }

  ghost predicate NewestFirst(files: seq<File>) {
    forall i, j :: 0 <= i < j < |files| ==> files[i].number >= files[j].number
  }

  /** Puts `f` into a list ordered by decreasing file number. */
  method InsertNewestFirst(files: seq<File>, f: File) returns (r: seq<File>)
    requires NewestFirst(files)
    ensures NewestFirst(r)
    ensures forall x :: x in r <==> x in files || x == f
  {
    var i := 0;
    while i < |files| && files[i].number > f.number
      invariant 0 <= i <= |files|
      invariant forall j :: 0 <= j < i ==> files[j].number > f.number
    {
      i := i + 1;
    }
    r := files[..i] + [f] + files[i..];
    assert files == files[..i] + files[i..];
  }

  /** `index` is the first file whose largest key is not before the lookup key. */
  ghost predicate Picks(files: seq<File>, index: nat, user: UserKey, s: SequenceNumber) {
    && index <= |files|
    && (forall i :: 0 <= i < index ==> Before(files[i].largest, LookupKey(user, s)))
    && (index < |files| ==> !Before(files[index].largest, LookupKey(user, s)))
  }

  /** A visible entry is in the picked file, or that file holds a newer version. */
  lemma PickedHoldsNewest(files: seq<File>, index: nat, user: UserKey, s: SequenceNumber, e: Entry)
    requires SortedDisjoint(files) && (forall f :: f in files ==> WellFormed(f)) && Picks(files, index, user, s)
    requires Visible(LevelContents(files), user, s, e)
    ensures index < |files| && user >= files[index].smallest.user
    ensures e in files[index].entries
            || exists n :: Visible(Contents(files[index].entries), user, s, n) && n.key.seqno >= e.key.seqno
  {
    var f :| f in files && e in f.entries;
    var i :| 0 <= i < |files| && files[i] == f;
    EntryInRange(f, e);
    assert index <= i;
    if index < i {
      assert files[index] in files && WellFormed(files[index]);
      var last := files[index].entries[|files[index].entries| - 1];
      EntryInRange(files[index], last);
      assert Visible(Contents(files[index].entries), user, s, last);
    }
  }

  /** In a sorted, disjoint level only the binary-searched file can hold the answer. */
  lemma LevelAnswer(files: seq<File>, index: nat, user: UserKey, s: SequenceNumber)
    requires SortedDisjoint(files) && (forall f :: f in files ==> WellFormed(f)) && Picks(files, index, user, s)
    ensures Answers(LevelContents(files), user, s,
                    if index == |files| || user < files[index].smallest.user then None
                    else Probe(files[index].entries, user, s))
  {
    forall e | Visible(LevelContents(files), user, s, e)
      ensures index < |files| && user >= files[index].smallest.user
      ensures e in files[index].entries
              || exists n :: Visible(Contents(files[index].entries), user, s, n) && n.key.seqno >= e.key.seqno
    {
      PickedHoldsNewest(files, index, user, s, e);
    }
    if index < |files| && user >= files[index].smallest.user {
      PickedAnswers(files, index, user, s);
    }
  }

  lemma PickedAnswers(files: seq<File>, index: nat, user: UserKey, s: SequenceNumber)
    requires index < |files| && WellFormed(files[index])
    requires forall e :: Visible(LevelContents(files), user, s, e) ==>
      e in files[index].entries
        || exists n :: Visible(Contents(files[index].entries), user, s, n) && n.key.seqno >= e.key.seqno
    ensures Answers(LevelContents(files), user, s, Probe(files[index].entries, user, s))
  {
    ProbeIsNewest(files[index].entries, user, s);
    assert files[index] in files;
    assert forall e :: e in files[index].entries ==> e in LevelContents(files) && e in Contents(files[index].entries);
  }

  /** What the search of a level below level 0 returns, whatever its list of files. */
  function LevelProbe(files: seq<File>, user: UserKey, s: SequenceNumber): (r: Option<Entry>) {
    var index := SearchFrom(files, LookupKey(user, s), 0, |files|);
    if index < |files| && user >= files[index].smallest.user then Probe(files[index].entries, user, s) else None
  }

  /** The first hit from `level` on. */
  function DeepProbe(v: Version, user: UserKey, s: SequenceNumber, level: nat): (r: Option<Entry>)
    requires 1 <= level <= NUM_LEVELS
    decreases NUM_LEVELS - level
  {
    if level == NUM_LEVELS then None
    else
      var hit := LevelProbe(v[level], user, s);
      if hit.Some? then hit else DeepProbe(v, user, s, level + 1)
  }

  /** One binary search per level below level 0, up to the first hit. */
  method SearchLevels(v: Version, user: UserKey, s: SequenceNumber) returns (r: Option<Entry>)
    ensures r == DeepProbe(v, user, s, 1)
  {
    for level := 1 to NUM_LEVELS
      invariant DeepProbe(v, user, s, level) == DeepProbe(v, user, s, 1)
    {
      if |v[level]| == 0 {
        continue;
      }
      var index := FindFile(v[level], LookupKey(user, s));
      if index < |v[level]| && user >= v[level][index].smallest.user {
        r := Probe(v[level][index].entries, user, s);
        if r.Some? {
          return;
        }
      }
    }
    r := None;
  }

  lemma LevelProbeAnswers(files: seq<File>, user: UserKey, s: SequenceNumber)
    requires SortedDisjoint(files) && forall f :: f in files ==> WellFormed(f)
    ensures Answers(LevelContents(files), user, s, LevelProbe(files, user, s))
  {
    SearchSplits(files, LookupKey(user, s), 0, |files|);
    LevelAnswer(files, SearchFrom(files, LookupKey(user, s), 0, |files|), user, s);
  }

  /** In a layered version the first hit of the deeper levels is the newest visible entry. */
  lemma {:induction false} DeepAnswer(v: Version, user: UserKey, s: SequenceNumber, level: nat)
    requires LayeredVersion(v) && 1 <= level <= NUM_LEVELS
    requires forall l, e :: 0 <= l < level ==> !Visible(LevelContents(v[l]), user, s, e)
    ensures Answers(VersionContents(v), user, s, DeepProbe(v, user, s, level))
    decreases NUM_LEVELS - level
  {
    if level == NUM_LEVELS {
      NothingVisible(v, user, s);
    } else {
      LevelProbeAnswers(v[level], user, s);
      var hit := LevelProbe(v[level], user, s);
      if hit.Some? {
        DeeperHit(v, level, user, s, hit.value);
      } else {
        DeepAnswer(v, user, s, level + 1);
      }
    }
  }

  lemma NothingVisible(v: Version, user: UserKey, s: SequenceNumber)
    requires forall l, e :: 0 <= l < NUM_LEVELS ==> !Visible(LevelContents(v[l]), user, s, e)
    ensures forall e :: !Visible(VersionContents(v), user, s, e)
  {
    forall e ensures !Visible(VersionContents(v), user, s, e) {
      if Visible(VersionContents(v), user, s, e) {
        var l :| 0 <= l < NUM_LEVELS && e in LevelContents(v[l]);
        assert Visible(LevelContents(v[l]), user, s, e);
      }
    }
  }

  /** A lookup in the table files of a version: level 0 newest file first, then one
      file per level, stopping at the first value or tombstone. */
  method VersionGet(v: Version, user: UserKey, s: SequenceNumber) returns (r: Option<Entry>)
    requires LayeredVersion(v)
    ensures Answers(VersionContents(v), user, s, r)
  {
    var tmp: seq<File> := [];
    for i := 0 to |v[0]|
      invariant NewestFirst(tmp)
      invariant forall f :: f in tmp <==> f in v[0][..i] && InRange(user, f)
    {
      assert v[0][..i + 1] == v[0][..i] + [v[0][i]];
      if user >= v[0][i].smallest.user && user <= v[0][i].largest.user {
        tmp := InsertNewestFirst(tmp, v[0][i]);
      }
    }
    assert v[0][..|v[0]|] == v[0];
    for i := 0 to |tmp|
      invariant forall j, e :: 0 <= j < i ==> !Visible(Contents(tmp[j].entries), user, s, e)
    {
      r := Probe(tmp[i].entries, user, s);
      assert tmp[i] in v[0] && WellFormed(tmp[i]);
      ProbeIsNewest(tmp[i].entries, user, s);
      if r.Some? {
        LevelZeroHit(v, tmp, i, user, s, r.value);
        return;
      }
    }
    forall e | Visible(LevelContents(v[0]), user, s, e) ensures false {
      var f :| f in v[0] && e in f.entries;
      EntryInRange(f, e);
      var j :| 0 <= j < |tmp| && tmp[j] == f;
      assert Visible(Contents(tmp[j].entries), user, s, e);
    }
    DeepAnswer(v, user, s, 1);
    r := SearchLevels(v, user, s);
  }

  lemma LevelZeroHit(v: Version, tmp: seq<File>, i: nat, user: UserKey, s: SequenceNumber, e: Entry)
    requires LayeredVersion(v) && NewestFirst(tmp) && i < |tmp|
    requires forall f :: f in tmp <==> f in v[0] && InRange(user, f)
    requires forall j, x :: 0 <= j < i ==> !Visible(Contents(tmp[j].entries), user, s, x)
    requires Newest(Contents(tmp[i].entries), user, s, e)
    ensures Newest(VersionContents(v), user, s, e)
  {
    assert tmp[i] in v[0] && e in LevelContents(v[0]);
    forall x | Visible(VersionContents(v), user, s, x) ensures x.key.seqno <= e.key.seqno {
      var l :| 0 <= l < NUM_LEVELS && x in LevelContents(v[l]);
      if l == 0 {
        var f :| f in v[0] && x in f.entries;
        EntryInRange(f, x);
        var j :| 0 <= j < |tmp| && tmp[j] == f;
        assert Visible(Contents(tmp[j].entries), user, s, x);
        if i < j && f != tmp[i] {
          assert OlderFile(f, tmp[i]);
        }
      } else {
        assert Newer(LevelContents(v[0]), LevelContents(v[l]));
      }
    }
  }

  lemma DeeperHit(v: Version, level: nat, user: UserKey, s: SequenceNumber, e: Entry)
    requires LayeredVersion(v) && level < NUM_LEVELS
    requires forall l, x :: 0 <= l < level ==> !Visible(LevelContents(v[l]), user, s, x)
    requires Newest(LevelContents(v[level]), user, s, e)
    ensures Newest(VersionContents(v), user, s, e)
  {
    forall x | Visible(VersionContents(v), user, s, x) ensures x.key.seqno <= e.key.seqno {
      var l :| 0 <= l < NUM_LEVELS && x in LevelContents(v[l]);
      assert Visible(LevelContents(v[l]), user, s, x);
      if level < l {
        assert Newer(LevelContents(v[level]), LevelContents(v[l]));
      }
    }
  }

  /** The lookup through memtable, immutable memtable and tables reads what the
      flat store reads, for every key and every snapshot. */
  method Get(mem: seq<Entry>, imm: Option<seq<Entry>>, v: Version, user: UserKey, s: SequenceNumber)
    returns (r: Option<Bytes>)
    requires Layered(mem, imm, v)
    ensures r == Read(AllContents(mem, imm, v), user, s)
  {
    ghost var all := AllContents(mem, imm, v);
    var hit := Probe(mem, user, s);
    ProbeIsNewest(mem, user, s);
    if hit.Some? {
      FirstHitWins(all, {}, Contents(mem), user, s, hit.value);
      return Meaning(hit.value);
    }
    if imm.Some? {
      hit := Probe(imm.value, user, s);
      ProbeIsNewest(imm.value, user, s);
      if hit.Some? {
        FirstHitWins(all, Contents(mem), ImmContents(imm), user, s, hit.value);
        return Meaning(hit.value);
      }
    }
    hit := VersionGet(v, user, s);
    forall e ensures !Visible(Contents(mem) + ImmContents(imm), user, s, e) {
      assert imm.Some? ==> !Visible(Contents(imm.value), user, s, e);
      assert !Visible(Contents(mem), user, s, e);
    }
    if hit.Some? {
      FirstHitWins(all, Contents(mem) + ImmContents(imm), VersionContents(v), user, s, hit.value);
      return Meaning(hit.value);
    }
    forall e ensures !Visible(all, user, s, e) {
      assert !Visible(VersionContents(v), user, s, e);
      assert !Visible(Contents(mem) + ImmContents(imm), user, s, e);
    }
    return None;
  }
}
