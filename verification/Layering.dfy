/** Flushes, moves and compactions keep the layering invariant. */
module Layering {
  import opened InternalKeys
  import opened FlatStore
  import opened Wrappers
  import opened Levels
  import opened LayeredGet
  import opened InputSelection
  import opened VersionBuilder

  ghost predicate Apart(f: File, g: File) {
    Before(f.largest, g.smallest) || Before(g.largest, f.smallest)
  }

  /** Sorted by smallest key and pairwise apart means sorted and disjoint. */
  lemma ApartAndSorted(files: seq<File>)
    requires SortedFiles(files)
    requires forall f, g :: f in files && g in files && f != g ==> Apart(f, g)
    ensures SortedDisjoint(files)
  {
    forall i, j | 0 <= i < j < |files| ensures Before(files[i].largest, files[j].smallest) {
      assert FileLess(files[i], files[j]);
      assert files[i] != files[j];
      assert Apart(files[i], files[j]);
    }
  }

  lemma DisjointApart(files: seq<File>, f: File, g: File)
    requires SortedDisjoint(files) && f in files && g in files && f != g
    ensures Apart(f, g)
  {
    var i :| 0 <= i < |files| && files[i] == f;
    var j :| 0 <= j < |files| && files[j] == g;
  }

  /** A file of the next level beyond the inputs of `level` lies wholly before or wholly after all inputs. */
  lemma OutsiderIsClear(v: Version, level: nat, in0: seq<File>, in1: seq<File>, g: File)
    requires LayeredVersion(v) && GoodInputs(v, level, in0, in1)
    requires g in v[level + 1] && g !in in1 && Beyond(g, in0)
    ensures (forall f :: f in in0 || f in in1 ==> Before(g.largest, f.smallest))
            || (forall f :: f in in0 || f in in1 ==> Before(f.largest, g.smallest))
  {
    forall f | f in in1 ensures Apart(f, g) {
      DisjointApart(v[level + 1], f, g);
    }
  }

  lemma ClearFileIsNewer(level: nat, f: File, g: File, e: Entry, x: Entry)
    requires WellFormed(f) && WellFormed(g) && StaysClear(level, f, g)
    requires level == 0 && g.number < f.number ==> OlderFile(g, f)
    requires e in f.entries && x in g.entries && e.key.user == x.key.user
    requires e.key.seqno == x.key.seqno ==> e == x
    ensures e.key.seqno > x.key.seqno
  {
    EntryInRange(f, e);
    EntryInRange(g, x);
    if level == 0 && g.number < f.number {
      assert e in Contents(f.entries) && x in Contents(g.entries);
    } else {
      assert Before(e.key, x.key);
    }
  }

  /** A remaining file of the input level holds the newer entries of any key it shares with the inputs. */
  lemma RemainingIsNewer(v: Version, level: nat, in0: seq<File>, f: File, e: Entry, x: Entry)
    requires LayeredVersion(v) && level < NUM_LEVELS && ClosedInputs(v[level], level, in0)
    requires f in v[level] && f !in in0 && e in f.entries
    requires x in LevelContents(in0) && x.key.user == e.key.user
    ensures e.key.seqno > x.key.seqno
  {
    var g :| g in in0 && x in g.entries;
    assert e in LevelContents(v[level]) && x in LevelContents(v[level]);
    assert e in VersionContents(v) && x in VersionContents(v);
    assert level == 0 && g.number < f.number ==> OlderFile(g, f);
    ClearFileIsNewer(level, f, g, e, x);
  }

  lemma NextLevelInputsInLevel(v: Version, level: nat, in0: seq<File>, in1: seq<File>)
    requires GoodInputs(v, level, in0, in1)
    ensures forall f :: f in in1 ==> f in v[level + 1]
    ensures LevelContents(in1) <= LevelContents(v[level + 1])
    ensures LevelContents(in0) <= LevelContents(v[level])
  {
  }

  /** No output shares a key range with a file of its level that stays. */
  ghost predicate OutputsClear(v: Version, level: nat, in1: seq<File>, outputs: seq<File>) {
    level + 1 < NUM_LEVELS && forall o, g :: o in outputs && g in v[level + 1] && g !in in1 ==> Apart(o, g)
  }

  /** `outputs` replace the inputs, one level down. */
  ghost predicate MovesDown(v: Version, level: nat, in0: seq<File>, in1: seq<File>, outputs: seq<File>, v': Version) {
    && level + 1 < NUM_LEVELS
    && (forall f :: f in outputs ==> WellFormed(f))
    && SortedDisjoint(outputs) && OutputsClear(v, level, in1, outputs)
    && LevelContents(outputs) <= LevelContents(in0) + LevelContents(in1)
    && (forall f :: f in v'[level] ==> f in v[level] && f !in in0)
    && (forall f :: f in v'[level + 1] ==> (f in v[level + 1] && f !in in1) || f in outputs)
    && SortedFiles(v'[level]) && SortedFiles(v'[level + 1])
    && forall l :: 0 <= l < NUM_LEVELS && l != level && l != level + 1 ==> v'[l] == v[l]
  }

  lemma OutputsApart(
    v: Version, level: nat, in0: seq<File>, in1: seq<File>, outputs: seq<File>, v': Version, f: File, g: File)
    requires LayeredVersion(v) && GoodInputs(v, level, in0, in1) && MovesDown(v, level, in0, in1, outputs, v')
    requires f in v'[level + 1] && g in v'[level + 1] && f != g
    ensures Apart(f, g)
  {
    if f in outputs && g in outputs {
      DisjointApart(outputs, f, g);
    } else if f !in outputs && g !in outputs {
      DisjointApart(v[level + 1], f, g);
    }
  }

  /** An output stays clear of a file beyond the inputs. */
  lemma OutputClearOf(v: Version, level: nat, in0: seq<File>, in1: seq<File>, outputs: seq<File>, o: File, g: File)
    requires LayeredVersion(v) && GoodInputs(v, level, in0, in1)
    requires LevelContents(outputs) <= LevelContents(in0) + LevelContents(in1) && WellFormed(o)
    requires o in outputs && g in v[level + 1] && g !in in1 && Beyond(g, in0)
    ensures Apart(o, g)
  {
    NextLevelInputsInLevel(v, level, in0, in1);
    OutsiderIsClear(v, level, in0, in1, g);
    var a, b := OriginOf(in0, in1, outputs, o, o.entries[0]),
      OriginOf(in0, in1, outputs, o, o.entries[|o.entries| - 1]);
    assert WellFormed(a) && WellFormed(b);
    EntryInRange(a, o.entries[0]);
    EntryInRange(b, o.entries[|o.entries| - 1]);
  }

  /** With nothing between the inputs, the outputs are clear of all files that stay. */
  lemma BeyondOutputsClear(v: Version, level: nat, in0: seq<File>, in1: seq<File>, outputs: seq<File>)
    requires LayeredVersion(v) && GoodInputs(v, level, in0, in1)
    requires LevelContents(outputs) <= LevelContents(in0) + LevelContents(in1)
    requires forall o :: o in outputs ==> WellFormed(o)
    requires forall g :: g in v[level + 1] && g !in in1 ==> Beyond(g, in0)
    ensures OutputsClear(v, level, in1, outputs)
  {
    forall o, g | o in outputs && g in v[level + 1] && g !in in1 ensures Apart(o, g) {
      OutputClearOf(v, level, in0, in1, outputs, o, g);
    }
  }

  /** The input file an output entry came from. */
  ghost function OriginOf(in0: seq<File>, in1: seq<File>, outputs: seq<File>, o: File, e: Entry): (f: File)
    requires LevelContents(outputs) <= LevelContents(in0) + LevelContents(in1) && o in outputs && e in o.entries
    ensures (f in in0 || f in in1) && e in f.entries
  {
    assert e in LevelContents(outputs);
    var f :| (f in in0 || f in in1) && e in f.entries;
    f
  }

  /** A compaction or a trivial move keeps levels sorted and disjoint and keys layered. */
  lemma MoveDownKeepsLayering(v: Version, level: nat, in0: seq<File>, in1: seq<File>, outputs: seq<File>, v': Version)
    requires LayeredVersion(v) && GoodInputs(v, level, in0, in1) && MovesDown(v, level, in0, in1, outputs, v')
    ensures LayeredVersion(v')
  {
    NextLevelInputsInLevel(v, level, in0, in1);
    forall l | 1 <= l < NUM_LEVELS ensures SortedDisjoint(v'[l]) {
      MovedLevelIsSorted(v, level, in0, in1, outputs, v', l);
    }
    forall l, m | 0 <= l < m < NUM_LEVELS ensures Newer(LevelContents(v'[l]), LevelContents(v'[m])) {
      MovedLevelsStayNewer(v, level, in0, in1, outputs, v', l, m);
    }
    MovedFilesStaySound(v, level, in0, in1, outputs, v');
  }

  lemma MovedLevelIsSorted(
    v: Version, level: nat, in0: seq<File>, in1: seq<File>, outputs: seq<File>, v': Version, l: nat)
    requires LayeredVersion(v) && GoodInputs(v, level, in0, in1) && MovesDown(v, level, in0, in1, outputs, v')
    requires 1 <= l < NUM_LEVELS
    ensures SortedDisjoint(v'[l])
  {
    if l == level + 1 {
      forall f, g | f in v'[l] && g in v'[l] && f != g ensures Apart(f, g) {
        OutputsApart(v, level, in0, in1, outputs, v', f, g);
      }
      ApartAndSorted(v'[l]);
    } else if l == level {
      forall f, g | f in v'[l] && g in v'[l] && f != g ensures Apart(f, g) {
        DisjointApart(v[l], f, g);
      }
      ApartAndSorted(v'[l]);
    }
  }

  lemma MovedLevelsStayNewer(
    v: Version, level: nat, in0: seq<File>, in1: seq<File>, outputs: seq<File>, v': Version, l: nat, m: nat)
    requires LayeredVersion(v) && GoodInputs(v, level, in0, in1) && MovesDown(v, level, in0, in1, outputs, v')
    requires l < m < NUM_LEVELS
    ensures Newer(LevelContents(v'[l]), LevelContents(v'[m]))
  {
    NextLevelInputsInLevel(v, level, in0, in1);
    ContentsMoveDown(v, level, in0, in1, outputs, v');
    if l == level && m == level + 1 {
      InputLevelStaysNewer(v, level, in0, v'[l], LevelContents(v'[m]));
    } else {
      OtherLevelsStayNewer(v, level, v', l, m);
    }
  }

  lemma MovedFilesStaySound(v: Version, level: nat, in0: seq<File>, in1: seq<File>, outputs: seq<File>, v': Version)
    requires LayeredVersion(v) && GoodInputs(v, level, in0, in1) && MovesDown(v, level, in0, in1, outputs, v')
    ensures forall l, f :: 0 <= l < NUM_LEVELS && f in v'[l] ==> WellFormed(f)
    ensures forall f, g :: f in v'[0] && g in v'[0] && f.number >= g.number ==> f == g || OlderFile(g, f)
    ensures Distinct(VersionContents(v'))
  {
    NextLevelInputsInLevel(v, level, in0, in1);
    ContentsMoveDown(v, level, in0, in1, outputs, v');
    MoveDownShrinks(v, level, v');
    assert VersionContents(v') <= VersionContents(v);
  }

  lemma ContentsMoveDown(v: Version, level: nat, in0: seq<File>, in1: seq<File>, outputs: seq<File>, v': Version)
    requires GoodInputs(v, level, in0, in1) && MovesDown(v, level, in0, in1, outputs, v')
    ensures LevelContents(v'[level]) <= LevelContents(v[level])
    ensures LevelContents(v'[level + 1]) <= LevelContents(v[level]) + LevelContents(v[level + 1])
    ensures LevelContents(v'[level + 1]) <= LevelContents(v[level + 1]) + LevelContents(in0)
  {
    NextLevelInputsInLevel(v, level, in0, in1);
    var after := LevelContents(v'[level + 1]);
    forall e | e in after ensures e in LevelContents(v[level + 1]) + LevelContents(in0) {
      var f :| f in v'[level + 1] && e in f.entries;
      assert f in outputs ==> e in LevelContents(outputs);
    }
  }

  lemma MoveDownShrinks(v: Version, level: nat, v': Version)
    requires level + 1 < NUM_LEVELS
    requires forall l :: 0 <= l < NUM_LEVELS && l != level + 1 ==> LevelContents(v'[l]) <= LevelContents(v[l])
    requires LevelContents(v'[level + 1]) <= LevelContents(v[level]) + LevelContents(v[level + 1])
    ensures VersionContents(v') <= VersionContents(v)
  {
    forall e | e in VersionContents(v') ensures e in VersionContents(v) {
      var l :| 0 <= l < NUM_LEVELS && e in LevelContents(v'[l]);
      assert e in LevelContents(v[l]) || e in LevelContents(v[level]);
    }
  }

  lemma InputLevelStaysNewer(v: Version, level: nat, in0: seq<File>, remaining: seq<File>, below: set<Entry>)
    requires LayeredVersion(v) && level + 1 < NUM_LEVELS && ClosedInputs(v[level], level, in0)
    requires forall f :: f in remaining ==> f in v[level] && f !in in0
    requires below <= LevelContents(v[level + 1]) + LevelContents(in0)
    ensures Newer(LevelContents(remaining), below)
  {
    var above := LevelContents(remaining);
    forall e, x | e in above && x in below && e.key.user == x.key.user ensures e.key.seqno > x.key.seqno {
      var f :| f in remaining && e in f.entries;
      if x in LevelContents(in0) {
        RemainingIsNewer(v, level, in0, f, e, x);
      } else {
        assert e in LevelContents(v[level]);
        assert Newer(LevelContents(v[level]), LevelContents(v[level + 1]));
      }
    }
  }

  /** Every pair of levels other than the input level and its output level. */
  lemma OtherLevelsStayNewer(v: Version, level: nat, v': Version, l: nat, m: nat)
    requires level + 1 < NUM_LEVELS && l < m < NUM_LEVELS && !(l == level && m == level + 1)
    requires forall a, b :: 0 <= a < b < NUM_LEVELS ==> Newer(LevelContents(v[a]), LevelContents(v[b]))
    requires forall k :: 0 <= k < NUM_LEVELS && k != level + 1 ==> LevelContents(v'[k]) <= LevelContents(v[k])
    requires LevelContents(v'[level + 1]) <= LevelContents(v[level]) + LevelContents(v[level + 1])
    ensures Newer(LevelContents(v'[l]), LevelContents(v'[m]))
  {
    var above := if l == level + 1 then LevelContents(v[level]) else {};
    var below := if m == level + 1 then LevelContents(v[level]) else {};
    assert Newer(above, below) && Newer(above, LevelContents(v[m])) && Newer(LevelContents(v[l]), below);
    NewerUnion(above, LevelContents(v[l]), below, LevelContents(v[m]), LevelContents(v'[l]), LevelContents(v'[m]));
  }

  lemma NewerUnion(a1: set<Entry>, a2: set<Entry>, b1: set<Entry>, b2: set<Entry>, a: set<Entry>, b: set<Entry>)
    requires Newer(a1, b1) && Newer(a1, b2) && Newer(a2, b1) && Newer(a2, b2)
    requires a <= a1 + a2 && b <= b1 + b2
    ensures Newer(a, b)
  {
  }

  const MAX_MEM_COMPACT_LEVEL: nat := 2

  ghost predicate NoOverlap(files: seq<File>, lo: UserKey, hi: UserKey) {
    forall f :: f in files ==> !Overlaps(f, Some(lo), Some(hi))
  }

  /** A table may pass `l`: nothing in the level below overlaps it, and not too much in the level after that. */
  ghost predicate Passable(v: Version, lo: UserKey, hi: UserKey, maxGrandparentBytes: nat, l: nat) {
    && l + 2 < NUM_LEVELS && NoOverlap(v[l + 1], lo, hi)
    && TotalFileSize(OverlappingFiles(v[l + 2], Some(lo), Some(hi))) <= maxGrandparentBytes
  }

  /** Level 0 if something there overlaps; otherwise the first level, up to the deepest allowed, that is not
      passable. */
  ghost predicate PicksLevel(v: Version, lo: UserKey, hi: UserKey, maxGrandparentBytes: nat, level: nat) {
    && level <= MAX_MEM_COMPACT_LEVEL
    && if NoOverlap(v[0], lo, hi) then
         && (forall l :: 0 <= l < level ==> Passable(v, lo, hi, maxGrandparentBytes, l))
         && (level < MAX_MEM_COMPACT_LEVEL ==> !Passable(v, lo, hi, maxGrandparentBytes, level))
       else level == 0
  }

  lemma NothingOnTheWay(v: Version, lo: UserKey, hi: UserKey, maxGrandparentBytes: nat, level: nat)
    requires PicksLevel(v, lo, hi, maxGrandparentBytes, level)
    ensures level > 0 ==> forall l :: 0 <= l <= level ==> NoOverlap(v[l], lo, hi)
  {
    forall l | 0 < l <= level ensures NoOverlap(v[l], lo, hi) {
      assert Passable(v, lo, hi, maxGrandparentBytes, l - 1);
    }
  }

  /** The level for a flushed memtable: as deep as level 2 while nothing on the way overlaps. */
  method PickLevelForMemTableOutput(v: Version, lo: UserKey, hi: UserKey, maxGrandparentBytes: nat) returns (level: nat)
    requires forall l :: 1 <= l < NUM_LEVELS ==> SortedDisjoint(v[l])
    ensures PicksLevel(v, lo, hi, maxGrandparentBytes, level)
    ensures level > 0 ==> forall l :: 0 <= l <= level ==> NoOverlap(v[l], lo, hi)
  {
    level := 0;
    var overlaps := SomeFileOverlapsRange(false, v[0], Some(lo), Some(hi));
    if !overlaps {
      while level < MAX_MEM_COMPACT_LEVEL
        invariant level <= MAX_MEM_COMPACT_LEVEL
        invariant forall l :: 0 <= l < level ==> Passable(v, lo, hi, maxGrandparentBytes, l)
      {
        overlaps := SomeFileOverlapsRange(true, v[level + 1], Some(lo), Some(hi));
        if overlaps {
          break;
        }
        if level + 2 < NUM_LEVELS {
          var grandparents, _, _ := GetOverlappingInputs(false, v[level + 2], Some(lo), Some(hi));
          if TotalFileSize(grandparents) > maxGrandparentBytes {
            break;
          }
        }
        level := level + 1;
      }
    }
    NothingOnTheWay(v, lo, hi, maxGrandparentBytes, level);
  }

  /** A memtable's table enters `level`; nothing else changes. */
  ghost predicate Flushes(v: Version, level: nat, f: File, v': Version) {
    && level < NUM_LEVELS && WellFormed(f)
    && (level > 0 ==> forall l :: 0 <= l <= level ==> NoOverlap(v[l], f.smallest.user, f.largest.user))
    && (forall g :: g in v[0] ==> g.number < f.number)
    && SortedFiles(v'[level]) && (forall g :: g in v'[level] <==> g in v[level] || g == f)
    && forall l :: 0 <= l < NUM_LEVELS && l != level ==> v'[l] == v[l]
  }

  lemma FlushContents(v: Version, level: nat, f: File, v': Version)
    requires Flushes(v, level, f, v')
    ensures LevelContents(v'[level]) == LevelContents(v[level]) + Contents(f.entries)
    ensures VersionContents(v') == VersionContents(v) + Contents(f.entries)
  {
    var before, after := LevelContents(v[level]), LevelContents(v'[level]);
    forall e | e in before + Contents(f.entries) ensures e in after {
      if e in before {
        var g :| g in v[level] && e in g.entries;
        assert g in v'[level];
      } else {
        assert f in v'[level];
      }
    }
    forall e | e in VersionContents(v) + Contents(f.entries) ensures e in VersionContents(v') {
      if e in VersionContents(v) {
        var l :| 0 <= l < NUM_LEVELS && e in LevelContents(v[l]);
        assert e in LevelContents(v'[l]);
      } else {
        assert e in LevelContents(v'[level]);
      }
    }
  }

  lemma NoOverlapNoSharedKey(files: seq<File>, f: File)
    requires (forall g :: g in files ==> WellFormed(g)) && WellFormed(f)
      && NoOverlap(files, f.smallest.user, f.largest.user)
    ensures forall e, x :: e in LevelContents(files) && x in Contents(f.entries) ==> e.key.user != x.key.user
    ensures forall g :: g in files ==> Apart(f, g)
  {
    forall e, x | e in LevelContents(files) && x in Contents(f.entries) ensures e.key.user != x.key.user {
      var g :| g in files && e in g.entries;
      EntryInRange(g, e);
      EntryInRange(f, x);
      assert !Overlaps(g, Some(f.smallest.user), Some(f.largest.user));
    }
  }

  lemma FlushKeepsLayering(v: Version, level: nat, f: File, v': Version)
    requires LayeredVersion(v) && Flushes(v, level, f, v')
    requires Newer(Contents(f.entries), VersionContents(v)) && Distinct(VersionContents(v) + Contents(f.entries))
    ensures LayeredVersion(v')
  {
    FlushContents(v, level, f, v');
    if level > 0 {
      NoOverlapNoSharedKey(v[level], f);
      forall g, h | g in v'[level] && h in v'[level] && g != h ensures Apart(g, h) {
        if g != f && h != f {
          DisjointApart(v[level], g, h);
        }
      }
      ApartAndSorted(v'[level]);
    } else {
      forall g | g in v[0] ensures OlderFile(g, f) {
        InVersion(v, 0, g);
      }
    }
    forall l, m | 0 <= l < m < NUM_LEVELS ensures Newer(LevelContents(v'[l]), LevelContents(v'[m])) {
      assert Newer(LevelContents(v[l]), LevelContents(v[m]));
      if l == level {
        LevelInVersion(v, m);
      } else if m == level {
        NoOverlapNoSharedKey(v[l], f);
      }
    }
  }

  lemma InVersion(v: Version, l: nat, g: File)
    requires l < NUM_LEVELS && g in v[l]
    ensures Contents(g.entries) <= VersionContents(v)
  {
    forall e | e in Contents(g.entries) ensures e in VersionContents(v) {
      assert e in LevelContents(v[l]);
    }
  }

  lemma LevelInVersion(v: Version, l: nat)
    requires l < NUM_LEVELS
    ensures LevelContents(v[l]) <= VersionContents(v)
  {
  }
}
