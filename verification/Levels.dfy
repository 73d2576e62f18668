/** Table files, levels and the searches over a level's file list. */
module Levels {
  import opened InternalKeys
  import opened Wrappers

  const NUM_LEVELS: nat := 7

  /** A table file: its metadata and the entries stored in it. */
  datatype FileMetaData = FileMetaData(number: nat, size: nat, smallest: InternalKey, largest: InternalKey,
    entries: seq<Entry>)

  type File = f: FileMetaData | AtMost(f.smallest, f.largest)
    witness FileMetaData(0, 0, InternalKey(0, 0, Value), InternalKey(0, 0, Value), [])

  /** The metadata matches the entries, which are sorted and never empty. */
  ghost predicate WellFormed(f: File) {
    && |f.entries| > 0 && Sorted(f.entries)
    && f.smallest == f.entries[0].key && f.largest == f.entries[|f.entries| - 1].key
  }

  type Version = v: seq<seq<File>> | |v| == NUM_LEVELS witness [[], [], [], [], [], [], []]

  ghost function LevelContents(files: seq<File>): (r: set<Entry>) {
    set f, e | f in files && e in f.entries :: e
  }

  ghost function VersionContents(v: Version): (r: set<Entry>) {
    set l, e | 0 <= l < NUM_LEVELS && e in LevelContents(v[l]) :: e
  }

  /** Files in order of key, no two sharing an internal key. */
  ghost predicate SortedDisjoint(files: seq<File>) {
    forall i, j :: 0 <= i < j < |files| ==> Before(files[i].largest, files[j].smallest)
  }

  lemma EntryInRange(f: File, e: Entry)
    requires WellFormed(f) && e in f.entries
    ensures AtMost(f.smallest, e.key) && AtMost(e.key, f.largest)
    ensures f.smallest.user <= e.key.user <= f.largest.user
  {
    var i :| 0 <= i < |f.entries| && f.entries[i] == e;
  }

  /** Does the user-key range [lo, hi] (None: unbounded) meet the file's range? */
  predicate Overlaps(f: File, lo: Option<UserKey>, hi: Option<UserKey>) {
    !AfterFile(lo, f) && !BeforeFile(hi, f)
  }

  predicate AfterFile(user: Option<UserKey>, f: File) {
    user.Some? && user.value > f.largest.user
  }

  predicate BeforeFile(user: Option<UserKey>, f: File) {
    user.Some? && user.value < f.smallest.user
  }

  ghost predicate InSomeRange(files: seq<File>, user: UserKey) {
    exists f :: f in files && f.smallest.user <= user <= f.largest.user
  }

  /** Where a binary search by largest keys ends, on any list of files. */
  function SearchFrom(files: seq<File>, key: InternalKey, left: nat, right: nat): (r: nat)
    requires left <= right <= |files|
    ensures left <= r <= right
    decreases right - left
  {
    var mid := (left + right) / 2;
    if left == right then right
    else if Before(files[mid].largest, key) then SearchFrom(files, key, mid + 1, right)
    else SearchFrom(files, key, left, mid)
  }

  /** In a sorted level the binary search finds the first file whose largest key is not before `key`. */
  method FindFile(files: seq<File>, key: InternalKey) returns (right: nat)
    ensures right == SearchFrom(files, key, 0, |files|)
    ensures right <= |files|
    ensures SortedDisjoint(files) ==> forall i :: 0 <= i < |files| ==> (i < right <==> Before(files[i].largest, key))
  {
    var left := 0;
    right := |files|;
    while left < right
      invariant 0 <= left <= right <= |files|
      invariant SearchFrom(files, key, left, right) == SearchFrom(files, key, 0, |files|)
    {
      var mid := (left + right) / 2;
      if Before(files[mid].largest, key) {
        left := mid + 1;
      } else {
        right := mid;
      }
    }
    if SortedDisjoint(files) {
      SearchSplits(files, key, 0, |files|);
    }
  }

  lemma {:induction false} SearchSplits(files: seq<File>, key: InternalKey, left: nat, right: nat)
    requires SortedDisjoint(files) && left <= right <= |files|
    requires forall i :: 0 <= i < left ==> Before(files[i].largest, key)
    requires forall i :: right <= i < |files| ==> !Before(files[i].largest, key)
    ensures forall i :: 0 <= i < |files| ==>
      (i < SearchFrom(files, key, left, right) <==> Before(files[i].largest, key))
    decreases right - left
  {
    if left < right {
      var mid := (left + right) / 2;
      forall i | 0 <= i < |files| && i != mid
        ensures i < mid ==> Before(files[i].largest, files[mid].largest)
        ensures mid < i ==> Before(files[mid].largest, files[i].largest)
      {
      }
      if Before(files[mid].largest, key) {
        SearchSplits(files, key, mid + 1, right);
      } else {
        SearchSplits(files, key, left, mid);
      }
    }
  }

  method SomeFileOverlapsRange(disjointSorted: bool, files: seq<File>, lo: Option<UserKey>, hi: Option<UserKey>)
    returns (overlaps: bool)
    requires disjointSorted ==> SortedDisjoint(files)
    ensures overlaps <==> exists f :: f in files && Overlaps(f, lo, hi)
  {
    if !disjointSorted {
      for i := 0 to |files|
        invariant forall j :: 0 <= j < i ==> !Overlaps(files[j], lo, hi)
      {
        if !AfterFile(lo, files[i]) && !BeforeFile(hi, files[i]) {
          assert files[i] in files;
          return true;
        }
      }
      return false;
    }
    var index := 0;
    if lo.Some? {
      index := FindFile(files, InternalKey(lo.value, MAX_SEQUENCE, Value));
    }
    if index >= |files| {
      return false;
    }
    overlaps := !BeforeFile(hi, files[index]);
    if !overlaps {
      forall f | f in files ensures !Overlaps(f, lo, hi) {
        var i :| 0 <= i < |files| && files[i] == f;
      }
    } else {
      assert files[index] in files && Overlaps(files[index], lo, hi);
    }
  }

  /** The number of bytes in a list of files. */
  function TotalFileSize(files: seq<File>): (r: nat) {
    if files == [] then 0 else files[0].size + TotalFileSize(files[1..])
  }

  lemma {:induction false} OneMoreSize(files: seq<File>, n: nat)
    requires n < |files|
    ensures TotalFileSize(files[..n + 1]) == TotalFileSize(files[..n]) + files[n].size
  {
    if n == 0 {
      assert files[..1][1..] == [];
    } else {
      assert files[..n + 1][1..] == files[1..][..n] && files[..n][1..] == files[1..][..n - 1];
      OneMoreSize(files[1..], n - 1);
    }
  }
}
