/** Choosing the input files of a compaction. */
module InputSelection {
  import Order
  import opened InternalKeys
  import opened Wrappers
  import opened Levels

  type Bound = Option<UserKey>

  /** The files that meet [lo, hi], in list order. */
  function OverlappingFiles(files: seq<File>, lo: Bound, hi: Bound): (r: seq<File>) {
    if files == [] then []
    else
      var last := files[|files| - 1];
      var front := OverlappingFiles(files[..|files| - 1], lo, hi);
      if Overlaps(last, lo, hi) then front + [last] else front
  }

  lemma {:induction false} OverlapMembers(files: seq<File>, lo: Bound, hi: Bound)
    ensures forall f :: f in OverlappingFiles(files, lo, hi) <==> f in files && Overlaps(f, lo, hi)
  {
    if files != [] {
      OverlapMembers(files[..|files| - 1], lo, hi);
      assert files == files[..|files| - 1] + [files[|files| - 1]];
    }
  }

  predicate Within(f: File, lo: Bound, hi: Bound) {
    (lo.Some? ==> lo.value <= f.smallest.user) && (hi.Some? ==> f.largest.user <= hi.value)
  }

  ghost predicate Closed(files: seq<File>, lo: Bound, hi: Bound) {
    forall f :: f in files && Overlaps(f, lo, hi) ==> Within(f, lo, hi)
  }

  /** [a, b] includes [lo, hi]. */
  ghost predicate Covers(a: Bound, b: Bound, lo: Bound, hi: Bound) {
    && (a.None? || (lo.Some? && a.value <= lo.value))
    && (b.None? || (hi.Some? && hi.value <= b.value))
  }

  ghost predicate ClosedCover(files: seq<File>, lo: Bound, hi: Bound, a: Bound, b: Bound) {
    Covers(a, b, lo, hi) && Closed(files, a, b)
  }

  /** The least range that includes [lo, hi] and is closed under overlap. */
  ghost predicate LeastClosed(files: seq<File>, lo: Bound, hi: Bound, a: Bound, b: Bound) {
    ClosedCover(files, lo, hi, a, b) && Forced(files, lo, hi, a, b)
  }

  /** Every closed range that includes [lo, hi] includes [a, b]. */
  ghost predicate Forced(files: seq<File>, lo: Bound, hi: Bound, a: Bound, b: Bound) {
    forall x, y :: ClosedCover(files, lo, hi, x, y) ==> Covers(x, y, a, b)
  }

  lemma WideningIsForced(files: seq<File>, lo: Bound, hi: Bound, a: Bound, b: Bound, f: File)
    requires Forced(files, lo, hi, a, b) && f in files && Overlaps(f, a, b)
    ensures a.Some? ==> Forced(files, lo, hi, Some(f.smallest.user), b) || a.value <= f.smallest.user
    ensures b.Some? ==> Forced(files, lo, hi, a, Some(f.largest.user)) || f.largest.user <= b.value
  {
    forall x, y | ClosedCover(files, lo, hi, x, y)
      ensures Covers(x, y, a, b) && Within(f, x, y)
    {
      assert Overlaps(f, x, y);
    }
  }

  ghost function Outside(files: seq<File>, lo: Bound, hi: Bound): (r: nat) {
    |set f | f in files && lo.Some? && f.smallest.user < lo.value|
    + |set f | f in files && hi.Some? && f.largest.user > hi.value|
  }

  lemma WideningShrinksOutside(files: seq<File>, lo: Bound, hi: Bound, f: File)
    requires f in files
    ensures lo.Some? && f.smallest.user < lo.value ==>
      Outside(files, Some(f.smallest.user), hi) < Outside(files, lo, hi)
    ensures hi.Some? && f.largest.user > hi.value ==> Outside(files, lo, Some(f.largest.user)) < Outside(files, lo, hi)
  {
    if lo.Some? && f.smallest.user < lo.value {
      var a := set g | g in files && g.smallest.user < f.smallest.user;
      var b := set g | g in files && lo.Some? && g.smallest.user < lo.value;
      assert f in b && f !in a;
      Order.SubsetCardinality(a, b);
      assert a == set g | g in files && Some(f.smallest.user).Some? && g.smallest.user < Some(f.smallest.user).value;
    }
    if hi.Some? && f.largest.user > hi.value {
      var a := set g | g in files && g.largest.user > f.largest.user;
      var b := set g | g in files && hi.Some? && g.largest.user > hi.value;
      assert f in b && f !in a;
      Order.SubsetCardinality(a, b);
      assert a == set g | g in files && Some(f.largest.user).Some? && g.largest.user > Some(f.largest.user).value;
    }
  }

  /** A picked file that starts before the range moves its start, and the scan begins again. */
  lemma RestartLower(files: seq<File>, begin: Bound, end: Bound, a: Bound, b: Bound, f: File)
    requires Covers(a, b, begin, end) && Forced(files, begin, end, a, b)
    requires f in files && Overlaps(f, a, b) && a.Some? && f.smallest.user < a.value
    ensures Covers(Some(f.smallest.user), b, begin, end) && Forced(files, begin, end, Some(f.smallest.user), b)
    ensures Outside(files, Some(f.smallest.user), b) < Outside(files, a, b)
  {
    WideningShrinksOutside(files, a, b, f);
    WideningIsForced(files, begin, end, a, b, f);
  }

  lemma RestartHigher(files: seq<File>, begin: Bound, end: Bound, a: Bound, b: Bound, f: File)
    requires Covers(a, b, begin, end) && Forced(files, begin, end, a, b)
    requires f in files && Overlaps(f, a, b) && b.Some? && f.largest.user > b.value
    ensures Covers(a, Some(f.largest.user), begin, end) && Forced(files, begin, end, a, Some(f.largest.user))
    ensures Outside(files, a, Some(f.largest.user)) < Outside(files, a, b)
  {
    WideningShrinksOutside(files, a, b, f);
    WideningIsForced(files, begin, end, a, b, f);
  }

  /** All files of a level that meet [begin, end]; in level 0 the range grows with
      every file picked and the scan restarts, until it is closed under overlap. */
  method GetOverlappingInputs(levelZero: bool, files: seq<File>, begin: Bound, end: Bound)
    returns (inputs: seq<File>, ghost lo: Bound, ghost hi: Bound)
    ensures inputs == OverlappingFiles(files, lo, hi)
    ensures !levelZero ==> lo == begin && hi == end
    ensures levelZero ==> LeastClosed(files, begin, end, lo, hi)
    ensures (lo.Some? <==> begin.Some?) && (hi.Some? <==> end.Some?)
    ensures !levelZero ==> inputs == OverlappingFiles(files, begin, end)
    ensures levelZero ==>
      exists a, b :: LeastClosed(files, begin, end, a, b) && inputs == OverlappingFiles(files, a, b)
  {
    var userBegin, userEnd := begin, end;
    inputs := [];
    var i := 0;
    while i < |files|
      invariant 0 <= i <= |files|
      invariant inputs == OverlappingFiles(files[..i], userBegin, userEnd)
      invariant !levelZero ==> userBegin == begin && userEnd == end
      invariant (userBegin.Some? <==> begin.Some?) && (userEnd.Some? <==> end.Some?)
      invariant levelZero ==> Closed(files[..i], userBegin, userEnd) && Covers(userBegin, userEnd, begin, end)
      invariant levelZero ==> Forced(files, begin, end, userBegin, userEnd)
      decreases Outside(files, userBegin, userEnd), |files| - i
    {
      var f := files[i];
      assert files[..i + 1][..i] == files[..i];
      i := i + 1;
      if userBegin.Some? && f.largest.user < userBegin.value {
      } else if userEnd.Some? && f.smallest.user > userEnd.value {
      } else {
        inputs := inputs + [f];
        if levelZero {
          if userBegin.Some? && f.smallest.user < userBegin.value {
            RestartLower(files, begin, end, userBegin, userEnd, f);
            userBegin := Some(f.smallest.user);
            inputs := [];
            i := 0;
          } else if userEnd.Some? && f.largest.user > userEnd.value {
            RestartHigher(files, begin, end, userBegin, userEnd, f);
            userEnd := Some(f.largest.user);
            inputs := [];
            i := 0;
          }
        }
      }
    }
    assert files[..|files|] == files;
    lo, hi := userBegin, userEnd;
  }

  ghost predicate IsLargestKey(files: seq<File>, k: InternalKey) {
    && (exists f :: f in files && f.largest == k)
    && (forall f :: f in files ==> AtMost(f.largest, k))
  }

  method FindLargestKey(files: seq<File>) returns (k: InternalKey)
    requires files != []
    ensures IsLargestKey(files, k)
  {
    k := files[0].largest;
    for i := 1 to |files|
      invariant exists j :: 0 <= j < i && files[j].largest == k
      invariant forall j :: 0 <= j < i ==> AtMost(files[j].largest, k)
    {
      if Before(k, files[i].largest) {
        k := files[i].largest;
      }
    }
  }

  /** `f` starts after `k` but with the same user key. */
  predicate IsBoundary(f: File, k: InternalKey) {
    Before(k, f.smallest) && f.smallest.user == k.user
  }

  method FindSmallestBoundaryFile(levelFiles: seq<File>, k: InternalKey) returns (r: Option<File>)
    ensures r.Some? ==> r.value in levelFiles && IsBoundary(r.value, k)
    ensures r.Some? ==> forall f :: f in levelFiles && IsBoundary(f, k) ==> AtMost(r.value.smallest, f.smallest)
    ensures r.None? ==> forall f :: f in levelFiles ==> !IsBoundary(f, k)
  {
    r := None;
    for i := 0 to |levelFiles|
      invariant r.Some? ==> r.value in levelFiles && IsBoundary(r.value, k)
      invariant r.Some? ==> forall j :: 0 <= j < i && IsBoundary(levelFiles[j], k) ==>
        AtMost(r.value.smallest, levelFiles[j].smallest)
      invariant r.None? ==> forall j :: 0 <= j < i ==> !IsBoundary(levelFiles[j], k)
    {
      var f := levelFiles[i];
      if Before(k, f.smallest) && f.smallest.user == k.user {
        if r.None? || Before(f.smallest, r.value.smallest) {
          r := Some(f);
        }
      }
    }
  }

  /** `r` is the run of `files` that starts at `a`. */
  ghost predicate IsSlice(files: seq<File>, a: nat, r: seq<File>) {
    a + |r| <= |files| && forall i :: 0 <= i < |r| ==> r[i] == files[a + i]
  }

  lemma SliceLargest(files: seq<File>, a: nat, r: seq<File>, k: InternalKey)
    requires SortedDisjoint(files) && IsSlice(files, a, r) && r != [] && IsLargestKey(r, k)
    ensures k == files[a + |r| - 1].largest
  {
    var last := r[|r| - 1];
    var f :| f in r && f.largest == k;
    var i :| 0 <= i < |r| && r[i] == f;
    if i < |r| - 1 {
      assert Before(files[a + i].largest, files[a + |r| - 1].smallest);
    }
  }

  lemma NextIsBoundary(files: seq<File>, end: nat, j: nat)
    requires SortedDisjoint(files) && 0 < end < j < |files| && IsBoundary(files[j], files[end - 1].largest)
    ensures IsBoundary(files[end], files[end - 1].largest) && Before(files[end].smallest, files[j].smallest)
  {
    assert Before(files[end - 1].largest, files[end].smallest) && Before(files[end].largest, files[j].smallest);
  }

  /** In a sorted level the boundary file of a run is the next file. */
  lemma BoundaryIsNext(files: seq<File>, a: nat, r: seq<File>, k: InternalKey, b: File)
    requires SortedDisjoint(files) && IsSlice(files, a, r) && r != [] && IsLargestKey(r, k)
    requires b in files && IsBoundary(b, k)
    requires forall f :: f in files && IsBoundary(f, k) ==> AtMost(b.smallest, f.smallest)
    ensures IsSlice(files, a, r + [b])
  {
    SliceLargest(files, a, r, k);
    var end := a + |r|;
    var j :| 0 <= j < |files| && files[j] == b;
    forall m | end < m < |files| && IsBoundary(files[m], k)
      ensures IsBoundary(files[end], k) && Before(files[end].smallest, files[m].smallest)
    {
      NextIsBoundary(files, end, m);
    }
    assert j >= end;
  }

  /** Wherever `c` is a run of the files, `r` is one that starts there too. */
  ghost predicate KeepsSlices(files: seq<File>, c: seq<File>, r: seq<File>) {
    forall a :: IsSlice(files, a, c) ==> IsSlice(files, a, r)
  }

  lemma BoundaryKeepsSlices(files: seq<File>, c: seq<File>, r: seq<File>, k: InternalKey, b: File)
    requires SortedDisjoint(files) && r != [] && IsLargestKey(r, k) && KeepsSlices(files, c, r)
    requires b in files && IsBoundary(b, k)
    requires forall f :: f in files && IsBoundary(f, k) ==> AtMost(b.smallest, f.smallest)
    ensures KeepsSlices(files, c, r + [b])
  {
    forall a | IsSlice(files, a, c) ensures IsSlice(files, a, r + [b]) {
      BoundaryIsNext(files, a, r, k, b);
    }
  }

  ghost function StartAfter(files: seq<File>, k: InternalKey): (r: set<File>) {
    set f | f in files && Before(k, f.smallest)
  }

  lemma BoundaryGrowsLargest(files: seq<File>, k: InternalKey, b: File)
    requires b in files && IsBoundary(b, k)
    ensures Before(k, b.largest)
    ensures |StartAfter(files, b.largest)| < |StartAfter(files, k)|
  {
    assert b in StartAfter(files, k) && b !in StartAfter(files, b.largest);
    Order.SubsetCardinality(StartAfter(files, b.largest), StartAfter(files, k));
  }

  // ---- Inputs without gaps ----

  /** No user key between the ranges of the files lies outside all of them. */
  ghost predicate Connected(a: seq<File>, b: seq<File>) {
    forall f, g, u :: f in a + b && g in a + b && Between(f, g, u) ==> InSomeRange(a, u) || InSomeRange(b, u)
  }

  predicate Between(f: File, g: File, u: UserKey) {
    f.smallest.user <= u <= g.largest.user
  }

  /** The inputs of both levels cover every user key between those of the first. */
  ghost predicate Gapless(in0: seq<File>, in1: seq<File>) {
    forall f, g, u :: f in in0 && g in in0 && Between(f, g, u) ==> InSomeRange(in0, u) || InSomeRange(in1, u)
  }

  ghost predicate StartsOn(b: File, files: seq<File>) {
    exists h :: h in files && h.largest.user == b.smallest.user
  }

  ghost predicate Continues(files: seq<File>, b: File, r: seq<File>) {
    b in files && b !in r && StartsOn(b, r)
  }

  /** From position `n` on, each file of `r` is a new one that starts with a user key on which one before it ends. */
  ghost predicate Chained(files: seq<File>, r: seq<File>, n: nat) {
    forall i :: n <= i < |r| ==> Continues(files, r[i], r[..i])
  }

  lemma ChainStep(files: seq<File>, r: seq<File>, n: nat, k: InternalKey, b: File)
    requires Chained(files, r, n) && IsLargestKey(r, k) && IsBoundary(b, k) && b in files && b !in r
    ensures Chained(files, r + [b], n)
  {
    assert Continues(files, b, r);
    forall i | n <= i < |r + [b]| ensures Continues(files, (r + [b])[i], (r + [b])[..i]) {
      assert (r + [b])[..i] == r[..i];
    }
  }

  lemma {:induction false} ChainConnects(files: seq<File>, r: seq<File>, n: nat, others: seq<File>)
    requires n <= |r| && Chained(files, r, n) && Connected(r[..n], others)
    ensures Connected(r, others)
    decreases |r|
  {
    if n == |r| {
      assert r[..n] == r;
    } else {
      var m := |r| - 1;
      assert forall i :: n <= i < m ==> r[..m][..i] == r[..i];
      assert r[..m][..n] == r[..n];
      ChainConnects(files, r[..m], n, others);
      StartConnects(r[..m], others, r[m]);
      assert r[..m] + [r[m]] == r;
    }
  }

  lemma StartConnects(r: seq<File>, others: seq<File>, b: File)
    requires Connected(r, others) && StartsOn(b, r)
    ensures Connected(r + [b], others)
  {
    var h :| h in r && h.largest.user == b.smallest.user;
    forall f, g, u | f in r + [b] + others && g in r + [b] + others && Between(f, g, u)
      ensures InSomeRange(r + [b], u) || InSomeRange(others, u)
    {
      BoundaryCoversKey(r, others, h, b, f, g, u);
    }
  }

  lemma BoundaryCoversKey(r: seq<File>, others: seq<File>, h: File, b: File, f: File, g: File, u: UserKey)
    requires Connected(r, others) && h in r && h.largest.user == b.smallest.user
    requires f in r + [b] + others && g in r + [b] + others && Between(f, g, u)
    ensures InSomeRange(r + [b], u) || InSomeRange(others, u)
  {
    assert b in r + [b];
    if !(b.smallest.user <= u <= b.largest.user) {
      var f', g' := if f == b then h else f, if g == b then h else g;
      assert f' in r + others && g' in r + others && Between(f', g', u);
      if InSomeRange(r, u) {
        InMoreRanges(r, r + [b], u);
      }
    }
  }

  lemma InMoreRanges(a: seq<File>, b: seq<File>, u: UserKey)
    requires InSomeRange(a, u) && forall f :: f in a ==> f in b
    ensures InSomeRange(b, u)
  {
    var f :| f in a && f.smallest.user <= u <= f.largest.user;
    assert f in b;
  }

  ghost predicate Touches(f: File, files: seq<File>) {
    && (exists p :: p in files && p.smallest.user <= f.largest.user)
    && (exists q :: q in files && f.smallest.user <= q.largest.user)
  }

  /** Files that touch connected files stay connected with them. */
  lemma TouchingConnects(a: seq<File>, b: seq<File>, a': seq<File>, b': seq<File>)
    requires Connected(a, b) && (forall f :: f in a ==> f in a') && (forall f :: f in b ==> f in b')
    requires forall f :: f in a' + b' ==> f in a + b || Touches(f, a + b)
    ensures Connected(a', b')
  {
    forall f, g, u | f in a' + b' && g in a' + b' && Between(f, g, u)
      ensures InSomeRange(a', u) || InSomeRange(b', u)
    {
      if !(u <= f.largest.user) && !(g.smallest.user <= u) {
        var p := if f in a + b then f else var p :| p in a + b && p.smallest.user <= f.largest.user; p;
        var q := if g in a + b then g else var q :| q in a + b && g.smallest.user <= q.largest.user; q;
        assert Between(p, q, u);
        if InSomeRange(a, u) {
          InMoreRanges(a, a', u);
        } else {
          InMoreRanges(b, b', u);
        }
      }
    }
  }

  lemma OverlapTouches(f: File, files: seq<File>, lo: InternalKey, hi: InternalKey)
    requires IsHull(files, lo, hi) && Overlaps(f, Some(lo.user), Some(hi.user))
    ensures Touches(f, files)
  {
  }

  /** A closed range can be cut at a key that none of its files covers. */
  lemma CutIsClosed(files: seq<File>, begin: UserKey, end: UserKey, lo: Bound, hi: Bound, u: UserKey)
    requires ClosedCover(files, Some(begin), Some(end), lo, hi) && begin <= end
    requires lo.Some? && hi.Some? && lo.value <= u <= hi.value && !InSomeRange(OverlappingFiles(files, lo, hi), u)
    ensures u > end ==> ClosedCover(files, Some(begin), Some(end), lo, Some(u - 1))
    ensures u < begin ==> ClosedCover(files, Some(begin), Some(end), Some(u + 1), hi)
  {
    OverlapMembers(files, lo, hi);
    forall f | f in files && Overlaps(f, lo, hi)
      ensures u < f.smallest.user || f.largest.user < u
    {
      assert f in OverlappingFiles(files, lo, hi);
    }
  }

  /** In level 0 the least closed range around a covered range is covered by its files. */
  lemma GrownRangeIsCovered(files: seq<File>, begin: UserKey, end: UserKey, lo: Bound, hi: Bound, u: UserKey)
    requires LeastClosed(files, Some(begin), Some(end), lo, hi) && begin <= end
    requires lo.Some? && hi.Some? && lo.value <= u <= hi.value && !(begin <= u <= end)
    ensures InSomeRange(OverlappingFiles(files, lo, hi), u)
  {
    if !InSomeRange(OverlappingFiles(files, lo, hi), u) {
      CutIsClosed(files, begin, end, lo, hi, u);
    }
  }

  /** So the files that level 0 adds leave no gap either. */
  lemma GrownConnects(files: seq<File>, a: seq<File>, b: seq<File>, begin: UserKey, end: UserKey, lo: Bound, hi: Bound)
    requires Connected(a, b) && LeastClosed(files, Some(begin), Some(end), lo, hi) && lo.Some? && hi.Some?
    requires exists f, g :: f in a + b && g in a + b && f.smallest.user == begin && g.largest.user == end
    requires forall f :: f in a + b ==> begin <= f.smallest.user && f.largest.user <= end
    requires forall f :: f in a ==> f in files
    ensures Connected(OverlappingFiles(files, lo, hi), b)
  {
    var picked := OverlappingFiles(files, lo, hi);
    OverlapMembers(files, lo, hi);
    assert lo.value <= begin && end <= hi.value;
    forall f, g, u | f in picked + b && g in picked + b && Between(f, g, u)
      ensures InSomeRange(picked, u) || InSomeRange(b, u)
    {
      assert f in picked ==> Within(f, lo, hi);
      assert g in picked ==> Within(g, lo, hi);
      if begin <= u <= end {
        var p, q :| p in a + b && q in a + b && p.smallest.user == begin && q.largest.user == end;
        assert Between(p, q, u);
        if InSomeRange(a, u) {
          InMoreRanges(a, picked, u);
        }
      } else {
        GrownRangeIsCovered(files, begin, end, lo, hi, u);
      }
    }
  }

  /** Extends the files of a compaction until no file of the level starts with the
      user key on which they end; a run of a sorted level stays a run. */
  method AddBoundaryInputs(levelFiles: seq<File>, compaction: seq<File>) returns (r: seq<File>)
    ensures compaction <= r
    ensures r == [] <==> compaction == []
    ensures r != [] ==> !HasBoundary(levelFiles, r)
    ensures !HasBoundary(levelFiles, compaction) ==> r == compaction
    ensures SortedDisjoint(levelFiles) ==> KeepsSlices(levelFiles, compaction, r)
    ensures Chained(levelFiles, r, |compaction|)
  {
    r := compaction;
    if compaction == [] {
      return;
    }
    var largest := FindLargestKey(compaction);
    var searching := true;
    while searching
      invariant Extends(levelFiles, compaction, r, largest)
      invariant !searching ==> forall f :: f in levelFiles ==> !IsBoundary(f, largest)
      decreases searching, |StartAfter(levelFiles, largest)|
    {
      var b := FindSmallestBoundaryFile(levelFiles, largest);
      if b.Some? {
        BoundaryGrowsLargest(levelFiles, largest, b.value);
        ExtendStep(levelFiles, compaction, r, largest, b.value);
        r := r + [b.value];
        largest := b.value.largest;
      } else {
        searching := false;
      }
    }
    ExtensionEnds(levelFiles, compaction, r, largest);
  }

  ghost predicate HasBoundary(files: seq<File>, c: seq<File>) {
    exists k, f :: IsLargestKey(c, k) && f in files && IsBoundary(f, k)
  }

  /** `r` is `c` with boundary files added one after the other, and ends on `k`. */
  ghost predicate Extends(files: seq<File>, c: seq<File>, r: seq<File>, k: InternalKey) {
    && c <= r && IsLargestKey(r, k) && (r != c ==> HasBoundary(files, c))
    && (SortedDisjoint(files) ==> KeepsSlices(files, c, r)) && Chained(files, r, |c|)
  }

  lemma ExtendStep(files: seq<File>, c: seq<File>, r: seq<File>, k: InternalKey, b: File)
    requires Extends(files, c, r, k) && r != [] && b in files && IsBoundary(b, k)
    requires forall f :: f in files && IsBoundary(f, k) ==> AtMost(b.smallest, f.smallest)
    ensures Extends(files, c, r + [b], b.largest)
  {
    if SortedDisjoint(files) {
      BoundaryKeepsSlices(files, c, r, k, b);
    }
    NewLargest(r, k, b);
    ChainStep(files, r, |c|, k, b);
    assert r == c ==> HasBoundary(files, c);
  }

  lemma ExtensionEnds(files: seq<File>, c: seq<File>, r: seq<File>, k: InternalKey)
    requires Extends(files, c, r, k) && forall f :: f in files ==> !IsBoundary(f, k)
    ensures !HasBoundary(files, r)
  {
    forall m | IsLargestKey(r, m) ensures m == k {
    }
  }

  lemma NewLargest(r: seq<File>, k: InternalKey, b: File)
    requires IsLargestKey(r, k) && IsBoundary(b, k)
    ensures b !in r
    ensures IsLargestKey(r + [b], b.largest)
  {
    assert b in r + [b];
  }

  /** [lo, hi] is the tight internal-key hull of the files. */
  ghost predicate IsHull(files: seq<File>, lo: InternalKey, hi: InternalKey) {
    && (exists f :: f in files && f.smallest == lo)
    && (exists f :: f in files && f.largest == hi)
    && (forall f :: f in files ==> AtMost(lo, f.smallest) && AtMost(f.largest, hi))
  }

  method GetRange(inputs: seq<File>) returns (smallest: InternalKey, largest: InternalKey)
    requires inputs != []
    ensures IsHull(inputs, smallest, largest)
  {
    smallest, largest := inputs[0].smallest, inputs[0].largest;
    for i := 1 to |inputs|
      invariant exists j :: 0 <= j < i && inputs[j].smallest == smallest
      invariant exists j :: 0 <= j < i && inputs[j].largest == largest
      invariant forall j :: 0 <= j < i ==> AtMost(smallest, inputs[j].smallest) && AtMost(inputs[j].largest, largest)
    {
      if Before(inputs[i].smallest, smallest) {
        smallest := inputs[i].smallest;
      }
      if Before(largest, inputs[i].largest) {
        largest := inputs[i].largest;
      }
    }
  }

  /** What the callers of SetupOtherInputs start from: in level 0 a set closed under
      overlap, in a deeper level a run of neighbouring files. */
  ghost predicate Seed(files: seq<File>, level: nat, inputs: seq<File>) {
    && inputs != []
    && if level == 0 then exists lo, hi :: Closed(files, lo, hi) && inputs == OverlappingFiles(files, lo, hi)
       else exists a: nat :: IsSlice(files, a, inputs)
  }

  /** A user key that occurs in both `f` and the input `g` has its newer entries in `f`: the files
      are apart, or `f` precedes `g` in a sorted level, or `f` came to level 0 after `g`. */
  ghost predicate StaysClear(level: nat, f: File, g: File) {
    || g.largest.user < f.smallest.user
    || (if level == 0 then f.largest.user < g.smallest.user || g.number < f.number else Before(f.largest, g.smallest))
  }

  ghost predicate ClosedInputs(files: seq<File>, level: nat, in0: seq<File>) {
    && in0 != []
    && (forall g :: g in in0 ==> g in files)
    && (forall f, g :: f in files && f !in in0 && g in in0 ==> StaysClear(level, f, g))
  }

  /** What SetupOtherInputs selects from one version: `in1` is every file that meets the hull of `in0`. */
  ghost predicate PickedInputs(v: Version, level: nat, in0: seq<File>, in1: seq<File>) {
    && level + 1 < NUM_LEVELS
    && ClosedInputs(v[level], level, in0) && Seed(v[level], level, in0)
    && exists lo, hi :: IsHull(in0, lo, hi) && in1 == OverlappingFiles(v[level + 1], Some(lo.user), Some(hi.user))
  }

  /** All keys of `g` are smaller, or all are larger, than the user keys of `in0`. */
  ghost predicate Beyond(g: File, in0: seq<File>) {
    || (forall f :: f in in0 ==> g.largest.user < f.smallest.user)
    || (forall f :: f in in0 ==> f.largest.user < g.smallest.user)
  }

  /** `g` meets none of the inputs. */
  ghost predicate InGap(g: File, in0: seq<File>, in1: seq<File>) {
    forall f :: f in in0 || f in in1 ==> f.largest.user < g.smallest.user || g.largest.user < f.smallest.user
  }

  /** What later proofs need to know about the inputs of a compaction; it stays true
      when memtables are flushed while the compaction runs. */
  ghost predicate GoodInputs(v: Version, level: nat, in0: seq<File>, in1: seq<File>) {
    && level + 1 < NUM_LEVELS
    && ClosedInputs(v[level], level, in0)
    && (forall f :: f in in1 ==> f in v[level + 1] && !Beyond(f, in0))
    && forall g :: g in v[level + 1] && g !in in1 ==> Beyond(g, in0) || InGap(g, in0, in1)
  }

  lemma BeyondHull(g: File, in0: seq<File>, lo: InternalKey, hi: InternalKey)
    requires IsHull(in0, lo, hi)
    ensures Beyond(g, in0) <==> !Overlaps(g, Some(lo.user), Some(hi.user))
  {
    var a :| a in in0 && a.smallest == lo;
    var b :| b in in0 && b.largest == hi;
  }

  lemma PickedIsGood(v: Version, level: nat, in0: seq<File>, in1: seq<File>)
    requires PickedInputs(v, level, in0, in1)
    ensures GoodInputs(v, level, in0, in1)
    ensures forall g :: g in v[level + 1] && g !in in1 ==> Beyond(g, in0)
  {
    var lo, hi :| IsHull(in0, lo, hi) && in1 == OverlappingFiles(v[level + 1], Some(lo.user), Some(hi.user));
    OverlapMembers(v[level + 1], Some(lo.user), Some(hi.user));
    forall g | g in v[level + 1] ensures g in in1 <==> !Beyond(g, in0) {
      BeyondHull(g, in0, lo, hi);
    }
  }

  lemma {:induction false} FilterOfRun(files: seq<File>, lo: Bound, hi: Bound, a: nat, b: nat)
    requires a <= b <= |files|
    requires forall i :: 0 <= i < |files| ==> (Overlaps(files[i], lo, hi) <==> a <= i < b)
    ensures OverlappingFiles(files, lo, hi) == files[a..b]
  {
    if files != [] {
      var n := |files| - 1;
      var front := files[..n];
      if b <= n {
        FilterOfRun(front, lo, hi, a, b);
        assert front[a..b] == files[a..b];
      } else if a <= n {
        FilterOfRun(front, lo, hi, a, n);
        assert files[a..b] == front[a..n] + [files[n]];
      } else {
        FilterOfRun(front, lo, hi, n, n);
        assert files[a..b] == front[n..n];
      }
    }
  }

  lemma BetweenOverlaps(files: seq<File>, i: nat, j: nat, k: nat, lo: Bound, hi: Bound)
    requires SortedDisjoint(files) && i < j < k < |files|
    requires Overlaps(files[i], lo, hi) && Overlaps(files[k], lo, hi)
    ensures Overlaps(files[j], lo, hi)
  {
  }

  /** In a sorted level the files that meet a range are neighbours. */
  lemma OverlapIsSlice(files: seq<File>, lo: Bound, hi: Bound) returns (a: nat)
    requires SortedDisjoint(files)
    ensures IsSlice(files, a, OverlappingFiles(files, lo, hi))
  {
    a := 0;
    while a < |files| && !Overlaps(files[a], lo, hi)
      invariant a <= |files| && forall i :: 0 <= i < a ==> !Overlaps(files[i], lo, hi)
    {
      a := a + 1;
    }
    var b := a;
    while b < |files| && Overlaps(files[b], lo, hi)
      invariant a <= b <= |files| && forall i :: a <= i < b ==> Overlaps(files[i], lo, hi)
    {
      b := b + 1;
    }
    forall i | b < i < |files| ensures !Overlaps(files[i], lo, hi) {
      if Overlaps(files[i], lo, hi) {
        BetweenOverlaps(files, a, b, i, lo, hi);
      }
    }
    FilterOfRun(files, lo, hi, a, b);
  }

  lemma SliceMembers(files: seq<File>, a: nat, r: seq<File>, j: nat)
    requires IsSlice(files, a, r) && j < |files|
    ensures j < a || a + |r| <= j || files[j] in r
  {
    if a <= j < a + |r| {
      assert r[j - a] == files[j];
    }
  }

  lemma RunStaysClear(files: seq<File>, level: nat, a: nat, inputs: seq<File>, k: InternalKey, j: nat, i: nat)
    requires level > 0 && SortedDisjoint(files) && IsSlice(files, a, inputs)
    requires j < |files| && (j < a || a + |inputs| <= j) && i < |inputs|
    requires k == files[a + |inputs| - 1].largest && !IsBoundary(files[j], k)
    ensures StaysClear(level, files[j], inputs[i])
  {
    if j >= a {
      assert Before(k, files[j].smallest);
      assert i < |inputs| - 1 ==> Before(inputs[i].largest, files[a + |inputs| - 1].smallest);
    }
  }

  lemma SeedStaysClear(files: seq<File>, level: nat, inputs: seq<File>, k: InternalKey)
    requires level > 0 ==> SortedDisjoint(files)
    requires Seed(files, level, inputs) && IsLargestKey(inputs, k)
    requires level > 0 ==> forall f :: f in files ==> !IsBoundary(f, k)
    ensures forall f, g :: f in files && f !in inputs && g in inputs ==> StaysClear(level, f, g)
  {
    if level == 0 {
      var lo, hi :| Closed(files, lo, hi) && inputs == OverlappingFiles(files, lo, hi);
      OverlapMembers(files, lo, hi);
    } else {
      var a: nat :| IsSlice(files, a, inputs);
      SliceLargest(files, a, inputs, k);
      forall f, g | f in files && f !in inputs && g in inputs ensures StaysClear(level, f, g) {
        var j :| 0 <= j < |files| && files[j] == f;
        var i :| 0 <= i < |inputs| && inputs[i] == g;
        SliceMembers(files, a, inputs, j);
        RunStaysClear(files, level, a, inputs, k, j, i);
      }
    }
  }

  /** A level-0 set closed under overlap has no boundary file. */
  lemma ClosedHasNoBoundary(files: seq<File>, inputs: seq<File>)
    requires Seed(files, 0, inputs)
    ensures !HasBoundary(files, inputs)
  {
    var lo, hi :| Closed(files, lo, hi) && inputs == OverlappingFiles(files, lo, hi);
    OverlapMembers(files, lo, hi);
    forall k, f | IsLargestKey(inputs, k) && f in files ensures !IsBoundary(f, k) {
      var g :| g in inputs && g.largest == k;
      if f.smallest.user == k.user {
        assert Overlaps(f, lo, hi);
      }
    }
  }

  // ---- Which files are chosen ----

  /** `r` is `seed` with all boundary files that follow it. */
  ghost predicate Completed(files: seq<File>, seed: seq<File>, r: seq<File>) {
    && seed <= r && Chained(files, r, |seed|) && !HasBoundary(files, r)
    && (!HasBoundary(files, seed) ==> r == seed) && (SortedDisjoint(files) ==> KeepsSlices(files, seed, r))
  }

  /** The files that meet [lo, hi]; in level 0, those of the least closed range around it. */
  ghost predicate Around(files: seq<File>, level: nat, lo: Bound, hi: Bound, r: seq<File>) {
    if level == 0 then exists a, b :: LeastClosed(files, lo, hi, a, b) && r == OverlappingFiles(files, a, b)
    else r == OverlappingFiles(files, lo, hi)
  }

  /** `r` is every file that meets the hull of `all`, completed. */
  ghost predicate Regrown(files: seq<File>, level: nat, all: seq<File>, r: seq<File>) {
    exists start, limit, seed ::
      IsHull(all, start, limit) && Around(files, level, Some(start.user), Some(limit.user), seed)
        && Completed(files, seed, r)
  }

  /** More files of `level` are taken if there are more, they are not too large and they add no file of the next
      level. */
  predicate WorthExpanding(in0: seq<File>, in1: seq<File>, e0: seq<File>, e1: seq<File>, expandedLimit: nat) {
    |e0| > |in0| && TotalFileSize(in1) + TotalFileSize(e0) < expandedLimit && |e1| == |in1|
  }

  ghost predicate Expanded(v: Version, level: nat, in0: seq<File>, in1: seq<File>, e0: seq<File>, e1: seq<File>) {
    PickedInputs(v, level, e0, e1) && Regrown(v[level], level, in0 + in1, e0)
  }

  /** What the first attempt (c0, c1) becomes. */
  ghost predicate Settled(
    v: Version, level: nat, c0: seq<File>, c1: seq<File>, expandedLimit: nat, in0: seq<File>, in1: seq<File>)
  {
    if c1 == [] then (in0, in1) == (c0, c1)
    else
      exists e0, e1 ::
        && Expanded(v, level, c0, c1, e0, e1)
        && (in0, in1) == if WorthExpanding(c0, c1, e0, e1, expandedLimit) then (e0, e1) else (c0, c1)
  }

  /** The inputs that the rules select from a seed. */
  ghost predicate Selected(
    v: Version, level: nat, seed: seq<File>, expandedLimit: nat, in0: seq<File>, in1: seq<File>) {
    exists c0, c1 :: FirstAttempt(v, level, seed, c0, c1) && Settled(v, level, c0, c1, expandedLimit, in0, in1)
  }

  ghost predicate FirstAttempt(v: Version, level: nat, seed: seq<File>, c0: seq<File>, c1: seq<File>) {
    PickedInputs(v, level, c0, c1) && Completed(v[level], seed, c0)
  }

  /** Grows the inputs of `level`, picks every overlapping file of the next level, and
      grows `level` again if that adds no file of the next level. */
  method SetupOtherInputs(v: Version, level: nat, seed: seq<File>, expandedLimit: nat)
    returns (in0: seq<File>, in1: seq<File>)
    requires level + 1 < NUM_LEVELS && (level > 0 ==> SortedDisjoint(v[level]))
    requires Seed(v[level], level, seed)
    ensures Selected(v, level, seed, expandedLimit, in0, in1)
    ensures PickedInputs(v, level, in0, in1)
    ensures forall f :: f in seed ==> f in in0
    ensures Connected(seed, []) ==> Gapless(in0, in1)
  {
    in0, in1 := ChooseFirst(v, level, seed);
    ghost var c0, c1 := in0, in1;
    if in1 != [] {
      in0, in1 := TryExpanding(v, level, in0, in1, expandedLimit);
    }
    SettledIsSelected(v, level, seed, c0, c1, expandedLimit, in0, in1);
  }

  /** The inputs before any expansion. */
  method ChooseFirst(v: Version, level: nat, seed: seq<File>) returns (in0: seq<File>, in1: seq<File>)
    requires level + 1 < NUM_LEVELS && (level > 0 ==> SortedDisjoint(v[level]))
    requires Seed(v[level], level, seed)
    ensures FirstAttempt(v, level, seed, in0, in1) && forall f :: f in seed ==> f in in0
    ensures Connected(seed, []) ==> Connected(in0, in1) && Gapless(in0, in1)
  {
    in0 := CloseInputs(v[level], level, seed);
    var smallest, largest := GetRange(in0);
    in1 := NextLevelInputs(v, level, in0, smallest, largest);
    ConnectedIsGapless(in0, in1);
  }

  lemma SettledIsSelected(
    v: Version, level: nat, seed: seq<File>, c0: seq<File>, c1: seq<File>, expandedLimit: nat, in0: seq<File>,
    in1: seq<File>)
    requires FirstAttempt(v, level, seed, c0, c1)
    requires Settled(v, level, c0, c1, expandedLimit, in0, in1) || (c1 == [] && in0 == c0 && in1 == c1)
    ensures Selected(v, level, seed, expandedLimit, in0, in1)
  {
  }

  /** More files of `level`, if they are not too large and add no file of the next level. */
  method TryExpanding(v: Version, level: nat, in0: seq<File>, in1: seq<File>, expandedLimit: nat)
    returns (r0: seq<File>, r1: seq<File>)
    requires PickedInputs(v, level, in0, in1) && (level > 0 ==> SortedDisjoint(v[level])) && in1 != []
    ensures Settled(v, level, in0, in1, expandedLimit, r0, r1)
    ensures PickedInputs(v, level, r0, r1)
    ensures forall f :: f in in0 ==> f in r0
    ensures Connected(in0, in1) ==> Gapless(r0, r1)
  {
    var expanded0, expanded1 := ExpandBoth(v, level, in0, in1);
    if |expanded0| > |in0| && TotalFileSize(in1) + TotalFileSize(expanded0) < expandedLimit
      && |expanded1| == |in1| {
      assert WorthExpanding(in0, in1, expanded0, expanded1, expandedLimit);
      return expanded0, expanded1;
    }
    assert !WorthExpanding(in0, in1, expanded0, expanded1, expandedLimit);
    ConnectedIsGapless(in0, in1);
    return in0, in1;
  }

  method ExpandBoth(v: Version, level: nat, in0: seq<File>, in1: seq<File>)
    returns (r0: seq<File>, r1: seq<File>)
    requires PickedInputs(v, level, in0, in1) && (level > 0 ==> SortedDisjoint(v[level]))
    ensures Expanded(v, level, in0, in1, r0, r1)
    ensures PickedInputs(v, level, r0, r1)
    ensures forall f :: f in in0 ==> f in r0
    ensures Connected(in0, in1) ==> Gapless(r0, r1)
  {
    var allStart, allLimit := GetRange(in0 + in1);
    r0 := ExpandInputs(v[level], level, in0, in1, allStart, allLimit);
    var newStart, newLimit := GetRange(r0);
    r1 := NextLevelInputs(v, level, r0, newStart, newLimit);
    ExpandedIsGapless(v, level, in0, in1, r0, r1);
  }

  lemma ConnectedIsGapless(in0: seq<File>, in1: seq<File>)
    ensures Connected(in0, []) ==> Gapless(in0, in1)
    ensures Connected(in0, in1) ==> Gapless(in0, in1)
  {
    if Connected(in0, []) {
      forall f, g, u | f in in0 && g in in0 && Between(f, g, u) ensures InSomeRange(in0, u) {
        assert f in in0 + [] && g in in0 + [];
      }
    }
  }

  lemma PickedConnects(v: Version, level: nat, in0: seq<File>, in1: seq<File>)
    requires PickedInputs(v, level, in0, in1) && Connected(in0, [])
    ensures Connected(in0, in1)
  {
    PickedIsGood(v, level, in0, in1);
    assert in0 + [] == in0;
    forall f | f in in1 ensures Touches(f, in0) {
      assert !Beyond(f, in0);
    }
    TouchingConnects(in0, [], in0, in1);
  }

  lemma ExpandedIsGapless(
    v: Version, level: nat, in0: seq<File>, in1: seq<File>, expanded0: seq<File>, expanded1: seq<File>)
    requires PickedInputs(v, level, in0, in1) && PickedInputs(v, level, expanded0, expanded1)
    requires forall f :: f in in0 ==> f in expanded0
    ensures Connected(expanded0, in1) ==> Gapless(expanded0, expanded1)
  {
    PickedIsGood(v, level, in0, in1);
    PickedIsGood(v, level, expanded0, expanded1);
    forall f | f in in1 ensures f in expanded1 {
      assert !Beyond(f, in0) && (f in expanded1 || Beyond(f, expanded0));
    }
    if Connected(expanded0, in1) {
      forall f, g, u | f in expanded0 && g in expanded0 && Between(f, g, u)
        ensures InSomeRange(expanded0, u) || InSomeRange(expanded1, u)
      {
        assert f in expanded0 + in1 && g in expanded0 + in1;
        if InSomeRange(in1, u) {
          InMoreRanges(in1, expanded1, u);
        }
      }
    }
  }

  method NextLevelInputs(v: Version, level: nat, in0: seq<File>, smallest: InternalKey, largest: InternalKey)
    returns (in1: seq<File>)
    requires level + 1 < NUM_LEVELS && ClosedInputs(v[level], level, in0) && IsHull(in0, smallest, largest)
    requires Seed(v[level], level, in0)
    ensures PickedInputs(v, level, in0, in1)
    ensures Connected(in0, []) ==> Connected(in0, in1)
  {
    ghost var lo, hi;
    in1, lo, hi := GetOverlappingInputs(false, v[level + 1], Some(smallest.user), Some(largest.user));
    if Connected(in0, []) {
      PickedConnects(v, level, in0, in1);
    }
  }

  /** The files of `level` that meet the hull of all inputs, closed again. */
  method ExpandInputs(
    files: seq<File>, level: nat, in0: seq<File>, in1: seq<File>, start: InternalKey, limit: InternalKey)
    returns (r: seq<File>)
    requires level > 0 ==> SortedDisjoint(files)
    requires ClosedInputs(files, level, in0) && IsHull(in0 + in1, start, limit)
    ensures ClosedInputs(files, level, r) && Seed(files, level, r) && Regrown(files, level, in0 + in1, r)
    ensures forall f :: f in in0 ==> f in r
    ensures Connected(in0, in1) ==> Connected(r, in1)
  {
    ghost var lo, hi;
    r, lo, hi := GetOverlappingInputs(level == 0, files, Some(start.user), Some(limit.user));
    OverlapMembers(files, lo, hi);
    forall f | f in in0 ensures f in r {
      assert f in in0 + in1;
      assert Overlaps(f, Some(start.user), Some(limit.user));
    }
    assert in0[0] in r;
    if Connected(in0, in1) {
      ExpansionConnects(files, level, in0, in1, start, limit, lo, hi);
    }
    if level > 0 {
      var a := OverlapIsSlice(files, lo, hi);
    }
    ghost var seed := r;
    assert Around(files, level, Some(start.user), Some(limit.user), seed);
    r := CloseInputs(files, level, r);
    assert Completed(files, seed, r);
  }

  lemma ExpansionConnects(
    files: seq<File>, level: nat, in0: seq<File>, in1: seq<File>, start: InternalKey, limit: InternalKey, lo: Bound,
    hi: Bound)
    requires Connected(in0, in1) && IsHull(in0 + in1, start, limit) && forall f :: f in in0 ==> f in files
    requires forall f :: f in in0 ==> f in OverlappingFiles(files, lo, hi)
    requires if level == 0 then LeastClosed(files, Some(start.user), Some(limit.user), lo, hi) && lo.Some? && hi.Some?
             else lo == Some(start.user) && hi == Some(limit.user)
    ensures Connected(OverlappingFiles(files, lo, hi), in1)
  {
    if level == 0 {
      GrownConnects(files, in0, in1, start.user, limit.user, lo, hi);
    } else {
      OverlapMembers(files, lo, hi);
      forall f | f in OverlappingFiles(files, lo, hi) ensures Touches(f, in0 + in1) {
        OverlapTouches(f, in0 + in1, start, limit);
      }
      TouchingConnects(in0, in1, OverlappingFiles(files, lo, hi), in1);
    }
  }

  method CloseInputs(files: seq<File>, level: nat, seed: seq<File>) returns (r: seq<File>)
    requires level > 0 ==> SortedDisjoint(files)
    requires Seed(files, level, seed)
    ensures ClosedInputs(files, level, r) && Seed(files, level, r) && Completed(files, seed, r)
    ensures forall f :: f in seed ==> f in r
    ensures forall others :: Connected(seed, others) ==> Connected(r, others)
  {
    r := AddBoundaryInputs(files, seed);
    if level == 0 {
      ClosedHasNoBoundary(files, seed);
    }
    SeedIsKept(files, level, seed, r);
    ChainConnectsAll(files, seed, r);
    var k := FindLargestKey(r);
    SeedIsClosed(files, level, r, k);
  }

  lemma SeedIsKept(files: seq<File>, level: nat, seed: seq<File>, r: seq<File>)
    requires Seed(files, level, seed) && r != [] && (r == seed || (level > 0 && KeepsSlices(files, seed, r)))
    ensures Seed(files, level, r)
  {
    if level > 0 {
      var a: nat :| IsSlice(files, a, seed);
      assert IsSlice(files, a, r);
    }
  }

  lemma ChainConnectsAll(files: seq<File>, seed: seq<File>, r: seq<File>)
    requires seed <= r && Chained(files, r, |seed|)
    ensures forall others :: Connected(seed, others) ==> Connected(r, others)
  {
    assert r[..|seed|] == seed;
    forall others | Connected(seed, others) ensures Connected(r, others) {
      ChainConnects(files, r, |seed|, others);
    }
  }

  lemma SeedIsClosed(files: seq<File>, level: nat, r: seq<File>, k: InternalKey)
    requires level > 0 ==> SortedDisjoint(files)
    requires Seed(files, level, r) && IsLargestKey(r, k) && !HasBoundary(files, r)
    ensures ClosedInputs(files, level, r)
  {
    SeedMembers(files, level, r);
    SeedStaysClear(files, level, r, k);
  }

  lemma SeedMembers(files: seq<File>, level: nat, seed: seq<File>)
    requires Seed(files, level, seed)
    ensures forall f :: f in seed ==> f in files
  {
    if level == 0 {
      var lo, hi :| Closed(files, lo, hi) && seed == OverlappingFiles(files, lo, hi);
      OverlapMembers(files, lo, hi);
    }
  }
}
