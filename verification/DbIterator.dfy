/** The user-level iterator: it folds the versions of each user key into one visible entry. */
module DbIterator {
  import opened Coding
  import opened InternalKeys
  import opened FlatStore
  import opened Wrappers
  import opened Cursors

  datatype Direction = Forward | Reverse

  /** Where a cursor on the visible map stands: on a key with its value, or nowhere. */
  datatype Position = Off | At(key: UserKey, value: Bytes)

  /** `p` is the first key from `lo` on that a reader at snapshot `s` finds. */
  ghost predicate IsFirstFrom(store: set<Entry>, s: SequenceNumber, lo: UserKey, p: Position) {
    if p.At? then
      && lo <= p.key && Read(store, p.key, s) == Some(p.value)
      && forall u :: lo <= u < p.key ==> Read(store, u, s) == None
    else
      forall u :: lo <= u ==> Read(store, u, s) == None
  }

  /** `p` is the last key up to `hi`, exclusive, that a reader at snapshot `s` finds. */
  ghost predicate IsLastBefore(store: set<Entry>, s: SequenceNumber, hi: UserKey, p: Position) {
    if p.At? then
      && p.key < hi && Read(store, p.key, s) == Some(p.value)
      && forall u :: p.key < u < hi ==> Read(store, u, s) == None
    else
      forall u :: u < hi ==> Read(store, u, s) == None
  }

  ghost predicate IsFirst(store: set<Entry>, s: SequenceNumber, p: Position) {
    forall lo :: (p.At? ==> lo <= p.key) ==> IsFirstFrom(store, s, lo, p)
  }

  ghost predicate IsLast(store: set<Entry>, s: SequenceNumber, p: Position) {
    forall hi :: (p.At? ==> p.key < hi) ==> IsLastBefore(store, s, hi, p)
  }

  /** The position is a function of the map. */
  lemma PositionsAreUnique(store: set<Entry>, s: SequenceNumber, b: UserKey, p: Position, q: Position)
    ensures IsFirstFrom(store, s, b, p) && IsFirstFrom(store, s, b, q) ==> p == q
    ensures IsLastBefore(store, s, b, p) && IsLastBefore(store, s, b, q) ==> p == q
  {
    if p.At? && q.At? {
      assert p.key < q.key || q.key < p.key || p.key == q.key;
    }
  }

  /** Prev undoes Next. */
  lemma PrevUndoesNext(store: set<Entry>, s: SequenceNumber, here: Position, next: Position, back: Position)
    requires here.At? && Read(store, here.key, s) == Some(here.value)
    requires IsFirstFrom(store, s, here.key + 1, next) && next.At?
    requires IsLastBefore(store, s, next.key, back)
    ensures back == here
  {
    assert IsLastBefore(store, s, next.key, here);
    PositionsAreUnique(store, s, next.key, back, here);
  }

  // ---- Which entries the iterator yields ----

  ghost predicate Seen(run: seq<Entry>, s: SequenceNumber, i: int) {
    0 <= i < |run| && run[i].key.seqno <= s
  }

  /** Entry `i` is the newest visible one of its user key, and a value. */
  ghost predicate Yields(run: seq<Entry>, s: SequenceNumber, i: int) {
    && Seen(run, s, i) && run[i].key.kind.Value?
    && forall j :: Seen(run, s, j) && j < i ==> run[j].key.user < run[i].key.user
  }

  ghost predicate Iterable(run: seq<Entry>) {
    Sorted(run) && Distinct(Contents(run))
  }

  lemma UsersIncrease(run: seq<Entry>, i: int, j: int)
    requires Sorted(run) && 0 <= i <= j < |run|
    ensures run[i].key.user <= run[j].key.user
  {
    assert i == j || Before(run[i].key, run[j].key);
  }

  lemma YieldIsRead(run: seq<Entry>, s: SequenceNumber, i: int)
    requires Iterable(run) && Yields(run, s, i)
    ensures Read(Contents(run), run[i].key.user, s) == Some(run[i].value)
  {
    var store, user := Contents(run), run[i].key.user;
    forall f | Visible(store, user, s, f) ensures f.key.seqno <= run[i].key.seqno {
      var j :| 0 <= j < |run| && run[j] == f;
      assert Seen(run, s, j) && (i == j || Before(run[i].key, run[j].key));
    }
    assert Newest(store, user, s, run[i]);
    ReadNewest(store, user, s, run[i]);
  }

  lemma ReadIsYielded(run: seq<Entry>, s: SequenceNumber, user: UserKey) returns (i: int)
    requires Iterable(run) && Read(Contents(run), user, s).Some?
    ensures Yields(run, s, i) && run[i].key.user == user
  {
    var store := Contents(run);
    var e := TheNewest(store, user, s);
    i :| 0 <= i < |run| && run[i] == e;
    forall j | Seen(run, s, j) && j < i ensures run[j].key.user < user {
      UsersIncrease(run, j, i);
      assert Before(run[j].key, run[i].key) && run[j] in store;
      assert run[j].key.user == user ==> Visible(store, user, s, run[j]);
    }
  }

  ghost function PositionOf(run: seq<Entry>, i: int): (r: Position)
    requires 0 <= i < |run|
  {
    At(run[i].key.user, run[i].value)
  }

  ghost predicate YieldsFirst(run: seq<Entry>, s: SequenceNumber, lo: UserKey, i: int) {
    && Yields(run, s, i) && lo <= run[i].key.user
    && forall j :: Yields(run, s, j) && lo <= run[j].key.user ==> i <= j
  }

  ghost predicate YieldsNoneFrom(run: seq<Entry>, s: SequenceNumber, lo: UserKey) {
    forall j :: Yields(run, s, j) ==> run[j].key.user < lo
  }

  ghost predicate YieldsLast(run: seq<Entry>, s: SequenceNumber, hi: UserKey, i: int) {
    && Yields(run, s, i) && run[i].key.user < hi
    && forall j :: Yields(run, s, j) && run[j].key.user < hi ==> run[j].key.user <= run[i].key.user
  }

  ghost predicate YieldsNoneBefore(run: seq<Entry>, s: SequenceNumber, hi: UserKey) {
    forall j :: Yields(run, s, j) ==> hi <= run[j].key.user
  }

  /** The first yielding index with a key from `lo` on is the first position from `lo` on. */
  lemma FirstYield(run: seq<Entry>, s: SequenceNumber, lo: UserKey, i: int)
    requires Iterable(run) && YieldsFirst(run, s, lo, i)
    ensures IsFirstFrom(Contents(run), s, lo, PositionOf(run, i))
  {
    YieldIsRead(run, s, i);
    forall u | lo <= u < run[i].key.user ensures Read(Contents(run), u, s) == None {
      if Read(Contents(run), u, s).Some? {
        var j := ReadIsYielded(run, s, u);
        UsersIncrease(run, i, j);
      }
    }
  }

  lemma LastYield(run: seq<Entry>, s: SequenceNumber, hi: UserKey, i: int)
    requires Iterable(run) && YieldsLast(run, s, hi, i)
    ensures IsLastBefore(Contents(run), s, hi, PositionOf(run, i))
  {
    YieldIsRead(run, s, i);
    forall u | run[i].key.user < u < hi ensures Read(Contents(run), u, s) == None {
      if Read(Contents(run), u, s).Some? {
        var j := ReadIsYielded(run, s, u);
      }
    }
  }

  lemma NoYield(run: seq<Entry>, s: SequenceNumber, u: UserKey)
    requires Iterable(run)
    requires forall j :: Yields(run, s, j) ==> run[j].key.user != u
    ensures Read(Contents(run), u, s) == None
  {
    if Read(Contents(run), u, s).Some? {
      var j := ReadIsYielded(run, s, u);
    }
  }

  /** A forward scan at `at`: the entries to its left are done with, keys below `next` are
      settled, and whatever is still to be yielded from `lo` on lies ahead. */
  ghost predicate Scanning(run: seq<Entry>, s: SequenceNumber, at: int, lo: UserKey, next: UserKey, skipping: bool) {
    && lo <= next
    && (forall j :: Seen(run, s, j) && j < at ==> run[j].key.user < next)
    && (forall j :: Seen(run, s, j) && j >= at ==> run[j].key.user >= if skipping then next - 1 else next)
    && (forall j :: Yields(run, s, j) && lo <= run[j].key.user ==> next <= run[j].key.user && at <= j)
  }

  lemma SkipDeletion(run: seq<Entry>, s: SequenceNumber, at: int, lo: UserKey, next: UserKey, skipping: bool)
    requires Sorted(run) && Scanning(run, s, at, lo, next, skipping) && Seen(run, s, at) && run[at].key.kind.Deletion?
    ensures Scanning(run, s, at + 1, lo, run[at].key.user + 1, true)
  {
    forall j | Seen(run, s, j) && at <= j ensures run[at].key.user <= run[j].key.user {
      UsersIncrease(run, at, j);
    }
    forall j | Seen(run, s, j) && j <= at ensures run[j].key.user <= run[at].key.user {
      UsersIncrease(run, j, at);
    }
  }

  lemma SkipHidden(run: seq<Entry>, s: SequenceNumber, at: int, lo: UserKey, next: UserKey, skipping: bool)
    requires Scanning(run, s, at, lo, next, skipping)
    requires Seen(run, s, at) ==> run[at].key.user < next
    ensures Scanning(run, s, at + 1, lo, next, skipping)
  {
  }

  lemma StopAtValue(run: seq<Entry>, s: SequenceNumber, at: int, lo: UserKey, next: UserKey, skipping: bool)
    requires Scanning(run, s, at, lo, next, skipping) && Seen(run, s, at)
    requires run[at].key.kind.Value? && (skipping ==> next <= run[at].key.user)
    ensures YieldsFirst(run, s, lo, at)
  {
  }

  /** The visible entries of keys below `hi` are those up to `at`. */
  ghost predicate SplitsAt(run: seq<Entry>, s: SequenceNumber, at: int, hi: UserKey) {
    && -1 <= at < |run|
    && forall j :: Seen(run, s, j) ==> (j <= at <==> run[j].key.user < hi)
  }

  /** A backward scan that has read the visible entries right of `at` up to `start`; `q` is the
      last one it read, `kind` its kind, and a value is saved. */
  ghost predicate Backing(
    run: seq<Entry>, s: SequenceNumber, at: int, start: int, kind: Kind, key: Option<UserKey>, value: Bytes,
    q: int) {
    && at < q <= start + 1
    && (forall j :: Seen(run, s, j) && at < j <= start ==> q <= j)
    && match kind
       case Deletion => forall j :: Yields(run, s, j) && at < j <= start ==> false
       case Value =>
         && Seen(run, s, q) && q <= start && run[q].key.kind.Value? && key == Some(run[q].key.user)
           && value == run[q].value
         && forall j :: Yields(run, s, j) && at < j <= start ==> run[j].key.user == run[q].key.user
  }

  /** Reading the visible entry at `at`, of the key being collected or after a deletion. */
  lemma BackOne(
    run: seq<Entry>, s: SequenceNumber, at: int, start: int, kind: Kind, key: Option<UserKey>, value: Bytes, q: int)
    requires Sorted(run) && Backing(run, s, at, start, kind, key, value, q) && Seen(run, s, at) && at <= start
    requires kind.Value? ==> run[at].key.user >= run[q].key.user
    ensures Backing(run, s, at - 1, start, run[at].key.kind, Some(run[at].key.user), run[at].value, at)
  {
    if kind.Value? {
      UsersIncrease(run, at, q);
    }
  }

  lemma BackedUp(
    run: seq<Entry>, s: SequenceNumber, at: int, start: int, hi: UserKey, kind: Kind, key: Option<UserKey>,
    value: Bytes, q: int)
    requires Sorted(run) && SplitsAt(run, s, start, hi) && Backing(run, s, at, start, kind, key, value, q)
    requires at == -1 || (kind.Value? && Seen(run, s, at) && run[at].key.user < run[q].key.user)
    ensures kind.Deletion? ==> YieldsNoneBefore(run, s, hi)
    ensures kind.Value? ==> YieldsLast(run, s, hi, q) && SplitsAt(run, s, at, run[q].key.user)
  {
    if kind.Value? {
      forall j | Seen(run, s, j)
        ensures j <= at ==> run[j].key.user < run[q].key.user
        ensures j > at ==> run[q].key.user <= run[j].key.user
      {
        if j <= at {
          UsersIncrease(run, j, at);
        } else if j <= start {
          UsersIncrease(run, q, j);
        }
      }
    }
  }

  /** Seeking (target, s) leaves no visible entry of the target or later keys behind. */
  lemma SeekScans(run: seq<Entry>, s: SequenceNumber, target: UserKey)
    requires Sorted(run)
    ensures Scanning(run, s, SeekIndex(run, LookupKey(target, s)), target, target, false)
  {
    SeekSplits(run, LookupKey(target, s));
  }

  lemma FirstScans(run: seq<Entry>, s: SequenceNumber, lo: UserKey)
    requires Sorted(run) && (run != [] ==> lo == run[0].key.user)
    ensures Scanning(run, s, 0, lo, lo, false)
  {
    forall j | Seen(run, s, j) ensures lo <= run[j].key.user {
      UsersIncrease(run, 0, j);
    }
  }

  lemma NextScans(run: seq<Entry>, s: SequenceNumber, at: int)
    requires Sorted(run) && Yields(run, s, at)
    ensures Scanning(run, s, at + 1, run[at].key.user + 1, run[at].key.user + 1, true)
  {
    forall j | Seen(run, s, j) && at <= j ensures run[at].key.user <= run[j].key.user {
      UsersIncrease(run, at, j);
    }
  }

  lemma ForwardFromReverse(run: seq<Entry>, s: SequenceNumber, at: int, key: UserKey)
    requires Sorted(run) && SplitsAt(run, s, at, key)
    ensures Scanning(run, s, at + 1, key + 1, key + 1, true)
  {
  }

  lemma LastSplits(run: seq<Entry>, s: SequenceNumber, hi: UserKey)
    requires Sorted(run) && (run != [] ==> hi == run[|run| - 1].key.user + 1)
    ensures SplitsAt(run, s, |run| - 1, hi)
  {
    forall j | Seen(run, s, j) ensures run[j].key.user < hi {
      UsersIncrease(run, j, |run| - 1);
    }
  }

  ghost predicate NotBelow(run: seq<Entry>, at: int, key: UserKey) {
    forall j :: 0 <= j < |run| && at <= j ==> key <= run[j].key.user
  }

  lemma YieldNotBelow(run: seq<Entry>, s: SequenceNumber, at: int)
    requires Sorted(run) && Yields(run, s, at)
    ensures NotBelow(run, at, run[at].key.user)
  {
    forall j | at <= j < |run| ensures run[at].key.user <= run[j].key.user {
      UsersIncrease(run, at, j);
    }
  }

  lemma BelowKey(run: seq<Entry>, s: SequenceNumber, at: int, key: UserKey)
    requires Sorted(run) && -1 <= at < |run| && NotBelow(run, at + 1, key)
    requires at >= 0 ==> run[at].key.user < key
    ensures SplitsAt(run, s, at, key)
  {
    forall j | 0 <= j <= at ensures run[j].key.user < key {
      UsersIncrease(run, j, at);
    }
  }

  lemma Forwards(run: seq<Entry>, s: SequenceNumber, lo: UserKey, found: bool, at: int)
    requires Iterable(run)
    requires if found then YieldsFirst(run, s, lo, at) else YieldsNoneFrom(run, s, lo)
    ensures IsFirstFrom(Contents(run), s, lo, if found then PositionOf(run, at) else Off)
  {
    if found {
      FirstYield(run, s, lo, at);
    } else {
      forall u | lo <= u ensures Read(Contents(run), u, s) == None {
        NoYield(run, s, u);
      }
    }
  }

  lemma Backwards(run: seq<Entry>, s: SequenceNumber, hi: UserKey, found: bool, q: int)
    requires Iterable(run)
    requires if found then YieldsLast(run, s, hi, q) else YieldsNoneBefore(run, s, hi)
    ensures IsLastBefore(Contents(run), s, hi, if found then PositionOf(run, q) else Off)
  {
    if found {
      LastYield(run, s, hi, q);
    } else {
      forall u | u < hi ensures Read(Contents(run), u, s) == None {
        NoYield(run, s, u);
      }
    }
  }

  lemma FirstOfAll(run: seq<Entry>, s: SequenceNumber, lo: UserKey, p: Position)
    requires Iterable(run) && (run != [] ==> lo == run[0].key.user) && IsFirstFrom(Contents(run), s, lo, p)
    ensures IsFirst(Contents(run), s, p)
  {
    forall u | u < lo ensures Read(Contents(run), u, s) == None {
      forall j | Yields(run, s, j) ensures run[j].key.user != u {
        UsersIncrease(run, 0, j);
      }
      NoYield(run, s, u);
    }
    if run == [] {
      forall u ensures Read(Contents(run), u, s) == None {
        NoYield(run, s, u);
      }
    }
  }

  lemma LastOfAll(run: seq<Entry>, s: SequenceNumber, hi: UserKey, p: Position)
    requires Iterable(run) && (run != [] ==> hi == run[|run| - 1].key.user + 1) && IsLastBefore(Contents(run), s, hi, p)
    ensures IsLast(Contents(run), s, p)
  {
    forall u | hi <= u ensures Read(Contents(run), u, s) == None {
      forall j | Yields(run, s, j) ensures run[j].key.user != u {
        UsersIncrease(run, j, |run| - 1);
      }
      NoYield(run, s, u);
    }
    if run == [] {
      forall u ensures Read(Contents(run), u, s) == None {
        NoYield(run, s, u);
      }
    }
  }

  // ---- The iterator ----

  class DBIter {
    var iter: Cursor
    const sequence: SequenceNumber
    var savedKey: Option<UserKey>
    var savedValue: Bytes
    var direction: Direction
    var valid: bool

    constructor (iter: Cursor, sequence: SequenceNumber)
      requires Iterable(iter.run)
      ensures this.iter == iter && this.sequence == sequence && !valid && Consistent()
    {
      this.iter, this.sequence := iter, sequence;
      savedKey, savedValue, direction, valid := None, [], Forward, false;
    }

    ghost function Store(): (r: set<Entry>)
      reads this
    {
      Contents(iter.run)
    }

    /** Moving forward, the inner iterator is on the entry that is yielded.  Moving backward, the
        yielded entry is saved and the inner iterator is left of every visible entry of its key. */
    ghost predicate Consistent()
      reads this
    {
      && Iterable(iter.run)
      && (valid && direction.Forward? ==> Yields(iter.run, sequence, iter.at))
      && (valid && direction.Reverse? ==>
            && savedKey.Some? && SplitsAt(iter.run, sequence, iter.at, savedKey.value)
            && exists i :: Yields(iter.run, sequence, i) && PositionOf(iter.run, i) == At(savedKey.value, savedValue))
    }

    function Key(): (r: UserKey)
      requires valid && Consistent()
      reads this
    {
      if direction.Forward? then iter.Current().key.user else savedKey.value
    }

    function Value(): (r: Bytes)
      requires valid && Consistent()
      reads this
    {
      if direction.Forward? then iter.Current().value else savedValue
    }

    /** The position on the visible map. */
    ghost function Here(): (r: Position)
      requires Consistent()
      reads this
    {
      if valid then At(Key(), Value()) else Off
    }

    /** Yields the first acceptable entry from here whose key is at least `lo`. */
    method FindNextUserEntry(skip: bool, ghost lo: UserKey)
      requires Sorted(iter.run) && iter.Valid() && direction.Forward?
      requires skip ==> savedKey == Some(lo - 1)
      requires Scanning(iter.run, sequence, iter.at, lo, lo, skip)
      modifies this
      ensures iter.run == old(iter.run) && direction.Forward?
      ensures valid ==> YieldsFirst(iter.run, sequence, lo, iter.at)
      ensures !valid ==> YieldsNoneFrom(iter.run, sequence, lo)
    {
      ghost var run := iter.run;
      var skipping := skip;
      ghost var next := lo;
      while true
        invariant iter.run == run && iter.Valid() && direction.Forward?
        invariant skipping ==> savedKey == Some(next - 1)
        invariant Scanning(run, sequence, iter.at, lo, next, skipping)
        decreases |run| - iter.at
      {
        var ikey := iter.Current().key;
        if ikey.seqno <= sequence {
          match ikey.kind
          case Deletion =>
            // Its user key's remaining entries are hidden by this deletion.
            SkipDeletion(run, sequence, iter.at, lo, next, skipping);
            savedKey := Some(ikey.user);
            skipping := true;
            next := ikey.user + 1;
          case Value =>
            if skipping && ikey.user <= savedKey.value {
              SkipHidden(run, sequence, iter.at, lo, next, skipping);
            } else {
              StopAtValue(run, sequence, iter.at, lo, next, skipping);
              valid := true;
              savedKey := None;
              return;
            }
        } else {
          SkipHidden(run, sequence, iter.at, lo, next, skipping);
        }
        iter := iter.Next();
        if !iter.Valid() { break; }
      }
      savedKey := None;
      valid := false;
    }

    /** Yields the last acceptable entry whose key is below `hi`. */
    method FindPrevUserEntry(ghost hi: UserKey) returns (ghost q: int)
      requires Sorted(iter.run) && direction.Reverse? && SplitsAt(iter.run, sequence, iter.at, hi)
      modifies this
      ensures iter.run == old(iter.run)
      ensures valid ==>
        && direction.Reverse? && YieldsLast(iter.run, sequence, hi, q)
        && savedKey == Some(iter.run[q].key.user) && savedValue == iter.run[q].value
        && SplitsAt(iter.run, sequence, iter.at, iter.run[q].key.user)
      ensures !valid ==> YieldsNoneBefore(iter.run, sequence, hi)
    {
      ghost var run, start := iter.run, iter.at;
      var kind := Kind.Deletion;
      q := start + 1;
      while iter.Valid()
        invariant iter.run == run && -1 <= iter.at <= start && direction.Reverse?
        invariant kind.Value? ==> savedKey.Some?
        invariant Backing(run, sequence, iter.at, start, kind, savedKey, savedValue, q)
        decreases iter.at
      {
        var ikey := iter.Current().key;
        if ikey.seqno <= sequence {
          if kind.Value? && ikey.user < savedKey.value {
            break;
          }
          BackOne(run, sequence, iter.at, start, kind, savedKey, savedValue, q);
          kind, q := ikey.kind, iter.at;
          if kind.Deletion? {
            savedKey, savedValue := None, [];
          } else {
            savedKey, savedValue := Some(ikey.user), iter.Current().value;
          }
        }
        iter := iter.Prev();
      }
      BackedUp(run, sequence, iter.at, start, hi, kind, savedKey, savedValue, q);
      if kind.Deletion? {
        valid, savedKey, savedValue, direction := false, None, [], Forward;
      } else {
        valid := true;
      }
    }

    method Seek(target: UserKey)
      requires Consistent()
      modifies this
      ensures Consistent() && iter.run == old(iter.run)
      ensures IsFirstFrom(Store(), sequence, target, Here())
    {
      direction := Forward;
      savedKey, savedValue := None, [];
      iter := iter.Seek(LookupKey(target, sequence));
      ghost var run := iter.run;
      SeekScans(run, sequence, target);
      if iter.Valid() {
        FindNextUserEntry(false, target);
      } else {
        valid := false;
      }
      Forwards(run, sequence, target, valid, iter.at);
    }

    method SeekToFirst()
      requires Consistent()
      modifies this
      ensures Consistent() && iter.run == old(iter.run)
      ensures IsFirst(Store(), sequence, Here())
    {
      direction := Forward;
      savedValue := [];
      iter := iter.SeekToFirst();
      ghost var run := iter.run;
      ghost var lo := if run == [] then 0 else run[0].key.user;
      FirstScans(run, sequence, lo);
      if iter.Valid() {
        FindNextUserEntry(false, lo);
      } else {
        valid := false;
      }
      Forwards(run, sequence, lo, valid, iter.at);
      FirstOfAll(run, sequence, lo, Here());
    }

    method SeekToLast()
      requires Consistent()
      modifies this
      ensures Consistent() && iter.run == old(iter.run)
      ensures IsLast(Store(), sequence, Here())
    {
      direction := Reverse;
      savedValue := [];
      iter := iter.SeekToLast();
      ghost var run := iter.run;
      ghost var hi := if run == [] then 0 else run[|run| - 1].key.user + 1;
      LastSplits(run, sequence, hi);
      ghost var q := FindPrevUserEntry(hi);
      Backwards(run, sequence, hi, valid, q);
      LastOfAll(run, sequence, hi, Here());
    }

    method Next()
      requires Consistent() && valid
      modifies this
      ensures Consistent() && iter.run == old(iter.run)
      ensures IsFirstFrom(Store(), sequence, old(Key()) + 1, Here())
    {
      ghost var run, key := iter.run, Key();
      if direction.Reverse? {
        direction := Forward;
        // The inner iterator is before the entries of this key: step into them and skip them below.
        ForwardFromReverse(run, sequence, iter.at, key);
        if !iter.Valid() {
          iter := iter.SeekToFirst();
        } else {
          iter := iter.Next();
        }
        if !iter.Valid() {
          valid, savedKey := false, None;
        }
      } else {
        savedKey := Some(iter.Current().key.user);
        NextScans(run, sequence, iter.at);
        iter := iter.Next();
        if !iter.Valid() {
          valid, savedKey := false, None;
        }
      }
      if iter.Valid() {
        FindNextUserEntry(true, key + 1);
      }
      Forwards(run, sequence, key + 1, valid, iter.at);
    }

    /** The change of direction in Prev: scan back until the key changes. */
    method LeaveKey()
      requires Sorted(iter.run) && valid && direction.Forward? && Yields(iter.run, sequence, iter.at)
      modifies this
      ensures iter.run == old(iter.run)
      ensures valid ==> direction.Reverse? && SplitsAt(iter.run, sequence, iter.at, old(iter.Current().key.user))
      ensures !valid ==> direction.Forward? && YieldsNoneBefore(iter.run, sequence, old(iter.Current().key.user))
    {
      ghost var run, key := iter.run, iter.Current().key.user;
      savedKey := Some(iter.Current().key.user);
      YieldNotBelow(run, sequence, iter.at);
      while true
        invariant iter.run == run && 0 <= iter.at < |run| && savedKey == Some(key) && direction.Forward? && valid
        invariant NotBelow(run, iter.at, key)
        decreases iter.at
      {
        iter := iter.Prev();
        if !iter.Valid() {
          valid, savedKey, savedValue := false, None, [];
          return;
        }
        if iter.Current().key.user < savedKey.value { break; }
      }
      direction := Reverse;
      BelowKey(run, sequence, iter.at, key);
    }

    method Prev()
      requires Consistent() && valid
      modifies this
      ensures Consistent() && iter.run == old(iter.run)
      ensures IsLastBefore(Store(), sequence, old(Key()), Here())
    {
      ghost var run, key, q := iter.run, Key(), 0;
      if direction.Forward? {
        LeaveKey();
      }
      if valid {
        q := FindPrevUserEntry(key);
      }
      Backwards(run, sequence, key, valid, q);
    }
  }
}
