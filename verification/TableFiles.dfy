/** A table file as bytes, and the lookup that reads footer, index, filter and one block of it. */
module TableFiles {
  import opened Coding
  import opened Wrappers
  import opened Separators
  import opened Flattening
  import opened FilterLayout
  import opened FilterBlocks
  import opened Blocks
  import opened BlockBuilders
  import opened TableFormat
  import opened Tables
  import Iterators = BlockIterators

  // ---- Internal keys in bytes ----

  const TAG_SIZE: nat := 8

  /** The user key, then the tag. */
  function KeyBytes(k: Key): (s: Bytes)
    ensures |s| == |k.user| + TAG_SIZE
  {
    k.user + EncodeFixed64(k.tag)
  }

  function KeyOf(s: Bytes): (k: Key)
    requires |s| >= TAG_SIZE
  {
    Key(s[..|s| - TAG_SIZE], DecodeFixed64(s[|s| - TAG_SIZE..]))
  }

  lemma KeyRoundTrip(k: Key)
    ensures KeyOf(KeyBytes(k)) == k
  {
    var s := KeyBytes(k);
    assert s[..|s| - TAG_SIZE] == k.user && s[|s| - TAG_SIZE..] == EncodeFixed64(k.tag);
    Fixed64RoundTrip(k.tag);
  }

  /** The internal key comparator, on bytes. */
  predicate KeyLess(a: Bytes, b: Bytes) {
    |a| >= TAG_SIZE && |b| >= TAG_SIZE && Before(KeyOf(a), KeyOf(b))
  }

  lemma LessIsBefore(a: Key, b: Key)
    ensures KeyLess(KeyBytes(a), KeyBytes(b)) <==> Before(a, b)
  {
    KeyRoundTrip(a);
    KeyRoundTrip(b);
  }

  // ---- What the blocks hold ----

  function RowPair(row: Row): (p: Pair) {
    Pair(KeyBytes(row.key), row.value)
  }

  function RowPairs(rows: seq<Row>): (ps: seq<Pair>)
    ensures |ps| == |rows|
  {
    seq(|rows|, i requires 0 <= i < |rows| => RowPair(rows[i]))
  }

  /** Each index entry's value is the handle of its block. */
  function IndexPairs(index: seq<IndexEntry>, handles: seq<Handle>): (ps: seq<Pair>)
    requires |index| <= |handles|
    ensures |ps| == |index|
  {
    seq(|index|, i requires 0 <= i < |index| => Pair(KeyBytes(index[i].key), EncodeHandle(handles[i])))
  }

  ghost predicate BlockOf(contents: Bytes, restarts: nat, b: Shape, offs: seq<nat>) {
    Opens(contents, restarts, |b.heads|) && IsBlock(contents, restarts, b, offs)
  }

  /** The contents are a block of exactly these pairs. */
  ghost predicate BlockIn(contents: Bytes, pairs: seq<Pair>) {
    exists restarts, b, offs :: BlockOf(contents, restarts, b, offs) && b.pairs == pairs
  }

  /** The file holds, under this handle, a block of these pairs. */
  ghost predicate Holds(p: Platform, file: Bytes, h: Handle, pairs: seq<Pair>) {
    ReadBlock(p, file, h).Some? && BlockIn(ReadBlock(p, file, h).value, pairs)
  }

  /** A filter policy with the name under which the metaindex lists its filter. */
  datatype NamedPolicy = NamedPolicy(name: Bytes, policy: Policy)

  /** The metaindex leads to these filter contents. */
  ghost predicate ListsFilter(p: Platform, file: Bytes, metaindex: Handle, name: Bytes, contents: Bytes) {
    exists h :: Holds(p, file, metaindex, [Pair(name, EncodeHandle(h))]) && ReadBlock(p, file, h) == Some(contents)
  }

  /** The table's filter answers what the filter block answers. */
  ghost predicate AnswersBy(policy: Policy, contents: Bytes, accepts: (nat, Bytes) -> bool) {
    forall offset, user :: accepts(offset, user) <==> KeyMayMatch(policy, contents, offset, user)
  }

  function FooterOf(file: Bytes): (r: Option<Footer>) {
    if |file| < FOOTER_SIZE then None else DecodeFooter(file[|file| - FOOTER_SIZE..])
  }

  /** The bytes of table `t`, with its data blocks under `handles` and its filter block `filter`. */
  ghost predicate IsTableFile(
    p: Platform, f: NamedPolicy, file: Bytes, t: Table, handles: seq<Handle>, filter: Bytes) {
    && |handles| == |t.index| == |t.blocks|
    && FooterOf(file).Some?
    && Holds(p, file, FooterOf(file).value.index, IndexPairs(t.index, handles))
    && ListsFilter(p, file, FooterOf(file).value.metaindex, f.name, filter)
    && AnswersBy(f.policy, filter, t.accepts)
    && (forall i :: 0 <= i < |handles| ==> handles[i].offset == t.index[i].offset)
    && forall i :: 0 <= i < |handles| ==> Holds(p, file, handles[i], RowPairs(t.blocks[i]))
  }

  // ---- Order ----

  /** Index keys increase. */
  lemma IndexIncreases(t: Table, i: nat, j: nat)
    requires WellBuilt(t) && i < j < |t.index|
    ensures Before(t.index[i].key, t.index[j].key)
  {
    var last, sep, next := t.blocks[i][|t.blocks[i]| - 1].key, t.index[i].key, t.blocks[i + 1][0].key;
    assert SeparatorOk(t, i);
    if sep == last {
      RowsInBlockOrder(t, i, |t.blocks[i]| - 1, i + 1, 0);
    }
    assert Before(sep, next);
    FirstOfBlockIsLeast(t, i + 1, j, 0);
    IndexKeyBounds(t, j, 0);
    BeforeTransitive(sep, next, t.blocks[j][0].key);
    BeforeTransitive(sep, t.blocks[j][0].key, t.index[j].key);
  }

  lemma IndexIsMonotone(t: Table, handles: seq<Handle>, k: Key)
    requires WellBuilt(t) && |handles| == |t.index|
    ensures Iterators.Monotone(IndexPairs(t.index, handles), KeyLess, KeyBytes(k))
  {
    var pairs := IndexPairs(t.index, handles);
    forall i, j | 0 <= i < j < |pairs| && KeyLess(pairs[j].key, KeyBytes(k))
      ensures KeyLess(pairs[i].key, KeyBytes(k))
    {
      LessIsBefore(t.index[j].key, k);
      LessIsBefore(t.index[i].key, k);
      IndexIncreases(t, i, j);
      BeforeTransitive(t.index[i].key, t.index[j].key, k);
    }
  }

  lemma BlockIsMonotone(t: Table, i: nat, k: Key)
    requires WellBuilt(t) && i < |t.blocks|
    ensures Iterators.Monotone(RowPairs(t.blocks[i]), KeyLess, KeyBytes(k))
  {
    var rows := t.blocks[i];
    var pairs := RowPairs(rows);
    forall p, q | 0 <= p < q < |pairs| && KeyLess(pairs[q].key, KeyBytes(k))
      ensures KeyLess(pairs[p].key, KeyBytes(k))
    {
      LessIsBefore(rows[q].key, k);
      LessIsBefore(rows[p].key, k);
      RowsInBlockOrder(t, i, p, i, q);
      BeforeTransitive(rows[p].key, rows[q].key, k);
    }
  }

  lemma IndexSeekLands(t: Table, handles: seq<Handle>, k: Key, i: nat)
    requires |handles| == |t.index|
    requires Iterators.IsFirstFrom(IndexPairs(t.index, handles), KeyLess, KeyBytes(k), i)
    ensures IndexAt(t, k, i)
  {
    var pairs := IndexPairs(t.index, handles);
    forall j | 0 <= j < |pairs| ensures KeyLess(pairs[j].key, KeyBytes(k)) <==> Before(t.index[j].key, k) {
      LessIsBefore(t.index[j].key, k);
    }
  }

  lemma BlockSeekLands(rows: seq<Row>, k: Key, at: nat)
    requires Iterators.IsFirstFrom(RowPairs(rows), KeyLess, KeyBytes(k), at)
    ensures RowAt(rows, k, at)
  {
    var pairs := RowPairs(rows);
    forall j | 0 <= j < |pairs| ensures KeyLess(pairs[j].key, KeyBytes(k)) <==> Before(rows[j].key, k) {
      LessIsBefore(rows[j].key, k);
    }
  }

  // ---- Reading ----

  /** Opens a block and seeks in it. */
  method SeekIn(contents: Bytes, target: Bytes, less: Iterators.Less, ghost pairs: seq<Pair>)
    returns (r: Option<Pair>, ghost at: nat)
    requires BlockIn(contents, pairs) && Iterators.Monotone(pairs, less, target)
    ensures Iterators.IsFirstFrom(pairs, less, target, at)
    ensures r == if at < |pairs| then Some(pairs[at]) else None
  {
    ghost var from, b, offs :| BlockOf(contents, from, b, offs) && b.pairs == pairs;
    var ok, restarts, count := Open(contents);
    var iter := new Iterators.Iter(contents, restarts, count, b, offs);
    iter.Seek(target, less);
    at := iter.at;
    r := None;
    if iter.Valid() {
      var value := iter.Value();
      r := Some(Pair(iter.key, value));
    }
  }

  /** The filter contents that the metaindex names, if it can be read. */
  method ReadMeta(p: Platform, name: Bytes, file: Bytes, metaindex: Handle, ghost filter: Bytes)
    returns (contents: Option<Bytes>)
    requires ListsFilter(p, file, metaindex, name, filter)
    ensures contents == Some(filter)
  {
    ghost var at;
    ghost var h :| Holds(p, file, metaindex, [Pair(name, EncodeHandle(h))]) && ReadBlock(p, file, h) == Some(filter);
    var meta := ReadBlock(p, file, metaindex);
    if meta.None? {
      return None;
    }
    var found;
    found, at := SeekIn(meta.value, name, LexLess, [Pair(name, EncodeHandle(h))]);
    LexIrreflexive(name);
    if found.None? || found.value.key != name {
      return None;
    }
    HandleRoundTrip(h, []);
    assert EncodeHandle(h) + [] == EncodeHandle(h);
    var handle := DecodeHandle(found.value.value);
    contents := if handle.None? then None else ReadBlock(p, file, handle.value.0);
  }

  /** What a lookup owes its caller: a row it returns is the first one from `k` on, and if that row
      has the user key of `k` it is returned. */
  ghost predicate FindsFirst(rows: seq<Row>, k: Key, r: Option<Pair>) {
    && (r.Some? ==> exists g: nat :: IsFirstFrom(rows, k, g) && r.value == RowPair(rows[g]))
    && forall g: nat :: IsFirstFrom(rows, k, g) && rows[g].key.user == k.user ==> r == Some(RowPair(rows[g]))
  }

  /** The filter lets the key into the one block that may hold it. */
  ghost predicate PassesFilter(t: Table, k: Key) {
    exists i :: 0 <= i < |t.index| && IndexAt(t, k, i) && t.accepts(t.index[i].offset, k.user)
  }

  /** Seeks in the block under a handle. */
  method ReadRow(
    p: Platform, file: Bytes, handle: Bytes, k: Key, ghost t: Table, ghost handles: seq<Handle>, ghost i: nat)
    returns (r: Option<Pair>)
    requires WellBuilt(t) && |handles| == |t.index| && i < |handles| && IndexAt(t, k, i)
    requires handle == EncodeHandle(handles[i]) && Holds(p, file, handles[i], RowPairs(t.blocks[i]))
    ensures FindsFirst(Rows(t), k, r)
  {
    HandleRoundTrip(handles[i], []);
    assert handle + [] == handle;
    var h := DecodeHandle(handle);
    var contents := ReadBlock(p, file, h.value.0);
    BlockIsMonotone(t, i, k);
    ghost var at;
    r, at := SeekIn(contents.value, KeyBytes(k), KeyLess, RowPairs(t.blocks[i]));
    BlockSeekLands(t.blocks[i], k, at);
    RowIsFirst(t, k, i, at, r);
  }

  lemma RowIsFirst(t: Table, k: Key, i: nat, at: nat, r: Option<Pair>)
    requires WellBuilt(t) && i < |t.index| && IndexAt(t, k, i) && RowAt(t.blocks[i], k, at)
    requires r == if at < |t.blocks[i]| then Some(RowPair(t.blocks[i][at])) else None
    ensures FindsFirst(Rows(t), k, r)
  {
    if at < |t.blocks[i]| {
      FoundIsFirst(t, k, i, at);
    }
    forall g: nat | IsFirstFrom(Rows(t), k, g) && Rows(t)[g].key.user == k.user
      ensures r == Some(RowPair(Rows(t)[g]))
    {
      FirstIsFound(t, k, i, at, g);
    }
  }

  lemma RejectedIsAbsent(t: Table, k: Key, i: nat)
    requires WellBuilt(t) && FilterAccepts(t) && i < |t.index| && IndexAt(t, k, i)
    requires !t.accepts(t.index[i].offset, k.user)
    ensures FindsFirst(Rows(t), k, None)
  {
    forall g: nat | IsFirstFrom(Rows(t), k, g) ensures Rows(t)[g].key.user != k.user {
      FirstIsAccepted(t, k, i, g);
    }
  }

  lemma PastEndIsAbsent(t: Table, k: Key)
    requires WellBuilt(t) && IndexAt(t, k, |t.index|)
    ensures FindsFirst(Rows(t), k, None)
  {
    forall g: nat ensures !IsFirstFrom(Rows(t), k, g) {
      if g < |Rows(t)| {
        NothingFrom(t, k, g);
      }
    }
  }

  /** The lookup behind the index block: the index, then the filter, then at most one block. */
  method InternalGet(
    p: Platform, f: NamedPolicy, file: Bytes, index: Bytes, filter: Bytes, k: Key, ghost t: Table,
    ghost handles: seq<Handle>)
    returns (r: Option<Pair>)
    requires IsTableFile(p, f, file, t, handles, filter) && WellBuilt(t) && FilterAccepts(t)
    requires BlockIn(index, IndexPairs(t.index, handles))
    ensures FindsFirst(Rows(t), k, r) && (r.Some? ==> PassesFilter(t, k))
  {
    IndexIsMonotone(t, handles, k);
    ghost var i;
    var entry;
    entry, i := SeekIn(index, KeyBytes(k), KeyLess, IndexPairs(t.index, handles));
    IndexSeekLands(t, handles, k, i);
    r := None;
    if entry.None? {
      PastEndIsAbsent(t, k);
    } else {
      HandleRoundTrip(handles[i], []);
      assert EncodeHandle(handles[i]) + [] == EncodeHandle(handles[i]);
      var h := DecodeHandle(entry.value.value);
      if h.Some? && !KeyMayMatch(f.policy, filter, h.value.0.offset, k.user) {
        // Not found.
        assert !t.accepts(t.index[i].offset, k.user);
        RejectedIsAbsent(t, k, i);
      } else {
        r := ReadRow(p, file, entry.value.value, k, t, handles, i);
        assert t.accepts(t.index[i].offset, k.user);
      }
    }
  }

  /** Opening a table file and looking a key up in it finds the first row from that key on. */
  method Get(
    p: Platform, f: NamedPolicy, file: Bytes, k: Key, ghost t: Table, ghost handles: seq<Handle>, ghost filter: Bytes)
    returns (r: Option<Pair>)
    requires IsTableFile(p, f, file, t, handles, filter) && WellBuilt(t) && FilterAccepts(t)
    ensures FindsFirst(Rows(t), k, r) && (r.Some? ==> PassesFilter(t, k))
  {
    var footer := DecodeFooter(file[|file| - FOOTER_SIZE..]);
    var index := ReadBlock(p, file, footer.value.index);
    var contents := ReadMeta(p, f.name, file, footer.value.metaindex, filter);
    r := InternalGet(p, f, file, index.value, contents.value, k, t, handles);
  }
}
