/** A table file under construction: the rows added, the blocks written and the index so far. */
module TableDrafts {
  import opened Coding
  import opened Wrappers
  import opened Separators
  import opened FilterBlocks
  import opened FilterLayout
  import opened Flattening
  import opened Blocks
  import opened BlockBuilders
  import opened TableFormat
  import opened Tables
  import opened TableFiles

  // ---- What has been added so far, as rows ----

  /** The finished blocks, where they were written, the index so far and the block being filled. */
  datatype Draft = Draft(blocks: seq<seq<Row>>, offsets: seq<nat>, index: seq<IndexEntry>, data: seq<Row>,
    pending: bool)

  ghost function DraftRows(d: Draft): (r: seq<Row>) {
    Flatten(d.blocks) + d.data
  }

  /** Index entry `i` separates its block from the rows that follow. */
  ghost predicate EntryOk(d: Draft, i: nat)
    requires i < |d.index| <= |d.blocks| == |d.offsets| && (forall j :: 0 <= j < |d.blocks| ==> d.blocks[j] != [])
      && (i + 1 < |d.blocks| || d.data != [])
  {
    var last := d.blocks[i][|d.blocks[i]| - 1].key;
    var next := if i + 1 < |d.blocks| then d.blocks[i + 1][0].key else d.data[0].key;
    d.index[i].offset == d.offsets[i] && Separates(last, d.index[i].key, next)
  }

  /** The index lags one entry behind while the first key of the next block is unknown. */
  ghost predicate DraftOk(d: Draft) {
    && |d.blocks| == |d.offsets| && (forall j :: 0 <= j < |d.blocks| ==> d.blocks[j] != [])
    && |d.index| + (if d.pending then 1 else 0) == |d.blocks|
    && (d.pending ==> d.data == []) && (!d.pending && d.blocks != [] ==> d.data != [])
    && (forall i {:trigger EntryOk(d, i)} :: 0 <= i < |d.index| ==> EntryOk(d, i))
    && SortedRows(DraftRows(d))
  }

  ghost predicate LastRowIs(d: Draft, key: Key) {
    if d.data != [] then d.data[|d.data| - 1].key == key
    else d.blocks != [] ==>
      var block := d.blocks[|d.blocks| - 1];
      block != [] && block[|block| - 1].key == key
  }

  /** The last row of the draft is the last of all rows. */
  lemma LastOfAll(d: Draft, key: Key)
    requires DraftOk(d) && LastRowIs(d, key) && DraftRows(d) != []
    ensures DraftRows(d)[|DraftRows(d)| - 1].key == key
  {
    if d.data == [] {
      var b := |d.blocks| - 1;
      LastOffset(d.blocks);
      NextOffset(d.blocks, b);
      EntryAt(d.blocks, b, |d.blocks[b]| - 1);
    }
  }

  lemma RowsStaySorted(d: Draft, last: Key, row: Row)
    requires DraftOk(d) && LastRowIs(d, last) && (DraftRows(d) != [] ==> Before(last, row.key))
    ensures SortedRows(DraftRows(d) + [row])
  {
    var rows := DraftRows(d);
    if rows != [] {
      LastOfAll(d, last);
      forall g | 0 <= g < |rows| ensures Before(rows[g].key, row.key) {
        if g < |rows| - 1 {
          BeforeTransitive(rows[g].key, rows[|rows| - 1].key, row.key);
        }
      }
    }
  }

  /** A first row after a finished block settles that block's index entry. */
  function Settle(d: Draft, sep: Key): (r: Draft)
    requires d.pending && d.offsets != []
  {
    d.(index := d.index + [IndexEntry(sep, d.offsets[|d.offsets| - 1])], pending := false)
  }

  function AddRow(d: Draft, row: Row): (r: Draft) {
    d.(data := d.data + [row])
  }

  function CloseBlock(d: Draft, offset: nat): (r: Draft) {
    d.(blocks := d.blocks + [d.data], offsets := d.offsets + [offset], data := [], pending := true)
  }

  lemma AddFirstRow(d: Draft, last: Key, sep: Key, row: Row)
    requires DraftOk(d) && d.pending && LastRowIs(d, last) && Separates(last, sep, row.key) && Before(last, row.key)
    ensures DraftOk(AddRow(Settle(d, sep), row)) && DraftRows(AddRow(Settle(d, sep), row)) == DraftRows(d) + [row]
  {
    var d' := AddRow(Settle(d, sep), row);
    RowsStaySorted(d, last, row);
    assert DraftRows(d') == DraftRows(d) + [row];
    forall i {:trigger EntryOk(d', i)} | 0 <= i < |d'.index| ensures EntryOk(d', i) {
      if i < |d.index| {
        assert EntryOk(d, i);
      }
    }
  }

  lemma AddLaterRow(d: Draft, last: Key, row: Row)
    requires DraftOk(d) && !d.pending && LastRowIs(d, last) && (DraftRows(d) != [] ==> Before(last, row.key))
    ensures DraftOk(AddRow(d, row)) && DraftRows(AddRow(d, row)) == DraftRows(d) + [row]
  {
    var d' := AddRow(d, row);
    RowsStaySorted(d, last, row);
    assert DraftRows(d') == DraftRows(d) + [row];
    forall i {:trigger EntryOk(d', i)} | 0 <= i < |d'.index| ensures EntryOk(d', i) {
      assert EntryOk(d, i);
    }
  }

  lemma ClosedBlock(d: Draft, offset: nat)
    requires DraftOk(d) && d.data != []
    ensures DraftOk(CloseBlock(d, offset)) && DraftRows(CloseBlock(d, offset)) == DraftRows(d)
  {
    var d' := CloseBlock(d, offset);
    assert d'.blocks[..|d.blocks|] == d.blocks;
    assert DraftRows(d') == DraftRows(d);
    forall i {:trigger EntryOk(d', i)} | 0 <= i < |d'.index| ensures EntryOk(d', i) {
      assert EntryOk(d, i);
    }
  }

  /** With the last entry settled by a successor the draft is a table. */
  lemma DraftIsTable(d: Draft, last: Key, succ: Key, accepts: (nat, Bytes) -> bool)
    requires DraftOk(d) && d.data == [] && LastRowIs(d, last)
    requires (d.pending ==> succ == last || LexLess(last.user, succ.user))
    ensures d.pending ==> WellBuilt(Table(Settle(d, succ).index, d.blocks, accepts))
    ensures !d.pending ==> WellBuilt(Table(d.index, d.blocks, accepts))
    ensures var index := if d.pending then Settle(d, succ).index else d.index;
      |index| == |d.offsets| && forall i :: 0 <= i < |index| ==> index[i].offset == d.offsets[i]
  {
    forall i | 0 <= i < |d.index| ensures d.index[i].offset == d.offsets[i] {
      assert EntryOk(d, i);
    }
    var d' := if d.pending then Settle(d, succ) else d;
    var t := Table(d'.index, d.blocks, accepts);
    assert DraftRows(d) == Flatten(d.blocks);
    forall i {:trigger SeparatorOk(t, i)} | 0 <= i < |t.blocks| ensures SeparatorOk(t, i) {
      if i < |d.index| {
        assert EntryOk(d, i);
      }
    }
  }

  // ---- The blocks written so far, as bytes ----

  const FILE_LIMIT: nat := 0x1_0000_0000_0000_0000
  const BLOCK_LIMIT: nat := 0x1_0000_0000

  /** Where the next block goes: file offsets and sizes are 64-bit numbers. */
  function NextHandle(file: Bytes, size: nat): (h: Handle) {
    Handle(|file| % FILE_LIMIT, size % FILE_LIMIT)
  }

  ghost predicate StoredAt(p: Platform, file: Bytes, offset: nat, h: Handle, rows: seq<Row>) {
    && h.offset == offset && h.offset + h.size + TRAILER_SIZE <= |file|
    && Holds(p, file, h, RowPairs(rows))
  }

  /** Every finished block can be read back under its handle. */
  ghost predicate Stored(p: Platform, file: Bytes, d: Draft, handles: seq<Handle>) {
    && |handles| == |d.blocks| == |d.offsets|
    && (|file| < FILE_LIMIT ==>
          forall i :: 0 <= i < |d.blocks| ==> StoredAt(p, file, d.offsets[i], handles[i], d.blocks[i]))
  }

  lemma StoredStays(p: Platform, file: Bytes, more: Bytes, d: Draft, handles: seq<Handle>)
    requires Stored(p, file, d, handles)
    ensures Stored(p, file + more, d, handles)
  {
    if |file + more| < FILE_LIMIT {
      forall i | 0 <= i < |d.blocks| ensures StoredAt(p, file + more, d.offsets[i], handles[i], d.blocks[i]) {
        assert StoredAt(p, file, d.offsets[i], handles[i], d.blocks[i]);
        GrowingKeepsBlocks(p, file, more, handles[i]);
      }
    }
  }

  /** A block just written can be read back. */
  lemma WrittenHolds(p: Platform, file: Bytes, contents: Bytes, pairs: seq<Pair>)
    requires LawfulCodec(p) && BlockIn(contents, pairs) && |file + StoredBlock(p, contents)| < FILE_LIMIT
    ensures Holds(p, file + StoredBlock(p, contents), NextHandle(file, |StoredData(p, contents)|), pairs)
  {
    StoredReadsBack(p, file, contents, []);
    assert file + StoredBlock(p, contents) + [] == file + StoredBlock(p, contents);
    HandleFits(file, |StoredData(p, contents)|);
  }

  lemma HandleFits(file: Bytes, size: nat)
    requires |file| < FILE_LIMIT && size < FILE_LIMIT
    ensures NextHandle(file, size) == Handle(|file|, size)
  {
  }

  lemma StoreOne(p: Platform, file: Bytes, contents: Bytes, d: Draft, handles: seq<Handle>)
    requires LawfulCodec(p) && Stored(p, file, d, handles) && BlockIn(contents, RowPairs(d.data))
    ensures Stored(p, file + StoredBlock(p, contents), CloseBlock(d, |file|),
                   handles + [NextHandle(file, |StoredData(p, contents)|)])
  {
    var file', h := file + StoredBlock(p, contents), NextHandle(file, |StoredData(p, contents)|);
    var d', handles' := CloseBlock(d, |file|), handles + [h];
    StoredStays(p, file, StoredBlock(p, contents), d, handles);
    if |file'| < FILE_LIMIT {
      WrittenHolds(p, file, contents, RowPairs(d.data));
      HandleFits(file, |StoredData(p, contents)|);
      forall i | 0 <= i < |d'.blocks| ensures StoredAt(p, file', d'.offsets[i], handles'[i], d'.blocks[i]) {
        if i < |d.blocks| {
          assert StoredAt(p, file', d.offsets[i], handles[i], d.blocks[i]);
        }
      }
    }
  }

  lemma NothingAdded(p: Platform, d: Draft)
    requires d == Draft([], [], [], [], false)
    ensures DraftOk(d) && DraftRows(d) == [] && LastRowIs(d, Key([], 0)) && Stored(p, [], d, [])
    ensures RowPairs(d.data) == [] && IndexPairs(d.index, []) == []
  {
  }

  lemma MorePairs(rows: seq<Row>, row: Row)
    ensures RowPairs(rows + [row]) == RowPairs(rows) + [RowPair(row)]
  {
  }

  lemma MoreIndexPairs(index: seq<IndexEntry>, handles: seq<Handle>, e: IndexEntry)
    requires |index| < |handles|
    ensures IndexPairs(index + [e], handles)
      == IndexPairs(index, handles) + [Pair(KeyBytes(e.key), EncodeHandle(handles[|index|]))]
  {
  }

  lemma SameIndexPairs(index: seq<IndexEntry>, handles: seq<Handle>, h: Handle)
    requires |index| <= |handles|
    ensures IndexPairs(index, handles + [h]) == IndexPairs(index, handles)
  {
  }

  lemma PendingHasRows(d: Draft)
    requires DraftOk(d) && d.pending
    ensures DraftRows(d) != []
  {
    EntryAt(d.blocks, |d.blocks| - 1, 0);
  }

  // ---- Where blocks end ----

  /** A block that may take more rows: below the size at which it is written, or empty. */
  ghost predicate OpenBlock(interval: nat, blockSize: nat, rows: seq<Row>) {
    rows == [] || BlockLength(RowPairs(rows), interval) < blockSize
  }

  /** A block that its last row brought to the size at which it is written. */
  ghost predicate FullBlock(interval: nat, blockSize: nat, rows: seq<Row>) {
    && rows != [] && BlockLength(RowPairs(rows), interval) >= blockSize
    && OpenBlock(interval, blockSize, rows[..|rows| - 1])
  }

  ghost predicate CutBySize(interval: nat, blockSize: nat, d: Draft) {
    && (forall i :: 0 <= i < |d.blocks| ==> FullBlock(interval, blockSize, d.blocks[i]))
    && OpenBlock(interval, blockSize, d.data)
  }

  /** Every block is full but perhaps the last, which is what was left. */
  ghost predicate BlocksFull(interval: nat, blockSize: nat, blocks: seq<seq<Row>>) {
    forall i :: 0 <= i < |blocks| ==>
      FullBlock(interval, blockSize, blocks[i]) || (i == |blocks| - 1 && OpenBlock(interval, blockSize, blocks[i]))
  }

  /** A row more, and the block ended if that fills it. */
  lemma RowCuts(interval: nat, blockSize: nat, d: Draft, row: Row, d': Draft, offset: nat)
    requires CutBySize(interval, blockSize, d) && d'.blocks == d.blocks && d'.data == d.data + [row]
    ensures if BlockLength(RowPairs(d'.data), interval) >= blockSize
      then CutBySize(interval, blockSize, CloseBlock(d', offset))
      else CutBySize(interval, blockSize, d')
  {
    assert d'.data[..|d.data|] == d.data;
  }

  lemma LastBlock(interval: nat, blockSize: nat, d: Draft, offset: nat)
    requires CutBySize(interval, blockSize, d)
    ensures BlocksFull(interval, blockSize, if d.data == [] then d.blocks else CloseBlock(d, offset).blocks)
  {
  }

  // ---- A builder's books ----

  /** Everything a table builder keeps track of, as values. */
  datatype Book = Book(
    file: Bytes, draft: Draft, handles: seq<Handle>, last: Key, data: seq<Pair>, index: seq<Pair>,
    groups: seq<seq<Bytes>>, keys: seq<Bytes>)

  /** Every row's user key goes into the filter for the offset of its block. */
  ghost predicate AllRecorded(b: Book) {
    && (forall i, p ::
          0 <= i < |b.draft.blocks| && i < |b.draft.offsets| && 0 <= p < |b.draft.blocks[i]| ==>
            InGroups(b.groups, b.keys, b.draft.offsets[i] / FILTER_BASE, b.draft.blocks[i][p].key.user))
    && forall p :: 0 <= p < |b.draft.data| ==>
      InGroups(b.groups, b.keys, |b.file| / FILTER_BASE, b.draft.data[p].key.user)
  }

  /** The rows, the blocks in the file, the pairs of both block builders and the filter belong together. */
  ghost predicate InOrder(p: Platform, b: Book) {
    && LawfulCodec(p) && DraftOk(b.draft) && LastRowIs(b.draft, b.last) && |b.last.user| + 64 < BLOCK_LIMIT
    && Stored(p, b.file, b.draft, b.handles) && |b.draft.index| <= |b.handles|
    && b.data == RowPairs(b.draft.data) && b.index == IndexPairs(b.draft.index, b.handles)
    && |b.groups| == |b.file| / FILTER_BASE && AllRecorded(b)
  }

  predicate Opened(b: Book, n: nat) {
    true
  }

  /** InOrder behind a trigger, so that only the lemmas about books look inside. */
  ghost predicate Kept(p: Platform, b: Book) {
    forall n: nat {:trigger Opened(b, n)} :: Opened(b, n) ==> InOrder(p, b)
  }

  lemma OpenBook(p: Platform, b: Book)
    requires Kept(p, b)
    ensures InOrder(p, b)
  {
    assert Opened(b, 0);
  }

  lemma EmptyBook(p: Platform)
    requires LawfulCodec(p)
    ensures Kept(p, Book([], Draft([], [], [], [], false), [], Key([], 0), [], [], [], []))
    ensures DraftRows(Draft([], [], [], [], false)) == []
  {
    NothingAdded(p, Draft([], [], [], [], false));
  }

  lemma PendingBook(p: Platform, b: Book)
    requires Kept(p, b) && b.draft.pending
    ensures b.handles != [] && b.draft.offsets != [] && DraftRows(b.draft) != [] && |b.last.user| + 64 < BLOCK_LIMIT
  {
    OpenBook(p, b);
    PendingHasRows(b.draft);
  }

  lemma BookFacts(p: Platform, b: Book)
    requires Kept(p, b)
    ensures b.data == RowPairs(b.draft.data) && (b.data == [] <==> b.draft.data == [])
    ensures |b.groups| == |b.file| / FILTER_BASE && LawfulCodec(p)
  {
    OpenBook(p, b);
  }

  function WithRow(b: Book, draft: Draft, row: Row, index: seq<Pair>): (r: Book) {
    b.(draft := draft, last := row.key, data := b.data + [RowPair(row)], index := index,
      keys := b.keys + [row.key.user])
  }

  lemma RowIsRecorded(b: Book, draft: Draft, row: Row, index: seq<Pair>)
    requires AllRecorded(b) && |b.groups| == |b.file| / FILTER_BASE
    requires draft.blocks == b.draft.blocks && draft.offsets == b.draft.offsets && draft.data == b.draft.data + [row]
    ensures AllRecorded(WithRow(b, draft, row, index))
  {
  }

  /** A first row after a finished block enters the block's index entry. */
  lemma BookSettled(p: Platform, b: Book, sep: Key, row: Row)
    requires Kept(p, b) && b.draft.pending && b.draft.offsets != [] && b.handles != []
    requires Separates(b.last, sep, row.key) && Before(b.last, row.key) && |row.key.user| + 64 < BLOCK_LIMIT
    ensures Kept(p, WithRow(b, AddRow(Settle(b.draft, sep), row), row,
                            b.index + [Pair(KeyBytes(sep), EncodeHandle(b.handles[|b.handles| - 1]))]))
    ensures DraftRows(AddRow(Settle(b.draft, sep), row)) == DraftRows(b.draft) + [row]
  {
    OpenBook(p, b);
    var d := b.draft;
    AddFirstRow(d, b.last, sep, row);
    MorePairs(d.data, row);
    MoreIndexPairs(d.index, b.handles, IndexEntry(sep, d.offsets[|d.offsets| - 1]));
    RowIsRecorded(b, AddRow(Settle(d, sep), row), row,
      b.index + [Pair(KeyBytes(sep), EncodeHandle(b.handles[|b.handles| - 1]))]);
  }

  lemma BookAdded(p: Platform, b: Book, row: Row)
    requires Kept(p, b) && !b.draft.pending && |row.key.user| + 64 < BLOCK_LIMIT
    requires DraftRows(b.draft) != [] ==> Before(b.last, row.key)
    ensures Kept(p, WithRow(b, AddRow(b.draft, row), row, b.index))
    ensures DraftRows(AddRow(b.draft, row)) == DraftRows(b.draft) + [row]
  {
    OpenBook(p, b);
    AddLaterRow(b.draft, b.last, row);
    MorePairs(b.draft.data, row);
    RowIsRecorded(b, AddRow(b.draft, row), row, b.index);
  }

  /** The book after the data block is written and the filter has moved on. */
  function WithBlock(p: Platform, b: Book, contents: Bytes, groups: seq<seq<Bytes>>, keys: seq<Bytes>): (r: Book) {
    Book(b.file + StoredBlock(p, contents), CloseBlock(b.draft, |b.file|),
         b.handles + [NextHandle(b.file, |StoredData(p, contents)|)], b.last, [], b.index, groups, keys)
  }

  lemma BlockIsRecorded(p: Platform, b: Book, contents: Bytes, groups: seq<seq<Bytes>>, keys: seq<Bytes>)
    requires AllRecorded(b) && |b.draft.blocks| == |b.draft.offsets|
    requires KeepsGroups(b.groups, b.keys, groups, keys)
    ensures AllRecorded(WithBlock(p, b, contents, groups, keys))
  {
    var b' := WithBlock(p, b, contents, groups, keys);
    forall i, q | 0 <= i < |b'.draft.blocks| && 0 <= q < |b'.draft.blocks[i]|
      ensures InGroups(groups, keys, b'.draft.offsets[i] / FILTER_BASE, b'.draft.blocks[i][q].key.user)
    {
      if i < |b.draft.blocks| {
        assert InGroups(b.groups, b.keys, b.draft.offsets[i] / FILTER_BASE, b.draft.blocks[i][q].key.user);
      } else {
        assert InGroups(b.groups, b.keys, |b.file| / FILTER_BASE, b.draft.data[q].key.user);
      }
    }
  }

  lemma BookFlushed(p: Platform, b: Book, contents: Bytes, groups: seq<seq<Bytes>>, keys: seq<Bytes>)
    requires Kept(p, b) && b.data != [] && BlockIn(contents, b.data)
    requires |groups| == |b.file + StoredBlock(p, contents)| / FILTER_BASE
    requires KeepsGroups(b.groups, b.keys, groups, keys)
    ensures Kept(p, WithBlock(p, b, contents, groups, keys))
    ensures DraftRows(CloseBlock(b.draft, |b.file|)) == DraftRows(b.draft)
  {
    OpenBook(p, b);
    ClosedBlock(b.draft, |b.file|);
    StoreOne(p, b.file, contents, b.draft, b.handles);
    SameIndexPairs(b.draft.index, b.handles, NextHandle(b.file, |StoredData(p, contents)|));
    BlockIsRecorded(p, b, contents, groups, keys);
    assert RowPairs([]) == [];
  }

  // ---- The end of the file ----

  /** The file with the filter block. */
  function WithFilter(p: Platform, file: Bytes, filter: Bytes): (r: Bytes) {
    file + RawBlock(p, filter)
  }

  function WithMeta(p: Platform, file: Bytes, filter: Bytes, meta: Bytes): (r: Bytes) {
    WithFilter(p, file, filter) + StoredBlock(p, meta)
  }

  function FooterFor(p: Platform, file: Bytes, filter: Bytes, meta: Bytes, index: Bytes): (r: Footer) {
    Footer(NextHandle(WithFilter(p, file, filter), |StoredData(p, meta)|),
           NextHandle(WithMeta(p, file, filter, meta), |StoredData(p, index)|))
  }

  /** The data blocks, the filter block, the metaindex block, the index block and the footer. */
  function WholeFile(p: Platform, file: Bytes, filter: Bytes, meta: Bytes, index: Bytes): (r: Bytes) {
    WithMeta(p, file, filter, meta) + StoredBlock(p, index) + EncodeFooter(FooterFor(p, file, filter, meta, index))
  }

  lemma Regrouped(a: Bytes, b: Bytes, c: Bytes, d: Bytes, e: Bytes)
    ensures a + b + c + d + e == a + b + (c + d + e)
    ensures a + b + c + d + e == a + b + c + (d + e)
    ensures a + b + c + d + e == a + (b + c + d + e)
  {
  }

  lemma FilterIsListed(p: Platform, file: Bytes, filter: Bytes, meta: Bytes, index: Bytes, name: Bytes)
    requires LawfulCodec(p) && |WholeFile(p, file, filter, meta, index)| < FILE_LIMIT
    requires BlockIn(meta, [Pair(name, EncodeHandle(NextHandle(file, |filter|)))])
    ensures ListsFilter(p, WholeFile(p, file, filter, meta, index), FooterFor(p, file, filter, meta, index).metaindex,
                        name, filter)
  {
    var whole, h := WholeFile(p, file, filter, meta, index), NextHandle(file, |filter|);
    var a, b, c, d := RawBlock(p, filter), StoredBlock(p, meta), StoredBlock(p, index),
      EncodeFooter(FooterFor(p, file, filter, meta, index));
    Regrouped(file, a, b, c, d);
    HandleFits(file, |filter|);
    RawReadsBack(p, file, filter, b + c + d);
    HandleFits(file + a, |StoredData(p, meta)|);
    StoredReadsBack(p, file + a, meta, c + d);
    assert Holds(p, whole, FooterFor(p, file, filter, meta, index).metaindex, [Pair(name, EncodeHandle(h))]);
    assert ReadBlock(p, whole, h) == Some(filter);
  }

  lemma IndexIsRead(p: Platform, file: Bytes, filter: Bytes, meta: Bytes, index: Bytes, pairs: seq<Pair>)
    requires LawfulCodec(p) && |WholeFile(p, file, filter, meta, index)| < FILE_LIMIT && BlockIn(index, pairs)
    ensures Holds(p, WholeFile(p, file, filter, meta, index), FooterFor(p, file, filter, meta, index).index, pairs)
    ensures FooterOf(WholeFile(p, file, filter, meta, index)) == Some(FooterFor(p, file, filter, meta, index))
  {
    var front, footer := WithMeta(p, file, filter, meta), FooterFor(p, file, filter, meta, index);
    HandleFits(front, |StoredData(p, index)|);
    StoredReadsBack(p, front, index, EncodeFooter(footer));
    FooterRoundTrip(footer);
    var whole := WholeFile(p, file, filter, meta, index);
    assert whole[|whole| - FOOTER_SIZE..] == EncodeFooter(footer);
  }

  lemma BlocksAreRead(
    p: Platform, file: Bytes, filter: Bytes, meta: Bytes, index: Bytes, d: Draft, handles: seq<Handle>)
    requires Stored(p, file, d, handles)
    ensures Stored(p, WholeFile(p, file, filter, meta, index), d, handles)
  {
    var a, b, c, e := RawBlock(p, filter), StoredBlock(p, meta), StoredBlock(p, index),
      EncodeFooter(FooterFor(p, file, filter, meta, index));
    Regrouped(file, a, b, c, e);
    StoredStays(p, file, a + b + c + e, d, handles);
  }

  /** The whole file is the table's. */
  lemma WholeIsTableFile(
    p: Platform, f: NamedPolicy, file: Bytes, filter: Bytes, meta: Bytes, index: Bytes, d: Draft,
    handles: seq<Handle>, t: Table)
    requires LawfulCodec(p) && |WholeFile(p, file, filter, meta, index)| < FILE_LIMIT
    requires Stored(p, file, d, handles) && t.blocks == d.blocks && |t.index| == |t.blocks|
    requires forall i :: 0 <= i < |t.index| ==> t.index[i].offset == d.offsets[i]
    requires BlockIn(meta, [Pair(f.name, EncodeHandle(NextHandle(file, |filter|)))])
    requires BlockIn(index, IndexPairs(t.index, handles)) && AnswersBy(f.policy, filter, t.accepts)
    ensures IsTableFile(p, f, WholeFile(p, file, filter, meta, index), t, handles, filter)
  {
    FilterIsListed(p, file, filter, meta, index, f.name);
    IndexIsRead(p, file, filter, meta, index, IndexPairs(t.index, handles));
    BlocksAreRead(p, file, filter, meta, index, d, handles);
    forall i | 0 <= i < |handles|
      ensures handles[i].offset == t.index[i].offset
      ensures Holds(p, WholeFile(p, file, filter, meta, index), handles[i], RowPairs(t.blocks[i]))
    {
      assert StoredAt(p, WholeFile(p, file, filter, meta, index), d.offsets[i], handles[i], d.blocks[i]);
    }
  }

  /** Every recorded key passes the filter at its offset. */
  ghost predicate Passes(policy: Policy, filter: Bytes, groups: seq<seq<Bytes>>, keys: seq<Bytes>) {
    forall offset: nat, key :: InGroups(groups, keys, offset / FILTER_BASE, key) ==>
      KeyMayMatch(policy, filter, offset, key)
  }

  /** The table that the books describe once the last index entry is settled. */
  ghost function Closed(b: Book, succ: Key, policy: Policy, filter: Bytes): (t: Table)
    requires b.draft.pending ==> b.draft.offsets != []
  {
    Table(if b.draft.pending then Settle(b.draft, succ).index else b.draft.index, b.draft.blocks,
          (offset: nat, user: Bytes) => KeyMayMatch(policy, filter, offset, user))
  }

  lemma ClosedAccepts(b: Book, succ: Key, policy: Policy, filter: Bytes)
    requires AllRecorded(b) && Passes(policy, filter, b.groups, b.keys)
    requires b.draft.pending ==> b.draft.offsets != []
    requires var t := Closed(b, succ, policy, filter);
      |t.index| == |t.blocks| == |b.draft.offsets|
        && forall i :: 0 <= i < |t.index| ==> t.index[i].offset == b.draft.offsets[i]
    ensures FilterAccepts(Closed(b, succ, policy, filter))
  {
    var t := Closed(b, succ, policy, filter);
    forall i, p | 0 <= i < |t.blocks| && 0 <= p < |t.blocks[i]|
      ensures t.accepts(t.index[i].offset, t.blocks[i][p].key.user)
    {
      assert InGroups(b.groups, b.keys, b.draft.offsets[i] / FILTER_BASE, b.draft.blocks[i][p].key.user);
    }
  }

  /** The pairs of the index block when the last entry, if one is pending, is entered under `succ`. */
  function ClosedIndex(b: Book, succ: Key): (r: seq<Pair>) {
    if b.draft.pending && b.handles != []
    then b.index + [Pair(KeyBytes(succ), EncodeHandle(b.handles[|b.handles| - 1]))]
    else b.index
  }

  /** A file whose offsets fit is a table file. */
  ghost predicate FileDone(
    p: Platform, f: NamedPolicy, file: Bytes, t: Table, handles: seq<Handle>, filter: Bytes)
  {
    |file| < FILE_LIMIT ==> IsTableFile(p, f, file, t, handles, filter)
  }

  lemma BookEnds(p: Platform, f: NamedPolicy, b: Book, succ: Key, filter: Bytes, meta: Bytes, index: Bytes)
    requires Kept(p, b) && b.draft.data == [] && (b.draft.pending ==> b.draft.offsets != [])
    requires b.draft.pending ==> succ == b.last || LexLess(b.last.user, succ.user)
    requires BlockIn(meta, [Pair(f.name, EncodeHandle(NextHandle(b.file, |filter|)))])
    requires BlockIn(index, ClosedIndex(b, succ))
    ensures var t := Closed(b, succ, f.policy, filter);
      && WellBuilt(t) && Rows(t) == DraftRows(b.draft)
      && (Passes(f.policy, filter, b.groups, b.keys) ==> FilterAccepts(t))
      && FileDone(p, f, WholeFile(p, b.file, filter, meta, index), t, b.handles, filter)
  {
    OpenBook(p, b);
    var d, t := b.draft, Closed(b, succ, f.policy, filter);
    DraftIsTable(d, b.last, succ, t.accepts);
    if Passes(f.policy, filter, b.groups, b.keys) {
      ClosedAccepts(b, succ, f.policy, filter);
    }
    ClosedIndexPairs(b, succ, t);
    if |WholeFile(p, b.file, filter, meta, index)| < FILE_LIMIT {
      WholeIsTableFile(p, f, b.file, filter, meta, index, d, b.handles, t);
    }
  }

  lemma ClosedIndexPairs(b: Book, succ: Key, t: Table)
    requires |b.handles| == |b.draft.blocks| == |b.draft.offsets| && |b.draft.index| <= |b.handles|
    requires |b.draft.index| + (if b.draft.pending then 1 else 0) == |b.draft.blocks|
    requires b.index == IndexPairs(b.draft.index, b.handles)
    requires t.index == if b.draft.pending then Settle(b.draft, succ).index else b.draft.index
    ensures |t.index| == |b.handles| && ClosedIndex(b, succ) == IndexPairs(t.index, b.handles)
  {
    if b.draft.pending {
      MoreIndexPairs(b.draft.index, b.handles, IndexEntry(succ, b.draft.offsets[|b.draft.offsets| - 1]));
    }
  }
}
