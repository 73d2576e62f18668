/** The table builder: rows in order become the bytes of a table file. */
module TableBuilders {
  import opened Coding
  import opened Wrappers
  import opened Separators
  import opened FilterBlocks
  import opened FilterLayout
  import opened Flattening
  import opened Blocks
  import opened BlockBuilders
  import opened TableFormat
  import opened Tables
  import opened TableFiles
  import opened TableDrafts
  import opened TableParts

  class TableBuilder {
    const platform: Platform
    const names: NamedPolicy
    const blockSize: nat
    const interval: nat
    const data: BlockBuilder
    const index: BlockBuilder
    const filter: FilterBlockBuilder
    var file: Bytes
    var lastKey: Key
    var pendingIndexEntry: bool
    var pendingHandle: Handle
    ghost var draft: Draft
    ghost var handles: seq<Handle>

    constructor (platform: Platform, names: NamedPolicy, blockSize: nat, interval: nat)
      requires interval >= 1 && LawfulCodec(platform) && blockSize + 8 < BLOCK_LIMIT
      ensures Valid() && fresh(data) && fresh(index) && fresh(filter) && DraftRows(draft) == []
      ensures this.platform == platform && this.names == names && this.blockSize == blockSize && file == []
    {
      this.platform, this.names, this.blockSize, this.interval := platform, names, blockSize, interval;
      var rows := NewBlock(interval);
      var entries := NewBlock(1);
      var filters := NewFilter(names.policy);
      data, index, filter := rows, entries, filters;
      file, lastKey, pendingIndexEntry, pendingHandle := [], Key([], 0), false, Handle(0, 0);
      draft, handles := Draft([], [], [], [], false), [];
      EmptyBook(platform);
    }

    /** The block under construction is below the size at which it is written. */
    ghost predicate Valid()
      reads this, data, index, filter
    {
      && Consistent() && data.CurrentSizeEstimate() <= blockSize + 8 < BLOCK_LIMIT
      && CutBySize(interval, blockSize, draft)
    }

    ghost predicate Consistent()
      reads this, data, index, filter
    {
      && data != index && Ready(data) && Ready(index) && Recording(filter) && interval >= 1
      && filter.policy == names.policy && data.interval == interval && Kept(platform, Books())
      && pendingIndexEntry == draft.pending
      && (draft.pending ==> handles != [] && pendingHandle == handles[|handles| - 1])
    }

    ghost function Books(): (b: Book)
      reads this, data, index, filter
    {
      Book(file, draft, handles, lastKey, data.b.pairs, index.b.pairs, filter.groups, filter.keys)
    }

    method Add(key: Key, value: Bytes)
      requires Valid() && (DraftRows(draft) != [] ==> Before(lastKey, key))
      requires blockSize + |key.user| + |value| + 64 < BLOCK_LIMIT
      modifies this, data, index, filter
      ensures Valid() && DraftRows(draft) == old(DraftRows(draft)) + [Row(key, value)]
    {
      ghost var d := draft;
      AppendRow(key, value);
      RowCuts(interval, blockSize, d, Row(key, value), draft, |file|);
      if data.CurrentSizeEstimate() >= blockSize {
        Flush();
      }
    }

    /** Settles a pending index entry and adds the row to the data block. */
    method AppendRow(key: Key, value: Bytes)
      requires Consistent() && (DraftRows(draft) != [] ==> Before(lastKey, key))
      requires |key.user| + |value| + 64 < BLOCK_LIMIT
      modifies this, data, index, filter
      ensures Consistent() && DraftRows(draft) == old(DraftRows(draft)) + [Row(key, value)]
      ensures draft.blocks == old(draft.blocks) && draft.data == old(draft.data) + [Row(key, value)]
      ensures data.CurrentSizeEstimate() == BlockLength(RowPairs(draft.data), interval)
      ensures data.CurrentSizeEstimate() <= old(data.CurrentSizeEstimate()) + |key.user| + |value| + 27
    {
      ghost var b, row := Books(), Row(key, value);
      if pendingIndexEntry {
        PendingBook(platform, b);
        var sep := FindInternalSeparator(lastKey, key);
        BookSettled(platform, b, sep, row);
        HandleLength(pendingHandle);
        AddPair(index, KeyBytes(sep), EncodeHandle(pendingHandle));
        pendingIndexEntry := false;
        draft := AddRow(Settle(draft, sep), row);
      } else {
        BookAdded(platform, b, row);
        draft := AddRow(draft, row);
      }
      RecordKey(filter, key.user);
      lastKey := key;
      AddPair(data, KeyBytes(key), value);
      BookFacts(platform, Books());
    }

    method Flush()
      requires Consistent() && data.CurrentSizeEstimate() < BLOCK_LIMIT && blockSize + 8 < BLOCK_LIMIT
      modifies this`file, this`draft, this`handles, this`pendingHandle, this`pendingIndexEntry, data, filter
      ensures Consistent() && draft.data == []
      ensures data.CurrentSizeEstimate() == if old(draft.data) == [] then old(data.CurrentSizeEstimate()) else 8
      ensures DraftRows(draft) == old(DraftRows(draft))
      ensures draft == if old(draft.data) == [] then old(draft) else CloseBlock(old(draft), old(|file|))
    {
      BookFacts(platform, Books());
      var empty := IsEmpty(data);
      if !empty {
        WriteData();
      }
    }

    /** Writes the data block to the file. */
    method WriteData()
      requires Consistent() && data.CurrentSizeEstimate() < BLOCK_LIMIT && data.b.pairs != []
      requires |filter.groups| == |file| / FILTER_BASE
      modifies this`file, this`draft, this`handles, this`pendingHandle, this`pendingIndexEntry, data, filter
      ensures Consistent() && draft.data == [] && data.CurrentSizeEstimate() == 8
      ensures DraftRows(draft) == old(DraftRows(draft)) && draft == CloseBlock(old(draft), old(|file|))
    {
      ghost var b, contents := Books(), [];
      file, pendingHandle, contents := CutBlock(platform, file, data, filter);
      BookFlushed(platform, b, contents, filter.groups, filter.keys);
      draft, handles := CloseBlock(draft, |b.file|), handles + [pendingHandle];
      pendingIndexEntry := true;
    }

    /** Enters the last index entry under a short successor of the last key. */
    method CloseIndex() returns (ghost succ: Key)
      requires Consistent() && draft.data == []
      requires index.CurrentSizeEstimate() + |lastKey.user| + 128 < BLOCK_LIMIT
      modifies index
      ensures Ready(index) && index.CurrentSizeEstimate() < BLOCK_LIMIT
      ensures draft.pending ==> draft.offsets != [] && (succ == lastKey || LexLess(lastKey.user, succ.user))
      ensures index.b.pairs == ClosedIndex(old(Books()), succ)
    {
      succ := lastKey;
      if pendingIndexEntry {
        PendingBook(platform, Books());
        var key := FindInternalSuccessor(lastKey);
        HandleLength(pendingHandle);
        AddPair(index, KeyBytes(key), EncodeHandle(pendingHandle));
        succ := key;
      }
    }

    /** Writes the last block, the filter, the metaindex, the index and the footer: the file is a
        table of exactly the added rows, and meets what lookups rely on. */
    method Finish() returns (ghost t: Table, ghost contents: Bytes)
      requires Valid() && Lawful(names.policy) && |names.name| + 64 < BLOCK_LIMIT
      requires index.CurrentSizeEstimate() + |lastKey.user| + 128 < BLOCK_LIMIT
      modifies this, data, index, filter
      ensures WellBuilt(t) && Rows(t) == old(DraftRows(draft)) && BlocksFull(interval, blockSize, t.blocks)
      ensures |file| < FILE_LIMIT ==> IsTableFile(platform, names, file, t, handles, contents)
      ensures |filter.result| < BLOCK_LIMIT ==> FilterAccepts(t)
    {
      LastBlock(interval, blockSize, draft, |file|);
      Flush();
      t, contents := WriteTail();
    }

    method WriteTail() returns (ghost t: Table, ghost contents: Bytes)
      requires Consistent() && draft.data == [] && Lawful(names.policy) && |names.name| + 64 < BLOCK_LIMIT
      requires index.CurrentSizeEstimate() + |lastKey.user| + 128 < BLOCK_LIMIT
      modifies this, data, index, filter
      ensures WellBuilt(t) && Rows(t) == old(DraftRows(draft)) && t.blocks == old(draft.blocks)
      ensures FileDone(platform, names, file, t, handles, contents)
      ensures |filter.result| < BLOCK_LIMIT ==> FilterAccepts(t)
    {
      ghost var b, metaContents, indexContents := Books(), [], [];
      ghost var succ := CloseIndex();
      assert Kept(platform, b);
      var filterContents := FinishFilter(filter);
      file, metaContents, indexContents := WriteRest(platform, file, interval, names.name, filterContents, index);
      contents := filterContents;
      t := Closed(b, succ, names.policy, filterContents);
      BookEnds(platform, names, b, succ, filterContents, metaContents, indexContents);
    }
  }
}
