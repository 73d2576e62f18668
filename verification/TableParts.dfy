/** The block and filter builders that a table builder owns, with their invariants behind a trigger. */
module TableParts {
  import opened Coding
  import opened FilterBlocks
  import opened FilterLayout
  import opened Blocks
  import opened BlockBuilders
  import opened TableFormat
  import opened TableFiles
  import opened TableDrafts

  predicate BlockOpened(block: BlockBuilder, n: nat) {
    true
  }

  ghost predicate Ready(block: BlockBuilder)
    reads block
  {
    forall n: nat {:trigger BlockOpened(block, n)} :: BlockOpened(block, n) ==> block.Valid() && block.Exact()
  }

  predicate FilterOpened(filter: FilterBlockBuilder, n: nat) {
    true
  }

  ghost predicate Recording(filter: FilterBlockBuilder)
    reads filter
  {
    forall n: nat {:trigger FilterOpened(filter, n)} :: FilterOpened(filter, n) ==> filter.Valid()
  }

  method NewBlock(interval: nat) returns (block: BlockBuilder)
    requires interval >= 1
    ensures fresh(block) && Ready(block) && block.b.pairs == [] && block.CurrentSizeEstimate() == 8
    ensures block.interval == interval
  {
    block := new BlockBuilder(interval);
  }

  method NewFilter(policy: Policy) returns (filter: FilterBlockBuilder)
    ensures fresh(filter) && Recording(filter) && filter.policy == policy && filter.groups == [] && filter.keys == []
  {
    filter := new FilterBlockBuilder(policy);
  }

  method AddPair(block: BlockBuilder, key: Bytes, value: Bytes)
    requires Ready(block) && |key| + |value| < BLOCK_LIMIT
    modifies block
    ensures Ready(block) && block.b.pairs == old(block.b.pairs) + [Pair(key, value)]
    ensures block.CurrentSizeEstimate() <= old(block.CurrentSizeEstimate()) + |key| + |value| + 19
    ensures block.CurrentSizeEstimate() == BlockLength(block.b.pairs, block.interval)
  {
    assert BlockOpened(block, 0);
    block.Add(key, value);
    block.EstimateIsLength();
  }

  method RecordKey(filter: FilterBlockBuilder, key: Bytes)
    requires Recording(filter)
    modifies filter
    ensures Recording(filter) && filter.groups == old(filter.groups) && filter.keys == old(filter.keys) + [key]
  {
    assert FilterOpened(filter, 0);
    filter.AddKey(key);
  }

  method StartFilter(filter: FilterBlockBuilder, offset: nat)
    requires Recording(filter) && |filter.groups| <= offset / FILTER_BASE
    modifies filter
    ensures Recording(filter) && |filter.groups| == offset / FILTER_BASE
    ensures KeepsGroups(old(filter.groups), old(filter.keys), filter.groups, filter.keys)
  {
    assert FilterOpened(filter, 0);
    ghost var groups, keys := filter.groups, filter.keys;
    filter.StartBlock(offset);
    forall index: nat, key | InGroups(groups, keys, index, key)
      ensures InGroups(filter.groups, filter.keys, index, key)
    {
      assert filter.Recorded(index, key);
    }
  }

  method IsEmpty(block: BlockBuilder) returns (empty: bool)
    requires Ready(block)
    ensures empty <==> block.b.pairs == []
  {
    assert BlockOpened(block, 0);
    empty := block.Empty();
  }

  /** Finishes a block, appends it to the file and empties the builder. */
  method WriteBlock(p: Platform, file: Bytes, block: BlockBuilder)
    returns (file': Bytes, h: Handle, ghost contents: Bytes)
    requires Ready(block) && block.CurrentSizeEstimate() < BLOCK_LIMIT
    modifies block
    ensures Ready(block) && block.b.pairs == [] && block.CurrentSizeEstimate() == 8
    ensures BlockIn(contents, old(block.b.pairs))
    ensures file' == file + StoredBlock(p, contents) && h == NextHandle(file, |StoredData(p, contents)|)
  {
    assert BlockOpened(block, 0);
    var raw := block.Finish();
    assert BlockOf(raw, |block.buffer|, block.b, block.offs);
    contents := raw;
    file', h := file + StoredBlock(p, raw), NextHandle(file, |StoredData(p, raw)|);
    block.Reset();
  }

  /** Writes the data block, and lets the filter move on to the offset of the next one. */
  method CutBlock(p: Platform, file: Bytes, data: BlockBuilder, filter: FilterBlockBuilder)
    returns (file': Bytes, h: Handle, ghost contents: Bytes)
    requires Ready(data) && data.CurrentSizeEstimate() < BLOCK_LIMIT
    requires Recording(filter) && |filter.groups| == |file| / FILTER_BASE
    modifies data, filter
    ensures Ready(data) && data.b.pairs == [] && data.CurrentSizeEstimate() == 8
    ensures BlockIn(contents, old(data.b.pairs))
    ensures file' == file + StoredBlock(p, contents) && h == NextHandle(file, |StoredData(p, contents)|)
    ensures Recording(filter) && |filter.groups| == |file'| / FILTER_BASE
    ensures KeepsGroups(old(filter.groups), old(filter.keys), filter.groups, filter.keys)
  {
    file', h, contents := WriteBlock(p, file, data);
    StartFilter(filter, |file'|);
  }

  method FinishFilter(filter: FilterBlockBuilder) returns (contents: Bytes)
    requires Recording(filter) && Lawful(filter.policy)
    modifies filter
    ensures |filter.result| < BLOCK_LIMIT ==> Passes(filter.policy, contents, old(filter.groups), old(filter.keys))
  {
    assert FilterOpened(filter, 0);
    ghost var groups, keys := filter.groups, filter.keys;
    assert forall index: nat, key :: InGroups(groups, keys, index, key) ==> filter.Recorded(index, key);
    contents := filter.Finish();
  }

  /** The metaindex block: the filter's name and handle. */
  method WriteMeta(p: Platform, file: Bytes, interval: nat, name: Bytes, filter: Handle)
    returns (file': Bytes, h: Handle, ghost contents: Bytes)
    requires interval >= 1 && |name| + 64 < BLOCK_LIMIT
    ensures BlockIn(contents, [Pair(name, EncodeHandle(filter))])
    ensures file' == file + StoredBlock(p, contents) && h == NextHandle(file, |StoredData(p, contents)|)
  {
    var meta := NewBlock(interval);
    HandleLength(filter);
    AddPair(meta, name, EncodeHandle(filter));
    file', h, contents := WriteBlock(p, file, meta);
  }

  /** The filter block, the metaindex block, the index block and the footer. */
  method WriteRest(
    p: Platform, file: Bytes, interval: nat, name: Bytes, filter: Bytes, index: BlockBuilder)
    returns (whole: Bytes, ghost metaContents: Bytes, ghost indexContents: Bytes)
    requires interval >= 1 && |name| + 64 < BLOCK_LIMIT && Ready(index) && index.CurrentSizeEstimate() < BLOCK_LIMIT
    modifies index
    ensures BlockIn(metaContents, [Pair(name, EncodeHandle(NextHandle(file, |filter|)))])
    ensures BlockIn(indexContents, old(index.b.pairs))
    ensures whole == WholeFile(p, file, filter, metaContents, indexContents)
  {
    var metaHandle, indexHandle;
    var filterHandle := NextHandle(file, |filter|);
    whole := file + RawBlock(p, filter);
    whole, metaHandle, metaContents := WriteMeta(p, whole, interval, name, filterHandle);
    whole, indexHandle, indexContents := WriteBlock(p, whole, index);
    whole := whole + EncodeFooter(Footer(metaHandle, indexHandle));
  }
}
