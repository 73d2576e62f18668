/** The two-level iterator: an index cursor and one open data block act as a cursor on the
  * concatenation of all blocks, empty blocks included. */
module TwoLevelIterators {
  import opened InternalKeys
  import opened FlatStore
  import opened Wrappers
  import opened Cursors
  import opened Flattening

  datatype IndexEntry = IndexEntry(key: InternalKey, handle: nat)

  /** First index entry whose key is not before the target. */
  function IndexSeek(index: seq<IndexEntry>, target: InternalKey): (i: nat)
    ensures i <= |index|
    ensures forall j :: 0 <= j < i ==> Before(index[j].key, target)
    ensures i < |index| ==> !Before(index[i].key, target)
  {
    if index == [] || !Before(index[0].key, target) then 0 else 1 + IndexSeek(index[1..], target)
  }

  ghost function Blocks(index: seq<IndexEntry>, block: nat -> seq<Entry>): (r: seq<seq<Entry>>) {
    seq(|index|, i requires 0 <= i < |index| => block(index[i].handle))
  }

  /** An index key bounds its own block from above and all later blocks from below. */
  ghost predicate Separated(index: seq<IndexEntry>, blocks: seq<seq<Entry>>) {
    && |blocks| == |index|
    && (forall i, p :: 0 <= i < |blocks| && 0 <= p < |blocks[i]| ==> AtMost(blocks[i][p].key, index[i].key))
    && forall i, j, p :: 0 <= i < j < |blocks| && 0 <= p < |blocks[j]| ==> Before(index[i].key, blocks[j][p].key)
  }

  lemma SeekIndexIs(run: seq<Entry>, target: InternalKey, g: nat)
    requires g <= |run| && (forall j :: 0 <= j < g ==> Before(run[j].key, target))
      && (g < |run| ==> !Before(run[g].key, target))
    ensures SeekIndex(run, target) == g
  {
  }

  /** An entry of a block the index passes over is before the target. */
  lemma PassedOver(index: seq<IndexEntry>, blocks: seq<seq<Entry>>, target: InternalKey, j: nat, p: nat)
    requires Separated(index, blocks) && j < IndexSeek(index, target) && p < |blocks[j]|
    ensures Before(blocks[j][p].key, target)
  {
    assert AtMost(blocks[j][p].key, index[j].key) && Before(index[j].key, target);
  }

  /** An entry of a block after the one the index picks is not before the target. */
  lemma NotReached(index: seq<IndexEntry>, blocks: seq<seq<Entry>>, target: InternalKey, j: nat, p: nat)
    requires Separated(index, blocks) && IndexSeek(index, target) < j < |blocks| && p < |blocks[j]|
    ensures !Before(blocks[j][p].key, target)
  {
    var i := IndexSeek(index, target);
    assert Before(index[i].key, blocks[j][p].key) && !Before(index[i].key, target);
  }

  ghost function SeekPosition(index: seq<IndexEntry>, blocks: seq<seq<Entry>>, target: InternalKey): (r: nat)
    requires |index| == |blocks|
  {
    var i := IndexSeek(index, target);
    if i < |blocks| then Offset(blocks, i) + SeekIndex(blocks[i], target) else |Flatten(blocks)|
  }

  lemma SideOfSeek(index: seq<IndexEntry>, blocks: seq<seq<Entry>>, target: InternalKey, k: nat)
    requires Separated(index, blocks) && k < |Flatten(blocks)|
    ensures k < SeekPosition(index, blocks, target) ==> Before(Flatten(blocks)[k].key, target)
    ensures k == SeekPosition(index, blocks, target) ==> !Before(Flatten(blocks)[k].key, target)
  {
    var i := IndexSeek(index, target);
    var j, p := Locate(blocks, k);
    EntryAt(blocks, j, p);
    NextOffset(blocks, j);
    if j < i {
      OffsetsIncrease(blocks, j + 1, i);
      PassedOver(index, blocks, target, j, p);
    } else if j > i {
      NextOffset(blocks, i);
      OffsetsIncrease(blocks, i + 1, j);
      NotReached(index, blocks, target, j, p);
    }
  }

  /** Seeking the one block that the index picks is seeking the whole concatenation. */
  lemma SeekLands(index: seq<IndexEntry>, blocks: seq<seq<Entry>>, target: InternalKey)
    requires Separated(index, blocks)
    ensures SeekIndex(Flatten(blocks), target) == SeekPosition(index, blocks, target)
  {
    var i, g := IndexSeek(index, target), SeekPosition(index, blocks, target);
    if i < |blocks| {
      NextOffset(blocks, i);
      OffsetWithin(blocks, i + 1);
    }
    forall k | 0 <= k < |Flatten(blocks)|
      ensures k < g ==> Before(Flatten(blocks)[k].key, target)
      ensures k == g ==> !Before(Flatten(blocks)[k].key, target)
    {
      SideOfSeek(index, blocks, target, k);
    }
    SeekIndexIs(Flatten(blocks), target, g);
  }

  class TwoLevelIterator {
    const index: seq<IndexEntry>
    const block: nat -> seq<Entry>
    ghost const blocks: seq<seq<Entry>>
    var indexAt: int
    var data: Option<Cursor>
    var handle: nat

    constructor (index: seq<IndexEntry>, block: nat -> seq<Entry>)
      ensures this.index == index && this.block == block
      ensures Consistent() && Here() == None
    {
      this.index, this.block := index, block;
      blocks := Blocks(index, block);
      indexAt, data, handle := -1, None, 0;
    }

    predicate IndexValid()
      reads this
    {
      0 <= indexAt < |index|
    }

    predicate Valid()
      reads this
    {
      data.Some? && data.value.Valid()
    }

    /** The open block is the one the index cursor points to. */
    ghost predicate Opened()
      reads this
    {
      && blocks == Blocks(index, block)
      && (data.Some? ==>
            IndexValid() && handle == index[indexAt].handle && data.value.run == blocks[indexAt]
              && data.value.InRange())
    }

    /** A retained block is the one its handle names. */
    ghost predicate Retained()
      reads this
    {
      blocks == Blocks(index, block) && (data.Some? ==> data.value.run == block(handle))
    }

    ghost predicate Consistent()
      reads this
    {
      Opened() && (data.Some? ==> data.value.Valid())
    }

    /** The position in the concatenation of all blocks. */
    ghost function Here(): (r: Option<nat>)
      requires Opened()
      reads this
    {
      if Valid() then Some(Offset(blocks, indexAt) + data.value.at) else None
    }

    method SetDataIterator(iter: Option<Cursor>)
      modifies this`data
      ensures data == iter
    {
      data := iter;
    }

    /** Opens the block under the index cursor, or keeps it if it is open already. */
    method InitDataBlock()
      requires Retained()
      modifies this`data, this`handle
      ensures data.Some? == IndexValid()
      ensures data.Some? ==> handle == index[indexAt].handle && data.value.run == blocks[indexAt]
    {
      if !IndexValid() {
        SetDataIterator(None);
      } else {
        var wanted := index[indexAt].handle;
        if data.Some? && wanted == handle {
        } else {
          handle := wanted;
          SetDataIterator(Some(Cursor(block(wanted), -1)));
        }
      }
    }

    method SkipEmptyDataBlocksForward(ghost g: nat)
      requires Opened() && (data.None? ==> !IndexValid())
      requires g == if data.Some? then Offset(blocks, indexAt) + data.value.at else |Flatten(blocks)|
      requires data.Some? ==> 0 <= data.value.at
      modifies this
      ensures Consistent() && Here() == if g < |Flatten(blocks)| then Some(g) else None
    {
      while data.None? || !data.value.Valid()
        invariant Opened() && (data.None? ==> !IndexValid())
        invariant g == if data.Some? then Offset(blocks, indexAt) + data.value.at else |Flatten(blocks)|
        invariant data.Some? ==> 0 <= data.value.at
        decreases if data.Some? then |index| - indexAt else 0
      {
        if !IndexValid() {
          SetDataIterator(None);
          return;
        }
        NextOffset(blocks, indexAt);
        indexAt := indexAt + 1;
        InitDataBlock();
        if data.Some? {
          data := Some(data.value.SeekToFirst());
        } else {
          LastOffset(blocks);
        }
      }
      EntryAt(blocks, indexAt, data.value.at);
    }

    method SkipEmptyDataBlocksBackward(ghost g: int)
      requires Opened() && (data.None? ==> !IndexValid())
      requires g == if data.Some? then Offset(blocks, indexAt) + data.value.at else -1
      requires data.Some? ==> data.value.at < |data.value.run|
      modifies this
      ensures Consistent() && Here() == if g >= 0 then Some(g) else None
    {
      while data.None? || !data.value.Valid()
        invariant Opened() && (data.None? ==> !IndexValid())
        invariant g == if data.Some? then Offset(blocks, indexAt) + data.value.at else -1
        invariant data.Some? ==> data.value.at < |data.value.run|
        decreases if data.Some? then indexAt + 1 else 0
      {
        if !IndexValid() {
          SetDataIterator(None);
          return;
        }
        indexAt := indexAt - 1;
        InitDataBlock();
        if data.Some? {
          NextOffset(blocks, indexAt);
          data := Some(data.value.SeekToLast());
        }
      }
    }

    method SeekToFirst()
      requires Consistent()
      modifies this
      ensures Consistent() && Here() == if |Flatten(blocks)| > 0 then Some(0) else None
    {
      indexAt := 0;
      InitDataBlock();
      if data.Some? { data := Some(data.value.SeekToFirst()); }
      SkipEmptyDataBlocksForward(0);
    }

    method SeekToLast()
      requires Consistent()
      modifies this
      ensures Consistent() && Here() == if |Flatten(blocks)| > 0 then Some(|Flatten(blocks)| - 1) else None
    {
      indexAt := |index| - 1;
      InitDataBlock();
      LastOffset(blocks);
      if data.Some? {
        NextOffset(blocks, indexAt);
        data := Some(data.value.SeekToLast());
      }
      SkipEmptyDataBlocksBackward(|Flatten(blocks)| - 1);
    }

    method Next()
      requires Consistent() && Valid()
      modifies this
      ensures Consistent()
      ensures Here() == if old(Here()).value + 1 < |Flatten(blocks)| then Some(old(Here()).value + 1) else None
    {
      ghost var g := Here().value + 1;
      data := Some(data.value.Next());
      SkipEmptyDataBlocksForward(g);
    }

    method Prev()
      requires Consistent() && Valid()
      modifies this
      ensures Consistent()
      ensures Here() == if old(Here()).value > 0 then Some(old(Here()).value - 1) else None
    {
      ghost var g := Here().value - 1;
      data := Some(data.value.Prev());
      SkipEmptyDataBlocksBackward(g);
    }

    /** The entry under the iterator is the one at its position in the concatenation. */
    method CurrentEntry() returns (e: Entry)
      requires Consistent() && Valid()
      ensures Here().value < |Flatten(blocks)| && e == Flatten(blocks)[Here().value]
    {
      EntryAt(blocks, indexAt, data.value.at);
      e := data.value.Current();
    }

    method Seek(target: InternalKey)
      requires Consistent() && Separated(index, blocks)
      modifies this
      ensures Consistent()
      ensures Here() == var g := SeekIndex(Flatten(blocks), target); if g < |Flatten(blocks)| then Some(g) else None
    {
      indexAt := IndexSeek(index, target);
      InitDataBlock();
      if data.Some? { data := Some(data.value.Seek(target)); }
      SeekLands(index, blocks, target);
      SkipEmptyDataBlocksForward(SeekIndex(Flatten(blocks), target));
    }
  }
}
