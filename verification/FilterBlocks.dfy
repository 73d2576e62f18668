/** The filter block: one filter per 2 KiB of table offset. */
module FilterBlocks {
  import opened Coding
  import opened WordArrays
  import opened FilterLayout

  const FILTER_BASE_LG: nat := 11
  const FILTER_BASE: nat := 2048

  lemma {:induction false} PosOfPrefix(policy: Policy, groups: seq<seq<Bytes>>, g: seq<Bytes>, i: nat)
    requires i <= |groups|
    ensures Pos(policy, groups + [g], i) == Pos(policy, groups, i)
  {
    if i > 0 {
      PosOfPrefix(policy, groups, g, i - 1);
    }
  }

  lemma LayOneMore(policy: Policy, result: Bytes, offsets: seq<nat>, groups: seq<seq<Bytes>>, g: seq<Bytes>)
    requires Laid(policy, result, offsets, groups)
    ensures Laid(policy, result + FilterOf(policy, g), offsets + [|result|], groups + [g])
  {
    var result', groups' := result + FilterOf(policy, g), groups + [g];
    forall i | 0 <= i <= |groups| ensures Pos(policy, groups', i) == Pos(policy, groups, i) {
      PosOfPrefix(policy, groups, g, i);
    }
    forall i {:trigger Placed(policy, result', groups', i)} | 0 <= i < |groups'|
      ensures Placed(policy, result', groups', i)
    {
      if i < |groups| {
        assert Placed(policy, result, groups, i);
        var from, to := Pos(policy, groups, i), Pos(policy, groups, i + 1);
        PosIncrease(policy, groups, i);
        assert result'[from..to] == result[from..to];
      } else {
        assert result'[|result|..] == FilterOf(policy, g);
      }
    }
  }

  lemma PosIncrease(policy: Policy, groups: seq<seq<Bytes>>, i: nat)
    requires i < |groups|
    ensures Pos(policy, groups, i) <= Pos(policy, groups, i + 1)
  {
  }

  class FilterBlockBuilder {
    const policy: Policy
    var keys: seq<Bytes>
    var result: Bytes
    var filterOffsets: seq<nat>
    ghost var groups: seq<seq<Bytes>>

    constructor (policy: Policy)
      ensures this.policy == policy && Valid() && groups == [] && keys == []
    {
      this.policy := policy;
      keys, result, filterOffsets, groups := [], [], [], [];
    }

    ghost predicate Valid()
      reads this
    {
      Laid(policy, result, filterOffsets, groups)
    }

    /** The key is, or will be, in the filter with the given index. */
    ghost predicate Recorded(index: nat, key: Bytes)
      reads this
    {
      InGroups(groups, keys, index, key)
    }

    method GenerateFilter()
      requires Valid()
      modifies this
      ensures Valid() && keys == [] && groups == old(groups) + [old(keys)]
      ensures forall index: nat, key :: old(Recorded(index, key)) <==> Recorded(index, key)
    {
      LayOneMore(policy, result, filterOffsets, groups, keys);
      filterOffsets := filterOffsets + [|result|];
      groups := groups + [keys];
      if keys != [] {
        result := result + policy.create(keys);
        keys := [];
      } else {
        assert result + [] == result;
      }
    }

    /** Finishes the filters before the one that the block at this offset belongs to. */
    method StartBlock(blockOffset: nat)
      requires Valid() && |filterOffsets| <= blockOffset / FILTER_BASE
      modifies this
      ensures Valid() && |groups| == blockOffset / FILTER_BASE
      ensures forall index: nat, key :: old(Recorded(index, key)) <==> Recorded(index, key)
    {
      var filterIndex := blockOffset / FILTER_BASE;
      while filterIndex > |filterOffsets|
        invariant Valid() && |filterOffsets| <= filterIndex
        invariant forall index: nat, key :: old(Recorded(index, key)) <==> Recorded(index, key)
      {
        GenerateFilter();
      }
    }

    method AddKey(key: Bytes)
      requires Valid()
      modifies this
      ensures Valid() && groups == old(groups) && keys == old(keys) + [key]
      ensures forall index: nat, k :: Recorded(index, k) <==> old(Recorded(index, k)) || (index == |groups| && k == key)
    {
      keys := keys + [key];
    }

    /** The loop of Finish: appends the offsets and the offset of their array. */
    method PutOffsets(ghost encode: nat -> Bytes) returns (contents: Bytes)
      requires forall w: nat :: encode(w) == EncodeFixed32(w % 0x1_0000_0000)
      ensures contents == result + Chunks(encode, filterOffsets + [|result|], |filterOffsets| + 1)
    {
      contents := result;
      ghost var offsets := filterOffsets + [|result|];
      for i := 0 to |filterOffsets|
        invariant contents == result + Chunks(encode, offsets, i)
      {
        assert encode(offsets[i]) == EncodeFixed32(filterOffsets[i] % 0x1_0000_0000);
        contents := contents + EncodeFixed32(filterOffsets[i] % 0x1_0000_0000);
      }
      assert encode(offsets[|filterOffsets|]) == EncodeFixed32(|result| % 0x1_0000_0000);
      contents := contents + EncodeFixed32(|result| % 0x1_0000_0000);
    }

    method Finish() returns (contents: Bytes)
      requires Valid() && Lawful(policy)
      modifies this
      ensures Valid() && (|result| < 0x1_0000_0000 ==>
        forall offset: nat, key ::
          old(Recorded(offset / FILTER_BASE, key)) ==> KeyMayMatch(policy, contents, offset, key))
      ensures groups == old(if keys == [] then groups else groups + [keys]) && Answers(policy, groups, contents)
    {
      if keys != [] {
        GenerateFilter();
      }
      contents := PutOffsets(AsWord());
      contents := contents + [FILTER_BASE_LG];
      if |result| < 0x1_0000_0000 {
        AllRecordedMatch(policy, result, filterOffsets, groups, contents);
      }
      AnswersAll(policy, result, filterOffsets, groups, contents);
    }
  }

  // ---- Reading ----

  function WordAt(contents: Bytes, at: nat): (r: Word)
    requires at + 4 <= |contents|
  {
    DecodeFixed32(contents[at..])
  }

  /** The reader: what it cannot make sense of counts as a match. */
  predicate KeyMayMatch(policy: Policy, contents: Bytes, blockOffset: nat, key: Bytes) {
    var n := |contents|;
    if n < 5 then true
    else
      var base, last := contents[n - 1], WordAt(contents, n - 5);
      if last > n - 5 then true
      else
        var index, num := blockOffset / Pow2(base), (n - 5 - last) / 4;
        if index < num then
          var start, limit := WordAt(contents, last + index * 4), WordAt(contents, last + index * 4 + 4);
          if start <= limit && limit <= last then policy.matches(key, contents[start..limit])
          else start != limit
        else true
  }

  lemma BaseIs2048()
    ensures Pow2(FILTER_BASE_LG) == FILTER_BASE
  {
    assert Pow2(5) == 32 && Pow2(8) == 256;
  }

  /** The path through the reader that asks the policy. */
  lemma AsksPolicy(
    policy: Policy, contents: Bytes, offset: nat, index: nat, key: Bytes, last: nat, num: nat, start: nat, limit: nat)
    requires |contents| == last + num * 4 + 5 && contents[|contents| - 1] == FILTER_BASE_LG
    requires WordAt(contents, last + num * 4) == last
    requires index == offset / FILTER_BASE && index < num
    requires WordAt(contents, last + index * 4) == start && WordAt(contents, last + (index + 1) * 4) == limit
    requires start <= limit <= last
    ensures KeyMayMatch(policy, contents, offset, key) <==> policy.matches(key, contents[start..limit])
  {
    BaseIs2048();
    assert |contents| - 5 == last + num * 4;
    assert last + index * 4 + 4 == last + (index + 1) * 4;
  }

  lemma OffsetAt(result: Bytes, offsets: seq<nat>, contents: Bytes, tail: Bytes, j: nat)
    requires contents == result + Words(offsets) + tail && j < |offsets| && offsets[j] < 0x1_0000_0000
    ensures |result| + j * 4 + 4 <= |contents| && WordAt(contents, |result| + j * 4) == offsets[j]
  {
    ChunkInside(AsWord(), offsets, result, tail, j);
    WordDecodes(contents[|result| + 4 * j..], offsets[j]);
  }

  lemma {:induction false} PosBounded(policy: Policy, groups: seq<seq<Bytes>>, i: nat, j: nat)
    requires i <= j <= |groups|
    ensures Pos(policy, groups, i) <= Pos(policy, groups, j)
    decreases j
  {
    if i < j {
      PosBounded(policy, groups, i, j - 1);
    }
  }

  lemma AllOffsets(policy: Policy, result: Bytes, offsets: seq<nat>, groups: seq<seq<Bytes>>, i: nat)
    requires Laid(policy, result, offsets, groups) && i <= |groups|
    ensures (offsets + [|result|])[i] == Pos(policy, groups, i) <= |result|
  {
    PosBounded(policy, groups, i, |groups|);
  }

  lemma OffsetReads(
    policy: Policy, result: Bytes, offsets: seq<nat>, groups: seq<seq<Bytes>>, contents: Bytes, tail: Bytes, i: nat,
      at: nat)
    requires Laid(policy, result, offsets, groups) && |result| < 0x1_0000_0000 && i <= |groups|
    requires contents == result + Words(offsets + [|result|]) + tail && at == |result| + i * 4
    ensures at + 4 <= |contents| && WordAt(contents, at) == Pos(policy, groups, i)
  {
    AllOffsets(policy, result, offsets, groups, i);
    OffsetAt(result, offsets + [|result|], contents, tail, i);
  }

  lemma FinishedLength(result: Bytes, offsets: seq<nat>, contents: Bytes, tail: Bytes)
    requires |tail| == 1 && contents == result + Words(offsets + [|result|]) + tail
    ensures |contents| == |result| + |offsets| * 4 + 5 && contents[|contents| - 1] == tail[0]
  {
    WordsLength(offsets + [|result|]);
  }

  /** The offset array sends the reader to the filter of group `index`. */
  lemma OffsetsFound(
    policy: Policy, result: Bytes, offsets: seq<nat>, groups: seq<seq<Bytes>>, contents: Bytes, tail: Bytes, index: nat)
    requires Laid(policy, result, offsets, groups) && |result| < 0x1_0000_0000 && index < |groups|
    requires |tail| == 1 && contents == result + Words(offsets + [|result|]) + tail
    ensures |contents| == |result| + |groups| * 4 + 5 && contents[|contents| - 1] == tail[0]
    ensures WordAt(contents, |result| + |groups| * 4) == |result|
    ensures WordAt(contents, |result| + index * 4) == Pos(policy, groups, index)
    ensures WordAt(contents, |result| + (index + 1) * 4) == Pos(policy, groups, index + 1)
  {
    FinishedLength(result, offsets, contents, tail);
    OffsetReads(policy, result, offsets, groups, contents, tail, |groups|, |result| + |groups| * 4);
    OffsetReads(policy, result, offsets, groups, contents, tail, index, |result| + index * 4);
    OffsetReads(policy, result, offsets, groups, contents, tail, index + 1, |result| + (index + 1) * 4);
  }

  lemma FilterFound(
    policy: Policy, result: Bytes, offsets: seq<nat>, groups: seq<seq<Bytes>>, contents: Bytes, rest: Bytes,
      index: nat)
    requires Laid(policy, result, offsets, groups) && index < |groups| && contents == result + rest
    ensures var start, limit := Pos(policy, groups, index), Pos(policy, groups, index + 1);
      start <= limit <= |result| && contents[start..limit] == FilterOf(policy, groups[index])
  {
    assert Placed(policy, result, groups, index);
    PosIncrease(policy, groups, index);
    PrefixSlice(result, rest, contents, Pos(policy, groups, index), Pos(policy, groups, index + 1));
  }

  lemma Regroup(a: Bytes, b: Bytes, c: Bytes)
    ensures a + b + c == a + (b + c)
  {
  }

  /** The reader asks the filter of the offset's group, whichever key it is asked for. */
  lemma AsksGroup(
    policy: Policy, result: Bytes, offsets: seq<nat>, groups: seq<seq<Bytes>>, contents: Bytes, tail: Bytes,
    offset: nat, index: nat, key: Bytes)
    requires Laid(policy, result, offsets, groups) && |result| < 0x1_0000_0000
    requires index == offset / FILTER_BASE && index < |groups|
    requires tail == [FILTER_BASE_LG] && contents == result + Words(offsets + [|result|]) + tail
    ensures KeyMayMatch(policy, contents, offset, key) <==> policy.matches(key, FilterOf(policy, groups[index]))
  {
    var words := Words(offsets + [|result|]);
    Regroup(result, words, tail);
    OffsetsFound(policy, result, offsets, groups, contents, tail, index);
    FilterFound(policy, result, offsets, groups, contents, words + tail, index);
    var start, limit := Pos(policy, groups, index), Pos(policy, groups, index + 1);
    AsksPolicy(policy, contents, offset, index, key, |result|, |groups|, start, limit);
  }

  /** Every recorded key passes the filter of the block it was recorded for. */
  lemma RecordedMatches(
    policy: Policy, result: Bytes, offsets: seq<nat>, groups: seq<seq<Bytes>>, contents: Bytes, tail: Bytes,
    offset: nat, key: Bytes)
    requires Lawful(policy) && Laid(policy, result, offsets, groups) && |result| < 0x1_0000_0000
    requires offset / FILTER_BASE < |groups| && key in groups[offset / FILTER_BASE]
    requires tail == [FILTER_BASE_LG] && contents == result + Words(offsets + [|result|]) + tail
    ensures KeyMayMatch(policy, contents, offset, key)
  {
    var group := groups[offset / FILTER_BASE];
    var i :| 0 <= i < |group| && group[i] == key;
    assert policy.matches(group[i], policy.create(group));
    AsksGroup(policy, result, offsets, groups, contents, tail, offset, offset / FILTER_BASE, key);
  }

  /** What the finished block answers is what the filter of the offset's group answers; past the last group it
      is a match. */
  ghost predicate Answers(policy: Policy, groups: seq<seq<Bytes>>, contents: Bytes) {
    Pos(policy, groups, |groups|) < 0x1_0000_0000 ==>
      forall offset: nat, key ::
        KeyMayMatch(policy, contents, offset, key) <==>
          (offset / FILTER_BASE < |groups| ==>
            policy.matches(key, FilterOf(policy, groups[offset / FILTER_BASE])))
  }

  lemma PastTheEnd(
    policy: Policy, result: Bytes, offsets: seq<nat>, contents: Bytes, tail: Bytes, offset: nat, key: Bytes)
    requires |result| < 0x1_0000_0000 && offset / FILTER_BASE >= |offsets|
    requires tail == [FILTER_BASE_LG] && contents == result + Words(offsets + [|result|]) + tail
    ensures KeyMayMatch(policy, contents, offset, key)
  {
    FinishedLength(result, offsets, contents, tail);
    OffsetAt(result, offsets + [|result|], contents, tail, |offsets|);
    BaseIs2048();
    assert |contents| - 5 == |result| + |offsets| * 4;
  }

  lemma AnswersAll(policy: Policy, result: Bytes, offsets: seq<nat>, groups: seq<seq<Bytes>>, contents: Bytes)
    requires Laid(policy, result, offsets, groups)
    requires contents == result + Words(offsets + [|result|]) + [FILTER_BASE_LG]
    ensures Answers(policy, groups, contents)
  {
    if |result| < 0x1_0000_0000 {
      forall offset: nat, key
        ensures KeyMayMatch(policy, contents, offset, key) <==>
          (offset / FILTER_BASE < |groups| ==> policy.matches(key, FilterOf(policy, groups[offset / FILTER_BASE])))
      {
        if offset / FILTER_BASE < |groups| {
          AsksGroup(policy, result, offsets, groups, contents, [FILTER_BASE_LG], offset, offset / FILTER_BASE, key);
        } else {
          PastTheEnd(policy, result, offsets, contents, [FILTER_BASE_LG], offset, key);
        }
      }
    }
  }

  lemma AllRecordedMatch(policy: Policy, result: Bytes, offsets: seq<nat>, groups: seq<seq<Bytes>>, contents: Bytes)
    requires Lawful(policy) && Laid(policy, result, offsets, groups) && |result| < 0x1_0000_0000
    requires contents == result + Words(offsets + [|result|]) + [FILTER_BASE_LG]
    ensures forall offset: nat, key :: offset / FILTER_BASE < |groups| && key in groups[offset / FILTER_BASE] ==>
      KeyMayMatch(policy, contents, offset, key)
  {
    forall offset: nat, key | offset / FILTER_BASE < |groups| && key in groups[offset / FILTER_BASE]
      ensures KeyMayMatch(policy, contents, offset, key)
    {
      RecordedMatches(policy, result, offsets, groups, contents, [FILTER_BASE_LG], offset, key);
    }
  }

  lemma PrefixSlice(a: Bytes, b: Bytes, c: Bytes, from: nat, to: nat)
    requires c == a + b && from <= to <= |a|
    ensures c[from..to] == a[from..to]
  {
  }
}
