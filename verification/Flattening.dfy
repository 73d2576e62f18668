/** Sequences of blocks and the positions of their elements in the concatenation. */
module Flattening {
  ghost function Flatten<T>(blocks: seq<seq<T>>): (r: seq<T>) {
    if blocks == [] then [] else Flatten(blocks[..|blocks| - 1]) + blocks[|blocks| - 1]
  }

  /** Where block `i` starts in the concatenation. */
  ghost function Offset<T>(blocks: seq<seq<T>>, i: nat): (r: nat)
    requires i <= |blocks|
  {
    |Flatten(blocks[..i])|
  }

  lemma NextOffset<T>(blocks: seq<seq<T>>, i: nat)
    requires i < |blocks|
    ensures Offset(blocks, i + 1) == Offset(blocks, i) + |blocks[i]|
  {
    assert blocks[..i + 1][..i] == blocks[..i];
  }

  lemma LastOffset<T>(blocks: seq<seq<T>>)
    ensures Offset(blocks, |blocks|) == |Flatten(blocks)|
  {
    assert blocks[..|blocks|] == blocks;
  }

  lemma {:induction false} OffsetWithin<T>(blocks: seq<seq<T>>, i: nat)
    requires i <= |blocks|
    ensures Offset(blocks, i) <= |Flatten(blocks)| && Flatten(blocks[..i]) == Flatten(blocks)[..Offset(blocks, i)]
    decreases |blocks| - i
  {
    if i == |blocks| {
      LastOffset(blocks);
      assert blocks[..i] == blocks;
    } else {
      OffsetWithin(blocks, i + 1);
      NextOffset(blocks, i);
      assert blocks[..i + 1][..i] == blocks[..i];
    }
  }

  lemma EntryAt<T>(blocks: seq<seq<T>>, i: nat, p: nat)
    requires i < |blocks| && p < |blocks[i]|
    ensures Offset(blocks, i) + p < |Flatten(blocks)| && Flatten(blocks)[Offset(blocks, i) + p] == blocks[i][p]
  {
    OffsetWithin(blocks, i + 1);
    NextOffset(blocks, i);
    assert blocks[..i + 1][..i] == blocks[..i];
    assert Flatten(blocks[..i + 1]) == Flatten(blocks[..i]) + blocks[i];
    assert Flatten(blocks[..i + 1])[Offset(blocks, i) + p] == blocks[i][p];
  }

  /** Every position of the concatenation lies in some block. */
  lemma {:induction false} Locate<T>(blocks: seq<seq<T>>, g: nat) returns (i: nat, p: nat)
    requires g < |Flatten(blocks)|
    ensures i < |blocks| && p < |blocks[i]| && g == Offset(blocks, i) + p
  {
    var last := |blocks| - 1;
    LastOffset(blocks);
    NextOffset(blocks, last);
    if g >= Offset(blocks, last) {
      i, p := last, g - Offset(blocks, last);
    } else {
      i, p := Locate(blocks[..last], g);
      assert blocks[..last][..i] == blocks[..i];
    }
  }

  lemma {:induction false} OffsetsIncrease<T>(blocks: seq<seq<T>>, i: nat, j: nat)
    requires i <= j <= |blocks|
    ensures Offset(blocks, i) <= Offset(blocks, j)
    decreases j - i
  {
    if i < j {
      NextOffset(blocks, i);
      OffsetsIncrease(blocks, i + 1, j);
    }
  }
}
