/** Walking a descriptor: the circular field iterator and the record of required fields. */
module ProtoFields {
  import opened Wrappers
  import opened ProtoMessages

  predicate HasTag(fields: seq<Field>, i: int, tag: nat) {
    0 <= i < |fields| && fields[i].tag == tag
  }

  /** The field a key names. */
  function IndexOf(fields: seq<Field>, tag: nat, i: nat): (r: Option<nat>)
    requires i <= |fields|
    ensures r.Some? ==> HasTag(fields, r.value, tag)
    ensures r.None? ==> forall j :: i <= j < |fields| ==> !HasTag(fields, j, tag)
    decreases |fields| - i
  {
    if i == |fields| then None
    else if HasTag(fields, i, tag) then Some(i)
    else IndexOf(fields, tag, i + 1)
  }

  class FieldIter {
    const fields: seq<Field>
    var pos: nat
    var requiredIndex: nat
    var slot: nat

    ghost predicate Valid()
      reads this
    {
      && (if fields == [] then pos == 0 && slot == 0 else pos < |fields| && slot == SlotOf(fields, pos))
      && requiredIndex == RequiredBefore(fields, pos)
    }

    constructor (fields: seq<Field>)
      ensures Valid() && this.fields == fields && pos == 0
    {
      this.fields, pos, requiredIndex, slot := fields, 0, 0, 0;
    }

    /** Moves to the next field, or back to the first one and says so. */
    method Next() returns (more: bool)
      requires Valid()
      modifies this
      ensures Valid()
      ensures more == (old(pos) + 1 < |fields|)
      ensures pos == if more then old(pos) + 1 else 0
    {
      if fields == [] {
        return false;
      }
      if pos + 1 == |fields| {
        pos, requiredIndex, slot := 0, 0, 0;
        return false;
      }
      var previous := fields[pos];
      pos := pos + 1;
      if previous.htype.Oneof? && fields[pos].htype == Oneof(true) {
        return true;
      }
      if previous.htype.Required? {
        requiredIndex := requiredIndex + 1;
      }
      slot := slot + 1;
      return true;
    }

    /**
     * Searches once around, from wherever the iterator stands. An empty descriptor's
     * terminator carries tag zero, so a search for tag zero stops there.
     */
    method Find(tag: nat) returns (found: bool)
      requires Valid()
      modifies this
      ensures Valid()
      ensures fields == [] ==> (found <==> tag == 0)
      ensures fields != [] ==> (found <==> exists i :: HasTag(fields, i, tag))
      ensures found && fields != [] ==> HasTag(fields, pos, tag)
      ensures !found ==> pos == old(pos)
    {
      if fields == [] {
        return tag == 0;
      }
      var start := pos;
      if fields[pos].tag == tag {
        assert HasTag(fields, pos, tag);
        return true;
      }
      var _ := Next();
      while pos != start
        invariant Valid()
        invariant pos > start ==> forall i :: start <= i < pos ==> !HasTag(fields, i, tag)
        invariant pos <= start ==> forall i :: 0 <= i < pos || start <= i ==> !HasTag(fields, i, tag)
        decreases if pos > start then |fields| - pos + start + 1 else start - pos
      {
        if fields[pos].tag == tag {
          assert HasTag(fields, pos, tag);
          return true;
        }
        var _ := Next();
      }
      return false;
    }

    /** Runs to the end of the descriptor to learn how many fields are required. */
    method CountRequired() returns (count: nat)
      requires Valid()
      modifies this
      ensures count == RequiredBefore(fields, |fields|)
    {
      if fields == [] {
        return 0;
      }
      var more := true;
      var last := pos;
      count := requiredIndex;
      while more
        invariant Valid() && last < |fields| && count == RequiredBefore(fields, last)
        invariant if more then pos == last else last == |fields| - 1
        decreases |fields| - last, more
      {
        count, last := requiredIndex, pos;
        more := Next();
        if more {
          count, last := requiredIndex, pos;
        }
      }
      if fields[last].htype.Required? {
        count := count + 1;
      }
    }
  }

  // ---- Required fields ----

  /** A machine word by its bits, least significant first. */
  type Bits = w: seq<bool> | |w| == 32 witness seq(32, _ => false)

  function Set(word: Bits, i: nat): (r: Bits)
    requires i < 32
  {
    word[i := true]
  }

  /** The word with its low `n` bits set. */
  function Ones(n: nat): (r: Bits)
    requires n <= 32
  {
    seq(32, i => i < n)
  }

  predicate Bit(seen: seq<Bits>, r: nat)
    requires |seen| == 2
  {
    r < MAX_REQUIRED && seen[r / 32][r % 32]
  }

  method Mark(seen: seq<Bits>, index: nat) returns (marked: seq<Bits>)
    requires |seen| == 2 && index < MAX_REQUIRED
    ensures |marked| == 2
    ensures forall r: nat :: Bit(marked, r) <==> r == index || Bit(seen, r)
  {
    marked := seen[index / 32 := Set(seen[index / 32], index % 32)];
    forall r: nat
      ensures Bit(marked, r) <==> r == index || Bit(seen, r)
    {
      assert r / 32 == index / 32 && r % 32 == index % 32 ==> r == index;
    }
  }

  /** Compares whole words with all ones and the remainder with as many ones as are left. */
  method CheckSeen(seen: seq<Bits>, required: nat) returns (complete: bool)
    requires |seen| == 2
    requires forall r: nat :: required <= r ==> !Bit(seen, r)
    ensures complete <==> forall r: nat :: r < required && r < MAX_REQUIRED ==> Bit(seen, r)
  {
    var count := if required > MAX_REQUIRED then MAX_REQUIRED else required;
    var i := 0;
    while i < count / 32
      invariant i <= count / 32
      invariant forall r: nat :: r < 32 * i ==> Bit(seen, r)
    {
      if seen[i] != Ones(32) {
        WordDiffers(seen, i, 32);
        return false;
      }
      WordAgrees(seen, i, 32);
      i := i + 1;
    }
    if count % 32 != 0 {
      if seen[i] != Ones(count % 32) {
        WordDiffers(seen, i, count % 32);
        return false;
      }
      WordAgrees(seen, i, count % 32);
    }
    return true;
  }

  lemma WordAgrees(seen: seq<Bits>, i: nat, n: nat)
    requires |seen| == 2 && i < 2 && n <= 32 && seen[i] == Ones(n)
    ensures forall r: nat :: 32 * i <= r < 32 * i + n ==> Bit(seen, r)
  {
    forall r: nat | 32 * i <= r < 32 * i + n
      ensures Bit(seen, r)
    {
      assert r / 32 == i && r % 32 < n;
    }
  }

  lemma WordDiffers(seen: seq<Bits>, i: nat, n: nat)
    requires |seen| == 2 && i < 2 && n <= 32 && seen[i] != Ones(n)
    requires forall r: nat :: 32 * i + n <= r < 32 * i + 32 ==> !Bit(seen, r)
    ensures exists r: nat :: 32 * i <= r < 32 * i + n && !Bit(seen, r)
  {
    var k :| 0 <= k < 32 && seen[i][k] != Ones(n)[k];
    var r := 32 * i + k;
    assert r / 32 == i && r % 32 == k;
    assert Bit(seen, r) == seen[i][k];
  }

  /** Every place among the required fields is held by one of them. */
  lemma {:induction false} RequiredAt(fields: seq<Field>, n: nat, r: nat) returns (i: nat)
    requires n <= |fields| && r < RequiredBefore(fields, n)
    ensures i < n && fields[i].htype.Required? && RequiredBefore(fields, i) == r
  {
    if r == RequiredBefore(fields, n - 1) {
      i := n - 1;
    } else {
      i := RequiredAt(fields, n - 1, r);
    }
  }
}
