/** Filter policies, and filters laid out one after the other. */
module FilterLayout {
  import opened Coding
  import opened WordArrays

  datatype Policy = Policy(create: seq<Bytes> -> Bytes, matches: (Bytes, Bytes) -> bool)

  /** A filter accepts the keys it was created from (module Bloom proves it of its policy). */
  ghost predicate Lawful(policy: Policy) {
    forall keys, i :: 0 <= i < |keys| ==> policy.matches(keys[i], policy.create(keys))
  }

  function FilterOf(policy: Policy, keys: seq<Bytes>): (r: Bytes) {
    if keys == [] then [] else policy.create(keys)
  }

  /** Where the filter of group `i` starts. */
  ghost function Pos(policy: Policy, groups: seq<seq<Bytes>>, i: nat): (r: nat)
    requires i <= |groups|
  {
    if i == 0 then 0 else Pos(policy, groups, i - 1) + |FilterOf(policy, groups[i - 1])|
  }

  ghost predicate Placed(policy: Policy, result: Bytes, groups: seq<seq<Bytes>>, i: nat)
    requires i < |groups|
  {
    var from, to := Pos(policy, groups, i), Pos(policy, groups, i + 1);
    to <= |result| && result[from..to] == FilterOf(policy, groups[i])
  }

  /** The filters of all groups, one after the other, and their offsets. */
  ghost predicate Laid(policy: Policy, result: Bytes, offsets: seq<nat>, groups: seq<seq<Bytes>>) {
    && |offsets| == |groups| && |result| == Pos(policy, groups, |groups|)
    && (forall i {:trigger Placed(policy, result, groups, i)} ::
          0 <= i < |groups| ==> Placed(policy, result, groups, i))
    && (forall i {:trigger offsets[i]} :: 0 <= i < |groups| ==> offsets[i] == Pos(policy, groups, i))
  }

  /** The key is in a finished group, or among the keys of the group being filled. */
  ghost predicate InGroups(groups: seq<seq<Bytes>>, keys: seq<Bytes>, index: nat, key: Bytes) {
    (index < |groups| && key in groups[index]) || (index == |groups| && key in keys)
  }

  /** No recorded key is lost or moved to another group. */
  ghost predicate KeepsGroups(
    groups: seq<seq<Bytes>>, keys: seq<Bytes>, groups': seq<seq<Bytes>>, keys': seq<Bytes>) {
    forall index: nat, key :: InGroups(groups, keys, index, key) ==> InGroups(groups', keys', index, key)
  }
}
