/** Internal keys, entries and the seek used by every sorted run. */
module InternalKeys {
  import opened Coding

  /** The rank of a user key under the user's comparator (see module Order). */
  type UserKey = int

  datatype Kind = Deletion | Value
  const MAX_SEQUENCE: nat := 0xFF_FFFF_FFFF_FFFF
  type SequenceNumber = s: int | 0 <= s <= MAX_SEQUENCE

  datatype InternalKey = InternalKey(user: UserKey, seqno: SequenceNumber, kind: Kind)
  datatype Entry = Entry(key: InternalKey, value: Bytes)

  /** The eight-byte tag that follows the user key. */
  function Tag(k: InternalKey): (r: nat) {
    k.seqno * 256 + if k.kind.Value? then 1 else 0
  }

  /** Increasing user key, then decreasing tag. */
  predicate Before(a: InternalKey, b: InternalKey) {
    a.user < b.user || (a.user == b.user && Tag(a) > Tag(b))
  }

  predicate AtMost(a: InternalKey, b: InternalKey) {
    a == b || Before(a, b)
  }

  lemma BeforeIsTotal(a: InternalKey, b: InternalKey)
    ensures a == b || Before(a, b) || Before(b, a)
  {
  }

  /** The internal key a lookup of `user` at snapshot `s` seeks to. */
  function LookupKey(user: UserKey, s: SequenceNumber): (r: InternalKey) {
    InternalKey(user, s, Value)
  }

  ghost predicate Sorted(run: seq<Entry>) {
    forall i, j :: 0 <= i < j < |run| ==> Before(run[i].key, run[j].key)
  }

  ghost function Contents(run: seq<Entry>): (r: set<Entry>) {
    set e | e in run
  }

  /** First position whose key is not before `target`. */
  function SeekIndex(run: seq<Entry>, target: InternalKey): (i: nat)
    ensures i <= |run|
    ensures forall j :: 0 <= j < i ==> Before(run[j].key, target)
    ensures i < |run| ==> !Before(run[i].key, target)
  {
    if run == [] || !Before(run[0].key, target) then 0 else 1 + SeekIndex(run[1..], target)
  }
}
