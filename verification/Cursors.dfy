/** The iterator contract that blocks, tables, memtables and merges share: a cursor on a sorted run. */
module Cursors {
  import opened InternalKeys

  /** `at` ranges from -1 (moved before the first entry) to |run| (moved past the last). */
  datatype Cursor = Cursor(run: seq<Entry>, at: int) {
    predicate Valid() { 0 <= at < |run| }

    predicate InRange() { -1 <= at <= |run| }

    function Current(): (r: Entry)
      requires Valid()
    {
      run[at]
    }

    function Next(): (r: Cursor)
      requires Valid()
    {
      Cursor(run, at + 1)
    }

    function Prev(): (r: Cursor)
      requires Valid()
    {
      Cursor(run, at - 1)
    }

    function Seek(target: InternalKey): (r: Cursor) {
      Cursor(run, SeekIndex(run, target))
    }

    function SeekToFirst(): (r: Cursor) {
      Cursor(run, 0)
    }

    function SeekToLast(): (r: Cursor) {
      Cursor(run, |run| - 1)
    }
  }

  /** In a sorted run the seek splits exactly at the target. */
  lemma SeekSplits(run: seq<Entry>, target: InternalKey)
    requires Sorted(run)
    ensures forall j :: 0 <= j < |run| ==> (j < SeekIndex(run, target) <==> Before(run[j].key, target))
  {
    var i := SeekIndex(run, target);
    forall j | i <= j < |run| ensures !Before(run[j].key, target) {
      assert i == j || Before(run[i].key, run[j].key);
    }
  }
}
