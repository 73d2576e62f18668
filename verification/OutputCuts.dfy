/** Where a compaction ends one output table and starts the next. */
module OutputCuts {
  import opened InternalKeys
  import opened Levels

  /** The limits on a table: the bytes two levels down that it may meet, and its own size while it is built. */
  datatype Limits = Limits(maxGrandparentBytes: nat, maxOutputSize: nat, fileSize: seq<Entry> -> nat)

  /** The number of bytes in the first `n` files. */
  function SizeOfFirst(files: seq<File>, n: nat): (r: nat)
    requires n <= |files|
  {
    TotalFileSize(files[..n])
  }

  lemma {:induction false} SizesGrow(files: seq<File>, m: nat, n: nat)
    requires m <= n <= |files|
    ensures SizeOfFirst(files, m) <= SizeOfFirst(files, n)
  {
    if m < n {
      SizesGrow(files, m, n - 1);
      OneMoreSize(files, n - 1);
    }
  }

  /** What a compaction remembers of the grandparents: the first that may still meet a key, whether a key was
      seen, and the bytes passed since the last stop. */
  datatype Watch = Watch(index: nat, seen: bool, bytes: nat)

  /** Looking at `key` passes the grandparents that end before it, and stops if that makes too many bytes. */
  ghost predicate Looked(
    grandparents: seq<File>, maxBytes: nat, w: Watch, key: InternalKey, stop: bool, w': Watch)
  {
    && w.index <= w'.index <= |grandparents| && w'.seen
    && (forall m :: w.index <= m < w'.index ==> Before(grandparents[m].largest, key))
    && (w'.index < |grandparents| ==> !Before(grandparents[w'.index].largest, key))
    && var passed := SizeOfFirst(grandparents, w'.index) - SizeOfFirst(grandparents, w.index);
    && var bytes := w.bytes + if w.seen then passed else 0;
    && stop == (bytes > maxBytes) && w'.bytes == if stop then 0 else bytes
  }

  // ---- What the cuts promise ----

  /** The file's range meets that of the entries. */
  predicate Meets(f: File, entries: seq<Entry>)
    requires entries != []
  {
    !Before(f.largest, entries[0].key) && !Before(entries[|entries| - 1].key, f.smallest)
  }

  /** The files from `a` to `b` are all that meet the entries, and those before `b` are at most `maxBytes`. */
  ghost predicate MeetsWithin(files: seq<File>, maxBytes: nat, entries: seq<Entry>, a: nat, b: nat) {
    && entries != [] && a <= b <= |files| && SizeOfFirst(files, b) <= SizeOfFirst(files, a) + maxBytes
    && forall m :: 0 <= m < |files| && Meets(files[m], entries) ==> a <= m <= b
  }

  /** But for the last of them, the files that meet the entries total at most `maxBytes`. */
  ghost predicate MeetsFew(files: seq<File>, maxBytes: nat, entries: seq<Entry>) {
    exists a, b :: MeetsWithin(files, maxBytes, entries, a, b)
  }

  /** The table was not full before its last entry. */
  ghost predicate NotOverfull(limits: Limits, entries: seq<Entry>) {
    forall k :: 0 < k < |entries| ==> limits.fileSize(entries[..k]) < limits.maxOutputSize
  }

  ghost predicate WellCut(grandparents: seq<File>, limits: Limits, entries: seq<Entry>) {
    MeetsFew(grandparents, limits.maxGrandparentBytes, entries) && NotOverfull(limits, entries)
  }

  /** How many of the tables were ended before they were full. */
  function CountShort(outputs: seq<File>, limits: Limits): (r: nat) {
    if outputs == [] then 0
    else
      CountShort(outputs[..|outputs| - 1], limits)
      + if limits.fileSize(outputs[|outputs| - 1].entries) < limits.maxOutputSize then 1 else 0
  }

  // ---- While the loop runs ----

  /** After the first `i` keys: `from` is the first grandparent that may meet the open table. */
  ghost predicate Watching(
    grandparents: seq<File>, maxBytes: nat, w: Watch, input: seq<Entry>, i: nat, builder: seq<Entry>, from: nat)
  {
    && w.index <= |grandparents| && w.bytes <= maxBytes && i <= |input|
    && (if i == 0 then w == Watch(0, false, 0) && builder == []
        else w.seen && Stands(grandparents, w.index, input[i - 1].key))
    && (builder != [] ==>
          && i > 0 && AtMost(builder[|builder| - 1].key, input[i - 1].key)
          && PassedSince(grandparents, from, w.index, w.bytes, builder[0].key))
  }

  /** The grandparents before `n` end before the key, and the next does not. */
  ghost predicate Stands(grandparents: seq<File>, n: nat, key: InternalKey) {
    && n <= |grandparents|
    && (forall m :: 0 <= m < n ==> Before(grandparents[m].largest, key))
    && (n < |grandparents| ==> !Before(grandparents[n].largest, key))
  }

  /** The grandparents before `from` end before the key, and those from there to `to` total at most `bytes`. */
  ghost predicate PassedSince(grandparents: seq<File>, from: nat, to: nat, bytes: nat, key: InternalKey) {
    && from <= to <= |grandparents| && SizeOfFirst(grandparents, to) <= SizeOfFirst(grandparents, from) + bytes
    && forall m :: 0 <= m < from ==> Before(grandparents[m].largest, key)
  }

  lemma BeforeChains(a: InternalKey, b: InternalKey, c: InternalKey)
    requires (Before(a, b) && AtMost(b, c)) || (AtMost(a, b) && Before(b, c))
    ensures Before(a, c)
  {
  }

  lemma LookAhead(
    grandparents: seq<File>, maxBytes: nat, w: Watch, input: seq<Entry>, i: nat, builder: seq<Entry>, from: nat,
    stop: bool, w': Watch)
    requires Sorted(input) && i < |input| && Watching(grandparents, maxBytes, w, input, i, builder, from)
    requires Looked(grandparents, maxBytes, w, input[i].key, stop, w')
    ensures stop ==> Watching(grandparents, maxBytes, w', input, i + 1, [], from)
    ensures !stop ==> Watching(grandparents, maxBytes, w', input, i + 1, builder, from)
  {
    var key := input[i].key;
    if i > 0 {
      assert Before(input[i - 1].key, key);
      forall m | 0 <= m < w.index ensures Before(grandparents[m].largest, key) {
        BeforeChains(grandparents[m].largest, input[i - 1].key, key);
      }
      if builder != [] {
        BeforeChains(builder[|builder| - 1].key, input[i - 1].key, key);
      }
    }
    assert Stands(grandparents, w'.index, key);
  }

  /** An entry that opens a table meets no grandparent that was passed. */
  lemma OpensTable(
    grandparents: seq<File>, maxBytes: nat, w: Watch, input: seq<Entry>, i: nat)
    requires i < |input| && Watching(grandparents, maxBytes, w, input, i + 1, [], 0)
    ensures Watching(grandparents, maxBytes, w, input, i + 1, [input[i]], w.index)
  {
  }

  lemma AddsEntry(
    grandparents: seq<File>, maxBytes: nat, w: Watch, input: seq<Entry>, i: nat, builder: seq<Entry>, from: nat)
    requires i < |input| && builder != [] && Watching(grandparents, maxBytes, w, input, i + 1, builder, from)
    ensures Watching(grandparents, maxBytes, w, input, i + 1, builder + [input[i]], from)
  {
  }

  /** A table that is ended meets few grandparents. */
  lemma EndsTable(
    grandparents: seq<File>, maxBytes: nat, w: Watch, input: seq<Entry>, i: nat, builder: seq<Entry>, from: nat)
    requires SortedDisjoint(grandparents) && builder != []
    requires Watching(grandparents, maxBytes, w, input, i, builder, from)
    ensures MeetsFew(grandparents, maxBytes, builder)
  {
    var last := builder[|builder| - 1].key;
    forall m | 0 <= m < |grandparents| && Meets(grandparents[m], builder)
      ensures from <= m <= w.index
    {
      if m > w.index {
        var g := grandparents[w.index];
        assert AtMost(last, g.largest) by {
          BeforeIsTotal(g.largest, last);
          if Before(g.largest, last) {
            BeforeChains(g.largest, last, input[i - 1].key);
          }
        }
        BeforeChains(last, g.largest, grandparents[m].smallest);
      }
    }
    assert MeetsWithin(grandparents, maxBytes, builder, from, w.index);
  }

  /** Every stop has used up more than `maxGrandparentBytes` of the grandparents passed. */
  ghost predicate Paid(grandparents: seq<File>, limits: Limits, w: Watch, outputs: seq<File>, stops: nat) {
    && CountShort(outputs, limits) <= stops && w.index <= |grandparents|
    && stops * (limits.maxGrandparentBytes + 1) + w.bytes <= SizeOfFirst(grandparents, w.index)
  }

  lemma LookPays(
    grandparents: seq<File>, limits: Limits, w: Watch, key: InternalKey, stop: bool, w': Watch, outputs: seq<File>,
    stops: nat)
    requires Paid(grandparents, limits, w, outputs, stops)
    requires Looked(grandparents, limits.maxGrandparentBytes, w, key, stop, w')
    ensures Paid(grandparents, limits, w', outputs, if stop then stops + 1 else stops)
    ensures stop ==> CountShort(outputs, limits) < stops + 1
  {
    SizesGrow(grandparents, w.index, w'.index);
    assert (stops + 1) * (limits.maxGrandparentBytes + 1)
        == stops * (limits.maxGrandparentBytes + 1) + limits.maxGrandparentBytes + 1;
  }

  lemma OneMoreTable(outputs: seq<File>, limits: Limits, f: File)
    ensures CountShort(outputs + [f], limits)
         == CountShort(outputs, limits) + if limits.fileSize(f.entries) < limits.maxOutputSize then 1 else 0
  {
    assert (outputs + [f])[..|outputs|] == outputs;
  }

  /** Apart from the last table, a table is ended early only for more than `maxGrandparentBytes` of its own. */
  ghost predicate FewShort(grandparents: seq<File>, limits: Limits, outputs: seq<File>) {
    CountShort(outputs, limits) > 0 ==>
      (CountShort(outputs, limits) - 1) * (limits.maxGrandparentBytes + 1) <= TotalFileSize(grandparents)
  }

  lemma {:induction false} TimesGrows(a: nat, b: nat, unit: nat)
    requires a <= b
    ensures a * unit <= b * unit
  {
    if a < b {
      TimesGrows(a, b - 1, unit);
    }
  }

  lemma AllPaid(
    grandparents: seq<File>, limits: Limits, w: Watch, outputs: seq<File>, stops: nat, final: seq<File>)
    requires Paid(grandparents, limits, w, outputs, stops)
    requires CountShort(final, limits) <= CountShort(outputs, limits) + 1
    ensures FewShort(grandparents, limits, final)
  {
    SizesGrow(grandparents, w.index, |grandparents|);
    assert grandparents[..|grandparents|] == grandparents;
    if CountShort(final, limits) > 0 {
      TimesGrows(CountShort(final, limits) - 1, stops, limits.maxGrandparentBytes + 1);
    }
  }

  // ---- The loop ----

  /** The open table is ended if `cut`, unless it is empty. */
  ghost predicate Ends(
    cut: bool, outputs: seq<File>, builder: seq<Entry>, outputs': seq<File>, builder': seq<Entry>)
  {
    && builder' == (if cut then [] else builder)
    && if cut && builder != [] then
         |outputs'| == |outputs| + 1 && outputs' == outputs + [outputs'[|outputs|]]
         && outputs'[|outputs|].entries == builder
       else outputs' == outputs
  }

  ghost predicate AllWellCut(grandparents: seq<File>, limits: Limits, outputs: seq<File>) {
    forall f :: f in outputs ==> WellCut(grandparents, limits, f.entries)
  }

  ghost predicate Growing(limits: Limits, builder: seq<Entry>) {
    forall k :: 0 < k <= |builder| ==> limits.fileSize(builder[..k]) < limits.maxOutputSize
  }

  ghost predicate Cutting(
    grandparents: seq<File>, limits: Limits, w: Watch, input: seq<Entry>, i: nat, outputs: seq<File>,
    builder: seq<Entry>, from: nat, stops: nat)
  {
    && Watching(grandparents, limits.maxGrandparentBytes, w, input, i, builder, from)
    && Paid(grandparents, limits, w, outputs, stops)
    && AllWellCut(grandparents, limits, outputs) && Growing(limits, builder)
  }

  lemma StartCutting(grandparents: seq<File>, limits: Limits, input: seq<Entry>)
    ensures Cutting(grandparents, limits, Watch(0, false, 0), input, 0, [], [], 0, 0)
  {
  }

  /** Ending an open table that is well cut so far. */
  lemma EndsWell(
    grandparents: seq<File>, limits: Limits, w: Watch, input: seq<Entry>, i: nat, outputs: seq<File>,
    builder: seq<Entry>, from: nat, cut: bool, outputs': seq<File>, builder': seq<Entry>)
    requires SortedDisjoint(grandparents) && Ends(cut, outputs, builder, outputs', builder')
    requires Watching(grandparents, limits.maxGrandparentBytes, w, input, i, builder, from)
    requires AllWellCut(grandparents, limits, outputs) && NotOverfull(limits, builder)
    ensures AllWellCut(grandparents, limits, outputs')
    ensures CountShort(outputs', limits) == CountShort(outputs, limits)
      + if cut && builder != [] && limits.fileSize(builder) < limits.maxOutputSize then 1 else 0
  {
    if cut && builder != [] {
      EndsTable(grandparents, limits.maxGrandparentBytes, w, input, i, builder, from);
      OneMoreTable(outputs, limits, outputs'[|outputs|]);
    }
  }

  /** Before an entry: the grandparents may call for a stop. */
  lemma StopStep(
    grandparents: seq<File>, limits: Limits, w: Watch, input: seq<Entry>, i: nat, outputs: seq<File>,
    builder: seq<Entry>, from: nat, stops: nat, stop: bool, w': Watch, outputs': seq<File>, builder': seq<Entry>)
    requires SortedDisjoint(grandparents) && Sorted(input) && i < |input|
    requires Cutting(grandparents, limits, w, input, i, outputs, builder, from, stops)
    requires Looked(grandparents, limits.maxGrandparentBytes, w, input[i].key, stop, w')
    requires Ends(stop, outputs, builder, outputs', builder')
    ensures Cutting(grandparents, limits, w', input, i + 1, outputs', builder', from, if stop then stops + 1 else stops)
  {
    EndsWell(grandparents, limits, w, input, i, outputs, builder, from, stop, outputs', builder');
    LookAhead(grandparents, limits.maxGrandparentBytes, w, input, i, builder, from, stop, w');
    LookPays(grandparents, limits, w, input[i].key, stop, w', outputs, stops);
  }

  /** The first grandparent that may meet the open table once it takes an entry. */
  function FromOf(w: Watch, builder: seq<Entry>, from: nat): (r: nat) {
    if builder == [] then w.index else from
  }

  lemma TakeEntryWatches(
    grandparents: seq<File>, maxBytes: nat, w: Watch, input: seq<Entry>, i: nat, builder: seq<Entry>, from: nat)
    requires i < |input| && Watching(grandparents, maxBytes, w, input, i + 1, builder, from)
    ensures Watching(grandparents, maxBytes, w, input, i + 1, builder + [input[i]], FromOf(w, builder, from))
  {
    if builder == [] {
      OpensTable(grandparents, maxBytes, w, input, i);
      assert builder + [input[i]] == [input[i]];
    } else {
      AddsEntry(grandparents, maxBytes, w, input, i, builder, from);
    }
  }

  /** An entry is added, and a full table is ended. */
  lemma TakeStep(
    grandparents: seq<File>, limits: Limits, w: Watch, input: seq<Entry>, i: nat, outputs: seq<File>,
    builder: seq<Entry>, from: nat, stops: nat, outputs': seq<File>, builder': seq<Entry>)
    requires SortedDisjoint(grandparents) && i < |input|
    requires Cutting(grandparents, limits, w, input, i + 1, outputs, builder, from, stops)
    requires Ends(limits.fileSize(builder + [input[i]]) >= limits.maxOutputSize, outputs, builder + [input[i]],
                  outputs', builder')
    ensures Cutting(grandparents, limits, w, input, i + 1, outputs', builder', FromOf(w, builder, from), stops)
  {
    var more, next := builder + [input[i]], FromOf(w, builder, from);
    var full := limits.fileSize(more) >= limits.maxOutputSize;
    TakeEntryWatches(grandparents, limits.maxGrandparentBytes, w, input, i, builder, from);
    forall k | 0 < k < |more| ensures limits.fileSize(more[..k]) < limits.maxOutputSize {
      assert more[..k] == builder[..k];
    }
    assert more[..|more|] == more;
    EndsWell(grandparents, limits, w, input, i + 1, outputs, more, next, full, outputs', builder');
  }

  /** What the outputs promise: see WellCut and FewShort. */
  ghost predicate CutWell(grandparents: seq<File>, limits: Limits, outputs: seq<File>) {
    AllWellCut(grandparents, limits, outputs) && FewShort(grandparents, limits, outputs)
  }

  lemma LastTable(
    grandparents: seq<File>, limits: Limits, w: Watch, input: seq<Entry>, i: nat, outputs: seq<File>,
    builder: seq<Entry>, from: nat, stops: nat, outputs': seq<File>, builder': seq<Entry>)
    requires SortedDisjoint(grandparents)
    requires Cutting(grandparents, limits, w, input, i, outputs, builder, from, stops)
    requires Ends(true, outputs, builder, outputs', builder')
    ensures CutWell(grandparents, limits, outputs')
  {
    EndsWell(grandparents, limits, w, input, i, outputs, builder, from, true, outputs', builder');
    AllPaid(grandparents, limits, w, outputs, stops, outputs');
  }
}
