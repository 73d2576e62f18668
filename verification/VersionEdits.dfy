/** The manifest's records: version edits as tagged fields. */
module VersionEdits {
  import opened Coding
  import Levels
  import opened FlatStore
  import opened Wrappers

  datatype NewFile = NewFile(level: nat, number: Quad, size: Quad, smallest: Bytes, largest: Bytes)

  /** A field is present or absent; `deleted` lists its pairs in increasing order. */
  datatype Edit = Edit(
    comparator: Option<Bytes>,
    logNumber: Option<Quad>,
    prevLogNumber: Option<Quad>,
    nextFile: Option<Quad>,
    lastSequence: Option<Quad>,
    compactPointers: seq<(nat, Bytes)>,
    deleted: seq<(nat, Quad)>,
    newFiles: seq<NewFile>)

  datatype Item =
    | Comparator(name: Bytes)
    | LogNumber(n: Quad)
    | NextFileNumber(n: Quad)
    | LastSequence(n: Quad)
    | CompactPointer(level: nat, key: Bytes)
    | DeletedFile(level: nat, n: Quad)
    | AddedFile(file: NewFile)
    | PrevLogNumber(n: Quad)

  // ---- Encoding ----

  function NewFileBytes(f: NewFile): (r: Bytes) {
    Varint(f.level)
    + (Varint(f.number) + (Varint(f.size) + (LengthPrefixed(f.smallest) + LengthPrefixed(f.largest))))
  }

  function EncodeItem(item: Item): (r: Bytes) {
    match item
    case Comparator(name) => Varint(1) + LengthPrefixed(name)
    case LogNumber(n) => Varint(2) + Varint(n)
    case NextFileNumber(n) => Varint(3) + Varint(n)
    case LastSequence(n) => Varint(4) + Varint(n)
    case CompactPointer(level, key) => Varint(5) + (Varint(level) + LengthPrefixed(key))
    case DeletedFile(level, n) => Varint(6) + (Varint(level) + Varint(n))
    case AddedFile(f) => Varint(7) + NewFileBytes(f)
    case PrevLogNumber(n) => Varint(9) + Varint(n)
  }

  function EncodeItems(items: seq<Item>): (r: Bytes) {
    if items == [] then [] else EncodeItem(items[0]) + EncodeItems(items[1..])
  }

  function Optional<T>(o: Option<T>, item: T -> Item): (r: seq<Item>) {
    if o.Some? then [item(o.value)] else []
  }

  function CompactItems(cs: seq<(nat, Bytes)>): (r: seq<Item>) {
    seq(|cs|, i requires 0 <= i < |cs| => CompactPointer(cs[i].0, cs[i].1))
  }

  function DeletedItems(ds: seq<(nat, Quad)>): (r: seq<Item>) {
    seq(|ds|, i requires 0 <= i < |ds| => DeletedFile(ds[i].0, ds[i].1))
  }

  function AddedItems(fs: seq<NewFile>): (r: seq<Item>) {
    seq(|fs|, i requires 0 <= i < |fs| => AddedFile(fs[i]))
  }

  /** The fields of an edit in the order in which they are written. */
  function Scalars(e: Edit): (r: seq<Item>) {
    Optional(e.comparator, x => Comparator(x)) + Optional(e.logNumber, (x: Quad) => LogNumber(x))
      + Optional(e.prevLogNumber, (x: Quad) => PrevLogNumber(x))
    + Optional(e.nextFile, (x: Quad) => NextFileNumber(x)) + Optional(e.lastSequence, (x: Quad) => LastSequence(x))
  }

  function Items(e: Edit): (r: seq<Item>) {
    Scalars(e) + CompactItems(e.compactPointers) + DeletedItems(e.deleted) + AddedItems(e.newFiles)
  }

  // ---- Decoding ----

  datatype Parsed = NoTag | Malformed | Got(item: Item, rest: Bytes)

  function GetLevel(input: Bytes): (r: Option<(nat, Bytes)>) {
    var r := GetVarint32(input);
    if r.Some? && r.value.0 < Levels.NUM_LEVELS then Some((r.value.0, r.value.1)) else None
  }

  /** An internal key is a string that is not empty. */
  function GetInternalKey(input: Bytes): (r: Option<(Bytes, Bytes)>) {
    var r := GetLengthPrefixed(input);
    if r.Some? && r.value.0 != [] then r else None
  }

  function GetNumber(input: Bytes, item: Quad -> Item): (r: Parsed) {
    var r := GetVarint64(input);
    if r.Some? then Got(item(r.value.0), r.value.1) else Malformed
  }

  function GetComparator(input: Bytes): (r: Parsed) {
    var r := GetLengthPrefixed(input);
    if r.Some? then Got(Comparator(r.value.0), r.value.1) else Malformed
  }

  function GetCompactPointer(input: Bytes): (r: Parsed) {
    var level := GetLevel(input);
    if level.None? then Malformed else
    var key := GetInternalKey(level.value.1);
    if key.None? then Malformed else Got(CompactPointer(level.value.0, key.value.0), key.value.1)
  }

  function GetDeletedFile(input: Bytes): (r: Parsed) {
    var level := GetLevel(input);
    if level.None? then Malformed else
    var n := GetVarint64(level.value.1);
    if n.None? then Malformed else Got(DeletedFile(level.value.0, n.value.0), n.value.1)
  }

  function GetNewFile(input: Bytes): (r: Parsed) {
    var level := GetLevel(input);
    if level.None? then Malformed else
    var number := GetVarint64(level.value.1);
    if number.None? then Malformed else
    var size := GetVarint64(number.value.1);
    if size.None? then Malformed else
    var smallest := GetInternalKey(size.value.1);
    if smallest.None? then Malformed else
    var largest := GetInternalKey(smallest.value.1);
    if largest.None? then Malformed else
    Got(AddedFile(NewFile(level.value.0, number.value.0, size.value.0, smallest.value.0, largest.value.0)),
      largest.value.1)
  }

  function GetBody(tag: Word, input: Bytes): (r: Parsed) {
    if tag == 1 then GetComparator(input)
    else if tag == 2 then GetNumber(input, (x: Quad) => LogNumber(x))
    else if tag == 3 then GetNumber(input, (x: Quad) => NextFileNumber(x))
    else if tag == 4 then GetNumber(input, (x: Quad) => LastSequence(x))
    else if tag == 5 then GetCompactPointer(input)
    else if tag == 6 then GetDeletedFile(input)
    else if tag == 7 then GetNewFile(input)
    else if tag == 9 then GetNumber(input, (x: Quad) => PrevLogNumber(x))
    else Malformed
  }

  function GetItem(input: Bytes): (r: Parsed) {
    var tag := GetVarint32(input);
    if tag.None? then NoTag else GetBody(tag.value.0, tag.value.1)
  }

  /** Insertion into an ordered set of pairs. */
  predicate Less(a: (nat, Quad), b: (nat, Quad)) {
    a.0 < b.0 || (a.0 == b.0 && a.1 < b.1)
  }

  function Insert(ds: seq<(nat, Quad)>, d: (nat, Quad)): (r: seq<(nat, Quad)>) {
    if ds == [] then [d]
    else if ds[|ds| - 1] == d then ds
    else if Less(ds[|ds| - 1], d) then ds + [d]
    else Insert(ds[..|ds| - 1], d) + [ds[|ds| - 1]]
  }

  function Apply(e: Edit, item: Item): (r: Edit) {
    match item
    case Comparator(name) => e.(comparator := Some(name))
    case LogNumber(n) => e.(logNumber := Some(n))
    case NextFileNumber(n) => e.(nextFile := Some(n))
    case LastSequence(n) => e.(lastSequence := Some(n))
    case CompactPointer(level, key) => e.(compactPointers := e.compactPointers + [(level, key)])
    case DeletedFile(level, n) => e.(deleted := Insert(e.deleted, (level, n)))
    case AddedFile(f) => e.(newFiles := e.newFiles + [f])
    case PrevLogNumber(n) => e.(prevLogNumber := Some(n))
  }

  /** Clearing an edit leaves its compaction pointers. */
  function Cleared(e: Edit): (r: Edit) {
    Edit(None, None, None, None, None, e.compactPointers, [], [])
  }

  // ---- Round trip of one field ----

  predicate ValidKey(k: Bytes) { 0 < |k| < 0x1_0000_0000 }

  predicate ValidItem(item: Item) {
    match item
    case Comparator(name) => |name| < 0x1_0000_0000
    case CompactPointer(level, key) => level < Levels.NUM_LEVELS && ValidKey(key)
    case DeletedFile(level, n) => level < Levels.NUM_LEVELS
    case AddedFile(f) => f.level < Levels.NUM_LEVELS && ValidKey(f.smallest) && ValidKey(f.largest)
    case _ => true
  }

  lemma LevelRoundTrip(level: nat, rest: Bytes)
    requires level < Levels.NUM_LEVELS
    ensures GetLevel(Varint(level) + rest) == Some((level, rest))
  {
    Varint32RoundTrip(level, rest);
  }

  lemma KeyRoundTrip(key: Bytes, rest: Bytes)
    requires ValidKey(key)
    ensures GetInternalKey(LengthPrefixed(key) + rest) == Some((key, rest))
  {
    LengthPrefixedRoundTrip(key, rest);
  }

  lemma NewFileRoundTrip(f: NewFile, rest: Bytes)
    requires ValidItem(AddedFile(f))
    ensures GetNewFile(NewFileBytes(f) + rest) == Got(AddedFile(f), rest)
  {
    var r4 := LengthPrefixed(f.largest) + rest;
    var r3 := LengthPrefixed(f.smallest) + r4;
    var r2 := Varint(f.size) + r3;
    var r1 := Varint(f.number) + r2;
    assert Varint(f.level)
      + (Varint(f.number) + (Varint(f.size) + (LengthPrefixed(f.smallest) + LengthPrefixed(f.largest))))
        + rest == Varint(f.level) + r1;
    LevelRoundTrip(f.level, r1);
    Varint64RoundTrip(f.number, r2);
    Varint64RoundTrip(f.size, r3);
    KeyRoundTrip(f.smallest, r4);
    KeyRoundTrip(f.largest, rest);
  }

  lemma TagRoundTrip(tag: Word, body: Bytes, rest: Bytes)
    ensures GetItem(Varint(tag) + body + rest) == GetBody(tag, body + rest)
  {
    assert Varint(tag) + body + rest == Varint(tag) + (body + rest);
    Varint32RoundTrip(tag, body + rest);
  }

  lemma CompactPointerRoundTrip(level: nat, key: Bytes, rest: Bytes)
    requires level < Levels.NUM_LEVELS && ValidKey(key)
    ensures GetCompactPointer(Varint(level) + LengthPrefixed(key) + rest) == Got(CompactPointer(level, key), rest)
  {
    assert Varint(level) + LengthPrefixed(key) + rest == Varint(level) + (LengthPrefixed(key) + rest);
    LevelRoundTrip(level, LengthPrefixed(key) + rest);
    KeyRoundTrip(key, rest);
  }

  lemma DeletedFileRoundTrip(level: nat, n: Quad, rest: Bytes)
    requires level < Levels.NUM_LEVELS
    ensures GetDeletedFile(Varint(level) + Varint(n) + rest) == Got(DeletedFile(level, n), rest)
  {
    assert Varint(level) + Varint(n) + rest == Varint(level) + (Varint(n) + rest);
    LevelRoundTrip(level, Varint(n) + rest);
    Varint64RoundTrip(n, rest);
  }

  lemma NumberRoundTrip(tag: Word, n: Quad, item: Quad -> Item, rest: Bytes)
    ensures GetItem(Varint(tag) + Varint(n) + rest) == GetBody(tag, Varint(n) + rest)
    ensures GetNumber(Varint(n) + rest, item) == Got(item(n), rest)
  {
    TagRoundTrip(tag, Varint(n), rest);
    Varint64RoundTrip(n, rest);
  }

  lemma ItemRoundTrip(item: Item, rest: Bytes)
    requires ValidItem(item)
    ensures GetItem(EncodeItem(item) + rest) == Got(item, rest)
  {
    match item
    case Comparator(name) =>
      TagRoundTrip(1, LengthPrefixed(name), rest);
      LengthPrefixedRoundTrip(name, rest);
    case LogNumber(n) => NumberRoundTrip(2, n, (x: Quad) => LogNumber(x), rest);
    case NextFileNumber(n) => NumberRoundTrip(3, n, (x: Quad) => NextFileNumber(x), rest);
    case LastSequence(n) => NumberRoundTrip(4, n, (x: Quad) => LastSequence(x), rest);
    case PrevLogNumber(n) => NumberRoundTrip(9, n, (x: Quad) => PrevLogNumber(x), rest);
    case CompactPointer(level, key) =>
      TagRoundTrip(5, Varint(level) + LengthPrefixed(key), rest);
      CompactPointerRoundTrip(level, key, rest);
    case DeletedFile(level, n) =>
      TagRoundTrip(6, Varint(level) + Varint(n), rest);
      DeletedFileRoundTrip(level, n, rest);
    case AddedFile(f) =>
      TagRoundTrip(7, NewFileBytes(f), rest);
      NewFileRoundTrip(f, rest);
  }

  // ---- Round trip of an edit ----

  function ApplyAll(e: Edit, items: seq<Item>): (r: Edit)
    decreases |items|
  {
    if items == [] then e else ApplyAll(Apply(e, items[0]), items[1..])
  }

  lemma {:induction false} ApplyConcat(e: Edit, a: seq<Item>, b: seq<Item>)
    ensures ApplyAll(e, a + b) == ApplyAll(ApplyAll(e, a), b)
    decreases |a|
  {
    if a == [] {
      assert a + b == b;
    } else {
      assert (a + b)[0] == a[0] && (a + b)[1..] == a[1..] + b;
      ApplyConcat(Apply(e, a[0]), a[1..], b);
    }
  }

  /** The rest after a field is shorter than the input. */
  lemma GetItemShrinks(input: Bytes)
    ensures GetItem(input).Got? ==> |GetItem(input).rest| < |input|
  {
    SpelledShrinks(input, 5);
    var tag := GetVarint32(input);
    if tag.Some? {
      BodyShrinks(tag.value.0, tag.value.1);
    }
  }

  lemma PrefixedShrinks(input: Bytes)
    ensures GetVarint64(input).Some? ==> |GetVarint64(input).value.1| < |input|
    ensures GetVarint32(input).Some? ==> |GetVarint32(input).value.1| < |input|
    ensures GetLengthPrefixed(input).Some? ==> |GetLengthPrefixed(input).value.1| < |input|
  {
    SpelledShrinks(input, 5);
    SpelledShrinks(input, 10);
  }

  lemma BodyShrinks(tag: Word, input: Bytes)
    ensures GetBody(tag, input).Got? ==> |GetBody(tag, input).rest| < |input|
  {
    PrefixedShrinks(input);
    var level := GetLevel(input);
    if level.Some? {
      PrefixedShrinks(level.value.1);
      var number := GetVarint64(level.value.1);
      if number.Some? {
        PrefixedShrinks(number.value.1);
        var size := GetVarint64(number.value.1);
        if size.Some? {
          PrefixedShrinks(size.value.1);
          var smallest := GetInternalKey(size.value.1);
          if smallest.Some? {
            PrefixedShrinks(smallest.value.1);
          }
        }
      }
    }
  }

  /** Reads fields until none is left; the flag says whether all of the input was well formed. */
  function DecodeItems(input: Bytes, e: Edit): (r: (bool, Edit))
    decreases |input|
  {
    match GetItem(input)
    case NoTag => (input == [], e)
    case Malformed => (false, e)
    case Got(item, rest) => GetItemShrinks(input); DecodeItems(rest, Apply(e, item))
  }

  ghost predicate ValidItems(items: seq<Item>) {
    forall i :: 0 <= i < |items| ==> ValidItem(items[i])
  }

  lemma {:induction false} DecodesItems(items: seq<Item>, e: Edit)
    requires ValidItems(items)
    ensures DecodeItems(EncodeItems(items), e) == (true, ApplyAll(e, items))
    decreases |items|
  {
    var input := EncodeItems(items);
    if items == [] {
      assert GetVarint32([]) == None;
    } else {
      ItemRoundTrip(items[0], EncodeItems(items[1..]));
      DecodesItems(items[1..], Apply(e, items[0]));
    }
  }

  ghost predicate Sorted(ds: seq<(nat, Quad)>) {
    forall i, j :: 0 <= i < j < |ds| ==> Less(ds[i], ds[j])
  }

  ghost predicate ValidEdit(e: Edit) {
    ValidItems(Items(e)) && Sorted(e.deleted)
  }

  lemma {:induction false} AppliesCompact(e: Edit, cs: seq<(nat, Bytes)>)
    ensures ApplyAll(e, CompactItems(cs)) == e.(compactPointers := e.compactPointers + cs)
    decreases |cs|
  {
    if cs == [] {
      assert e.compactPointers + cs == e.compactPointers;
    } else {
      assert CompactItems(cs)[1..] == CompactItems(cs[1..]);
      AppliesCompact(Apply(e, CompactItems(cs)[0]), cs[1..]);
      assert e.compactPointers + [(cs[0].0, cs[0].1)] + cs[1..] == e.compactPointers + cs;
    }
  }

  lemma {:induction false} AppliesDeleted(e: Edit, ds: seq<(nat, Quad)>)
    requires Sorted(e.deleted + ds)
    ensures ApplyAll(e, DeletedItems(ds)) == e.(deleted := e.deleted + ds)
    decreases |ds|
  {
    if ds == [] {
      assert e.deleted + ds == e.deleted;
    } else {
      var d, n := (ds[0].0, ds[0].1), |e.deleted|;
      assert DeletedItems(ds)[1..] == DeletedItems(ds[1..]);
      assert (e.deleted + ds)[n] == d && (n > 0 ==> (e.deleted + ds)[n - 1] == e.deleted[n - 1]);
      assert Insert(e.deleted, d) == e.deleted + [d];
      assert e.deleted + [d] + ds[1..] == e.deleted + ds;
      AppliesDeleted(Apply(e, DeletedItems(ds)[0]), ds[1..]);
    }
  }

  lemma {:induction false} AppliesAdded(e: Edit, fs: seq<NewFile>)
    ensures ApplyAll(e, AddedItems(fs)) == e.(newFiles := e.newFiles + fs)
    decreases |fs|
  {
    if fs == [] {
      assert e.newFiles + fs == e.newFiles;
    } else {
      assert AddedItems(fs)[1..] == AddedItems(fs[1..]);
      AppliesAdded(Apply(e, AddedItems(fs)[0]), fs[1..]);
      assert e.newFiles + [fs[0]] + fs[1..] == e.newFiles + fs;
    }
  }

  lemma ApplyOptional(e: Edit, items: seq<Item>)
    requires |items| <= 1
    ensures ApplyAll(e, items) == if items == [] then e else Apply(e, items[0])
  {
    if items != [] {
      assert items[1..] == [];
    }
  }

  lemma AppliesScalars(e0: Edit, e: Edit)
    ensures ApplyAll(Cleared(e0), Scalars(e))
         == Edit(e.comparator, e.logNumber, e.prevLogNumber, e.nextFile, e.lastSequence, e0.compactPointers, [], [])
  {
    var a, b, c := Optional(e.comparator, x => Comparator(x)), Optional(e.logNumber, (x: Quad) => LogNumber(x)),
      Optional(e.prevLogNumber, (x: Quad) => PrevLogNumber(x));
    var d, l := Optional(e.nextFile, (x: Quad) => NextFileNumber(x)),
      Optional(e.lastSequence, (x: Quad) => LastSequence(x));
    var e1 := Cleared(e0);
    var e2 := ApplyAll(e1, a);
    var e3 := ApplyAll(e2, b);
    var e4 := ApplyAll(e3, c);
    var e5 := ApplyAll(e4, d);
    ApplyConcat(e1, a, b);
    ApplyConcat(e1, a + b, c);
    ApplyConcat(e1, a + b + c, d);
    ApplyConcat(e1, a + b + c + d, l);
    ApplyOptional(e1, a);
    ApplyOptional(e2, b);
    ApplyOptional(e3, c);
    ApplyOptional(e4, d);
    ApplyOptional(e5, l);
  }

  /** Decoding an encoded edit restores it.  Into an edit that is not fresh, the old compaction
      pointers stay in front. */
  lemma EditRoundTrip(e0: Edit, e: Edit)
    requires ValidEdit(e)
    ensures DecodeItems(EncodeItems(Items(e)), Cleared(e0))
      == (true, e.(compactPointers := e0.compactPointers + e.compactPointers))
    ensures e0.compactPointers == [] ==> DecodeItems(EncodeItems(Items(e)), Cleared(e0)) == (true, e)
  {
    var c, d, f := CompactItems(e.compactPointers), DeletedItems(e.deleted), AddedItems(e.newFiles);
    DecodesItems(Items(e), Cleared(e0));
    ApplyConcat(Cleared(e0), Scalars(e) + c + d, f);
    ApplyConcat(Cleared(e0), Scalars(e) + c, d);
    ApplyConcat(Cleared(e0), Scalars(e), c);
    AppliesScalars(e0, e);
    var e1 := ApplyAll(Cleared(e0), Scalars(e));
    AppliesCompact(e1, e.compactPointers);
    var e2 := ApplyAll(e1, c);
    assert [] + e.deleted == e.deleted && [] + e.newFiles == e.newFiles;
    AppliesDeleted(e2, e.deleted);
    AppliesAdded(ApplyAll(e2, d), e.newFiles);
    if e0.compactPointers == [] {
      assert e0.compactPointers + e.compactPointers == e.compactPointers;
    }
  }

  // ---- Writing the fields one after the other ----

  function Join(parts: seq<Bytes>): (r: Bytes) {
    if parts == [] then [] else Join(parts[..|parts| - 1]) + parts[|parts| - 1]
  }

  lemma JoinOneMore(dst: Bytes, parts: seq<Bytes>, part: Bytes)
    ensures dst + Join(parts + [part]) == (dst + Join(parts)) + part
  {
    assert (parts + [part])[..|parts|] == parts;
  }

  lemma JoinOne(part: Bytes)
    ensures Join([part]) == part
  {
    var one := [part];
    assert one[..0] == [] && one[0] == part && Join(one) == Join(one[..0]) + one[0];
  }

  lemma {:induction false} JoinConcat(a: seq<Bytes>, b: seq<Bytes>)
    ensures Join(a + b) == Join(a) + Join(b)
    decreases |b|
  {
    if b == [] {
      assert a + b == a;
    } else {
      var last := |b| - 1;
      JoinConcat(a, b[..last]);
      JoinSnoc(a + b[..last], b[last]);
      JoinSnoc(b[..last], b[last]);
      assert a + b == a + b[..last] + [b[last]] && b == b[..last] + [b[last]];
    }
  }

  lemma JoinSnoc(a: seq<Bytes>, part: Bytes)
    ensures Join(a + [part]) == Join(a) + part
  {
    assert (a + [part])[..|a|] == a;
  }

  function Parts(items: seq<Item>): (r: seq<Bytes>) {
    seq(|items|, i requires 0 <= i < |items| => EncodeItem(items[i]))
  }

  lemma PartsHead(items: seq<Item>)
    requires items != []
    ensures Parts(items) == [EncodeItem(items[0])] + Parts(items[1..])
  {
  }

  lemma JoinHead(part: Bytes, parts: seq<Bytes>)
    ensures Join([part] + parts) == part + Join(parts)
  {
    JoinConcat([part], parts);
    JoinOne(part);
  }

  lemma {:induction false} EncodesParts(items: seq<Item>)
    ensures EncodeItems(items) == Join(Parts(items))
    decreases |items|
  {
    if items != [] {
      EncodesParts(items[1..]);
      PartsHead(items);
      JoinHead(EncodeItem(items[0]), Parts(items[1..]));
    }
  }

  lemma PartsConcat(a: seq<Item>, b: seq<Item>)
    ensures Parts(a + b) == Parts(a) + Parts(b)
  {
  }

  /** Appends the given fields in order. */
  method PutAll(dst: Bytes, parts: seq<Bytes>) returns (r: Bytes)
    ensures r == dst + Join(parts)
  {
    r := dst;
    for i := 0 to |parts|
      invariant r == dst + Join(parts[..i])
    {
      JoinOneMore(dst, parts[..i], parts[i]);
      assert parts[..i + 1] == parts[..i] + [parts[i]];
      r := r + parts[i];
    }
    assert parts[..|parts|] == parts;
  }

  lemma JoinFour(a: seq<Bytes>, b: seq<Bytes>, c: seq<Bytes>, d: seq<Bytes>)
    ensures Join(a + b + c + d) == [] + Join(a) + Join(b) + Join(c) + Join(d)
  {
    JoinConcat(a, b);
    JoinConcat(a + b, c);
    JoinConcat(a + b + c, d);
    assert [] + Join(a) == Join(a);
  }

  lemma PartsFour(a: seq<Item>, b: seq<Item>, c: seq<Item>, d: seq<Item>)
    ensures Parts(a + b + c + d) == Parts(a) + Parts(b) + Parts(c) + Parts(d)
  {
    PartsConcat(a, b);
    PartsConcat(a + b, c);
    PartsConcat(a + b + c, d);
  }

  lemma JoinedParts(a: seq<Item>, b: seq<Item>, c: seq<Item>, d: seq<Item>)
    ensures EncodeItems(a + b + c + d) == [] + Join(Parts(a)) + Join(Parts(b)) + Join(Parts(c)) + Join(Parts(d))
  {
    EncodesParts(a + b + c + d);
    PartsFour(a, b, c, d);
    JoinFour(Parts(a), Parts(b), Parts(c), Parts(d));
  }

  // ---- The object ----

  class VersionEdit {
    var edit: Edit

    constructor ()
      ensures edit == Edit(None, None, None, None, None, [], [], [])
    {
      edit := Edit(None, None, None, None, None, [], [], []);
    }

    method Clear()
      modifies this
      ensures edit == Cleared(old(edit))
    {
      edit := edit.(comparator := None, logNumber := None, prevLogNumber := None, nextFile := None,
        lastSequence := None, deleted := [], newFiles := []);
    }

    method EncodeTo() returns (dst: Bytes)
      ensures dst == EncodeItems(Items(edit))
    {
      var scalars := Scalars(edit);
      var c, d, f := CompactItems(edit.compactPointers), DeletedItems(edit.deleted), AddedItems(edit.newFiles);
      dst := PutAll([], Parts(scalars));
      dst := PutAll(dst, Parts(c));
      dst := PutAll(dst, Parts(d));
      dst := PutAll(dst, Parts(f));
      JoinedParts(scalars, c, d, f);
    }

    method DecodeFrom(src: Bytes) returns (ok: bool)
      modifies this
      ensures (ok, edit) == DecodeItems(src, Cleared(old(edit)))
    {
      Clear();
      var input := src;
      while true
        invariant DecodeItems(input, edit) == DecodeItems(src, Cleared(old(edit)))
        decreases |input|
      {
        GetItemShrinks(input);
        match GetItem(input) {
          case NoTag => return input == [];
          case Malformed => return false;
          case Got(item, rest) =>
            edit := Apply(edit, item);
            input := rest;
        }
      }
    }
  }
}
