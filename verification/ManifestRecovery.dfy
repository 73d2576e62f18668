/** Recovering the version, the counters and the compaction pointers from the records of a manifest. */
module ManifestRecovery {
  import opened Coding
  import opened InternalKeys
  import opened Wrappers
  import opened Levels
  import opened VersionBuilder
  import Records = VersionEdits

  /** How records name things: internal keys by their bytes, table contents by file number. */
  datatype Naming = Naming(key: Bytes -> InternalKey, contents: nat -> seq<Entry>)

  predicate SoundFile(n: Naming, f: Records.NewFile) {
    f.level < NUM_LEVELS && AtMost(n.key(f.smallest), n.key(f.largest))
  }

  function TableFile(n: Naming, f: Records.NewFile): (r: (nat, File))
    requires SoundFile(n, f)
  {
    (f.level, FileMetaData(f.number, f.size, n.key(f.smallest), n.key(f.largest), n.contents(f.number)))
  }

  predicate SoundRecord(n: Naming, r: Records.Edit) {
    && (forall i :: 0 <= i < |r.newFiles| ==> SoundFile(n, r.newFiles[i]))
    && (forall i :: 0 <= i < |r.deleted| ==> r.deleted[i].0 < NUM_LEVELS)
    && (forall i :: 0 <= i < |r.compactPointers| ==> r.compactPointers[i].0 < NUM_LEVELS)
  }

  /** What a record says about the files of the levels. */
  function FileEdit(n: Naming, r: Records.Edit): (res: Edit)
    requires SoundRecord(n, r)
  {
    Edit(seq(|r.deleted|, i requires 0 <= i < |r.deleted| => (r.deleted[i].0, r.deleted[i].1)),
         seq(|r.newFiles|, i requires 0 <= i < |r.newFiles| => TableFile(n, r.newFiles[i])))
  }

  ghost predicate AllSound(n: Naming, rs: seq<Records.Edit>) {
    forall i :: 0 <= i < |rs| ==> SoundRecord(n, rs[i]) && Records.ValidEdit(rs[i])
  }

  ghost function FileEdits(n: Naming, rs: seq<Records.Edit>): (r: seq<Edit>)
    requires AllSound(n, rs)
  {
    seq(|rs|, i requires 0 <= i < |rs| => FileEdit(n, rs[i]))
  }

  /** The last value that any record gives a counter. */
  ghost function Latest(rs: seq<Records.Edit>, field: Records.Edit -> Option<nat>): (r: Option<nat>) {
    if rs == [] then None
    else
      var last := field(rs[|rs| - 1]);
      if last.Some? then last else Latest(rs[..|rs| - 1], field)
  }

  function NextFileOf(r: Records.Edit): (res: Option<nat>) {
    if r.nextFile.Some? then Some(r.nextFile.value) else None
  }

  function LogOf(r: Records.Edit): (res: Option<nat>) {
    if r.logNumber.Some? then Some(r.logNumber.value) else None
  }

  function PrevLogOf(r: Records.Edit): (res: Option<nat>) {
    if r.prevLogNumber.Some? then Some(r.prevLogNumber.value) else None
  }

  function SequenceOf(r: Records.Edit): (res: Option<nat>) {
    if r.lastSequence.Some? then Some(r.lastSequence.value) else None
  }

  datatype Counters = Counters(nextFile: Option<nat>, log: Option<nat>, prevLog: Option<nat>, sequence: Option<nat>)

  function Later(new_: Option<nat>, old_: Option<nat>): (r: Option<nat>) {
    if new_.Some? then new_ else old_
  }

  function Count(c: Counters, r: Records.Edit): (res: Counters) {
    Counters(Later(NextFileOf(r), c.nextFile), Later(LogOf(r), c.log), Later(PrevLogOf(r), c.prevLog),
             Later(SequenceOf(r), c.sequence))
  }

  ghost predicate CountersOf(rs: seq<Records.Edit>, c: Counters) {
    && c.nextFile == Latest(rs, r => NextFileOf(r)) && c.log == Latest(rs, r => LogOf(r))
    && c.prevLog == Latest(rs, r => PrevLogOf(r)) && c.sequence == Latest(rs, r => SequenceOf(r))
  }

  lemma CountOneMore(rs: seq<Records.Edit>, i: nat, c: Counters)
    requires i < |rs| && CountersOf(rs[..i], c)
    ensures CountersOf(rs[..i + 1], Count(c, rs[i]))
  {
    assert rs[..i + 1][..i] == rs[..i];
  }

  // ---- Compaction pointers ----

  /** Where the next compaction of each level begins; empty if nothing was compacted yet. */
  type Pointers = p: seq<Bytes> | |p| == NUM_LEVELS witness [[], [], [], [], [], [], []]

  const NO_POINTERS: Pointers := [[], [], [], [], [], [], []]

  /** The last pointer that the list gives a level. */
  ghost function PointerIn(cs: seq<(nat, Bytes)>, l: nat): (r: Option<Bytes>) {
    if cs == [] then None
    else if cs[|cs| - 1].0 == l then Some(cs[|cs| - 1].1)
    else PointerIn(cs[..|cs| - 1], l)
  }

  /** The last pointer that any record gives a level. */
  ghost function LatestPointer(rs: seq<Records.Edit>, l: nat): (r: Option<Bytes>) {
    if rs == [] then None
    else
      var last := PointerIn(rs[|rs| - 1].compactPointers, l);
      if last.Some? then last else LatestPointer(rs[..|rs| - 1], l)
  }

  /** The pointers `ps`, replaced where the records say so. */
  ghost predicate PointersAfter(ps: Pointers, rs: seq<Records.Edit>, ps': Pointers) {
    forall l :: 0 <= l < NUM_LEVELS ==>
      ps'[l] == if LatestPointer(rs, l).Some? then LatestPointer(rs, l).value else ps[l]
  }

  method SetPointers(ps: Pointers, cs: seq<(nat, Bytes)>) returns (ps': Pointers)
    requires forall i :: 0 <= i < |cs| ==> cs[i].0 < NUM_LEVELS
    ensures forall l :: 0 <= l < NUM_LEVELS ==>
      ps'[l] == if PointerIn(cs, l).Some? then PointerIn(cs, l).value else ps[l]
  {
    ps' := ps;
    for i := 0 to |cs|
      invariant forall l :: 0 <= l < NUM_LEVELS ==>
        ps'[l] == if PointerIn(cs[..i], l).Some? then PointerIn(cs[..i], l).value else ps[l]
    {
      assert cs[..i + 1][..i] == cs[..i];
      ps' := ps'[cs[i].0 := cs[i].1];
    }
    assert cs[..|cs|] == cs;
  }

  lemma PointersOneMore(rs: seq<Records.Edit>, i: nat, ps: Pointers, ps': Pointers)
    requires i < |rs| && PointersAfter(NO_POINTERS, rs[..i], ps)
    requires forall l :: 0 <= l < NUM_LEVELS ==>
      ps'[l] == if PointerIn(rs[i].compactPointers, l).Some? then PointerIn(rs[i].compactPointers, l).value else ps[l]
    ensures PointersAfter(NO_POINTERS, rs[..i + 1], ps')
  {
    assert rs[..i + 1][..i] == rs[..i];
  }

  /** The recovered version, counters and compaction pointers. */
  datatype Recovered = Recovered(
    version: Version, manifestNumber: nat, nextFile: nat, lastSequence: nat, logNumber: nat, prevLogNumber: nat,
    pointers: Pointers)

  ghost predicate Complete(rs: seq<Records.Edit>, comparator: Bytes) {
    && SameComparator(rs, comparator, |rs|)
    && exists c :: CountersOf(rs, c) && c.nextFile.Some? && c.log.Some? && c.sequence.Some?
  }

  ghost predicate Encodes(rs: seq<Records.Edit>, records: seq<Bytes>) {
    |records| == |rs| && forall i :: 0 <= i < |rs| ==> records[i] == Records.EncodeItems(Records.Items(rs[i]))
  }

  /** Files as installing every edit in turn leaves them, counters and compaction pointers as last logged. */
  ghost predicate RecoversTo(n: Naming, rs: seq<Records.Edit>, r: Recovered)
    requires AllSound(n, rs)
  {
    && (forall l :: 0 <= l < NUM_LEVELS ==>
          SortedFiles(r.version[l]) && FileSet(r.version[l]) == InstallAll(FileEdits(n, rs), l))
    && PointersAfter(NO_POINTERS, rs, r.pointers)
    && exists c :: CountersOf(rs, c)
         && c.nextFile == Some(r.manifestNumber) && r.nextFile == r.manifestNumber + 1
         && c.log == Some(r.logNumber) && c.sequence == Some(r.lastSequence)
         && r.prevLogNumber == if c.prevLog.Some? then c.prevLog.value else 0
  }

  ghost predicate SameComparator(rs: seq<Records.Edit>, comparator: Bytes, n: nat) {
    forall j :: 0 <= j < n && j < |rs| && rs[j].comparator.Some? ==> rs[j].comparator.value == comparator
  }

  /** What reading records collects. */
  datatype Read = Read(edits: seq<Edit>, counters: Counters, pointers: Pointers)

  /** The records read so far: the edits they hold, and the counters and pointers they set. */
  ghost predicate ReadUpTo(n: Naming, rs: seq<Records.Edit>, comparator: Bytes, i: nat, r: Read) {
    && AllSound(n, rs) && i <= |rs|
    && r.edits == FileEdits(n, rs)[..i] && CountersOf(rs[..i], r.counters) && SameComparator(rs, comparator, i)
    && PointersAfter(NO_POINTERS, rs[..i], r.pointers)
  }

  lemma ReadNone(n: Naming, rs: seq<Records.Edit>, comparator: Bytes)
    requires AllSound(n, rs)
    ensures ReadUpTo(n, rs, comparator, 0, Read([], Counters(None, None, None, None), NO_POINTERS))
  {
    assert rs[..0] == [];
  }

  lemma ReadOneMore(n: Naming, rs: seq<Records.Edit>, comparator: Bytes, i: nat, r: Read, ps: Pointers)
    requires ReadUpTo(n, rs, comparator, i, r) && i < |rs| && SoundRecord(n, rs[i])
    requires rs[i].comparator.Some? ==> rs[i].comparator.value == comparator
    requires forall l :: 0 <= l < NUM_LEVELS ==>
      ps[l] == if PointerIn(rs[i].compactPointers, l).Some? then PointerIn(rs[i].compactPointers, l).value
               else r.pointers[l]
    ensures ReadUpTo(n, rs, comparator, i + 1, Read(r.edits + [FileEdit(n, rs[i])], Count(r.counters, rs[i]), ps))
  {
    CountOneMore(rs, i, r.counters);
    PointersOneMore(rs, i, r.pointers, ps);
  }

  lemma ReadAll(n: Naming, rs: seq<Records.Edit>, comparator: Bytes, edits: seq<Edit>, c: Counters, ps: Pointers)
    requires ReadUpTo(n, rs, comparator, |rs|, Read(edits, c, ps))
    ensures edits == FileEdits(n, rs) && CountersOf(rs, c) && (forall e :: e in edits ==> ValidEdit(e))
    ensures PointersAfter(NO_POINTERS, rs, ps)
    ensures Complete(rs, comparator) <==> c.nextFile.Some? && c.log.Some? && c.sequence.Some?
  {
    assert rs[..|rs|] == rs;
    CountersAgree(rs, c);
    ValidFileEdits(n, rs);
  }

  /** Decodes the records one by one, until one names another comparator. */
  method ReadRecords(n: Naming, comparator: Bytes, records: seq<Bytes>, ghost rs: seq<Records.Edit>)
    returns (r: Option<Read>)
    requires AllSound(n, rs) && Encodes(rs, records)
    ensures r.Some? ==> ReadUpTo(n, rs, comparator, |rs|, r.value)
    ensures r.None? ==> !SameComparator(rs, comparator, |rs|)
  {
    var read := Read([], Counters(None, None, None, None), NO_POINTERS);
    ReadNone(n, rs, comparator);
    for i := 0 to |records|
      invariant ReadUpTo(n, rs, comparator, i, read)
    {
      var edit := ReadRecord(records[i], rs[i]);
      if edit.comparator.Some? && edit.comparator.value != comparator {
        return None;
      }
      var pointers := SetPointers(read.pointers, edit.compactPointers);
      ReadOneMore(n, rs, comparator, i, read, pointers);
      read := Read(read.edits + [FileEdit(n, edit)], Count(read.counters, edit), pointers);
    }
    return Some(read);
  }

  method ReadRecord(record: Bytes, ghost logged: Records.Edit) returns (r: Records.Edit)
    requires Records.ValidEdit(logged) && record == Records.EncodeItems(Records.Items(logged))
    ensures r == logged
  {
    var edit := new Records.VersionEdit();
    var ok := edit.DecodeFrom(record);
    DecodesTo(logged, record);
    r := edit.edit;
  }

  /** Reads every record, replays their edits through one builder, and saves once. */
  method Recover(n: Naming, comparator: Bytes, records: seq<Bytes>, ghost rs: seq<Records.Edit>)
    returns (r: Option<Recovered>)
    requires AllSound(n, rs) && Encodes(rs, records)
    requires forall l :: 0 <= l < NUM_LEVELS ==> SameMetadata(EverAdded(FileEdits(n, rs), l))
    ensures r.Some? <==> Complete(rs, comparator)
    ensures r.Some? ==> RecoversTo(n, rs, r.value)
  {
    var read := ReadRecords(n, comparator, records, rs);
    if read.None? {
      return None;
    }
    var Read(edits, c, pointers) := read.value;
    ReadAll(n, rs, comparator, edits, c, pointers);
    if c.nextFile.None? || c.log.None? || c.sequence.None? {
      return None;
    }
    var v := Replay(edits);
    var prevLog := if c.prevLog.Some? then c.prevLog.value else 0;
    return Some(Recovered(v, c.nextFile.value, c.nextFile.value + 1, c.sequence.value, c.log.value, prevLog,
      pointers));
  }

  lemma CountersAgree(rs: seq<Records.Edit>, c: Counters)
    requires CountersOf(rs, c)
    ensures forall d :: CountersOf(rs, d) ==> d == c
  {
  }

  lemma ValidFileEdits(n: Naming, rs: seq<Records.Edit>)
    requires AllSound(n, rs)
    ensures forall e :: e in FileEdits(n, rs) ==> ValidEdit(e)
  {
    forall e | e in FileEdits(n, rs) ensures ValidEdit(e) {
      var i :| 0 <= i < |rs| && FileEdits(n, rs)[i] == e;
      assert SoundRecord(n, rs[i]);
    }
  }

  lemma DecodesTo(r: Records.Edit, record: Bytes)
    requires Records.ValidEdit(r) && record == Records.EncodeItems(Records.Items(r))
    ensures var fresh_ := Records.Edit(None, None, None, None, None, [], [], []);
      Records.DecodeItems(record, Records.Cleared(fresh_)) == (true, r)
  {
    Records.EditRoundTrip(Records.Edit(None, None, None, None, None, [], [], []), r);
  }

  /** Recovery from the logged bytes gives the version that the running database had installed last. */
  lemma RecoveredVersionIsInstalled(n: Naming, rs: seq<Records.Edit>, versions: seq<Version>, r: Recovered)
    requires AllSound(n, rs) && RecoversTo(n, rs, r) && History(versions, FileEdits(n, rs))
    ensures r.version == versions[|rs|]
  {
    ManifestReplay(versions, FileEdits(n, rs), r.version);
  }
}
