/** What a database reads after a crash: recovery brings back a history between the
  * acknowledged writes and the written ones, and what compactions dropped changes no read. */
module CrashReads {
  import opened InternalKeys
  import opened Wrappers
  import opened FlatStore
  import opened CrashSafety

  /** In a listed table, or dropped from one. */
  ghost predicate Known(s: State, e: Entry) {
    InTables(s.disk, s.disk.manifest.files, e) || e in s.superseded
  }

  /** Still there after a crash of the process, or dropped by a compaction. */
  ghost predicate Remembered(s: State, e: Entry) {
    Recoverable(s.disk, e) || e in s.superseded
  }

  ghost predicate NewerVersion(f: Entry, e: Entry) {
    f.key.user == e.key.user && f.key.seqno > e.key.seqno
  }

  /** Sequence numbers grow: a batch is newer than everything the database can remember. */
  ghost predicate Sequenced(s: State, batch: set<Entry>) {
    && (forall e, f :: e in batch && Remembered(s, f) ==> f.key.seqno < e.key.seqno)
    && Distinct(batch)
  }

  // ---- What a merge may drop ----

  /** A newer input entry of the same key hides it. */
  ghost predicate HiddenByInput(d: Disk, inputs: set<nat>, e: Entry) {
    exists f :: InTables(d, inputs, f) && NewerVersion(f, e)
  }

  /** A tombstone with no older version of its key in the outputs or in the other files of the version. */
  ghost predicate ObsoleteTombstone(d: Disk, c: Compaction, e: Entry)
    requires c.Merging?
  {
    e.key.kind.Deletion? && forall g :: InTables(d, c.version - c.inputs + c.outputs, g) ==> !NewerVersion(e, g)
  }

  ghost predicate MergeOk(d: Disk, c: Compaction)
    requires c.Merging?
  {
    forall e :: e in LeftOut(d, c.inputs, c.outputs) ==> HiddenByInput(d, c.inputs, e) || ObsoleteTombstone(d, c, e)
  }

  /** Batches are sequenced, and merges drop only what the drop rules allow. */
  ghost predicate SoundStep(s: State, step: Step) {
    match step
    case Write(batch, _) => Sequenced(s, batch)
    case SyncFails(batch) => Sequenced(s, batch)
    case LogCompaction => s.mode.Up? && s.mode.m.compaction.Merging? ==> MergeOk(s.disk, s.mode.m.compaction)
    case CompactionFails(_) => s.mode.Up? && s.mode.m.compaction.Merging? ==> MergeOk(s.disk, s.mode.m.compaction)
    case _ => true
  }

  // ---- The invariant ----

  /** Every dropped entry is hidden by a newer one, or is a tombstone with nothing older to hide. */
  ghost predicate Explained(s: State) {
    forall e :: e in s.superseded ==>
      || (exists f :: Known(s, f) && NewerVersion(f, e))
      || (e.key.kind.Deletion? && forall g :: Recoverable(s.disk, g) ==> !NewerVersion(e, g))
  }

  /** What the logs hold is newer than what the tables hold. */
  ghost predicate LogsAreNewer(d: Disk) {
    forall x, y :: InLogs(d, x) && InTables(d, d.manifest.files, y) && x.key.user == y.key.user ==> NewerVersion(x, y)
  }

  ghost predicate AllDistinct(s: State) {
    forall e, f :: Remembered(s, e) && Remembered(s, f) && e.key.user == f.key.user && e.key.seqno == f.key.seqno ==>
      e == f
  }

  /** The current log holds what the memtable holds, and more only after a failed sync. */
  ghost predicate CurrentLog(d: Disk, m: Memory) {
    && m.logfile in d.logs
    && (forall e :: e in m.mem ==> InRecords(d.logs[m.logfile].records, e))
    && (!m.bgError ==> forall e :: InRecords(d.logs[m.logfile].records, e) ==> e in m.mem)
  }

  ghost predicate LoggedIn(d: Disk, l: nat, e: Entry) {
    l in d.logs && InRecords(d.logs[l].records, e)
  }

  /** What older logs hold is in the immutable memtable, which is in them or listed, and older. */
  ghost predicate OlderLogs(d: Disk, m: Memory) {
    && m.logfile in d.logs
    && (forall l, e {:trigger LoggedIn(d, l, e)} :: m.logNumber <= l < m.logfile && LoggedIn(d, l, e) ==>
          m.imm.Some? && e in m.imm.value)
    && (m.imm.Some? ==> forall e :: e in m.imm.value ==>
          InLogs(d, e) || ((m.flush.FlushLogged? || m.bgError) && InTables(d, d.manifest.files, e)))
    && (m.imm.Some? ==> forall x, e :: InRecords(d.logs[m.logfile].records, x) && e in m.imm.value ==>
          x.key.user == e.key.user ==> NewerVersion(x, e))
  }

  ghost predicate OutsideVersion(d: Disk, m: Memory, version: set<nat>, x: Entry) {
    InLogs(d, x) || (m.imm.Some? && x in m.imm.value) || InTables(d, d.manifest.files - version, x)
  }

  /** While a compaction merges, its version stays listed and everything else is newer. */
  ghost predicate MergeReads(d: Disk, m: Memory) {
    m.compaction.Merging? ==>
      var c := m.compaction;
      && c.inputs <= c.version <= d.manifest.files
      && (forall e :: InTables(d, c.outputs, e) ==> InTables(d, c.inputs, e))
      && forall x, y :: OutsideVersion(d, m, c.version, x) && InTables(d, c.version, y) && x.key.user == y.key.user ==>
           NewerVersion(x, y)
  }

  ghost predicate UpReads(d: Disk, m: Memory) {
    CurrentLog(d, m) && OlderLogs(d, m) && MergeReads(d, m) && (!m.bgError ==> LogsAreNewer(d))
  }

  ghost predicate Reads(s: State) {
    && Explained(s) && AllDistinct(s)
    && match s.mode
       case Down => true
       case Opening(tables, l) => forall e :: InTables(s.disk, tables, e) ==> InLogs(s.disk, e)
       case Up(m) => UpReads(s.disk, m)
  }

  // ---- Common ground of the steps ----

  lemma ExplainedStays(s: State, s': State, batch: set<Entry>)
    requires Explained(s) && s'.superseded == s.superseded
    requires forall e :: Known(s, e) ==> Known(s', e)
    requires forall g :: Recoverable(s'.disk, g) ==> Recoverable(s.disk, g) || g in batch
    requires forall e, f :: e in batch && Remembered(s, f) ==> f.key.seqno < e.key.seqno
    ensures Explained(s')
  {
    forall e | e in s'.superseded
      ensures || (exists f :: Known(s', f) && NewerVersion(f, e))
              || (e.key.kind.Deletion? && forall g :: Recoverable(s'.disk, g) ==> !NewerVersion(e, g))
    {
      assert Remembered(s, e);
      if f :| Known(s, f) && NewerVersion(f, e) {
        assert Known(s', f);
      }
    }
  }

  lemma DistinctStays(s: State, s': State, batch: set<Entry>)
    requires AllDistinct(s) && Sequenced(s, batch)
    requires forall e :: Remembered(s', e) ==> Remembered(s, e) || e in batch
    ensures AllDistinct(s')
  {
  }

  /** The disk lists the same entries and replays no others. */
  ghost predicate SameListed(d: Disk, d': Disk) {
    && (forall e :: InTables(d', d'.manifest.files, e) <==> InTables(d, d.manifest.files, e))
    && (forall e :: InLogs(d', e) ==> InLogs(d, e))
  }

  lemma SameListedKeepsReads(s: State, s': State)
    requires Explained(s) && AllDistinct(s)
    requires SameListed(s.disk, s'.disk) && s'.superseded == s.superseded
    ensures Explained(s') && AllDistinct(s')
    ensures LogsAreNewer(s.disk) ==> LogsAreNewer(s'.disk)
  {
    ExplainedStays(s, s', {});
    DistinctStays(s, s', {});
  }

  // ---- Writers ----

  lemma AppendToLogs(d: Disk, l: nat, batch: set<Entry>, sync: bool)
    requires DiskOk(d) && l in d.logs && d.manifest.logNumber <= l
    ensures var d' := d.(logs := d.logs[l := Append(d.logs[l], batch, sync)]);
      && (forall e :: InLogs(d', e) <==> InLogs(d, e) || e in batch)
      && (forall e :: InRecords(d'.logs[l].records, e) <==> InRecords(d.logs[l].records, e) || e in batch)
  {
    var d' := d.(logs := d.logs[l := Append(d.logs[l], batch, sync)]);
    forall e
      ensures InRecords(d'.logs[l].records, e) <==> InRecords(d.logs[l].records, e) || e in batch
      ensures InLogs(d', e) <==> InLogs(d, e) || e in batch
    {
      AppendedRecords(d.logs[l], batch, sync, e);
      if InLogs(d, e) {
        var k :| k in d.logs && d.manifest.logNumber <= k && InRecords(d.logs[k].records, e);
        assert k in d'.logs && InRecords(d'.logs[k].records, e);
      }
      if InLogs(d', e) {
        var k :| k in d'.logs && d'.manifest.logNumber <= k && InRecords(d'.logs[k].records, e);
        assert k in d.logs && (k != l ==> InRecords(d.logs[k].records, e));
      }
      if InRecords(d'.logs[l].records, e) {
        assert l in d'.logs;
      }
    }
  }

  lemma AppendKeepsReads(s: State, m: Memory, batch: set<Entry>, sync: bool, s': State)
    requires Inv(s) && Reads(s) && s.mode == Up(m) && Sequenced(s, batch)
    requires s'.disk == s.disk.(logs := s.disk.logs[m.logfile := Append(s.disk.logs[m.logfile], batch, sync)])
    requires s'.superseded == s.superseded && s'.mode.Up?
    requires s'.mode.m == m.(mem := m.mem + batch) || s'.mode.m == m.(bgError := true)
    ensures Reads(s')
  {
    var d, d', m' := s.disk, s'.disk, s'.mode.m;
    AppendToLogs(d, m.logfile, batch, sync);
    SameTables(d, d');
    ExplainedStays(s, s', batch);
    DistinctStays(s, s', batch);
    AppendKeepsLogs(s, m, batch, s');
    AppendKeepsMerge(s, m, batch, s');
  }

  lemma AppendKeepsLogs(s: State, m: Memory, batch: set<Entry>, s': State)
    requires Reads(s) && s.mode == Up(m) && Sequenced(s, batch) && s'.mode.Up?
    requires s'.disk.tables == s.disk.tables && s'.disk.manifest == s.disk.manifest
    requires s'.disk.logs.Keys == s.disk.logs.Keys
    requires forall l :: l in s.disk.logs && l != m.logfile ==> s'.disk.logs[l] == s.disk.logs[l]
    requires forall e :: InLogs(s'.disk, e) <==> InLogs(s.disk, e) || e in batch
    requires forall e :: InRecords(s'.disk.logs[m.logfile].records, e) <==>
      InRecords(s.disk.logs[m.logfile].records, e) || e in batch
    requires s'.mode.m == m.(mem := m.mem + batch) || s'.mode.m == m.(bgError := true)
    ensures CurrentLog(s'.disk, s'.mode.m) && OlderLogs(s'.disk, s'.mode.m)
    ensures !s'.mode.m.bgError ==> LogsAreNewer(s'.disk)
  {
    SameTables(s.disk, s'.disk);
    assert forall l, e :: l != m.logfile && LoggedIn(s'.disk, l, e) ==> LoggedIn(s.disk, l, e);
    forall y | InTables(s.disk, s.disk.manifest.files, y) ensures Remembered(s, y) {
    }
    if m.imm.Some? {
      forall e | e in m.imm.value ensures Remembered(s, e) {
      }
    }
  }

  lemma AppendKeepsMerge(s: State, m: Memory, batch: set<Entry>, s': State)
    requires Reads(s) && s.mode == Up(m) && Sequenced(s, batch) && s'.mode.Up?
    requires s'.disk.tables == s.disk.tables && s'.disk.manifest == s.disk.manifest
    requires forall e :: InLogs(s'.disk, e) ==> InLogs(s.disk, e) || e in batch
    requires s'.mode.m == m.(mem := m.mem + batch) || s'.mode.m == m.(bgError := true)
    ensures MergeReads(s'.disk, s'.mode.m)
  {
    SameTables(s.disk, s'.disk);
    if m.compaction.Merging? {
      forall y | InTables(s.disk, m.compaction.version, y) ensures Remembered(s, y) {
        assert InTables(s.disk, s.disk.manifest.files, y);
      }
    }
  }

  lemma SwitchKeepsReads(s: State, m: Memory, s': State)
    requires Inv(s) && Reads(s) && s.mode == Up(m) && WriterStep(s.disk, m, SwitchLog, s, s')
    ensures Reads(s')
  {
    var d, d', m' := s.disk, s'.disk, s'.mode.m;
    SameTables(d, d');
    NoNewRecords(d, m.nextFile);
    assert forall e :: !InRecords([], e);
    assert forall e :: e in m.mem ==> InLogs(d, e);
    SameListedKeepsReads(s, s');
    assert d'.logs[m'.logfile].records == [];
    assert forall l: nat, e :: l < m'.logfile && LoggedIn(d', l, e) ==> LoggedIn(d, l, e);
    assert CurrentLog(d', m') && OlderLogs(d', m');
  }

  lemma NoNewRecords(d: Disk, l: nat)
    requires l !in d.logs
    ensures var d' := d.(logs := d.logs[l := Log([], 0)]); forall e :: InLogs(d', e) <==> InLogs(d, e)
  {
    var d' := d.(logs := d.logs[l := Log([], 0)]);
    assert forall k :: k in d.logs ==> k in d'.logs && d'.logs[k] == d.logs[k];
    forall e ensures InLogs(d', e) <==> InLogs(d, e) {
      if InLogs(d, e) {
        var k :| k in d.logs && d.manifest.logNumber <= k && InRecords(d.logs[k].records, e);
        assert k in d'.logs && InRecords(d'.logs[k].records, e);
      }
    }
  }

  lemma WriterKeepsReads(s: State, step: Step, s': State)
    requires Inv(s) && Reads(s) && s.mode.Up? && WriterStep(s.disk, s.mode.m, step, s, s') && SoundStep(s, step)
    ensures Reads(s')
  {
    var m := s.mode.m;
    match step
    case Write(batch, sync) => AppendKeepsReads(s, m, batch, sync, s');
    case SyncFails(batch) => AppendKeepsReads(s, m, batch, false, s');
    case SwitchLog => SwitchKeepsReads(s, m, s');
    case _ => SameListedKeepsReads(s, s');
  }

  // ---- Flushes ----

  lemma FlushEditKeepsReads(s: State, m: Memory, s': State)
    requires Inv(s) && Reads(s) && s.mode == Up(m) && m.flush.Built?
    requires s'.disk == s.disk.(manifest := FlushEdit(s.disk, m, m.flush.number))
    requires s'.superseded == s.superseded && s'.mode.Up?
    requires || s'.mode.m == m.(flush := FlushLogged(m.flush.number))
             || s'.mode.m == m.(bgError := true, flush := NoFlush, pending := m.pending - {m.flush.number})
    ensures Reads(s')
  {
    var d, d', m', n := s.disk, s'.disk, s'.mode.m, m.flush.number;
    FlushListed(d, m, d');
    assert forall l, e :: LoggedIn(d', l, e) ==> LoggedIn(d, l, e);
    ExplainedStays(s, s', {});
    DistinctStays(s, s', {});
    FlushKeepsMerge(d, m, d', m');
  }

  /** After the edit the flushed entries are listed, and only the current log is replayed. */
  lemma FlushListed(d: Disk, m: Memory, d': Disk)
    requires UpOk(d, m) && m.flush.Built? && d' == d.(manifest := FlushEdit(d, m, m.flush.number))
    ensures forall e :: InTables(d', d'.manifest.files, e) <==> InTables(d, d.manifest.files, e) || e in m.imm.value
    ensures forall e :: InLogs(d', e) <==> InRecords(d.logs[m.logfile].records, e)
    ensures forall e :: InLogs(d', e) ==> InLogs(d, e)
  {
    forall e ensures InTables(d', d'.manifest.files, e) <==> InTables(d, d.manifest.files, e) || e in m.imm.value {
      if InTables(d, d.manifest.files, e) {
        var f :| f in d.manifest.files && f in d.tables && e in d.tables[f];
        assert f in d'.manifest.files;
      }
      assert m.flush.number in d'.manifest.files;
    }
  }

  lemma FlushKeepsMerge(d: Disk, m: Memory, d': Disk, m': Memory)
    requires UpOk(d, m) && m.flush.Built? && d' == d.(manifest := FlushEdit(d, m, m.flush.number))
    requires MergeReads(d, m) && m'.compaction == m.compaction && m'.imm == m.imm
    requires forall e :: InLogs(d', e) ==> InLogs(d, e)
    ensures MergeReads(d', m')
  {
    SameTables(d, d');
    if m.compaction.Merging? {
      var v := m.compaction.version;
      forall x | InTables(d', d'.manifest.files - v, x) ensures OutsideVersion(d, m, v, x) {
        var f :| f in d'.manifest.files - v && f in d.tables && x in d.tables[f];
        if f in d.manifest.files {
          assert f in d.manifest.files - v;
        } else {
          assert f == m.flush.number;
        }
      }
    }
  }

  /** A table nobody lists yet. */
  lemma UnlistedTable(d: Disk, n: nat, contents: set<Entry>, d': Disk)
    requires d' == d.(tables := d.tables[n := contents]) && n !in d.manifest.files
    ensures SameListed(d, d') && forall e :: InLogs(d', e) <==> InLogs(d, e)
    ensures forall files, e :: n !in files ==> InTables(d', files, e) == InTables(d, files, e)
  {
    forall files, e | n !in files ensures InTables(d', files, e) == InTables(d, files, e) {
      NewTable(d, n, contents, files, e);
    }
  }

  lemma UnlistedKeepsUp(d: Disk, m: Memory, n: nat, contents: set<Entry>, d': Disk, m': Memory)
    requires UpOk(d, m) && UpReads(d, m) && d' == d.(tables := d.tables[n := contents])
    requires n !in m.current + Pinned(m) + d.manifest.files
    requires m.compaction.Merging? ==> n !in m.compaction.outputs
    requires m'.compaction == m.compaction && m'.mem == m.mem && m'.imm == m.imm && m'.logfile == m.logfile
    requires m'.logNumber == m.logNumber && m'.bgError == m.bgError && !m.flush.FlushLogged?
    ensures UpReads(d', m')
  {
    UnlistedTable(d, n, contents, d');
    assert forall l, e :: LoggedIn(d', l, e) ==> LoggedIn(d, l, e);
    if m.compaction.Merging? {
      assert m.compaction.version <= Pinned(m);
      assert n !in d.manifest.files - m.compaction.version;
    }
  }

  lemma FlushKeepsReads(s: State, step: Step, s': State)
    requires Inv(s) && Reads(s) && s.mode.Up? && FlushStep(s.disk, s.mode.m, step, s, s')
    ensures Reads(s')
  {
    var d, m := s.disk, s.mode.m;
    match step
    case BuildTable =>
      UnlistedTable(d, m.flush.number, m.imm.value, s'.disk);
      SameListedKeepsReads(s, s');
      UnlistedKeepsUp(d, m, m.flush.number, m.imm.value, s'.disk, s'.mode.m);
    case LogFlush => FlushEditKeepsReads(s, m, s');
    case FlushFails(recorded) =>
      if recorded {
        FlushEditKeepsReads(s, m, s');
      } else {
        SameListedKeepsReads(s, s');
      }
    case _ => SameListedKeepsReads(s, s');
  }

  // ---- Compactions ----

  lemma StartKeepsMerge(d: Disk, m: Memory, chosen: set<nat>, m': Memory)
    requires UpOk(d, m) && UpReads(d, m) && !m.bgError && m.flush.NoFlush? && m.compaction.NoCompaction?
    requires chosen <= m.current && m' == m.(compaction := Merging(chosen, {}, m.current))
    ensures MergeReads(d, m')
  {
    assert d.manifest.files == m.current;
    forall x, y | OutsideVersion(d, m', m.current, x) && InTables(d, m.current, y) && x.key.user == y.key.user
      ensures NewerVersion(x, y)
    {
      assert InLogs(d, x);
    }
  }

  lemma OutputKeepsUp(d: Disk, m: Memory, contents: set<Entry>, d': Disk, m': Memory)
    requires UpOk(d, m) && UpReads(d, m) && m.compaction.Merging? && !m.flush.FlushLogged?
    requires d' == d.(tables := d.tables[m.nextFile := contents])
    requires forall e :: e in contents ==> InTables(d, m.compaction.inputs, e)
    requires var c := m.compaction;
      m' == m.(compaction := Merging(c.inputs, c.outputs + {m.nextFile}, c.version),
               pending := m.pending + {m.nextFile}, nextFile := m.nextFile + 1)
    ensures UpReads(d', m')
  {
    var c, n := m.compaction, m.nextFile;
    UnlistedTable(d, n, contents, d');
    assert forall l, e :: LoggedIn(d', l, e) ==> LoggedIn(d, l, e);
    assert c.version <= Pinned(m) && n !in c.version && n !in c.inputs;
    assert n !in d.manifest.files - c.version;
    forall e | InTables(d', c.outputs + {n}, e) ensures InTables(d, c.inputs, e) {
      var f :| f in c.outputs + {n} && f in d'.tables && e in d'.tables[f];
      if f != n {
        assert f in c.outputs && f in d.tables && e in d.tables[f];
        assert InTables(d, c.outputs, e);
      }
    }
  }

  /** What recovery replays after the edit: the edit may name an older log again. */
  lemma CompactionLogs(d: Disk, m: Memory, d': Disk, e: Entry)
    requires UpOk(d, m) && UpReads(d, m) && m.compaction.Merging?
    requires d' == d.(manifest := CrashSafety.CompactionEdit(d, m, m.compaction.inputs, m.compaction.outputs))
    ensures InLogs(d, e) ==> InLogs(d', e)
    ensures InLogs(d', e) ==> InLogs(d, e) || (m.imm.Some? && e in m.imm.value)
  {
    if InLogs(d, e) {
      var l :| l in d.logs && d.manifest.logNumber <= l && InRecords(d.logs[l].records, e);
      assert m.logNumber <= l;
    }
    if InLogs(d', e) && !InLogs(d, e) {
      var l :| l in d'.logs && d'.manifest.logNumber <= l && InRecords(d'.logs[l].records, e);
      assert l < d.manifest.logNumber <= m.logfile;
      assert LoggedIn(d, l, e);
    }
  }

  /** What the edit lists: the outputs, or a file that was listed and no input. */
  lemma CompactionListed(d: Disk, m: Memory, d': Disk, e: Entry)
    requires m.compaction.Merging? && MergeReads(d, m)
    requires d' == d.(manifest := CrashSafety.CompactionEdit(d, m, m.compaction.inputs, m.compaction.outputs))
    ensures var c := m.compaction;
      && (InTables(d', d'.manifest.files, e) ==>
            InTables(d, c.version - c.inputs + c.outputs, e) || InTables(d, d.manifest.files - c.version, e))
      && (InTables(d', d'.manifest.files, e) ==> InTables(d, d.manifest.files, e))
      && (InTables(d, c.outputs, e) || InTables(d, d.manifest.files - c.version, e) ==>
            InTables(d', d'.manifest.files, e))
      && (InTables(d, d.manifest.files, e) ==> InTables(d, c.inputs, e) || InTables(d', d'.manifest.files, e))
  {
    var c := m.compaction;
    if InTables(d', d'.manifest.files, e) {
      var f :| f in d'.manifest.files && f in d.tables && e in d.tables[f];
      if f in c.outputs {
        assert InTables(d, c.outputs, e) && InTables(d, c.inputs, e);
        var g :| g in c.inputs && g in d.tables && e in d.tables[g];
        assert g in d.manifest.files;
        assert f in c.version - c.inputs + c.outputs;
      } else if f in c.version {
        assert f in c.version - c.inputs + c.outputs && f in d.manifest.files;
      } else {
        assert f in d.manifest.files - c.version;
      }
    }
    if InTables(d, c.outputs, e) {
      var f :| f in c.outputs && f in d.tables && e in d.tables[f];
      assert f in d'.manifest.files;
    }
    if InTables(d, d.manifest.files - c.version, e) {
      var f :| f in d.manifest.files - c.version && f in d.tables && e in d.tables[f];
      assert f in d'.manifest.files;
    }
    if InTables(d, d.manifest.files, e) && !InTables(d, c.inputs, e) {
      var f :| f in d.manifest.files && f in d.tables && e in d.tables[f];
      assert f !in c.inputs && f in d'.manifest.files;
    }
  }

  /** After the edit everything recoverable was recoverable, and everything known stays known. */
  lemma EditRemembers(s: State, m: Memory, s': State)
    requires Inv(s) && Reads(s) && s.mode == Up(m) && m.compaction.Merging?
    requires s'.disk == s.disk.(manifest :=
      CrashSafety.CompactionEdit(s.disk, m, m.compaction.inputs, m.compaction.outputs))
    requires s'.superseded == s.superseded + LeftOut(s.disk, m.compaction.inputs, m.compaction.outputs)
    ensures forall e :: Recoverable(s'.disk, e) ==> Recoverable(s.disk, e)
    ensures forall e :: Known(s, e) ==> Known(s', e)
    ensures forall e :: Remembered(s', e) ==> Remembered(s, e)
    ensures forall e :: InTables(s.disk, m.compaction.inputs, e) ==> Known(s', e)
  {
    var d, d', c := s.disk, s'.disk, m.compaction;
    forall e
      ensures Recoverable(d', e) ==> Recoverable(d, e)
      ensures InTables(d, c.inputs, e) ==> Known(s', e) && Recoverable(d, e)
      ensures Known(s, e) ==> Known(s', e)
    {
      CompactionLogs(d, m, d', e);
      CompactionListed(d, m, d', e);
      if InTables(d, c.inputs, e) {
        InputsCovered(d, c.inputs, c.outputs, e);
        var f :| f in c.inputs && f in d.tables && e in d.tables[f];
        assert f in d.manifest.files;
      }
    }
  }

  /** Whatever stays recoverable is not older than a tombstone the merge may drop. */
  lemma NothingOlderStays(s: State, m: Memory, d': Disk, e: Entry, g: Entry)
    requires Inv(s) && Reads(s) && s.mode == Up(m) && m.compaction.Merging?
    requires d' == s.disk.(manifest := CrashSafety.CompactionEdit(s.disk, m, m.compaction.inputs, m.compaction.outputs))
    requires InTables(s.disk, m.compaction.inputs, e) && ObsoleteTombstone(s.disk, m.compaction, e)
    requires Recoverable(d', g)
    ensures !NewerVersion(e, g)
  {
    var d, c := s.disk, m.compaction;
    CompactionLogs(d, m, d', g);
    CompactionListed(d, m, d', g);
    var f :| f in c.inputs && f in d.tables && e in d.tables[f];
    assert f in c.version && InTables(d, c.version, e);
    if !InTables(d, c.version - c.inputs + c.outputs, g) {
      assert OutsideVersion(d, m, c.version, g);
    }
  }

  lemma DropsAreExplained(s: State, m: Memory, s': State)
    requires Inv(s) && Reads(s) && s.mode == Up(m) && m.compaction.Merging? && MergeOk(s.disk, m.compaction)
    requires s'.disk == s.disk.(manifest :=
      CrashSafety.CompactionEdit(s.disk, m, m.compaction.inputs, m.compaction.outputs))
    requires s'.superseded == s.superseded + LeftOut(s.disk, m.compaction.inputs, m.compaction.outputs)
    ensures Explained(s') && AllDistinct(s')
  {
    var d, c := s.disk, m.compaction;
    EditRemembers(s, m, s');
    forall e | e in s'.superseded
      ensures || (exists f :: Known(s', f) && NewerVersion(f, e))
              || (e.key.kind.Deletion? && forall g :: Recoverable(s'.disk, g) ==> !NewerVersion(e, g))
    {
      if e in s.superseded {
        OldDropStays(s, s', e);
      } else {
        NewDropExplained(s, m, s', e);
      }
    }
    DistinctStays(s, s', {});
  }

  lemma OldDropStays(s: State, s': State, e: Entry)
    requires Explained(s) && e in s.superseded
    requires forall g :: Recoverable(s'.disk, g) ==> Recoverable(s.disk, g)
    requires forall f :: Known(s, f) ==> Known(s', f)
    ensures || (exists f :: Known(s', f) && NewerVersion(f, e))
            || (e.key.kind.Deletion? && forall g :: Recoverable(s'.disk, g) ==> !NewerVersion(e, g))
  {
    if f :| Known(s, f) && NewerVersion(f, e) {
      assert Known(s', f);
    }
  }

  lemma NewDropExplained(s: State, m: Memory, s': State, e: Entry)
    requires Inv(s) && Reads(s) && s.mode == Up(m) && m.compaction.Merging? && MergeOk(s.disk, m.compaction)
    requires s'.disk == s.disk.(manifest :=
      CrashSafety.CompactionEdit(s.disk, m, m.compaction.inputs, m.compaction.outputs))
    requires e in LeftOut(s.disk, m.compaction.inputs, m.compaction.outputs)
    requires forall f :: InTables(s.disk, m.compaction.inputs, f) ==> Known(s', f)
    ensures || (exists f :: Known(s', f) && NewerVersion(f, e))
            || (e.key.kind.Deletion? && forall g :: Recoverable(s'.disk, g) ==> !NewerVersion(e, g))
  {
    var d, c := s.disk, m.compaction;
    assert InTables(d, c.inputs, e);
    if f :| InTables(d, c.inputs, f) && NewerVersion(f, e) {
      assert Known(s', f);
    } else {
      forall g | Recoverable(s'.disk, g) ensures !NewerVersion(e, g) {
        NothingOlderStays(s, m, s'.disk, e, g);
      }
    }
  }

  lemma CompactionEditKeepsUp(d: Disk, m: Memory, d': Disk, m': Memory)
    requires UpOk(d, m) && UpReads(d, m) && m.compaction.Merging? && m.flush.NoFlush?
    requires d' == d.(manifest := CrashSafety.CompactionEdit(d, m, m.compaction.inputs, m.compaction.outputs))
    requires m'.mem == m.mem && m'.imm == m.imm && m'.logfile == m.logfile && m'.logNumber == m.logNumber
    requires !m'.compaction.Merging? && m'.flush == m.flush && (m.bgError ==> m'.bgError)
    ensures UpReads(d', m')
  {
    var c := m.compaction;
    forall e
      ensures InLogs(d, e) ==> InLogs(d', e)
      ensures m.imm.Some? && e in m.imm.value && InTables(d, d.manifest.files, e) ==> InTables(d', d'.manifest.files, e)
      ensures !m.bgError && InLogs(d', e) ==> InLogs(d, e)
      ensures InTables(d', d'.manifest.files, e) ==> InTables(d, d.manifest.files, e)
    {
      CompactionLogs(d, m, d', e);
      CompactionListed(d, m, d', e);
      if m.imm.Some? && e in m.imm.value && InTables(d, d.manifest.files, e) {
        StaysListed(d, m, e);
      }
    }
    assert forall l, e :: LoggedIn(d', l, e) ==> LoggedIn(d, l, e);
  }

  /** A flushed entry is in no table of the compaction's version. */
  lemma StaysListed(d: Disk, m: Memory, e: Entry)
    requires MergeReads(d, m) && m.compaction.Merging? && m.imm.Some? && e in m.imm.value
    requires InTables(d, d.manifest.files, e)
    ensures InTables(d, d.manifest.files - m.compaction.version, e)
  {
    var v := m.compaction.version;
    var f :| f in d.manifest.files && f in d.tables && e in d.tables[f];
    assert OutsideVersion(d, m, v, e);
    assert InTables(d, v, e) ==> NewerVersion(e, e);
    assert f in v ==> InTables(d, v, e);
    assert f in d.manifest.files - v;
  }

  lemma CompactionKeepsReads(s: State, step: Step, s': State)
    requires Inv(s) && Reads(s) && s.mode.Up? && CompactionStep(s.disk, s.mode.m, step, s, s') && SoundStep(s, step)
    ensures Reads(s')
  {
    var d, m := s.disk, s.mode.m;
    match step
    case StartCompaction(chosen) =>
      SameListedKeepsReads(s, s');
      StartKeepsMerge(d, m, chosen, s'.mode.m);
    case WriteOutput(contents) =>
      UnlistedTable(d, m.nextFile, contents, s'.disk);
      SameListedKeepsReads(s, s');
      OutputKeepsUp(d, m, contents, s'.disk, s'.mode.m);
    case LogCompaction =>
      DropsAreExplained(s, m, s');
      CompactionEditKeepsUp(d, m, s'.disk, s'.mode.m);
    case CompactionFails(recorded) =>
      if recorded {
        DropsAreExplained(s, m, s');
        CompactionEditKeepsUp(d, m, s'.disk, s'.mode.m);
      } else {
        SameListedKeepsReads(s, s');
      }
    case InstallCompaction => SameListedKeepsReads(s, s');
  }

  // ---- Deletions ----

  lemma DeleteTableKeepsReads(s: State, m: Memory, f: nat, s': State)
    requires Inv(s) && Reads(s) && s.mode == Up(m) && DeletionStep(s.disk, m, DeleteTable(f), s, s')
    ensures Reads(s')
  {
    var d, d' := s.disk, s'.disk;
    assert f !in Live(m) && f !in d.manifest.files;
    forall files, e | f !in files ensures InTables(d', files, e) == InTables(d, files, e) {
      DeletedTable(d, f, files, e);
    }
    assert forall e :: InLogs(d', e) <==> InLogs(d, e);
    assert forall l, e :: LoggedIn(d', l, e) ==> LoggedIn(d, l, e);
    SameListedKeepsReads(s, s');
    if m.compaction.Merging? {
      assert m.compaction.version <= Pinned(m) && f !in m.compaction.version && f !in m.compaction.outputs;
      assert f !in d.manifest.files - m.compaction.version;
    }
  }

  lemma DeleteLogKeepsReads(s: State, m: Memory, l: nat, s': State)
    requires Inv(s) && Reads(s) && s.mode == Up(m) && DeletionStep(s.disk, m, DeleteLog(l), s, s')
    ensures Reads(s')
  {
    var d, d' := s.disk, s'.disk;
    SameTables(d, d');
    assert l < m.logNumber <= d.manifest.logNumber <= m.logfile;
    assert forall k :: k in d.logs && k != l ==> k in d'.logs && d'.logs[k] == d.logs[k];
    assert forall e :: InLogs(d', e) <==> InLogs(d, e);
    assert forall k, e :: LoggedIn(d', k, e) ==> LoggedIn(d, k, e);
    SameListedKeepsReads(s, s');
  }

  lemma DeletionKeepsReads(s: State, step: Step, s': State)
    requires Inv(s) && Reads(s) && s.mode.Up? && DeletionStep(s.disk, s.mode.m, step, s, s')
    ensures Reads(s')
  {
    match step
    case CollectObsolete => SameListedKeepsReads(s, s');
    case DeleteTable(f) => DeleteTableKeepsReads(s, s.mode.m, f, s');
    case DeleteLog(l) => DeleteLogKeepsReads(s, s.mode.m, l, s');
  }

  // ---- Crashes ----

  lemma MachineDeathKeepsReads(s: State, keep: map<nat, nat>, s': State)
    requires Inv(s) && Reads(s) && CrashStep(s, MachineDies(keep), s')
    ensures Reads(s')
  {
    var d, d' := s.disk, s'.disk;
    SameTables(d, d');
    forall e | InLogs(d', e) ensures InLogs(d, e) {
      var l :| l in d'.logs && d'.manifest.logNumber <= l && InRecords(d'.logs[l].records, e);
      PrefixRecords(d.logs[l].records, keep[l], e);
    }
    SameListedKeepsReads(s, s');
  }

  lemma ReplayKeepsReads(s: State, replayed: map<nat, set<Entry>>, l: nat, s': State)
    requires Inv(s) && Reads(s) && CrashStep(s, Replay(replayed, l), s')
    ensures Reads(s')
  {
    var d, d' := s.disk, s'.disk;
    assert forall f :: f in d.manifest.files ==> f in d.tables && f in d'.tables && d'.tables[f] == d.tables[f];
    forall e ensures InTables(d', d'.manifest.files, e) <==> InTables(d, d.manifest.files, e) {
      if InTables(d, d.manifest.files, e) {
        var f :| f in d.manifest.files && f in d.tables && e in d.tables[f];
        assert f in d'.manifest.files && f in d'.tables;
      }
    }
    assert forall e :: !InRecords([], e);
    forall e ensures InLogs(d', e) <==> InLogs(d, e) {
      if InLogs(d, e) {
        var k :| k in d.logs && d.manifest.logNumber <= k && InRecords(d.logs[k].records, e);
        assert k in d'.logs && InRecords(d'.logs[k].records, e);
      }
    }
    SameListedKeepsReads(s, s');
    forall e | InTables(d', replayed.Keys, e) ensures InLogs(d', e) {
      var n :| n in replayed.Keys && n in d'.tables && e in d'.tables[n];
      assert e in replayed[n];
    }
  }

  /** Opening lists what was replayed: the recoverable entries are the same ones. */
  lemma OpeningServesRecoverable(s: State, s': State)
    requires Inv(s) && Reads(s) && CrashStep(s, OpenDone, s')
    ensures forall e :: InTables(s'.disk, s'.disk.manifest.files, e) <==> Recoverable(s.disk, e)
    ensures forall e :: !InLogs(s'.disk, e)
    ensures forall e :: Readable(s'.disk, s'.mode.m, e) <==> Recoverable(s.disk, e)
  {
    var d, d', tables := s.disk, s'.disk, s.mode.tables;
    assert forall e :: !InRecords([], e);
    forall e ensures InTables(d', d'.manifest.files, e) <==> Recoverable(d, e) {
      if InTables(d', d'.manifest.files, e) {
        var f :| f in d'.manifest.files && f in d.tables && e in d.tables[f];
        assert f in tables ==> InTables(d, tables, e);
      }
      if InTables(d, d.manifest.files, e) {
        var f :| f in d.manifest.files && f in d.tables && e in d.tables[f];
        assert f in d'.manifest.files;
      }
      if InLogs(d, e) {
        var f :| f in tables && f in d.tables && e in d.tables[f];
        assert f in d'.manifest.files;
      }
    }
  }

  lemma OpenKeepsReads(s: State, s': State)
    requires Inv(s) && Reads(s) && CrashStep(s, OpenDone, s')
    ensures Reads(s')
  {
    OpeningServesRecoverable(s, s');
    ExplainedStays(s, s', {});
    DistinctStays(s, s', {});
    assert forall e :: !InRecords([], e);
  }

  lemma CrashKeepsReads(s: State, step: Step, s': State)
    requires Inv(s) && Reads(s) && CrashStep(s, step, s')
    ensures Reads(s')
  {
    match step
    case ProcessDies => SameListedKeepsReads(s, s');
    case MachineDies(keep) => MachineDeathKeepsReads(s, keep, s');
    case Replay(replayed, l) => ReplayKeepsReads(s, replayed, l, s');
    case OpenDone => OpenKeepsReads(s, s');
  }

  lemma RunningKeepsReads(s: State, step: Step, s': State)
    requires Inv(s) && Reads(s) && s.mode.Up? && SoundStep(s, step)
    requires || WriterStep(s.disk, s.mode.m, step, s, s') || FlushStep(s.disk, s.mode.m, step, s, s')
             || CompactionStep(s.disk, s.mode.m, step, s, s') || DeletionStep(s.disk, s.mode.m, step, s, s')
    ensures Reads(s')
  {
    if WriterStep(s.disk, s.mode.m, step, s, s') {
      WriterKeepsReads(s, step, s');
    } else if FlushStep(s.disk, s.mode.m, step, s, s') {
      FlushKeepsReads(s, step, s');
    } else if CompactionStep(s.disk, s.mode.m, step, s, s') {
      CompactionKeepsReads(s, step, s');
    } else {
      DeletionKeepsReads(s, step, s');
    }
  }

  lemma StepKeepsReads(s: State, step: Step, s': State)
    requires Inv(s) && Reads(s) && Next(s, step, s') && SoundStep(s, step)
    ensures Reads(s')
  {
    if CrashStep(s, step, s') {
      CrashKeepsReads(s, step, s');
    } else {
      RunningKeepsReads(s, step, s');
    }
  }

  // ---- What it is for ----

  ghost function RecoverableSet(s: State): (r: set<Entry>) {
    set e | e in s.written && Recoverable(s.disk, e)
  }

  lemma ReadsAgree(s: State, user: UserKey)
    requires NothingInvented(s) && Explained(s) && AllDistinct(s) && DiskOk(s.disk)
    ensures Read(RecoverableSet(s), user, MAX_SEQUENCE) == Read(RecoverableSet(s) + s.superseded, user, MAX_SEQUENCE)
  {
    var r := RecoverableSet(s);
    var all := r + s.superseded;
    RecoverableIsWritten(s);
    assert Distinct(all) && Distinct(r);
    if e :| Visible(all, user, MAX_SEQUENCE, e) {
      NewestExists(all, user, MAX_SEQUENCE, e);
      var n :| Newest(all, user, MAX_SEQUENCE, n);
      ReadNewest(all, user, MAX_SEQUENCE, n);
      if n in r {
        assert Newest(r, user, MAX_SEQUENCE, n);
        ReadNewest(r, user, MAX_SEQUENCE, n);
      } else {
        DroppedNewest(s, n);
        ReadNothing(r, user, MAX_SEQUENCE);
      }
    } else {
      ReadNothing(all, user, MAX_SEQUENCE);
      assert forall e :: Visible(r, user, MAX_SEQUENCE, e) ==> Visible(all, user, MAX_SEQUENCE, e);
      ReadNothing(r, user, MAX_SEQUENCE);
    }
  }

  lemma RecoverableIsWritten(s: State)
    requires NothingInvented(s)
    ensures forall e :: Recoverable(s.disk, e) <==> e in RecoverableSet(s)
  {
  }

  /** A dropped entry that is the newest of its key is a tombstone, and nothing of its key is left. */
  lemma DroppedNewest(s: State, n: Entry)
    requires NothingInvented(s) && Explained(s) && AllDistinct(s) && n in s.superseded && !Recoverable(s.disk, n)
    requires Newest(RecoverableSet(s) + s.superseded, n.key.user, MAX_SEQUENCE, n)
    ensures n.key.kind.Deletion?
    ensures forall e :: !Visible(RecoverableSet(s), n.key.user, MAX_SEQUENCE, e)
  {
    var all := RecoverableSet(s) + s.superseded;
    RecoverableIsWritten(s);
    forall f | Known(s, f) ensures !NewerVersion(f, n) {
      assert Remembered(s, f);
      assert f.key.user == n.key.user ==> Visible(all, n.key.user, MAX_SEQUENCE, f);
    }
    forall e | Visible(RecoverableSet(s), n.key.user, MAX_SEQUENCE, e) ensures false {
      assert Visible(all, n.key.user, MAX_SEQUENCE, e);
      assert !NewerVersion(n, e);
      assert Remembered(s, e) && Remembered(s, n);
    }
  }

  // ---- Whole runs ----

  lemma {:induction false} RunsKeepReads(run: seq<State>, steps: seq<Step>, i: nat)
    requires IsRun(run, steps) && i < |run| && forall j :: 0 <= j < i ==> SoundStep(run[j], steps[j])
    ensures Inv(run[i]) && Reads(run[i])
  {
    RunsKeepInv(run, steps, i);
    if i > 0 {
      RunsKeepReads(run, steps, i - 1);
      StepKeepsReads(run[i - 1], steps[i - 1], run[i]);
    }
  }

  /** A history that holds everything acknowledged and nothing unwritten. */
  ghost predicate Between(s: State, history: set<Entry>) {
    s.acked <= history && forall e :: e in history ==> e in s.written
  }

  ghost predicate SupersededWritten(s: State) {
    s.superseded <= s.written
  }

  lemma {:induction false} DropsWereWritten(run: seq<State>, steps: seq<Step>, i: nat)
    requires IsRun(run, steps) && i < |run|
    ensures SupersededWritten(run[i])
  {
    if i > 0 {
      DropsWereWritten(run, steps, i - 1);
      RunsKeepInv(run, steps, i - 1);
      assert Next(run[i - 1], steps[i - 1], run[i]);
    }
  }

  /**
   * At every moment of every run, what recovery would bring back reads, for every key, like
   * one history that holds every acknowledged write and nothing that was never written.
   */
  lemma RecoveredReadsHistory(run: seq<State>, steps: seq<Step>, i: nat, user: UserKey)
    requires IsRun(run, steps) && i < |run| && forall j :: 0 <= j < i ==> SoundStep(run[j], steps[j])
    ensures var s := run[i];
      && Between(s, RecoverableSet(s) + s.superseded)
      && Read(RecoverableSet(s), user, MAX_SEQUENCE) == Read(RecoverableSet(s) + s.superseded, user, MAX_SEQUENCE)
  {
    RunsKeepReads(run, steps, i);
    DropsWereWritten(run, steps, i);
    ReadsAgree(run[i], user);
    RecoverableIsWritten(run[i]);
  }

  /** The reopened database serves exactly what was recoverable. */
  lemma ReopenedServesRecovered(run: seq<State>, steps: seq<Step>, i: nat)
    requires IsRun(run, steps) && i < |steps| && steps[i] == OpenDone
    requires forall j :: 0 <= j < i ==> SoundStep(run[j], steps[j])
    ensures run[i + 1].mode.Up? && run[i + 1].superseded == run[i].superseded
    ensures forall e :: Readable(run[i + 1].disk, run[i + 1].mode.m, e) <==> e in RecoverableSet(run[i])
  {
    RunsKeepReads(run, steps, i);
    assert Next(run[i], steps[i], run[i + 1]);
    OpeningServesRecoverable(run[i], run[i + 1]);
    RecoverableIsWritten(run[i]);
  }
}
