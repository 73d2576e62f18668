/** Crash safety: logs, tables, the manifest, file deletion and recovery as one state machine. */
module CrashSafety {
  // The background thread's flush and compaction, the writers, the readers that pin
  // versions, the deletion of obsolete files and crashes interleave freely.  The manifest
  // write of LogAndApply and the in-memory installation that follows it are two steps,
  // because the mutex is released in between.

  import opened InternalKeys
  import opened Wrappers

  /** A write-ahead log: one record per committed group, the first `synced` of them durable. */
  datatype Log = Log(records: seq<set<Entry>>, synced: nat)

  datatype Manifest = Manifest(files: set<nat>, logNumber: nat, nextFile: nat)

  datatype Disk = Disk(tables: map<nat, set<Entry>>, logs: map<nat, Log>, manifest: Manifest)

  /** The memtable flush: number taken, table written and synced, manifest record durable. */
  datatype Flush = NoFlush | Building(number: nat) | Built(number: nat) | FlushLogged(number: nat)

  /** A compaction pins the version it started from. */
  datatype Compaction =
    | NoCompaction
    | Merging(inputs: set<nat>, outputs: set<nat>, version: set<nat>)
    | CompactionLogged(inputs: set<nat>, outputs: set<nat>, version: set<nat>)

  datatype Memory = Memory(
    mem: set<Entry>,
    imm: Option<set<Entry>>,
    logfile: nat,
    current: set<nat>,
    logNumber: nat,
    nextFile: nat,
    pinned: multiset<set<nat>>,
    pending: set<nat>,
    flush: Flush,
    compaction: Compaction,
    deletingTables: set<nat>,
    deletingLogs: set<nat>,
    bgError: bool)

  datatype Mode = Down | Opening(tables: set<nat>, log: nat) | Up(m: Memory)

  /** `acked`: acknowledged entries; `durable`: those acknowledged with sync; `written`: every
      entry ever handed to a log; `superseded`: entries that a recorded compaction dropped. */
  datatype State = State(disk: Disk, acked: set<Entry>, durable: set<Entry>, written: set<Entry>,
    superseded: set<Entry>, mode: Mode)

  ghost predicate InTables(disk: Disk, files: set<nat>, e: Entry) {
    exists f :: f in files && f in disk.tables && e in disk.tables[f]
  }

  ghost predicate InRecords(records: seq<set<Entry>>, e: Entry) {
    exists i :: 0 <= i < |records| && e in records[i]
  }

  /** In a log that recovery replays. */
  ghost predicate InLogs(disk: Disk, e: Entry) {
    exists l :: l in disk.logs && disk.manifest.logNumber <= l && InRecords(disk.logs[l].records, e)
  }

  ghost predicate InSyncedLogs(disk: Disk, e: Entry) {
    exists l :: l in disk.logs && disk.manifest.logNumber <= l && disk.logs[l].synced <= |disk.logs[l].records|
                && InRecords(disk.logs[l].records[..disk.logs[l].synced], e)
  }

  /** What recovery brings back after the process dies. */
  ghost predicate Recoverable(disk: Disk, e: Entry) {
    InTables(disk, disk.manifest.files, e) || InLogs(disk, e)
  }

  /** What recovery brings back even if the machine loses everything not synced. */
  ghost predicate SurelyRecoverable(disk: Disk, e: Entry) {
    InTables(disk, disk.manifest.files, e) || InSyncedLogs(disk, e)
  }

  // ---- Steps ----

  datatype Step =
    | Write(batch: set<Entry>, sync: bool)
    | SyncFails(batch: set<Entry>)
    | SwitchLog
    | StartFlush
    | BuildTable
    | LogFlush
    | InstallFlush
    | FlushFails(recorded: bool)
    | StartCompaction(chosen: set<nat>)
    | WriteOutput(contents: set<Entry>)
    | LogCompaction
    | InstallCompaction
    | CompactionFails(recorded: bool)
    | PinVersion
    | UnpinVersion(version: set<nat>)
    | CollectObsolete
    | DeleteTable(file: nat)
    | DeleteLog(file: nat)
    | ProcessDies
    | MachineDies(keep: map<nat, nat>)
    | Replay(replayed: map<nat, set<Entry>>, log: nat)
    | OpenDone

  function Append(log: Log, batch: set<Entry>, sync: bool): (r: Log) {
    Log(log.records + [batch], if sync then |log.records| + 1 else log.synced)
  }

  /** The manifest after a flush edit: the table is listed, logs before the current one are not needed. */
  function FlushEdit(d: Disk, m: Memory, n: nat): (r: Manifest) {
    Manifest(d.manifest.files + {n}, m.logfile, m.nextFile)
  }

  function CompactionEdit(d: Disk, m: Memory, inputs: set<nat>, outputs: set<nat>): (r: Manifest) {
    Manifest(d.manifest.files - inputs + outputs, m.logNumber, m.nextFile)
  }

  /** Entries the merge left out of its outputs. */
  ghost function LeftOut(d: Disk, inputs: set<nat>, outputs: set<nat>): (r: set<Entry>) {
    set f, e | f in inputs && f in d.tables && e in d.tables[f] && !InTables(d, outputs, e) :: e
  }

  ghost function Pinned(m: Memory): (r: set<nat>) {
    (set v, f | v in m.pinned && f in v :: f) + if m.compaction.NoCompaction? then {} else m.compaction.version
  }

  /** The files RemoveObsoleteFiles keeps. */
  ghost function Live(m: Memory): (r: set<nat>) {
    m.pending + m.current + Pinned(m)
  }

  /** Sequence numbers are never reused, so a new batch repeats nothing acknowledged or logged. */
  ghost predicate Fresh(s: State, batch: set<Entry>) {
    && batch !! s.acked
    && forall l, e :: l in s.disk.logs && e in batch ==> !InRecords(s.disk.logs[l].records, e)
  }

  ghost predicate WriterStep(d: Disk, m: Memory, step: Step, s: State, s': State) {
    match step
    case Write(batch, sync) =>
      && m.logfile in d.logs && Fresh(s, batch)
      && s' == s.(disk := d.(logs := d.logs[m.logfile := Append(d.logs[m.logfile], batch, sync)]),
                  acked := s.acked + batch, written := s.written + batch,
                  durable := s.durable + (if sync then batch else {}),
                  mode := Up(m.(mem := m.mem + batch)))
    case SyncFails(batch) =>
      // The record may survive, but it is not acknowledged and the database stops accepting writes.
      && m.logfile in d.logs && Fresh(s, batch)
      && s' == s.(disk := d.(logs := d.logs[m.logfile := Append(d.logs[m.logfile], batch, false)]),
                  written := s.written + batch,
                  mode := Up(m.(bgError := true)))
    case SwitchLog =>
      && m.imm.None? && !m.bgError
      && s' == s.(disk := d.(logs := d.logs[m.nextFile := Log([], 0)]),
                  mode := Up(m.(mem := {}, imm := Some(m.mem), logfile := m.nextFile, nextFile := m.nextFile + 1)))
    case PinVersion =>
      s' == s.(mode := Up(m.(pinned := m.pinned + multiset{m.current})))
    case UnpinVersion(version) =>
      s' == s.(mode := Up(m.(pinned := m.pinned - multiset{version})))
    case _ => false
  }

  ghost predicate FlushStep(d: Disk, m: Memory, step: Step, s: State, s': State) {
    match step
    case StartFlush =>
      && m.imm.Some? && m.flush.NoFlush? && !m.compaction.CompactionLogged? && m.deletingTables == {}
      && s' == s.(mode := Up(m.(flush := Building(m.nextFile), pending := m.pending + {m.nextFile},
        nextFile := m.nextFile + 1)))
    case BuildTable =>
      // The table is complete and synced; its number leaves pending_outputs_ before the manifest is written.
      && m.flush.Building? && m.imm.Some?
      && s' == s.(disk := d.(tables := d.tables[m.flush.number := m.imm.value]),
                  mode := Up(m.(flush := Built(m.flush.number), pending := m.pending - {m.flush.number})))
    case LogFlush =>
      && m.flush.Built?
      && s' == s.(disk := d.(manifest := FlushEdit(d, m, m.flush.number)),
        mode := Up(m.(flush := FlushLogged(m.flush.number))))
    case InstallFlush =>
      && m.flush.FlushLogged?
      && s' == s.(mode := Up(m.(current := m.current + {m.flush.number}, logNumber := m.logfile, imm := None,
        flush := NoFlush)))
    case FlushFails(recorded) =>
      // Building may fail, and a failed manifest write may or may not have reached the disk.
      && (m.flush.Built? || (m.flush.Building? && !recorded))
      && s' == s.(disk := if recorded then d.(manifest := FlushEdit(d, m, m.flush.number)) else d,
                  mode := Up(m.(bgError := true, flush := NoFlush, pending := m.pending - {m.flush.number})))
    case _ => false
  }

  ghost predicate CompactionStep(d: Disk, m: Memory, step: Step, s: State, s': State) {
    match step
    case StartCompaction(chosen) =>
      && !m.bgError && m.flush.NoFlush? && m.compaction.NoCompaction? && m.deletingTables == {} && chosen <= m.current
      && s' == s.(mode := Up(m.(compaction := Merging(chosen, {}, m.current))))
    case WriteOutput(contents) =>
      && m.compaction.Merging? && m.flush.NoFlush? && m.deletingTables == {}
      && var c := m.compaction;
      && (forall e :: e in contents ==> InTables(d, c.inputs, e))
      && s' == s.(disk := d.(tables := d.tables[m.nextFile := contents]),
                  mode := Up(m.(compaction := Merging(c.inputs, c.outputs + {m.nextFile}, c.version),
                                pending := m.pending + {m.nextFile}, nextFile := m.nextFile + 1)))
    case LogCompaction =>
      && m.compaction.Merging? && m.flush.NoFlush?
      && var c := m.compaction;
      && s' == s.(disk := d.(manifest := CompactionEdit(d, m, c.inputs, c.outputs)),
                  superseded := s.superseded + LeftOut(d, c.inputs, c.outputs),
                  mode := Up(m.(compaction := CompactionLogged(c.inputs, c.outputs, c.version))))
    case InstallCompaction =>
      && m.compaction.CompactionLogged?
      && var c := m.compaction;
      && s' == s.(mode := Up(m.(current := m.current - c.inputs + c.outputs, pending := m.pending - c.outputs,
        compaction := NoCompaction)))
    case CompactionFails(recorded) =>
      && m.compaction.Merging? && m.flush.NoFlush?
      && var c := m.compaction;
      && s' == s.(disk := if recorded then d.(manifest := CompactionEdit(d, m, c.inputs, c.outputs)) else d,
                  superseded := if recorded then s.superseded + LeftOut(d, c.inputs, c.outputs) else s.superseded,
                  mode := Up(m.(bgError := true, pending := m.pending - c.outputs, compaction := NoCompaction)))
    case _ => false
  }

  ghost predicate DeletionStep(d: Disk, m: Memory, step: Step, s: State, s': State) {
    match step
    case CollectObsolete =>
      // Run by the background thread between its other duties, and never after an error.
      && !m.bgError && m.flush.NoFlush? && !m.compaction.CompactionLogged?
      && s' == s.(mode := Up(m.(deletingTables := m.deletingTables + (d.tables.Keys - Live(m)),
                                deletingLogs := m.deletingLogs + set l | l in d.logs && l < m.logNumber)))
    case DeleteTable(f) =>
      && f in m.deletingTables
      && s' == s.(disk := d.(tables := d.tables - {f}), mode := Up(m.(deletingTables := m.deletingTables - {f})))
    case DeleteLog(l) =>
      && l in m.deletingLogs
      && s' == s.(disk := d.(logs := d.logs - {l}), mode := Up(m.(deletingLogs := m.deletingLogs - {l})))
    case _ => false
  }

  /** Crashes and recovery. */
  ghost predicate CrashStep(s: State, step: Step, s': State) {
    var d := s.disk;
    match step
    case ProcessDies =>
      s' == s.(mode := Down)
    case MachineDies(keep) =>
      // Every log may lose records that were never synced; only synced writes stay promised.
      && keep.Keys == d.logs.Keys
      && (forall l :: l in d.logs ==> d.logs[l].synced <= keep[l] <= |d.logs[l].records|)
      && s' == s.(disk := d.(logs := map l | l in d.logs :: Log(d.logs[l].records[..keep[l]], d.logs[l].synced)),
                  acked := s.durable, mode := Down)
    case Replay(replayed, l) =>
      // Recovery replays the logs the manifest asks for into new tables and starts a new log,
      // with numbers beyond the manifest's counter and beyond every replayed log.
      && s.mode.Down? && d.manifest.nextFile < l
      && (forall n :: n in replayed ==> d.manifest.nextFile < n < l)
      && (forall k :: k in d.logs && d.manifest.logNumber <= k ==> k < l)
      && (forall e :: InLogs(d, e) <==> exists n :: n in replayed && e in replayed[n])
      && s' == s.(disk := d.(tables := d.tables + replayed, logs := d.logs[l := Log([], 0)]),
        mode := Opening(replayed.Keys, l))
    case OpenDone =>
      && s.mode.Opening?
      && var l := s.mode.log;
      && var files := d.manifest.files + s.mode.tables;
      && s' == s.(disk := d.(manifest := Manifest(files, l, l + 1)),
                  mode := Up(Memory({}, None, l, files, l, l + 1, multiset{}, {}, NoFlush, NoCompaction, {}, {},
                    false)))
    case _ => false
  }

  ghost predicate Next(s: State, step: Step, s': State) {
    || CrashStep(s, step, s')
    || (s.mode.Up? && (var m := s.mode.m;
          || WriterStep(s.disk, m, step, s, s')
          || FlushStep(s.disk, m, step, s, s')
          || CompactionStep(s.disk, m, step, s, s')
          || DeletionStep(s.disk, m, step, s, s')))
  }

  // ---- Invariant ----

  ghost predicate DiskOk(d: Disk) {
    && d.manifest.files <= d.tables.Keys
    && (forall f :: f in d.manifest.files ==> f < d.manifest.nextFile)
    && d.manifest.logNumber < d.manifest.nextFile
    && forall l :: l in d.logs ==> d.logs[l].synced <= |d.logs[l].records|
  }

  /** No acknowledged write is lost: it is listed, logged, or superseded. */
  ghost predicate NothingLost(s: State) {
    && s.durable <= s.acked
    && (forall e :: e in s.acked ==> e in s.superseded || Recoverable(s.disk, e))
    && (forall e :: e in s.durable ==> e in s.superseded || SurelyRecoverable(s.disk, e))
  }

  /** Files and logs hold only what some writer wrote. */
  ghost predicate NothingInvented(s: State) {
    && (forall f, e :: f in s.disk.tables && e in s.disk.tables[f] ==> e in s.written)
    && (forall l, e :: l in s.disk.logs && InRecords(s.disk.logs[l].records, e) ==> e in s.written)
    && (s.mode.Up? ==> s.mode.m.mem <= s.written && (s.mode.m.imm.Some? ==> s.mode.m.imm.value <= s.written))
  }

  /** Acknowledged entries of a log the in-memory state still needs are in the memtable it feeds. */
  ghost predicate LogsMatchMemory(s: State, m: Memory) {
    forall l, e :: l in s.disk.logs && m.logNumber <= l && e in s.acked && InRecords(s.disk.logs[l].records, e) ==>
      l <= m.logfile && (l == m.logfile ==> e in m.mem) && (l < m.logfile ==> m.imm.Some? && e in m.imm.value)
  }

  /** A reader finds every acknowledged entry that no compaction superseded. */
  ghost predicate Readable(d: Disk, m: Memory, e: Entry) {
    e in m.mem || (m.imm.Some? && e in m.imm.value) || InTables(d, m.current, e)
  }

  ghost predicate AllReadable(s: State, m: Memory) {
    forall e :: e in s.acked ==> e in s.superseded || Readable(s.disk, m, e)
  }

  ghost predicate Numbers(d: Disk, m: Memory) {
    && m.logfile in d.logs && m.logfile < m.nextFile
    && m.logNumber <= d.manifest.logNumber <= m.logfile && d.manifest.nextFile <= m.nextFile
    && (forall l :: l in d.logs ==> l <= m.logfile)
    && (forall f :: f in Live(m) + d.manifest.files ==> f < m.nextFile)
  }

  /** Every file that is listed, current, pinned or an output exists. */
  ghost predicate FilesExist(d: Disk, m: Memory) {
    && m.current <= d.tables.Keys && Pinned(m) <= d.tables.Keys
    && (m.compaction.NoCompaction?
        || (m.compaction.inputs <= m.current && m.compaction.outputs <= m.pending
            && m.compaction.outputs <= d.tables.Keys && m.compaction.inputs !! m.compaction.outputs))
  }

  ghost predicate FlushOk(d: Disk, m: Memory) {
    && (m.flush.NoFlush?
        || (m.imm.Some? && !m.compaction.CompactionLogged? && m.deletingTables == {} && m.flush.number < m.nextFile
            && (m.compaction.NoCompaction? || m.flush.number !in m.compaction.outputs)))
    && (m.flush.Building? ==> m.flush.number !in m.current + Pinned(m) + d.manifest.files)
    && (m.flush.Built? || m.flush.FlushLogged? ==>
          m.flush.number in d.tables && d.tables[m.flush.number] == m.imm.value)
    && (m.flush.FlushLogged? ==> d.manifest.logNumber == m.logfile)
  }

  /** Once a compaction is recorded, whatever its outputs lack is superseded. */
  ghost predicate OutputsCover(s: State, m: Memory) {
    m.compaction.CompactionLogged? ==>
      forall e ::
        InTables(s.disk, m.compaction.inputs, e) ==> e in s.superseded || InTables(s.disk, m.compaction.outputs, e)
  }

  /** Nothing that must stay is on its way out. */
  ghost predicate DeletionsAreSafe(d: Disk, m: Memory) {
    && m.deletingTables !! Live(m) + d.manifest.files
    && forall l :: l in m.deletingLogs ==> l < m.logNumber
  }

  /** Without an error, memory and manifest agree up to the edit in flight. */
  ghost predicate ManifestMatches(d: Disk, m: Memory) {
    !m.bgError ==>
      if m.flush.FlushLogged? then d.manifest.files == m.current + {m.flush.number}
      else if m.compaction.CompactionLogged? then d.manifest.files == m.current - m.compaction.inputs
        + m.compaction.outputs
      else d.manifest.files == m.current
  }

  ghost predicate UpOk(d: Disk, m: Memory) {
    Numbers(d, m) && FilesExist(d, m) && FlushOk(d, m) && DeletionsAreSafe(d, m) && ManifestMatches(d, m)
  }

  ghost predicate OpeningOk(d: Disk, tables: set<nat>, l: nat) {
    && d.manifest.nextFile < l && l in d.logs && d.logs[l] == Log([], 0)
    && (forall n :: n in tables ==> n < l && n in d.tables)
    && (forall e :: InLogs(d, e) ==> InTables(d, tables, e))
    && (forall k :: k in d.logs ==> k <= l)
  }

  ghost predicate Inv(s: State) {
    && DiskOk(s.disk) && NothingLost(s) && NothingInvented(s)
    && match s.mode
       case Down => true
       case Opening(tables, l) => OpeningOk(s.disk, tables, l)
       case Up(m) => UpOk(s.disk, m) && LogsMatchMemory(s, m) && AllReadable(s, m) && OutputsCover(s, m)
  }

  // ---- Each step keeps the invariant ----

  lemma WriterKeepsStructure(s: State, step: Step, s': State)
    requires DiskOk(s.disk) && s.mode.Up? && UpOk(s.disk, s.mode.m) && WriterStep(s.disk, s.mode.m, step, s, s')
    ensures DiskOk(s'.disk) && s'.mode.Up? && UpOk(s'.disk, s'.mode.m)
  {
    var m, m' := s.mode.m, s'.mode.m;
    assert s'.disk.manifest == s.disk.manifest && s'.disk.tables == s.disk.tables;
    assert Pinned(m') <= Pinned(m) + m.current;
  }

  lemma FlushKeepsStructure(s: State, step: Step, s': State)
    requires DiskOk(s.disk) && s.mode.Up? && UpOk(s.disk, s.mode.m) && FlushStep(s.disk, s.mode.m, step, s, s')
    ensures DiskOk(s'.disk) && s'.mode.Up? && UpOk(s'.disk, s'.mode.m)
  {
    var m, m' := s.mode.m, s'.mode.m;
    assert Pinned(m') == Pinned(m);
    assert step.InstallFlush? ==> Live(m') == Live(m) + {m.flush.number};
    assert step.StartFlush? ==> Live(m') == Live(m) + {m.nextFile};
    assert !step.InstallFlush? && !step.StartFlush? ==> Live(m') <= Live(m);
  }

  lemma CompactionKeepsStructure(s: State, step: Step, s': State)
    requires DiskOk(s.disk) && s.mode.Up? && UpOk(s.disk, s.mode.m) && CompactionStep(s.disk, s.mode.m, step, s, s')
    ensures DiskOk(s'.disk) && s'.mode.Up? && UpOk(s'.disk, s'.mode.m)
  {
    if step.StartCompaction? {
      assert Pinned(s'.mode.m) == Pinned(s.mode.m) + s.mode.m.current;
    } else {
      assert Pinned(s'.mode.m) <= Pinned(s.mode.m);
    }
  }

  lemma DeletionKeepsStructure(s: State, step: Step, s': State)
    requires DiskOk(s.disk) && s.mode.Up? && UpOk(s.disk, s.mode.m) && DeletionStep(s.disk, s.mode.m, step, s, s')
    ensures DiskOk(s'.disk) && s'.mode.Up? && UpOk(s'.disk, s'.mode.m)
  {
    assert Pinned(s'.mode.m) == Pinned(s.mode.m);
  }

  lemma AppendedRecords(log: Log, batch: set<Entry>, sync: bool, e: Entry)
    requires log.synced <= |log.records|
    ensures var log' := Append(log, batch, sync);
      && (InRecords(log'.records, e) <==> InRecords(log.records, e) || e in batch)
      && (InRecords(log.records[..log.synced], e) ==> InRecords(log'.records[..log'.synced], e))
      && (sync && e in batch ==> InRecords(log'.records[..log'.synced], e))
  {
    var log' := Append(log, batch, sync);
    assert log'.records[|log.records|] == batch;
    assert forall i :: 0 <= i < |log.records| ==> log'.records[i] == log.records[i];
    if InRecords(log.records[..log.synced], e) {
      var i :| 0 <= i < log.synced && e in log.records[..log.synced][i];
      assert log'.records[..log'.synced][i] == log.records[i];
    }
    if sync && e in batch {
      assert log'.records[..log'.synced][|log.records|] == batch;
    }
  }

  /** The manifest and the tables it lists unchanged, an appended log loses nothing. */
  lemma AppendKeepsRecoverable(d: Disk, l: nat, batch: set<Entry>, sync: bool, e: Entry)
    requires DiskOk(d) && l in d.logs && d.manifest.logNumber <= l
    ensures var d' := d.(logs := d.logs[l := Append(d.logs[l], batch, sync)]);
      && (Recoverable(d, e) || e in batch ==> Recoverable(d', e))
      && (SurelyRecoverable(d, e) || (sync && e in batch) ==> SurelyRecoverable(d', e))
  {
    var d' := d.(logs := d.logs[l := Append(d.logs[l], batch, sync)]);
    AppendedRecords(d.logs[l], batch, sync, e);
    assert forall k :: k in d.logs && k != l ==> d'.logs[k] == d.logs[k];
    assert l in d'.logs;
    if InTables(d, d.manifest.files, e) {
      assert InTables(d', d'.manifest.files, e);
    }
    if InLogs(d, e) {
      var k :| k in d.logs && d.manifest.logNumber <= k && InRecords(d.logs[k].records, e);
      assert k in d'.logs && InRecords(d'.logs[k].records, e);
    }
    if InSyncedLogs(d, e) {
      var k :| k in d.logs && d.manifest.logNumber <= k && d.logs[k].synced <= |d.logs[k].records|
               && InRecords(d.logs[k].records[..d.logs[k].synced], e);
      assert k in d'.logs && InRecords(d'.logs[k].records[..d'.logs[k].synced], e);
    }
  }

  lemma AppendLosesNothing(s: State, l: nat, batch: set<Entry>, sync: bool, s': State)
    requires DiskOk(s.disk) && NothingLost(s) && l in s.disk.logs && s.disk.manifest.logNumber <= l
    requires s'.disk == s.disk.(logs := s.disk.logs[l := Append(s.disk.logs[l], batch, sync)])
    requires s'.superseded == s.superseded && s'.durable <= s'.acked
    requires s'.acked <= s.acked + batch && s'.durable <= s.durable + (if sync then batch else {})
    ensures NothingLost(s')
  {
    forall e
      ensures (Recoverable(s.disk, e) || e in batch ==> Recoverable(s'.disk, e))
           && (SurelyRecoverable(s.disk, e) || (sync && e in batch) ==> SurelyRecoverable(s'.disk, e))
    {
      AppendKeepsRecoverable(s.disk, l, batch, sync, e);
    }
  }

  /** An appended record belongs to the batch or was there already. */
  lemma AppendAddsOnlyBatch(d: Disk, l: nat, batch: set<Entry>, sync: bool)
    requires DiskOk(d) && l in d.logs
    ensures var d' := d.(logs := d.logs[l := Append(d.logs[l], batch, sync)]);
      forall k, e ::
        k in d'.logs && InRecords(d'.logs[k].records, e) ==> InRecords(d.logs[k].records, e) || (k == l && e in batch)
  {
    forall e
      ensures InRecords(Append(d.logs[l], batch, sync).records, e) <==> InRecords(d.logs[l].records, e) || e in batch
    {
      AppendedRecords(d.logs[l], batch, sync, e);
    }
  }

  lemma AppendKeepsMemory(s: State, m: Memory, batch: set<Entry>, sync: bool, s': State)
    requires DiskOk(s.disk) && NothingInvented(s) && s.mode == Up(m) && LogsMatchMemory(s, m) && Fresh(s, batch)
    requires m.logfile in s.disk.logs
    requires s'.disk == s.disk.(logs := s.disk.logs[m.logfile := Append(s.disk.logs[m.logfile], batch, sync)])
    requires s'.written == s.written + batch
    requires || (s'.acked == s.acked + batch && s'.mode == Up(m.(mem := m.mem + batch)))
             || (s'.acked == s.acked && s'.mode == Up(m.(bgError := true)))
    ensures NothingInvented(s') && LogsMatchMemory(s', s'.mode.m)
  {
    AppendAddsOnlyBatch(s.disk, m.logfile, batch, sync);
  }

  lemma WriterKeepsData(s: State, step: Step, s': State)
    requires Inv(s) && s.mode.Up? && WriterStep(s.disk, s.mode.m, step, s, s')
    ensures NothingLost(s') && NothingInvented(s') && s'.mode.Up? && LogsMatchMemory(s', s'.mode.m)
    ensures AllReadable(s', s'.mode.m) && OutputsCover(s', s'.mode.m)
  {
    var d, m := s.disk, s.mode.m;
    SameTables(d, s'.disk);
    match step
    case Write(batch, sync) =>
      AppendLosesNothing(s, m.logfile, batch, sync, s');
      AppendKeepsMemory(s, m, batch, sync, s');
    case SyncFails(batch) =>
      AppendLosesNothing(s, m.logfile, batch, false, s');
      AppendKeepsMemory(s, m, batch, false, s');
    case SwitchLog =>
      NewLogLosesNothing(d, m.nextFile);
      assert forall e :: !InRecords([], e);
    case _ =>
  }

  lemma SameTables(d: Disk, d': Disk)
    requires d'.tables == d.tables
    ensures forall files, e :: InTables(d', files, e) == InTables(d, files, e)
  {
  }

  lemma NewLogLosesNothing(d: Disk, l: nat)
    requires l !in d.logs
    ensures var d' := d.(logs := d.logs[l := Log([], 0)]);
      forall e :: (Recoverable(d, e) ==> Recoverable(d', e)) && (SurelyRecoverable(d, e) ==> SurelyRecoverable(d', e))
  {
    var d' := d.(logs := d.logs[l := Log([], 0)]);
    assert forall k :: k in d.logs ==> k in d'.logs && d'.logs[k] == d.logs[k];
    assert forall e :: InTables(d, d.manifest.files, e) ==> InTables(d', d'.manifest.files, e);
    assert forall e :: InLogs(d, e) ==> InLogs(d', e);
    assert forall e :: InSyncedLogs(d, e) ==> InSyncedLogs(d', e);
  }

  /** Writing a table under a number nobody uses changes no other file. */
  lemma NewTable(d: Disk, n: nat, contents: set<Entry>, files: set<nat>, e: Entry)
    requires n !in files
    ensures InTables(d.(tables := d.tables[n := contents]), files, e) == InTables(d, files, e)
  {
    var d' := d.(tables := d.tables[n := contents]);
    assert forall f :: f in files ==> (f in d'.tables <==> f in d.tables);
    assert forall f :: f in files && f in d.tables ==> d'.tables[f] == d.tables[f];
  }

  lemma NewTableKeepsData(s: State, m: Memory, n: nat, contents: set<Entry>, s': State)
    requires NothingLost(s) && NothingInvented(s) && s.mode == Up(m) && LogsMatchMemory(s, m) && AllReadable(s, m)
    requires n !in m.current + s.disk.manifest.files && contents <= s.written
    requires s'.mode.Up? && s' == s.(disk := s.disk.(tables := s.disk.tables[n := contents]), mode := s'.mode)
    requires var m' := s'.mode.m;
      m'.mem == m.mem && m'.imm == m.imm && m'.current == m.current && m'.logNumber == m.logNumber
        && m'.logfile == m.logfile
    ensures NothingLost(s') && NothingInvented(s') && LogsMatchMemory(s', s'.mode.m) && AllReadable(s', s'.mode.m)
  {
    forall e ensures InTables(s'.disk, m.current, e) == InTables(s.disk, m.current, e)
                  && InTables(s'.disk, s.disk.manifest.files, e) == InTables(s.disk, s.disk.manifest.files, e) {
      NewTable(s.disk, n, contents, m.current, e);
      NewTable(s.disk, n, contents, s.disk.manifest.files, e);
    }
    assert forall e :: InLogs(s'.disk, e) == InLogs(s.disk, e);
    assert forall e :: InSyncedLogs(s'.disk, e) == InSyncedLogs(s.disk, e);
  }

  /** Recording the flush drops the older logs: what they held is in the new table. */
  lemma FlushEditLosesNothing(s: State, m: Memory, s': State)
    requires NothingLost(s) && LogsMatchMemory(s, m) && m.flush.Built? && m.imm.Some?
    requires m.flush.number in s.disk.tables && s.disk.tables[m.flush.number] == m.imm.value
    requires m.logNumber <= s.disk.manifest.logNumber
    requires s'.disk == s.disk.(manifest := FlushEdit(s.disk, m, m.flush.number))
    requires s'.acked == s.acked && s'.durable == s.durable && s'.superseded == s.superseded
    ensures NothingLost(s')
  {
    var d, d', n := s.disk, s'.disk, m.flush.number;
    forall e ensures InTables(d, d.manifest.files, e) || e in m.imm.value ==> InTables(d', d'.manifest.files, e) {
    }
    forall e | e in s.acked && InLogs(d, e)
      ensures Recoverable(d', e)
    {
      var l :| l in d.logs && d.manifest.logNumber <= l && InRecords(d.logs[l].records, e);
      assert l < m.logfile ==> e in m.imm.value;
      assert l >= m.logfile ==> InLogs(d', e);
    }
    forall e | e in s.durable && InSyncedLogs(d, e)
      ensures SurelyRecoverable(d', e)
    {
      var l :| l in d.logs && d.manifest.logNumber <= l && d.logs[l].synced <= |d.logs[l].records|
               && InRecords(d.logs[l].records[..d.logs[l].synced], e);
      PrefixRecords(d.logs[l].records, d.logs[l].synced, e);
      assert l < m.logfile ==> e in m.imm.value;
      assert l >= m.logfile ==> InSyncedLogs(d', e);
    }
  }

  lemma PrefixRecords(records: seq<set<Entry>>, n: nat, e: Entry)
    requires n <= |records| && InRecords(records[..n], e)
    ensures InRecords(records, e)
  {
    var i :| 0 <= i < n && e in records[..n][i];
    assert e in records[i];
  }

  lemma FlushKeepsData(s: State, step: Step, s': State)
    requires Inv(s) && s.mode.Up? && FlushStep(s.disk, s.mode.m, step, s, s')
    ensures NothingLost(s') && NothingInvented(s') && s'.mode.Up? && LogsMatchMemory(s', s'.mode.m)
    ensures AllReadable(s', s'.mode.m) && OutputsCover(s', s'.mode.m)
  {
    var d, m := s.disk, s.mode.m;
    match step
    case BuildTable => NewTableKeepsData(s, m, m.flush.number, m.imm.value, s');
    case LogFlush => FlushEditLosesNothing(s, m, s'); SameTables(d, s'.disk);
    case FlushFails(recorded) =>
      SameTables(d, s'.disk);
      if recorded {
        FlushEditLosesNothing(s, m, s');
      }
    case InstallFlush =>
      forall e | e in m.imm.value || InTables(d, m.current, e) ensures InTables(d, s'.mode.m.current, e) {
        if e in m.imm.value { assert m.flush.number in s'.mode.m.current; }
      }
    case StartFlush =>
  }

  /** Recording a compaction unlists its inputs: what they held is in an output or superseded. */
  lemma CompactionEditLosesNothing(s: State, m: Memory, inputs: set<nat>, outputs: set<nat>, s': State)
    requires NothingLost(s) && m.logNumber <= s.disk.manifest.logNumber
    requires s'.disk == s.disk.(manifest := CompactionEdit(s.disk, m, inputs, outputs))
    requires s'.acked == s.acked && s'.durable == s.durable
    requires s'.superseded == s.superseded + LeftOut(s.disk, inputs, outputs)
    ensures NothingLost(s')
  {
    var d, d' := s.disk, s'.disk;
    forall e | InTables(d, d.manifest.files, e)
      ensures e in s'.superseded || InTables(d', d'.manifest.files, e)
    {
      var f :| f in d.manifest.files && f in d.tables && e in d.tables[f];
      if f in inputs && InTables(d, outputs, e) {
        var g :| g in outputs && g in d.tables && e in d.tables[g];
        assert g in d'.manifest.files;
      } else if f !in inputs {
        assert f in d'.manifest.files;
      }
    }
    assert forall e :: InLogs(d, e) ==> InLogs(d', e);
    assert forall e :: InSyncedLogs(d, e) ==> InSyncedLogs(d', e);
  }

  lemma InputsCovered(d: Disk, inputs: set<nat>, outputs: set<nat>, e: Entry)
    requires InTables(d, inputs, e)
    ensures e in LeftOut(d, inputs, outputs) || InTables(d, outputs, e)
  {
    var f :| f in inputs && f in d.tables && e in d.tables[f];
  }

  lemma CompactionKeepsData(s: State, step: Step, s': State)
    requires Inv(s) && s.mode.Up? && CompactionStep(s.disk, s.mode.m, step, s, s')
    ensures NothingLost(s') && NothingInvented(s') && s'.mode.Up? && LogsMatchMemory(s', s'.mode.m)
    ensures AllReadable(s', s'.mode.m) && OutputsCover(s', s'.mode.m)
  {
    var d, m := s.disk, s.mode.m;
    var c := m.compaction;
    match step
    case WriteOutput(contents) => NewTableKeepsData(s, m, m.nextFile, contents, s');
    case LogCompaction =>
      CompactionEditLosesNothing(s, m, c.inputs, c.outputs, s');
      SameTables(d, s'.disk);
      forall e | InTables(d, c.inputs, e) ensures e in s'.superseded || InTables(d, c.outputs, e) {
        InputsCovered(d, c.inputs, c.outputs, e);
      }
    case CompactionFails(recorded) =>
      SameTables(d, s'.disk);
      if recorded {
        CompactionEditLosesNothing(s, m, c.inputs, c.outputs, s');
      }
    case InstallCompaction => InstallKeepsReadable(s, m, s'.mode.m);
    case StartCompaction(chosen) =>
  }

  lemma InstallKeepsReadable(s: State, m: Memory, m': Memory)
    requires AllReadable(s, m) && OutputsCover(s, m) && m.compaction.CompactionLogged?
    requires m'.mem == m.mem && m'.imm == m.imm && m'.current == m.current - m.compaction.inputs + m.compaction.outputs
    ensures AllReadable(s, m')
  {
    var d, c := s.disk, m.compaction;
    forall e | InTables(d, m.current, e)
      ensures e in s.superseded || InTables(d, m'.current, e)
    {
      var f :| f in m.current && f in d.tables && e in d.tables[f];
      if f in c.inputs {
        assert InTables(d, c.inputs, e);
      } else {
        assert f in m'.current;
      }
    }
    forall e | InTables(d, c.outputs, e) ensures InTables(d, m'.current, e) {
      var f :| f in c.outputs && f in d.tables && e in d.tables[f];
      assert f in m'.current;
    }
  }

  lemma DeletedTable(d: Disk, n: nat, files: set<nat>, e: Entry)
    requires n !in files
    ensures InTables(d.(tables := d.tables - {n}), files, e) == InTables(d, files, e)
  {
    var d' := d.(tables := d.tables - {n});
    assert forall f :: f in files ==> (f in d'.tables <==> f in d.tables);
    assert forall f :: f in files && f in d.tables ==> d'.tables[f] == d.tables[f];
  }

  lemma DeleteTableKeepsData(s: State, f: nat, s': State)
    requires Inv(s) && s.mode.Up? && DeletionStep(s.disk, s.mode.m, DeleteTable(f), s, s')
    ensures NothingLost(s') && NothingInvented(s') && LogsMatchMemory(s', s'.mode.m)
    ensures AllReadable(s', s'.mode.m) && OutputsCover(s', s'.mode.m)
  {
    var d, d', m := s.disk, s'.disk, s.mode.m;
    assert f !in Live(m) && f !in d.manifest.files;
    forall e ensures InTables(d', m.current, e) == InTables(d, m.current, e)
                  && InTables(d', d.manifest.files, e) == InTables(d, d.manifest.files, e) {
      DeletedTable(d, f, m.current, e);
      DeletedTable(d, f, d.manifest.files, e);
    }
    if m.compaction.CompactionLogged? {
      forall e ensures InTables(d', m.compaction.inputs, e) == InTables(d, m.compaction.inputs, e)
                    && InTables(d', m.compaction.outputs, e) == InTables(d, m.compaction.outputs, e) {
        DeletedTable(d, f, m.compaction.inputs, e);
        DeletedTable(d, f, m.compaction.outputs, e);
      }
    }
    assert forall e :: InLogs(d', e) == InLogs(d, e);
    assert forall e :: InSyncedLogs(d', e) == InSyncedLogs(d, e);
  }

  lemma DeletionKeepsData(s: State, step: Step, s': State)
    requires Inv(s) && s.mode.Up? && DeletionStep(s.disk, s.mode.m, step, s, s')
    ensures NothingLost(s') && NothingInvented(s') && s'.mode.Up? && LogsMatchMemory(s', s'.mode.m)
    ensures AllReadable(s', s'.mode.m) && OutputsCover(s', s'.mode.m)
  {
    var d, d', m := s.disk, s'.disk, s.mode.m;
    match step
    case CollectObsolete =>
    case DeleteTable(f) => DeleteTableKeepsData(s, f, s');
    case DeleteLog(l) =>
      SameTables(d, d');
      assert l < d.manifest.logNumber;
      assert forall k :: k in d.logs && k != l ==> k in d'.logs && d'.logs[k] == d.logs[k];
      assert forall e :: InLogs(d, e) ==> InLogs(d', e);
      assert forall e :: InSyncedLogs(d, e) ==> InSyncedLogs(d', e);
  }

  // ---- Crashes and recovery keep the invariant ----

  lemma MachineDeathLosesNothingSynced(s: State, keep: map<nat, nat>, s': State)
    requires Inv(s) && CrashStep(s, MachineDies(keep), s')
    ensures Inv(s')
  {
    var d, d' := s.disk, s'.disk;
    SameTables(d, d');
    forall l, e | l in d'.logs
      ensures InRecords(d.logs[l].records[..d.logs[l].synced], e) ==>
        InRecords(d'.logs[l].records[..d'.logs[l].synced], e)
      ensures InRecords(d'.logs[l].records, e) ==> InRecords(d.logs[l].records, e)
    {
      assert d'.logs[l].records[..d'.logs[l].synced] == d.logs[l].records[..d.logs[l].synced];
      if InRecords(d'.logs[l].records, e) {
        PrefixRecords(d.logs[l].records, keep[l], e);
      }
    }
    assert forall e :: InSyncedLogs(d, e) ==> InSyncedLogs(d', e);
    forall e | InSyncedLogs(d', e) ensures InLogs(d', e) {
      var l :| l in d'.logs && d'.manifest.logNumber <= l && d'.logs[l].synced <= |d'.logs[l].records|
               && InRecords(d'.logs[l].records[..d'.logs[l].synced], e);
      PrefixRecords(d'.logs[l].records, d'.logs[l].synced, e);
    }
  }

  lemma ReplayKeepsInv(s: State, replayed: map<nat, set<Entry>>, l: nat, s': State)
    requires Inv(s) && CrashStep(s, Replay(replayed, l), s')
    ensures Inv(s')
  {
    var d, d' := s.disk, s'.disk;
    assert forall f :: f in d.manifest.files ==> f in d'.tables && d'.tables[f] == d.tables[f];
    assert forall e :: InTables(d, d.manifest.files, e) ==> InTables(d', d.manifest.files, e);
    NewLogLosesNothing(d, l);
    assert forall e :: !InRecords([], e);
    forall n, e | n in replayed && e in replayed[n] ensures e in s.written {
      assert InLogs(d, e);
    }
    forall e | InLogs(d', e) ensures InTables(d', replayed.Keys, e) {
      assert InLogs(d, e);
      var n :| n in replayed && e in replayed[n];
      assert n in d'.tables && e in d'.tables[n];
    }
  }

  lemma OpenDoneKeepsInv(s: State, s': State)
    requires Inv(s) && CrashStep(s, OpenDone, s')
    ensures Inv(s')
  {
    var d, d', tables := s.disk, s'.disk, s.mode.tables;
    assert Pinned(s'.mode.m) == {};
    forall e | Recoverable(d, e) ensures InTables(d', d'.manifest.files, e) {
      if InLogs(d, e) {
        var n :| n in tables && n in d.tables && e in d.tables[n];
        assert n in d'.manifest.files;
      } else {
        var f :| f in d.manifest.files && f in d.tables && e in d.tables[f];
        assert f in d'.manifest.files;
      }
    }
    forall e | SurelyRecoverable(d, e) ensures Recoverable(d, e) {
      if InSyncedLogs(d, e) {
        var l :| l in d.logs && d.manifest.logNumber <= l && d.logs[l].synced <= |d.logs[l].records|
                 && InRecords(d.logs[l].records[..d.logs[l].synced], e);
        PrefixRecords(d.logs[l].records, d.logs[l].synced, e);
      }
    }
    assert forall e :: !InRecords([], e);
  }

  lemma RunningStepKeepsInv(s: State, step: Step, s': State)
    requires Inv(s) && s.mode.Up?
    requires || WriterStep(s.disk, s.mode.m, step, s, s') || FlushStep(s.disk, s.mode.m, step, s, s')
             || CompactionStep(s.disk, s.mode.m, step, s, s') || DeletionStep(s.disk, s.mode.m, step, s, s')
    ensures DiskOk(s'.disk) && s'.mode.Up? && UpOk(s'.disk, s'.mode.m)
    ensures NothingLost(s') && NothingInvented(s') && LogsMatchMemory(s', s'.mode.m)
    ensures AllReadable(s', s'.mode.m) && OutputsCover(s', s'.mode.m)
  {
    if WriterStep(s.disk, s.mode.m, step, s, s') {
      WriterKeepsStructure(s, step, s');
      WriterKeepsData(s, step, s');
    } else if FlushStep(s.disk, s.mode.m, step, s, s') {
      FlushKeepsStructure(s, step, s');
      FlushKeepsData(s, step, s');
    } else if CompactionStep(s.disk, s.mode.m, step, s, s') {
      CompactionKeepsStructure(s, step, s');
      CompactionKeepsData(s, step, s');
    } else {
      DeletionKeepsStructure(s, step, s');
      DeletionKeepsData(s, step, s');
    }
  }

  lemma CrashKeepsInv(s: State, step: Step, s': State)
    requires Inv(s) && CrashStep(s, step, s')
    ensures Inv(s')
  {
    match step
    case ProcessDies =>
    case MachineDies(keep) => MachineDeathLosesNothingSynced(s, keep, s');
    case Replay(replayed, l) => ReplayKeepsInv(s, replayed, l, s');
    case OpenDone => OpenDoneKeepsInv(s, s');
  }

  lemma StepKeepsInv(s: State, step: Step, s': State)
    requires Inv(s) && Next(s, step, s')
    ensures Inv(s')
  {
    if CrashStep(s, step, s') {
      CrashKeepsInv(s, step, s');
    } else {
      RunningStepKeepsInv(s, step, s');
    }
  }

  // ---- Whole runs ----

  /** A new database: NewDB writes a manifest that lists nothing. */
  ghost predicate Init(s: State) {
    s == State(Disk(map[], map[], Manifest({}, 0, 2)), {}, {}, {}, {}, Down)
  }

  ghost predicate IsRun(run: seq<State>, steps: seq<Step>) {
    && |run| == |steps| + 1 && Init(run[0])
    && forall i :: 0 <= i < |steps| ==> Next(run[i], steps[i], run[i + 1])
  }

  lemma {:induction false} RunsKeepInv(run: seq<State>, steps: seq<Step>, i: nat)
    requires IsRun(run, steps) && i < |run|
    ensures Inv(run[i])
  {
    if i > 0 {
      RunsKeepInv(run, steps, i - 1);
      StepKeepsInv(run[i - 1], steps[i - 1], run[i]);
    }
  }

  /** At every moment of every run, whatever crash comes next, recovery brings every promised
      write back: all acknowledged ones if the process dies, all synced ones if the machine does.
      Recovery never meets a listed table that is missing, and it brings back nothing unwritten. */
  lemma CrashLosesNothing(run: seq<State>, steps: seq<Step>, i: nat)
    requires IsRun(run, steps) && i < |run|
    ensures forall e :: e in run[i].acked ==> e in run[i].superseded || Recoverable(run[i].disk, e)
    ensures forall e :: e in run[i].durable ==> e in run[i].superseded || SurelyRecoverable(run[i].disk, e)
    ensures run[i].disk.manifest.files <= run[i].disk.tables.Keys
    ensures forall e :: Recoverable(run[i].disk, e) ==> e in run[i].written
  {
    RunsKeepInv(run, steps, i);
  }

  /** After any crash and recovery the reopened database serves every promised write. */
  lemma ReopenedServesEverything(run: seq<State>, steps: seq<Step>, i: nat)
    requires IsRun(run, steps) && i < |run| && run[i].mode.Up?
    ensures forall e :: e in run[i].acked ==> e in run[i].superseded || Readable(run[i].disk, run[i].mode.m, e)
  {
    RunsKeepInv(run, steps, i);
  }

  /** No run deletes a table that the manifest lists, that a live version lists or that is being
      written, nor a log that recovery would replay. */
  lemma DeletionsAreOfGarbage(run: seq<State>, steps: seq<Step>, i: nat)
    requires IsRun(run, steps) && i < |steps|
    ensures steps[i].DeleteTable? ==>
      run[i].mode.Up? && steps[i].file !in Live(run[i].mode.m) + run[i].disk.manifest.files
    ensures steps[i].DeleteLog? ==> steps[i].file < run[i].disk.manifest.logNumber
  {
    RunsKeepInv(run, steps, i);
    assert Next(run[i], steps[i], run[i + 1]);
  }

  // ---- Garbage goes away ----

  /** A run in which the collected files are deleted one after the other. */
  ghost predicate DeletesFrom(s: State, steps: seq<Step>, s': State)
    decreases |steps|
  {
    if steps == [] then s' == s
    else
      && (steps[0].DeleteTable? || steps[0].DeleteLog?)
      && exists mid :: Next(s, steps[0], mid) && DeletesFrom(mid, steps[1..], s')
  }

  /** The files on disk that no deletion is under way for. */
  ghost function Unscheduled(s: State): (r: (set<nat>, set<nat>))
    requires s.mode.Up?
  {
    (s.disk.tables.Keys - s.mode.m.deletingTables, s.disk.logs.Keys - s.mode.m.deletingLogs)
  }

  lemma {:induction false} DeletionsKeepTheRest(s: State, steps: seq<Step>, s': State)
    requires s.mode.Up? && DeletesFrom(s, steps, s')
    ensures s'.mode.Up? && Unscheduled(s') == Unscheduled(s)
    ensures s'.mode.m == s.mode.m.(deletingTables := s'.mode.m.deletingTables, deletingLogs := s'.mode.m.deletingLogs)
    decreases |steps|
  {
    if steps != [] {
      var mid :| Next(s, steps[0], mid) && DeletesFrom(mid, steps[1..], s');
      assert DeletionStep(s.disk, s.mode.m, steps[0], s, mid);
      assert Unscheduled(mid).0 == Unscheduled(s).0;
      assert Unscheduled(mid).1 == Unscheduled(s).1;
      DeletionsKeepTheRest(mid, steps[1..], s');
    }
  }

  /** Every collected file can be deleted, whichever is next. */
  lemma {:induction false} DeletionsFinish(s: State) returns (steps: seq<Step>, s': State)
    requires s.mode.Up?
    ensures DeletesFrom(s, steps, s') && s'.mode.Up?
    ensures s'.mode.m.deletingTables == {} && s'.mode.m.deletingLogs == {}
    decreases |s.mode.m.deletingTables| + |s.mode.m.deletingLogs|
  {
    var d, m := s.disk, s.mode.m;
    if m.deletingTables == {} && m.deletingLogs == {} {
      steps, s' := [], s;
    } else {
      var step, mid;
      if f :| f in m.deletingTables {
        step := DeleteTable(f);
        mid := s.(disk := d.(tables := d.tables - {f}), mode := Up(m.(deletingTables := m.deletingTables - {f})));
      } else {
        var l :| l in m.deletingLogs;
        step := DeleteLog(l);
        mid := s.(disk := d.(logs := d.logs - {l}), mode := Up(m.(deletingLogs := m.deletingLogs - {l})));
      }
      var rest;
      rest, s' := DeletionsFinish(mid);
      steps := [step] + rest;
      assert steps[1..] == rest && Next(s, steps[0], mid);
    }
  }

  /**
   * After a collection whose deletions are done the disk holds exactly the tables that are live and
   * the logs from the log number on.
   */
  lemma CollectionLeavesNoGarbage(s: State, collected: State, steps: seq<Step>, s': State)
    requires s.mode.Up? && Next(s, CollectObsolete, collected) && DeletesFrom(collected, steps, s')
    requires s'.mode.Up? && s'.mode.m.deletingTables == {} && s'.mode.m.deletingLogs == {}
    requires Inv(s)
    ensures s'.disk.tables.Keys == s.disk.tables.Keys * Live(s.mode.m)
    ensures s'.disk.logs.Keys == set l | l in s.disk.logs && s.mode.m.logNumber <= l
  {
    DeletionsKeepTheRest(collected, steps, s');
    assert Unscheduled(s').0 == s'.disk.tables.Keys && Unscheduled(s').1 == s'.disk.logs.Keys;
  }
}
