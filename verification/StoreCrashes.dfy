/** The leveled store on disk: its runs are crash-safe runs, so a crash at any moment loses nothing. */
module StoreCrashes {
  import opened InternalKeys
  import opened FlatStore
  import opened Wrappers
  import opened Levels
  import opened LayeredGet
  import opened InputSelection
  import opened CompactionWork
  import opened Layering
  import opened BoundaryRule
  import Store = StoreSteps
  import Runs = StoreRuns
  import Crash = CrashSafety
  import CrashReads
  import MergeRules
  import Builder = VersionBuilder

  // ---- What the two machines have in common ----

  ghost predicate InVersion(v: Version, f: File) {
    exists l :: 0 <= l < NUM_LEVELS && f in v[l]
  }

  /** The file's entries are in a listed table; `names` takes the store's file numbers to those on disk. */
  ghost predicate Named(f: File, tables: map<nat, set<Entry>>, current: set<nat>, names: map<nat, nat>) {
    f.number in names && HasTable(names[f.number], f, tables, current)
  }

  ghost predicate HasTable(n: nat, f: File, tables: map<nat, set<Entry>>, current: set<nat>) {
    n in current && n in tables && tables[n] == Contents(f.entries)
  }

  ghost predicate NameOf(v: Version, names: map<nat, nat>, n: nat) {
    exists f :: InVersion(v, f) && f.number in names && names[f.number] == n
  }

  /** The tables of the current version are those of the store's files, and perhaps empty ones. */
  ghost predicate TablesMatch(v: Version, tables: map<nat, set<Entry>>, current: set<nat>, names: map<nat, nat>) {
    && (forall f :: InVersion(v, f) ==> Named(f, tables, current, names))
    && forall n :: n in current ==> n in tables && (tables[n] == {} || NameOf(v, names, n))
  }

  /** No background work is under way. */
  ghost predicate Quiet(m: Crash.Memory) {
    m.flush.NoFlush? && m.compaction.NoCompaction? && m.deletingTables == {} && !m.bgError
  }

  ghost predicate MemoryMatches(s: Store.State, m: Crash.Memory) {
    && m.mem == Contents(s.mem) && (m.imm.Some? <==> s.imm.Some?)
    && (s.imm.Some? ==> m.imm.value == Contents(s.imm.value))
  }

  ghost predicate HistoryMatches(s: Store.State, c: Crash.State) {
    && c.acked == s.history && c.written == s.history
    && forall e :: e in s.history ==> e.key.seqno <= s.lastSequence
  }

  ghost predicate Coupled(s: Store.State, c: Crash.State, names: map<nat, nat>) {
    && c.mode.Up? && Quiet(c.mode.m) && c.disk.manifest.files == c.mode.m.current
    && MemoryMatches(s, c.mode.m) && HistoryMatches(s, c)
    && TablesMatch(s.version, c.disk.tables, c.mode.m.current, names)
  }

  // ---- Crash runs ----

  /** A crash run whose merges are sound and whose writes all succeed. */
  ghost predicate SoundRun(run: seq<Crash.State>, acts: seq<Crash.Step>) {
    && Crash.IsRun(run, acts)
    && (forall i :: 0 <= i < |acts| ==> CrashReads.SoundStep(run[i], acts[i]))
    && forall i :: 0 <= i < |run| ==> run[i].acked == run[i].written
  }

  ghost function Last(run: seq<Crash.State>): (c: Crash.State)
    requires run != []
  {
    run[|run| - 1]
  }

  lemma Extend(run: seq<Crash.State>, acts: seq<Crash.Step>, act: Crash.Step, c: Crash.State)
    requires SoundRun(run, acts) && Crash.Next(Last(run), act, c) && CrashReads.SoundStep(Last(run), act)
    requires c.acked == c.written
    ensures SoundRun(run + [c], acts + [act]) && Last(run + [c]) == c
  {
  }

  lemma RunFacts(run: seq<Crash.State>, acts: seq<Crash.Step>)
    requires SoundRun(run, acts)
    ensures Crash.Inv(Last(run)) && CrashReads.Reads(Last(run)) && Last(run).superseded <= Last(run).written
  {
    CrashReads.RunsKeepReads(run, acts, |acts|);
    CrashReads.DropsWereWritten(run, acts, |acts|);
  }

  // ---- Writing and switching ----

  lemma SequencedEntries(batch: seq<Entry>, last: SequenceNumber)
    requires Store.Sequenced(batch, last)
    ensures Distinct(Contents(batch))
    ensures forall e :: e in Contents(batch) ==> last < e.key.seqno <= last + |batch|
  {
  }

  lemma NewBatch(s: Store.State, c: Crash.State, batch: set<Entry>)
    requires HistoryMatches(s, c) && Crash.Inv(c) && c.superseded <= c.written && Distinct(batch)
    requires forall e :: e in batch ==> s.lastSequence < e.key.seqno
    ensures Crash.Fresh(c, batch) && CrashReads.Sequenced(c, batch)
  {
    forall f | CrashReads.Remembered(c, f) ensures f in s.history {
    }
  }

  lemma SimulateWrite(
    run: seq<Crash.State>, acts: seq<Crash.Step>, s: Store.State, step: Store.Step, s': Store.State,
    names: map<nat, nat>)
    returns (run': seq<Crash.State>, acts': seq<Crash.Step>)
    requires SoundRun(run, acts) && Coupled(s, Last(run), names) && step.Write? && Store.Next(s, step, s')
    ensures SoundRun(run', acts') && Coupled(s', Last(run'), names)
  {
    RunFacts(run, acts);
    SequencedEntries(step.batch, s.lastSequence);
    var c, batch := Last(run), Contents(step.batch);
    NewBatch(s, c, batch);
    var m, act := c.mode.m, Crash.Write(batch, true);
    var logs := c.disk.logs[m.logfile := Crash.Append(c.disk.logs[m.logfile], batch, true)];
    var c' := c.(disk := c.disk.(logs := logs), acked := c.acked + batch, written := c.written + batch,
                 durable := c.durable + batch, mode := Crash.Up(m.(mem := m.mem + batch)));
    Extend(run, acts, act, c');
    run', acts' := run + [c'], acts + [act];
  }

  lemma SimulateSwitch(
    run: seq<Crash.State>, acts: seq<Crash.Step>, s: Store.State, s': Store.State, names: map<nat, nat>)
    returns (run': seq<Crash.State>, acts': seq<Crash.Step>)
    requires SoundRun(run, acts) && Coupled(s, Last(run), names) && Store.Next(s, Store.SwitchMemTable, s')
    ensures SoundRun(run', acts') && Coupled(s', Last(run'), names)
  {
    var c := Last(run);
    var m := c.mode.m;
    var m' := m.(mem := {}, imm := Some(m.mem), logfile := m.nextFile, nextFile := m.nextFile + 1);
    var c' := c.(disk := c.disk.(logs := c.disk.logs[m.nextFile := Crash.Log([], 0)]), mode := Crash.Up(m'));
    Extend(run, acts, Crash.SwitchLog, c');
    run', acts' := run + [c'], acts + [Crash.SwitchLog];
  }

  // ---- Flushing ----

  /** The four steps of a flush, seen from the quiet states before and after it. */
  ghost function AfterFlush(c: Crash.State): (r: Crash.State)
    requires c.mode.Up? && c.mode.m.imm.Some?
  {
    var m := c.mode.m;
    var n := m.nextFile;
    var d := c.disk.(tables := c.disk.tables[n := m.imm.value],
                     manifest := Crash.Manifest(c.disk.manifest.files + {n}, m.logfile, n + 1));
    c.(disk := d, mode := Crash.Up(m.(current := m.current + {n}, logNumber := m.logfile, imm := None,
      pending := m.pending + {n} - {n}, nextFile := n + 1)))
  }

  lemma SimulateFlushing(run: seq<Crash.State>, acts: seq<Crash.Step>)
    returns (run': seq<Crash.State>, acts': seq<Crash.Step>)
    requires SoundRun(run, acts) && Last(run).mode.Up? && Quiet(Last(run).mode.m) && Last(run).mode.m.imm.Some?
    ensures SoundRun(run', acts') && Last(run') == AfterFlush(Last(run))
  {
    var c := Last(run);
    var m := c.mode.m;
    var n := m.nextFile;
    var m1 := m.(flush := Crash.Building(n), pending := m.pending + {n}, nextFile := n + 1);
    var c1 := c.(mode := Crash.Up(m1));
    Extend(run, acts, Crash.StartFlush, c1);
    run', acts' := run + [c1], acts + [Crash.StartFlush];
    var m2 := m1.(flush := Crash.Built(n), pending := m1.pending - {n});
    var c2 := c1.(disk := c1.disk.(tables := c1.disk.tables[n := m.imm.value]), mode := Crash.Up(m2));
    Extend(run', acts', Crash.BuildTable, c2);
    run', acts' := run' + [c2], acts' + [Crash.BuildTable];
    var c3 := c2.(disk := c2.disk.(manifest := Crash.FlushEdit(c2.disk, m2, n)),
                  mode := Crash.Up(m2.(flush := Crash.FlushLogged(n))));
    Extend(run', acts', Crash.LogFlush, c3);
    run', acts' := run' + [c3], acts' + [Crash.LogFlush];
    var c4 := AfterFlush(c);
    assert c4.mode.m == c3.mode.m.(current := m.current + {n}, logNumber := m.logfile, imm := None,
      flush := Crash.NoFlush);
    Extend(run', acts', Crash.InstallFlush, c4);
    run', acts' := run' + [c4], acts' + [Crash.InstallFlush];
  }

  /** A table number the disk has not used for a listed table. */
  lemma NextIsFree(c: Crash.State)
    requires Crash.Inv(c) && c.mode.Up?
    ensures forall n :: n in c.mode.m.current ==> n < c.mode.m.nextFile && n in c.disk.tables
  {
    assert c.mode.m.current <= Crash.Live(c.mode.m);
  }

  lemma SimulateDrop(
    run: seq<Crash.State>, acts: seq<Crash.Step>, s: Store.State, s': Store.State, names: map<nat, nat>)
    returns (run': seq<Crash.State>, acts': seq<Crash.Step>)
    requires SoundRun(run, acts) && Coupled(s, Last(run), names) && Store.Next(s, Store.DropEmptyMemTable, s')
    ensures SoundRun(run', acts') && Coupled(s', Last(run'), names)
  {
    RunFacts(run, acts);
    NextIsFree(Last(run));
    run', acts' := SimulateFlushing(run, acts);
    var m := Last(run).mode.m;
    EmptyTableMatches(s.version, Last(run).disk.tables, m.current, names, m.nextFile);
  }

  lemma EmptyTableMatches(
    v: Version, tables: map<nat, set<Entry>>, current: set<nat>, names: map<nat, nat>, n: nat)
    requires TablesMatch(v, tables, current, names) && n !in current
    ensures TablesMatch(v, tables[n := {}], current + {n}, names)
  {
  }

  /** A new file's table joins the others. */
  lemma NewTableMatches(
    v: Version, v': Version, tables: map<nat, set<Entry>>, current: set<nat>, names: map<nat, nat>, n: nat, t: File)
    requires TablesMatch(v, tables, current, names) && n !in current
    requires forall f :: InVersion(v', f) <==> InVersion(v, f) || f == t
    requires forall f :: InVersion(v, f) ==> f.number != t.number
    ensures TablesMatch(v', tables[n := Contents(t.entries)], current + {n}, names[t.number := n])
  {
    var names' := names[t.number := n];
    forall k | k in current && NameOf(v, names, k) ensures NameOf(v', names', k) {
      var f :| InVersion(v, f) && f.number in names && names[f.number] == k;
      assert InVersion(v', f);
    }
    assert InVersion(v', t);
  }

  lemma FlushedFiles(s: Store.State, step: Store.Step, s': Store.State)
    requires Store.Structured(s) && step.FlushMemTable? && Store.Next(s, step, s')
    ensures forall f :: InVersion(s'.version, f) <==> InVersion(s.version, f) || f == step.table
    ensures forall f :: InVersion(s.version, f) ==> f.number != step.table.number
  {
    Store.FlushInstalls(s.version, step.level, step.table, s'.version);
    forall f ensures InVersion(s'.version, f) <==> InVersion(s.version, f) || f == step.table {
      assert step.table in s'.version[step.level];
      if InVersion(s.version, f) {
        var l :| 0 <= l < NUM_LEVELS && f in s.version[l];
        assert f in s'.version[l];
      }
    }
  }

  lemma SimulateFlush(
    run: seq<Crash.State>, acts: seq<Crash.Step>, s: Store.State, step: Store.Step, s': Store.State,
    names: map<nat, nat>)
    returns (run': seq<Crash.State>, acts': seq<Crash.Step>, names': map<nat, nat>)
    requires SoundRun(run, acts) && Coupled(s, Last(run), names) && Store.Structured(s)
    requires step.FlushMemTable? && Store.Next(s, step, s')
    ensures SoundRun(run', acts') && Coupled(s', Last(run'), names')
  {
    RunFacts(run, acts);
    NextIsFree(Last(run));
    run', acts' := SimulateFlushing(run, acts);
    var m := Last(run).mode.m;
    names' := names[step.table.number := m.nextFile];
    FlushedFiles(s, step, s');
    NewTableMatches(s.version, s'.version, Last(run).disk.tables, m.current, names, m.nextFile, step.table);
  }

  // ---- Moving ----

  /** A file is in one level only. */
  lemma OneLevel(v: Version, f: File, l: nat, m: nat)
    requires Store.UniqueNumbers(v) && l < NUM_LEVELS && m < NUM_LEVELS && f in v[l] && f in v[m]
    ensures l == m
  {
    assert l < m ==> Store.NumbersDiffer(v[l], v[m]);
    assert m < l ==> Store.NumbersDiffer(v[m], v[l]);
  }

  lemma StaysOrComes(
    v: Version, level: nat, in0: seq<File>, in1: seq<File>, outputs: seq<File>, v': Version, f: File)
    requires Store.Replaces(v, level, in0, in1, outputs, v') && Store.UniqueNumbers(v)
    requires (forall g :: g in in0 ==> g in v[level]) && forall g :: g in in1 ==> g in v[level + 1]
    ensures InVersion(v', f) <==> f in outputs || (InVersion(v, f) && f !in in0 && f !in in1)
  {
    if f in outputs {
      assert f in v'[level + 1];
    } else if InVersion(v, f) {
      var l :| 0 <= l < NUM_LEVELS && f in v[l];
      if f in in0 {
        OneLevel(v, f, l, level);
        forall k | 0 <= k < NUM_LEVELS && f in v[k] ensures k == level { OneLevel(v, f, k, level); }
      } else if f in in1 {
        forall k | 0 <= k < NUM_LEVELS && f in v[k] ensures k == level + 1 { OneLevel(v, f, k, level + 1); }
      } else {
        assert f in v'[l];
      }
    } else {
      forall k | 0 <= k < NUM_LEVELS ensures f !in v[k] {
      }
    }
  }

  lemma FilesReplaced(v: Version, level: nat, in0: seq<File>, in1: seq<File>, outputs: seq<File>, v': Version)
    requires Store.Replaces(v, level, in0, in1, outputs, v') && Store.UniqueNumbers(v)
    requires (forall g :: g in in0 ==> g in v[level]) && forall g :: g in in1 ==> g in v[level + 1]
    ensures forall f :: InVersion(v', f) <==> f in outputs || (InVersion(v, f) && f !in in0 && f !in in1)
  {
    forall f ensures InVersion(v', f) <==> f in outputs || (InVersion(v, f) && f !in in0 && f !in in1) {
      StaysOrComes(v, level, in0, in1, outputs, v', f);
    }
  }

  lemma MovedFiles(s: Store.State, step: Store.Step, s': Store.State)
    requires Store.Structured(s) && step.TrivialMove? && Store.Next(s, step, s')
    ensures forall f :: InVersion(s'.version, f) <==> InVersion(s.version, f)
  {
    var level, g := step.from, step.moved;
    assert g in [g] && g in s.version[level];
    Store.InstallGivesReplaces(s.version, level, [g], [], [g], s'.version);
    FilesReplaced(s.version, level, [g], [], [g], s'.version);
    assert InVersion(s.version, g);
  }

  lemma SameFilesMatch(v: Version, v': Version, tables: map<nat, set<Entry>>, current: set<nat>, names: map<nat, nat>)
    requires TablesMatch(v, tables, current, names) && forall f :: InVersion(v', f) <==> InVersion(v, f)
    ensures TablesMatch(v', tables, current, names)
  {
    forall n | n in current && NameOf(v, names, n) ensures NameOf(v', names, n) {
      var f :| InVersion(v, f) && f.number in names && names[f.number] == n;
      assert InVersion(v', f);
    }
  }

  // ---- Compacting ----

  ghost function NamesOf(files: seq<File>, names: map<nat, nat>): (r: set<nat>) {
    set f | f in files && f.number in names :: names[f.number]
  }

  /** The tables of the inputs hold the inputs' entries. */
  lemma ChosenTables(v: Version, d: Crash.Disk, current: set<nat>, names: map<nat, nat>, inputs: seq<File>)
    requires TablesMatch(v, d.tables, current, names) && forall f :: f in inputs ==> InVersion(v, f)
    ensures NamesOf(inputs, names) <= current
    ensures forall e :: Crash.InTables(d, NamesOf(inputs, names), e) <==> e in LevelContents(inputs)
  {
    var chosen := NamesOf(inputs, names);
    forall f | f in inputs ensures Named(f, d.tables, current, names) && names[f.number] in chosen {
      assert InVersion(v, f);
    }
    forall e | e in LevelContents(inputs) ensures Crash.InTables(d, chosen, e) {
      var f :| f in inputs && e in f.entries;
      assert Named(f, d.tables, current, names);
      assert e in d.tables[names[f.number]];
    }
    forall e | Crash.InTables(d, chosen, e) ensures e in LevelContents(inputs) {
      var n :| n in chosen && n in d.tables && e in d.tables[n];
      var f :| f in inputs && f.number in names && names[f.number] == n;
      assert Named(f, d.tables, current, names);
    }
  }

  /** Two files never share a table. */
  lemma NamesDiffer(
    v: Version, tables: map<nat, set<Entry>>, current: set<nat>, names: map<nat, nat>, f: File, g: File)
    requires LayeredVersion(v) && TablesMatch(v, tables, current, names) && InVersion(v, f) && InVersion(v, g)
    requires f.number in names && g.number in names && names[f.number] == names[g.number]
    ensures f == g
  {
    assert Named(f, tables, current, names) && Named(g, tables, current, names);
    var l :| 0 <= l < NUM_LEVELS && f in v[l];
    var m :| 0 <= m < NUM_LEVELS && g in v[m];
    assert WellFormed(f);
    var e := f.entries[0];
    assert e in Contents(f.entries) && e in Contents(g.entries);
    Store.EntryHasOneFile(v, l, f, m, g, e);
  }

  ghost predicate IsTable(n: nat, t: File, tables: map<nat, set<Entry>>) {
    n in tables && tables[n] == Contents(t.entries)
  }

  /** Since `c0` the compaction has written one table for each of `files`, and nothing else changed. */
  ghost predicate Writing(
    c: Crash.State, c0: Crash.State, chosen: set<nat>, files: seq<File>, names: map<nat, nat>, names': map<nat, nat>)
    requires c0.mode.Up?
  {
    && c.mode.Up? && c.mode.m.compaction.Merging? && c0.mode.m.nextFile <= c.mode.m.nextFile
    && SameButTables(c, c0, chosen)
    && (forall n :: n in c0.mode.m.current ==>
          n < c0.mode.m.nextFile && n in c0.disk.tables && n in c.disk.tables && c.disk.tables[n] == c0.disk.tables[n])
    && (forall f :: f in files ==>
          f.number in names' && names'[f.number] in c.mode.m.compaction.outputs
          && IsTable(names'[f.number], f, c.disk.tables))
    && (forall n :: n in c.mode.m.compaction.outputs ==>
          c0.mode.m.nextFile <= n < c.mode.m.nextFile && n in NamesOf(files, names'))
    && forall k :: k in names && (forall f :: f in files ==> f.number != k) ==> k in names' && names'[k] == names[k]
  }

  ghost predicate SameButTables(c: Crash.State, c0: Crash.State, chosen: set<nat>)
    requires c0.mode.Up? && c.mode.Up? && c.mode.m.compaction.Merging?
  {
    var m, m0 := c.mode.m, c0.mode.m;
    && c == c0.(disk := c0.disk.(tables := c.disk.tables), mode := c.mode)
    && m == m0.(compaction := Crash.Merging(chosen, m.compaction.outputs, m0.current), pending := m.pending,
      nextFile := m.nextFile)
  }

  /** The crash state after one more output. */
  ghost function WithOutput(c: Crash.State, contents: set<Entry>): (r: Crash.State)
    requires c.mode.Up? && c.mode.m.compaction.Merging?
  {
    var m, k := c.mode.m, c.mode.m.compaction;
    c.(disk := c.disk.(tables := c.disk.tables[m.nextFile := contents]),
       mode := Crash.Up(m.(compaction := Crash.Merging(k.inputs, k.outputs + {m.nextFile}, k.version),
                           pending := m.pending + {m.nextFile}, nextFile := m.nextFile + 1)))
  }

  lemma WriteOne(
    c: Crash.State, c0: Crash.State, chosen: set<nat>, files: seq<File>, t: File, names: map<nat, nat>,
    names': map<nat, nat>)
    requires c0.mode.Up? && Writing(c, c0, chosen, files, names, names')
    requires forall f :: f in files ==> f.number != t.number
    ensures Writing(WithOutput(c, Contents(t.entries)), c0, chosen, files + [t], names,
                    names'[t.number := c.mode.m.nextFile])
  {
    var c', n, names'' := WithOutput(c, Contents(t.entries)), c.mode.m.nextFile, names'[t.number := c.mode.m.nextFile];
    assert t in files + [t];
    forall f | f in files ensures f in files + [t] && names''[f.number] == names'[f.number] {
    }
    forall k | k in c'.mode.m.compaction.outputs ensures k in NamesOf(files + [t], names'') {
      if k != n {
        var f :| f in files && f.number in names' && names'[f.number] == k;
        assert f in files + [t] && f.number in names'' && names''[f.number] == k;
      }
    }
  }

  lemma OutputIsNext(c: Crash.State, contents: set<Entry>)
    requires c.mode.Up? && c.mode.m.compaction.Merging? && c.mode.m.flush.NoFlush? && c.mode.m.deletingTables == {}
    requires forall e :: e in contents ==> Crash.InTables(c.disk, c.mode.m.compaction.inputs, e)
    ensures Crash.Next(c, Crash.WriteOutput(contents), WithOutput(c, contents))
    ensures CrashReads.SoundStep(c, Crash.WriteOutput(contents))
  {
  }

  lemma SameTablesSameEntries(d: Crash.Disk, d': Crash.Disk, files: set<nat>, e: Entry)
    requires forall n :: n in files ==> n in d.tables && n in d'.tables && d'.tables[n] == d.tables[n]
    ensures Crash.InTables(d', files, e) <==> Crash.InTables(d, files, e)
  {
  }

  /** Writes one table per output file. */
  lemma {:induction false} WriteOutputs(
    run: seq<Crash.State>, acts: seq<Crash.Step>, chosen: set<nat>, files: seq<File>, names: map<nat, nat>)
    returns (run': seq<Crash.State>, acts': seq<Crash.Step>, names': map<nat, nat>)
    requires SoundRun(run, acts) && Last(run).mode.Up? && Writing(Last(run), Last(run), chosen, [], names, names)
    requires Last(run).mode.m.flush.NoFlush? && Last(run).mode.m.deletingTables == {}
    requires chosen <= Last(run).mode.m.current
    requires forall f, e :: f in files && e in f.entries ==> Crash.InTables(Last(run).disk, chosen, e)
    requires forall i, j :: 0 <= i < j < |files| ==> files[i].number != files[j].number
    ensures SoundRun(run', acts') && Writing(Last(run'), Last(run), chosen, files, names, names')
    decreases |files|
  {
    if files == [] {
      run', acts', names' := run, acts, names;
    } else {
      var n := |files| - 1;
      var t, c0 := files[n], Last(run);
      run', acts', names' := WriteOutputs(run, acts, chosen, files[..n], names);
      var c := Last(run');
      assert t in files;
      forall e | e in Contents(t.entries) ensures Crash.InTables(c.disk, chosen, e) {
        SameTablesSameEntries(c0.disk, c.disk, chosen, e);
      }
      OutputIsNext(c, Contents(t.entries));
      WriteOne(c, c0, chosen, files[..n], t, names, names');
      assert files[..n] + [t] == files;
      var c' := WithOutput(c, Contents(t.entries));
      Extend(run', acts', Crash.WriteOutput(Contents(t.entries)), c');
      run', acts' := run' + [c'], acts' + [Crash.WriteOutput(Contents(t.entries))];
      names' := names'[t.number := c.mode.m.nextFile];
    }
  }

  lemma DifferentNumbers(v: Version, n: nat, outputs: seq<File>)
    requires Store.NewOutputs(v, n, outputs) && SortedDisjoint(outputs)
    ensures forall i, j :: 0 <= i < j < |outputs| ==> outputs[i].number != outputs[j].number
  {
    forall i, j | 0 <= i < j < |outputs| ensures outputs[i].number != outputs[j].number {
      assert outputs[i] in outputs && outputs[j] in outputs && Before(outputs[i].largest, outputs[j].smallest);
    }
  }

  ghost function Inputs(step: Store.Step): (r: seq<File>)
    requires step.Compact?
  {
    step.in0 + step.in1
  }

  lemma InputFiles(v: Version, step: Store.Step)
    requires step.Compact? && GoodInputs(v, step.into, step.in0, step.in1)
    ensures forall f :: f in Inputs(step) ==> InVersion(v, f)
    ensures LevelContents(Inputs(step)) == Store.InputContents(step.in0, step.in1)
  {
  }

  /** A table outside the chosen ones is empty or holds a file that is no input. */
  lemma OtherTable(
    v: Version, tables: map<nat, set<Entry>>, current: set<nat>, names: map<nat, nat>, inputs: seq<File>, n: nat)
    returns (f: File)
    requires TablesMatch(v, tables, current, names) && n in current && n !in NamesOf(inputs, names)
    requires tables[n] != {}
    ensures InVersion(v, f) && f !in inputs && f.number in names && names[f.number] == n
    ensures tables[n] == Contents(f.entries)
  {
    f :| InVersion(v, f) && f.number in names && names[f.number] == n;
    assert Named(f, tables, current, names);
  }

  lemma OtherEntry(v: Version, step: Store.Step, f: File, e: Entry)
    requires LayeredVersion(v) && step.Compact? && GoodInputs(v, step.into, step.in0, step.in1)
    requires InVersion(v, f) && f !in Inputs(step) && e in f.entries
    ensures e in VersionContents(v) - Store.InputContents(step.in0, step.in1)
  {
    var l :| 0 <= l < NUM_LEVELS && f in v[l];
    Store.FileInVersion(v, l, f, e);
    Store.KeptIsNoInput(v, step.into, step.in0, step.in1, l, f, e);
  }

  /** The state in which a merge is complete but not recorded, `c`, against the one it began in, `c0`. */
  ghost predicate Merged(
    s: Store.State, step: Store.Step, c: Crash.State, c0: Crash.State, names: map<nat, nat>, names': map<nat, nat>)
    requires c0.mode.Up? && step.Compact?
  {
    && LayeredVersion(s.version) && GoodInputs(s.version, step.into, step.in0, step.in1)
    && TablesMatch(s.version, c0.disk.tables, c0.mode.m.current, names)
    && Writing(c, c0, NamesOf(Inputs(step), names), step.outputs, names, names')
  }

  lemma MergedOutputs(
    s: Store.State, step: Store.Step, c: Crash.State, c0: Crash.State, names: map<nat, nat>, names': map<nat, nat>,
    e: Entry)
    requires c0.mode.Up? && step.Compact? && Merged(s, step, c, c0, names, names')
    ensures Crash.InTables(c.disk, c.mode.m.compaction.outputs, e) <==> e in LevelContents(step.outputs)
  {
    if e in LevelContents(step.outputs) {
      var f :| f in step.outputs && e in f.entries;
      assert IsTable(names'[f.number], f, c.disk.tables);
    }
  }

  lemma MergedOthers(
    s: Store.State, step: Store.Step, c: Crash.State, c0: Crash.State, names: map<nat, nat>, names': map<nat, nat>,
    e: Entry)
    requires c0.mode.Up? && step.Compact? && Merged(s, step, c, c0, names, names')
    requires Crash.InTables(c.disk, c0.mode.m.current - NamesOf(Inputs(step), names), e)
    ensures e in VersionContents(s.version) - Store.InputContents(step.in0, step.in1)
  {
    var n :| n in c0.mode.m.current - NamesOf(Inputs(step), names) && n in c.disk.tables && e in c.disk.tables[n];
    var f := OtherTable(s.version, c0.disk.tables, c0.mode.m.current, names, Inputs(step), n);
    OtherEntry(s.version, step, f, e);
  }

  lemma MergedTables(
    s: Store.State, step: Store.Step, c: Crash.State, c0: Crash.State, names: map<nat, nat>, names': map<nat, nat>)
    requires c0.mode.Up? && step.Compact? && Merged(s, step, c, c0, names, names')
    ensures MergeRules.SameTables(s, step, c.disk, c.mode.m.compaction)
  {
    var d, k, chosen := c.disk, c.mode.m.compaction, NamesOf(Inputs(step), names);
    InputFiles(s.version, step);
    ChosenTables(s.version, c0.disk, c0.mode.m.current, names, Inputs(step));
    forall e
      ensures Crash.InTables(d, k.inputs, e) <==> e in Store.InputContents(step.in0, step.in1)
      ensures Crash.InTables(d, k.outputs, e) <==> e in LevelContents(step.outputs)
      ensures Crash.InTables(d, k.version - k.inputs + k.outputs, e) ==>
        e in VersionContents(s.version) - Store.InputContents(step.in0, step.in1) || e in LevelContents(step.outputs)
    {
      SameTablesSameEntries(c0.disk, d, chosen, e);
      MergedOutputs(s, step, c, c0, names, names', e);
      if Crash.InTables(d, k.version - k.inputs + k.outputs, e) && !Crash.InTables(d, k.outputs, e) {
        assert Crash.InTables(d, k.version - k.inputs, e);
        MergedOthers(s, step, c, c0, names, names', e);
      }
    }
  }

  lemma KeptFile(
    s: Store.State, step: Store.Step, c: Crash.State, c0: Crash.State, names: map<nat, nat>, names': map<nat, nat>,
    f: File)
    requires c0.mode.Up? && step.Compact? && Merged(s, step, c, c0, names, names')
    requires InVersion(s.version, f) && f !in Inputs(step) && forall o :: o in step.outputs ==> o.number != f.number
    ensures Named(f, c.disk.tables, c0.mode.m.current - NamesOf(Inputs(step), names), names')
  {
    var tables, current, chosen := c0.disk.tables, c0.mode.m.current, NamesOf(Inputs(step), names);
    assert Named(f, tables, current, names);
    var n := names[f.number];
    if n in chosen {
      var g :| g in Inputs(step) && g.number in names && names[g.number] == n;
      InputFiles(s.version, step);
      NamesDiffer(s.version, tables, current, names, f, g);
    }
    assert n !in chosen;
  }

  /** Recording and installing the merge leaves the tables of the new version. */
  lemma MergedMatches(
    s: Store.State, step: Store.Step, v': Version, c: Crash.State, c0: Crash.State, names: map<nat, nat>,
    names': map<nat, nat>)
    requires c0.mode.Up? && step.Compact? && Merged(s, step, c, c0, names, names')
    requires forall f :: InVersion(v', f) <==> f in step.outputs || (InVersion(s.version, f) && f !in Inputs(step))
    requires forall o, f :: o in step.outputs && InVersion(s.version, f) ==> o.number != f.number
    ensures TablesMatch(v', c.disk.tables, c0.mode.m.current - NamesOf(Inputs(step), names)
                                             + c.mode.m.compaction.outputs, names')
  {
    var current, chosen, outs := c0.mode.m.current, NamesOf(Inputs(step), names), c.mode.m.compaction.outputs;
    var current' := current - chosen + outs;
    forall f | InVersion(v', f) ensures Named(f, c.disk.tables, current', names') {
      if f !in step.outputs {
        KeptFile(s, step, c, c0, names, names', f);
      }
    }
    forall n | n in current' ensures n in c.disk.tables && (c.disk.tables[n] == {} || NameOf(v', names', n)) {
      MergedName(s, step, v', c, c0, names, names', n);
    }
  }

  lemma MergedName(
    s: Store.State, step: Store.Step, v': Version, c: Crash.State, c0: Crash.State, names: map<nat, nat>,
    names': map<nat, nat>, n: nat)
    requires c0.mode.Up? && step.Compact? && Merged(s, step, c, c0, names, names')
    requires forall f :: InVersion(v', f) <==> f in step.outputs || (InVersion(s.version, f) && f !in Inputs(step))
    requires forall o, f :: o in step.outputs && InVersion(s.version, f) ==> o.number != f.number
    requires n in c0.mode.m.current - NamesOf(Inputs(step), names) + c.mode.m.compaction.outputs
    ensures n in c.disk.tables && (c.disk.tables[n] == {} || NameOf(v', names', n))
  {
    if n in c.mode.m.compaction.outputs {
      var f :| f in step.outputs && f.number in names' && names'[f.number] == n;
      assert InVersion(v', f) && IsTable(n, f, c.disk.tables);
    } else if c.disk.tables[n] != {} {
      var f := OtherTable(s.version, c0.disk.tables, c0.mode.m.current, names, Inputs(step), n);
      assert InVersion(v', f);
    }
  }

  lemma CompactedFiles(s: Store.State, step: Store.Step, s': Store.State)
    requires Store.Structured(s) && step.Compact? && Store.Next(s, step, s')
    ensures forall f ::
      InVersion(s'.version, f) <==> f in step.outputs || (InVersion(s.version, f) && f !in Inputs(step))
    ensures forall o, f :: o in step.outputs && InVersion(s.version, f) ==> o.number != f.number
    ensures forall i, j :: 0 <= i < j < |step.outputs| ==> step.outputs[i].number != step.outputs[j].number
    ensures LevelContents(step.outputs) <= Store.InputContents(step.in0, step.in1)
    ensures LayeredVersion(s.version) && GoodInputs(s.version, step.into, step.in0, step.in1)
  {
    Store.StructuredParts(s);
    var v, level, in0, in1 := s.version, step.into, step.in0, step.in1;
    Store.MergeOutputs(v, s'.nextFile, step.snapshot, level, in0, in1, step.input, step.outputs);
    DifferentNumbers(v, s'.nextFile, step.outputs);
    OutputsAreUnused(v, s'.nextFile, step.outputs);
    InputsReplaced(v, s.nextFile, level, in0, in1, step.outputs, s'.version);
  }

  lemma OutputsAreUnused(v: Version, n: nat, outputs: seq<File>)
    requires Store.NewOutputs(v, n, outputs)
    ensures forall o, f :: o in outputs && InVersion(v, f) ==> o.number != f.number
  {
    forall o, f | o in outputs && InVersion(v, f) ensures o.number != f.number {
      assert Store.UnusedNumber(v, o.number);
      var l :| 0 <= l < NUM_LEVELS && f in v[l];
    }
  }

  lemma InputsReplaced(v: Version, n: nat, level: nat, in0: seq<File>, in1: seq<File>, outputs: seq<File>, v': Version)
    requires Store.VersionOk(v, n) && GoodInputs(v, level, in0, in1)
    requires forall o, f :: o in outputs && InVersion(v, f) ==> o.number != f.number
    requires Builder.Installs(v, Store.CompactionEdit(level, in0, in1, outputs), v')
    ensures forall f :: InVersion(v', f) <==> f in outputs || (InVersion(v, f) && f !in in0 + in1)
  {
    forall g | g in v[level + 1] ensures InVersion(v, g) {
    }
    Store.InstallGivesReplaces(v, level, in0, in1, outputs, v');
    FilesReplaced(v, level, in0, in1, outputs, v');
  }

  ghost function Begun(c: Crash.State, chosen: set<nat>): (r: Crash.State)
    requires c.mode.Up?
  {
    c.(mode := Crash.Up(c.mode.m.(compaction := Crash.Merging(chosen, {}, c.mode.m.current))))
  }

  /** The state after a complete merge is recorded and installed. */
  ghost function Ended(c: Crash.State): (r: Crash.State)
    requires c.mode.Up? && c.mode.m.compaction.Merging?
  {
    var m, k := c.mode.m, c.mode.m.compaction;
    c.(disk := c.disk.(manifest := Crash.CompactionEdit(c.disk, m, k.inputs, k.outputs)),
       superseded := c.superseded + Crash.LeftOut(c.disk, k.inputs, k.outputs),
       mode := Crash.Up(m.(current := m.current - k.inputs + k.outputs, pending := m.pending - k.outputs,
                           compaction := Crash.NoCompaction)))
  }

  lemma SimulateEnd(run: seq<Crash.State>, acts: seq<Crash.Step>)
    returns (run': seq<Crash.State>, acts': seq<Crash.Step>)
    requires SoundRun(run, acts) && Last(run).mode.Up? && Last(run).mode.m.compaction.Merging?
    requires Last(run).mode.m.flush.NoFlush? && CrashReads.MergeOk(Last(run).disk, Last(run).mode.m.compaction)
    ensures SoundRun(run', acts') && Last(run') == Ended(Last(run))
  {
    var c := Last(run);
    var m, k := c.mode.m, c.mode.m.compaction;
    var c1 := c.(disk := c.disk.(manifest := Crash.CompactionEdit(c.disk, m, k.inputs, k.outputs)),
                 superseded := c.superseded + Crash.LeftOut(c.disk, k.inputs, k.outputs),
                 mode := Crash.Up(m.(compaction := Crash.CompactionLogged(k.inputs, k.outputs, k.version))));
    Extend(run, acts, Crash.LogCompaction, c1);
    run', acts' := run + [c1], acts + [Crash.LogCompaction];
    Extend(run', acts', Crash.InstallCompaction, Ended(c));
    run', acts' := run' + [Ended(c)], acts' + [Crash.InstallCompaction];
  }

  /** Starts the compaction and writes its outputs. */
  lemma SimulateMerge(
    run: seq<Crash.State>, acts: seq<Crash.Step>, v: Version, names: map<nat, nat>, inputs: seq<File>,
    outputs: seq<File>)
    returns (run': seq<Crash.State>, acts': seq<Crash.Step>, c1: Crash.State, names': map<nat, nat>)
    requires SoundRun(run, acts) && Last(run).mode.Up? && Quiet(Last(run).mode.m)
    requires TablesMatch(v, Last(run).disk.tables, Last(run).mode.m.current, names)
    requires forall f :: f in inputs ==> InVersion(v, f)
    requires LevelContents(outputs) <= LevelContents(inputs)
    requires forall i, j :: 0 <= i < j < |outputs| ==> outputs[i].number != outputs[j].number
    ensures c1 == Begun(Last(run), NamesOf(inputs, names)) && SoundRun(run', acts')
    ensures Writing(Last(run'), c1, NamesOf(inputs, names), outputs, names, names')
  {
    var c, chosen := Last(run), NamesOf(inputs, names);
    RunFacts(run, acts);
    NextIsFree(c);
    ChosenTables(v, c.disk, c.mode.m.current, names, inputs);
    c1 := Begun(c, chosen);
    Extend(run, acts, Crash.StartCompaction(chosen), c1);
    forall f, e | f in outputs && e in f.entries ensures Crash.InTables(c1.disk, chosen, e) {
      assert e in LevelContents(outputs);
    }
    run', acts', names' := WriteOutputs(
      run + [c1], acts + [Crash.StartCompaction(chosen)], chosen, outputs, names);
  }

  lemma SimulateCompact(
    run: seq<Crash.State>, acts: seq<Crash.Step>, s: Store.State, step: Store.Step, s': Store.State,
    names: map<nat, nat>)
    returns (run': seq<Crash.State>, acts': seq<Crash.Step>, names': map<nat, nat>)
    requires SoundRun(run, acts) && Coupled(s, Last(run), names) && Store.Structured(s)
    requires step.Compact? && Store.Next(s, step, s') && EndsOnOwnKey(s.version, step.into, step.in1)
    ensures SoundRun(run', acts') && Coupled(s', Last(run'), names')
  {
    CompactedFiles(s, step, s');
    InputFiles(s.version, step);
    var c1;
    run', acts', c1, names' := SimulateMerge(run, acts, s.version, names, Inputs(step), step.outputs);
    var c2 := Last(run');
    MergedTables(s, step, c2, c1, names, names');
    MergeRules.CompactionIsSoundMerge(s, step, s', c2.disk, c2.mode.m.compaction);
    MergedMatches(s, step, s'.version, c2, c1, names, names');
    run', acts' := SimulateEnd(run', acts');
  }

  // ---- Whole runs ----

  ghost predicate KeepsBoundary(s: Store.State, step: Store.Step) {
    step.Compact? ==> EndsOnOwnKey(s.version, step.into, step.in1)
  }

  lemma SameFilesStep(s: Store.State, step: Store.Step, s': Store.State, c: Crash.State, names: map<nat, nat>)
    requires Store.Structured(s) && Coupled(s, c, names) && Store.Next(s, step, s')
    requires step.TrivialMove? || step.TakeSnapshot? || step.ReleaseSnapshot? || step.ReserveNumber?
    ensures Coupled(s', c, names)
  {
    if step.TrivialMove? {
      MovedFiles(s, step, s');
      SameFilesMatch(s.version, s'.version, c.disk.tables, c.mode.m.current, names);
    }
  }

  /** Every step of the store is some steps of the crash machine. */
  lemma SimulateStep(
    run: seq<Crash.State>, acts: seq<Crash.Step>, s: Store.State, step: Store.Step, s': Store.State,
    names: map<nat, nat>)
    returns (run': seq<Crash.State>, acts': seq<Crash.Step>, names': map<nat, nat>)
    requires SoundRun(run, acts) && Coupled(s, Last(run), names) && Store.Structured(s)
    requires Store.Next(s, step, s') && KeepsBoundary(s, step)
    ensures SoundRun(run', acts') && Coupled(s', Last(run'), names')
  {
    run', acts', names' := run, acts, names;
    match step
    case Write(_) => run', acts' := SimulateWrite(run, acts, s, step, s', names);
    case SwitchMemTable => run', acts' := SimulateSwitch(run, acts, s, s', names);
    case DropEmptyMemTable => run', acts' := SimulateDrop(run, acts, s, s', names);
    case FlushMemTable(_, _) => run', acts', names' := SimulateFlush(run, acts, s, step, s', names);
    case Compact(_, _, _, _, _, _) => run', acts', names' := SimulateCompact(run, acts, s, step, s', names);
    case _ => SameFilesStep(s, step, s', Last(run), names);
  }

  /** A new database, opened for the first time. */
  lemma Opened(s: Store.State) returns (run: seq<Crash.State>, acts: seq<Crash.Step>)
    requires Store.Init(s)
    ensures SoundRun(run, acts) && Coupled(s, Last(run), map[])
  {
    var c := Crash.State(Crash.Disk(map[], map[], Crash.Manifest({}, 0, 2)), {}, {}, {}, {}, Crash.Down);
    run, acts := [c], [];
    var none: map<nat, set<Entry>> := map[];
    var c1 := c.(disk := c.disk.(logs := c.disk.logs[3 := Crash.Log([], 0)]), mode := Crash.Opening({}, 3));
    assert c.disk.tables + none == c.disk.tables && none.Keys == {};
    assert Crash.CrashStep(c, Crash.Replay(none, 3), c1);
    Extend(run, acts, Crash.Replay(none, 3), c1);
    run, acts := run + [c1], acts + [Crash.Replay(none, 3)];
    var m := Crash.Memory(
      {}, None, 3, {}, 3, 4, multiset{}, {}, Crash.NoFlush, Crash.NoCompaction, {}, {}, false);
    var c2 := c1.(disk := c1.disk.(manifest := Crash.Manifest({}, 3, 4)), mode := Crash.Up(m));
    Extend(run, acts, Crash.OpenDone, c2);
    run, acts := run + [c2], acts + [Crash.OpenDone];
  }

  lemma {:induction false} SimulateRun(states: seq<Store.State>, steps: seq<Store.Step>, i: nat)
    returns (run: seq<Crash.State>, acts: seq<Crash.Step>, names: map<nat, nat>)
    requires Runs.IsRun(states, steps) && i < |states|
    requires forall j :: 0 <= j < i ==> KeepsBoundary(states[j], steps[j])
    ensures SoundRun(run, acts) && Coupled(states[i], Last(run), names)
  {
    if i == 0 {
      run, acts := Opened(states[0]);
      names := map[];
    } else {
      run, acts, names := SimulateRun(states, steps, i - 1);
      Runs.RunsAreStructured(states, steps, i - 1);
      run, acts, names := SimulateStep(run, acts, states[i - 1], steps[i - 1], states[i], names);
    }
  }

  // ---- What a crash leaves ----

  lemma TablesHoldVersion(v: Version, d: Crash.Disk, current: set<nat>, names: map<nat, nat>)
    requires TablesMatch(v, d.tables, current, names)
    ensures forall e :: Crash.InTables(d, current, e) <==> e in VersionContents(v)
  {
    forall e | e in VersionContents(v) ensures Crash.InTables(d, current, e) {
      var l, f := Store.Locate(v, e);
      assert InVersion(v, f) && Named(f, d.tables, current, names);
      assert e in d.tables[names[f.number]];
    }
    forall e | Crash.InTables(d, current, e) ensures e in VersionContents(v) {
      var n :| n in current && n in d.tables && e in d.tables[n];
      var f :| InVersion(v, f) && f.number in names && names[f.number] == n;
      assert Named(f, d.tables, current, names);
      var l :| 0 <= l < NUM_LEVELS && f in v[l];
      Store.FileInVersion(v, l, f, e);
    }
  }

  lemma LogsHoldMemory(s: Store.State, c: Crash.State)
    requires c.mode.Up? && Quiet(c.mode.m) && MemoryMatches(s, c.mode.m) && Crash.Inv(c) && CrashReads.Reads(c)
    ensures forall e :: Crash.InLogs(c.disk, e) <==> e in Contents(s.mem) + ImmContents(s.imm)
  {
    var d, m := c.disk, c.mode.m;
    forall e | Crash.InLogs(d, e) ensures e in Contents(s.mem) + ImmContents(s.imm) {
      var l :| l in d.logs && d.manifest.logNumber <= l && Crash.InRecords(d.logs[l].records, e);
      assert CrashReads.LoggedIn(d, l, e) && l <= m.logfile;
    }
  }

  /** Recovery finds exactly what the store holds. */
  lemma RecoversEverything(s: Store.State, c: Crash.State, names: map<nat, nat>)
    requires Coupled(s, c, names) && Crash.Inv(c) && CrashReads.Reads(c)
    ensures CrashReads.RecoverableSet(c) == Store.Everything(s)
  {
    TablesHoldVersion(s.version, c.disk, c.mode.m.current, names);
    LogsHoldMemory(s, c);
    CrashReads.RecoverableIsWritten(c);
  }

  /** At every moment of such a crash run, recovery reads like everything written so far. */
  lemma MomentReadsHistory(run: seq<Crash.State>, acts: seq<Crash.Step>, k: nat, user: UserKey)
    requires SoundRun(run, acts) && k < |run|
    ensures Read(CrashReads.RecoverableSet(run[k]), user, MAX_SEQUENCE) == Read(run[k].acked, user, MAX_SEQUENCE)
  {
    CrashReads.RecoveredReadsHistory(run, acts, k, user);
    assert CrashReads.RecoverableSet(run[k]) + run[k].superseded == run[k].acked;
  }

  /**
   * Every run of the leveled store in which the next level's inputs always end on a user key of
   * their own is a run of the crash machine: a crash after it finds on disk what the store
   * held, and this reads like the whole history; and so at every moment on the way, in the
   * middle of flushes and compactions too.
   */
  lemma StoreSurvivesCrashes(states: seq<Store.State>, steps: seq<Store.Step>, i: nat)
    returns (run: seq<Crash.State>, acts: seq<Crash.Step>)
    requires Runs.IsRun(states, steps) && i < |states|
    requires forall j :: 0 <= j < i ==> KeepsBoundary(states[j], steps[j])
    ensures SoundRun(run, acts) && Last(run).acked == states[i].history
    ensures CrashReads.RecoverableSet(Last(run)) == Store.Everything(states[i])
    ensures forall k, user :: 0 <= k < |run| ==>
      Read(CrashReads.RecoverableSet(run[k]), user, MAX_SEQUENCE) == Read(run[k].acked, user, MAX_SEQUENCE)
    ensures forall user ::
      Read(Store.Everything(states[i]), user, MAX_SEQUENCE) == Read(states[i].history, user, MAX_SEQUENCE)
  {
    var names;
    run, acts, names := SimulateRun(states, steps, i);
    RunFacts(run, acts);
    RecoversEverything(states[i], Last(run), names);
    forall k, user | 0 <= k < |run|
      ensures Read(CrashReads.RecoverableSet(run[k]), user, MAX_SEQUENCE) == Read(run[k].acked, user, MAX_SEQUENCE)
    {
      MomentReadsHistory(run, acts, k, user);
    }
  }
}
