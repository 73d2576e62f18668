/** Group commit: concurrent writers queue up, and the writer at the front commits a prefix of
  * the queue as one log record. */
module GroupCommit {
  // Every step is one critical section of the database mutex, or one action of the leader while
  // it has released the mutex; arrivals and readers interleave with all of them.

  import opened Coding
  import opened InternalKeys
  import opened Wrappers

  datatype Op = Put(key: UserKey, value: Bytes) | Delete(key: UserKey)
  datatype Batch = Batch(ops: seq<Op>, size: nat)
  datatype Writer = Writer(id: nat, batch: Option<Batch>, sync: bool)

  // ---- Forming the group ----

  function OpsOf(w: Writer): (r: seq<Op>) {
    if w.batch.Some? then w.batch.value.ops else []
  }

  function SizeOf(w: Writer): (r: nat) {
    if w.batch.Some? then w.batch.value.size else 0
  }

  /** The operations of the first `n` writers, in queue order. */
  function GroupOps(queue: seq<Writer>, n: nat): (r: seq<Op>)
    requires n <= |queue|
  {
    if n == 0 then [] else GroupOps(queue, n - 1) + OpsOf(queue[n - 1])
  }

  function GroupSize(queue: seq<Writer>, n: nat): (r: nat)
    requires n <= |queue|
  {
    if n == 0 then 0 else GroupSize(queue, n - 1) + SizeOf(queue[n - 1])
  }

  /** Later arrivals do not change the operations of a group. */
  lemma {:induction false} GroupOpsOfPrefix(queue: seq<Writer>, w: Writer, n: nat)
    requires n <= |queue|
    ensures GroupOps(queue + [w], n) == GroupOps(queue, n)
  {
    if n > 0 {
      GroupOpsOfPrefix(queue, w, n - 1);
    }
  }

  /** Small first batches limit the growth of the group. */
  function MaxSize(first: Writer): (r: nat) {
    if SizeOf(first) <= 131072 then SizeOf(first) + 131072 else 1048576
  }

  /** The writer at position `i` must not join the group of the writers before it. */
  predicate Blocked(queue: seq<Writer>, i: nat)
    requires 0 < i < |queue|
  {
    || (queue[i].sync && !queue[0].sync)
    || (queue[i].batch.Some? && GroupSize(queue, i + 1) > MaxSize(queue[0]))
  }

  /** The group is the longest prefix none of whose members is blocked. */
  ghost predicate IsGroup(queue: seq<Writer>, n: nat) {
    && 1 <= n <= |queue| && queue[0].batch.Some?
    && (forall i :: 0 < i < n ==> !Blocked(queue, i))
    && (n < |queue| ==> Blocked(queue, n))
  }

  lemma GroupIsUnique(queue: seq<Writer>, m: nat, n: nat)
    requires IsGroup(queue, m) && IsGroup(queue, n)
    ensures m == n
  {
  }

  /** The group's size is that of the last member with a batch and what came before it. */
  lemma {:induction false} LastBatch(queue: seq<Writer>, n: nat) returns (i: nat)
    requires 1 <= n <= |queue| && queue[0].batch.Some?
    ensures i < n && queue[i].batch.Some? && GroupSize(queue, n) == GroupSize(queue, i + 1)
  {
    if queue[n - 1].batch.Some? {
      i := n - 1;
    } else {
      i := LastBatch(queue, n - 1);
    }
  }

  /**
   * A group of more than one batch is at most a mebibyte, and a first batch of at most 128 KiB grows
   * by no more than 128 KiB. The first writer left out wants a sync that the leader does not want, or
   * its batch would break these bounds.
   */
  lemma GroupIsBounded(queue: seq<Writer>, n: nat)
    requires IsGroup(queue, n)
    ensures var first := queue[0].batch.value.size;
      && (GroupSize(queue, n) == first || GroupSize(queue, n) <= 0x10_0000)
      && (first <= 0x2_0000 ==> GroupSize(queue, n) <= first + 0x2_0000)
      && (n < |queue| && (queue[n].sync ==> queue[0].sync) ==>
            queue[n].batch.Some?
            && GroupSize(queue, n + 1) > if first <= 0x2_0000 then first + 0x2_0000 else 0x10_0000)
  {
    var i := LastBatch(queue, n);
    assert GroupSize(queue, 1) == SizeOf(queue[0]);
    assert i > 0 ==> !Blocked(queue, i);
  }

  method BuildBatchGroup(queue: seq<Writer>) returns (result: seq<Op>, last: nat)
    requires |queue| > 0 && queue[0].batch.Some?
    ensures IsGroup(queue, last + 1) && result == GroupOps(queue, last + 1)
  {
    var first := queue[0];
    result := first.batch.value.ops;
    var size := first.batch.value.size;
    var maxSize := 1048576;
    if size <= 131072 {
      maxSize := size + 131072;
    }
    last := 0;
    for i := 1 to |queue|
      invariant last == i - 1
      invariant forall k :: 0 < k < i ==> !Blocked(queue, k)
      invariant result == GroupOps(queue, i) && size == GroupSize(queue, i) && maxSize == MaxSize(first)
    {
      var w := queue[i];
      if w.sync && !first.sync {
        break;
      }
      if w.batch.Some? {
        size := size + w.batch.value.size;
        if size > maxSize {
          break;
        }
        result := result + w.batch.value.ops;
      }
      last := i;
    }
  }

  // ---- The protocol ----

  datatype Stage = Grouped | Appended | Synced | Inserting | Doomed

  /** The group being committed: the first `n` writers, whose operations take the sequence
      numbers from `first` on; `inserted` of them are in the memtable. */
  datatype Commit = Commit(n: nat, first: nat, ops: seq<Op>, stage: Stage, inserted: nat)

  datatype Record = Record(first: nat, ops: seq<Op>, synced: bool)

  /** A finished writer, its status and the sequence number of its first operation. */
  datatype Done = Done(writer: Writer, ok: bool, first: nat)

  datatype State = State(
    arrivals: seq<Writer>,
    done: seq<Done>,
    queue: seq<Writer>,
    last: nat,
    log: seq<Record>,
    mem: map<nat, Op>,
    commit: Option<Commit>,
    bgError: bool)

  datatype Step =
    | Arrive(writer: Writer)
    | NoRoom
    | NothingToWrite
    | Build(n: nat)
    | Append(ok: bool)
    | Sync(ok: bool)
    | Insert
    | Publish
    | BackgroundFails

  /** Pops the first `n` writers and gives them their status. */
  ghost function Finish(queue: seq<Writer>, n: nat, ok: bool, first: nat): (r: seq<Done>)
    requires n <= |queue|
  {
    seq(n, i requires 0 <= i < n => Done(queue[i], ok, first + |GroupOps(queue, i)|))
  }

  ghost predicate Next(s: State, step: Step, s': State) {
    match step
    case Arrive(w) =>
      && (forall i :: 0 <= i < |s.arrivals| ==> s.arrivals[i].id != w.id)
      && s' == s.(arrivals := s.arrivals + [w], queue := s.queue + [w])
    case NoRoom =>
      // MakeRoomForWrite reports an error: only the front writer fails.
      && s.commit.None? && s.queue != []
      && s' == s.(done := s.done + Finish(s.queue, 1, false, s.last + 1), queue := s.queue[1..])
    case NothingToWrite =>
      // A writer without a batch only waits for room.
      && s.commit.None? && s.queue != [] && s.queue[0].batch.None?
      && s' == s.(done := s.done + Finish(s.queue, 1, true, s.last + 1), queue := s.queue[1..])
    case Build(n) =>
      && s.commit.None? && !s.bgError && IsGroup(s.queue, n)
      && s' == s.(commit := Some(Commit(n, s.last + 1, GroupOps(s.queue, n), Grouped, 0)))
    case Append(ok) =>
      && s.commit.Some? && s.commit.value.stage.Grouped?
      && var c := s.commit.value;
      && s' == if ok then s.(log := s.log + [Record(c.first, c.ops, false)], commit := Some(c.(stage := Appended)))
               else s.(commit := Some(c.(stage := Doomed)))
    case Sync(ok) =>
      && s.commit.Some? && s.commit.value.stage.Appended? && s.queue != [] && s.queue[0].sync && s.log != []
      && var c := s.commit.value;
      && var n := |s.log| - 1;
      && s' == if ok then s.(log := s.log[n := s.log[n].(synced := true)], commit := Some(c.(stage := Synced)))
               else s.(commit := Some(c.(stage := Doomed)), bgError := true)
    case Insert =>
      && s.commit.Some? && s.queue != []
      && var c := s.commit.value;
      && (c.stage.Inserting? || c.stage.Synced? || (c.stage.Appended? && !s.queue[0].sync))
      && c.inserted < |c.ops|
      && s' == s.(mem := s.mem[c.first + c.inserted := c.ops[c.inserted]],
        commit := Some(c.(stage := Inserting, inserted := c.inserted + 1)))
    case Publish =>
      && s.commit.Some? && s.queue != []
      && var c := s.commit.value;
      && var ok := !c.stage.Doomed?;
      && (ok ==>
            (c.stage.Inserting? || c.stage.Synced? || (c.stage.Appended? && !s.queue[0].sync)) && c.inserted == |c.ops|)
      && c.n <= |s.queue|
      && s' == s.(last := s.last + |c.ops|, done := s.done + Finish(s.queue, c.n, ok, c.first),
        queue := s.queue[c.n..], commit := None)
    case BackgroundFails =>
      s' == s.(bgError := true)
  }

  // ---- The invariant ----

  ghost function Writers(done: seq<Done>): (r: seq<Writer>) {
    seq(|done|, i requires 0 <= i < |done| => done[i].writer)
  }

  /** First come, first served, nobody twice and nobody forgotten. */
  ghost predicate Fifo(s: State) {
    && s.arrivals == Writers(s.done) + s.queue
    && forall i, j :: 0 <= i < j < |s.arrivals| ==> s.arrivals[i].id != s.arrivals[j].id
  }

  ghost predicate CommitOk(s: State) {
    s.commit.Some? ==>
      var c := s.commit.value;
      && 1 <= c.n <= |s.queue| && s.queue[0].batch.Some? && c.first == s.last + 1
      && c.ops == GroupOps(s.queue, c.n) && c.inserted <= |c.ops|
      && (forall i :: 0 <= i < c.n ==> s.queue[i].sync ==> s.queue[0].sync)
      && (c.inserted > 0 ==> c.stage.Inserting?)
      && (c.stage.Appended? || c.stage.Synced? || c.stage.Inserting? ==>
            s.log != []
            && var r := s.log[|s.log| - 1];
               r.first == c.first && r.ops == c.ops && (!c.stage.Appended? && s.queue[0].sync ==> r.synced))
  }

  /** The operations of a successful writer are exactly the memtable's at its sequence numbers. */
  ghost predicate Applied(mem: map<nat, Op>, last: nat, d: Done) {
    var ops := OpsOf(d.writer);
    d.first + |ops| <= last + 1 && Inserted(mem, d.first, ops, |ops|)
  }

  ghost predicate DoneApplied(s: State) {
    forall d :: d in s.done && d.ok ==> Applied(s.mem, s.last, d)
  }

  /** Sequence ranges increase with the order of completion. */
  ghost predicate RangesIncrease(s: State) {
    && (forall i :: 0 <= i < |s.done| ==> s.done[i].first <= s.last + 1)
    && forall i, j ::
      0 <= i < j < |s.done| ==> s.done[i].ok ==> s.done[i].first + |OpsOf(s.done[i].writer)| <= s.done[j].first
  }

  ghost predicate Covers(d: Done, q: nat) {
    d.ok && d.first <= q < d.first + |OpsOf(d.writer)|
  }

  /** What the memtable holds belongs to a finished writer, or to the group being inserted. */
  ghost predicate MemOwned(s: State) {
    && (forall q :: q in s.mem && q <= s.last ==> exists i :: 0 <= i < |s.done| && Covers(s.done[i], q))
    && (forall q :: q in s.mem && q > s.last ==> s.commit.Some? && q < s.commit.value.first + s.commit.value.inserted)
    && (s.commit.Some? ==> Inserted(s.mem, s.commit.value.first, s.commit.value.ops, s.commit.value.inserted))
  }

  /** The first `n` operations are in the memtable at the sequence numbers from `first` on. */
  ghost predicate Inserted(mem: map<nat, Op>, first: nat, ops: seq<Op>, n: nat) {
    forall k :: 0 <= k < n && k < |ops| ==> Holds(mem, first + k, ops[k])
  }

  ghost predicate Holds(mem: map<nat, Op>, q: nat, op: Op) {
    q in mem && mem[q] == op
  }

  /** The first sequence number after everything logged. */
  ghost function LogEnd(s: State): (r: nat) {
    s.last + 1 + if s.commit.Some? && !s.commit.value.stage.Grouped? then |s.commit.value.ops| else 0
  }

  /** Log records take disjoint increasing ranges. */
  ghost predicate LogOk(s: State) {
    && (forall i :: 0 <= i < |s.log| ==> s.log[i].first + |s.log[i].ops| <= LogEnd(s))
    && (forall i, j :: 0 <= i < j < |s.log| ==> s.log[i].first + |s.log[i].ops| <= s.log[j].first)
  }

  /** The log record that carries a writer's operations. */
  ghost predicate Carries(r: Record, d: Done) {
    && r.first <= d.first && SliceAt(r.ops, d.first - r.first, OpsOf(d.writer))
    && (d.writer.sync ==> r.synced)
  }

  ghost predicate SliceAt(all: seq<Op>, at: nat, ops: seq<Op>) {
    at + |ops| <= |all| && forall k :: 0 <= k < |ops| ==> all[at + k] == ops[k]
  }

  ghost predicate Logged(log: seq<Record>, d: Done) {
    exists i :: 0 <= i < |log| && Carries(log[i], d)
  }

  /** Every successful write with a batch is in the log, and synced if it asked for that. */
  ghost predicate DoneLogged(s: State) {
    forall d :: d in s.done && d.ok && d.writer.batch.Some? ==> Logged(s.log, d)
  }

  ghost predicate Inv(s: State) {
    Fifo(s) && CommitOk(s) && DoneApplied(s) && RangesIncrease(s) && MemOwned(s) && LogOk(s) && DoneLogged(s)
  }

  // ---- Every step keeps the invariant ----

  lemma {:induction false} GroupPrefix(queue: seq<Writer>, i: nat, n: nat)
    requires i <= n <= |queue|
    ensures |GroupOps(queue, i)| <= |GroupOps(queue, n)|
    decreases n - i
  {
    if i < n {
      GroupPrefix(queue, i, n - 1);
    }
  }

  lemma SliceOfSum(a: seq<Op>, b: seq<Op>)
    ensures SliceAt(a + b, |a|, b)
  {
  }

  lemma SliceOfLonger(a: seq<Op>, b: seq<Op>, at: nat, ops: seq<Op>)
    requires SliceAt(a, at, ops)
    ensures SliceAt(a + b, at, ops)
  {
  }

  /** Each writer's operations are a slice of its group's. */
  lemma {:induction false} OpsInGroup(queue: seq<Writer>, i: nat, n: nat)
    requires i < n <= |queue|
    ensures SliceAt(GroupOps(queue, n), |GroupOps(queue, i)|, OpsOf(queue[i]))
    decreases n
  {
    if i == n - 1 {
      SliceOfSum(GroupOps(queue, i), OpsOf(queue[i]));
    } else {
      OpsInGroup(queue, i, n - 1);
      SliceOfLonger(GroupOps(queue, n - 1), OpsOf(queue[n - 1]), |GroupOps(queue, i)|, OpsOf(queue[i]));
    }
  }

  lemma ArriveKeepsInv(s: State, w: Writer, s': State)
    requires Inv(s) && Next(s, Arrive(w), s')
    ensures Inv(s')
  {
    if s.commit.Some? {
      GroupOpsOfPrefix(s.queue, w, s.commit.value.n);
    }
  }

  /** Popping the first `n` writers keeps the order of arrivals. */
  lemma FinishKeepsFifo(s: State, n: nat, ok: bool, first: nat, s': State)
    requires Fifo(s) && n <= |s.queue|
    requires s'.done == s.done + Finish(s.queue, n, ok, first) && s'.queue == s.queue[n..] && s'.arrivals == s.arrivals
    ensures Fifo(s')
  {
    assert Writers(s'.done) == Writers(s.done) + s.queue[..n];
  }

  /** A writer that fails alone, or has nothing to write, takes no sequence number. */
  lemma AloneKeepsInv(s: State, ok: bool, s': State)
    requires Inv(s) && s.commit.None? && s.queue != [] && (ok ==> s.queue[0].batch.None?)
    requires s' == s.(done := s.done + Finish(s.queue, 1, ok, s.last + 1), queue := s.queue[1..])
    ensures Inv(s')
  {
    FinishKeepsFifo(s, 1, ok, s.last + 1, s');
    var alone := Done(s.queue[0], ok, s.last + 1);
    assert Finish(s.queue, 1, ok, s.last + 1) == [alone];
    assert ok ==> OpsOf(alone.writer) == [];
    assert forall d :: d in s'.done ==> d in s.done || d == alone;
    forall i | 0 <= i < |s.done| && s.done[i].ok ensures s.done[i].first + |OpsOf(s.done[i].writer)| <= s.last + 1 {
      assert s.done[i] in s.done;
    }
    assert RangesIncrease(s');
    AloneKeepsOwners(s, alone, s');
  }

  lemma AloneKeepsOwners(s: State, alone: Done, s': State)
    requires MemOwned(s) && s'.mem == s.mem && s'.last == s.last && s'.commit == s.commit && s'.done == s.done + [alone]
    ensures MemOwned(s')
  {
    forall q | q in s.mem && q <= s.last ensures exists i :: 0 <= i < |s'.done| && Covers(s'.done[i], q) {
      var i :| 0 <= i < |s.done| && Covers(s.done[i], q);
      assert Covers(s'.done[i], q);
    }
  }

  lemma BuildKeepsInv(s: State, n: nat, s': State)
    requires Inv(s) && Next(s, Build(n), s')
    ensures Inv(s')
  {
    forall i | 0 <= i < n ensures s.queue[i].sync ==> s.queue[0].sync {
      assert i == 0 || !Blocked(s.queue, i);
    }
  }

  /** A log that only grows, or gets synced, still carries what it carried. */
  lemma LogGrows(log: seq<Record>, log': seq<Record>, d: Done)
    requires |log| <= |log'| && forall i :: 0 <= i < |log| ==>
      log'[i] == log[i] || log'[i] == Record(log[i].first, log[i].ops, true)
    requires Logged(log, d)
    ensures Logged(log', d)
  {
    var i :| 0 <= i < |log| && Carries(log[i], d);
    assert Carries(log'[i], d);
  }

  lemma LogGrowsForAll(s: State, s': State)
    requires DoneLogged(s) && s'.done == s.done && |s.log| <= |s'.log|
    requires forall i :: 0 <= i < |s.log| ==>
      s'.log[i] == s.log[i] || s'.log[i] == Record(s.log[i].first, s.log[i].ops, true)
    ensures DoneLogged(s')
  {
    forall d | d in s.done && d.ok && d.writer.batch.Some? ensures Logged(s'.log, d) {
      LogGrows(s.log, s'.log, d);
    }
  }

  /** Logging touches neither the finished writers nor the memtable. */
  lemma LoggingKeepsRest(s: State, step: Step, s': State)
    requires Fifo(s) && DoneApplied(s) && RangesIncrease(s) && MemOwned(s) && Next(s, step, s')
    requires (step.Append? || step.Sync?)
    ensures Fifo(s') && DoneApplied(s') && RangesIncrease(s') && MemOwned(s')
  {
  }

  lemma LoggingKeepsLog(s: State, step: Step, s': State)
    requires CommitOk(s) && LogOk(s) && Next(s, step, s') && (step.Append? || step.Sync?)
    ensures CommitOk(s') && LogOk(s')
  {
  }

  lemma LoggingKeepsInv(s: State, step: Step, s': State)
    requires Inv(s) && Next(s, step, s') && (step.Append? || step.Sync?)
    ensures Inv(s')
  {
    LoggingKeepsRest(s, step, s');
    LoggingKeepsLog(s, step, s');
    LogGrowsForAll(s, s');
  }

  lemma InsertKeepsOwners(s: State, s': State)
    requires CommitOk(s) && MemOwned(s) && Next(s, Insert, s')
    ensures MemOwned(s') && CommitOk(s')
  {
    var c := s.commit.value;
    InsertedOneMore(s.mem, c.first, c.ops, c.inserted);
  }

  lemma InsertKeepsApplied(s: State, s': State)
    requires CommitOk(s) && DoneApplied(s) && Next(s, Insert, s')
    ensures DoneApplied(s')
  {
    var c := s.commit.value;
    forall d | d in s.done && d.ok ensures Applied(s'.mem, s.last, d) {
      StillApplied(s.mem, s.last, d, c.first + c.inserted, c.ops[c.inserted]);
    }
  }

  lemma InsertKeepsRest(s: State, s': State)
    requires Fifo(s) && CommitOk(s) && RangesIncrease(s) && LogOk(s) && DoneLogged(s) && Next(s, Insert, s')
    ensures Fifo(s') && RangesIncrease(s') && LogOk(s') && DoneLogged(s')
  {
  }

  /** Inserting one operation touches only sequence numbers no reader sees yet. */
  lemma InsertKeepsInv(s: State, s': State)
    requires Inv(s) && Next(s, Insert, s')
    ensures Inv(s')
  {
    InsertKeepsOwners(s, s');
    InsertKeepsApplied(s, s');
    InsertKeepsRest(s, s');
  }

  lemma InsertedOneMore(mem: map<nat, Op>, first: nat, ops: seq<Op>, n: nat)
    requires n < |ops| && Inserted(mem, first, ops, n)
    ensures Inserted(mem[first + n := ops[n]], first, ops, n + 1)
  {
  }

  lemma StillApplied(mem: map<nat, Op>, last: nat, d: Done, q: nat, op: Op)
    requires Applied(mem, last, d) && q > last
    ensures Applied(mem[q := op], last, d)
  {
  }

  lemma PublishApplies(mem: map<nat, Op>, queue: seq<Writer>, n: nat, last: nat, i: nat)
    requires n <= |queue| && i < n && Inserted(mem, last + 1, GroupOps(queue, n), |GroupOps(queue, n)|)
    ensures Applied(mem, last + |GroupOps(queue, n)|, Done(queue[i], true, last + 1 + |GroupOps(queue, i)|))
  {
    OpsInGroup(queue, i, n);
    var all, at, ops := GroupOps(queue, n), |GroupOps(queue, i)|, OpsOf(queue[i]);
    SliceInserted(mem, last + 1, all, at, ops);
    assert last + 1 + at + |ops| <= last + |all| + 1;
  }

  lemma SliceInserted(mem: map<nat, Op>, first: nat, all: seq<Op>, at: nat, ops: seq<Op>)
    requires Inserted(mem, first, all, |all|) && SliceAt(all, at, ops)
    ensures Inserted(mem, first + at, ops, |ops|)
  {
    forall k | 0 <= k < |ops| ensures Holds(mem, first + at + k, ops[k]) {
      assert Holds(mem, first + (at + k), all[at + k]);
    }
  }

  lemma PublishLogs(s: State, i: nat)
    requires CommitOk(s) && s.commit.Some? && i < s.commit.value.n && s.log != []
    requires var c := s.commit.value; c.stage.Inserting? || c.stage.Synced? || (c.stage.Appended? && !s.queue[0].sync)
    ensures var c := s.commit.value; Logged(s.log, Done(s.queue[i], true, c.first + |GroupOps(s.queue, i)|))
  {
    OpsInGroup(s.queue, i, s.commit.value.n);
    assert Carries(s.log[|s.log| - 1], Done(s.queue[i], true, s.commit.value.first + |GroupOps(s.queue, i)|));
  }

  /** The writer whose range holds the `k`-th operation of the group. */
  lemma {:induction false} OwnerInGroup(queue: seq<Writer>, n: nat, k: nat) returns (i: nat)
    requires n <= |queue| && k < |GroupOps(queue, n)|
    ensures i < n && |GroupOps(queue, i)| <= k < |GroupOps(queue, i)| + |OpsOf(queue[i])|
  {
    if k < |GroupOps(queue, n - 1)| {
      i := OwnerInGroup(queue, n - 1, k);
    } else {
      i := n - 1;
    }
  }

  lemma LaterApplied(mem: map<nat, Op>, last: nat, last': nat, d: Done)
    requires Applied(mem, last, d) && last <= last'
    ensures Applied(mem, last', d)
  {
  }

  /** The first `n` writers of the queue are done, with their whole group inserted unless logging failed. */
  ghost predicate Published(s: State, s': State, n: nat, ok: bool) {
    && n <= |s.queue| && s'.mem == s.mem && s'.last == s.last + |GroupOps(s.queue, n)|
    && s'.done == s.done + Finish(s.queue, n, ok, s.last + 1)
    && (ok ==> Inserted(s.mem, s.last + 1, GroupOps(s.queue, n), |GroupOps(s.queue, n)|))
  }

  lemma PublishedGroup(s: State, s': State) returns (n: nat, ok: bool)
    requires CommitOk(s) && MemOwned(s) && Next(s, Publish, s')
    ensures Published(s, s', n, ok)
  {
    var c := s.commit.value;
    n, ok := c.n, !c.stage.Doomed?;
    assert ok ==> Inserted(s.mem, c.first, c.ops, |c.ops|);
  }

  lemma DoneIsApplied(s: State, s': State, n: nat, ok: bool, d: Done)
    requires DoneApplied(s) && Published(s, s', n, ok) && d in s'.done && d.ok
    ensures Applied(s'.mem, s'.last, d)
  {
    if d in s.done {
      LaterApplied(s.mem, s.last, s'.last, d);
    } else {
      var i := NewlyDone(s.done, s.queue, n, ok, s.last + 1, d);
      PublishApplies(s.mem, s.queue, n, s.last, i);
    }
  }

  lemma PublishKeepsApplied(s: State, s': State)
    requires CommitOk(s) && MemOwned(s) && DoneApplied(s) && Next(s, Publish, s')
    ensures DoneApplied(s')
  {
    var n, ok := PublishedGroup(s, s');
    forall d | d in s'.done && d.ok ensures Applied(s'.mem, s'.last, d) {
      DoneIsApplied(s, s', n, ok, d);
    }
  }

  lemma NewlyDone(done: seq<Done>, queue: seq<Writer>, n: nat, ok: bool, first: nat, d: Done) returns (i: nat)
    requires n <= |queue| && d in done + Finish(queue, n, ok, first) && d !in done
    ensures i < n && d == Done(queue[i], ok, first + |GroupOps(queue, i)|)
  {
    var j :| 0 <= j < |done| + n && (done + Finish(queue, n, ok, first))[j] == d;
    i := j - |done|;
  }

  lemma FinishKeepsRanges(last: nat, done: seq<Done>, queue: seq<Writer>, n: nat, ok: bool, i: nat, j: nat)
    requires n <= |queue| && i < j < |done| + n
    requires forall k :: 0 <= k < |done| && done[k].ok ==> done[k].first + |OpsOf(done[k].writer)| <= last + 1
    requires forall k, l :: 0 <= k < l < |done| ==> done[k].ok ==>
      done[k].first + |OpsOf(done[k].writer)| <= done[l].first
    ensures var done' := done + Finish(queue, n, ok, last + 1);
      done'[i].ok ==> done'[i].first + |OpsOf(done'[i].writer)| <= done'[j].first
  {
    var m := |done|;
    if i >= m {
      OpsInGroup(queue, i - m, j - m);
    }
  }

  lemma FinishKeepsFirsts(last: nat, done: seq<Done>, queue: seq<Writer>, n: nat, ok: bool, i: nat)
    requires n <= |queue| && i < |done| + n
    requires forall k :: 0 <= k < |done| ==> done[k].first <= last + 1
    ensures var done' := done + Finish(queue, n, ok, last + 1);
      done'[i].first <= last + |GroupOps(queue, n)| + 1
  {
    if i >= |done| {
      GroupPrefix(queue, i - |done|, n);
    }
  }

  lemma AppliedEndsByLast(s: State, i: nat)
    requires DoneApplied(s) && i < |s.done| && s.done[i].ok
    ensures s.done[i].first + |OpsOf(s.done[i].writer)| <= s.last + 1
  {
    assert s.done[i] in s.done;
  }

  lemma PublishKeepsRanges(s: State, s': State)
    requires CommitOk(s) && DoneApplied(s) && RangesIncrease(s) && Next(s, Publish, s')
    ensures RangesIncrease(s')
  {
    var c := s.commit.value;
    var ok := !c.stage.Doomed?;
    forall i | 0 <= i < |s.done| && s.done[i].ok ensures s.done[i].first + |OpsOf(s.done[i].writer)| <= s.last + 1 {
      AppliedEndsByLast(s, i);
    }
    RangesAfter(s.last, s.done, s.queue, c.n, ok, s'.last, s'.done);
  }

  lemma RangesAfter(last: nat, done: seq<Done>, queue: seq<Writer>, n: nat, ok: bool, last': nat, done': seq<Done>)
    requires n <= |queue| && done' == done + Finish(queue, n, ok, last + 1)
    requires last' == last + |GroupOps(queue, n)|
    requires forall k :: 0 <= k < |done| ==> done[k].first <= last + 1
    requires forall k :: 0 <= k < |done| && done[k].ok ==> done[k].first + |OpsOf(done[k].writer)| <= last + 1
    requires forall k, l :: 0 <= k < l < |done| ==> done[k].ok ==>
      done[k].first + |OpsOf(done[k].writer)| <= done[l].first
    ensures forall i :: 0 <= i < |done'| ==> done'[i].first <= last' + 1
    ensures forall i, j :: 0 <= i < j < |done'| ==> done'[i].ok ==>
      done'[i].first + |OpsOf(done'[i].writer)| <= done'[j].first
  {
    forall i | 0 <= i < |done'| ensures done'[i].first <= last' + 1 {
      FinishKeepsFirsts(last, done, queue, n, ok, i);
    }
    forall i, j | 0 <= i < j < |done'|
      ensures done'[i].ok ==> done'[i].first + |OpsOf(done'[i].writer)| <= done'[j].first
    {
      FinishKeepsRanges(last, done, queue, n, ok, i, j);
    }
  }

  /** A number published just now belongs to a writer of the group. */
  lemma PublishedHasOwner(queue: seq<Writer>, n: nat, first: nat, done: seq<Done>, q: nat)
    requires n <= |queue| && first <= q < first + |GroupOps(queue, n)|
    ensures var done' := done + Finish(queue, n, true, first);
      exists i :: 0 <= i < |done'| && Covers(done'[i], q)
  {
    var i := OwnerInGroup(queue, n, q - first);
    assert Covers((done + Finish(queue, n, true, first))[|done| + i], q);
  }

  lemma PublishKeepsOwners(s: State, s': State)
    requires CommitOk(s) && MemOwned(s) && Next(s, Publish, s')
    ensures MemOwned(s')
  {
    var c := s.commit.value;
    forall q | q in s'.mem && q <= s'.last ensures exists i :: 0 <= i < |s'.done| && Covers(s'.done[i], q) {
      if q <= s.last {
        var i :| 0 <= i < |s.done| && Covers(s.done[i], q);
        assert Covers(s'.done[i], q);
      } else {
        PublishedHasOwner(s.queue, c.n, c.first, s.done, q);
      }
    }
  }

  lemma PublishKeepsLogged(s: State, s': State)
    requires CommitOk(s) && DoneLogged(s) && Next(s, Publish, s')
    ensures DoneLogged(s')
  {
    var c := s.commit.value;
    forall d | d in s'.done && d.ok && d.writer.batch.Some? ensures Logged(s'.log, d) {
      if d !in s.done {
        var i := NewlyDone(s.done, s.queue, c.n, !c.stage.Doomed?, c.first, d);
        PublishLogs(s, i);
      }
    }
  }

  lemma StepKeepsInv(s: State, step: Step, s': State)
    requires Inv(s) && Next(s, step, s')
    ensures Inv(s')
  {
    match step
    case Arrive(w) => ArriveKeepsInv(s, w, s');
    case NoRoom => AloneKeepsInv(s, false, s');
    case NothingToWrite => AloneKeepsInv(s, true, s');
    case Build(n) => BuildKeepsInv(s, n, s');
    case Append(ok) => LoggingKeepsInv(s, step, s');
    case Sync(ok) => LoggingKeepsInv(s, step, s');
    case Insert => InsertKeepsInv(s, s');
    case Publish =>
      var c := s.commit.value;
      FinishKeepsFifo(s, c.n, !c.stage.Doomed?, c.first, s');
      PublishKeepsApplied(s, s');
      PublishKeepsRanges(s, s');
      PublishKeepsOwners(s, s');
      PublishKeepsLogged(s, s');
    case BackgroundFails =>
  }

  // ---- Whole runs ----

  ghost predicate Init(s: State) {
    s.arrivals == [] && s.done == [] && s.queue == [] && s.log == [] && s.mem == map[] && s.commit.None?
  }

  ghost predicate IsRun(run: seq<State>, steps: seq<Step>) {
    && |run| == |steps| + 1 && Init(run[0])
    && forall i :: 0 <= i < |steps| ==> Next(run[i], steps[i], run[i + 1])
  }

  lemma {:induction false} RunsKeepInv(run: seq<State>, steps: seq<Step>, i: nat)
    requires IsRun(run, steps) && i < |run|
    ensures Inv(run[i])
  {
    if i > 0 {
      RunsKeepInv(run, steps, i - 1);
      StepKeepsInv(run[i - 1], steps[i - 1], run[i]);
    }
  }

  /** In every interleaving the writers complete in the order they arrived, each exactly once:
      those that completed and those still queued are together the arrivals. */
  lemma CompletionIsFifo(run: seq<State>, steps: seq<Step>, i: nat)
    requires IsRun(run, steps) && i < |run|
    ensures run[i].arrivals == Writers(run[i].done) + run[i].queue
    ensures forall j, k :: 0 <= j < k < |run[i].done| ==> run[i].done[j].writer.id != run[i].done[k].writer.id
  {
    RunsKeepInv(run, steps, i);
    var s := run[i];
    forall j, k | 0 <= j < k < |s.done| ensures s.done[j].writer.id != s.done[k].writer.id {
      assert s.arrivals[j] == s.done[j].writer && s.arrivals[k] == s.done[k].writer;
    }
  }

  /** Successful writers take disjoint increasing ranges, their operations are in the log at
      those numbers, and a writer that asked for sync is in a synced record. */
  lemma AckedIsLogged(run: seq<State>, steps: seq<Step>, i: nat)
    requires IsRun(run, steps) && i < |run|
    ensures forall j, k :: 0 <= j < k < |run[i].done| && run[i].done[j].ok ==>
              run[i].done[j].first + |OpsOf(run[i].done[j].writer)| <= run[i].done[k].first
    ensures forall j :: 0 <= j < |run[i].done| && run[i].done[j].ok && run[i].done[j].writer.batch.Some? ==>
      Logged(run[i].log, run[i].done[j])
  {
    RunsKeepInv(run, steps, i);
    assert forall j :: 0 <= j < |run[i].done| ==> run[i].done[j] in run[i].done;
  }

  /** What a reader at `last` sees of the memtable. */
  ghost function SeenBy(s: State): (r: map<nat, Op>) {
    map q | q in s.mem && q <= s.last :: s.mem[q]
  }

  lemma AppliedIsSeen(s: State, d: Done)
    requires Applied(s.mem, s.last, d)
    ensures Inserted(SeenBy(s), d.first, OpsOf(d.writer), |OpsOf(d.writer)|)
  {
  }

  lemma ReaderSeesWholeBatches(s: State)
    requires DoneApplied(s) && MemOwned(s)
    ensures forall d :: d in s.done && d.ok ==> Inserted(SeenBy(s), d.first, OpsOf(d.writer), |OpsOf(d.writer)|)
    ensures forall q :: q in SeenBy(s) ==> exists j :: 0 <= j < |s.done| && Covers(s.done[j], q)
  {
    forall d | d in s.done && d.ok ensures Inserted(SeenBy(s), d.first, OpsOf(d.writer), |OpsOf(d.writer)|) {
      AppliedIsSeen(s, d);
    }
  }

  /** At any moment a reader sees all operations of a successful writer, and whatever it sees
      belongs to a successful writer: no batch is ever seen in part. */
  lemma BatchesAreAtomic(run: seq<State>, steps: seq<Step>, i: nat)
    requires IsRun(run, steps) && i < |run|
    ensures forall d :: d in run[i].done && d.ok ==>
      Inserted(SeenBy(run[i]), d.first, OpsOf(d.writer), |OpsOf(d.writer)|)
    ensures forall q :: q in SeenBy(run[i]) ==> exists j :: 0 <= j < |run[i].done| && Covers(run[i].done[j], q)
  {
    RunsKeepInv(run, steps, i);
    ReaderSeesWholeBatches(run[i]);
  }
}
