/** The skip list: one writer inserts while readers search without locks. */
module SkipLists {
  // A node is identified by its key, since keys are distinct and nodes are never removed.
  // Each level maps a node to its next pointer at that level.

  import opened FlatStore
  import opened Wrappers

  const MAX_HEIGHT: nat := 12

  datatype Ptr = Head | Node(key: int)
  type Links = map<Ptr, Option<int>>

  /** The keys that some pointer of the level reaches. */
  ghost function Linked(links: Links): (r: set<int>) {
    set p | p in links && links[p].Some? :: links[p].value
  }

  predicate Left(p: Ptr, key: int) {
    p.Head? || p.key < key
  }

  /** The head and the linked nodes of a level. */
  ghost predicate On(links: Links, p: Ptr) {
    p in links && (p.Head? || p.key in Linked(links))
  }

  /** `next` is the first linked key right of `p`. */
  ghost predicate IsNext(links: Links, p: Ptr, next: Option<int>) {
    && (next.Some? ==> next.value in Linked(links) && Left(p, next.value))
    && forall k :: k in Linked(links) && Left(p, k) ==> next.Some? && next.value <= k
  }

  /** Every pointer of the level leads to the next key: the level is a sorted list. */
  ghost predicate Ordered(links: Links) {
    && Head in links
    && (forall k :: k in Linked(links) ==> Node(k) in links)
    && forall p {:trigger On(links, p)} :: On(links, p) ==> IsNext(links, p, links[p])
  }

  /** Each level is sorted and a sublist of the one below. */
  ghost predicate Layered(next: seq<Links>) {
    && |next| == MAX_HEIGHT
    && (forall i :: 0 <= i < |next| ==> Ordered(next[i]))
    && forall i :: 0 <= i < |next| - 1 ==> Linked(next[i + 1]) <= Linked(next[i])
  }

  /** The chain of keys met by following the pointers of a level from `p` to the end. */
  ghost predicate IsChain(links: Links, p: Ptr, chain: seq<int>)
    decreases chain
  {
    if chain == [] then p in links && links[p].None?
    else p in links && links[p] == Some(chain[0]) && IsChain(links, Node(chain[0]), chain[1..])
  }

  ghost function RightOf(links: Links, p: Ptr): (r: set<int>) {
    set k | k in Linked(links) && Left(p, k)
  }

  /** Following the pointers from a linked node meets exactly the linked keys to its right, in order. */
  lemma {:induction false} ChainExists(links: Links, p: Ptr) returns (chain: seq<int>)
    requires Ordered(links) && On(links, p)
    ensures IsChain(links, p, chain)
    ensures forall i, j :: 0 <= i < j < |chain| ==> chain[i] < chain[j]
    ensures forall k :: k in chain <==> k in RightOf(links, p)
    decreases RightOf(links, p)
  {
    assert IsNext(links, p, links[p]);
    if links[p].None? {
      chain := [];
    } else {
      var k := links[p].value;
      assert RightOf(links, p) == RightOf(links, Node(k)) + {k};
      assert k !in RightOf(links, Node(k));
      var rest := ChainExists(links, Node(k));
      chain := [k] + rest;
      assert chain[1..] == rest;
      forall i, j | 0 <= i < j < |chain| ensures chain[i] < chain[j] {
        assert rest[j - 1] in rest;
      }
    }
  }

  // ---- Linking a node into one level ----

  /** `p` is the last node of the level left of `key`. */
  ghost predicate IsPrev(links: Links, p: Ptr, key: int) {
    && On(links, p) && Left(p, key)
    && (links[p].Some? ==> links[p].value > key)
  }

  /** The node's own pointer is set first; nothing points to the node yet. */
  function Prepare(links: Links, p: Ptr, key: int): (r: Links)
    requires p in links
  {
    links[Node(key) := links[p]]
  }

  function PublishAt(links: Links, p: Ptr, key: int): (r: Links) {
    links[p := Some(key)]
  }

  /** Only linked nodes have pointers at the level. */
  ghost predicate Tidy(links: Links) {
    forall k :: Node(k) in links ==> k in Linked(links)
  }

  lemma PrepareIsInvisible(links: Links, p: Ptr, key: int)
    requires Ordered(links) && IsPrev(links, p, key) && Node(key) !in links
    ensures var l := Prepare(links, p, key);
      Linked(l) == Linked(links) && Ordered(l) && IsPrev(l, p, key) && l[Node(key)] == l[p]
  {
    var l := Prepare(links, p, key);
    assert forall q :: q in links ==> l[q] == links[q];
    forall k | k in Linked(links) ensures k in Linked(l) {
      var q :| q in links && links[q] == Some(k);
      assert l[q] == Some(k);
    }
    assert Linked(l) == Linked(links);
    assert forall q :: On(l, q) ==> On(links, q);
  }

  /** One store makes the node visible at the level: the level gains exactly its key. */
  lemma PublishLinks(links: Links, p: Ptr, key: int)
    requires Ordered(links) && IsPrev(links, p, key) && Node(key) in links && links[Node(key)] == links[p]
    requires key !in Linked(links)
    ensures var l := PublishAt(links, p, key); Linked(l) == Linked(links) + {key} && Ordered(l)
  {
    var l := PublishAt(links, p, key);
    assert forall q :: q in links && q != p ==> l[q] == links[q];
    forall k | k in Linked(links) ensures k in Linked(l) {
      var q :| q in links && links[q] == Some(k);
      assert l[if q == p then Node(key) else q] == Some(k);
    }
    assert l[p] == Some(key);
    assert Linked(l) == Linked(links) + {key};
    forall q | On(l, q) ensures IsNext(l, q, l[q]) {
      if q == p {
      } else if q == Node(key) {
        assert IsNext(links, p, links[p]);
      } else {
        assert On(links, q);
        PrevBefore(links, p, key, q);
      }
    }
  }

  /** Any other linked node has a next pointer that stays right after the new key is linked. */
  lemma PrevBefore(links: Links, p: Ptr, key: int, q: Ptr)
    requires Ordered(links) && IsPrev(links, p, key) && On(links, q) && q != p && key !in Linked(links)
    ensures Left(q, key) ==> links[q].Some? && links[q].value < key
  {
    if Left(q, key) {
      assert IsNext(links, p, links[p]) && IsNext(links, q, links[q]);
      assert p.Node? && Left(q, p.key);
    }
  }

  // ---- What searches mean ----

  /** `r` is the least key that is at least `target`. */
  ghost predicate IsLeastFrom(keys: set<int>, target: int, r: Option<int>) {
    if r.Some? then r.value in keys && target <= r.value && forall k :: k in keys && target <= k ==> r.value <= k
    else forall k :: k in keys ==> k < target
  }

  /** `p` is the greatest key below `target`, or the head. */
  ghost predicate IsGreatestBelow(keys: set<int>, target: int, p: Ptr) {
    if p.Node? then p.key in keys && p.key < target && forall k :: k in keys && k < target ==> k <= p.key
    else forall k :: k in keys ==> target <= k
  }

  ghost predicate IsGreatest(keys: set<int>, p: Ptr) {
    if p.Node? then p.key in keys && forall k :: k in keys ==> k <= p.key
    else keys == {}
  }

  /** The last read of a search decides: the pointer it follows skips nothing. */
  lemma LastReadDecides(links: Links, x: Ptr, target: int)
    requires Ordered(links) && On(links, x) && Left(x, target) && (links[x].Some? ==> target <= links[x].value)
    ensures IsLeastFrom(Linked(links), target, links[x]) && IsGreatestBelow(Linked(links), target, x)
  {
    assert IsNext(links, x, links[x]);
  }

  lemma LastNodeDecides(links: Links, x: Ptr)
    requires Ordered(links) && On(links, x) && links[x].None?
    ensures IsGreatest(Linked(links), x)
  {
    assert IsNext(links, x, None);
    if x.Head? {
      forall k ensures k !in Linked(links) {
        assert Left(x, k);
      }
    }
  }

  /** Dropping a level keeps the search on linked nodes. */
  lemma DropLevel(next: seq<Links>, level: nat, x: Ptr)
    requires Layered(next) && 0 < level < |next| && On(next[level], x)
    ensures On(next[level - 1], x)
  {
    assert Linked(next[level - 1 + 1]) <= Linked(next[level - 1]);
    assert Ordered(next[level - 1]);
  }

  lemma StepRight(links: Links, x: Ptr)
    requires Ordered(links) && On(links, x) && links[x].Some?
    ensures On(links, Node(links[x].value)) && RightOf(links, Node(links[x].value)) < RightOf(links, x)
  {
    var k := links[x].value;
    assert IsNext(links, x, links[x]);
    assert k in RightOf(links, x) && k !in RightOf(links, Node(k));
  }

  /** Part way through Insert: the levels below `i` have the key, the others are untouched. */
  ghost predicate PartlyLinked(before: seq<Links>, next: seq<Links>, prev: seq<Ptr>, key: int, height: nat, i: nat) {
    && |before| == |next| == MAX_HEIGHT && i <= height <= MAX_HEIGHT && height <= |prev|
    && Layered(before) && Layered(next) && (forall l :: 0 <= l < MAX_HEIGHT ==> Tidy(next[l]))
    && (forall l :: 0 <= l < i ==> Linked(next[l]) == Linked(before[l]) + {key})
    && (forall l :: i <= l < MAX_HEIGHT ==> next[l] == before[l])
    && (forall l :: 0 <= l < height ==> IsPrev(before[l], prev[l], key))
    && (forall l :: 0 <= l < MAX_HEIGHT ==> key !in Linked(before[l]))
  }

  /** A key absent from the bottom level is absent from all. */
  lemma {:induction false} AbsentAbove(next: seq<Links>, key: int, l: nat)
    requires Layered(next) && l < |next| && key !in Linked(next[0])
    ensures key !in Linked(next[l])
  {
    if l > 0 {
      AbsentAbove(next, key, l - 1);
      assert Linked(next[l - 1 + 1]) <= Linked(next[l - 1]);
    }
  }

  /** Where a search left its level: at a node left of the key whose pointer is not. */
  ghost predicate LeftAt(links: Links, p: Ptr, key: int) {
    On(links, p) && Left(p, key) && (links[p].Some? ==> key <= links[p].value)
  }

  lemma InsertStart(before: seq<Links>, prev: seq<Ptr>, key: int, height: nat)
    requires Layered(before) && (forall l :: 0 <= l < MAX_HEIGHT ==> Tidy(before[l])) && key !in Linked(before[0])
    requires height <= MAX_HEIGHT && height <= |prev| && forall l :: 0 <= l < height ==> LeftAt(before[l], prev[l], key)
    ensures PartlyLinked(before, before, prev, key, height, 0)
  {
    forall l | 0 <= l < MAX_HEIGHT ensures key !in Linked(before[l]) {
      AbsentAbove(before, key, l);
    }
    forall l | 0 <= l < height ensures IsPrev(before[l], prev[l], key) {
      assert LeftAt(before[l], prev[l], key) && Ordered(before[l]);
      assert IsNext(before[l], prev[l], before[l][prev[l]]);
    }
  }

  lemma HeadOfEmptyLevel(links: Links, key: int)
    requires Ordered(links) && Linked(links) == {}
    ensures LeftAt(links, Head, key)
  {
    assert IsNext(links, Head, links[Head]);
  }

  lemma LinkLevel(before: seq<Links>, next: seq<Links>, prev: seq<Ptr>, key: int, height: nat, i: nat)
    requires PartlyLinked(before, next, prev, key, height, i) && i < height
    ensures var prepared := Prepare(next[i], prev[i], key);
      PartlyLinked(before, next[i := PublishAt(prepared, prev[i], key)], prev, key, height, i + 1)
  {
    var prepared := Prepare(next[i], prev[i], key);
    assert Tidy(next[i]) && IsPrev(before[i], prev[i], key);
    PrepareIsInvisible(next[i], prev[i], key);
    PublishLinks(prepared, prev[i], key);
    var l := PublishAt(prepared, prev[i], key);
    assert forall q :: q in l ==> q in next[i] || q == Node(key);
    assert Tidy(l);
    var next' := next[i := l];
    assert Linked(before[i]) <= Linked(l);
    forall k | 0 <= k < |next'| - 1 ensures Linked(next'[k + 1]) <= Linked(next'[k]) {
      assert Linked(next[k + 1]) <= Linked(next[k]);
    }
  }

  class SkipList {
    var next: seq<Links>
    var maxHeight: nat

    ghost predicate Valid()
      reads this
    {
      && Layered(next) && 1 <= maxHeight <= MAX_HEIGHT
      && (forall i :: 0 <= i < MAX_HEIGHT ==> Tidy(next[i]))
      && forall i :: maxHeight <= i < MAX_HEIGHT ==> Linked(next[i]) == {}
    }

    ghost function Keys(): (r: set<int>)
      requires Valid()
      reads this
    {
      Linked(next[0])
    }

    constructor ()
      ensures Valid() && Keys() == {}
    {
      next := seq(MAX_HEIGHT, i => map[Head := None]);
      maxHeight := 1;
    }

    method FindGreaterOrEqual(key: int) returns (found: Option<int>, prev: seq<Ptr>)
      requires Valid()
      ensures IsLeastFrom(Keys(), key, found)
      ensures |prev| == maxHeight
      ensures forall l :: 0 <= l < maxHeight ==> LeftAt(next[l], prev[l], key)
    {
      var x := Head;
      var level := maxHeight - 1;
      prev := seq(maxHeight, i => Head);
      assert Ordered(next[level]);
      while true
        invariant 0 <= level < maxHeight && |prev| == maxHeight && On(next[level], x) && Left(x, key)
        invariant forall l :: level < l < maxHeight ==> LeftAt(next[l], prev[l], key)
        decreases level, RightOf(next[level], x)
      {
        var n := next[level][x];
        if n.Some? && n.value < key {
          StepRight(next[level], x);
          x := Node(n.value);
        } else {
          prev := prev[level := x];
          if level == 0 {
            LastReadDecides(next[0], x, key);
            found := n;
            return;
          } else {
            DropLevel(next, level, x);
            level := level - 1;
          }
        }
      }
    }

    method FindLessThan(key: int) returns (x: Ptr)
      requires Valid()
      ensures IsGreatestBelow(Keys(), key, x)
    {
      x := Head;
      var level := maxHeight - 1;
      assert Ordered(next[level]);
      while true
        invariant 0 <= level < maxHeight && On(next[level], x) && Left(x, key)
        decreases level, RightOf(next[level], x)
      {
        var n := next[level][x];
        if n.Some? && n.value < key {
          StepRight(next[level], x);
          x := Node(n.value);
        } else if level == 0 {
          LastReadDecides(next[0], x, key);
          return;
        } else {
          DropLevel(next, level, x);
          level := level - 1;
        }
      }
    }

    method FindLast() returns (x: Ptr)
      requires Valid()
      ensures IsGreatest(Keys(), x)
    {
      x := Head;
      var level := maxHeight - 1;
      assert Ordered(next[level]);
      while true
        invariant 0 <= level < maxHeight && On(next[level], x)
        decreases level, RightOf(next[level], x)
      {
        var n := next[level][x];
        if n.None? {
          if level == 0 {
            LastNodeDecides(next[0], x);
            return;
          } else {
            DropLevel(next, level, x);
            level := level - 1;
          }
        } else {
          StepRight(next[level], x);
          x := Node(n.value);
        }
      }
    }

    method Contains(key: int) returns (r: bool)
      requires Valid()
      ensures r <==> key in Keys()
    {
      var x, _ := FindGreaterOrEqual(key);
      r := x == Some(key);
    }

    /** The height is drawn at random by the caller. */
    method Insert(key: int, height: nat)
      requires Valid() && key !in Keys() && 1 <= height <= MAX_HEIGHT
      modifies this
      ensures Valid() && Keys() == old(Keys()) + {key}
    {
      var _, prev := FindGreaterOrEqual(key);
      ghost var before := next;
      if height > maxHeight {
        forall l | maxHeight <= l < MAX_HEIGHT ensures LeftAt(before[l], Head, key) {
          HeadOfEmptyLevel(before[l], key);
        }
        prev := prev + seq(height - maxHeight, i => Head);
        maxHeight := height;
      }
      var newHeight := maxHeight;
      InsertStart(before, prev, key, height);
      for i := 0 to height
        invariant PartlyLinked(before, next, prev, key, height, i) && maxHeight == newHeight
      {
        LinkLevel(before, next, prev, key, height, i);
        next := next[i := Prepare(next[i], prev[i], key)];
        next := next[i := PublishAt(next[i], prev[i], key)];
      }
    }
  }

  // ---- Readers interleaved with the stores of Insert ----

  datatype WriterState = Idle | Linking(key: int, height: nat, prev: seq<Ptr>, level: nat, prepared: bool)

  datatype Search = GreaterOrEqual(target: int) | LessThan(target: int) | Last

  /** A search in progress reads `next[level]` of node `x`; its answer is the node it stops at
      and the pointer it read there. */
  datatype Reader = Away | Searching(search: Search, x: Ptr, level: nat) | Answered(search: Search, x: Ptr,
    next: Option<int>)

  datatype State = State(next: seq<Links>, writer: WriterState, reader: Reader)

  datatype Step =
    | BeginInsert(key: int, height: nat, prev: seq<Ptr>)
    | SetOwnPointer
    | LinkNode
    | BeginSearch(search: Search, height: nat)
    | ReadPointer

  /** The search moves right past pointers to keys left of its target. */
  predicate MovesOn(search: Search, n: Option<int>) {
    n.Some? && match search
               case GreaterOrEqual(t) => n.value < t
               case LessThan(t) => n.value < t
               case Last => true
  }

  ghost predicate WriterStep(s: State, step: Step, s': State) {
    match step
    case BeginInsert(key, height, prev) =>
      && s.writer.Idle? && 1 <= height <= MAX_HEIGHT && height <= |prev| && |s.next| == MAX_HEIGHT
        && key !in Linked(s.next[0])
      && (forall l :: 0 <= l < height ==> LeftAt(s.next[l], prev[l], key))
      && s' == s.(writer := Linking(key, height, prev, 0, false))
    case SetOwnPointer =>
      && s.writer.Linking? && !s.writer.prepared
      && var w := s.writer;
      && w.level < w.height && w.level < |s.next| && w.level < |w.prev| && w.prev[w.level] in s.next[w.level]
      && s' == s.(next := s.next[w.level := Prepare(s.next[w.level], w.prev[w.level], w.key)],
        writer := w.(prepared := true))
    case LinkNode =>
      && s.writer.Linking? && s.writer.prepared
      && var w := s.writer;
      && w.level < |s.next| && w.level < |w.prev|
      && s' == s.(next := s.next[w.level := PublishAt(s.next[w.level], w.prev[w.level], w.key)],
                  writer :=
                    if w.level + 1 == w.height then Idle
                    else Linking(w.key, w.height, w.prev, w.level + 1, false))
    case _ => false
  }

  ghost predicate ReaderStep(s: State, step: Step, s': State) {
    match step
    case BeginSearch(search, height) =>
      // The height read may be stale or newer than the links.
      && 1 <= height <= MAX_HEIGHT
      && s' == s.(reader := Searching(search, Head, height - 1))
    case ReadPointer =>
      && s.reader.Searching?
      && var r := s.reader;
      && r.level < |s.next| && r.x in s.next[r.level]
      && var n := s.next[r.level][r.x];
      && s' == s.(reader := if MovesOn(r.search, n) then Searching(r.search, Node(n.value), r.level)
                            else if r.level > 0 then Searching(r.search, r.x, r.level - 1)
                            else Answered(r.search, r.x, n))
    case _ => false
  }

  ghost predicate Next(s: State, step: Step, s': State) {
    WriterStep(s, step, s') || ReaderStep(s, step, s')
  }

  /** Levels from `level` on still lack the key; at a prepared level only its own pointer is set. */
  ghost predicate WriterOk(next: seq<Links>, w: WriterState) {
    match w
    case Idle => forall l :: 0 <= l < |next| ==> Tidy(next[l])
    case Linking(key, height, prev, level, prepared) =>
      && level < height <= MAX_HEIGHT && height <= |prev|
      && (forall l :: 0 <= l < |next| && (l != level || !prepared) ==> Tidy(next[l]))
      && (forall l :: 0 <= l < level && l < |next| ==> key in Linked(next[l]))
      && (forall l :: level <= l < |next| ==> key !in Linked(next[l]))
      && (forall l :: level <= l < height && l < |next| ==> IsPrev(next[l], prev[l], key))
      && (prepared && level < |next| ==>
            Tidy(next[level] - {Node(key)}) && Node(key) in next[level]
              && next[level][Node(key)] == next[level][prev[level]])
  }

  ghost predicate ReaderOk(next: seq<Links>, r: Reader) {
    r.Searching? ==>
      && r.level < |next| && On(next[r.level], r.x)
      && (r.search.GreaterOrEqual? || r.search.LessThan? ==> Left(r.x, r.search.target))
  }

  ghost predicate Inv(s: State) {
    Layered(s.next) && WriterOk(s.next, s.writer) && ReaderOk(s.next, s.reader)
  }

  lemma BeginInsertKeepsInv(s: State, key: int, height: nat, prev: seq<Ptr>, s': State)
    requires Inv(s) && WriterStep(s, BeginInsert(key, height, prev), s')
    ensures Inv(s')
  {
    InsertStart(s.next, prev, key, height);
  }

  lemma SetOwnPointerKeepsInv(s: State, s': State)
    requires Inv(s) && WriterStep(s, SetOwnPointer, s')
    ensures Inv(s') && forall l :: 0 <= l < MAX_HEIGHT ==> Linked(s'.next[l]) == Linked(s.next[l])
  {
    var w := s.writer;
    assert Tidy(s.next[w.level]) && Node(w.key) !in s.next[w.level];
    PrepareIsInvisible(s.next[w.level], w.prev[w.level], w.key);
    SameLinkedStaysLayered(s.next, w.level, s'.next[w.level]);
    assert s'.next[w.level] - {Node(w.key)} == s.next[w.level];
  }

  lemma SameLinkedStaysLayered(next: seq<Links>, i: nat, l: Links)
    requires Layered(next) && i < |next| && Ordered(l) && Linked(l) == Linked(next[i])
    ensures Layered(next[i := l])
  {
    var next' := next[i := l];
    forall k | 0 <= k < |next'| - 1 ensures Linked(next'[k + 1]) <= Linked(next'[k]) {
      assert Linked(next[k + 1]) <= Linked(next[k]);
    }
  }

  lemma LinkNodeKeepsInv(s: State, s': State)
    requires Inv(s) && WriterStep(s, LinkNode, s')
    ensures Inv(s') && forall l :: 0 <= l < MAX_HEIGHT ==> Linked(s.next[l]) <= Linked(s'.next[l])
  {
    var w := s.writer;
    var links, l := s.next[w.level], s'.next[w.level];
    PublishLinks(links, w.prev[w.level], w.key);
    forall k | Node(k) in l ensures k in Linked(l) {
      assert k == w.key || Node(k) in links - {Node(w.key)};
      PreparedLinked(links, w.key);
    }
    forall k | 0 <= k < |s'.next| - 1 ensures Linked(s'.next[k + 1]) <= Linked(s'.next[k]) {
      assert Linked(s.next[k + 1]) <= Linked(s.next[k]);
    }
  }

  lemma PreparedLinked(links: Links, key: int)
    ensures Linked(links - {Node(key)}) <= Linked(links)
  {
  }

  lemma ReaderKeepsInv(s: State, step: Step, s': State)
    requires Inv(s) && ReaderStep(s, step, s')
    ensures Inv(s')
  {
    if step.BeginSearch? {
      assert Ordered(s.next[step.height - 1]);
    } else {
      var r := s.reader;
      var n := s.next[r.level][r.x];
      if MovesOn(r.search, n) {
        StepRight(s.next[r.level], r.x);
      } else if r.level > 0 {
        DropLevel(s.next, r.level, r.x);
      }
    }
  }

  lemma StepKeepsInv(s: State, step: Step, s': State)
    requires Inv(s) && Next(s, step, s')
    ensures Inv(s')
    ensures forall l :: 0 <= l < MAX_HEIGHT ==> Linked(s.next[l]) <= Linked(s'.next[l])
  {
    match step
    case BeginInsert(key, height, prev) => BeginInsertKeepsInv(s, key, height, prev, s');
    case SetOwnPointer => SetOwnPointerKeepsInv(s, s');
    case LinkNode => LinkNodeKeepsInv(s, s');
    case BeginSearch(search, height) => ReaderKeepsInv(s, step, s');
    case ReadPointer => ReaderKeepsInv(s, step, s');
  }

  // ---- Whole runs ----

  ghost predicate Init(s: State) {
    s.next == seq(MAX_HEIGHT, i => map[Head := None]) && s.writer.Idle? && s.reader.Away?
  }

  ghost predicate IsRun(run: seq<State>, steps: seq<Step>) {
    && |run| == |steps| + 1 && Init(run[0])
    && forall i :: 0 <= i < |steps| ==> Next(run[i], steps[i], run[i + 1])
  }

  lemma {:induction false} RunsKeepInv(run: seq<State>, steps: seq<Step>, i: nat)
    requires IsRun(run, steps) && i < |run|
    ensures Inv(run[i])
  {
    if i > 0 {
      RunsKeepInv(run, steps, i - 1);
      StepKeepsInv(run[i - 1], steps[i - 1], run[i]);
    } else {
      assert forall l :: 0 <= l < MAX_HEIGHT ==> Linked(run[0].next[l]) == {};
    }
  }

  /** Between any two pointer stores every level is a sorted list, and a sublist of the one below:
      walking a level from the head meets exactly its keys, in increasing order. */
  lemma LevelsAreSortedSublists(run: seq<State>, steps: seq<Step>, i: nat, l: nat) returns (chain: seq<int>)
    requires IsRun(run, steps) && i < |run| && l < MAX_HEIGHT
    ensures |run[i].next| == MAX_HEIGHT && IsChain(run[i].next[l], Head, chain)
    ensures forall a, b :: 0 <= a < b < |chain| ==> chain[a] < chain[b]
    ensures forall k :: k in chain <==> k in Linked(run[i].next[l])
    ensures l > 0 ==> Linked(run[i].next[l]) <= Linked(run[i].next[l - 1])
  {
    RunsKeepInv(run, steps, i);
    assert Ordered(run[i].next[l]);
    chain := ChainExists(run[i].next[l], Head);
    assert l > 0 ==> Linked(run[i].next[l - 1 + 1]) <= Linked(run[i].next[l - 1]);
  }

  /** Whatever stores were interleaved with a search, its answer is right for the set of keys as it
      stood at the search's last read. */
  lemma SearchesAreLinearizable(run: seq<State>, steps: seq<Step>, i: nat)
    requires IsRun(run, steps) && i < |steps| && steps[i].ReadPointer? && run[i + 1].reader.Answered?
    ensures |run[i].next| == MAX_HEIGHT
    ensures var keys, r := Linked(run[i].next[0]), run[i + 1].reader;
      match r.search
      case GreaterOrEqual(t) => IsLeastFrom(keys, t, r.next)
      case LessThan(t) => IsGreatestBelow(keys, t, r.x)
      case Last => IsGreatest(keys, r.x)
  {
    RunsKeepInv(run, steps, i);
    var s, r := run[i], run[i].reader;
    assert ReaderStep(s, steps[i], run[i + 1]);
    if r.search.Last? {
      LastNodeDecides(s.next[0], r.x);
    } else {
      LastReadDecides(s.next[0], r.x, r.search.target);
    }
  }

  /** Keys are never lost, so a search sees every key that was in the list when it began. */
  lemma {:induction false} KeysOnlyGrow(run: seq<State>, steps: seq<Step>, i: nat, j: nat)
    requires IsRun(run, steps) && i <= j < |run|
    ensures |run[i].next| == MAX_HEIGHT && |run[j].next| == MAX_HEIGHT
    ensures Linked(run[i].next[0]) <= Linked(run[j].next[0])
    decreases j - i
  {
    RunsKeepInv(run, steps, i);
    if i < j {
      KeysOnlyGrow(run, steps, i, j - 1);
      RunsKeepInv(run, steps, j - 1);
      StepKeepsInv(run[j - 1], steps[j - 1], run[j]);
    }
  }
}
