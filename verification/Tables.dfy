/** Table files as rows: why one block, found through the index, answers for all rows. */
module Tables {
  import opened Coding
  import opened Separators
  import opened Flattening

  datatype Row = Row(key: Key, value: Bytes)
  datatype IndexEntry = IndexEntry(key: Key, offset: nat)

  /** `blocks[i]` is the block that the `i`-th index entry points to; `accepts` is the filter
      reader, asked with a block offset and a user key. */
  datatype Table = Table(index: seq<IndexEntry>, blocks: seq<seq<Row>>, accepts: (nat, Bytes) -> bool)

  ghost function Rows(t: Table): (r: seq<Row>) {
    Flatten(t.blocks)
  }

  ghost predicate SortedRows(rows: seq<Row>) {
    forall g, h :: 0 <= g < h < |rows| ==> Before(rows[g].key, rows[h].key)
  }

  /** What the table builder promises of index entry `i`. */
  ghost predicate SeparatorOk(t: Table, i: nat)
    requires i < |t.blocks| == |t.index| && (forall j :: 0 <= j < |t.blocks| ==> t.blocks[j] != [])
  {
    var last := t.blocks[i][|t.blocks[i]| - 1].key;
    if i + 1 < |t.blocks| then Separates(last, t.index[i].key, t.blocks[i + 1][0].key)
    else t.index[i].key == last || LexLess(last.user, t.index[i].key.user)
  }

  ghost predicate WellBuilt(t: Table) {
    && |t.index| == |t.blocks| && (forall j :: 0 <= j < |t.blocks| ==> t.blocks[j] != [])
    && SortedRows(Rows(t))
    && (forall i {:trigger SeparatorOk(t, i)} :: 0 <= i < |t.blocks| ==> SeparatorOk(t, i))
  }

  /** The filter accepts the user key of every row at the offset of the row's block. */
  ghost predicate FilterAccepts(t: Table) {
    |t.index| == |t.blocks|
    && forall i, p ::
      0 <= i < |t.blocks| && 0 <= p < |t.blocks[i]| ==> t.accepts(t.index[i].offset, t.blocks[i][p].key.user)
  }

  /** Row `g` is the first one not before `k`. */
  ghost predicate IsFirstFrom(rows: seq<Row>, k: Key, g: nat) {
    && g < |rows| && !Before(rows[g].key, k)
    && forall h :: 0 <= h < g ==> Before(rows[h].key, k)
  }

  /** Where seeking the index lands. */
  ghost predicate IndexAt(t: Table, k: Key, i: nat) {
    && i <= |t.index| && (forall j :: 0 <= j < i ==> Before(t.index[j].key, k))
    && (i < |t.index| ==> !Before(t.index[i].key, k))
  }

  ghost predicate RowAt(rows: seq<Row>, k: Key, p: nat) {
    && p <= |rows| && (forall j :: 0 <= j < p ==> Before(rows[j].key, k))
    && (p < |rows| ==> !Before(rows[p].key, k))
  }

  // ---- Where rows lie with respect to the index ----

  lemma RowsInBlockOrder(t: Table, i: nat, p: nat, j: nat, q: nat)
    requires WellBuilt(t) && i < |t.blocks| && p < |t.blocks[i]| && j < |t.blocks| && q < |t.blocks[j]|
    requires i < j || (i == j && p < q)
    ensures Before(t.blocks[i][p].key, t.blocks[j][q].key) && Offset(t.blocks, i) + p < Offset(t.blocks, j) + q
  {
    EntryAt(t.blocks, i, p);
    EntryAt(t.blocks, j, q);
    if i < j {
      NextOffset(t.blocks, i);
      OffsetsIncrease(t.blocks, i + 1, j);
    }
  }

  lemma LastIsGreatest(t: Table, i: nat, p: nat)
    requires WellBuilt(t) && i < |t.blocks| && p < |t.blocks[i]|
    ensures AtMost(t.blocks[i][p].key, t.blocks[i][|t.blocks[i]| - 1].key)
  {
    var last := |t.blocks[i]| - 1;
    if p < last {
      RowsInBlockOrder(t, i, p, i, last);
    }
  }

  /** The rows of a block are at most its index key. */
  lemma IndexKeyBounds(t: Table, i: nat, p: nat)
    requires WellBuilt(t) && i < |t.blocks| && p < |t.blocks[i]|
    ensures AtMost(t.blocks[i][p].key, t.index[i].key)
  {
    var last := t.blocks[i][|t.blocks[i]| - 1].key;
    assert SeparatorOk(t, i);
    LastIsGreatest(t, i, p);
    BeforeTransitive(t.blocks[i][p].key, last, t.index[i].key);
  }

  /** A row of a block that the index seek passes over is before `k`. */
  lemma PassedOver(t: Table, k: Key, i: nat, p: nat)
    requires WellBuilt(t) && i < |t.blocks| && p < |t.blocks[i]| && Before(t.index[i].key, k)
    ensures Before(t.blocks[i][p].key, k)
  {
    IndexKeyBounds(t, i, p);
    BeforeTransitive(t.blocks[i][p].key, t.index[i].key, k);
  }

  lemma FirstOfBlockIsLeast(t: Table, i: nat, j: nat, q: nat)
    requires WellBuilt(t) && i <= j < |t.blocks| && q < |t.blocks[j]|
    ensures AtMost(t.blocks[i][0].key, t.blocks[j][q].key)
  {
    if i < j || q > 0 {
      RowsInBlockOrder(t, i, 0, j, q);
    }
  }

  /** If the picked block has nothing from `k` on, no later row has the user key of `k`. */
  lemma LaterRowsDiffer(t: Table, k: Key, i: nat, j: nat, q: nat)
    requires WellBuilt(t) && i < j < |t.blocks| && q < |t.blocks[j]|
    requires !Before(t.index[i].key, k) && Before(t.blocks[i][|t.blocks[i]| - 1].key, k)
    ensures t.blocks[j][q].key.user != k.user
  {
    var last, sep, e := t.blocks[i][|t.blocks[i]| - 1].key, t.index[i].key, t.blocks[j][q].key;
    assert SeparatorOk(t, i);
    FirstOfBlockIsLeast(t, i + 1, j, q);
    BeforeTotal(sep, k);
    UserStaysBelow(k, sep, t.blocks[i + 1][0].key, e);
  }

  lemma UserStaysBelow(k: Key, sep: Key, limit: Key, e: Key)
    requires AtMost(k, sep) && LexLess(sep.user, limit.user) && AtMost(limit, e)
    ensures e.user != k.user
  {
    if LexLess(k.user, sep.user) {
      LexTransitive(k.user, sep.user, limit.user);
    }
    if LexLess(limit.user, e.user) {
      LexTransitive(k.user, limit.user, e.user);
    }
    LexIrreflexive(k.user);
  }

  // ---- What the index and the picked block say ----

  lemma FoundIsFirst(t: Table, k: Key, i: nat, p: nat)
    requires WellBuilt(t) && i < |t.index| && IndexAt(t, k, i) && p < |t.blocks[i]| && RowAt(t.blocks[i], k, p)
    ensures IsFirstFrom(Rows(t), k, Offset(t.blocks, i) + p) && Rows(t)[Offset(t.blocks, i) + p] == t.blocks[i][p]
  {
    var g := Offset(t.blocks, i) + p;
    EntryAt(t.blocks, i, p);
    forall h | 0 <= h < g ensures Before(Rows(t)[h].key, k) {
      var j, q := Locate(t.blocks, h);
      EntryAt(t.blocks, j, q);
      EarlierRow(t, i, p, j, q);
      if j < i {
          PassedOver(t, k, j, q);
      }
    }
  }

  lemma EarlierRow(t: Table, i: nat, p: nat, j: nat, q: nat)
    requires WellBuilt(t) && i < |t.blocks| && p < |t.blocks[i]| && j < |t.blocks| && q < |t.blocks[j]|
    requires Offset(t.blocks, j) + q < Offset(t.blocks, i) + p
    ensures j < i || (j == i && q < p)
  {
    if i < j {
      RowsInBlockOrder(t, i, p, j, q);
    }
  }

  lemma NotInEarlierBlock(t: Table, k: Key, i: nat, j: nat, q: nat)
    requires WellBuilt(t) && IndexAt(t, k, i) && j < |t.blocks| && q < |t.blocks[j]|
    ensures j < i ==> Before(t.blocks[j][q].key, k)
  {
    if j < i {
      PassedOver(t, k, j, q);
    }
  }

  lemma NotInLaterBlock(t: Table, k: Key, i: nat, j: nat, q: nat)
    requires WellBuilt(t) && i < |t.index| && IndexAt(t, k, i) && j < |t.blocks| && q < |t.blocks[j]|
    requires IsFirstFrom(Rows(t), k, Offset(t.blocks, j) + q)
    ensures j > i ==> t.blocks[j][q].key.user != k.user
  {
    if j > i {
      var last := |t.blocks[i]| - 1;
      EntryAt(t.blocks, i, last);
      RowsInBlockOrder(t, i, last, j, q);
      LaterRowsDiffer(t, k, i, j, q);
    }
  }

  /** A first row with the user key of `k` is in the picked block. */
  lemma FirstIsInPickedBlock(t: Table, k: Key, i: nat, g: nat) returns (q: nat)
    requires WellBuilt(t) && i < |t.index| && IndexAt(t, k, i)
    requires IsFirstFrom(Rows(t), k, g) && Rows(t)[g].key.user == k.user
    ensures q < |t.blocks[i]| && g == Offset(t.blocks, i) + q && Rows(t)[g] == t.blocks[i][q]
  {
    var j;
    j, q := Locate(t.blocks, g);
    EntryAt(t.blocks, j, q);
    NotInEarlierBlock(t, k, i, j, q);
    NotInLaterBlock(t, k, i, j, q);
  }

  /** It passes the filter of that block. */
  lemma FirstIsAccepted(t: Table, k: Key, i: nat, g: nat)
    requires WellBuilt(t) && FilterAccepts(t) && i < |t.index| && IndexAt(t, k, i) && IsFirstFrom(Rows(t), k, g)
    ensures Rows(t)[g].key.user == k.user ==> t.accepts(t.index[i].offset, k.user)
  {
    if Rows(t)[g].key.user == k.user {
      var q := FirstIsInPickedBlock(t, k, i, g);
    }
  }

  /** It is the row that seeking the block finds. */
  lemma FirstIsFound(t: Table, k: Key, i: nat, p: nat, g: nat)
    requires WellBuilt(t) && i < |t.index| && IndexAt(t, k, i) && RowAt(t.blocks[i], k, p)
    requires IsFirstFrom(Rows(t), k, g) && Rows(t)[g].key.user == k.user
    ensures p < |t.blocks[i]| && Rows(t)[g] == t.blocks[i][p]
  {
    var q := FirstIsInPickedBlock(t, k, i, g);
    RowInBlock(t, k, i, p, q, g);
  }

  lemma RowInBlock(t: Table, k: Key, i: nat, p: nat, q: nat, g: nat)
    requires WellBuilt(t) && i < |t.blocks| && q < |t.blocks[i]| && g == Offset(t.blocks, i) + q
    requires RowAt(t.blocks[i], k, p)
    requires IsFirstFrom(Rows(t), k, g)
    ensures p == q
  {
    EntryAt(t.blocks, i, q);
    EntryAt(t.blocks, i, p);
  }

  lemma NothingFrom(t: Table, k: Key, g: nat)
    requires WellBuilt(t) && IndexAt(t, k, |t.index|) && g < |Rows(t)|
    ensures Before(Rows(t)[g].key, k)
  {
    var j, q := Locate(t.blocks, g);
    EntryAt(t.blocks, j, q);
    PassedOver(t, k, j, q);
  }
}
