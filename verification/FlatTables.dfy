/** Flat tables of dof indices: a row of slots per face or per cell, stored one row after the
    other, each entry holding the position of its slot in the list of numbered slots, or
    INVALID_DOF. The tables of the dof handler (`node_dofs`, `edge_dofs`, `dof_indices`) are of
    this kind. */
module FlatTables {
  import opened Lists
  import opened MeshModel

  ghost function Sizes(rows: seq<seq<Slot>>): (s: seq<nat>)
    ensures |s| == |rows| && forall l :: 0 <= l < |rows| ==> s[l] == |rows[l]|
  {
    seq(|rows|, l requires 0 <= l < |rows| => |rows[l]|)
  }

  /** Flat position of entry i of row l. */
  ghost function At(rows: seq<seq<Slot>>, l: nat, i: nat): nat
    requires l < |rows|
  {
    Start(Sizes(rows), l) + i
  }

  /** Position of a slot in the list, or INVALID_DOF. */
  ghost function Index(slots: seq<Slot>, s: Slot): int {
    if s in slots then Pos(slots, s) else INVALID_DOF
  }

  /** Entry i of row l holds the index of its slot. */
  ghost predicate Entry(rows: seq<seq<Slot>>, table: seq<int>, slots: seq<Slot>, l: nat, i: nat) {
    && l < |rows| && i < |rows[l]| && At(rows, l, i) < |table|
    && table[At(rows, l, i)] == Index(slots, rows[l][i])
  }

  ghost predicate AllEntries(rows: seq<seq<Slot>>, table: seq<int>, slots: seq<Slot>) {
    && |table| == Total(Sizes(rows))
    && forall l: nat, i: nat :: l < |rows| && i < |rows[l]| ==> Entry(rows, table, slots, l, i)
  }

  /** No slot stands at two places. */
  ghost predicate Unshared(rows: seq<seq<Slot>>) {
    forall l: nat, i: nat, k: nat, j: nat ::
      l < |rows| && i < |rows[l]| && k < |rows| && j < |rows[k]| && rows[l][i] == rows[k][j] ==> l == k && i == j
  }

  lemma AtInTable(rows: seq<seq<Slot>>, table: seq<int>, l: nat, i: nat)
    requires l < |rows| && i < |rows[l]| && |table| == Total(Sizes(rows))
    ensures At(rows, l, i) < |table|
  {
    BlockBounds(Sizes(rows), l, l + 1);
  }

  /** Setting one entry leaves the others alone. */
  lemma SetOther(rows: seq<seq<Slot>>, l: nat, i: nat, k: nat, j: nat)
    requires l < |rows| && i < |rows[l]| && k < |rows| && j < |rows[k]| && (l != k || i != j)
    ensures At(rows, l, i) != At(rows, k, j)
  {
    if At(rows, l, i) == At(rows, k, j) {
      BlocksDisjoint(Sizes(rows), l, i, k, j);
    }
  }

  lemma IndexAppend(slots: seq<Slot>, more: seq<Slot>, s: Slot)
    requires Distinct(slots + more) && s !in more
    ensures Index(slots + more, s) == Index(slots, s)
  {
    if s in slots {
      PosAppend(slots, more, s);
    }
  }

  lemma IndexLast(slots: seq<Slot>, s: Slot)
    requires Distinct(slots + [s])
    ensures Index(slots + [s], s) == |slots|
  {
    PosIs(slots + [s], |slots|);
  }

  /** Numbering a new slot and recording it at its place keeps a table of unshared rows exact. */
  lemma RecordNew(rows: seq<seq<Slot>>, table: seq<int>, slots: seq<Slot>, l: nat, i: nat)
    requires AllEntries(rows, table, slots) && Unshared(rows) && Distinct(slots)
    requires l < |rows| && i < |rows[l]| && rows[l][i] !in slots
    ensures At(rows, l, i) < |table|
    ensures Distinct(slots + [rows[l][i]])
    ensures AllEntries(rows, table[At(rows, l, i) := |slots|], slots + [rows[l][i]])
  {
    var s := rows[l][i];
    DistinctAppend(slots, [s]);
    AtInTable(rows, table, l, i);
    var table' := table[At(rows, l, i) := |slots|];
    forall k: nat, j: nat | k < |rows| && j < |rows[k]|
      ensures Entry(rows, table', slots + [s], k, j)
    {
      assert Entry(rows, table, slots, k, j);
      if k == l && j == i {
        IndexLast(slots, s);
      } else {
        SetOther(rows, l, i, k, j);
        IndexAppend(slots, [s], rows[k][j]);
      }
    }
  }

  /** Numbering a slot that occurs in no row changes nothing in the table. */
  lemma RecordForeign(rows: seq<seq<Slot>>, table: seq<int>, slots: seq<Slot>, s: Slot)
    requires AllEntries(rows, table, slots) && Distinct(slots) && s !in slots
    requires forall l: nat, i: nat :: l < |rows| && i < |rows[l]| ==> rows[l][i] != s
    ensures Distinct(slots + [s]) && AllEntries(rows, table, slots + [s])
  {
    DistinctAppend(slots, [s]);
    forall k: nat, j: nat | k < |rows| && j < |rows[k]|
      ensures Entry(rows, table, slots + [s], k, j)
    {
      assert Entry(rows, table, slots, k, j);
      IndexAppend(slots, [s], rows[k][j]);
    }
  }

  /** Row l has its first n entries right. */
  ghost predicate Filled(rows: seq<seq<Slot>>, table: seq<int>, slots: seq<Slot>, l: nat, n: nat) {
    l < |rows| && n <= |rows[l]| && forall i: nat :: i < n ==> Entry(rows, table, slots, l, i)
  }

  /** Setting the next entry of a row extends the row and keeps every other row. */
  lemma FillNext(rows: seq<seq<Slot>>, table: seq<int>, slots: seq<Slot>, l: nat, n: nat, v: int)
    requires |table| == Total(Sizes(rows))
    requires Filled(rows, table, slots, l, n) && n < |rows[l]| && v == Index(slots, rows[l][n])
    ensures At(rows, l, n) < |table|
    ensures Filled(rows, table[At(rows, l, n) := v], slots, l, n + 1)
  {
    AtInTable(rows, table, l, n);
    var table' := table[At(rows, l, n) := v];
    forall i: nat | i < n + 1
      ensures Entry(rows, table', slots, l, i)
    {
      if i < n {
        assert Entry(rows, table, slots, l, i);
        SetOther(rows, l, n, l, i);
      }
    }
  }

  lemma FillKeeps(rows: seq<seq<Slot>>, table: seq<int>, slots: seq<Slot>, l: nat, i: nat, v: int, k: nat, n: nat)
    requires |table| == Total(Sizes(rows)) && l < |rows| && i < |rows[l]|
    requires Filled(rows, table, slots, k, n) && k != l
    ensures At(rows, l, i) < |table| && Filled(rows, table[At(rows, l, i) := v], slots, k, n)
  {
    AtInTable(rows, table, l, i);
    var table' := table[At(rows, l, i) := v];
    forall j: nat | j < n
      ensures Entry(rows, table', slots, k, j)
    {
      assert Entry(rows, table, slots, k, j);
      SetOther(rows, l, i, k, j);
    }
  }

  /** Growing the slot list keeps a row unless it waits for one of the new slots. */
  lemma GrowKeeps(rows: seq<seq<Slot>>, table: seq<int>, slots: seq<Slot>, more: seq<Slot>, k: nat, n: nat)
    requires Filled(rows, table, slots, k, n) && Distinct(slots + more)
    requires forall j: nat :: j < n ==> rows[k][j] !in more
    ensures Filled(rows, table, slots + more, k, n)
  {
    forall j: nat | j < n
      ensures Entry(rows, table, slots + more, k, j)
    {
      assert Entry(rows, table, slots, k, j);
      IndexAppend(slots, more, rows[k][j]);
    }
  }
}
