/** create_sequential on all processes: from the tables that the exchange leaves, through the local
    starts and lists, the reduction and the gathering, to the dof numbers of every cell on every
    process. */
module SequentialSession {
  import opened Lists
  import opened MeshModel
  import opened Numbering
  import opened Exchange
  import opened Sequential
  import opened DofSession

  /** Global numbers of the dofs of a cell. */
  ghost function CellGlobals(m: GoodMesh, c: nat): (s: seq<int>)
    requires c < |m.cells|
    ensures |s| == |CellDofs(m, c)|
    ensures forall i: nat :: i < |s| ==> IsSlot(m, SlotOf(m, c, i)) && s[i] == Global(m, SlotOf(m, c, i))
  {
    assert forall i: nat :: i < |CellDofs(m, c)| ==> IsSlot(m, SlotOf(m, c, i));
    seq(|CellDofs(m, c)|, (i: nat) requires i < |CellDofs(m, c)|
      && IsSlot(m, SlotOf(m, c, i)) => Global(m, SlotOf(m, c, i)))
  }

  /** The lists of the own cells of process r. */
  ghost predicate OwnGlobals(m: GoodMesh, r: nat, lists: seq<seq<int>>)
    requires r < |m.own|
  {
    |lists| == |m.own[r]| && forall l :: 0 <= l < |lists| ==> lists[l] == CellGlobals(m, m.own[r][l])
  }

  /** All rows together are the cells, each once. */
  lemma RowsAreCells(m: GoodMesh)
    ensures |Flatten(m.own)| == |m.cells|
  {
    var rows := Flatten(m.own);
    FlattenLength(m.own);
    forall i, j | 0 <= i < j < |rows|
      ensures rows[i] != rows[j]
    {
      RowsDistinct(m, i, j);
    }
    forall c: nat
      ensures c in rows <==> c < |m.cells|
    {
      RowsHoldCells(m, c);
    }
    DistinctSize(rows, BelowSet(|m.cells|));
  }

  lemma RowAt(m: GoodMesh, i: nat) returns (r: nat, l: nat)
    requires i < |Flatten(m.own)|
    ensures r < |m.own| && l < |m.own[r]| && i == Start(Lengths(m.own), r) + l && Flatten(m.own)[i] == m.own[r][l]
  {
    FlattenLength(m.own);
    r, l := BlockOf(Lengths(m.own), |m.own|, i);
    RowsAlike(m.own, m.own, r, l);
  }

  lemma RowsDistinct(m: GoodMesh, i: nat, j: nat)
    requires i < j < |Flatten(m.own)|
    ensures Flatten(m.own)[i] != Flatten(m.own)[j]
  {
    var r, l := RowAt(m, i);
    var q, k := RowAt(m, j);
    assert m.proc[m.own[r][l]] == r && m.proc[m.own[q][k]] == q && Distinct(m.own[r]);
  }

  lemma RowsHoldCells(m: GoodMesh, c: nat)
    ensures c in Flatten(m.own) <==> c < |m.cells|
  {
    if c in Flatten(m.own) {
      var r, l := RowAt(m, Pos(Flatten(m.own), c));
    }
    if c < |m.cells| {
      assert c in m.own[m.proc[c]];
      RowsAlike(m.own, m.own, m.proc[c], Pos(m.own[m.proc[c]], c));
    }
  }

  /** The lists of all processes have the shape of the own cells. */
  lemma ListsAlike(m: GoodMesh, parts: seq<seq<seq<int>>>)
    requires |parts| == |m.own| && forall r :: 0 <= r < |parts| ==> OwnGlobals(m, r, parts[r])
    ensures Lengths(parts) == Lengths(m.own) && |Flatten(parts)| == |m.cells|
  {
    assert Lengths(parts) == Lengths(m.own);
    FlattenLength(parts);
    FlattenLength(m.own);
    RowsAreCells(m);
  }

  // ---- the loops over all processes -------------------------------------------------------

  method ReadRow(m: GoodMesh, r: nat, k: Rank, ghost p: Proc, l: nat) returns (row: seq<int>)
    requires r < |m.own| && Stands(m, r, k, p) && HasAll(m, r, p) && l < |m.own[r]|
    ensures row == CellGlobals(m, m.own[r][l])
  {
    assert k.local[l] == m.own[r][l];
    row := CellIndices(m, r, k, p, l);
  }

  /** The dof numbers of the own cells of a process, read from its tables. */
  method ReadOwn(m: GoodMesh, r: nat, k: Rank, ghost p: Proc) returns (lists: seq<seq<int>>)
    requires r < |m.own| && Stands(m, r, k, p) && HasAll(m, r, p)
    ensures OwnGlobals(m, r, lists)
  {
    lists := [];
    while |lists| < |m.own[r]|
      invariant FirstGlobals(m, r, lists)
    {
      var row := ReadRow(m, r, k, p, |lists|);
      OneMoreList(m, r, lists, row);
      lists := lists + [row];
    }
  }

  ghost predicate FirstGlobals(m: GoodMesh, r: nat, lists: seq<seq<int>>)
    requires r < |m.own|
  {
    |lists| <= |m.own[r]| && forall l :: 0 <= l < |lists| ==> lists[l] == CellGlobals(m, m.own[r][l])
  }

  lemma OneMoreList(m: GoodMesh, r: nat, lists: seq<seq<int>>, row: seq<int>)
    requires r < |m.own| && FirstGlobals(m, r, lists) && |lists| < |m.own[r]|
    requires row == CellGlobals(m, m.own[r][|lists|])
    ensures FirstGlobals(m, r, lists + [row])
  {
  }

  method ReadAll(m: GoodMesh, ranks: seq<Rank>, ghost s: System) returns (parts: seq<seq<seq<int>>>)
    requires AllStand(m, ranks, s) && EveryHasAll(m, s)
    ensures |parts| == |m.own| && forall r :: 0 <= r < |parts| ==> OwnGlobals(m, r, parts[r])
  {
    parts := [];
    while |parts| < |ranks|
      invariant FirstParts(m, parts)
    {
      var lists := ReadRank(m, ranks, s, |parts|);
      OneMorePart(m, parts, lists);
      parts := parts + [lists];
    }
  }

  method ReadRank(m: GoodMesh, ranks: seq<Rank>, ghost s: System, r: nat) returns (lists: seq<seq<int>>)
    requires AllStand(m, ranks, s) && EveryHasAll(m, s) && r < |m.own|
    ensures OwnGlobals(m, r, lists)
  {
    lists := ReadOwn(m, r, ranks[r], s[r]);
  }

  ghost predicate FirstParts(m: GoodMesh, parts: seq<seq<seq<int>>>) {
    |parts| <= |m.own| && forall r :: 0 <= r < |parts| ==> OwnGlobals(m, r, parts[r])
  }

  lemma OneMorePart(m: GoodMesh, parts: seq<seq<seq<int>>>, lists: seq<seq<int>>)
    requires FirstParts(m, parts) && |parts| < |m.own| && OwnGlobals(m, |parts|, lists)
    ensures FirstParts(m, parts + [lists])
  {
  }

  /** First row of process p: rows are numbered in rank order. */
  method FirstRow(parts: seq<seq<seq<int>>>, p: nat) returns (first: nat)
    requires p <= |parts|
    ensures first == Start(Lengths(parts), p)
  {
    first := 0;
    for q := 0 to p
      invariant first == Start(Lengths(parts), q)
    {
      first := first + |parts[q]|;
    }
  }

  /** The process writes the starts and numbers of its rows. */
  method LocalTables(n: nat, parts: seq<seq<seq<int>>>, p: nat) returns (starts: seq<nat>, flat: seq<int>)
    requires p < |parts| && n == |Flatten(parts)|
    ensures |starts| == n + 1 && IsStarts(starts, Padded(n, Start(Lengths(parts), p), parts[p]))
    ensures flat == Flatten(parts[p])
  {
    var first := FirstRow(parts, p);
    FlattenLength(parts);
    BlockBounds(Lengths(parts), p, p + 1);
    starts := LocalStarts(n, first, parts[p]);
    flat := LocalDofs(n, first, parts[p], starts);
  }

  /** Sums the starts over all processes and joins the flat lists. */
  method ReduceAndGather(n: nat, parts: seq<seq<seq<int>>>) returns (starts: seq<nat>, dofs: seq<int>)
    requires n == |Flatten(parts)|
    ensures |starts| == n + 1 && forall i: nat {:trigger starts[i]} :: i <= n ==>
      starts[i] == ReducedStart(n, parts, |parts|, i)
    ensures dofs == Gathered(parts)
  {
    starts, dofs := seq(n + 1, _ => 0), [];
    var p := 0;
    assert parts[..0] == [];
    while p < |parts|
      invariant p <= |parts| && |starts| == n + 1 && dofs == Gathered(parts[..p])
      invariant forall i: nat {:trigger starts[i]} :: i <= n ==> starts[i] == ReducedStart(n, parts, p, i)
    {
      var more, flat := LocalTables(n, parts, p);
      starts := AddStarts(n, parts, p, starts, more);
      assert parts[..p + 1][..p] == parts[..p];
      dofs := dofs + flat;
      p := p + 1;
    }
    assert parts[..p] == parts;
  }

  method AddStarts(n: nat, ghost parts: seq<seq<seq<int>>>, ghost p: nat, a: seq<nat>, b: seq<nat>)
    returns (c: seq<nat>)
    requires p < |parts| && |a| == |b| == n + 1 && IsStarts(b, Padded(n, Start(Lengths(parts), p), parts[p]))
    requires forall i: nat {:trigger a[i]} :: i <= n ==> a[i] == ReducedStart(n, parts, p, i)
    ensures |c| == n + 1 && forall i: nat {:trigger c[i]} :: i <= n ==> c[i] == ReducedStart(n, parts, p + 1, i)
  {
    c := seq(n + 1, i requires 0 <= i <= n && |a| == |b| == n + 1 => a[i] + b[i]);
  }

  /** create_sequential after distribute_dofs: the sequential tables give, for every cell of the mesh,
      the global numbers of its dofs. */
  method CreateSequential(m: GoodMesh, ranks: seq<Rank>, ghost s: System) returns (starts: seq<nat>, dofs: seq<int>)
    requires AllStand(m, ranks, s) && EveryHasAll(m, s)
    ensures |starts| == |m.cells| + 1
    ensures forall c: nat :: c < |m.cells| ==> ReadsRow(m, starts, dofs, c)
  {
    var parts := ReadAll(m, ranks, s);
    ListsAlike(m, parts);
    starts, dofs := ReduceAndGather(|m.cells|, parts);
    forall c: nat | c < |m.cells|
      ensures ReadsRow(m, starts, dofs, c)
    {
      RowIsGlobals(m, parts, starts, dofs, c);
    }
  }

  /** The entries of the row of cell c are the global numbers of its dofs. */
  ghost predicate ReadsRow(m: GoodMesh, starts: seq<nat>, dofs: seq<int>, c: nat)
    requires c < |m.cells|
  {
    var row := RowOf(m, c);
    && row + 1 < |starts| && starts[row] <= starts[row + 1] <= |dofs|
    && dofs[starts[row]..starts[row + 1]] == CellGlobals(m, c)
  }

  lemma RowIsGlobals(m: GoodMesh, parts: seq<seq<seq<int>>>, starts: seq<nat>, dofs: seq<int>, c: nat)
    requires c < |m.cells| && |parts| == |m.own| && forall r :: 0 <= r < |parts| ==> OwnGlobals(m, r, parts[r])
    requires Lengths(parts) == Lengths(m.own) && |Flatten(parts)| == |m.cells| && |starts| == |m.cells| + 1
    requires forall i: nat {:trigger starts[i]} :: i <= |m.cells| ==>
      starts[i] == ReducedStart(|m.cells|, parts, |parts|, i)
    requires dofs == Gathered(parts)
    ensures ReadsRow(m, starts, dofs, c)
  {
    assert c in m.own[m.proc[c]];
    var l := Pos(m.own[m.proc[c]], c);
    EntryReadsBack(parts, m.own, m.proc[c], l);
    assert OwnGlobals(m, m.proc[c], parts[m.proc[c]]);
    var row := RowOf(m, c);
    assert starts[row] == ReducedStart(|m.cells|, parts, |parts|, row);
    assert starts[row + 1] == ReducedStart(|m.cells|, parts, |parts|, row + 1);
  }
}
