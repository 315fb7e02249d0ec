/** Which dofs get one number (distribute_dofs, get_dof_indices), said from the cells and elements of
    the mesh alone: dofs on the same node, or on the same edge, with as many equal dofs before them. */
module DofSharing {
  import opened Lists
  import opened MeshModel
  import opened Numbering
  import opened Exchange
  import opened DofSession
  import opened SequentialSession

  /** Earlier dofs of the element on the same n-face as dof i. */
  ghost function Earlier(fe: seq<Dof>, i: nat): (s: set<nat>)
    requires i < |fe|
  {
    set k: nat | k < i && fe[k] == fe[i]
  }

  /** Positions of a dof among the first n. */
  ghost function Positions(fe: seq<Dof>, n: nat, d: Dof): (s: set<nat>)
    requires n <= |fe|
  {
    set k: nat | k < n && fe[k] == d
  }

  lemma OneMorePosition(fe: seq<Dof>, n: nat, d: Dof)
    requires n < |fe|
    ensures n !in Positions(fe, n, d)
    ensures Positions(fe, n + 1, d) == if fe[n] == d then Positions(fe, n, d) + {n} else Positions(fe, n, d)
  {
  }

  lemma {:induction false} CountIsSize(fe: seq<Dof>, n: nat, d: Dof)
    requires n <= |fe|
    ensures DofCount(fe, n, d.dim, d.nface) == |Positions(fe, n, d)|
  {
    if n > 0 {
      CountIsSize(fe, n - 1, d);
      OneMorePosition(fe, n - 1, d);
    }
  }

  lemma OrdinalIsSize(fe: seq<Dof>, i: nat)
    requires i < |fe|
    ensures Ordinal(fe, i) == |Earlier(fe, i)|
  {
    CountIsSize(fe, i, fe[i]);
    assert Positions(fe, i, fe[i]) == Earlier(fe, i);
  }

  /** Dof i of cell c and dof j of cell d are one: the same dof of one cell, or equally placed dofs on a
      common node, or on a common edge. */
  ghost predicate SameDof(m: GoodMesh, c: nat, i: nat, d: nat, j: nat)
    requires c < |m.cells| && i < |m.fe[m.cells[c].dim]| && d < |m.cells| && j < |m.fe[m.cells[d].dim]|
  {
    var fe, ge, a, b := m.fe[m.cells[c].dim], m.fe[m.cells[d].dim], m.cells[c], m.cells[d];
    || (c == d && i == j)
    || (fe[i].dim == 0 && ge[j].dim == 0
        && fe[i].nface < |a.nodes| && ge[j].nface < |b.nodes| && a.nodes[fe[i].nface] == b.nodes[ge[j].nface]
        && |Earlier(fe, i)| == |Earlier(ge, j)|)
    || (fe[i].dim > 0 && ge[j].dim > 0 && fe[i].dim + 1 == a.dim && ge[j].dim + 1 == b.dim
        && fe[i].nface < |a.edges| && ge[j].nface < |b.edges| && a.edges[fe[i].nface] == b.edges[ge[j].nface]
        && |Earlier(fe, i)| == |Earlier(ge, j)|)
  }

  lemma SlotsAgree(m: GoodMesh, c: nat, i: nat, d: nat, j: nat)
    requires c < |m.cells| && i < |m.fe[m.cells[c].dim]| && d < |m.cells| && j < |m.fe[m.cells[d].dim]|
    ensures SlotOf(m, c, i) == SlotOf(m, d, j) <==> SameDof(m, c, i, d, j)
  {
    OrdinalIsSize(m.fe[m.cells[c].dim], i);
    OrdinalIsSize(m.fe[m.cells[d].dim], j);
    NodesBelow(m, c, i);
    NodesBelow(m, d, j);
  }

  /** Tree nodes come before edges in the numbering of faces. */
  lemma NodesBelow(m: GoodMesh, c: nat, i: nat)
    requires c < |m.cells| && i < |m.fe[m.cells[c].dim]|
    ensures var d, a := m.fe[m.cells[c].dim][i], m.cells[c];
      Shared(d, a.dim) ==> d.nface < |a.nodes| == |a.edges| && a.nodes[d.nface] < |m.nodeDim|
  {
    var a := m.cells[c];
    assert CellOk(m, a) && UniformElement(m.fe[a.dim], a.dim);
    var d := m.fe[a.dim][i];
    if Shared(d, a.dim) {
      assert a.nodes[d.nface] in a.nodes;
    }
  }

  /** Two dofs of any two cells have one global number exactly if they are one. */
  lemma SharedNumbers(m: GoodMesh, c: nat, i: nat, d: nat, j: nat)
    requires c < |m.cells| && i < |m.fe[m.cells[c].dim]| && d < |m.cells| && j < |m.fe[m.cells[d].dim]|
    ensures IsSlot(m, SlotOf(m, c, i)) && IsSlot(m, SlotOf(m, d, j))
    ensures Global(m, SlotOf(m, c, i)) == Global(m, SlotOf(m, d, j)) <==> SameDof(m, c, i, d, j)
  {
    assert IsSlot(m, SlotOf(m, c, i)) && IsSlot(m, SlotOf(m, d, j));
    SlotsAgree(m, c, i, d, j);
    if Global(m, SlotOf(m, c, i)) == Global(m, SlotOf(m, d, j)) {
      GlobalInjective(m, SlotOf(m, c, i), SlotOf(m, d, j));
    }
  }

  /** ... so it is for the lists that two processes read for any of their cells. */
  method SharedIndices(m: GoodMesh, r: nat, k: Rank, ghost p: Proc, l: nat, q: nat, h: Rank, ghost o: Proc, n: nat)
    returns (a: seq<int>, b: seq<int>)
    requires r < |m.own| && Stands(m, r, k, p) && HasAll(m, r, p) && l < |k.local|
    requires q < |m.own| && Stands(m, q, h, o) && HasAll(m, q, o) && n < |h.local|
    ensures k.local[l] < |m.cells| && h.local[n] < |m.cells|
    ensures |a| == |m.fe[m.cells[k.local[l]].dim]| && |b| == |m.fe[m.cells[h.local[n]].dim]|
    ensures forall i: nat, j: nat :: i < |a| && j < |b| ==>
      (a[i] == b[j] <==> SameDof(m, k.local[l], i, h.local[n], j))
  {
    a := CellIndices(m, r, k, p, l);
    b := CellIndices(m, q, h, o, n);
    forall i: nat, j: nat | i < |a| && j < |b|
      ensures a[i] == b[j] <==> SameDof(m, k.local[l], i, h.local[n], j)
    {
      SharedNumbers(m, k.local[l], i, h.local[n], j);
    }
  }

  /** ... and for the lists of the sequential tables. */
  lemma SharedEntries(m: GoodMesh, c: nat, i: nat, d: nat, j: nat)
    requires c < |m.cells| && i < |m.fe[m.cells[c].dim]| && d < |m.cells| && j < |m.fe[m.cells[d].dim]|
    ensures i < |CellGlobals(m, c)| == |m.fe[m.cells[c].dim]| && j < |CellGlobals(m, d)| == |m.fe[m.cells[d].dim]|
    ensures CellGlobals(m, c)[i] == CellGlobals(m, d)[j] <==> SameDof(m, c, i, d, j)
  {
    SharedNumbers(m, c, i, d, j);
  }

  /** The number of a dof lies in the range of the lowest process that has a cell with it. */
  lemma RangeOfLowest(m: GoodMesh, c: nat, i: nat) returns (r: nat, d: nat, j: nat)
    requires c < |m.cells| && i < |m.fe[m.cells[c].dim]|
    ensures IsSlot(m, SlotOf(m, c, i)) && r < |m.own|
    ensures Offset(m, r) <= Global(m, SlotOf(m, c, i)) < Offset(m, r + 1)
    ensures d < |m.cells| && j < |m.fe[m.cells[d].dim]| && m.proc[d] == r && SameDof(m, c, i, d, j)
    ensures forall e: nat, k: nat :: e < |m.cells| && k < |m.fe[m.cells[e].dim]| && SameDof(m, c, i, e, k) ==>
      r <= m.proc[e]
  {
    var s := SlotOf(m, c, i);
    assert IsSlot(m, s);
    r := Owner(m, s);
    GlobalInRange(m, s);
    d, j := c, i;
    if s.FaceSlot? {
      SlotInFace(m, c, i);
      d :| d < |m.cells| && HasFace(m, d, s.face) && m.proc[d] == r;
      j := SlotOnCell(m, d, s.face, s.k);
    }
    SlotsAgree(m, c, i, d, j);
    forall e: nat, k: nat | e < |m.cells| && k < |m.fe[m.cells[e].dim]| && SameDof(m, c, i, e, k)
      ensures r <= m.proc[e]
    {
      SlotsAgree(m, c, i, e, k);
      if s.FaceSlot? {
        SlotInFace(m, e, k);
      }
    }
  }

  // ---- the order of the numbers -----------------------------------------------------------

  /** Slot s is that of a dof of one of the first n own cells. */
  ghost predicate SeenBy(m: GoodMesh, r: nat, n: nat, s: Slot)
    requires r < |m.own| && n <= |m.own[r]|
  {
    exists l: nat, i: nat :: l < n && SeenIn(m, m.own[r][l], |CellDofs(m, m.own[r][l])|, i, s)
  }

  ghost predicate SeenIn(m: GoodMesh, c: nat, n: nat, i: nat, s: Slot)
    requires c < |m.cells| && n <= |CellDofs(m, c)|
  {
    i < n && SlotOf(m, c, i) == s
  }

  /** Visiting dofs of a cell adds only slots of that cell. */
  lemma {:induction false} AddedBySlots(m: GoodMesh, r: nat, slots: seq<Slot>, c: nat, n: nat, s: Slot)
    requires c < |m.cells| && n <= |CellDofs(m, c)| && s in VisitDofs(m, r, slots, c, n) && s !in slots
    ensures exists i: nat :: SeenIn(m, c, |CellDofs(m, c)|, i, s)
  {
    var before := VisitDofs(m, r, slots, c, n - 1);
    if s in before {
      AddedBySlots(m, r, slots, c, n - 1, s);
    } else {
      AddedBySlot(m, r, before, c, n - 1, s);
    }
  }

  lemma AddedBySlot(m: GoodMesh, r: nat, slots: seq<Slot>, c: nat, i: nat, s: Slot)
    requires c < |m.cells| && i < |CellDofs(m, c)| && s in VisitDof(m, r, slots, c, i) && s !in slots
    ensures exists j: nat :: SeenIn(m, c, |CellDofs(m, c)|, j, s)
  {
    var x := SlotOf(m, c, i);
    if x.CellSlot? {
      assert SeenIn(m, c, |CellDofs(m, c)|, i, s);
    } else {
      SlotInFace(m, c, i);
      assert s in FaceSlots(m, x.face);
      var j := SlotOnCell(m, c, x.face, s.k);
      assert SeenIn(m, c, |CellDofs(m, c)|, j, s);
    }
  }

  lemma {:induction false} VisitedOnly(m: GoodMesh, r: nat, n: nat, s: Slot)
    requires r < |m.own| && n <= |m.own[r]| && s in VisitCells(m, r, n)
    ensures SeenBy(m, r, n, s)
  {
    var c, before := m.own[r][n - 1], VisitCells(m, r, n - 1);
    if s in before {
      VisitedOnly(m, r, n - 1, s);
    } else {
      AddedBySlots(m, r, before, c, |CellDofs(m, c)|, s);
    }
  }

  lemma VisitsNext(m: GoodMesh, r: nat, n: nat, k: nat)
    requires r < |m.own| && n <= k < |m.own[r]| && VisitCells(m, r, n) <= VisitCells(m, r, k)
    ensures VisitCells(m, r, n) <= VisitCells(m, r, k + 1)
  {
    CellsKeepProgress(m, r, k);
    CellKeepsProgress(m, r, k);
  }

  lemma {:induction false} VisitsPrefix(m: GoodMesh, r: nat, n: nat, k: nat)
    requires r < |m.own| && n <= k <= |m.own[r]|
    ensures VisitCells(m, r, n) <= VisitCells(m, r, k)
    decreases k
  {
    if n < k {
      VisitsPrefix(m, r, n, k - 1);
      VisitsNext(m, r, n, k - 1);
    }
  }

  /** An entry of a prefix stands before one that is not in it. */
  lemma PrefixFirst(all: seq<Slot>, some: seq<Slot>, s: Slot, u: Slot)
    requires Distinct(all) && some <= all && s in some && u in all && u !in some
    ensures Pos(all, s) < Pos(all, u)
  {
    var p := Pos(some, s);
    assert all[p] == s;
    assert Pos(all, s) == p;
    assert forall q :: 0 <= q < |some| ==> all[q] in some;
  }

  /** No own cell up to the one at l has dof j of cell d. */
  ghost predicate NotUpTo(m: GoodMesh, r: nat, l: nat, d: nat, j: nat)
    requires r < |m.own| && l < |m.own[r]| && d < |m.cells| && j < |m.fe[m.cells[d].dim]|
  {
    forall k: nat, n: nat :: k <= l && n < |m.fe[m.cells[m.own[r][k]].dim]| ==> !SameDof(m, m.own[r][k], n, d, j)
  }

  lemma NotVisited(m: GoodMesh, r: nat, l: nat, d: nat, j: nat)
    requires r < |m.own| && l < |m.own[r]| && d < |m.cells| && j < |m.fe[m.cells[d].dim]|
    requires NotUpTo(m, r, l, d, j)
    ensures SlotOf(m, d, j) !in VisitCells(m, r, l + 1)
  {
    var u := SlotOf(m, d, j);
    if u in VisitCells(m, r, l + 1) {
      VisitedOnly(m, r, l + 1, u);
      var k: nat, n: nat :| k < l + 1 && SeenIn(m, m.own[r][k], |CellDofs(m, m.own[r][k])|, n, u);
      SlotsAgree(m, m.own[r][k], n, d, j);
    }
  }

  lemma LocalBefore(m: GoodMesh, r: nat, l: nat, i: nat, u: Slot)
    requires r < |m.own| && l < |m.own[r]| && i < |CellDofs(m, m.own[r][l])| && u in Local(m, r)
    requires OwnsSlot(m, r, SlotOf(m, m.own[r][l], i)) && u !in VisitCells(m, r, l + 1)
    ensures SlotOf(m, m.own[r][l], i) in Local(m, r)
    ensures Pos(Local(m, r), SlotOf(m, m.own[r][l], i)) < Pos(Local(m, r), u)
  {
    CellsKeepProgress(m, r, l + 1);
    VisitsPrefix(m, r, l + 1, |m.own[r]|);
    LocalIsOwned(m, r);
    assert Covered(m, r, VisitCells(m, r, l + 1), m.own[r][l], |CellDofs(m, m.own[r][l])|);
    PrefixFirst(Local(m, r), VisitCells(m, r, l + 1), SlotOf(m, m.own[r][l], i), u);
  }

  /** Numbers ascend by first own cell: a dof of the own cell at l has a lower number than any dof of
      the process that none of its own cells up to l has. */
  lemma FirstCellFirst(m: GoodMesh, r: nat, l: nat, i: nat, d: nat, j: nat)
    requires r < |m.own| && l < |m.own[r]| && i < |m.fe[m.cells[m.own[r][l]].dim]|
    requires d < |m.cells| && j < |m.fe[m.cells[d].dim]|
    requires OwnsSlot(m, r, SlotOf(m, m.own[r][l], i)) && OwnsSlot(m, r, SlotOf(m, d, j))
    requires NotUpTo(m, r, l, d, j)
    ensures IsSlot(m, SlotOf(m, m.own[r][l], i)) && IsSlot(m, SlotOf(m, d, j))
    ensures Global(m, SlotOf(m, m.own[r][l], i)) < Global(m, SlotOf(m, d, j))
  {
    var s, u := SlotOf(m, m.own[r][l], i), SlotOf(m, d, j);
    assert IsSlot(m, s) && IsSlot(m, u);
    LocalIsOwned(m, r);
    NotVisited(m, r, l, d, j);
    LocalBefore(m, r, l, i, u);
    OwnerUnique(m, r, s);
    OwnerUnique(m, r, u);
  }
}
