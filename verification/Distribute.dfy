/** What distribute_dofs achieves on a mesh: the exchange, run on the layout of the mesh, always
    completes, and then all processes agree on one bijective global numbering of the slots. */
module Distribute {
  import opened Lists
  import opened MeshModel
  import opened Numbering
  import opened Partition
  import opened Handshake
  import opened Exchange

  ghost function AllSlots(m: GoodMesh): (all: set<Slot>)
    ensures forall s :: s in all <==> IsSlot(m, s)
  {
    set c: nat, i: nat | c < |m.cells| && i < |CellDofs(m, c)| :: SlotOf(m, c, i)
  }

  ghost function WantedTable(m: GoodMesh, r: nat): (w: seq<seq<nat>>)
    ensures |w| == |m.own| && forall q :: 0 <= q < |w| ==> w[q] == Wanted(m, r, q)
  {
    seq(|m.own|, (q: nat) requires q < |m.own| => Wanted(m, r, q))
  }

  /** The mesh as the exchange sees it. */
  ghost function LayoutOf(m: GoodMesh): (L: Layout)
    ensures L.proc == m.proc && L.nbs == Neighbours(m)
    ensures |L.cells| == |m.cells| && forall c :: 0 <= c < |m.cells| ==> L.cells[c] == CellSlots(m, c)
    ensures |L.wanted| == |m.own| && forall r :: 0 <= r < |m.own| ==> L.wanted[r] == WantedTable(m, r)
    ensures |L.owned| == |m.own| && forall r :: 0 <= r < |m.own| ==> L.owned[r] == Local(m, r)
    ensures forall s :: s in L.number <==> IsSlot(m, s)
    ensures forall s :: s in L.number ==> L.number[s] == Global(m, s)
  {
    Layout(
      seq(|m.cells|, (c: nat) requires c < |m.cells| => CellSlots(m, c)),
      m.proc,
      seq(|m.own|, (r: nat) requires r < |m.own| => WantedTable(m, r)),
      Neighbours(m),
      seq(|m.own|, (r: nat) requires r < |m.own| => Local(m, r)),
      map s | s in AllSlots(m) :: Global(m, s))
  }

  lemma WantedMakesNeighbour(m: GoodMesh, r: nat, q: nat)
    requires r < |m.own| && q < |m.own|
    ensures Wanted(m, r, q) != [] <==> q in Neighbours(m)[r]
  {
    assert Neighbours(m)[r] == NeighboursBelow(m, r, |m.own|);
  }

  lemma ShapeOfMesh(m: GoodMesh)
    ensures Shape(LayoutOf(m))
  {
    var L := LayoutOf(m);
    NeighboursFormNetwork(m);
    forall r: nat, q: nat | r < |m.own| && q < |m.own|
      ensures && Cells(L, L.wanted[r][q]) && Distinct(L.wanted[r][q])
              && (L.wanted[r][q] != [] ==> q in L.nbs[r])
              && forall j :: 0 <= j < |L.wanted[r][q]| ==> L.proc[L.wanted[r][q][j]] == q
    {
      WantedMakesNeighbour(m, r, q);
      assert L.wanted[r][q] == Wanted(m, r, q);
    }
  }

  lemma SlotsOfMesh(m: GoodMesh)
    ensures CellSlotsOk(LayoutOf(m)) && OwnedOk(LayoutOf(m))
  {
    var L := LayoutOf(m);
    forall c: nat, i: nat | c < |L.cells| && i < |L.cells[c]|
      ensures && L.cells[c][i] in L.number
              && (L.cells[c][i].CellSlot? ==> L.cells[c][i].cell == c && L.cells[c][i].i == i)
    {
      assert L.cells[c][i] == SlotOf(m, c, i);
      assert IsSlot(m, SlotOf(m, c, i));
    }
    forall r: nat | r < |L.owned|
      ensures Distinct(L.owned[r])
    {
      LocalIsOwned(m, r);
    }
    forall r: nat, j: nat | r < |L.owned| && j < |L.owned[r]|
      ensures var s := L.owned[r][j];
        s in L.number && (s.CellSlot? ==> s.cell < |L.proc| && L.proc[s.cell] == r)
    {
      GlobalOfLocal(m, r, j);
    }
  }

  /** A dof of an own cell that is numbered elsewhere lies on a ghost cell of a lower process. */
  lemma OwnDofResolvable(m: GoodMesh, c: nat, i: nat)
    requires c < |m.cells| && i < |CellDofs(m, c)|
    requires Shape(LayoutOf(m))
    ensures m.proc[c] < |m.own|
    ensures SlotOf(m, c, i) in Local(m, m.proc[c]) || FromBelow(LayoutOf(m), m.proc[c], SlotOf(m, c, i))
  {
    var r, s := m.proc[c], SlotOf(m, c, i);
    var q := SlotHasOwner(m, c, i);
    assert IsSlot(m, s);
    if q == r {
      LocalIsOwned(m, r);
    } else {
      var d, k := OwnersCell(m, c, i, q);
      var j := Pos(Wanted(m, r, q), d);
      var L := LayoutOf(m);
      assert L.wanted[r][q][j] == d && L.cells[d][k] == s && s in L.cells[d];
    }
  }

  /** The owner of a foreign dof of an own cell has a ghost cell with it. */
  lemma OwnersCell(m: GoodMesh, c: nat, i: nat, q: nat) returns (d: nat, k: nat)
    requires c < |m.cells| && i < |CellDofs(m, c)| && q != m.proc[c] && OwnsSlot(m, q, SlotOf(m, c, i))
    ensures d < |m.cells| && d in Wanted(m, m.proc[c], q)
    ensures k < |CellDofs(m, d)| && SlotOf(m, d, k) == SlotOf(m, c, i)
  {
    var s := SlotOf(m, c, i);
    SlotInFace(m, c, i);
    d :| d < |m.cells| && HasFace(m, d, s.face) && m.proc[d] == q;
    FaceMakesAdjacent(m, d, c, s.face);
    assert IsGhost(m, m.proc[c], d);
    k := SlotOnCell(m, d, s.face, s.k);
  }

  lemma LayoutOfMeshOk(m: GoodMesh)
    ensures LayoutOk(LayoutOf(m))
  {
    ShapeOfMesh(m);
    SlotsOfMesh(m);
    var L := LayoutOf(m);
    forall c: nat, i: nat | c < |L.cells| && i < |L.cells[c]| && L.proc[c] < |L.nbs|
      ensures L.cells[c][i] in L.owned[L.proc[c]] || FromBelow(L, L.proc[c], L.cells[c][i])
    {
      OwnDofResolvable(m, c, i);
      assert L.cells[c][i] == SlotOf(m, c, i);
    }
  }

  // ---- the results ------------------------------------------------------------------------

  /** A complete run of the exchange on mesh m. */
  ghost predicate CompleteRun(m: GoodMesh, run: seq<System>)
  {
    LayoutOfMeshOk(m);
    IsRun(LayoutOf(m), run) && Stuck(LayoutOf(m), run[|run| - 1])
  }

  /** Every mesh has a complete run. */
  lemma CompleteRunExists(m: GoodMesh) returns (run: seq<System>)
    ensures CompleteRun(m, run)
  {
    LayoutOfMeshOk(m);
    var L := LayoutOf(m);
    run := CompleteFrom(L, [Init(L)], Work(L.nbs, MESSAGES, StartLine(L.nbs), |L.nbs|));
    RunsComplete(L, run);
  }

  /** Every run on every mesh is bounded, and one that cannot go on has finished everywhere. */
  lemma ExchangeCompletes(m: GoodMesh, run: seq<System>)
    requires LayoutOk(LayoutOf(m)) && IsRun(LayoutOf(m), run)
    ensures 2 * (|run| - 1) <= Work(Neighbours(m), MESSAGES, StartLine(Neighbours(m)), |m.own|)
    ensures Stuck(LayoutOf(m), run[|run| - 1]) <==> AllFinished(LayoutOf(m), run[|run| - 1])
  {
    RunsComplete(LayoutOf(m), run);
  }

  /** After the exchange, process r has the global number of every dof of each own or ghost cell. */
  lemma NumbersAgree(m: GoodMesh, run: seq<System>, r: nat, c: nat, i: nat)
    requires CompleteRun(m, run) && r < |m.own| && c in LocalCells(m, r)
    requires c < |m.cells| && i < |CellDofs(m, c)|
    ensures |run[|run| - 1]| == |m.own| && IsSlot(m, SlotOf(m, c, i))
    ensures var t := run[|run| - 1][r].t;
      Resolved(t, CellSlots(m, c)) && CellNumbers(t, CellSlots(m, c))[i] == Global(m, SlotOf(m, c, i))
  {
    var L := LayoutOf(m);
    CompleteState(m, run);
    assert IsSlot(m, SlotOf(m, c, i));
    OwnOrWanted(m, r, c);
    FinishedIsComplete(L, run[|run| - 1], r, c);
    assert L.cells[c][i] == SlotOf(m, c, i);
  }

  lemma CompleteState(m: GoodMesh, run: seq<System>)
    requires CompleteRun(m, run)
    ensures LayoutOk(LayoutOf(m)) && Inv(LayoutOf(m), run[|run| - 1]) && AllFinished(LayoutOf(m), run[|run| - 1])
  {
    LayoutOfMeshOk(m);
    RunsComplete(LayoutOf(m), run);
    RunInv(LayoutOf(m), run, |run| - 1);
  }

  /** A local cell is an own cell or one that is asked for. */
  lemma OwnOrWanted(m: GoodMesh, r: nat, c: nat)
    requires r < |m.own| && c in LocalCells(m, r) && c < |m.cells|
    ensures m.proc[c] == r || (m.proc[c] < |m.own| && c in Wanted(m, r, m.proc[c]))
  {
    GhostsExact(m, r);
    LocalCellsDistinct(m, r);
  }

  /** Two processes that see the same slot, on whatever cells, hold the same number for it, and
      hold different numbers for different slots. */
  lemma ProcessesAgree(m: GoodMesh, run: seq<System>, r: nat, c: nat, i: nat, q: nat, d: nat, j: nat)
    requires CompleteRun(m, run)
    requires r < |m.own| && c in LocalCells(m, r) && c < |m.cells| && i < |CellDofs(m, c)|
    requires q < |m.own| && d in LocalCells(m, q) && d < |m.cells| && j < |CellDofs(m, d)|
    ensures |run[|run| - 1]| == |m.own|
    ensures Resolved(run[|run| - 1][r].t, CellSlots(m, c)) && Resolved(run[|run| - 1][q].t, CellSlots(m, d))
    ensures SlotOf(m, c, i) == SlotOf(m, d, j) <==>
      CellNumbers(run[|run| - 1][r].t, CellSlots(m, c))[i] == CellNumbers(run[|run| - 1][q].t, CellSlots(m, d))[j]
  {
    NumbersAgree(m, run, r, c, i);
    NumbersAgree(m, run, q, d, j);
    if Global(m, SlotOf(m, c, i)) == Global(m, SlotOf(m, d, j)) {
      GlobalInjective(m, SlotOf(m, c, i), SlotOf(m, d, j));
    }
  }

  /** A proper local-to-global map of process r: no number twice, the owned range first and in
      order, and nothing of that range later. */
  ghost predicate ProperMap(m: GoodMesh, r: nat, l2g: seq<int>)
    requires r < |m.own|
  {
    && Distinct(l2g)
    && |Local(m, r)| <= |l2g|
    && (forall j :: 0 <= j < |Local(m, r)| ==> l2g[j] == Offset(m, r) + j)
    && (forall j :: |Local(m, r)| <= j < |l2g| ==>
          0 <= l2g[j] < GlobalSize(m) && !(Offset(m, r) <= l2g[j] < Offset(m, r + 1)))
  }

  /** In every state of every run each process has a proper local-to-global map. */
  lemma LocalToGlobalMap(m: GoodMesh, run: seq<System>, k: nat, r: nat)
    requires LayoutOk(LayoutOf(m)) && IsRun(LayoutOf(m), run)
    requires k < |run| && r < |m.own|
    ensures |run[k]| == |m.own| && ProperMap(m, r, run[k][r].t.l2g)
  {
    RunInv(LayoutOf(m), run, k);
    assert ProcOk(LayoutOf(m), r, run[k][r]);
    TablesProper(m, r, run[k][r].t);
  }

  lemma TablesProper(m: GoodMesh, r: nat, t: Tables)
    requires Correct(LayoutOf(m), t) && r < |m.own| && Local(m, r) <= t.slots
    ensures ProperMap(m, r, t.l2g)
  {
    NoNumberTwice(m, t);
    forall j: nat | j < |t.l2g|
      ensures j < |Local(m, r)| ==> t.l2g[j] == Offset(m, r) + j
      ensures 0 <= t.l2g[j] < GlobalSize(m)
      ensures |Local(m, r)| <= j ==> !(Offset(m, r) <= t.l2g[j] < Offset(m, r + 1))
    {
      EntryAt(m, r, t, j);
    }
  }

  lemma NoNumberTwice(m: GoodMesh, t: Tables)
    requires Correct(LayoutOf(m), t)
    ensures Distinct(t.l2g)
  {
    forall i, j | 0 <= i < j < |t.l2g|
      ensures t.l2g[i] != t.l2g[j]
    {
      var x, y := t.slots[i], t.slots[j];
      assert x != y && IsSlot(m, x) && IsSlot(m, y);
      if Global(m, x) == Global(m, y) {
        GlobalInjective(m, x, y);
      }
    }
  }

  lemma EntryAt(m: GoodMesh, r: nat, t: Tables, j: nat)
    requires Correct(LayoutOf(m), t)
    requires r < |m.own| && Local(m, r) <= t.slots && j < |t.slots|
    ensures j < |Local(m, r)| ==> t.l2g[j] == Offset(m, r) + j
    ensures 0 <= t.l2g[j] < GlobalSize(m)
    ensures |Local(m, r)| <= j ==> !(Offset(m, r) <= t.l2g[j] < Offset(m, r + 1))
  {
    assert IsSlot(m, t.slots[j]) && t.l2g[j] == Global(m, t.slots[j]);
    if j < |Local(m, r)| {
      GlobalOfLocal(m, r, j);
      assert t.slots[j] == Local(m, r)[j];
    } else {
      EntryBeyond(m, r, t.slots, j);
    }
    GlobalInRange(m, t.slots[j]);
  }

  /** A slot listed after the owned ones is owned by another process. */
  lemma EntryBeyond(m: GoodMesh, r: nat, slots: seq<Slot>, j: nat)
    requires r < |m.own| && Distinct(slots) && Local(m, r) <= slots
    requires |Local(m, r)| <= j < |slots| && IsSlot(m, slots[j])
    ensures !(Offset(m, r) <= Global(m, slots[j]) < Offset(m, r + 1))
  {
    var s := slots[j];
    LocalIsOwned(m, r);
    assert s !in Local(m, r);
    var q := Owner(m, s);
    GlobalInRange(m, s);
    if q < r {
      BlockBounds(LocalSizes(m), q, r);
    } else {
      BlockBounds(LocalSizes(m), r, q);
    }
  }
}
