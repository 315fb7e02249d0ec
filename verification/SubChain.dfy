/** Where the sub-handler (SubDOFHandlerMultiDim) falls short: three cells in a row on three
    processes. Process 2 sees the second node on its ghost cell; process 0 numbers it and is no
    ghost neighbour of process 2, so process 2 keeps the parent's number for it. */
module SubChain {
  import opened Lists
  import opened MeshModel
  import opened Numbering
  import opened Partition
  import opened Handshake
  import opened Exchange
  import opened Distribute
  import opened SubHandler
  import opened SubDistribute
  import opened SubMesh
  import Sequential
  import SubExchange

  /** Three line cells in a row, one per process, with linear elements for two components. */
  function Chain(): Mesh {
    Mesh(
      [Cell(1, [0, 1], [0, 1]), Cell(1, [1, 2], [1, 2]), Cell(1, [2, 3], [2, 3])],
      [0, 1, 2], [[0], [1], [2]], [],
      [1, 1, 1, 1], [1, 1, 1, 1],
      [[], [Dof(0, 0), Dof(0, 1), Dof(0, 0), Dof(0, 1)]])
  }

  lemma ChainElement()
    ensures UniformElement(Chain().fe[1], 1) && UniformElement(Chain().fe[0], 0)
  {
    var fe := Chain().fe[1];
    assert DofCount(fe, 2, 0, 0) == 1 && DofCount(fe, 4, 0, 0) == 2;
    assert DofCount(fe, 2, 0, 1) == 1 && DofCount(fe, 4, 0, 1) == 2;
  }

  lemma ChainCells()
    ensures Partitioned(Chain())
    ensures forall c :: 0 <= c < 3 ==> CellOk(Chain(), Chain().cells[c])
  {
    var m := Chain();
    assert m.own[0] == [0] && m.own[1] == [1] && m.own[2] == [2];
  }

  lemma ChainAdjacency()
    ensures Adjacent(Chain(), 0, 0) && Adjacent(Chain(), 1, 1) && Adjacent(Chain(), 2, 2)
    ensures Adjacent(Chain(), 0, 1) && Adjacent(Chain(), 1, 0) && Adjacent(Chain(), 1, 2) && Adjacent(Chain(), 2, 1)
    ensures !Adjacent(Chain(), 0, 2) && !Adjacent(Chain(), 2, 0)
  {
    var m := Chain();
    assert m.cells[0].nodes == [0, 1] && m.cells[1].nodes == [1, 2] && m.cells[2].nodes == [2, 3];
    assert 1 in [0, 1] && 1 in [1, 2] && 2 in [1, 2] && 2 in [2, 3];
  }

  lemma ChainEdges(c: nat, d: nat, e: nat)
    requires c < 3 && d < 3 && e in Chain().cells[c].edges && e in Chain().cells[d].edges
    ensures Adjacent(Chain(), c, d)
  {
    ChainAdjacency();
    var m := Chain();
    assert m.cells[0].edges == [0, 1] && m.cells[1].edges == [1, 2] && m.cells[2].edges == [2, 3];
  }

  lemma ChainWellFormed()
    ensures WellFormed(Chain())
  {
    ChainElement();
    ChainCells();
    forall c: nat, d: nat, e: nat | c < 3 && d < 3 && e in Chain().cells[c].edges && e in Chain().cells[d].edges
      ensures Adjacent(Chain(), c, d)
    {
      ChainEdges(c, d, e);
    }
  }

  /** Process 2 of the chain sees node 1 on its ghost cell 1; process 0 owns that node and is not
      a ghost neighbour of process 2: such ghost dofs exist even in the simplest partition. */
  lemma ChainOwnerNotNeighbour()
    ensures WellFormed(Chain())
    ensures 1 in LocalCells(Chain(), 2) && HasFace(Chain(), 1, 1)
    ensures OwnsFace(Chain(), 0, 1) && 0 !in Neighbours(Chain())[2]
  {
    ChainWellFormed();
    ChainAdjacency();
    var m := Chain();
    assert m.proc[1] == 1 && m.proc[2] == 2;
    assert IsGhost(m, 2, 1);
    GhostsExact(m, 2);
    assert 1 in Ghosts(m, 2);
    ChainOwnership();
    ChainNotAsked();
  }

  lemma ChainOwnership()
    ensures HasFace(Chain(), 1, 1) && OwnsFace(Chain(), 0, 1)
  {
    var m := Chain();
    assert m.cells[0].nodes == [0, 1] && m.cells[1].nodes == [1, 2] && m.cells[0].nodes[1] == 1;
    assert HasFace(m, 0, 1) && m.proc[0] == 0;
  }

  lemma ChainNotAsked()
    ensures WellFormed(Chain()) && 0 !in Neighbours(Chain())[2]
  {
    ChainWellFormed();
    ChainEndsApart();
    NoGhostsNoNeighbour(Chain(), 2, 0);
  }

  lemma ChainEndsApart()
    ensures forall c: nat :: c < 3 && Chain().proc[c] == 0 ==> !IsGhost(Chain(), 2, c)
  {
    ChainAdjacency();
    var m := Chain();
    assert m.proc == [0, 1, 2] && m.couplings == [];
    assert !Coupled(m, 0, 2);
  }

  lemma NoGhostsNoNeighbour(m: GoodMesh, r: nat, q: nat)
    requires r < |m.own| && q < |m.own|
    requires forall c: nat :: c < |m.cells| && m.proc[c] == q ==> !IsGhost(m, r, c)
    ensures q !in Neighbours(m)[r]
  {
    if q in Neighbours(m)[r] {
      var c := NeighbourHasGhost(m, r, q);
    }
  }

  lemma NeighbourHasGhost(m: GoodMesh, r: nat, q: nat) returns (c: nat)
    requires r < |m.own| && q in Neighbours(m)[r]
    ensures IsGhost(m, r, c) && m.proc[c] == q
  {
    assert Neighbours(m)[r] == NeighboursBelow(m, r, |m.own|);
    c := Wanted(m, r, q)[0];
    assert c in Wanted(m, r, q);
  }

  // ---- the numbering of the chain ---------------------------------------------------------

  /** What matters about the chain. */
  ghost predicate ChainLike(m: GoodMesh) {
    && |m.cells| == 3 && m.own == [[0], [1], [2]] && m.proc == [0, 1, 2] && m.couplings == []
    && m.nodeDim == [1, 1, 1, 1] && m.fe == [[], [Dof(0, 0), Dof(0, 1), Dof(0, 0), Dof(0, 1)]]
    && (forall c :: 0 <= c < 3 ==> m.cells[c].dim == 1 && m.cells[c].nodes == [c, c + 1])
  }

  lemma ChainIsChain()
    ensures WellFormed(Chain()) && ChainLike(Chain())
  {
    ChainWellFormed();
    var m := Chain();
    assert m.cells[0].nodes == [0, 1] && m.cells[1].nodes == [1, 2] && m.cells[2].nodes == [2, 3];
  }

  /** Dof i of cell c is the (i / 2)-th dof of its node i % 2. */
  lemma ChainSlot(m: GoodMesh, c: nat, i: nat)
    requires ChainLike(m) && c < 3 && i < 4
    ensures |CellDofs(m, c)| == 4 && SlotOf(m, c, i) == FaceSlot(c + i % 2, i / 2)
  {
    var fe := m.fe[1];
    assert CellOk(m, m.cells[c]) && UniformElement(m.fe[m.cells[c].dim], m.cells[c].dim);
    assert m.cells[c].dim == 1 && CellDofs(m, c) == fe && m.cells[c].nodes == [c, c + 1];
    assert fe[i] == Dof(0, i % 2);
    assert DofCount(fe, 1, 0, 0) == 1 && DofCount(fe, 2, 0, 0) == 1 && DofCount(fe, 1, 0, 1) == 0;
    assert DofCount(fe, 2, 0, 1) == 1 && DofCount(fe, 3, 0, 1) == 1;
  }

  function ChainOwner(f: nat): nat {
    if f <= 1 then 0 else f - 1
  }

  lemma ChainHasFace(m: GoodMesh, c: nat, f: nat)
    requires ChainLike(m) && c < 3 && f < 4
    ensures HasFace(m, c, f) <==> f == c || f == c + 1
  {
    assert m.cells[c].nodes == [c, c + 1];
  }

  lemma ChainOwns(m: GoodMesh, r: nat, f: nat)
    requires ChainLike(m) && r < 3 && f < 4
    ensures OwnsFace(m, r, f) <==> r == ChainOwner(f)
  {
    forall c: nat | c < |m.cells|
      ensures HasFace(m, c, f) <==> f == c || f == c + 1
      ensures m.proc[c] == c
    {
      ChainHasFace(m, c, f);
    }
    assert HasFace(m, ChainOwner(f), f);
  }

  lemma ChainFaceSlots(m: GoodMesh, f: nat)
    requires ChainLike(m) && f < 4
    ensures f < NFaces(m) && FaceSlots(m, f) == NodeSlots(f)
  {
    var fe := m.fe[1];
    assert m.nodeDim[f] == 1 && DofCount(fe, 1, 0, 0) == 1 && DofCount(fe, 2, 0, 0) == 1;
    assert DofCount(fe, 3, 0, 0) == 2 && DofCount(fe, 4, 0, 0) == 2;
  }

  /** Both dofs of a node. */
  function NodeSlots(f: nat): seq<Slot> {
    [FaceSlot(f, 0), FaceSlot(f, 1)]
  }

  /** What the visit of slot s adds. */
  function ChainStep(r: nat, slots: seq<Slot>, s: Slot): seq<Slot>
    requires s.FaceSlot?
  {
    if ChainOwner(s.face) == r && s !in slots then slots + NodeSlots(s.face) else slots
  }

  lemma ChainVisit(m: GoodMesh, r: nat, c: nat, i: nat)
    requires ChainLike(m) && r < 3 && c < 3 && i < 4
    ensures |CellDofs(m, c)| == 4
    ensures VisitDofs(m, r, [], c, i + 1) == ChainStep(r, VisitDofs(m, r, [], c, i), FaceSlot(c + i % 2, i / 2))
  {
    ChainSlot(m, c, i);
    ChainOwns(m, r, c + i % 2);
    ChainFaceSlots(m, c + i % 2);
  }

  /** The slots numbered by the processes. */
  function ChainLocal(r: nat): seq<Slot> {
    if r == 0 then NodeSlots(0) + NodeSlots(1) else NodeSlots(r + 1)
  }

  /** The first two dofs of its cell bring process r its nodes, the others nothing. */
  lemma ChainVisits(m: GoodMesh, r: nat)
    requires ChainLike(m) && r < 3
    ensures |CellDofs(m, r)| == 4 && VisitDofs(m, r, [], r, 4) == ChainLocal(r)
  {
    ChainVisit(m, r, r, 0);
    ChainVisit(m, r, r, 1);
    ChainVisit(m, r, r, 2);
    ChainVisit(m, r, r, 3);
    ChainSteps(r);
  }

  lemma ChainSteps(r: nat)
    requires r < 3
    ensures var s := ChainStep(r, ChainStep(r, [], FaceSlot(r, 0)), FaceSlot(r + 1, 0));
      ChainStep(r, ChainStep(r, s, FaceSlot(r, 1)), FaceSlot(r + 1, 1)) == ChainLocal(r)
  {
    var s := ChainStep(r, ChainStep(r, [], FaceSlot(r, 0)), FaceSlot(r + 1, 0));
    assert s == ChainLocal(r);
    assert r == 0 ==> s[1] == FaceSlot(0, 1) && s[3] == FaceSlot(1, 1);
    assert r > 0 ==> s[1] == FaceSlot(r + 1, 1);
  }

  lemma ChainNumbers(m: GoodMesh, r: nat)
    requires ChainLike(m) && r < 3
    ensures Local(m, r) == ChainLocal(r)
  {
    ChainVisits(m, r);
    assert m.own[r] == [r] && VisitCells(m, r, 0) == [];
  }

  lemma ChainOffsets(m: GoodMesh)
    requires ChainLike(m)
    ensures Offset(m, 0) == 0 && Offset(m, 1) == 4 && Offset(m, 2) == 6
    ensures LocalSizes(m) == [4, 2, 2]
  {
    ChainSizes(m);
    ThreeStarts(LocalSizes(m));
  }

  lemma ChainSizes(m: GoodMesh)
    requires ChainLike(m)
    ensures LocalSizes(m) == [4, 2, 2]
  {
    forall r: nat | r < 3
      ensures |Local(m, r)| == if r == 0 then 4 else 2
    {
      ChainNumbers(m, r);
    }
    assert |m.own| == 3;
  }

  lemma ThreeStarts(sizes: seq<nat>)
    requires sizes == [4, 2, 2]
    ensures Start(sizes, 0) == 0 && Start(sizes, 1) == 4 && Start(sizes, 2) == 6
  {
  }

  /** Global numbers follow the nodes. */
  lemma ChainGlobal(m: GoodMesh, f: nat, k: nat)
    requires ChainLike(m) && f < 4 && k < 2
    ensures IsSlot(m, FaceSlot(f, k)) && Global(m, FaceSlot(f, k)) == 2 * f + k
  {
    var r := ChainOwner(f);
    ChainNumbers(m, r);
    ChainOffsets(m);
    var j := if r == 0 then 2 * f + k else k;
    assert ChainLocal(r)[j] == FaceSlot(f, k);
    GlobalOfLocal(m, r, j);
  }

  // ---- local cells ------------------------------------------------------------------------

  lemma ChainAdjacent(m: GoodMesh, c: nat, d: nat)
    requires ChainLike(m) && c < 3 && d < 3
    ensures Adjacent(m, c, d) <==> c <= d + 1 && d <= c + 1
  {
    assert m.cells[c].nodes == [c, c + 1] && m.cells[d].nodes == [d, d + 1];
    if c <= d + 1 && d <= c + 1 {
      var n := if c < d then d else c;
      assert n in m.cells[c].nodes && n in m.cells[d].nodes;
    }
  }

  lemma ChainTouches(m: GoodMesh, r: nat, c: nat)
    requires ChainLike(m) && r < 3 && c < 3
    ensures Touches(m, r, c) <==> c == r + 1 || c + 1 == r
  {
    TouchesIsAdjacent(m, r, c);
    ChainAdjacent(m, c, r);
    assert m.proc[r] == r && m.proc[c] == c;
    if Touches(m, r, c) {
      var d: nat :| d < |m.cells| && m.proc[d] == r && Adjacent(m, c, d);
      assert d == r;
    }
  }

  function ChainGhosts(r: nat): seq<nat> {
    if r == 1 then [0, 2] else [1]
  }

  lemma ChainGhostCells(m: GoodMesh, r: nat)
    requires ChainLike(m) && r < 3
    ensures Ghosts(m, r) == ChainGhosts(r) && LocalCells(m, r) == [r] + ChainGhosts(r)
  {
    ChainTouches(m, r, 0);
    ChainTouches(m, r, 1);
    ChainTouches(m, r, 2);
    assert NodeGhosts(m, r, 0) == [];
    assert NodeGhosts(m, r, 1) == if r == 1 then [0] else [];
    assert NodeGhosts(m, r, 2) == if r == 1 then [0] else [1];
    assert NodeGhosts(m, r, 3) == ChainGhosts(r);
    assert m.couplings == [] && |m.cells| == 3 && m.own[r] == [r];
  }

  // ---- the second component ---------------------------------------------------------------

  /** Two linear elements on each line cell. */
  function ChainParts(): seq<seq<seq<Dof>>> {
    [[[], []], [[Dof(0, 0), Dof(0, 1)], [Dof(0, 0), Dof(0, 1)]]]
  }

  lemma LinearUniform()
    ensures UniformElement([Dof(0, 0), Dof(0, 1)], 1)
  {
    var fe := [Dof(0, 0), Dof(0, 1)];
    assert DofCount(fe, 1, 0, 0) == 1 && DofCount(fe, 1, 0, 1) == 0;
    assert DofCount(fe, 2, 0, 0) == 1 && DofCount(fe, 2, 0, 1) == 1;
  }

  lemma FlattenTwo<T>(a: seq<T>, b: seq<T>)
    ensures Sequential.Flatten([a, b]) == a + b
  {
    assert [a, b][..1] == [a] && [a][..0] == [];
    assert Sequential.Flatten([a]) == [] + a == a;
  }

  lemma ChainPartsOk(m: GoodMesh)
    requires ChainLike(m)
    ensures ComponentOk(m, ChainParts(), 1)
  {
    LinearUniform();
    var p := ChainParts();
    FlattenTwo(p[0][0], p[0][1]);
    assert p[0] == [p[0][0], p[0][1]];
    assert Sequential.Flatten(p[0]) == [] == m.fe[0];
    FlattenTwo(p[1][0], p[1][1]);
    assert p[1] == [p[1][0], p[1][1]];
    assert Sequential.Flatten(p[1]) == p[1][0] + p[1][1] == m.fe[1];
    assert UniformElement(p[0][0], 0);
  }

  lemma ChainCompRow(m: GoodMesh, c: nat)
    requires ChainLike(m) && c < 3 && ComponentOk(m, ChainParts(), 1)
    ensures CompRow(m, ChainParts(), 1, c) == [FaceSlot(c, 1), FaceSlot(c + 1, 1)]
  {
    var lens := Sequential.Lengths(ChainParts()[1]);
    ChainSlot(m, c, 2);
    ChainSlot(m, c, 3);
    assert m.cells[c].dim == 1 && lens == [2, 2];
    assert Start(lens, 1) == 2 && Start(lens, 2) == 4;
    ComponentRange(m, ChainParts(), 1, c);
  }

  // ---- the numbers each process hands to the exchange -------------------------------------

  /** The state of the parent on the chain. */
  ghost predicate ChainReady(m: GoodMesh, s: System) {
    ChainLike(m) && Ready(m, s) && ComponentOk(m, ChainParts(), 1)
  }

  /** Where the second dof of node f stands. */
  ghost function At(slots: seq<Slot>, f: nat): nat
    requires FaceSlot(f, 1) in slots
  {
    Pos(slots, FaceSlot(f, 1))
  }

  lemma AfterPrefix<T>(a: seq<T>, s: seq<T>, p: nat)
    requires a <= s && p < |s| && s[p] !in a
    ensures p >= |a|
  {
  }

  lemma NotLocal(r: nat, f: nat)
    requires r < 3 && f < 4 && r != ChainOwner(f)
    ensures FaceSlot(f, 1) !in ChainLocal(r)
  {
  }

  /** A process finds the second dof of a node below its local size exactly if it owns the node. */
  lemma ChainPosition(slots: seq<Slot>, r: nat, f: nat)
    requires r < 3 && f < 4 && Distinct(slots) && ChainLocal(r) <= slots && FaceSlot(f, 1) in slots
    ensures if r == ChainOwner(f) then At(slots, f) == (if r == 0 then 2 * f + 1 else 1)
            else At(slots, f) >= |ChainLocal(r)|
  {
    var p, e := At(slots, f), FaceSlot(f, 1);
    if r == ChainOwner(f) {
      var j := if r == 0 then 2 * f + 1 else 1;
      assert ChainLocal(r)[j] == e && slots[j] == e;
      PosIs(slots, j);
    } else {
      NotLocal(r, f);
      AfterPrefix(ChainLocal(r), slots, p);
    }
  }

  /** ... and reads its global number there. */
  lemma ChainEntry(m: GoodMesh, t: Tables, r: nat, f: nat)
    requires ChainLike(m) && r < 3 && RankReady(m, r, t) && f < 4 && FaceSlot(f, 1) in t.slots
    ensures |t.l2g| == |t.slots| && t.l2g[At(t.slots, f)] == 2 * f + 1
  {
    ChainGlobal(m, f, 1);
    assert t.slots[At(t.slots, f)] == FaceSlot(f, 1);
  }

  lemma ChainEntries(m: GoodMesh, t: Tables, r: nat)
    requires ChainLike(m) && r < 3 && RankReady(m, r, t)
    ensures EntriesRight(t)
  {
    forall f: nat | f < 4 && FaceSlot(f, 1) in t.slots
      ensures t.l2g[At(t.slots, f)] == 2 * f + 1
    {
      ChainEntry(m, t, r, f);
    }
  }

  /** The number of the second dof of node f is 2 f + 1. */
  ghost predicate EntriesRight(t: Tables) {
    && |t.l2g| == |t.slots|
    && forall f: nat :: f < 4 && FaceSlot(f, 1) in t.slots ==> t.l2g[At(t.slots, f)] == 2 * f + 1
  }

  lemma ChainSlots(m: GoodMesh, t: Tables, r: nat)
    requires ChainLike(m) && r < 3 && RankReady(m, r, t)
    ensures Distinct(t.slots) && ChainLocal(r) <= t.slots
  {
    ChainNumbers(m, r);
  }

  /** The rows of the local cells of process r. */
  function RowsOfRank(r: nat): seq<seq<Slot>> {
    if r == 0 then [ChainRow(0), ChainRow(1)]
    else if r == 1 then [ChainRow(1), ChainRow(0), ChainRow(2)]
    else [ChainRow(2), ChainRow(1)]
  }

  lemma ChainRows(m: GoodMesh, s: System, r: nat)
    requires ChainReady(m, s) && r < 3
    ensures ParentOf(m, ChainParts(), 1, s).rows[r] == RowsOfRank(r)
  {
    ChainGhostCells(m, r);
    var rows := ParentOf(m, ChainParts(), 1, s).rows[r];
    forall l: nat | l < |rows|
      ensures |rows| == |RowsOfRank(r)| && rows[l] == RowsOfRank(r)[l]
    {
      ChainCompRow(m, LocalCells(m, r)[l]);
    }
  }

  function ChainRow(c: nat): seq<Slot> {
    [FaceSlot(c, 1), FaceSlot(c + 1, 1)]
  }

  /** Positions of the dofs of a cell. */
  lemma ChainVisitRow(slots: seq<Slot>, c: nat)
    requires FaceSlot(c, 1) in slots && FaceSlot(c + 1, 1) in slots
    ensures VisitRow(slots, ChainRow(c)) == [Pos(slots, FaceSlot(c, 1)), Pos(slots, FaceSlot(c + 1, 1))]
  {
  }

  lemma TwoRows(slots: seq<Slot>, rows: seq<seq<Slot>>)
    requires RowsIn(slots, rows) && |rows| >= 2
    ensures Visits(slots, rows, 2) == VisitRow(slots, rows[0]) + VisitRow(slots, rows[1])
  {
    assert Visits(slots, rows, 1) == VisitRow(slots, rows[0]);
  }

  /** The dofs visited by an end of the chain. */
  lemma EndVisits(slots: seq<Slot>, rows: seq<seq<Slot>>, c: nat, d: nat)
    requires rows == [ChainRow(c), ChainRow(d)] && RowsIn(slots, rows)
    ensures forall f :: f in [c, c + 1, d, d + 1] ==> FaceSlot(f, 1) in slots
    ensures Visits(slots, rows, 2) == [At(slots, c), At(slots, c + 1), At(slots, d), At(slots, d + 1)]
  {
    assert rows[0][0] in slots && rows[0][1] in slots && rows[1][0] in slots && rows[1][1] in slots;
    TwoRows(slots, rows);
    ChainVisitRow(slots, c);
    ChainVisitRow(slots, d);
  }

  lemma MiddleVisits(slots: seq<Slot>, rows: seq<seq<Slot>>)
    requires rows == [ChainRow(1), ChainRow(0), ChainRow(2)] && RowsIn(slots, rows)
    ensures forall f: nat :: f < 4 ==> FaceSlot(f, 1) in slots
    ensures Visits(slots, rows, 3)
      == [At(slots, 1), At(slots, 2), At(slots, 0), At(slots, 1), At(slots, 2), At(slots, 3)]
  {
    assert rows[0][0] in slots && rows[0][1] in slots && rows[1][0] in slots && rows[2][1] in slots;
    TwoRows(slots, rows);
    ChainVisitRow(slots, 1);
    ChainVisitRow(slots, 0);
    ChainVisitRow(slots, 2);
  }

  lemma FirstVisits(x: nat)
    requires x >= 4
    ensures OwnedFirst([1, 3, 3, x], 4, 4) == [1, 3]
  {
    var v := [1, 3, 3, x];
    assert OwnedFirst(v, 4, 1) == [1] && OwnedFirst(v, 4, 2) == [1, 3] && OwnedFirst(v, 4, 3) == [1, 3];
  }

  lemma SecondVisits(a: nat, y: nat, z: nat)
    requires a >= 2 && y >= 2 && z >= 2
    ensures OwnedFirst([a, 1, z, a, 1, y], 2, 6) == [1]
  {
    var v := [a, 1, z, a, 1, y];
    assert OwnedFirst(v, 2, 1) == [] && OwnedFirst(v, 2, 2) == [1] && OwnedFirst(v, 2, 3) == [1];
    assert OwnedFirst(v, 2, 4) == [1] && OwnedFirst(v, 2, 5) == [1];
  }

  lemma ThirdVisits(b: nat, c: nat)
    requires b >= 2 && c >= 2 && b != c
    ensures OwnedFirst([b, 1, c, b], 2, 4) == [1] && ParentIndices([b, 1, c, b], 2) == [1, b, c]
  {
    var v := [b, 1, c, b];
    assert OwnedFirst(v, 2, 1) == [] && OwnedFirst(v, 2, 2) == [1] && OwnedFirst(v, 2, 3) == [1];
    assert ThenGhosts(v, 2, 0) == [1] && ThenGhosts(v, 2, 1) == [1, b] && ThenGhosts(v, 2, 2) == [1, b];
    assert ThenGhosts(v, 2, 3) == [1, b, c];
  }

  /** Slots that fit process r of the chain. */
  ghost predicate RankSlots(slots: seq<Slot>, r: nat) {
    Distinct(slots) && ChainLocal(r) <= slots && RowsIn(slots, RowsOfRank(r))
  }

  /** Visits of process r, and the dofs among them that it owns. */
  ghost function RankVisits(slots: seq<Slot>, r: nat): seq<nat>
    requires RankSlots(slots, r)
  {
    Visits(slots, RowsOfRank(r), |RowsOfRank(r)|)
  }

  ghost function RankOwned(slots: seq<Slot>, r: nat): seq<nat>
    requires RankSlots(slots, r)
  {
    OwnedFirst(RankVisits(slots, r), |ChainLocal(r)|, |RankVisits(slots, r)|)
  }

  lemma FirstLists(slots: seq<Slot>)
    requires RankSlots(slots, 0)
    ensures FaceSlot(0, 1) in slots && FaceSlot(1, 1) in slots
    ensures RankOwned(slots, 0) == [At(slots, 0), At(slots, 1)]
  {
    EndVisits(slots, RowsOfRank(0), 0, 1);
    ChainPosition(slots, 0, 0);
    ChainPosition(slots, 0, 1);
    ChainPosition(slots, 0, 2);
    FirstVisits(At(slots, 2));
  }

  lemma SecondLists(slots: seq<Slot>)
    requires RankSlots(slots, 1)
    ensures FaceSlot(2, 1) in slots && RankOwned(slots, 1) == [At(slots, 2)]
  {
    MiddleVisits(slots, RowsOfRank(1));
    ChainPosition(slots, 1, 0);
    ChainPosition(slots, 1, 1);
    ChainPosition(slots, 1, 2);
    ChainPosition(slots, 1, 3);
    SecondVisits(At(slots, 1), At(slots, 3), At(slots, 0));
  }

  lemma ThirdLists(slots: seq<Slot>)
    requires RankSlots(slots, 2)
    ensures FaceSlot(1, 1) in slots && FaceSlot(2, 1) in slots && FaceSlot(3, 1) in slots
    ensures RankOwned(slots, 2) == [At(slots, 3)]
    ensures ParentIndices(RankVisits(slots, 2), |ChainLocal(2)|) == [At(slots, 3)] + [At(slots, 2), At(slots, 1)]
  {
    EndVisits(slots, RowsOfRank(2), 2, 1);
    ChainPosition(slots, 2, 1);
    ChainPosition(slots, 2, 2);
    ChainPosition(slots, 2, 3);
    ThirdVisits(At(slots, 2), At(slots, 1));
  }

  /** The parent's tables on process r of the chain. */
  ghost predicate ChainTables(P: Parent, r: nat)
    requires ParentOk(P) && r < |P.nbs|
  {
    && P.rows[r] == RowsOfRank(r) && RankSlots(P.tables[r].slots, r) && P.lsizes[r] == |ChainLocal(r)|
    && EntriesRight(P.tables[r])
  }

  ghost function ChainParent(m: GoodMesh, s: System): (P: Parent)
    requires ChainReady(m, s)
    ensures P == ParentOf(m, ChainParts(), 1, s) && ParentOk(P) && |P.nbs| == 3
    ensures SubLayoutOf(P) == MeshSubLayout(m, ChainParts(), 1, s)
  {
    ParentOfOk(m, ChainParts(), 1, s);
    ParentOf(m, ChainParts(), 1, s)
  }

  lemma ChainTablesOk(m: GoodMesh, s: System, r: nat)
    requires ChainReady(m, s) && r < 3
    ensures ChainTables(ChainParent(m, s), r)
  {
    var P, t := ChainParent(m, s), s[r].t;
    assert RankReady(m, r, t) && TablesOk(P, r);
    ChainSlots(m, t, r);
    ChainRows(m, s, r);
    ChainSizes(m);
    ChainEntries(m, t, r);
  }

  lemma OwnedNumbersAre(P: Parent, r: nat)
    requires ParentOk(P) && r < |P.nbs| && ChainTables(P, r)
    ensures var own := RankOwned(P.tables[r].slots, r);
      && |OwnedNumbers(P, r)| == |own|
      && forall i :: 0 <= i < |own| ==> own[i] < |P.tables[r].l2g| && OwnedNumbers(P, r)[i] == P.tables[r].l2g[own[i]]
  {
    var v := AllVisits(P, r);
    assert v == RankVisits(P.tables[r].slots, r);
    ListedInRange(v, P.lsizes[r], |P.tables[r].l2g|);
  }

  lemma GhostNumbersAre(P: Parent, r: nat, rest: seq<nat>)
    requires ParentOk(P) && r < |P.nbs| && ChainTables(P, r)
    requires var slots := P.tables[r].slots;
      ParentIndices(RankVisits(slots, r), |ChainLocal(r)|) == RankOwned(slots, r) + rest
    ensures |GhostNumbers(P, r)| == |rest|
    ensures forall i :: 0 <= i < |rest| ==>
      rest[i] < |P.tables[r].l2g| && GhostNumbers(P, r)[i] == P.tables[r].l2g[rest[i]]
  {
    var v, own := AllVisits(P, r), RankOwned(P.tables[r].slots, r);
    assert v == RankVisits(P.tables[r].slots, r);
    ListedInRange(v, P.lsizes[r], |P.tables[r].l2g|);
    assert (own + rest)[|own|..] == rest;
  }

  lemma FirstOwns(P: Parent)
    requires ParentOk(P) && |P.nbs| == 3 && ChainTables(P, 0)
    ensures OwnedNumbers(P, 0) == [1, 3]
  {
    OwnedNumbersAre(P, 0);
    FirstLists(P.tables[0].slots);
  }

  lemma SecondOwns(P: Parent)
    requires ParentOk(P) && |P.nbs| == 3 && ChainTables(P, 1)
    ensures OwnedNumbers(P, 1) == [5]
  {
    OwnedNumbersAre(P, 1);
    SecondLists(P.tables[1].slots);
  }

  lemma ThirdOwns(P: Parent)
    requires ParentOk(P) && |P.nbs| == 3 && ChainTables(P, 2)
    ensures OwnedNumbers(P, 2) == [7] && GhostNumbers(P, 2) == [5, 3]
  {
    var slots := P.tables[2].slots;
    OwnedNumbersAre(P, 2);
    ThirdLists(slots);
    GhostNumbersAre(P, 2, [At(slots, 2), At(slots, 1)]);
  }

  lemma ChainFirst(m: GoodMesh, s: System)
    requires ChainReady(m, s)
    ensures MeshSubLayout(m, ChainParts(), 1, s).owned[0] == [1, 3]
  {
    ChainTablesOk(m, s, 0);
    FirstOwns(ChainParent(m, s));
  }

  lemma ChainSecond(m: GoodMesh, s: System)
    requires ChainReady(m, s)
    ensures MeshSubLayout(m, ChainParts(), 1, s).owned[1] == [5]
  {
    ChainTablesOk(m, s, 1);
    SecondOwns(ChainParent(m, s));
  }

  lemma ChainThird(m: GoodMesh, s: System)
    requires ChainReady(m, s)
    ensures MeshSubLayout(m, ChainParts(), 1, s).owned[2] == [7]
    ensures MeshSubLayout(m, ChainParts(), 1, s).ghosts[2] == [5, 3]
  {
    ChainTablesOk(m, s, 2);
    ThirdOwns(ChainParent(m, s));
  }

  /** What the processes of the chain hand to the exchange. */
  ghost predicate ChainLists(L: SubExchange.SubLayout) {
    && |L.nbs| == 3 && |L.owned| == 3 && L.owned[0] == [1, 3] && L.owned[1] == [5] && L.owned[2] == [7]
    && |L.ghosts| == 3 && L.ghosts[2] == [5, 3]
  }

  lemma ChainNumbersOf(m: GoodMesh, s: System)
    requires ChainReady(m, s)
    ensures ChainLists(MeshSubLayout(m, ChainParts(), 1, s))
  {
    ChainFirst(m, s);
    ChainSecond(m, s);
    ChainThird(m, s);
  }

  /** The numbers of process 2 after the exchange of the sub-handler. */
  lemma ChainSubNumbers(L: SubExchange.SubLayout, run: seq<SubExchange.SubSystem>)
    requires SubExchange.SubOk(L) && ChainLists(L)
    requires 0 !in L.nbs[2] && SubExchange.IsRun(L, run) && SubExchange.Stuck(L, run[|run| - 1])
    ensures SubExchange.HasOwner(L, 3) && SubExchange.OwnerOf(L, 3) == 0 && SubExchange.SubNumber(L, 3) == 1
    ensures SubExchange.HasOwner(L, 7) && SubExchange.OwnerOf(L, 7) == 2 && SubExchange.SubNumber(L, 7) == 3
    ensures |run[|run| - 1]| == 3 && |run[|run| - 1][2].ghostNumbers| == 2 && run[|run| - 1][2].ghostNumbers[1] == 3
  {
    SubExchange.SubNumberOfOwned(L, 0, 1);
    SubExchange.SubNumberOfOwned(L, 2, 0);
    var sizes := SubExchange.OwnedSizes(L);
    assert Start(sizes, 1) == 2 && Start(sizes, 2) == 3;
    SubExchange.GhostNumberRight(L, run, 2, 1);
  }

  /** On the chain, after every complete run of the parent's exchange and of the sub-handler's,
      process 2 holds 3 for the second dof of node 1, whose sub-number is 1 and whose owner is no
      ghost neighbour. 3 is also its own sub-number of the second dof of node 3, so its
      local-to-global map holds one number for two dofs. */
  lemma ChainGhostNumberWrong(s: System, run: seq<SubExchange.SubSystem>)
    requires WellFormed(Chain()) && Ready(Chain(), s) && ComponentOk(Chain(), ChainParts(), 1)
    requires SubExchange.IsRun(MeshSubLayout(Chain(), ChainParts(), 1, s), run)
    requires SubExchange.Stuck(MeshSubLayout(Chain(), ChainParts(), 1, s), run[|run| - 1])
    ensures var m, L, last := Chain(), MeshSubLayout(Chain(), ChainParts(), 1, s), run[|run| - 1];
      && IsSlot(m, FaceSlot(1, 1)) && IsSlot(m, FaceSlot(3, 1))
      && L.ghosts[2] == [5, 3] && Global(m, FaceSlot(1, 1)) == 3
      && SubExchange.HasOwner(L, 3) && SubExchange.OwnerOf(L, 3) == 0 && 0 !in Neighbours(m)[2]
      && SubExchange.SubNumber(L, 3) == 1
      && L.owned[2] == [Global(m, FaceSlot(3, 1))] && SubExchange.HasOwner(L, L.owned[2][0])
      && |last| == 3 && |last[2].ghostNumbers| == 2
      && last[2].ghostNumbers[1] == 3 == SubExchange.SubNumber(L, L.owned[2][0])
  {
    ChainIsChain();
    ChainNotAsked();
    ChainNumbersOf(Chain(), s);
    ChainSubNumbers(MeshSubLayout(Chain(), ChainParts(), 1, s), run);
    ChainGlobal(Chain(), 1, 1);
    ChainGlobal(Chain(), 3, 1);
  }

  /** Such runs exist. */
  lemma ChainRun() returns (s: System, run: seq<SubExchange.SubSystem>)
    ensures WellFormed(Chain()) && Ready(Chain(), s) && ComponentOk(Chain(), ChainParts(), 1)
    ensures SubExchange.IsRun(MeshSubLayout(Chain(), ChainParts(), 1, s), run)
    ensures SubExchange.Stuck(MeshSubLayout(Chain(), ChainParts(), 1, s), run[|run| - 1])
  {
    ChainIsChain();
    ChainPartsOk(Chain());
    var parent := CompleteRunExists(Chain());
    CompleteReady(Chain(), parent);
    s := parent[|parent| - 1];
    run := SubRun(MeshSubLayout(Chain(), ChainParts(), 1, s));
  }

  lemma SubRun(L: SubExchange.SubLayout) returns (run: seq<SubExchange.SubSystem>)
    requires SubExchange.SubOk(L)
    ensures SubExchange.IsRun(L, run) && SubExchange.Stuck(L, run[|run| - 1])
  {
    run := SubExchange.SubCompleteFrom(
      L, [SubExchange.Init(L)], Work(L.nbs, SubExchange.SUB_MESSAGES, StartLine(L.nbs), |L.nbs|));
    SubExchange.SubRunsComplete(L, run);
  }
}
