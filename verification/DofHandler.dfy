/** The loops of distribute_dofs on one process, over the cells of the mesh (src/fem/dofhandler.cc):
    numbering of own cells, the shift, answers to requests, and entering received numbers. The
    slot list behind the tables is that of modules Numbering and Exchange after every loop. */
module DofHandler {
  import opened Lists
  import opened MeshModel
  import opened Numbering
  import opened Partition
  import opened FlatTables
  import opened DofTables
  import opened Exchange

  ghost function FaceRows(m: GoodMesh): (rows: seq<seq<Slot>>)
    ensures |rows| == NFaces(m) && forall f :: 0 <= f < |rows| ==> rows[f] == FaceSlots(m, f)
  {
    seq(NFaces(m), (f: nat) requires f < NFaces(m) => FaceSlots(m, f))
  }

  ghost predicate InMesh(m: GoodMesh, cells: seq<nat>) {
    forall l :: 0 <= l < |cells| ==> cells[l] < |m.cells|
  }

  ghost function CellRows(m: GoodMesh, cells: seq<nat>): (rows: seq<seq<Slot>>)
    requires InMesh(m, cells)
    ensures |rows| == |cells| && forall l :: 0 <= l < |rows| ==> rows[l] == CellSlots(m, cells[l])
  {
    seq(|cells|, l requires 0 <= l < |cells| => CellSlots(m, cells[l]))
  }

  ghost function OwnedFaces(m: GoodMesh, r: nat): (s: set<nat>)
    ensures forall f: nat :: f in s <==> f < NFaces(m) && OwnsFace(m, r, f)
  {
    set f: nat | f < NFaces(m) && OwnsFace(m, r, f)
  }

  lemma RowsFit(m: GoodMesh, cells: seq<nat>)
    requires InMesh(m, cells)
    ensures Fit(FaceRows(m), CellRows(m, cells))
  {
    var rows: seq<seq<Slot>> := CellRows(m, cells);
    forall l: nat, i: nat | l < |rows| && i < |rows[l]| && rows[l][i].FaceSlot?
      ensures rows[l][i].face < NFaces(m) && rows[l][i].k < |FaceRows(m)[rows[l][i].face]|
    {
      SlotInFace(m, cells[l], i);
    }
  }

  // ---- face status ------------------------------------------------------------------------

  /** Set the status of all nodes of the listed cells. */
  method PaintNodes(m: GoodMesh, before: seq<int>, cells: seq<nat>, v: int) returns (st: seq<int>)
    requires |before| == NFaces(m) && forall c: nat :: c in cells ==> c < |m.cells|
    ensures |st| == NFaces(m)
    ensures forall f: nat :: f < NFaces(m) ==>
      st[f] == if f < |m.nodeDim| && SomeHas(m, cells, f) then v else before[f]
  {
    st := before;
    var l := 0;
    while l < |cells|
      invariant l <= |cells| && |st| == NFaces(m)
      invariant forall f: nat :: f < NFaces(m) ==>
        st[f] == if f < |m.nodeDim| && (exists j :: 0 <= j < l && cells[j] < |m.cells| && HasFace(m, cells[j], f))
                 then v else before[f]
    {
      assert cells[l] in cells;
      var nodes := m.cells[cells[l]].nodes;
      assert CellOk(m, m.cells[cells[l]]);
      ghost var mid := st;
      var n := 0;
      while n < |nodes|
        invariant n <= |nodes| && |st| == NFaces(m)
        invariant forall f: nat :: f < NFaces(m) ==> st[f] == if f in nodes[..n] then v else mid[f]
      {
        assert nodes[n] in nodes && nodes[..n + 1] == nodes[..n] + [nodes[n]];
        st := st[nodes[n] := v];
        n := n + 1;
      }
      assert nodes[..n] == nodes;
      l := l + 1;
    }
  }

  /** Set the status of all edges of the listed cells. */
  method PaintEdges(m: GoodMesh, before: seq<int>, cells: seq<nat>, v: int) returns (st: seq<int>)
    requires |before| == NFaces(m) && forall c: nat :: c in cells ==> c < |m.cells|
    ensures |st| == NFaces(m)
    ensures forall f: nat :: f < NFaces(m) ==>
      st[f] == if f >= |m.nodeDim| && SomeHas(m, cells, f) then v else before[f]
  {
    st := before;
    var l := 0;
    while l < |cells|
      invariant l <= |cells| && |st| == NFaces(m)
      invariant forall f: nat :: f < NFaces(m) ==>
        st[f] == if f >= |m.nodeDim| && (exists j :: 0 <= j < l && cells[j] < |m.cells| && HasFace(m, cells[j], f))
                 then v else before[f]
    {
      assert cells[l] in cells;
      var edges := m.cells[cells[l]].edges;
      assert CellOk(m, m.cells[cells[l]]);
      ghost var mid := st;
      var n := 0;
      while n < |edges|
        invariant n <= |edges| && |st| == NFaces(m)
        invariant forall f: nat :: f < NFaces(m) ==>
          st[f] == if f >= |m.nodeDim| && f - |m.nodeDim| in edges[..n] then v else mid[f]
      {
        assert edges[n] in edges && edges[..n + 1] == edges[..n] + [edges[n]];
        st := st[|m.nodeDim| + edges[n] := v];
        n := n + 1;
      }
      assert edges[..n] == edges;
      l := l + 1;
    }
  }

  ghost predicate SomeHas(m: GoodMesh, cells: seq<nat>, f: nat) {
    exists j :: 0 <= j < |cells| && cells[j] < |m.cells| && HasFace(m, cells[j], f)
  }

  /** A face is owned exactly if an own cell has it and no ghost cell of a lower process does. */
  lemma OwnershipByGhosts(m: GoodMesh, r: nat, own: seq<nat>, lower: seq<nat>, f: nat)
    requires r < |m.own| && own == m.own[r]
    requires forall c: nat :: c in lower <==> IsGhost(m, r, c) && m.proc[c] < r
    ensures OwnsFace(m, r, f) <==> SomeHas(m, own, f) && !SomeHas(m, lower, f)
  {
    if OwnsFace(m, r, f) {
      var c: nat :| c < |m.cells| && HasFace(m, c, f) && m.proc[c] == r;
      assert c in m.own[m.proc[c]];
    }
    if SomeHas(m, own, f) {
      var j :| 0 <= j < |own| && own[j] < |m.cells| && HasFace(m, own[j], f);
      assert m.proc[own[j]] == r;
      if d: nat :| d < |m.cells| && HasFace(m, d, f) && m.proc[d] < r {
        FaceMakesAdjacent(m, d, own[j], f);
        assert IsGhost(m, r, d) && d in lower;
      }
    }
    if SomeHas(m, lower, f) {
      var j :| 0 <= j < |lower| && lower[j] < |m.cells| && HasFace(m, lower[j], f);
      assert lower[j] in lower;
    }
  }

  /** Ghost cells that belong to lower processes. */
  method LowerGhosts(m: GoodMesh, r: nat, local: seq<nat>, nOwn: nat) returns (lower: seq<nat>)
    requires r < |m.own| && local == LocalCells(m, r) && nOwn == |m.own[r]|
    ensures forall c: nat :: c in lower <==> IsGhost(m, r, c) && m.proc[c] < r
  {
    GhostsExact(m, r);
    lower := [];
    var l := nOwn;
    while l < |local|
      invariant nOwn <= l <= |local|
      invariant forall c: nat :: c in lower <==> c in Ghosts(m, r)[..l - nOwn] && m.proc[c] < r
    {
      assert local[l] == Ghosts(m, r)[l - nOwn];
      assert Ghosts(m, r)[..l + 1 - nOwn] == Ghosts(m, r)[..l - nOwn] + [local[l]];
      if m.proc[local[l]] < r {
        lower := lower + [local[l]];
      }
      l := l + 1;
    }
    assert Ghosts(m, r)[..l - nOwn] == Ghosts(m, r);
  }

  /** Faces of own cells are valid, unless a ghost cell of a lower process has them. */
  method InitStatus(m: GoodMesh, r: nat, local: seq<nat>, nOwn: nat, edg4loc: seq<nat>) returns (st: seq<int>)
    requires r < |m.own| && local == LocalCells(m, r) && nOwn == |m.own[r]|
    requires forall e: nat :: e in edg4loc <==>
      e < |m.edgeDim| && exists c: nat :: c < |m.cells| && m.proc[c] == r && e in m.cells[c].edges
    ensures |st| == NFaces(m)
    ensures forall f: nat :: f < NFaces(m) ==>
      st[f] == if OwnsFace(m, r, f) then VALID_NFACE else INVALID_NFACE
  {
    var own := local[..nOwn];
    var lower := LowerGhosts(m, r, local, nOwn);
    st := seq(NFaces(m), _ => INVALID_NFACE);
    st := PaintNodes(m, st, own, VALID_NFACE);
    st := PaintNodes(m, st, lower, INVALID_NFACE);
    var i := 0;
    ghost var before := st;
    while i < |edg4loc|
      invariant i <= |edg4loc| && |st| == NFaces(m)
      invariant forall f: nat :: f < NFaces(m) ==>
        st[f] == if f >= |m.nodeDim| && f - |m.nodeDim| in edg4loc[..i] then VALID_NFACE else before[f]
    {
      assert edg4loc[i] in edg4loc;
      assert edg4loc[..i + 1] == edg4loc[..i] + [edg4loc[i]];
      st := st[|m.nodeDim| + edg4loc[i] := VALID_NFACE];
      i := i + 1;
    }
    assert edg4loc[..i] == edg4loc;
    st := PaintEdges(m, st, lower, INVALID_NFACE);
    forall f: nat | f < NFaces(m)
      ensures st[f] == if OwnsFace(m, r, f) then VALID_NFACE else INVALID_NFACE
    {
      OwnershipByGhosts(m, r, own, lower, f);
    }
  }

  // ---- counting dofs per n-face while going through a cell --------------------------------

  /** Counts of nodal and side dofs among the first i dofs of an element. */
  ghost predicate CountsOk(fe: seq<Dof>, dim: nat, i: nat, nodeCount: seq<nat>, sideCount: seq<nat>)
    requires i <= |fe|
  {
    && |nodeCount| == dim + 1 && |sideCount| == dim + 1
    && (forall x :: 0 <= x <= dim ==> nodeCount[x] == DofCount(fe, i, 0, x))
    && (dim >= 2 ==> forall x: nat :: x <= dim ==> sideCount[x] == SideCount(fe, i, dim, x))
  }

  function SideCount(fe: seq<Dof>, i: nat, dim: nat, x: nat): nat
    requires i <= |fe| && dim > 0
  {
    DofCount(fe, i, dim - 1, x)
  }

  method StartCounts(m: GoodMesh, c: nat) returns (nodeCount: seq<nat>, sideCount: seq<nat>)
    requires c < |m.cells|
    ensures CountsOk(CellDofs(m, c), m.cells[c].dim, 0, nodeCount, sideCount)
  {
    nodeCount, sideCount := seq(m.cells[c].dim + 1, _ => 0), seq(m.cells[c].dim + 1, _ => 0);
  }

  /** The slot of dof i of cell c, found by the running counts of the source. */
  method Locate(m: GoodMesh, c: nat, i: nat, nodeCount: seq<nat>, sideCount: seq<nat>)
    returns (shared: bool, f: nat, k: nat, nodeCount': seq<nat>, sideCount': seq<nat>)
    requires c < |m.cells| && i < |CellDofs(m, c)|
    requires CountsOk(CellDofs(m, c), m.cells[c].dim, i, nodeCount, sideCount)
    ensures SlotOf(m, c, i) == if shared then FaceSlot(f, k) else CellSlot(c, i)
    ensures var d, cell := m.fe[m.cells[c].dim][i], m.cells[c];
      && (shared <==> d.dim == 0 || d.dim + 1 == cell.dim)
      && (d.dim == 0 ==> d.nface < |cell.nodes| && f == cell.nodes[d.nface])
      && (shared && d.dim > 0 ==> d.nface < |cell.edges| && f == |m.nodeDim| + cell.edges[d.nface])
    ensures CountsOk(CellDofs(m, c), m.cells[c].dim, i + 1, nodeCount', sideCount')
  {
    var cell := m.cells[c];
    var d := CellDofs(m, c)[i];
    assert CellOk(m, cell) && UniformElement(CellDofs(m, c), cell.dim);
    nodeCount', sideCount' := nodeCount, sideCount;
    shared, f, k := false, 0, 0;
    if d.dim == 0 {
      f, k := cell.nodes[d.nface], nodeCount[d.nface];
      shared := true;
      nodeCount' := nodeCount[d.nface := nodeCount[d.nface] + 1];
    } else if d.dim + 1 == cell.dim {
      assert SideCount(CellDofs(m, c), i, cell.dim, d.nface) == Ordinal(CellDofs(m, c), i);
      f, k := |m.nodeDim| + cell.edges[d.nface], sideCount[d.nface];
      shared := true;
      sideCount' := sideCount[d.nface := sideCount[d.nface] + 1];
    }
  }

  // ---- numbering own cells ----------------------------------------------------------------

  lemma VisitMatches(m: GoodMesh, r: nat, slots: seq<Slot>, c: nat, i: nat)
    requires c < |m.cells| && i < |CellDofs(m, c)|
    ensures Visit(FaceRows(m), OwnedFaces(m, r), slots, SlotOf(m, c, i)) == VisitDof(m, r, slots, c, i)
  {
    if SlotOf(m, c, i).FaceSlot? {
      SlotInFace(m, c, i);
    }
  }

  /** The tables t are those of process r on mesh m. */
  ghost predicate TablesOf(m: GoodMesh, r: nat, local: seq<nat>, t: DofTables) {
    && r < |m.own| && InMesh(m, local) && local == LocalCells(m, r)
    && t.frows == FaceRows(m) && t.rows == CellRows(m, local) && t.owns == OwnedFaces(m, r)
    && t.nOwn == |m.own[r]|
  }

  /** Number of dofs of each local cell and of each face. */
  method TableSizes(m: GoodMesh, local: seq<nat>) returns (cellSizes: seq<nat>, faceSizes: seq<nat>)
    requires InMesh(m, local)
    ensures cellSizes == Sizes(CellRows(m, local)) && faceSizes == Sizes(FaceRows(m))
  {
    cellSizes := [];
    var l := 0;
    while l < |local|
      invariant l <= |local| && |cellSizes| == l
      invariant forall x :: 0 <= x < l ==> cellSizes[x] == |CellDofs(m, local[x])|
    {
      cellSizes := cellSizes + [|CellDofs(m, local[l])|];
      l := l + 1;
    }
    faceSizes := [];
    var f := 0;
    while f < NFaces(m)
      invariant f <= NFaces(m) && |faceSizes| == f
      invariant forall x :: 0 <= x < f ==> faceSizes[x] == FaceDofs(m, x)
    {
      faceSizes := faceSizes + [FaceDofs(m, f)];
      f := f + 1;
    }
  }

  /** Empty tables for process r: starts from prefix sums, status from own and ghost cells. */
  method BuildTables(m: GoodMesh, r: nat, local: seq<nat>, nOwn: nat, edg4loc: seq<nat>) returns (t: DofTables)
    requires r < |m.own| && InMesh(m, local) && local == LocalCells(m, r) && nOwn == |m.own[r]|
    requires forall e: nat :: e in edg4loc <==>
      e < |m.edgeDim| && exists c: nat :: c < |m.cells| && m.proc[c] == r && e in m.cells[c].edges
    ensures fresh(t) && TablesOf(m, r, local, t)
    ensures t.Laid() && t.FacesRight() && t.CellsRight(0, 0) && t.slots == []
  {
    var cellSizes, faceSizes := TableSizes(m, local);
    var status := InitStatus(m, r, local, nOwn, edg4loc);
    RowsFit(m, local);
    t := new DofTables(FaceRows(m), CellRows(m, local), OwnedFaces(m, r), nOwn, faceSizes, cellSizes, status);
  }

  lemma InteriorUnnumbered(m: GoodMesh, r: nat, before: seq<Slot>, l: nat, i: nat)
    requires r < |m.own| && l < |m.own[r]| && Numbering.Progress(m, r, before, l, 0)
    requires i < |CellDofs(m, m.own[r][l])| && SlotOf(m, m.own[r][l], i).CellSlot?
    ensures SlotOf(m, m.own[r][l], i) !in VisitDofs(m, r, before, m.own[r][l], i)
  {
    VisitsKeepProgress(m, r, before, l, i);
    assert Distinct(m.own[r]);
  }

  /** Cell c is own cell l of process r; faces and their owners are those of the mesh. */
  ghost predicate CellOf(m: GoodMesh, r: nat, t: DofTables, l: nat, c: nat) {
    && r < |m.own| && l < |m.own[r]| == t.nOwn && c == m.own[r][l] && c < |m.cells|
    && l < |t.rows| && t.rows[l] == CellSlots(m, c) && t.frows == FaceRows(m) && t.owns == OwnedFaces(m, r)
  }

  /** Own cell l is visited up to dof i, from the slots before it. */
  ghost predicate Visiting(m: GoodMesh, r: nat, t: DofTables, l: nat, c: nat, before: seq<Slot>, i: nat)
    requires CellOf(m, r, t, l, c)
    reads t
  {
    && i <= |CellDofs(m, c)| && Numbering.Progress(m, r, before, l, 0) && t.slots == VisitDofs(m, r, before, c, i)
    && t.Laid() && t.FacesRight() && t.CellsRight(l, i)
  }

  /** Visit dof i of own cell l. */
  method VisitOne(m: GoodMesh, r: nat, t: DofTables, l: nat, c: nat, i: nat, ghost before: seq<Slot>,
                  shared: bool, f: nat, k: nat)
    requires CellOf(m, r, t, l, c) && i < |CellDofs(m, c)|
    requires SlotOf(m, c, i) == if shared then FaceSlot(f, k) else CellSlot(c, i)
    requires Visiting(m, r, t, l, c, before, i)
    modifies t
    ensures Visiting(m, r, t, l, c, before, i + 1)
  {
    assert t.rows[l][i] == SlotOf(m, c, i);
    VisitMatches(m, r, t.slots, c, i);
    if shared {
      t.VisitShared(l, i, f, k);
    } else {
      InteriorUnnumbered(m, r, before, l, i);
      t.VisitInterior(l, i);
    }
  }

  /** Locate and visit dof i of own cell l. */
  method VisitNext(m: GoodMesh, r: nat, t: DofTables, l: nat, c: nat, i: nat, ghost before: seq<Slot>,
                   nodeCount: seq<nat>, sideCount: seq<nat>) returns (nodeCount': seq<nat>, sideCount': seq<nat>)
    requires CellOf(m, r, t, l, c) && i < |CellDofs(m, c)|
    requires CountsOk(CellDofs(m, c), m.cells[c].dim, i, nodeCount, sideCount)
    requires Visiting(m, r, t, l, c, before, i)
    modifies t
    ensures CountsOk(CellDofs(m, c), m.cells[c].dim, i + 1, nodeCount', sideCount')
    ensures Visiting(m, r, t, l, c, before, i + 1)
  {
    var shared, f, k;
    shared, f, k, nodeCount', sideCount' := Locate(m, c, i, nodeCount, sideCount);
    VisitOne(m, r, t, l, c, i, before, shared, f, k);
  }

  /** The loop over the dofs of own cell l. */
  method VisitCellDofs(m: GoodMesh, r: nat, t: DofTables, l: nat, c: nat, ghost before: seq<Slot>)
    requires CellOf(m, r, t, l, c) && Visiting(m, r, t, l, c, before, 0)
    modifies t
    ensures Visiting(m, r, t, l, c, before, |CellDofs(m, c)|)
  {
    var nodeCount, sideCount := StartCounts(m, c);
    var i := 0;
    while i < |CellDofs(m, c)|
      invariant i <= |CellDofs(m, c)| && CountsOk(CellDofs(m, c), m.cells[c].dim, i, nodeCount, sideCount)
      invariant Visiting(m, r, t, l, c, before, i)
    {
      nodeCount, sideCount := VisitNext(m, r, t, l, c, i, before, nodeCount, sideCount);
      i := i + 1;
    }
  }

  /** The first l own cells are numbered. */
  ghost predicate NumberedTo(m: GoodMesh, r: nat, t: DofTables, l: nat)
    requires r < |m.own|
    reads t
  {
    && l <= |m.own[r]| && t.Laid() && t.FacesRight() && t.CellsRight(l, 0)
    && t.slots == VisitCells(m, r, l)
  }

  /** Number the dofs of own cell l. */
  method NumberCell(m: GoodMesh, r: nat, local: seq<nat>, t: DofTables, l: nat)
    requires TablesOf(m, r, local, t) && l < t.nOwn && NumberedTo(m, r, t, l)
    modifies t
    ensures NumberedTo(m, r, t, l + 1)
  {
    CellsKeepProgress(m, r, l);
    assert local[l] == m.own[r][l];
    VisitCellDofs(m, r, t, l, local[l], t.slots);
    NextRow(t.owns, t.rows, t.dofIndices, t.slots, t.updateCells, l);
  }

  /** The numbering loop over own cells: local number j goes to the j-th slot of the process. */
  method NumberOwnCells(m: GoodMesh, r: nat, local: seq<nat>, t: DofTables)
    requires TablesOf(m, r, local, t)
    requires t.Laid() && t.FacesRight() && t.CellsRight(0, 0) && t.slots == []
    modifies t
    ensures t.slots == Local(m, r) && IsIdentity(t.l2g, |Local(m, r)|) && t.Settled({})
  {
    var l := 0;
    while l < t.nOwn
      invariant l <= t.nOwn && NumberedTo(m, r, t, l)
    {
      NumberCell(m, r, local, t, l);
      l := l + 1;
    }
    VisitedIsSettled(t);
  }

  /** When all own cells are visited, every row is right. */
  lemma VisitedIsSettled(t: DofTables)
    requires t.Laid() && t.FacesRight() && t.CellsRight(t.nOwn, 0)
    ensures t.Settled({})
  {
    forall x: nat | x < t.nOwn
      ensures Filled(t.rows, t.dofIndices, t.slots, x, |t.rows[x]|)
        && (!t.updateCells[x] ==> KnownRow(t.rows, t.dofIndices, t.slots, x, |t.rows[x]|))
    {
      assert VisitedRow(t.owns, t.rows, t.dofIndices, t.slots, t.updateCells[x], x, |t.rows[x]|);
    }
  }

  /** Shift the owned numbers by the offset of the process. */
  method ShiftNumbers(t: DofTables, offset: nat, ghost known: set<nat>)
    requires t.Settled(known)
    modifies t`l2g
    ensures t.Settled(known) && |t.l2g| == |old(t.l2g)|
    ensures forall j :: 0 <= j < |t.l2g| ==> t.l2g[j] == old(t.l2g)[j] + offset
  {
    if offset > 0 {
      var j := 0;
      while j < |t.l2g|
        invariant j <= |t.l2g| && |t.l2g| == |old(t.l2g)| && t.Settled(known)
        invariant forall x :: 0 <= x < |t.l2g| ==> t.l2g[x] == old(t.l2g)[x] + if x < j then offset else 0
      {
        t.l2g := t.l2g[j := t.l2g[j] + offset];
        j := j + 1;
      }
    }
  }

  // ---- reading the tables -----------------------------------------------------------------

  /** Global numbers of the dofs of local cell l, appended to a list. */
  method AppendNumbers(t: DofTables, l: nat, ghost known: set<nat>, dofs: seq<int>) returns (out: seq<int>)
    requires t.Settled(known) && l < |t.rows| && KnownRow(t.rows, t.dofIndices, t.slots, l, |t.rows[l]|)
    ensures Resolved(Tables(t.slots, t.l2g), t.rows[l])
    ensures out == dofs + CellNumbers(Tables(t.slots, t.l2g), t.rows[l])
  {
    ghost var tab := Tables(t.slots, t.l2g);
    out := dofs;
    var i := t.cellStarts[l];
    BlockBounds(Sizes(t.rows), l, l + 1);
    while i < t.cellStarts[l + 1]
      invariant t.cellStarts[l] <= i <= t.cellStarts[l + 1]
      invariant |out| == |dofs| + i - t.cellStarts[l] && dofs <= out
      invariant forall x :: 0 <= x < i - t.cellStarts[l] ==> out[|dofs| + x] == Lookup(tab, t.rows[l][x])
    {
      assert Entry(t.rows, t.dofIndices, t.slots, l, i - t.cellStarts[l]);
      out := out + [t.l2g[t.dofIndices[i]]];
      i := i + 1;
    }
  }

  /** Global dof numbers of a cell. */
  method GetDofIndices(t: DofTables, l: nat, ghost known: set<nat>) returns (indices: seq<int>)
    requires t.Settled(known) && l < |t.rows| && KnownRow(t.rows, t.dofIndices, t.slots, l, |t.rows[l]|)
    ensures Resolved(Tables(t.slots, t.l2g), t.rows[l])
    ensures indices == CellNumbers(Tables(t.slots, t.l2g), t.rows[l])
  {
    indices := AppendNumbers(t, l, known, []);
  }

  /** The rows of the tables, through the map from cells to local indices, are those of the layout. */
  ghost predicate RowsOf(L: Layout, index: map<nat, nat>, t: DofTables) {
    forall c :: c in index && c < |L.cells| ==> index[c] < |t.rows| && t.rows[index[c]] == L.cells[c]
  }

  lemma OwnRowKnown(t: DofTables, l: nat, known: set<nat>)
    requires t.Settled(known) && l < t.nOwn && Resolved(Tables(t.slots, t.l2g), t.rows[l])
    ensures KnownRow(t.rows, t.dofIndices, t.slots, l, |t.rows[l]|)
  {
  }

  /** All listed cells are own cells (cell_accessor_from_element finds them below nOwn). */
  ghost predicate OwnCells(index: map<nat, nat>, t: DofTables, elems: seq<nat>) {
    forall j :: 0 <= j < |elems| ==> elems[j] in index && index[elems[j]] < t.nOwn
  }

  /** First part of an answer: dof counts of the requested cells. */
  method SendCounts(index: map<nat, nat>, t: DofTables, ghost L: Layout, elems: seq<nat>)
    returns (counts: seq<nat>)
    requires t.Laid() && RowsOf(L, index, t) && OwnCells(index, t, elems) && Cells(L, elems)
    ensures counts == DofSizes(L, elems)
  {
    counts := [];
    var j := 0;
    while j < |elems|
      invariant j <= |elems| && counts == DofSizes(L, elems)[..j]
    {
      var l := index[elems[j]];
      assert t.cellStarts[l + 1] == Start(Sizes(t.rows), l + 1);
      counts := counts + [t.cellStarts[l + 1] - t.cellStarts[l]];
      j := j + 1;
    }
  }

  /** The numbers of one requested cell. */
  method SendCell(r: nat, index: map<nat, nat>, t: DofTables, ghost L: Layout, ghost known: set<nat>, c: nat,
                  dofs: seq<int>)
    returns (out: seq<int>)
    requires t.Settled(known) && RowsOf(L, index, t) && c in index && index[c] < t.nOwn && c < |L.cells|
    requires Resolved(Tables(t.slots, t.l2g), L.cells[c])
    ensures out == dofs + CellNumbers(Tables(t.slots, t.l2g), L.cells[c])
  {
    OwnRowKnown(t, index[c], known);
    out := AppendNumbers(t, index[c], known, dofs);
  }

  /** Second part: the dof numbers, one cell after the other. */
  method SendDofs(r: nat, index: map<nat, nat>, t: DofTables, ghost L: Layout, ghost known: set<nat>, elems: seq<nat>)
    returns (dofs: seq<int>)
    requires t.Settled(known) && RowsOf(L, index, t) && OwnCells(index, t, elems)
    requires |L.proc| == |L.cells| && Answerable(L, r, Tables(t.slots, t.l2g), elems)
    ensures dofs == Answer(L, r, Tables(t.slots, t.l2g), elems, |elems|)
  {
    ghost var tab := Tables(t.slots, t.l2g);
    dofs := [];
    var j := 0;
    while j < |elems|
      invariant j <= |elems| && dofs == Answer(L, r, tab, elems, j)
    {
      dofs := SendCell(r, index, t, L, known, elems[j], dofs);
      AnswerNext(L, r, tab, elems, j);
      j := j + 1;
    }
  }

  lemma AnswerNext(L: Layout, r: nat, t: Tables, elems: seq<nat>, j: nat)
    requires |L.proc| == |L.cells| && Answerable(L, r, t, elems) && j < |elems|
    ensures Answer(L, r, t, elems, j + 1) == Answer(L, r, t, elems, j) + CellNumbers(t, L.cells[elems[j]])
  {
  }

  // ---- entering received numbers ----------------------------------------------------------

  /** Enter dof i of ghost cell c. */
  method EnterOne(t: DofTables, l: nat, i: nat, shared: bool, f: nat, k: nat, v: int,
                  ghost base: seq<Slot>, ghost known: set<nat>, ghost c: nat)
    requires t.Open(base, known) && t.nOwn <= l < |t.rows| && l !in known
    requires i < |t.rows[l]| && t.rows[l][i] == if shared then FaceSlot(f, k) else CellSlot(c, i)
    requires KnownRow(t.rows, t.dofIndices, t.slots, l, i)
    requires forall x :: x in t.slots && x.CellSlot? && x.cell == c ==> x.i < i
    modifies t
    ensures Tables(t.slots, t.l2g) == AddDof(Tables(old(t.slots), old(t.l2g)), t.rows[l][i], v)
    ensures t.Open(base, known) && KnownRow(t.rows, t.dofIndices, t.slots, l, i + 1)
    ensures forall x :: x in t.slots && x.CellSlot? && x.cell == c ==> x.i < i + 1
  {
    if shared {
      t.EnterShared(base, known, l, i, f, k, v);
    } else {
      t.EnterInterior(base, known, l, i, v);
    }
  }

  /** Enter all dofs of ghost cell c, whose local index is l. */
  method EnterCell(m: GoodMesh, c: nat, t: DofTables, l: nat, dofs: seq<int>, off: nat,
                   ghost base: seq<Slot>, ghost known: set<nat>)
    requires c < |m.cells|
    requires t.Open(base, known) && t.nOwn <= l < |t.rows| && l !in known && t.rows[l] == CellSlots(m, c)
    requires off + |t.rows[l]| <= |dofs|
    requires forall x :: x in t.slots && x.CellSlot? ==> x.cell != c
    modifies t
    ensures Tables(t.slots, t.l2g) == AddDofs(Tables(old(t.slots), old(t.l2g)), t.rows[l], dofs, off, |t.rows[l]|)
    ensures t.Open(base, known) && KnownRow(t.rows, t.dofIndices, t.slots, l, |t.rows[l]|)
  {
    var nodeCount, sideCount := StartCounts(m, c);
    var i := 0;
    while i < |CellDofs(m, c)|
      invariant i <= |CellDofs(m, c)| && CountsOk(CellDofs(m, c), m.cells[c].dim, i, nodeCount, sideCount)
      invariant t.Open(base, known) && KnownRow(t.rows, t.dofIndices, t.slots, l, i)
      invariant Tables(t.slots, t.l2g) == AddDofs(Tables(old(t.slots), old(t.l2g)), t.rows[l], dofs, off, i)
      invariant forall x :: x in t.slots && x.CellSlot? && x.cell == c ==> x.i < i
    {
      var shared, f, k;
      shared, f, k, nodeCount, sideCount := Locate(m, c, i, nodeCount, sideCount);
      EnterOne(t, l, i, shared, f, k, dofs[off + i], base, known, c);
      i := i + 1;
    }
  }

  /** Bring the marked row x of an own cell up to date. */
  method UpdateCell(m: GoodMesh, c: nat, t: DofTables, x: nat, ghost base: seq<Slot>)
    requires c < |m.cells|
    requires t.Laid() && base <= t.slots && Distinct(t.slots) && AllEntries(t.frows, t.faceDofs, t.slots)
    requires x < t.nOwn && t.rows[x] == CellSlots(m, c)
    requires forall i :: 0 <= i < |t.rows[x]| && t.rows[x][i].CellSlot? ==> t.rows[x][i] in base
    requires Updated(t.rows, t.dofIndices, t.slots, base, t.nOwn, x, 0)
    modifies t`dofIndices
    ensures t.Laid() && Updated(t.rows, t.dofIndices, t.slots, base, t.nOwn, x, |t.rows[x]|)
    ensures SameFrom(t.rows, t.nOwn, old(t.dofIndices), t.dofIndices)
  {
    var nodeCount, sideCount := StartCounts(m, c);
    var i := 0;
    while i < |CellDofs(m, c)|
      invariant i <= |CellDofs(m, c)| && CountsOk(CellDofs(m, c), m.cells[c].dim, i, nodeCount, sideCount)
      invariant t.Laid() && Updated(t.rows, t.dofIndices, t.slots, base, t.nOwn, x, i)
      invariant SameFrom(t.rows, t.nOwn, old(t.dofIndices), t.dofIndices)
    {
      var shared, f, k;
      shared, f, k, nodeCount, sideCount := Locate(m, c, i, nodeCount, sideCount);
      if shared {
        t.UpdateShared(base, x, i, f, k);
      } else {
        KeepEntry(t.rows, t.dofIndices, t.slots, base, t.nOwn, x, i);
      }
      i := i + 1;
    }
  }

  lemma {:induction false} AddDofsOnly(t: Tables, slots: seq<Slot>, vals: seq<int>, off: nat, n: nat)
    requires n <= |slots| && off + n <= |vals|
    ensures forall x :: x in AddDofs(t, slots, vals, off, n).slots ==> x in t.slots || x in slots
  {
    if n > 0 {
      AddDofsOnly(t, slots, vals, off, n - 1);
      assert slots[n - 1] in slots;
    }
  }

  lemma InteriorOfCell(m: GoodMesh, c: nat)
    requires c < |m.cells|
    ensures forall x :: x in CellSlots(m, c) && x.CellSlot? ==> x.cell == c
  {
  }

  /** The requested cells: ghost cells of the mesh not entered before, each once. */
  ghost predicate Requested(m: GoodMesh, L: Layout, index: map<nat, nat>, t: DofTables, list: seq<nat>,
                            known: set<nat>) {
    && Cells(L, list) && |L.cells| == |m.cells|
    && (forall j :: 0 <= j < |list| ==>
          list[j] in index && t.nOwn <= index[list[j]] < |t.rows| && index[list[j]] !in known)
    && (forall i, j :: 0 <= i < j < |list| ==> index[list[i]] != index[list[j]])
    && Distinct(list)
  }

  ghost function EnteredRows(index: map<nat, nat>, list: seq<nat>, n: nat): set<nat>
    requires n <= |list| && forall j :: 0 <= j < |list| ==> list[j] in index
  {
    if n == 0 then {} else EnteredRows(index, list, n - 1) + {index[list[n - 1]]}
  }

  /** One ghost cell of the list. */
  method EnterListed(m: GoodMesh, t: DofTables, index: map<nat, nat>, ghost L: Layout, list: seq<nat>,
                     dofs: seq<int>, j: nat, off: nat, ghost base: seq<Slot>, ghost known: set<nat>)
    requires t.Open(base, known) && j < |list| && Requested(m, L, index, t, list, {})
    requires t.rows[index[list[j]]] == L.cells[list[j]] == CellSlots(m, list[j]) && index[list[j]] !in known
    requires off + |L.cells[list[j]]| <= |dofs|
    requires forall x :: x in t.slots && x.CellSlot? ==> x.cell !in list[j..]
    modifies t
    ensures Tables(t.slots, t.l2g)
      == AddDofs(Tables(old(t.slots), old(t.l2g)), L.cells[list[j]], dofs, off, |L.cells[list[j]]|)
    ensures t.Open(base, known + {index[list[j]]})
    ensures forall x :: x in t.slots && x.CellSlot? ==> x.cell !in list[j + 1..]
  {
    var c, l := list[j], index[list[j]];
    assert list[j..][0] == c;
    EnterCell(m, c, t, l, dofs, off, base, known);
    AddDofsOnly(Tables(old(t.slots), old(t.l2g)), L.cells[c], dofs, off, |L.cells[c]|);
    InteriorOfCell(m, c);
    assert list[j + 1..] == list[j..][1..];
    assert c !in list[j + 1..];
  }

  lemma {:induction false} NotYetEntered(m: GoodMesh, L: Layout, index: map<nat, nat>, t: DofTables, list: seq<nat>,
                                         known: set<nat>, n: nat, j: nat)
    requires Requested(m, L, index, t, list, known) && n <= j < |list|
    ensures index[list[j]] !in known + EnteredRows(index, list, n)
  {
    if n > 0 {
      NotYetEntered(m, L, index, t, list, known, n - 1, j);
    }
  }

  lemma {:induction false} EnteredAreGhosts(m: GoodMesh, L: Layout, index: map<nat, nat>, t: DofTables, list: seq<nat>,
                                            known: set<nat>, n: nat)
    requires Requested(m, L, index, t, list, known) && n <= |list|
    ensures forall x :: x in EnteredRows(index, list, n) ==> t.nOwn <= x
  {
    if n > 0 {
      EnteredAreGhosts(m, L, index, t, list, known, n - 1);
    }
  }

  /** The rows of the listed cells are theirs. */
  ghost predicate ListedRows(m: GoodMesh, L: Layout, index: map<nat, nat>, t: DofTables, list: seq<nat>)
    requires Requested(m, L, index, t, list, {})
  {
    forall j :: 0 <= j < |list| ==>
      t.rows[index[list[j]]] == L.cells[list[j]] && L.cells[list[j]] == CellSlots(m, list[j])
  }

  /** The state in which numbers arrive: layout, slots and rows known before, and tables. */
  datatype Arrival = Arrival(L: Layout, base: seq<Slot>, known: set<nat>, tab: Tables)

  /** The numbers are those of the listed cells, which are asked for and have their rows. */
  ghost predicate ArrivalOk(m: GoodMesh, t: DofTables, index: map<nat, nat>, e: Arrival, list: seq<nat>,
                            dofs: seq<int>) {
    && Requested(m, e.L, index, t, list, e.known) && ListedRows(m, e.L, index, t, list)
    && |dofs| == Total(DofSizes(e.L, list))
  }

  /** The first j listed cells are entered. */
  ghost predicate Entering(m: GoodMesh, t: DofTables, index: map<nat, nat>, e: Arrival, list: seq<nat>, dofs: seq<int>,
                           j: nat, off: nat)
    requires ArrivalOk(m, t, index, e, list, dofs)
    reads t
  {
    && j <= |list| && off == Start(DofSizes(e.L, list), j)
    && Tables(t.slots, t.l2g) == AddCells(e.L, e.tab, list, dofs, j)
    && t.Open(e.base, e.known + EnteredRows(index, list, j))
    && forall x :: x in t.slots && x.CellSlot? ==> x.cell !in list[j..]
  }

  /** One round of the loop over the listed cells. */
  method EnterNext(m: GoodMesh, t: DofTables, index: map<nat, nat>, ghost e: Arrival, list: seq<nat>, dofs: seq<int>,
                   j: nat, off: nat)
    returns (off': nat)
    requires ArrivalOk(m, t, index, e, list, dofs) && j < |list| && Entering(m, t, index, e, list, dofs, j, off)
    modifies t
    ensures Entering(m, t, index, e, list, dofs, j + 1, off')
  {
    BlockBounds(DofSizes(e.L, list), j, j + 1);
    NotYetEntered(m, e.L, index, t, list, e.known, j, j);
    ghost var done := e.known + EnteredRows(index, list, j);
    EnterListed(m, t, index, e.L, list, dofs, j, off, e.base, done);
    assert done + {index[list[j]]} == e.known + EnteredRows(index, list, j + 1);
    off' := off + (t.cellStarts[index[list[j]] + 1] - t.cellStarts[index[list[j]]]);
  }

  /** The loop over the listed cells. */
  method EnterLoop(m: GoodMesh, t: DofTables, index: map<nat, nat>, ghost e: Arrival, list: seq<nat>, dofs: seq<int>)
    returns (off: nat)
    requires ArrivalOk(m, t, index, e, list, dofs) && Entering(m, t, index, e, list, dofs, 0, 0)
    modifies t
    ensures Entering(m, t, index, e, list, dofs, |list|, off)
  {
    off := 0;
    for j := 0 to |list|
      invariant Entering(m, t, index, e, list, dofs, j, off)
    {
      off := EnterNext(m, t, index, e, list, dofs, j, off);
    }
  }

  /** Enter all ghost cells received from one process. */
  method EnterCells(m: GoodMesh, t: DofTables, index: map<nat, nat>, ghost L: Layout, list: seq<nat>,
                    dofs: seq<int>, ghost base: seq<Slot>, ghost known: set<nat>)
    requires t.Open(base, known) && Requested(m, L, index, t, list, known) && ListedRows(m, L, index, t, list)
    requires |dofs| == Total(DofSizes(L, list)) && Fresh(Tables(t.slots, t.l2g), list)
    modifies t
    ensures Tables(t.slots, t.l2g) == AddCells(L, Tables(old(t.slots), old(t.l2g)), list, dofs, |list|)
    ensures t.Open(base, known + EnteredRows(index, list, |list|))
  {
    assert known + EnteredRows(index, list, 0) == known;
    var end := EnterLoop(m, t, index, Arrival(L, base, known, Tables(t.slots, t.l2g)), list, dofs);
  }

  /** Own rows after the update are right for all known slots. */
  lemma UpdatedAll(t: DofTables, base: seq<Slot>, before: seq<int>, known: set<nat>)
    requires t.Laid() && base <= t.slots && Distinct(t.slots) && |t.l2g| == |t.slots|
    requires AllEntries(t.frows, t.faceDofs, t.slots)
    requires Updated(t.rows, t.dofIndices, t.slots, base, t.nOwn, t.nOwn, 0)
    requires SameFrom(t.rows, t.nOwn, before, t.dofIndices) && KnownRows(t.rows, before, t.slots, known)
    requires OwnRows(t.rows, before, base, t.updateCells)
    requires forall x :: x in known ==> t.nOwn <= x
    ensures t.Settled(known)
  {
    forall x: nat | x < t.nOwn
      ensures Filled(t.rows, t.dofIndices, t.slots, x, |t.rows[x]|)
        && (!t.updateCells[x] ==> KnownRow(t.rows, t.dofIndices, t.slots, x, |t.rows[x]|))
    {
      assert forall i: nat :: i < |t.rows[x]| ==> Entry(t.rows, t.dofIndices, t.slots, x, i);
      assert !t.updateCells[x] ==> KnownRow(t.rows, before, base, x, |t.rows[x]|);
    }
    forall x | x in known
      ensures KnownRow(t.rows, t.dofIndices, t.slots, x, |t.rows[x]|)
    {
      SameFromKeepsRow(t.rows, t.nOwn, before, t.dofIndices, t.slots, x, |t.rows[x]|);
    }
  }

  /** Bring the rows of all marked own cells up to date. */
  method UpdateOwnCells(m: GoodMesh, local: seq<nat>, t: DofTables, ghost base: seq<Slot>, ghost known: set<nat>)
    requires InMesh(m, local) && t.rows == CellRows(m, local)
    requires t.Open(base, known) && forall x :: x in known ==> t.nOwn <= x
    requires forall x, i :: 0 <= x < t.nOwn && 0 <= i < |t.rows[x]| && t.rows[x][i].CellSlot? ==> t.rows[x][i] in base
    modifies t`dofIndices
    ensures t.Settled(known)
  {
    ghost var before := t.dofIndices;
    var x := 0;
    forall y: nat, j: nat | y < t.nOwn && j < |t.rows[y]|
      ensures Entry(t.rows, t.dofIndices, base, y, j)
    {
      assert Filled(t.rows, t.dofIndices, base, y, |t.rows[y]|);
    }
    while x < t.nOwn
      invariant x <= t.nOwn && t.Laid() && SameFrom(t.rows, t.nOwn, before, t.dofIndices)
      invariant Updated(t.rows, t.dofIndices, t.slots, base, t.nOwn, x, 0)
    {
      if t.updateCells[x] {
        UpdateCell(m, local[x], t, x, base);
      } else {
        assert KnownRow(t.rows, before, base, x, |t.rows[x]|);
        SkipRow(t.rows, t.dofIndices, t.slots, base, t.nOwn, x);
      }
      UpdatedNextRow(t.rows, t.dofIndices, t.slots, base, t.nOwn, x);
      x := x + 1;
    }
    UpdatedAll(t, base, before, known);
  }

  /** The tables are ready for the numbers of the listed cells: these are ghost cells not entered
      before, none of their interior slots has a number, and all those of own cells have. */
  ghost predicate ReadyFor(m: GoodMesh, local: seq<nat>, t: DofTables, index: map<nat, nat>, L: Layout,
                           list: seq<nat>, known: set<nat>)
    reads t
  {
    && InMesh(m, local) && t.rows == CellRows(m, local)
    && t.Settled(known) && (forall x :: x in known ==> t.nOwn <= x)
    && Requested(m, L, index, t, list, known) && ListedRows(m, L, index, t, list)
    && Fresh(Tables(t.slots, t.l2g), list)
    && (forall x, i :: 0 <= x < t.nOwn && 0 <= i < |t.rows[x]| && t.rows[x][i].CellSlot? ==> t.rows[x][i] in t.slots)
  }

  /** Enter the numbers received from one process, then update own cells: the tables stand for
      what the exchange model says, and every row is right again. */
  method UpdateLocalDofs(m: GoodMesh, local: seq<nat>, t: DofTables, index: map<nat, nat>, ghost L: Layout,
                         list: seq<nat>, dofs: seq<int>, ghost known: set<nat>)
    requires ReadyFor(m, local, t, index, L, list, known) && |dofs| == Total(DofSizes(L, list))
    modifies t
    ensures Tables(t.slots, t.l2g) == AddCells(L, Tables(old(t.slots), old(t.l2g)), list, dofs, |list|)
    ensures t.Settled(known + EnteredRows(index, list, |list|))
  {
    ghost var base := t.slots;
    EnteredAreGhosts(m, L, index, t, list, known, |list|);
    EnterCells(m, t, index, L, list, dofs, base, known);
    UpdateOwnCells(m, local, t, base, known + EnteredRows(index, list, |list|));
  }
}
