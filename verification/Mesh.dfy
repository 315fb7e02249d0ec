/** The mesh and finite-element data that the dof handler reads: cells with their tree nodes and
    edges, the partition of cells among processes, and the dofs of the element of each dimension.
    Nodes and edges are treated alike, as faces: face `n` below the number of tree nodes is tree
    node `n`, and the faces after those are the edges. */
module MeshModel {
  import opened Lists

  const INVALID_DOF := -1

  /** A dof of a finite element: dimension of the n-face that carries it, and which n-face. */
  datatype Dof = Dof(dim: nat, nface: nat)

  datatype Cell = Cell(dim: nat, nodes: seq<nat>, edges: seq<nat>)

  /** A coupling of a cell (`lower`) with a side of a cell of higher dimension (`higher`). */
  datatype Coupling = Coupling(lower: nat, higher: nat)

  /** `own[r]` lists the cells of process r in row order, `proc[c]` is the process of cell c,
      `fe[d]` the dofs of the element used on all cells of dimension d. */
  datatype Mesh = Mesh(
    cells: seq<Cell>, proc: seq<nat>, own: seq<seq<nat>>, couplings: seq<Coupling>,
    nodeDim: seq<nat>, edgeDim: seq<nat>, fe: seq<seq<Dof>>)

  /** What a dof number stands for: the k-th dof of a node or edge, or the i-th dof of a cell. */
  datatype Slot = FaceSlot(face: nat, k: nat) | CellSlot(cell: nat, i: nat)

  // ---- dof layout of one element ----------------------------------------------------------

  /** How many of the first n dofs lie on the given n-face. */
  function DofCount(fe: seq<Dof>, n: nat, dim: nat, nface: nat): (k: nat)
    requires n <= |fe|
  {
    if n == 0 then 0
    else DofCount(fe, n - 1, dim, nface) + (if fe[n - 1] == Dof(dim, nface) then 1 else 0)
  }

  /** Number of earlier dofs on the same n-face as dof i. */
  function Ordinal(fe: seq<Dof>, i: nat): (k: nat)
    requires i < |fe|
  {
    DofCount(fe, i, fe[i].dim, fe[i].nface)
  }

  /** Number of dofs on side x of a cell of dimension two or more. */
  function SideDofs(fe: seq<Dof>, dim: nat, x: nat): (k: nat)
    requires dim > 0
  {
    DofCount(fe, |fe|, dim - 1, x)
  }

  /** A dof shared between cells: it lies on a node, or on a side of the cell. */
  predicate Shared(d: Dof, dim: nat) {
    d.dim == 0 || d.dim + 1 == dim
  }

  /** Only nodal, side and interior dofs occur, and all nodes (all sides) carry equally many. */
  ghost predicate UniformElement(fe: seq<Dof>, dim: nat) {
    && (forall i :: 0 <= i < |fe| ==> Shared(fe[i], dim) || fe[i].dim == dim)
    && (forall i :: 0 <= i < |fe| && Shared(fe[i], dim) ==> fe[i].nface <= dim)
    && (forall x: nat :: x <= dim ==> DofCount(fe, |fe|, 0, x) == DofCount(fe, |fe|, 0, 0))
    && (dim >= 2 ==> forall x: nat :: x <= dim ==> SideDofs(fe, dim, x) == SideDofs(fe, dim, 0))
  }

  // ---- well-formed meshes -----------------------------------------------------------------

  ghost predicate Adjacent(m: Mesh, c: nat, d: nat)
    requires c < |m.cells| && d < |m.cells|
  {
    exists n :: n in m.cells[c].nodes && n in m.cells[d].nodes
  }

  ghost predicate CellOk(m: Mesh, cell: Cell) {
    && cell.dim < |m.fe|
    && |cell.nodes| == cell.dim + 1
    && |cell.edges| == cell.dim + 1
    && (forall n :: n in cell.nodes ==> n < |m.nodeDim| && m.nodeDim[n] == cell.dim)
    && (forall e :: e in cell.edges ==> e < |m.edgeDim| && m.edgeDim[e] == cell.dim)
  }

  ghost predicate Partitioned(m: Mesh) {
    && |m.proc| == |m.cells|
    && (forall r :: 0 <= r < |m.own| ==> Distinct(m.own[r]))
    && (forall r, i :: 0 <= r < |m.own| && 0 <= i < |m.own[r]| ==>
          m.own[r][i] < |m.cells| && m.proc[m.own[r][i]] == r)
    && (forall c :: 0 <= c < |m.cells| ==> m.proc[c] < |m.own| && c in m.own[m.proc[c]])
  }

  ghost predicate CouplingsOk(m: Mesh) {
    && |m.proc| == |m.cells|
    && forall k :: 0 <= k < |m.couplings| ==> m.couplings[k].lower < |m.cells| && m.couplings[k].higher < |m.cells|
  }

  ghost predicate WellFormed(m: Mesh) {
    && Partitioned(m)
    && (forall c :: 0 <= c < |m.cells| ==> m.cells[c].dim < |m.fe|)
    && (forall c {:trigger CellOk(m, m.cells[c])} :: 0 <= c < |m.cells| ==> CellOk(m, m.cells[c]))
    && (forall d {:trigger UniformElement(m.fe[d], d)} :: 0 <= d < |m.fe| ==> UniformElement(m.fe[d], d))
    && (forall n :: 0 <= n < |m.nodeDim| ==> m.nodeDim[n] < |m.fe|)
    && (forall e :: 0 <= e < |m.edgeDim| ==> m.edgeDim[e] < |m.fe|)
    && CouplingsOk(m)
    && (forall c, d, e {:trigger Adjacent(m, c, d), e in m.cells[c].edges} ::
          0 <= c < |m.cells| && 0 <= d < |m.cells| && e in m.cells[c].edges && e in m.cells[d].edges ==>
            Adjacent(m, c, d))
  }

  /** The meshes that the dof handler works on. */
  type GoodMesh = m: Mesh | WellFormed(m) ghost witness Mesh([], [], [], [], [], [], [])

  // ---- faces and slots --------------------------------------------------------------------

  function NFaces(m: Mesh): nat {
    |m.nodeDim| + |m.edgeDim|
  }

  function CellDofs(m: Mesh, c: nat): seq<Dof>
    requires c < |m.cells| && m.cells[c].dim < |m.fe|
  {
    m.fe[m.cells[c].dim]
  }

  /** Number of dofs reserved for a face (n_node_dofs or n_edge_dofs of the discrete space). */
  function FaceDofs(m: Mesh, f: nat): nat
    requires f < NFaces(m)
    requires forall n :: 0 <= n < |m.nodeDim| ==> m.nodeDim[n] < |m.fe|
    requires forall e :: 0 <= e < |m.edgeDim| ==> m.edgeDim[e] < |m.fe|
  {
    if f < |m.nodeDim| then
      var fe := m.fe[m.nodeDim[f]];
      DofCount(fe, |fe|, 0, 0)
    else
      var dim := m.edgeDim[f - |m.nodeDim|];
      if dim == 0 then 0 else SideDofs(m.fe[dim], dim, 0)
  }

  predicate HasFace(m: Mesh, c: nat, f: nat)
    requires c < |m.cells|
  {
    if f < |m.nodeDim| then f in m.cells[c].nodes else f - |m.nodeDim| in m.cells[c].edges
  }

  function FaceOf(m: Mesh, c: nat, d: Dof): nat
    requires c < |m.cells|
    requires d.nface < |m.cells[c].nodes| && d.nface < |m.cells[c].edges|
  {
    if d.dim == 0 then m.cells[c].nodes[d.nface] else |m.nodeDim| + m.cells[c].edges[d.nface]
  }

  /** The slot that dof i of cell c refers to. */
  function SlotOf(m: Mesh, c: nat, i: nat): Slot
    requires c < |m.cells| && CellOk(m, m.cells[c]) && i < |CellDofs(m, c)|
    requires UniformElement(m.fe[m.cells[c].dim], m.cells[c].dim)
  {
    var d := CellDofs(m, c)[i];
    if Shared(d, m.cells[c].dim) then FaceSlot(FaceOf(m, c, d), Ordinal(CellDofs(m, c), i))
    else CellSlot(c, i)
  }

  ghost predicate IsSlot(m: GoodMesh, s: Slot)
  {
    exists c: nat, i: nat :: c < |m.cells| && i < |CellDofs(m, c)| && SlotOf(m, c, i) == s
  }

  /** A face on which some cell can have a slot: any node, or an edge between cells of dimension
      two or more (side dofs of one-dimensional cells are nodal). */
  predicate CarriesDofs(m: Mesh, f: nat) {
    f < |m.nodeDim| || (f < NFaces(m) && m.edgeDim[f - |m.nodeDim|] >= 2)
  }

  /** Process r has a cell on the face and no lower process does. */
  ghost predicate OwnsFace(m: Mesh, r: nat, f: nat)
    requires |m.proc| == |m.cells|
  {
    && (exists c: nat {:trigger HasFace(m, c, f)} :: c < |m.cells| && HasFace(m, c, f) && m.proc[c] == r)
    && (forall c: nat {:trigger HasFace(m, c, f)} :: c < |m.cells| && HasFace(m, c, f) ==> r <= m.proc[c])
  }

  ghost predicate OwnsSlot(m: Mesh, r: nat, s: Slot)
    requires |m.proc| == |m.cells|
  {
    match s
    case FaceSlot(f, _) => OwnsFace(m, r, f)
    case CellSlot(c, _) => c < |m.cells| && m.proc[c] == r
  }

  lemma {:induction false} DofCountMonotone(fe: seq<Dof>, i: nat, n: nat, dim: nat, nface: nat)
    requires i <= n <= |fe|
    ensures DofCount(fe, i, dim, nface) <= DofCount(fe, n, dim, nface)
  {
    if i < n {
      DofCountMonotone(fe, i, n - 1, dim, nface);
    }
  }

  /** A face carries some k-th dof, for each k below its dof count, on every cell it bounds. */
  lemma {:induction false} NthDof(fe: seq<Dof>, n: nat, dim: nat, nface: nat, k: nat) returns (i: nat)
    requires n <= |fe| && k < DofCount(fe, n, dim, nface)
    ensures i < n && fe[i] == Dof(dim, nface) && Ordinal(fe, i) == k
  {
    if k < DofCount(fe, n - 1, dim, nface) {
      i := NthDof(fe, n - 1, dim, nface, k);
    } else {
      i := n - 1;
    }
  }

  /** A shared dof has its face on the cell and its ordinal below the face's dof count. */
  lemma SlotInFace(m: GoodMesh, c: nat, i: nat)
    requires c < |m.cells| && i < |CellDofs(m, c)|
    requires SlotOf(m, c, i).FaceSlot?
    ensures var s := SlotOf(m, c, i);
      HasFace(m, c, s.face) && s.face < NFaces(m) && CarriesDofs(m, s.face) && s.k < FaceDofs(m, s.face)
  {
    var fe := CellDofs(m, c);
    var d := fe[i];
    var cell := m.cells[c];
    assert CellOk(m, cell);
    assert UniformElement(fe, cell.dim);
    DofCountMonotone(fe, i + 1, |fe|, d.dim, d.nface);
    if d.dim == 0 {
      assert cell.nodes[d.nface] in cell.nodes;
    } else {
      assert cell.edges[d.nface] in cell.edges;
      assert SideDofs(fe, cell.dim, d.nface) == SideDofs(fe, cell.dim, 0);
    }
  }

  /** Every slot of a face is a dof of every cell on that face. */
  lemma SlotOnCell(m: GoodMesh, c: nat, f: nat, k: nat) returns (i: nat)
    requires c < |m.cells| && f < NFaces(m) && HasFace(m, c, f)
    requires CarriesDofs(m, f) && k < FaceDofs(m, f)
    ensures i < |CellDofs(m, c)| && SlotOf(m, c, i) == FaceSlot(f, k)
  {
    var cell, fe := m.cells[c], CellDofs(m, c);
    assert CellOk(m, cell);
    assert UniformElement(fe, cell.dim);
    if f < |m.nodeDim| {
      var x: nat :| x < |cell.nodes| && cell.nodes[x] == f;
      i := NthDof(fe, |fe|, 0, x, k);
    } else {
      var e := f - |m.nodeDim|;
      var x: nat :| x < |cell.edges| && cell.edges[x] == e;
      assert SideDofs(fe, cell.dim, x) == SideDofs(fe, cell.dim, 0);
      i := NthDof(fe, |fe|, cell.dim - 1, x, k);
    }
  }

  /** The cells on a face are pairwise adjacent, whether the face is a node or an edge. */
  lemma FaceMakesAdjacent(m: GoodMesh, c: nat, d: nat, f: nat)
    requires c < |m.cells| && d < |m.cells|
    requires HasFace(m, c, f) && HasFace(m, d, f)
    ensures Adjacent(m, c, d)
  {
  }

  /** Some process is the lowest one on a face that has a cell. */
  lemma {:induction false} LowestProcess(m: GoodMesh, c: nat, f: nat) returns (r: nat)
    requires c < |m.cells| && HasFace(m, c, f)
    ensures OwnsFace(m, r, f) && r <= m.proc[c]
    decreases m.proc[c]
  {
    r := m.proc[c];
    if d: nat :| d < |m.cells| && HasFace(m, d, f) && m.proc[d] < r {
      r := LowestProcess(m, d, f);
    }
  }

  lemma SlotHasOwner(m: GoodMesh, c: nat, i: nat) returns (r: nat)
    requires c < |m.cells| && i < |CellDofs(m, c)|
    ensures OwnsSlot(m, r, SlotOf(m, c, i)) && r <= m.proc[c] && r < |m.own|
  {
    if SlotOf(m, c, i).FaceSlot? {
      SlotInFace(m, c, i);
      r := LowestProcess(m, c, SlotOf(m, c, i).face);
    } else {
      r := m.proc[c];
    }
  }

  /** The process that numbers a slot. */
  ghost function Owner(m: GoodMesh, s: Slot): (r: nat)
    requires IsSlot(m, s)
    ensures OwnsSlot(m, r, s) && r < |m.own|
  {
    assert exists r: nat :: OwnsSlot(m, r, s) && r < |m.own| by {
      var c: nat, i: nat :| c < |m.cells| && i < |CellDofs(m, c)| && SlotOf(m, c, i) == s;
      var r := SlotHasOwner(m, c, i);
    }
    var r: nat :| OwnsSlot(m, r, s) && r < |m.own|;
    r
  }

  /** A slot has exactly one owner. */
  lemma OwnerUnique(m: GoodMesh, r: nat, s: Slot)
    requires IsSlot(m, s) && OwnsSlot(m, r, s)
    ensures Owner(m, s) == r
  {
    var q := Owner(m, s);
    if s.FaceSlot? {
      assert r <= q && q <= r;
    }
  }
}
