/** Dofs of one component of a finite-element system: the system's dof list is the concatenation
    of its components' lists. If every component spreads its dofs evenly over nodes and over
    sides, all cells agree on which slots belong to the component. */
module Component {
  import opened Lists
  import opened MeshModel
  import opened Sequential

  /** Element `fe` is the system of the given components, each uniform. */
  ghost predicate SystemOf(fe: seq<Dof>, parts: seq<seq<Dof>>, dim: nat) {
    fe == Flatten(parts) && forall a :: 0 <= a < |parts| ==> UniformElement(parts[a], dim)
  }

  /** Dof i of the system belongs to component a (`fe_index == component_idx`). */
  predicate InComponent(parts: seq<seq<Dof>>, a: nat, i: nat) {
    a < |parts| && Start(Lengths(parts), a) <= i < Start(Lengths(parts), a + 1)
  }

  lemma {:induction false} DofCountSplit(fe: seq<Dof>, part: seq<Dof>, off: nat, n: nat, dim: nat, x: nat)
    requires off + n <= |fe| && n <= |part| && forall i :: 0 <= i < n ==> fe[off + i] == part[i]
    ensures DofCount(fe, off + n, dim, x) == DofCount(fe, off, dim, x) + DofCount(part, n, dim, x)
  {
    if n > 0 {
      DofCountSplit(fe, part, off, n - 1, dim, x);
    }
  }

  /** The dofs of a component stand in the system from its start on. */
  lemma PartOfSystem(fe: seq<Dof>, parts: seq<seq<Dof>>, a: nat)
    requires fe == Flatten(parts) && a < |parts|
    ensures Start(Lengths(parts), a) + |parts[a]| == Start(Lengths(parts), a + 1) <= |fe|
    ensures forall i :: 0 <= i < |parts[a]| ==> fe[Start(Lengths(parts), a) + i] == parts[a][i]
  {
    FlattenBlock(parts, a);
    var off, part := Start(Lengths(parts), a), parts[a];
    forall i | 0 <= i < |part|
      ensures fe[off + i] == part[i]
    {
      assert fe[off..off + |part|][i] == part[i];
    }
  }

  /** A uniform element has as many dofs on one node (side) as on another. */
  lemma UniformCounts(part: seq<Dof>, dim: nat, dd: nat, x: nat, y: nat)
    requires UniformElement(part, dim) && x <= dim && y <= dim && (dd == 0 || (dim >= 2 && dd == dim - 1))
    ensures DofCount(part, |part|, dd, x) == DofCount(part, |part|, dd, y)
  {
    if dd != 0 {
      assert SideDofs(part, dim, x) == SideDofs(part, dim, y);
    }
  }

  /** Up to the end of any component, all nodes (sides) have the same number of dofs. */
  lemma {:induction false} EvenAtBoundary(fe: seq<Dof>, parts: seq<seq<Dof>>, dim: nat, dd: nat, a: nat, x: nat, y: nat)
    requires SystemOf(fe, parts, dim) && a <= |parts| && x <= dim && y <= dim
    requires dd == 0 || (dim >= 2 && dd == dim - 1)
    ensures Start(Lengths(parts), a) <= |fe|
    ensures DofCount(fe, Start(Lengths(parts), a), dd, x) == DofCount(fe, Start(Lengths(parts), a), dd, y)
  {
    if a > 0 {
      EvenAtBoundary(fe, parts, dim, dd, a - 1, x, y);
      var off, part := Start(Lengths(parts), a - 1), parts[a - 1];
      PartOfSystem(fe, parts, a - 1);
      DofCountSplit(fe, part, off, |part|, dd, x);
      DofCountSplit(fe, part, off, |part|, dd, y);
      UniformCounts(part, dim, dd, x, y);
    }
  }

  /** Dofs with the same ordinal on faces of the same kind lie in the same component. */
  lemma SameComponent(fe: seq<Dof>, parts: seq<seq<Dof>>, dim: nat, i: nat, j: nat, a: nat)
    requires SystemOf(fe, parts, dim) && i < |fe| && j < |fe| && fe[i].dim == fe[j].dim
    requires fe[i].nface <= dim && fe[j].nface <= dim
    requires fe[i].dim == 0 || (dim >= 2 && fe[i].dim == dim - 1)
    requires Ordinal(fe, i) == Ordinal(fe, j) && InComponent(parts, a, i)
    ensures InComponent(parts, a, j)
  {
    var dd, x, y := fe[i].dim, fe[i].nface, fe[j].nface;
    var lo, hi := Start(Lengths(parts), a), Start(Lengths(parts), a + 1);
    EvenAtBoundary(fe, parts, dim, dd, a, x, y);
    EvenAtBoundary(fe, parts, dim, dd, a + 1, x, y);
    DofCountMonotone(fe, lo, i, dd, x);
    DofCountMonotone(fe, i + 1, hi, dd, x);
    if j < lo {
      DofCountMonotone(fe, j + 1, lo, dd, y);
    } else if hi <= j {
      DofCountMonotone(fe, hi, j, dd, y);
    }
  }

  /** `parts[d]` are the components of the element of dimension d. */
  ghost predicate Systems(m: Mesh, parts: seq<seq<seq<Dof>>>) {
    |parts| == |m.fe| && forall d :: 0 <= d < |m.fe| ==> SystemOf(m.fe[d], parts[d], d)
  }

  /** All cells agree on which slots belong to component a. */
  lemma SlotComponent(m: GoodMesh, parts: seq<seq<seq<Dof>>>, a: nat, c: nat, i: nat, d: nat, j: nat)
    requires Systems(m, parts)
    requires c < |m.cells| && i < |CellDofs(m, c)| && d < |m.cells| && j < |CellDofs(m, d)|
    requires SlotOf(m, c, i) == SlotOf(m, d, j)
    requires InComponent(parts[m.cells[c].dim], a, i)
    ensures InComponent(parts[m.cells[d].dim], a, j)
  {
    if SlotOf(m, c, i).FaceSlot? {
      SlotInFace(m, c, i);
      SlotInFace(m, d, j);
      assert CellOk(m, m.cells[c]) && CellOk(m, m.cells[d]);
      var dim := m.cells[c].dim;
      assert dim == m.cells[d].dim;
      var fe := m.fe[dim];
      assert UniformElement(fe, dim);
      assert fe[i].dim == fe[j].dim;
      SameComponent(fe, parts[dim], dim, i, j, a);
    }
  }
}
