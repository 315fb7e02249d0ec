/** The Lagrange element from outside (src/fem/fe_p.cc with src/fem/finite_element.cc:47-55, 117-150):
    what its shape functions are at the lattice points, and which polynomials they reproduce. */
module Lagrange {
  import opened RealSums
  import opened Monomials
  import opened ShapeFunctions

  /** The point whose coordinates are the exponents over the degree. */
  ghost predicate IsNode(p: seq<real>, e: seq<nat>, degree: nat) {
    |p| == |e| && forall j: nat :: j < |e| ==> p[j] * degree as real == e[j] as real
  }

  /** The dofs that init_dofs sets up for degree and dimension at least one. */
  ghost predicate LagrangeDofs(dim: nat, degree: nat, dofs: seq<NodalDof>) {
    && dim > 0 && degree > 0 && PointValues(dofs) && |dofs| == |All(dim, degree)|
    && forall i: nat :: i < |dofs| ==> IsLatticePoint(dofs[i].coords, All(dim, degree)[i], degree)
  }

  /** The coefficients found for these dofs: the inverse of their matrix on the polynomials. */
  ghost predicate LagrangeNode(dim: nat, degree: nat, dofs: seq<NodalDof>, a: Matrix, node: Matrix) {
    && LagrangeDofs(dim, degree, dofs)
    && IsDofMatrix(a, Polynomials(dim, degree), dofs) && Inverse(a, node, |dofs|)
  }

  lemma SameProduct(x: real, y: real, d: real)
    requires d > 0.0 && x * d == y * d
    ensures x == y
  {
  }

  /** A lattice point is evaluated at its node. */
  lemma PointIsNode(dim: nat, degree: nat, dofs: seq<NodalDof>, k: nat, p: seq<real>)
    requires LagrangeDofs(dim, degree, dofs) && k < |dofs| && IsNode(p, All(dim, degree)[k], degree)
    ensures PointOf(dofs[k]) == p
  {
    var e, q := All(dim, degree)[k], PointOf(dofs[k]);
    assert IsLatticePoint(dofs[k].coords, e, degree);
    forall j: nat | j < |e|
      ensures q[j] == p[j]
    {
      assert q[j] == dofs[k].coords[j + 1];
      SameProduct(q[j], p[j], degree as real);
    }
  }

  /** A point value of a function with one component. */
  lemma ValueAtPoint(d: NodalDof, f: Fn)
    requires d.coefs == [1.0]
    ensures Apply(d, 1, f) == f(PointOf(d), 0)
  {
    var g := DofTerms(d, f);
    assert g(0) == Coef(d, 0) * f(PointOf(d), 0);
    assert SumTo(1, g) == SumTo(0, g) + g(0);
  }

  /** Shape function i is 1 at node i and 0 at all others. */
  lemma KroneckerAtNodes(dim: nat, degree: nat, dofs: seq<NodalDof>, a: Matrix, node: Matrix, i: nat, k: nat,
                         p: seq<real>)
    requires LagrangeNode(dim, degree, dofs, a, node) && i < |dofs| && k < |dofs|
    requires IsNode(p, All(dim, degree)[k], degree)
    ensures ShapeValue(Polynomials(dim, degree), node, i, p, 0) == if i == k then 1.0 else 0.0
  {
    var V := Polynomials(dim, degree);
    Duality(V, dofs, a, node, i, k);
    PointIsNode(dim, degree, dofs, k, p);
    ValueAtPoint(dofs[k], Shape(V, node, i));
  }

  // ---- monomials --------------------------------------------------------------------------

  /** Only the first n exponents count. */
  lemma {:induction false} MonomialPrefix(e: seq<nat>, f: seq<nat>, p: seq<real>, n: nat)
    requires n <= |e| && n <= |f| && forall i :: 0 <= i < n ==> e[i] == f[i]
    ensures Monomial(e, p, n) == Monomial(f, p, n)
  {
    if n > 0 {
      MonomialPrefix(e, f, p, n - 1);
    }
  }

  /** Said by a predicate, so that proofs about products need not multiply. */
  ghost predicate IsProduct(r: real, a: real, b: real) {
    r == a * b
  }

  /** A product in which the first factor, or the second one, is raised by x. */
  lemma RaisedProduct(s: real, r: real, m: real, y: real, m': real, y': real, x: real)
    requires IsProduct(s, m, y) && IsProduct(r, m', y')
    requires (IsProduct(m', m, x) && y' == y) || (m' == m && IsProduct(y', x, y))
    ensures IsProduct(r, s, x)
  {
    if m' == m && IsProduct(y', x, y) {
      Reorder(m, x, y);
    } else {
      Associate(m, x, y);
      Associate(m, y, x);
    }
  }

  lemma MonomialStep(e: seq<nat>, p: seq<real>, n: nat)
    requires 0 < n <= |e| == |p|
    ensures IsProduct(Monomial(e, p, n), Monomial(e, p, n - 1), Pow(p[n - 1], e[n - 1]))
  {
  }

  lemma PowStep(x: real, k: nat)
    ensures IsProduct(Pow(x, k + 1), x, Pow(x, k))
  {
  }

  /** Raising one exponent multiplies the monomial by that coordinate; the empty one is 1. */
  lemma {:induction false} MonomialRaised(e: seq<nat>, j: nat, p: seq<real>, n: nat)
    requires j < n <= |e| == |p|
    ensures IsProduct(Monomial(e[j := e[j] + 1], p, n), Monomial(e, p, n), p[j])
  {
    var f := e[j := e[j] + 1];
    MonomialStep(e, p, n);
    MonomialStep(f, p, n);
    if n - 1 > j {
      MonomialRaised(e, j, p, n - 1);
    } else {
      MonomialPrefix(f, e, p, j);
      PowStep(p[j], e[j]);
    }
    RaisedProduct(Monomial(e, p, n), Monomial(f, p, n), Monomial(e, p, n - 1), Pow(p[n - 1], e[n - 1]),
                  Monomial(f, p, n - 1), Pow(p[n - 1], f[n - 1]), p[j]);
  }

  /** The exponents of a coordinate function. */
  function Unit(dim: nat, j: nat): (e: seq<nat>)
    requires j < dim
    ensures |e| == dim && forall i :: 0 <= i < dim ==> e[i] == if i == j then 1 else 0
  {
    Zeros(dim)[j := 1]
  }

  /** The monomial with exponent 1 in one coordinate is that coordinate. */
  lemma MonomialUnit(dim: nat, j: nat, p: seq<real>)
    requires j < dim && |p| == dim
    ensures Monomial(Unit(dim, j), p, dim) == p[j]
  {
    ZeroMonomial(dim, p, dim);
    MonomialRaised(Zeros(dim), j, p, dim);
  }

  lemma UnitSum(dim: nat, j: nat)
    requires j < dim
    ensures Sum(Unit(dim, j)) == 1
  {
    var e := Unit(dim, j);
    assert e == Zeros(j) + ([1] + Zeros(dim - j - 1));
    SumRaised(j, 1, Zeros(dim - j - 1));
    SumZeros(dim - j - 1);
  }

  // ---- reproduction -----------------------------------------------------------------------

  /** The values of a monomial at the nodes. */
  function AtNodes(e: seq<nat>, nodes: seq<seq<real>>): int -> real {
    i => if 0 <= i < |nodes| then Monomial(e, nodes[i], |e|) else 0.0
  }

  ghost predicate AreNodes(nodes: seq<seq<real>>, dim: nat, degree: nat) {
    |nodes| == |All(dim, degree)| && forall i: nat :: i < |nodes| ==> IsNode(nodes[i], All(dim, degree)[i], degree)
  }

  lemma DofIsValue(dim: nat, degree: nat, dofs: seq<NodalDof>, nodes: seq<seq<real>>, k: nat, i: nat)
    requires LagrangeDofs(dim, degree, dofs) && AreNodes(nodes, dim, degree) && k < |dofs| && i < |dofs|
    ensures DofsOf(Polynomials(dim, degree), dofs, k)(i) == AtNodes(All(dim, degree)[k], nodes)(i)
  {
    var V := Polynomials(dim, degree);
    PointIsNode(dim, degree, dofs, i, nodes[i]);
    ValueAtPoint(dofs[i], Basis(V, k));
  }

  /** Interpolation at the nodes reproduces every monomial of the degree, at every point. */
  lemma Reproduction(dim: nat, degree: nat, dofs: seq<NodalDof>, a: Matrix, node: Matrix, nodes: seq<seq<real>>,
                     e: seq<nat>, p: seq<real>)
    requires LagrangeNode(dim, degree, dofs, a, node) && AreNodes(nodes, dim, degree)
    requires |e| == dim && Sum(e) <= degree
    ensures SumTo(|dofs|, Times(AtNodes(e, nodes), ShapesAt(Polynomials(dim, degree), node, p, 0)))
         == Monomial(e, p, dim)
  {
    var V := Polynomials(dim, degree);
    AllComplete(dim, degree, e);
    var k: nat :| k < |All(dim, degree)| && All(dim, degree)[k] == e;
    Interpolation(V, dofs, a, node, k, p, 0);
    forall i: nat | i < |dofs|
      ensures DofsOf(V, dofs, k)(i) == AtNodes(e, nodes)(i)
    {
      DofIsValue(dim, degree, dofs, nodes, k, i);
    }
    TimesCong(|dofs|, DofsOf(V, dofs, k), AtNodes(e, nodes), ShapesAt(V, node, p, 0));
  }

  /** One exponent of all listed tuples. */
  function Exponents(all: seq<seq<nat>>, j: nat): int -> real {
    i => if 0 <= i < |all| && j < |all[i]| then all[i][j] as real else 0.0
  }

  lemma NodesFor(dim: nat, degree: nat) returns (nodes: seq<seq<real>>)
    requires degree > 0
    ensures AreNodes(nodes, dim, degree)
  {
    var all := All(dim, degree);
    nodes := seq(|all|, i requires 0 <= i < |all| => Scaled(all[i], degree));
    forall i: nat | i < |all|
      ensures IsNode(nodes[i], all[i], degree)
    {
      forall j: nat | j < |all[i]|
        ensures nodes[i][j] * degree as real == all[i][j] as real
      {
        ScaledBack(all[i], degree, j);
      }
    }
  }

  lemma CoordinateAtNode(dim: nat, degree: nat, nodes: seq<seq<real>>, j: nat, i: nat)
    requires AreNodes(nodes, dim, degree) && j < dim && i < |nodes|
    ensures Exponents(All(dim, degree), j)(i) == degree as real * AtNodes(Unit(dim, j), nodes)(i)
  {
    AllSound(dim, degree, i);
    assert IsNode(nodes[i], All(dim, degree)[i], degree);
    MonomialUnit(dim, j, nodes[i]);
  }

  ghost predicate AreMultiples(n: nat, d: real, x: int -> real, f: int -> real) {
    forall i: nat :: i < n ==> x(i) == d * f(i)
  }

  lemma CoordinatesAtNodes(dim: nat, degree: nat, nodes: seq<seq<real>>, j: nat)
    requires AreNodes(nodes, dim, degree) && j < dim
    ensures AreMultiples(|nodes|, degree as real, Exponents(All(dim, degree), j), AtNodes(Unit(dim, j), nodes))
  {
    forall i: nat | i < |nodes|
      ensures Exponents(All(dim, degree), j)(i) == degree as real * AtNodes(Unit(dim, j), nodes)(i)
    {
      CoordinateAtNode(dim, degree, nodes, j, i);
    }
  }

  lemma ScaledTerm(x: real, y: real, z: real, d: real)
    requires x == d * y
    ensures x * z == d * (y * z)
  {
  }

  lemma ScaledSum(n: nat, d: real, x: int -> real, f: int -> real, g: int -> real, s: real)
    requires AreMultiples(n, d, x, f) && SumTo(n, Times(f, g)) == s
    ensures SumTo(n, Times(x, g)) == d * s
  {
    forall i: nat | i < n
      ensures Times(x, g)(i) == d * Times(f, g)(i)
    {
      ScaledTerm(x(i), f(i), g(i), d);
    }
    SumScale(n, d, Times(f, g), Times(x, g));
  }

  lemma ScaledReproduction(dim: nat, degree: nat, nodes: seq<seq<real>>, j: nat, n: nat, g: int -> real, v: real)
    requires AreNodes(nodes, dim, degree) && j < dim && n == |nodes|
    requires SumTo(n, Times(AtNodes(Unit(dim, j), nodes), g)) == v
    ensures IsProduct(SumTo(n, Times(Exponents(All(dim, degree), j), g)), degree as real, v)
  {
    CoordinatesAtNodes(dim, degree, nodes, j);
    ScaledSum(n, degree as real, Exponents(All(dim, degree), j), AtNodes(Unit(dim, j), nodes), g, v);
  }

  lemma UnitReproduced(dim: nat, degree: nat, dofs: seq<NodalDof>, a: Matrix, node: Matrix, nodes: seq<seq<real>>,
                       j: nat, p: seq<real>)
    requires LagrangeNode(dim, degree, dofs, a, node) && AreNodes(nodes, dim, degree) && j < dim && |p| == dim
    ensures |nodes| == |dofs|
    ensures SumTo(|dofs|, Times(AtNodes(Unit(dim, j), nodes), ShapesAt(Polynomials(dim, degree), node, p, 0))) == p[j]
  {
    UnitSum(dim, j);
    Reproduction(dim, degree, dofs, a, node, nodes, Unit(dim, j), p);
    MonomialUnit(dim, j, p);
  }

  lemma ScaledUnit(dim: nat, degree: nat, dofs: seq<NodalDof>, a: Matrix, node: Matrix, j: nat, p: seq<real>)
    requires LagrangeNode(dim, degree, dofs, a, node) && j < dim && |p| == dim
    ensures IsProduct(SumTo(|dofs|, Times(Exponents(All(dim, degree), j),
                                          ShapesAt(Polynomials(dim, degree), node, p, 0))), degree as real, p[j])
  {
    var nodes := NodesFor(dim, degree);
    UnitReproduced(dim, degree, dofs, a, node, nodes, j, p);
    ScaledReproduction(dim, degree, nodes, j, |dofs|, ShapesAt(Polynomials(dim, degree), node, p, 0), p[j]);
  }

  /** The shape functions with the coordinates of their nodes give back the point. */
  lemma CoordinatesReproduced(dim: nat, degree: nat, dofs: seq<NodalDof>, a: Matrix, node: Matrix, j: nat,
                              p: seq<real>)
    requires LagrangeNode(dim, degree, dofs, a, node) && j < dim && |p| == dim
    ensures SumTo(|dofs|, Times(Exponents(All(dim, degree), j), ShapesAt(Polynomials(dim, degree), node, p, 0)))
         == degree as real * p[j]
  {
    ScaledUnit(dim, degree, dofs, a, node, j, p);
  }

  /** For degree or dimension 0 the only shape function is the constant 1. */
  lemma ConstantShape(dim: nat, degree: nat, dofs: seq<NodalDof>, a: Matrix, node: Matrix, p: seq<real>)
    requires PointValues(dofs) && |dofs| == 1 == Polynomials(dim, degree).dim
    requires IsDofMatrix(a, Polynomials(dim, degree), dofs) && Inverse(a, node, 1)
    ensures ShapeValue(Polynomials(dim, degree), node, 0, p, 0) == 1.0
  {
    var f := ShapesAt(Polynomials(dim, degree), node, p, 0);
    PartitionOfUnity(dim, degree, dofs, a, node, p);
    assert SumTo(1, f) == SumTo(0, f) + f(0);
  }

  /** The element as set up: whatever inverse of its dof matrix is found, the shape functions are 1 at
      their own node and 0 at the others; for degree or dimension 0 there is one, the constant 1. */
  method SetUp(dim: nat, degree: nat) returns (dofs: seq<NodalDof>, a: Matrix)
    ensures |dofs| == |All(dim, degree)| && IsDofMatrix(a, Polynomials(dim, degree), dofs)
    ensures dim > 0 && degree > 0 ==> LagrangeDofs(dim, degree, dofs)
    ensures dim > 0 && degree > 0 ==> forall node: Matrix, i: nat, k: nat, p: seq<real> ::
      Inverse(a, node, |dofs|) && i < |dofs| && k < |dofs| && IsNode(p, All(dim, degree)[k], degree) ==>
        ShapeValue(Polynomials(dim, degree), node, i, p, 0) == if i == k then 1.0 else 0.0
    ensures dim == 0 || degree == 0 ==> |dofs| == 1 && forall node: Matrix, p: seq<real> ::
      Inverse(a, node, 1) ==> ShapeValue(Polynomials(dim, degree), node, 0, p, 0) == 1.0
  {
    dofs := InitDofs(dim, degree);
    a := DofMatrix(Polynomials(dim, degree), dofs);
    if dim > 0 && degree > 0 {
      forall node: Matrix, i: nat, k: nat, p: seq<real> | Inverse(a, node, |dofs|) && i < |dofs| && k < |dofs|
        && IsNode(p, All(dim, degree)[k], degree)
        ensures ShapeValue(Polynomials(dim, degree), node, i, p, 0) == if i == k then 1.0 else 0.0
      {
        KroneckerAtNodes(dim, degree, dofs, a, node, i, k, p);
      }
    } else {
      forall node: Matrix, p: seq<real> | Inverse(a, node, 1)
        ensures ShapeValue(Polynomials(dim, degree), node, 0, p, 0) == 1.0
      {
        ConstantShape(dim, degree, dofs, a, node, p);
      }
    }
  }
}
