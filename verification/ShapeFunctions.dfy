/** Shape functions of a finite element (src/fem/finite_element.cc): linear combinations of the
    basis of a function space with the inverse of the dof matrix as coefficients; and the
    Lagrange element of any degree (src/fem/fe_p.cc). */
module ShapeFunctions {
  import opened RealSums
  import opened Monomials

  /** A dof of type Value: a combination of the function's components at a point, given by
      barycentric coordinates. */
  datatype NodalDof = NodalDof(coords: seq<real>, coefs: seq<real>)

  /** Component c of a function at point p is `f(p, c)`. */
  type Fn = (seq<real>, int) -> real

  /** `basis(j, p, c)` is component c of basis function j at point p. */
  datatype Space = Space(dim: nat, nComp: nat, basis: (int, seq<real>, int) -> real)

  type Matrix = seq<seq<real>>

  predicate IsMatrix(a: Matrix, n: nat, m: nat) {
    |a| == n && forall i :: 0 <= i < n ==> |a[i]| == m
  }

  function At(a: Matrix, i: int, j: int): real {
    if 0 <= i < |a| && 0 <= j < |a[i]| then a[i][j] else 0.0
  }

  function Delta(i: int, j: int): real {
    if i == j then 1.0 else 0.0
  }

  function MatrixRow(a: Matrix, i: int): int -> real {
    j => At(a, i, j)
  }

  function MatrixColumn(a: Matrix, j: int): int -> real {
    i => At(a, i, j)
  }

  /** Terms of entry (i, k) of a product of matrices. */
  function ProductTerms(a: Matrix, b: Matrix, i: int, k: int): int -> real {
    Times(MatrixRow(a, i), MatrixColumn(b, k))
  }

  ghost predicate IsProductOne(a: Matrix, b: Matrix, n: nat) {
    forall i, k :: 0 <= i < n && 0 <= k < n ==> SumTo(n, ProductTerms(a, b, i, k)) == Delta(i, k)
  }

  /** Two-sided inverse, as returned by the matrix library. */
  ghost predicate Inverse(a: Matrix, b: Matrix, n: nat) {
    IsMatrix(a, n, n) && IsMatrix(b, n, n) && IsProductOne(a, b, n) && IsProductOne(b, a, n)
  }

  // ---- dofs and shape functions -----------------------------------------------------------

  function Coef(d: NodalDof, c: int): real {
    if 0 <= c < |d.coefs| then d.coefs[c] else 0.0
  }

  /** The point without its 0-th barycentric coordinate. */
  function PointOf(d: NodalDof): seq<real> {
    if |d.coords| == 0 then [] else d.coords[1..]
  }

  function CoefsOf(d: NodalDof): int -> real {
    c => Coef(d, c)
  }

  /** The components of a function at a point. */
  function ValuesAt(f: Fn, p: seq<real>): int -> real {
    c => f(p, c)
  }

  function DofTerms(d: NodalDof, f: Fn): int -> real {
    Times(CoefsOf(d), ValuesAt(f, PointOf(d)))
  }

  /** Value of a dof at any function. */
  ghost function Apply(d: NodalDof, nComp: nat, f: Fn): real {
    SumTo(nComp, DofTerms(d, f))
  }

  function Basis(V: Space, j: int): Fn {
    (p, c) => V.basis(j, p, c)
  }

  ghost function Evaluate(d: NodalDof, V: Space, j: int): real {
    Apply(d, V.nComp, Basis(V, j))
  }

  /** Entry (j, i) of the dof matrix is dof i of basis function j. */
  ghost predicate IsDofMatrix(a: Matrix, V: Space, dofs: seq<NodalDof>) {
    && IsMatrix(a, |dofs|, |dofs|)
    && forall i, j :: 0 <= i < |dofs| && 0 <= j < |dofs| ==> At(a, j, i) == Evaluate(dofs[i], V, j)
  }

  /** One component of the basis functions at a point. */
  function BasisAt(V: Space, p: seq<real>, c: int): int -> real {
    j => V.basis(j, p, c)
  }

  function ShapeTerms(V: Space, node: Matrix, i: int, p: seq<real>, c: int): int -> real {
    Times(BasisAt(V, p, c), MatrixRow(node, i))
  }

  ghost function ShapeValue(V: Space, node: Matrix, i: int, p: seq<real>, c: int): real {
    SumTo(V.dim, ShapeTerms(V, node, i, p, c))
  }

  ghost function Shape(V: Space, node: Matrix, i: int): Fn {
    (p, c) => ShapeValue(V, node, i, p, c)
  }

  function DualTerms(V: Space, node: Matrix, d: NodalDof, i: int): (int, int) -> real {
    (c, j) => Coef(d, c) * V.basis(j, PointOf(d), c) * At(node, i, j)
  }

  ghost function ApplyTerms(V: Space, node: Matrix, d: NodalDof, i: int): int -> real {
    j => Evaluate(d, V, j) * At(node, i, j)
  }

  lemma DualRow(V: Space, node: Matrix, d: NodalDof, i: int, c: int)
    ensures DofTerms(d, Shape(V, node, i))(c) == RowSum(DualTerms(V, node, d, i), V.dim)(c)
  {
    var f, h := ShapeTerms(V, node, i, PointOf(d), c), Row(DualTerms(V, node, d, i), c);
    forall j | 0 <= j < V.dim
      ensures h(j) == Coef(d, c) * f(j)
    {
      DualEntry(V, node, d, i, c, j);
    }
    SumScale(V.dim, Coef(d, c), f, h);
  }

  lemma DualEntry(V: Space, node: Matrix, d: NodalDof, i: int, c: int, j: int)
    ensures Row(DualTerms(V, node, d, i), c)(j) == Coef(d, c) * ShapeTerms(V, node, i, PointOf(d), c)(j)
  {
    Associate(Coef(d, c), V.basis(j, PointOf(d), c), At(node, i, j));
  }

  lemma DualColumn(V: Space, node: Matrix, d: NodalDof, i: int, j: int)
    ensures ColumnSum(DualTerms(V, node, d, i), V.nComp)(j) == ApplyTerms(V, node, d, i)(j)
  {
    SumScale(V.nComp, At(node, i, j), DofTerms(d, Basis(V, j)), Column(DualTerms(V, node, d, i), j));
  }

  /** A dof of shape function i, by linearity. */
  lemma ApplyShape(V: Space, node: Matrix, d: NodalDof, i: int)
    ensures Apply(d, V.nComp, Shape(V, node, i)) == SumTo(V.dim, ApplyTerms(V, node, d, i))
  {
    var a := DualTerms(V, node, d, i);
    forall c | 0 <= c < V.nComp
      ensures DofTerms(d, Shape(V, node, i))(c) == RowSum(a, V.dim)(c)
    {
      DualRow(V, node, d, i, c);
    }
    SumCong(V.nComp, DofTerms(d, Shape(V, node, i)), RowSum(a, V.dim));
    SumSwap(V.nComp, V.dim, a);
    forall j | 0 <= j < V.dim
      ensures ColumnSum(a, V.nComp)(j) == ApplyTerms(V, node, d, i)(j)
    {
      DualColumn(V, node, d, i, j);
    }
    SumCong(V.dim, ColumnSum(a, V.nComp), ApplyTerms(V, node, d, i));
  }

  /** The shape functions are dual to the dofs: dof k of shape function i is 1 if i = k, else 0. */
  lemma Duality(V: Space, dofs: seq<NodalDof>, a: Matrix, node: Matrix, i: nat, k: nat)
    requires V.dim == |dofs| && IsDofMatrix(a, V, dofs) && Inverse(a, node, |dofs|)
    requires i < |dofs| && k < |dofs|
    ensures Apply(dofs[k], V.nComp, Shape(V, node, i)) == Delta(i, k)
  {
    ApplyShape(V, node, dofs[k], i);
    SumCong(|dofs|, ApplyTerms(V, node, dofs[k], i), ProductTerms(node, a, i, k));
  }

  function InterpolationTerms(V: Space, a: Matrix, node: Matrix, j: int, p: seq<real>, c: int): (int, int) -> real {
    (i, l) => At(a, j, i) * (V.basis(l, p, c) * At(node, i, l))
  }

  ghost function Interpolant(V: Space, a: Matrix, node: Matrix, j: int, p: seq<real>, c: int): int -> real {
    Times(MatrixRow(a, j), ShapesAt(V, node, p, c))
  }

  lemma InterpolantByRows(V: Space, a: Matrix, node: Matrix, j: int, p: seq<real>, c: int)
    ensures SumTo(V.dim, Interpolant(V, a, node, j, p, c))
         == SumTo(V.dim, RowSum(InterpolationTerms(V, a, node, j, p, c), V.dim))
  {
    var t := InterpolationTerms(V, a, node, j, p, c);
    forall i | 0 <= i < V.dim
      ensures Interpolant(V, a, node, j, p, c)(i) == RowSum(t, V.dim)(i)
    {
      SumScale(V.dim, At(a, j, i), ShapeTerms(V, node, i, p, c), Row(t, i));
    }
    SumCong(V.dim, Interpolant(V, a, node, j, p, c), RowSum(t, V.dim));
  }

  lemma InterpolantColumn(V: Space, a: Matrix, node: Matrix, j: int, p: seq<real>, c: int, l: int)
    ensures SumTo(V.dim, Column(InterpolationTerms(V, a, node, j, p, c), l))
         == V.basis(l, p, c) * SumTo(V.dim, ProductTerms(a, node, j, l))
  {
    var g, h, b := ProductTerms(a, node, j, l), Column(InterpolationTerms(V, a, node, j, p, c), l), V.basis(l, p, c);
    forall i | 0 <= i < V.dim
      ensures h(i) == b * g(i)
    {
      Reorder(At(a, j, i), b, At(node, i, l));
    }
    SumScale(V.dim, b, g, h);
  }

  lemma Associate(x: real, y: real, z: real)
    ensures x * y * z == x * (y * z)
  {
  }

  lemma Reorder(x: real, y: real, z: real)
    ensures x * (y * z) == y * (x * z)
  {
  }

  lemma ColumnIsDelta(V: Space, a: Matrix, node: Matrix, j: nat, p: seq<real>, c: int, l: nat)
    requires IsProductOne(a, node, V.dim) && j < V.dim && l < V.dim
    ensures ColumnSum(InterpolationTerms(V, a, node, j, p, c), V.dim)(l) == V.basis(l, p, c) * Delta(j, l)
  {
    InterpolantColumn(V, a, node, j, p, c, l);
    assert SumTo(V.dim, ProductTerms(a, node, j, l)) == Delta(j, l);
  }

  lemma InterpolantIsBasis(V: Space, a: Matrix, node: Matrix, j: nat, p: seq<real>, c: int)
    requires IsProductOne(a, node, V.dim) && j < V.dim
    ensures SumTo(V.dim, Interpolant(V, a, node, j, p, c)) == V.basis(j, p, c)
  {
    var t := InterpolationTerms(V, a, node, j, p, c);
    InterpolantByRows(V, a, node, j, p, c);
    SumSwap(V.dim, V.dim, t);
    var g := ColumnSum(t, V.dim);
    forall l: nat | l < V.dim
      ensures g(l) == if l == j then V.basis(j, p, c) else 0.0
    {
      ColumnIsDelta(V, a, node, j, p, c, l);
    }
    SumOne(V.dim, g, j);
  }

  /** The dofs of basis function j, and the shape functions at a point. */
  ghost function DofsOf(V: Space, dofs: seq<NodalDof>, j: int): int -> real {
    i => if 0 <= i < |dofs| then Evaluate(dofs[i], V, j) else 0.0
  }

  ghost function ShapesAt(V: Space, node: Matrix, p: seq<real>, c: int): int -> real {
    i => ShapeValue(V, node, i, p, c)
  }

  /** Interpolation by the dofs reproduces every basis function, at every point. */
  lemma Interpolation(V: Space, dofs: seq<NodalDof>, a: Matrix, node: Matrix, j: nat, p: seq<real>, c: int)
    requires V.dim == |dofs| && IsDofMatrix(a, V, dofs) && Inverse(a, node, |dofs|) && j < |dofs|
    ensures SumTo(|dofs|, Times(DofsOf(V, dofs, j), ShapesAt(V, node, p, c))) == V.basis(j, p, c)
  {
    TimesCong(|dofs|, DofsOf(V, dofs, j), MatrixRow(a, j), ShapesAt(V, node, p, c));
    InterpolantIsBasis(V, a, node, j, p, c);
  }

  // ---- the loops of the source ------------------------------------------------------------

  /** The coordinates of p are the barycentric ones after the first. */
  ghost predicate AfterFirst(coords: seq<real>, p: seq<real>) {
    |coords| == |p| + 1 && forall k: nat :: k < |p| ==> p[k] == coords[k + 1]
  }

  /** Coefficients times the components of a basis function at a point. */
  function Combination(coefs: seq<real>, V: Space, j: int, p: seq<real>): int -> real {
    c => if 0 <= c < |coefs| then coefs[c] * V.basis(j, p, c) else 0.0
  }

  lemma EvaluateIs(d: NodalDof, V: Space, j: int, p: seq<real>)
    requires |d.coefs| == V.nComp && AfterFirst(d.coords, p)
    ensures Evaluate(d, V, j) == SumTo(V.nComp, Combination(d.coefs, V, j, p))
  {
    assert PointOf(d) == p;
    forall c | 0 <= c < V.nComp
      ensures DofTerms(d, Basis(V, j))(c) == Combination(d.coefs, V, j, p)(c)
    {
      assert Coef(d, c) == d.coefs[c] && Basis(V, j)(p, c) == V.basis(j, p, c);
    }
    SumCong(V.nComp, DofTerms(d, Basis(V, j)), Combination(d.coefs, V, j, p));
  }

  method EvaluateDof(d: NodalDof, V: Space, j: nat) returns (v: real)
    requires |d.coefs| == V.nComp
    ensures v == Evaluate(d, V, j)
    ensures forall p: seq<real> :: AfterFirst(d.coords, p) ==> v == SumTo(V.nComp, Combination(d.coefs, V, j, p))
  {
    forall p: seq<real> | AfterFirst(d.coords, p)
      ensures Evaluate(d, V, j) == SumTo(V.nComp, Combination(d.coefs, V, j, p))
    {
      EvaluateIs(d, V, j, p);
    }
    v := 0.0;
    var c := 0;
    while c < V.nComp
      invariant c <= V.nComp && v == SumTo(c, DofTerms(d, Basis(V, j)))
    {
      var value := V.basis(j, PointOf(d), c);
      assert Basis(V, j)(PointOf(d), c) == value && Coef(d, c) == d.coefs[c];
      v := v + d.coefs[c] * value;
      c := c + 1;
    }
  }

  /** The dof matrix: column i holds dof i of all basis functions. */
  method DofMatrix(V: Space, dofs: seq<NodalDof>) returns (a: Matrix)
    requires forall i :: 0 <= i < |dofs| ==> |dofs[i].coefs| == V.nComp
    ensures IsDofMatrix(a, V, dofs)
  {
    var n := |dofs|;
    a := seq(n, _ => seq(n, _ => 0.0));
    var i := 0;
    while i < n
      invariant i <= n && IsMatrix(a, n, n)
      invariant forall x, y :: 0 <= x < i && 0 <= y < n ==> At(a, y, x) == Evaluate(dofs[x], V, y)
    {
      var j := 0;
      while j < n
        invariant j <= n && IsMatrix(a, n, n)
        invariant forall x, y :: 0 <= x < n && 0 <= y < n && (x < i || (x == i && y < j)) ==>
          At(a, y, x) == Evaluate(dofs[x], V, y)
      {
        var v := EvaluateDof(dofs[i], V, j);
        a := a[j := a[j][i := v]];
        j := j + 1;
      }
      i := i + 1;
    }
  }

  method ShapeValueLoop(V: Space, node: Matrix, i: nat, p: seq<real>, c: nat) returns (value: real)
    requires i < |node| && V.dim <= |node[i]|
    ensures value == ShapeValue(V, node, i, p, c)
  {
    value := 0.0;
    var j := 0;
    while j < V.dim
      invariant j <= V.dim && value == SumTo(j, ShapeTerms(V, node, i, p, c))
    {
      value := value + V.basis(j, p, c) * node[i][j];
      j := j + 1;
    }
  }

  // ---- Lagrange elements ------------------------------------------------------------------

  function Pow(x: real, n: nat): real {
    if n == 0 then 1.0 else x * Pow(x, n - 1)
  }

  /** Product of the first n powers of the monomial with the given exponents. */
  function Monomial(pows: seq<nat>, p: seq<real>, n: nat): real
    requires n <= |pows|
  {
    if n == 0 then 1.0
    else Monomial(pows, p, n - 1) * (if n - 1 < |p| then Pow(p[n - 1], pows[n - 1]) else 1.0)
  }

  function MonomialAt(all: seq<seq<nat>>, j: int, p: seq<real>): real {
    if 0 <= j < |all| then Monomial(all[j], p, |all[j]|) else 0.0
  }

  /** The polynomials of the given degree, with the monomials in the order of the source. */
  function Polynomials(dim: nat, degree: nat): (V: Space) {
    var all := All(dim, degree);
    Space(|all|, 1, (j, p, c) => MonomialAt(all, j, p))
  }

  method BasisValue(pows: seq<nat>, p: seq<real>) returns (v: real)
    requires |p| == |pows|
    ensures v == Monomial(pows, p, |pows|)
  {
    v := 1.0;
    var j := 0;
    while j < |pows|
      invariant j <= |pows| && v == Monomial(pows, p, j)
    {
      v := v * Pow(p[j], pows[j]);
      j := j + 1;
    }
  }

  lemma {:induction false} ZeroMonomial(n: nat, p: seq<real>, k: nat)
    requires k <= n
    ensures Monomial(Zeros(n), p, k) == 1.0
  {
    if k > 0 {
      ZeroMonomial(n, p, k - 1);
    }
  }

  /** The first monomial is the constant 1. */
  lemma FirstIsOne(dim: nat, degree: nat, p: seq<real>)
    ensures Polynomials(dim, degree).dim > 0 && Polynomials(dim, degree).basis(0, p, 0) == 1.0
  {
    FirstIsZeros(dim, degree);
    ZeroMonomial(dim, p, dim);
  }

  /** Dofs of the Lagrange element: point values. */
  ghost predicate PointValues(dofs: seq<NodalDof>) {
    forall i :: 0 <= i < |dofs| ==> dofs[i].coefs == [1.0]
  }

  function Scaled(ubc: seq<nat>, degree: nat): (coords: seq<real>)
    requires degree > 0
    ensures |coords| == |ubc|
  {
    seq(|ubc|, j requires 0 <= j < |ubc| => ubc[j] as real / degree as real)
  }

  /** The lattice point of a monomial: its exponents over the degree, completed by coordinate 0. */
  ghost predicate IsLatticePoint(coords: seq<real>, p: seq<nat>, degree: nat) {
    && |coords| == |p| + 1
    && coords[0] * degree as real == degree as real - Sum(p) as real
    && forall k: nat :: k < |p| ==> coords[k + 1] * degree as real == p[k] as real
  }

  lemma DivideBack(x: real, d: real)
    requires d != 0.0
    ensures x / d * d == x
  {
  }

  lemma ScaledBack(ubc: seq<nat>, degree: nat, k: nat)
    requires degree > 0 && k < |ubc|
    ensures Scaled(ubc, degree)[k] * degree as real == ubc[k] as real
  {
    var x, d := ubc[k] as real, degree as real;
    assert Scaled(ubc, degree)[k] == x / d;
    DivideBack(x, d);
  }

  lemma ScaledIsLatticePoint(ubc: seq<nat>, p: seq<nat>, degree: nat)
    requires degree > 0 && Completes(ubc, p, degree)
    ensures IsLatticePoint(Scaled(ubc, degree), p, degree)
  {
    var coords := Scaled(ubc, degree);
    forall k: nat | k < |ubc|
      ensures coords[k] * degree as real == ubc[k] as real
    {
      ScaledBack(ubc, degree, k);
    }
    CoordsOfPoint(coords, ubc, p, degree);
  }

  lemma CoordsOfPoint(coords: seq<real>, ubc: seq<nat>, p: seq<nat>, degree: nat)
    requires Completes(ubc, p, degree) && |coords| == |ubc|
    requires forall k: nat :: k < |ubc| ==> coords[k] * degree as real == ubc[k] as real
    ensures IsLatticePoint(coords, p, degree)
  {
    forall k: nat | k < |p|
      ensures coords[k + 1] * degree as real == p[k] as real
    {
      assert ubc[1..][k] == ubc[k + 1];
    }
  }

  function Centre(dim: nat): (coords: seq<real>) {
    seq(dim + 1, _ => 1.0 / (dim as real + 1.0))
  }

  /** All barycentric coordinates are equal and sum to 1. */
  ghost predicate IsCentre(coords: seq<real>, dim: nat) {
    && |coords| == dim + 1
    && (forall k :: 0 <= k < |coords| ==> coords[k] == coords[0])
    && SumTo(|coords|, Entries(coords)) == 1.0
  }

  function Entries(s: seq<real>): int -> real {
    i => if 0 <= i < |s| then s[i] else 0.0
  }

  lemma {:induction false} EqualEntries(s: seq<real>, n: nat, v: real)
    requires n <= |s| && forall k :: 0 <= k < |s| ==> s[k] == v
    ensures SumTo(n, Entries(s)) == n as real * v
  {
    if n > 0 {
      EqualEntries(s, n - 1, v);
      OneMoreTime(n - 1, v);
    }
  }

  lemma OneMoreTime(n: nat, v: real)
    ensures n as real * v + v == (n + 1) as real * v
  {
  }

  lemma CentreIsCentre(dim: nat)
    ensures IsCentre(Centre(dim), dim)
  {
    var v := 1.0 / (dim as real + 1.0);
    EqualEntries(Centre(dim), dim + 1, v);
    DivideBack(1.0, dim as real + 1.0);
  }

  /** The dofs of FE_P: the centre for degree or dimension 0, otherwise one point per monomial;
      always as many as there are basis functions. */
  method InitDofs(dim: nat, degree: nat) returns (dofs: seq<NodalDof>)
    ensures PointValues(dofs) && |dofs| == Polynomials(dim, degree).dim
    ensures degree == 0 || dim == 0 ==> |dofs| == 1 && IsCentre(dofs[0].coords, dim)
    ensures degree > 0 && dim > 0 ==>
      forall i :: 0 <= i < |dofs| ==> IsLatticePoint(dofs[i].coords, All(dim, degree)[i], degree)
  {
    if degree == 0 || dim == 0 {
      dofs := [NodalDof(Centre(dim), [1.0])];
      SingleMonomial(dim, degree);
      CentreIsCentre(dim);
    } else {
      ghost var all := All(dim, degree);
      var points := SupportPoints(degree, dim);
      dofs := [];
      var i := 0;
      while i < |points|
        invariant i <= |points| && |dofs| == i && PointValues(dofs)
        invariant forall x :: 0 <= x < i ==> IsLatticePoint(dofs[x].coords, all[x], degree)
      {
        ScaledIsLatticePoint(points[i], all[i], degree);
        dofs := dofs + [NodalDof(Scaled(points[i], degree), [1.0])];
        i := i + 1;
      }
    }
  }

  lemma SingleMonomial(dim: nat, degree: nat)
    requires degree == 0 || dim == 0
    ensures |All(dim, degree)| == 1
  {
    AllCount(dim, degree);
    if dim > 0 {
      BinomialTop(dim, dim);
    }
  }

  /** A point value of the constant 1 is 1. */
  lemma PointValueOfOne(dim: nat, degree: nat, d: NodalDof)
    requires d.coefs == [1.0]
    ensures Evaluate(d, Polynomials(dim, degree), 0) == 1.0
  {
    var V := Polynomials(dim, degree);
    FirstIsOne(dim, degree, PointOf(d));
    var g := DofTerms(d, Basis(V, 0));
    assert g(0) == Coef(d, 0) * V.basis(0, PointOf(d), 0);
    assert SumTo(1, g) == SumTo(0, g) + g(0);
  }

  /** The shape functions of the Lagrange element of any degree and dimension sum to 1 at every
      point. */
  lemma PartitionOfUnity(dim: nat, degree: nat, dofs: seq<NodalDof>, a: Matrix, node: Matrix, p: seq<real>)
    requires PointValues(dofs) && |dofs| == Polynomials(dim, degree).dim
    requires IsDofMatrix(a, Polynomials(dim, degree), dofs) && Inverse(a, node, |dofs|)
    ensures SumTo(|dofs|, ShapesAt(Polynomials(dim, degree), node, p, 0)) == 1.0
  {
    var V := Polynomials(dim, degree);
    FirstIsOne(dim, degree, p);
    InterpolantIsBasis(V, a, node, 0, p, 0);
    forall i | 0 <= i < |dofs|
      ensures At(a, 0, i) == 1.0
    {
      PointValueOfOne(dim, degree, dofs[i]);
      assert At(a, 0, i) == Evaluate(dofs[i], V, 0);
    }
    SumCong(|dofs|, ShapesAt(V, node, p, 0), Times(MatrixRow(a, 0), ShapesAt(V, node, p, 0)));
  }
}
