/** Gradients of the Lagrange shape functions (PolynomialSpace::basis_grad in src/fem/fe_p.cc,
    FiniteElement::shape_grad in src/fem/finite_element.cc). A partial derivative is stated without
    limits: moving the point by h in direction d adds h times a polynomial slope, and the slope at
    h = 0 is what the source computes. */
module Gradients {
  import opened RealSums
  import opened Monomials
  import opened ShapeFunctions

  // ---- powers -----------------------------------------------------------------------------

  /** (x + h)^n - x^n over h, as a polynomial. */
  function Slope(x: real, h: real, n: nat): real {
    if n == 0 then 0.0 else Pow(x + h, n - 1) + x * Slope(x, h, n - 1)
  }

  lemma {:induction false} PowMoved(x: real, h: real, n: nat)
    ensures Pow(x + h, n) == Pow(x, n) + h * Slope(x, h, n)
  {
    if n > 0 {
      PowMoved(x, h, n - 1);
      MovedStep(x, h, Pow(x + h, n - 1), Pow(x, n - 1), Slope(x, h, n - 1));
    }
  }

  lemma MovedStep(x: real, h: real, q: real, p: real, s: real)
    requires q == p + h * s
    ensures (x + h) * q == x * p + h * (q + x * s)
  {
    assert (x + h) * q == x * q + h * q;
    assert x * q == x * p + x * (h * s);
    assert x * (h * s) == h * (x * s);
    assert h * (q + x * s) == h * q + h * (x * s);
  }

  /** The slope at h = 0 is the derivative of the power. */
  lemma {:induction false} SlopeAtZero(x: real, n: nat)
    requires n > 0
    ensures Slope(x, 0.0, n) == n as real * Pow(x, n - 1)
  {
    if n > 1 {
      SlopeAtZero(x, n - 1);
      ZeroStep(x, Pow(x, n - 2), (n - 1) as real);
      assert Pow(x, n - 1) == x * Pow(x, n - 2) && x + 0.0 == x;
    }
  }

  lemma ZeroStep(x: real, p: real, n: real)
    ensures x * p + x * (n * p) == (n + 1.0) * (x * p)
  {
    assert x * (n * p) == n * (x * p);
  }

  // ---- monomials --------------------------------------------------------------------------

  /** Product of the first n factors. */
  ghost function Prod(n: nat, f: int -> real): real {
    if n == 0 then 1.0 else Prod(n - 1, f) * f(n - 1)
  }

  /** The factors with factor d replaced. */
  ghost function With(f: int -> real, d: int, x: real): int -> real {
    k => if k == d then x else f(k)
  }

  lemma {:induction false} ProdSame(n: nat, f: int -> real, g: int -> real)
    requires forall k :: 0 <= k < n ==> f(k) == g(k)
    ensures Prod(n, f) == Prod(n, g)
  {
    if n > 0 {
      ProdSame(n - 1, f, g);
    }
  }

  /** A product is linear in each factor. */
  lemma {:induction false} ProdLinear(n: nat, f: int -> real, d: nat, x: real, y: real, h: real)
    requires d < n
    ensures Prod(n, With(f, d, x + h * y)) == Prod(n, With(f, d, x)) + h * Prod(n, With(f, d, y))
  {
    var a, b, c := With(f, d, x + h * y), With(f, d, x), With(f, d, y);
    var k := n - 1;
    if d == k {
      ProdSame(k, a, b);
      ProdSame(k, a, c);
      LinearLast(Prod(k, a), Prod(k, b), Prod(k, c), x, y, h);
    } else {
      ProdLinear(k, f, d, x, y, h);
      LinearOther(Prod(k, a), Prod(k, b), Prod(k, c), h, f(k));
    }
  }

  lemma LinearLast(p: real, q: real, r: real, x: real, y: real, h: real)
    requires p == q == r
    ensures p * (x + h * y) == q * x + h * (r * y)
  {
    assert p * (x + h * y) == p * x + p * (h * y);
    assert p * (h * y) == h * (p * y);
  }

  lemma LinearOther(p: real, q: real, r: real, h: real, z: real)
    requires p == q + h * r
    ensures p * z == q * z + h * (r * z)
  {
    assert p * z == q * z + (h * r) * z;
    assert (h * r) * z == h * (r * z);
  }

  /** The powers of a monomial at a point. */
  function Factors(pows: seq<nat>, p: seq<real>): int -> real {
    k => if 0 <= k < |pows| && k < |p| then Pow(p[k], pows[k]) else 1.0
  }

  lemma {:induction false} MonomialIsProd(pows: seq<nat>, p: seq<real>, n: nat)
    requires n <= |pows|
    ensures Monomial(pows, p, n) == Prod(n, Factors(pows, p))
  {
    if n > 0 {
      MonomialIsProd(pows, p, n - 1);
    }
  }

  /** A monomial with the power of coordinate d replaced. */
  ghost function Replaced(pows: seq<nat>, p: seq<real>, d: int, x: real): real {
    Prod(|pows|, With(Factors(pows, p), d, x))
  }

  /** ... by its own power at another point, or with another exponent. */
  lemma MonomialIsReplaced(pows: seq<nat>, p: seq<real>, qows: seq<nat>, q: seq<real>, d: nat)
    requires d < |pows| == |qows| && d < |p| == |q|
    requires forall k :: 0 <= k < |p| && k != d ==> p[k] == q[k]
    requires forall k :: 0 <= k < |pows| && k != d ==> pows[k] == qows[k]
    ensures Monomial(qows, q, |qows|) == Replaced(pows, p, d, Pow(q[d], qows[d]))
  {
    MonomialIsProd(qows, q, |qows|);
    ProdSame(|pows|, Factors(qows, q), With(Factors(pows, p), d, Pow(q[d], qows[d])));
  }

  /** Component d of the gradient of a monomial: a multiple of the monomial with exponent d lowered. */
  function MonomialGrad(pows: seq<nat>, p: seq<real>, d: nat): real
    requires d < |pows|
  {
    if pows[d] == 0 then 0.0 else pows[d] as real * Monomial(pows[d := pows[d] - 1], p, |pows|)
  }

  /** Slope of a monomial in direction d. */
  ghost function MonomialSlope(pows: seq<nat>, p: seq<real>, d: nat, h: real): real
    requires d < |pows| && d < |p|
  {
    Replaced(pows, p, d, Slope(p[d], h, pows[d]))
  }

  /** Moving the point by h in direction d adds h times the slope. */
  lemma MonomialMoved(pows: seq<nat>, p: seq<real>, d: nat, h: real)
    requires d < |pows| && d < |p|
    ensures Monomial(pows, p[d := p[d] + h], |pows|) == Monomial(pows, p, |pows|) + h * MonomialSlope(pows, p, d, h)
  {
    var q := p[d := p[d] + h];
    MonomialIsReplaced(pows, p, pows, p, d);
    MonomialIsReplaced(pows, p, pows, q, d);
    PowMoved(p[d], h, pows[d]);
    ReplacedLinear(pows, p, d, Pow(q[d], pows[d]), Pow(p[d], pows[d]), Slope(p[d], h, pows[d]), h);
  }

  lemma ReplacedLinear(pows: seq<nat>, p: seq<real>, d: nat, z: real, x: real, y: real, h: real)
    requires d < |pows| && z == x + h * y
    ensures Replaced(pows, p, d, z) == Replaced(pows, p, d, x) + h * Replaced(pows, p, d, y)
  {
    ProdLinear(|pows|, Factors(pows, p), d, x, y, h);
  }

  /** The slope at h = 0 is what the source computes. */
  lemma MonomialSlopeAtZero(pows: seq<nat>, p: seq<real>, d: nat)
    requires d < |pows| && d < |p|
    ensures MonomialSlope(pows, p, d, 0.0) == MonomialGrad(pows, p, d)
  {
    var n := pows[d];
    if n == 0 {
      ReplacedScaled(pows, p, d, 0.0, 0.0, 0.0);
    } else {
      SlopeAtZero(p[d], n);
      MonomialIsReplaced(pows, p, pows[d := n - 1], p, d);
      ReplacedScaled(pows, p, d, Slope(p[d], 0.0, n), n as real, Pow(p[d], n - 1));
    }
  }

  lemma ReplacedScaled(pows: seq<nat>, p: seq<real>, d: nat, z: real, c: real, y: real)
    requires d < |pows| && z == c * y
    ensures Replaced(pows, p, d, z) == c * Replaced(pows, p, d, y)
  {
    ReplacedLinear(pows, p, d, 0.0, 0.0, 0.0, 1.0);
    ReplacedLinear(pows, p, d, z, 0.0, y, c);
  }

  /** The loops of basis_grad. */
  method BasisGrad(pows: seq<nat>, p: seq<real>) returns (grad: seq<real>)
    requires |p| == |pows|
    ensures |grad| == |pows| && forall d :: 0 <= d < |grad| ==> grad[d] == MonomialGrad(pows, p, d)
  {
    grad := [];
    while |grad| < |pows|
      invariant |grad| <= |pows| && forall d :: 0 <= d < |grad| ==> grad[d] == MonomialGrad(pows, p, d)
    {
      var v := GradComponent(pows, p, |grad|);
      grad := grad + [v];
    }
  }

  method GradComponent(pows: seq<nat>, p: seq<real>, d: nat) returns (v: real)
    requires |p| == |pows| && d < |pows|
    ensures v == MonomialGrad(pows, p, d)
  {
    v := pows[d] as real;
    if pows[d] == 0 {
      return;
    }
    ghost var lower := pows[d := pows[d] - 1];
    for k := 0 to |pows|
      invariant v == pows[d] as real * Monomial(lower, p, k)
    {
      var n := if k == d then pows[k] - 1 else pows[k];
      Associate(pows[d] as real, Monomial(lower, p, k), Pow(p[k], n));
      v := v * Pow(p[k], n);
    }
  }

  // ---- shape functions --------------------------------------------------------------------

  /** Slope in direction d, and component d of the gradient, of monomial j: again functions of a point. */
  ghost function SlopeAt(all: seq<seq<nat>>, j: int, p: seq<real>, d: nat, h: real): real {
    if 0 <= j < |all| && d < |all[j]| && d < |p| then MonomialSlope(all[j], p, d, h) else 0.0
  }

  function GradAt(all: seq<seq<nat>>, j: int, p: seq<real>, d: nat): real {
    if 0 <= j < |all| && d < |all[j]| then MonomialGrad(all[j], p, d) else 0.0
  }

  ghost function Slopes(dim: nat, degree: nat, d: nat, h: real): Space {
    var all := All(dim, degree);
    Space(|all|, 1, (j, p, c) => SlopeAt(all, j, p, d, h))
  }

  function Grads(dim: nat, degree: nat, d: nat): Space {
    var all := All(dim, degree);
    Space(|all|, 1, (j, p, c) => GradAt(all, j, p, d))
  }

  /** Component d of the gradient of shape function i. */
  ghost function ShapeGrad(dim: nat, degree: nat, node: Matrix, i: int, p: seq<real>, d: nat): real {
    ShapeValue(Grads(dim, degree, d), node, i, p, 0)
  }

  /** The loop of shape_grad, for one component. */
  method ShapeGradLoop(dim: nat, degree: nat, node: Matrix, i: nat, p: seq<real>, d: nat) returns (v: real)
    requires i < |node| && |All(dim, degree)| <= |node[i]| && d < dim == |p|
    ensures v == ShapeGrad(dim, degree, node, i, p, d)
  {
    v := ShapeValueLoop(Grads(dim, degree, d), node, i, p, 0);
  }

  /** Moving the point by h in direction d adds to a shape function h times its slope ... */
  lemma ShapeMoved(dim: nat, degree: nat, node: Matrix, i: int, p: seq<real>, d: nat, h: real)
    requires d < dim == |p|
    ensures ShapeValue(Polynomials(dim, degree), node, i, p[d := p[d] + h], 0)
      == ShapeValue(Polynomials(dim, degree), node, i, p, 0) + h * ShapeValue(Slopes(dim, degree, d, h), node, i, p, 0)
  {
    var V, S, q := Polynomials(dim, degree), Slopes(dim, degree, d, h), p[d := p[d] + h];
    forall j: nat | j < |All(dim, degree)|
      ensures TermsMove(V, S, node, i, p, q, h, j)
    {
      TermMoved(dim, degree, node, i, p, d, h, j);
    }
    ValueFollows(V, S, node, i, p, q, h);
  }

  /** From p to q, term j of the shape function grows by h times that of the slopes. */
  ghost predicate TermsMove(V: Space, S: Space, node: Matrix, i: int, p: seq<real>, q: seq<real>, h: real, j: int) {
    ShapeTerms(V, node, i, q, 0)(j) == ShapeTerms(V, node, i, p, 0)(j) + h * ShapeTerms(S, node, i, p, 0)(j)
  }

  lemma ValueFollows(V: Space, S: Space, node: Matrix, i: int, p: seq<real>, q: seq<real>, h: real)
    requires V.dim == S.dim && forall j: nat :: j < V.dim ==> TermsMove(V, S, node, i, p, q, h, j)
    ensures ShapeValue(V, node, i, q, 0) == ShapeValue(V, node, i, p, 0) + h * ShapeValue(S, node, i, p, 0)
  {
    var f, g, s := ShapeTerms(V, node, i, p, 0), ShapeTerms(V, node, i, q, 0), ShapeTerms(S, node, i, p, 0);
    forall j | 0 <= j < V.dim
      ensures g(j) == f(j) + ScaledTerms(h, s)(j)
    {
      assert TermsMove(V, S, node, i, p, q, h, j);
    }
    SumMoved(V.dim, f, g, s, h);
  }

  lemma SumMoved(n: nat, f: int -> real, g: int -> real, s: int -> real, h: real)
    requires forall j :: 0 <= j < n ==> g(j) == f(j) + ScaledTerms(h, s)(j)
    ensures SumTo(n, g) == SumTo(n, f) + h * SumTo(n, s)
  {
    SumAdd(n, f, ScaledTerms(h, s), g);
    SumScale(n, h, s, ScaledTerms(h, s));
  }

  /** ... and the slope at h = 0 is the gradient: shape_grad is the derivative of shape_value. */
  lemma ShapeSlopeAtZero(dim: nat, degree: nat, node: Matrix, i: int, p: seq<real>, d: nat)
    requires d < dim == |p|
    ensures ShapeValue(Slopes(dim, degree, d, 0.0), node, i, p, 0) == ShapeGrad(dim, degree, node, i, p, d)
  {
    var z, t := ShapeTerms(Slopes(dim, degree, d, 0.0), node, i, p, 0),
      ShapeTerms(Grads(dim, degree, d), node, i, p, 0);
    forall j | 0 <= j < |All(dim, degree)|
      ensures z(j) == t(j)
    {
      TermAtZero(dim, degree, node, i, p, d, j);
    }
    SumCong(|All(dim, degree)|, z, t);
  }

  function ScaledTerms(h: real, f: int -> real): int -> real {
    j => h * f(j)
  }

  lemma TermMoved(dim: nat, degree: nat, node: Matrix, i: int, p: seq<real>, d: nat, h: real, j: nat)
    requires d < dim == |p| && j < |All(dim, degree)|
    ensures TermsMove(Polynomials(dim, degree), Slopes(dim, degree, d, h), node, i, p, p[d := p[d] + h], h, j)
  {
    var all, q := All(dim, degree), p[d := p[d] + h];
    AllSound(dim, degree, j);
    AtMoved(all, j, p, q, d, h);
    TermFollows(Polynomials(dim, degree), Slopes(dim, degree, d, h), node, i, p, q, h, j,
                MonomialAt(all, j, q), MonomialAt(all, j, p), SlopeAt(all, j, p, d, h));
  }

  lemma AtMoved(all: seq<seq<nat>>, j: nat, p: seq<real>, q: seq<real>, d: nat, h: real)
    requires j < |all| && d < |all[j]| && d < |p| && q == p[d := p[d] + h]
    ensures MonomialAt(all, j, q) == MonomialAt(all, j, p) + h * SlopeAt(all, j, p, d, h)
  {
    MonomialMoved(all[j], p, d, h);
  }

  lemma TermFollows(V: Space, S: Space, node: Matrix, i: int, p: seq<real>, q: seq<real>, h: real, j: int, x: real,
                    y: real, z: real)
    requires V.basis(j, q, 0) == x && V.basis(j, p, 0) == y && S.basis(j, p, 0) == z && x == y + h * z
    ensures TermsMove(V, S, node, i, p, q, h, j)
  {
    var w := At(node, i, j);
    TermIs(V, node, i, q, j, x);
    TermIs(V, node, i, p, j, y);
    TermIs(S, node, i, p, j, z);
    Distribute(x, y, h, z, w);
    SameTerms(ShapeTerms(V, node, i, q, 0)(j), ShapeTerms(V, node, i, p, 0)(j), ShapeTerms(S, node, i, p, 0)(j),
              x * w, y * w, z * w, h);
  }

  lemma TermIs(V: Space, node: Matrix, i: int, p: seq<real>, j: int, x: real)
    requires V.basis(j, p, 0) == x
    ensures ShapeTerms(V, node, i, p, 0)(j) == x * At(node, i, j)
  {
  }

  lemma SameTerms(a: real, b: real, c: real, x: real, y: real, z: real, h: real)
    requires a == x && b == y && c == z && x == y + h * z
    ensures a == b + h * c
  {
  }

  lemma Distribute(z: real, y: real, h: real, s: real, w: real)
    requires z == y + h * s
    ensures z * w == y * w + h * (s * w)
  {
    assert z * w == y * w + (h * s) * w;
    assert (h * s) * w == h * (s * w);
  }

  lemma TermAtZero(dim: nat, degree: nat, node: Matrix, i: int, p: seq<real>, d: nat, j: nat)
    requires d < dim == |p| && j < |All(dim, degree)|
    ensures ShapeTerms(Slopes(dim, degree, d, 0.0), node, i, p, 0)(j)
      == ShapeTerms(Grads(dim, degree, d), node, i, p, 0)(j)
  {
    AllSound(dim, degree, j);
    MonomialSlopeAtZero(All(dim, degree)[j], p, d);
  }

  ghost function GradsAt(dim: nat, degree: nat, node: Matrix, p: seq<real>, d: nat): int -> real {
    ShapesAt(Grads(dim, degree, d), node, p, 0)
  }

  /** Interpolation by the dofs reproduces the gradient of every basis function, at every point. */
  lemma GradInterpolation(dim: nat, degree: nat, dofs: seq<NodalDof>, a: Matrix, node: Matrix, j: nat, p: seq<real>,
                          d: nat)
    requires |dofs| == |All(dim, degree)| && IsDofMatrix(a, Polynomials(dim, degree), dofs) && Inverse(a, node, |dofs|)
    requires j < |dofs| && d < dim
    ensures SumTo(|dofs|, Times(DofsOf(Polynomials(dim, degree), dofs, j), GradsAt(dim, degree, node, p, d)))
      == GradAt(All(dim, degree), j, p, d)
  {
    TimesCong(|dofs|, DofsOf(Polynomials(dim, degree), dofs, j), MatrixRow(a, j), GradsAt(dim, degree, node, p, d));
    InterpolantIsBasis(Grads(dim, degree, d), a, node, j, p, 0);
  }

  /** The gradients of the shape functions sum to zero at every point. */
  lemma GradientsSumToZero(dim: nat, degree: nat, dofs: seq<NodalDof>, a: Matrix, node: Matrix, p: seq<real>, d: nat)
    requires PointValues(dofs) && |dofs| == |All(dim, degree)| && d < dim
    requires IsDofMatrix(a, Polynomials(dim, degree), dofs) && Inverse(a, node, |dofs|)
    ensures SumTo(|dofs|, GradsAt(dim, degree, node, p, d)) == 0.0
  {
    var V, f := Polynomials(dim, degree), GradsAt(dim, degree, node, p, d);
    FirstIsZeros(dim, degree);
    GradInterpolation(dim, degree, dofs, a, node, 0, p, d);
    forall i | 0 <= i < |dofs|
      ensures f(i) == Times(DofsOf(V, dofs, 0), f)(i)
    {
      PointValueOfOne(dim, degree, dofs[i]);
    }
    SumCong(|dofs|, f, Times(DofsOf(V, dofs, 0), f));
  }
}
