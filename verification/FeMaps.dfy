/** How the kinds of elements map reference values to space (FEValues::fill_scalar_data to
    fill_tensor_data in src/fem/fe_values.cc): unchanged for scalars, vectors and tensors, by the
    Jacobian for contravariant vectors, and divided by its determinant for the Piola kind. */
module FeMaps {
  import opened Lists
  import opened RealSums
  import opened ShapeFunctions
  import opened ElementSystem
  import opened FeValues

  /** Jacobian of the cell and its determinant, at each point. */
  datatype Geometry = Geometry(jacobian: nat -> Matrix, determinant: nat -> real)

  /** A cell that is not degenerate. */
  type GoodGeometry = g: Geometry | forall i: nat :: g.determinant(i) != 0.0
    ghost witness Geometry(_ => [], _ => 1.0)

  /** Component c of matrix times vector, over the first n entries. */
  function Product(a: Matrix, v: seq<real>, c: int, n: nat): real {
    if n == 0 then 0.0 else Product(a, v, c, n - 1) + At(a, c, n - 1) * Read(v, n - 1)
  }

  /** Component c of the mapped value v at point i. */
  function Mapped(kind: Kind, g: GoodGeometry, i: nat, v: seq<real>, c: int): real {
    match kind
    case VectorContravariant => Product(g.jacobian(i), v, c, |v|)
    case VectorPiola => Product(g.jacobian(i), v, c, |v|) / g.determinant(i)
    case _ => Read(v, c)
  }

  function KindMap(kind: Kind, spacedim: nat, g: GoodGeometry): Mapping {
    (i: nat, v: seq<real>) => seq(SpaceComponents(kind, spacedim), c => Mapped(kind, g, i, v, c))
  }

  /** Terms of a row of a matrix times a vector. */
  function RowTerms(row: seq<real>, v: seq<real>): int -> real {
    k => if 0 <= k < |row| && k < |v| then row[k] * v[k] else 0.0
  }

  lemma {:induction false} ProductIsRow(a: Matrix, v: seq<real>, c: nat, n: nat)
    requires c < |a| && |a[c]| == |v| && n <= |v|
    ensures Product(a, v, c, n) == SumTo(n, RowTerms(a[c], v))
  {
    if n > 0 {
      ProductIsRow(a, v, c, n - 1);
      assert At(a, c, n - 1) * Read(v, n - 1) == RowTerms(a[c], v)(n - 1);
    }
  }

  /** A contravariant or Piola vector has one entry per row of the Jacobian: that row times the reference
      vector, for the Piola kind over the determinant. */
  lemma MappedByRows(kind: Kind, spacedim: nat, g: GoodGeometry, i: nat, v: seq<real>)
    requires (kind.VectorContravariant? || kind.VectorPiola?) && IsMatrix(g.jacobian(i), spacedim, |v|)
    ensures |KindMap(kind, spacedim, g)(i, v)| == |g.jacobian(i)|
    ensures forall c: nat :: c < |g.jacobian(i)| ==>
      var s := SumTo(|v|, RowTerms(g.jacobian(i)[c], v));
      KindMap(kind, spacedim, g)(i, v)[c] == if kind.VectorPiola? then s / g.determinant(i) else s
  {
    forall c: nat | c < |g.jacobian(i)|
      ensures Product(g.jacobian(i), v, c, |v|) == SumTo(|v|, RowTerms(g.jacobian(i)[c], v))
    {
      ProductIsRow(g.jacobian(i), v, c, |v|);
    }
  }

  /** A scalar, a vector with one entry per dimension and a tensor with one per pair of dimensions are
      unchanged. */
  lemma MappedUnchanged(kind: Kind, spacedim: nat, g: GoodGeometry, i: nat, v: seq<real>)
    requires match kind
             case Scalar => |v| == 1
             case Vector => |v| == spacedim
             case Tensor => |v| == spacedim * spacedim
             case _ => false
    ensures KindMap(kind, spacedim, g)(i, v) == v
  {
    var w := KindMap(kind, spacedim, g)(i, v);
    assert |w| == |v| && forall c :: 0 <= c < |v| ==> w[c] == v[c];
  }

  function KindMaps(fe: seq<Element>, spacedim: nat, g: GoodGeometry): (maps: seq<Mapping>)
    ensures |maps| == |fe| && forall f :: 0 <= f < |fe| ==> maps[f] == KindMap(fe[f].kind, spacedim, g)
    ensures MapsOk(fe, spacedim, maps)
  {
    seq(|fe|, f requires 0 <= f < |fe| => KindMap(fe[f].kind, spacedim, g))
  }

  /** Values of a compound element on a cell. */
  method FillData(values: SystemValues, ref: RefValues, g: GoodGeometry)
    requires values.Valid() && RefOk(ref, |values.shapeValues|, NDofs(values.fe), NComps(values.fe))
    modifies values
    ensures values.Valid() && |values.shapeValues| == |ref|
    ensures forall i :: 0 <= i < |ref| ==>
      RowHolds(values.fe, values.spacedim, ref[i], KindMaps(values.fe, values.spacedim, g), values.shapeValues[i], i)
  {
    values.FillSystemData(ref, KindMaps(values.fe, values.spacedim, g));
  }

  // ---- what the values mean ---------------------------------------------------------------

  /** Terms of component c of the Jacobian times shape function n. */
  ghost function JacobianTerms(e: Element, a: Matrix, n: nat, p: seq<real>, c: int): int -> real {
    k => At(a, c, k) * ShapeValue(e.space, e.node, n, p, k)
  }

  lemma {:induction false} ProductIsSum(e: Element, a: Matrix, n: nat, p: seq<real>, c: int, v: seq<real>, m: nat)
    requires v == ShapeVector(e, n, p) && m <= |v|
    ensures Product(a, v, c, m) == SumTo(m, JacobianTerms(e, a, n, p, c))
  {
    var f := JacobianTerms(e, a, n, p, c);
    if m == 0 {
      assert Product(a, v, c, 0) == 0.0 == SumTo(0, f);
    } else {
      var k := m - 1;
      ProductIsSum(e, a, n, p, c, v, k);
      TermIs(e, a, n, p, c, v, k);
      assert SumTo(m, f) == SumTo(k, f) + f(k);
    }
  }

  lemma TermIs(e: Element, a: Matrix, n: nat, p: seq<real>, c: int, v: seq<real>, k: nat)
    requires v == ShapeVector(e, n, p) && k < |v|
    ensures At(a, c, k) * Read(v, k) == JacobianTerms(e, a, n, p, c)(k)
  {
    assert Read(v, k) == ShapeValue(e.space, e.node, n, p, k);
  }

  /** Space component c of shape function n of an element. */
  ghost function SpaceValue(e: Element, g: GoodGeometry, i: nat, n: nat, p: seq<real>, c: int): real {
    match e.kind
    case VectorContravariant => SumTo(e.space.nComp, JacobianTerms(e, g.jacobian(i), n, p, c))
    case VectorPiola => SumTo(e.space.nComp, JacobianTerms(e, g.jacobian(i), n, p, c)) / g.determinant(i)
    case _ => ShapeValue(e.space, e.node, n, p, c)
  }

  /** An element that is not mapped has as many components as its kind has in space. */
  ghost predicate Matching(e: Element, spacedim: nat) {
    e.kind.VectorContravariant? || e.kind.VectorPiola? || e.space.nComp == SpaceComponents(e.kind, spacedim)
  }

  /** The mapped value of a shape function: multiplied by the Jacobian for contravariant and Piola
      vectors, and divided by its determinant for the latter. */
  lemma MappedIsSpaceValue(e: Element, spacedim: nat, g: GoodGeometry, i: nat, n: nat, p: seq<real>, c: nat)
    requires Matching(e, spacedim) && c < SpaceComponents(e.kind, spacedim)
    ensures Read(KindMap(e.kind, spacedim, g)(i, ShapeVector(e, n, p)), c) == SpaceValue(e, g, i, n, p, c)
  {
    var v := ShapeVector(e, n, p);
    ProductIsSum(e, g.jacobian(i), n, p, c, v, |v|);
  }

  lemma SystemKindValue(fe: seq<Element>, idx: seq<DofComponent>, spacedim: nat, node: Matrix, vals: seq<seq<real>>,
                        p: seq<real>, g: GoodGeometry, row: seq<real>, i: nat, f: nat, n: nat, c: nat, k: nat)
    requires ElementsOk(fe) && IsIndexList(fe, idx) && BlockDiagonal(node, NodesOf(fe), DofCounts(fe))
    requires IsRefPoint(vals, SystemSpace(fe, idx), node, NDofs(fe), p)
    requires RowHolds(fe, spacedim, vals, KindMaps(fe, spacedim, g), row, i)
    requires f < |fe| && n < |fe[f].dofs| && c < LayoutOf(fe, spacedim).NComps()
    requires c == Start(LayoutOf(fe, spacedim).comps, f) + k && k < SpaceComponents(fe[f].kind, spacedim)
    ensures ViewOf(row, LayoutOf(fe, spacedim).NComps())(DofIndex(fe, f, n), c)
         == Read(KindMap(fe[f].kind, spacedim, g)(i, ShapeVector(fe[f], n, p)), k)
  {
    SystemValue(fe, idx, spacedim, node, vals, p, KindMaps(fe, spacedim, g), row, i, f, n, c);
  }

  /** The value that the flat tables give for component k of element f in shape function (f, n) is its
      space value. */
  lemma SystemSpaceValue(fe: seq<Element>, idx: seq<DofComponent>, spacedim: nat, node: Matrix, vals: seq<seq<real>>,
                         p: seq<real>, g: GoodGeometry, row: seq<real>, i: nat, f: nat, n: nat, c: nat, k: nat)
    requires ElementsOk(fe) && IsIndexList(fe, idx) && BlockDiagonal(node, NodesOf(fe), DofCounts(fe))
    requires IsRefPoint(vals, SystemSpace(fe, idx), node, NDofs(fe), p)
    requires RowHolds(fe, spacedim, vals, KindMaps(fe, spacedim, g), row, i)
    requires f < |fe| && n < |fe[f].dofs| && c < LayoutOf(fe, spacedim).NComps() && Matching(fe[f], spacedim)
    requires c == Start(LayoutOf(fe, spacedim).comps, f) + k && k < SpaceComponents(fe[f].kind, spacedim)
    ensures ViewOf(row, LayoutOf(fe, spacedim).NComps())(DofIndex(fe, f, n), c) == SpaceValue(fe[f], g, i, n, p, k)
  {
    SystemKindValue(fe, idx, spacedim, node, vals, p, g, row, i, f, n, c, k);
    MappedIsSpaceValue(fe[f], spacedim, g, i, n, p, k);
  }
}
