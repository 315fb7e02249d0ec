/** Compound finite elements (src/fem/fe_system.cc): the function spaces, dofs and node matrices
    of several elements put together blockwise. */
module ElementSystem {
  import opened Lists
  import opened RealSums
  import opened ShapeFunctions

  datatype Kind = Scalar | Vector | VectorContravariant | VectorPiola | Tensor

  datatype Element = Element(kind: Kind, space: Space, dofs: seq<NodalDof>, node: Matrix)

  ghost predicate ElementOk(e: Element) {
    && e.space.dim == |e.dofs|
    && IsMatrix(e.node, |e.dofs|, |e.dofs|)
    && forall i :: 0 <= i < |e.dofs| ==> |e.dofs[i].coefs| == e.space.nComp
  }

  ghost predicate ElementsOk(fe: seq<Element>) {
    forall f :: 0 <= f < |fe| ==> ElementOk(fe[f])
  }

  function DofCounts(fe: seq<Element>): (s: seq<nat>)
    ensures |s| == |fe| && forall f :: 0 <= f < |fe| ==> s[f] == |fe[f].dofs|
  {
    seq(|fe|, f requires 0 <= f < |fe| => |fe[f].dofs|)
  }

  function CompCounts(fe: seq<Element>): (s: seq<nat>)
    ensures |s| == |fe| && forall f :: 0 <= f < |fe| ==> s[f] == fe[f].space.nComp
  {
    seq(|fe|, f requires 0 <= f < |fe| => fe[f].space.nComp)
  }

  /** Index in the system of dof n of element f. */
  function DofIndex(fe: seq<Element>, f: nat, n: nat): (i: nat)
    requires f < |fe|
  {
    Start(DofCounts(fe), f) + n
  }

  /** First component of element f. */
  function FirstComp(fe: seq<Element>, f: nat): (c: nat)
    requires f < |fe|
  {
    Start(CompCounts(fe), f)
  }

  function NDofs(fe: seq<Element>): nat {
    Total(DofCounts(fe))
  }

  function NComps(fe: seq<Element>): nat {
    Total(CompCounts(fe))
  }

  predicate OnElement(fe: seq<Element>, f: nat, c: int)
    requires f < |fe|
  {
    FirstComp(fe, f) <= c < FirstComp(fe, f) + fe[f].space.nComp
  }

  // ---- block-diagonal matrices ------------------------------------------------------------

  function BlockEntry(parts: seq<Matrix>, f: nat, n: nat, g: nat, m: nat): real
    requires f < |parts|
  {
    if f == g then At(parts[f], n, m) else 0.0
  }

  ghost predicate BlockDiagonal(a: Matrix, parts: seq<Matrix>, sizes: seq<nat>) {
    && |parts| == |sizes| && IsMatrix(a, Total(sizes), Total(sizes))
    && forall f: nat, n: nat, g: nat, m: nat {:trigger EntryOk(a, parts, sizes, f, n, g, m)} ::
      f < |sizes| && n < sizes[f] && g < |sizes| && m < sizes[g] ==> EntryOk(a, parts, sizes, f, n, g, m)
  }

  ghost predicate EntryOk(a: Matrix, parts: seq<Matrix>, sizes: seq<nat>, f: nat, n: nat, g: nat, m: nat)
    requires f < |sizes| == |parts| && g < |sizes|
  {
    At(a, Start(sizes, f) + n, Start(sizes, g) + m) == BlockEntry(parts, f, n, g, m)
  }

  /** Outside the columns of block f, row (f, n) is zero. */
  lemma RowOutside(a: Matrix, parts: seq<Matrix>, sizes: seq<nat>, f: nat, n: nat, j: nat)
    requires BlockDiagonal(a, parts, sizes) && f < |sizes| && n < sizes[f] && j < Total(sizes)
    requires !(Start(sizes, f) <= j < Start(sizes, f) + sizes[f])
    ensures At(a, Start(sizes, f) + n, j) == 0.0
  {
    var g, m := BlockOf(sizes, |sizes|, j);
    InBlock(sizes, g, m, f);
    assert EntryOk(a, parts, sizes, f, n, g, m);
  }

  lemma ProductInBlock(a: Matrix, b: Matrix, ps: seq<Matrix>, qs: seq<Matrix>, sizes: seq<nat>,
                       f: nat, n: nat, m: nat)
    requires BlockDiagonal(a, ps, sizes) && BlockDiagonal(b, qs, sizes)
    requires f < |sizes| && n < sizes[f] && m < sizes[f]
    ensures SumTo(Total(sizes), ProductTerms(a, b, Start(sizes, f) + n, Start(sizes, f) + m))
         == SumTo(sizes[f], ProductTerms(ps[f], qs[f], n, m))
  {
    var s := Start(sizes, f);
    var u, v := MatrixRow(a, s + n), MatrixColumn(b, s + m);
    BlockBounds(sizes, f, f + 1);
    forall j | 0 <= j < Total(sizes) && !(s <= j < s + sizes[f])
      ensures u(j) == 0.0
    {
      RowOutside(a, ps, sizes, f, n, j);
    }
    forall j: nat | j < sizes[f]
      ensures u(s + j) == At(ps[f], n, j) && v(s + j) == At(qs[f], j, m)
    {
      assert EntryOk(a, ps, sizes, f, n, f, j);
      assert EntryOk(b, qs, sizes, f, j, f, m);
    }
    SumOfBlock(Total(sizes), s, sizes[f], u, v, MatrixRow(ps[f], n), MatrixColumn(qs[f], m));
  }

  lemma ProductAcross(a: Matrix, b: Matrix, ps: seq<Matrix>, qs: seq<Matrix>, sizes: seq<nat>,
                      f: nat, n: nat, g: nat, m: nat)
    requires BlockDiagonal(a, ps, sizes) && BlockDiagonal(b, qs, sizes)
    requires f < |sizes| && n < sizes[f] && g < |sizes| && m < sizes[g] && f != g
    ensures SumTo(Total(sizes), ProductTerms(a, b, Start(sizes, f) + n, Start(sizes, g) + m)) == 0.0
  {
    var u, v := MatrixRow(a, Start(sizes, f) + n), MatrixColumn(b, Start(sizes, g) + m);
    forall j | 0 <= j < Total(sizes)
      ensures u(j) == 0.0 || v(j) == 0.0
    {
      var h, l := BlockOf(sizes, |sizes|, j);
      AcrossEntry(a, b, ps, qs, sizes, f, n, g, m, h, l);
    }
    SumNothing(Total(sizes), u, v);
  }

  lemma AcrossEntry(a: Matrix, b: Matrix, ps: seq<Matrix>, qs: seq<Matrix>, sizes: seq<nat>, f: nat, n: nat, g: nat,
                    m: nat, h: nat, l: nat)
    requires BlockDiagonal(a, ps, sizes) && BlockDiagonal(b, qs, sizes) && h < |sizes| && l < sizes[h]
    requires f < |sizes| && n < sizes[f] && g < |sizes| && m < sizes[g] && f != g
    ensures At(a, Start(sizes, f) + n, Start(sizes, h) + l) == 0.0
      || At(b, Start(sizes, h) + l, Start(sizes, g) + m) == 0.0
  {
    assert EntryOk(a, ps, sizes, f, n, h, l);
    assert EntryOk(b, qs, sizes, h, l, g, m);
  }

  /** Blocks whose products are one make matrices whose product is one. */
  lemma BlockProduct(a: Matrix, b: Matrix, ps: seq<Matrix>, qs: seq<Matrix>, sizes: seq<nat>)
    requires BlockDiagonal(a, ps, sizes) && BlockDiagonal(b, qs, sizes)
    requires forall f :: 0 <= f < |sizes| ==> IsProductOne(ps[f], qs[f], sizes[f])
    ensures IsProductOne(a, b, Total(sizes))
  {
    forall i, k | 0 <= i < Total(sizes) && 0 <= k < Total(sizes)
      ensures SumTo(Total(sizes), ProductTerms(a, b, i, k)) == Delta(i, k)
    {
      var f, n := BlockOf(sizes, |sizes|, i);
      var g, m := BlockOf(sizes, |sizes|, k);
      ProductEntry(a, b, ps, qs, sizes, f, n, g, m, i, k);
    }
  }

  lemma ProductEntry(a: Matrix, b: Matrix, ps: seq<Matrix>, qs: seq<Matrix>, sizes: seq<nat>, f: nat, n: nat, g: nat,
                     m: nat, i: nat, k: nat)
    requires BlockDiagonal(a, ps, sizes) && BlockDiagonal(b, qs, sizes)
    requires f < |sizes| && n < sizes[f] && g < |sizes| && m < sizes[g] && IsProductOne(ps[f], qs[f], sizes[f])
    requires i == Start(sizes, f) + n && k == Start(sizes, g) + m
    ensures SumTo(Total(sizes), ProductTerms(a, b, i, k)) == Delta(i, k)
  {
    if f == g {
      ProductInBlock(a, b, ps, qs, sizes, f, n, m);
      OneAt(ps[f], qs[f], sizes[f], n, m);
    } else {
      ProductAcross(a, b, ps, qs, sizes, f, n, g, m);
      if i == k {
        BlocksDisjoint(sizes, f, n, g, m);
      }
    }
  }

  lemma OneAt(p: Matrix, q: Matrix, size: nat, n: nat, m: nat)
    requires IsProductOne(p, q, size) && n < size && m < size
    ensures SumTo(size, ProductTerms(p, q, n, m)) == Delta(n, m)
  {
  }

  // ---- the function space of the system ---------------------------------------------------

  datatype DofComponent = DofComponent(feIndex: nat, basisIndex: nat, componentOffset: nat)

  ghost predicate IndexOk(fe: seq<Element>, idx: seq<DofComponent>, f: nat, n: nat)
    requires f < |fe|
  {
    DofIndex(fe, f, n) < |idx| && idx[DofIndex(fe, f, n)] == DofComponent(f, n, FirstComp(fe, f))
  }

  /** The list tells, for each basis function of the system, the element and the basis function
      there, and the first component of that element. */
  ghost predicate IsIndexList(fe: seq<Element>, idx: seq<DofComponent>) {
    && |idx| == NDofs(fe)
    && forall f: nat, n: nat :: f < |fe| && n < |fe[f].dofs| ==> IndexOk(fe, idx, f, n)
  }

  method BuildIndices(fe: seq<Element>) returns (idx: seq<DofComponent>, dim: nat, nComp: nat)
    requires ElementsOk(fe)
    ensures IsIndexList(fe, idx) && dim == NDofs(fe) && nComp == NComps(fe)
  {
    idx, dim := [], 0;
    var compOffset := 0;
    var f := 0;
    while f < |fe|
      invariant f <= |fe| && compOffset == Start(CompCounts(fe), f)
      invariant dim == |idx| == Start(DofCounts(fe), f)
      invariant forall g: nat, n: nat :: g < f && n < |fe[g].dofs| ==> IndexOk(fe, idx, g, n)
    {
      var i := 0;
      while i < fe[f].space.dim
        invariant i <= fe[f].space.dim && |idx| == DofIndex(fe, f, i)
        invariant forall g: nat, n: nat :: g < f && n < |fe[g].dofs| ==> IndexOk(fe, idx, g, n)
        invariant forall n: nat :: n < i ==> IndexOk(fe, idx, f, n)
      {
        ghost var was := idx;
        idx := idx + [DofComponent(f, i, compOffset)];
        forall g: nat, n: nat | g < f && n < |fe[g].dofs|
          ensures IndexOk(fe, idx, g, n)
        {
          assert IndexOk(fe, was, g, n);
        }
        forall n: nat | n < i
          ensures IndexOk(fe, idx, f, n)
        {
          assert IndexOk(fe, was, f, n);
        }
        assert IndexOk(fe, idx, f, i);
        i := i + 1;
      }
      dim := dim + fe[f].space.dim;
      compOffset := compOffset + fe[f].space.nComp;
      f := f + 1;
    }
    nComp := compOffset;
  }

  /** A basis function of the system is one of an element on its own components, and zero on the
      others. */
  function SystemBasis(fe: seq<Element>, idx: seq<DofComponent>, i: int, p: seq<real>, comp: int): real {
    if 0 <= i < |idx| && idx[i].feIndex < |fe| then
      var space := fe[idx[i].feIndex].space;
      var own := comp - idx[i].componentOffset;
      if 0 <= own < space.nComp then space.basis(idx[i].basisIndex, p, own) else 0.0
    else 0.0
  }

  function SystemSpace(fe: seq<Element>, idx: seq<DofComponent>): (V: Space) {
    Space(NDofs(fe), NComps(fe), (i, p, comp) => SystemBasis(fe, idx, i, p, comp))
  }

  lemma BasisInBlock(fe: seq<Element>, idx: seq<DofComponent>, f: nat, n: nat, p: seq<real>, comp: int)
    requires IsIndexList(fe, idx) && f < |fe| && n < |fe[f].dofs|
    ensures SystemSpace(fe, idx).basis(DofIndex(fe, f, n), p, comp)
         == if OnElement(fe, f, comp) then fe[f].space.basis(n, p, comp - FirstComp(fe, f)) else 0.0
  {
    assert IndexOk(fe, idx, f, n);
  }

  /** Indices of the dofs of element f, as filtered from the list. */
  method FeDofs(fe: seq<Element>, idx: seq<DofComponent>, f: nat) returns (r: seq<nat>)
    requires IsIndexList(fe, idx) && f < |fe|
    ensures |r| == |fe[f].dofs| && forall n: nat :: n < |r| ==> r[n] == DofIndex(fe, f, n)
  {
    r := [];
    ghost var first, last := DofIndex(fe, f, 0), DofIndex(fe, f, |fe[f].dofs|);
    BlockBounds(DofCounts(fe), f, f + 1);
    var i := 0;
    while i < |idx|
      invariant i <= |idx| && |r| == if i < first then 0 else if i < last then i - first else last - first
      invariant forall n: nat :: n < |r| ==> r[n] == first + n
    {
      ElementOfIndex(fe, idx, f, i);
      if idx[i].feIndex == f {
        r := r + [i];
      }
      i := i + 1;
    }
  }

  lemma ElementOfIndex(fe: seq<Element>, idx: seq<DofComponent>, f: nat, i: nat)
    requires IsIndexList(fe, idx) && f < |fe| && i < |idx|
    ensures idx[i].feIndex == f <==> DofIndex(fe, f, 0) <= i < DofIndex(fe, f, |fe[f].dofs|)
  {
    var g, n := BlockOf(DofCounts(fe), |fe|, i);
    assert IndexOk(fe, idx, g, n);
    if DofIndex(fe, f, 0) <= i < DofIndex(fe, f, |fe[f].dofs|) {
      BlocksDisjoint(DofCounts(fe), g, n, f, i - DofIndex(fe, f, 0));
    }
  }

  // ---- the dofs and the node matrix of the system -----------------------------------------

  /** The coefficients of a dof moved to its components in the system. */
  function Padded(d: NodalDof, first: nat, nComp: nat): (e: NodalDof)
    requires first + |d.coefs| <= nComp
    ensures forall c: int :: Coef(e, c) == Coef(d, c - first)
  {
    NodalDof(d.coords, seq(nComp, c requires 0 <= c < nComp => Coef(d, c - first)))
  }

  ghost predicate PaddedOk(fe: seq<Element>, dofs: seq<NodalDof>, f: nat, n: nat)
    requires f < |fe| && n < |fe[f].dofs|
  {
    && DofIndex(fe, f, n) < |dofs|
    && dofs[DofIndex(fe, f, n)].coords == fe[f].dofs[n].coords
    && |dofs[DofIndex(fe, f, n)].coefs| == NComps(fe)
    && forall c: int :: Coef(dofs[DofIndex(fe, f, n)], c) == Coef(fe[f].dofs[n], c - FirstComp(fe, f))
  }

  ghost predicate AreSystemDofs(fe: seq<Element>, dofs: seq<NodalDof>) {
    && |dofs| == NDofs(fe)
    && forall f: nat, n: nat :: f < |fe| && n < |fe[f].dofs| ==> PaddedOk(fe, dofs, f, n)
  }

  method SystemDofs(fe: seq<Element>) returns (dofs: seq<NodalDof>)
    requires ElementsOk(fe)
    ensures AreSystemDofs(fe, dofs)
  {
    dofs := [];
    var compOffset := 0;
    var f := 0;
    while f < |fe|
      invariant f <= |fe| && compOffset == Start(CompCounts(fe), f) && |dofs| == Start(DofCounts(fe), f)
      invariant forall g: nat, n: nat :: g < f && n < |fe[g].dofs| ==> PaddedOk(fe, dofs, g, n)
    {
      BlockBounds(CompCounts(fe), f, f + 1);
      assert ElementOk(fe[f]);
      var i := 0;
      while i < |fe[f].dofs|
        invariant i <= |fe[f].dofs| && |dofs| == DofIndex(fe, f, i)
        invariant forall g: nat, n: nat :: g < f && n < |fe[g].dofs| ==> PaddedOk(fe, dofs, g, n)
        invariant forall n: nat :: n < i ==> PaddedOk(fe, dofs, f, n)
      {
        ghost var was := dofs;
        dofs := dofs + [Padded(fe[f].dofs[i], compOffset, NComps(fe))];
        forall g: nat, n: nat | g < f && n < |fe[g].dofs|
          ensures PaddedOk(fe, dofs, g, n)
        {
          assert PaddedOk(fe, was, g, n);
        }
        forall n: nat | n < i
          ensures PaddedOk(fe, dofs, f, n)
        {
          assert PaddedOk(fe, was, f, n);
        }
        assert PaddedOk(fe, dofs, f, i);
        i := i + 1;
      }
      compOffset := compOffset + fe[f].space.nComp;
      f := f + 1;
    }
  }

  /** Assignment to a square submatrix on the diagonal. */
  function SetBlock(a: Matrix, offset: nat, b: Matrix): (r: Matrix)
    ensures |r| == |a| && forall i :: 0 <= i < |a| ==> |r[i]| == |a[i]|
  {
    seq(|a|, i requires 0 <= i < |a| => SetRow(a[i], offset, b, i))
  }

  function SetRow(row: seq<real>, offset: nat, b: Matrix, i: nat): (r: seq<real>)
    ensures |r| == |row|
  {
    seq(|row|, j requires 0 <= j < |row| =>
      if offset <= i < offset + |b| && offset <= j < offset + |b| then At(b, i - offset, j - offset) else row[j])
  }

  lemma SetBlockAt(a: Matrix, offset: nat, b: Matrix, i: nat, j: nat)
    requires i < |a| && j < |a[i]|
    ensures At(SetBlock(a, offset, b), i, j)
         == if offset <= i < offset + |b| && offset <= j < offset + |b| then At(b, i - offset, j - offset)
            else At(a, i, j)
  {
    assert SetBlock(a, offset, b)[i] == SetRow(a[i], offset, b, i);
  }

  function NodesOf(fe: seq<Element>): (s: seq<Matrix>)
    ensures |s| == |fe| && forall f :: 0 <= f < |fe| ==> s[f] == fe[f].node
  {
    seq(|fe|, f requires 0 <= f < |fe| => fe[f].node)
  }

  /** The entries of the first `done` blocks are in place, the others still zero. */
  ghost predicate FilledOk(a: Matrix, parts: seq<Matrix>, sizes: seq<nat>, done: nat, f: nat, n: nat, g: nat, m: nat)
    requires f < |sizes| == |parts| && g < |sizes|
  {
    At(a, Start(sizes, f) + n, Start(sizes, g) + m) == if f < done then BlockEntry(parts, f, n, g, m) else 0.0
  }

  lemma FillBlock(a: Matrix, b: Matrix, parts: seq<Matrix>, sizes: seq<nat>, done: nat, f: nat, n: nat, g: nat, m: nat)
    requires f < |sizes| == |parts| && g < |sizes| && n < sizes[f] && m < sizes[g] && done < |sizes|
    requires IsMatrix(a, Total(sizes), Total(sizes)) && |parts[done]| == sizes[done]
    requires b == SetBlock(a, Start(sizes, done), parts[done])
    requires FilledOk(a, parts, sizes, done, f, n, g, m)
    ensures FilledOk(b, parts, sizes, done + 1, f, n, g, m)
  {
    var i, j := Start(sizes, f) + n, Start(sizes, g) + m;
    BlockBounds(sizes, f, f + 1);
    BlockBounds(sizes, g, g + 1);
    assert At(b, i, j) == if f == done && g == done then At(parts[f], n, m) else At(a, i, j) by {
      SetBlockAt(a, Start(sizes, done), parts[done], i, j);
      InBlock(sizes, f, n, done);
      InBlock(sizes, g, m, done);
    }
  }

  lemma InBlock(sizes: seq<nat>, f: nat, n: nat, done: nat)
    requires f < |sizes| && n < sizes[f] && done < |sizes|
    ensures Start(sizes, done) <= Start(sizes, f) + n < Start(sizes, done) + sizes[done] <==> f == done
  {
    var s, i := Start(sizes, done), Start(sizes, f) + n;
    if s <= i < s + sizes[done] {
      BlocksDisjoint(sizes, f, n, done, i - s);
    }
  }

  method SystemNodeMatrix(fe: seq<Element>) returns (node: Matrix)
    requires ElementsOk(fe)
    ensures BlockDiagonal(node, NodesOf(fe), DofCounts(fe))
  {
    ghost var sizes, parts := DofCounts(fe), NodesOf(fe);
    node := seq(NDofs(fe), _ => seq(NDofs(fe), _ => 0.0));
    var offset, i := 0, 0;
    while i < |fe|
      invariant i <= |fe| && offset == Start(sizes, i) && IsMatrix(node, NDofs(fe), NDofs(fe))
      invariant forall f: nat, n: nat, g: nat, m: nat :: f < |sizes| && n < sizes[f] && g < |sizes| && m < sizes[g] ==>
        FilledOk(node, parts, sizes, i, f, n, g, m)
    {
      assert ElementOk(fe[i]);
      ghost var was, next := node, i + 1;
      node := SetBlock(node, offset, fe[i].node);
      forall f: nat, n: nat, g: nat, m: nat | f < |sizes| && n < sizes[f] && g < |sizes| && m < sizes[g]
        ensures FilledOk(node, parts, sizes, next, f, n, g, m)
      {
        FillBlock(was, node, parts, sizes, i, f, n, g, m);
      }
      offset := offset + |fe[i].dofs|;
      i := i + 1;
    }
    forall f: nat, n: nat, g: nat, m: nat | f < |sizes| && n < sizes[f] && g < |sizes| && m < sizes[g]
      ensures EntryOk(node, parts, sizes, f, n, g, m)
    {
      assert FilledOk(node, parts, sizes, i, f, n, g, m);
    }
  }

  // ---- the system means its parts ---------------------------------------------------------

  lemma ShapeTermOutside(fe: seq<Element>, node: Matrix, f: nat, n: nat, j: nat)
    requires BlockDiagonal(node, NodesOf(fe), DofCounts(fe)) && f < |fe| && n < |fe[f].dofs| && j < NDofs(fe)
    requires !(DofIndex(fe, f, 0) <= j < DofIndex(fe, f, 0) + |fe[f].dofs|)
    ensures MatrixRow(node, DofIndex(fe, f, n))(j) == 0.0
  {
    RowOutside(node, NodesOf(fe), DofCounts(fe), f, n, j);
  }

  lemma ShapeTermInside(fe: seq<Element>, idx: seq<DofComponent>, node: Matrix, f: nat, n: nat, p: seq<real>,
                        comp: int, j: nat)
    requires IsIndexList(fe, idx) && BlockDiagonal(node, NodesOf(fe), DofCounts(fe))
    requires f < |fe| && n < |fe[f].dofs| && j < |fe[f].dofs|
    ensures BasisAt(SystemSpace(fe, idx), p, comp)(DofIndex(fe, f, 0) + j)
         == if OnElement(fe, f, comp) then BasisAt(fe[f].space, p, comp - FirstComp(fe, f))(j) else 0.0
    ensures MatrixRow(node, DofIndex(fe, f, n))(DofIndex(fe, f, 0) + j) == MatrixRow(fe[f].node, n)(j)
  {
    BasisInBlock(fe, idx, f, j, p, comp);
    assert EntryOk(node, NodesOf(fe), DofCounts(fe), f, n, f, j);
  }

  lemma SystemShapeOn(fe: seq<Element>, idx: seq<DofComponent>, node: Matrix, f: nat, n: nat, p: seq<real>, comp: int)
    requires IsIndexList(fe, idx) && BlockDiagonal(node, NodesOf(fe), DofCounts(fe))
    requires f < |fe| && n < |fe[f].dofs| && fe[f].space.dim == |fe[f].dofs| && OnElement(fe, f, comp)
    ensures ShapeValue(SystemSpace(fe, idx), node, DofIndex(fe, f, n), p, comp)
         == ShapeValue(fe[f].space, fe[f].node, n, p, comp - FirstComp(fe, f))
  {
    var u, v := BasisAt(SystemSpace(fe, idx), p, comp), MatrixRow(node, DofIndex(fe, f, n));
    var u', v' := BasisAt(fe[f].space, p, comp - FirstComp(fe, f)), MatrixRow(fe[f].node, n);
    var first, size, N := DofIndex(fe, f, 0), |fe[f].dofs|, NDofs(fe);
    BlockBounds(DofCounts(fe), f, f + 1);
    forall j | 0 <= j < N && !(first <= j < first + size)
      ensures v(j) == 0.0
    {
      ShapeTermOutside(fe, node, f, n, j);
    }
    forall j: nat | j < size
      ensures u(first + j) == u'(j) && v(first + j) == v'(j)
    {
      ShapeTermInside(fe, idx, node, f, n, p, comp, j);
    }
    SumOfBlock(N, first, size, u, v, u', v');
  }

  lemma SystemShapeOff(fe: seq<Element>, idx: seq<DofComponent>, node: Matrix, f: nat, n: nat, p: seq<real>, comp: int)
    requires IsIndexList(fe, idx) && BlockDiagonal(node, NodesOf(fe), DofCounts(fe))
    requires f < |fe| && n < |fe[f].dofs| && !OnElement(fe, f, comp)
    ensures ShapeValue(SystemSpace(fe, idx), node, DofIndex(fe, f, n), p, comp) == 0.0
  {
    var u, v := BasisAt(SystemSpace(fe, idx), p, comp), MatrixRow(node, DofIndex(fe, f, n));
    var first, size, N := DofIndex(fe, f, 0), |fe[f].dofs|, NDofs(fe);
    forall j | 0 <= j < N
      ensures u(j) == 0.0 || v(j) == 0.0
    {
      if first <= j < first + size {
        ShapeTermInside(fe, idx, node, f, n, p, comp, j - first);
      } else {
        ShapeTermOutside(fe, node, f, n, j);
      }
    }
    SumNothing(N, u, v);
  }

  /** Shape function (f, n) of the system is shape function n of element f on the components of
      that element, and zero on all others. */
  lemma SystemShape(fe: seq<Element>, idx: seq<DofComponent>, node: Matrix, f: nat, n: nat, p: seq<real>, comp: int)
    requires ElementsOk(fe) && IsIndexList(fe, idx) && BlockDiagonal(node, NodesOf(fe), DofCounts(fe))
    requires f < |fe| && n < |fe[f].dofs|
    ensures ShapeValue(SystemSpace(fe, idx), node, DofIndex(fe, f, n), p, comp)
         == if OnElement(fe, f, comp) then ShapeValue(fe[f].space, fe[f].node, n, p, comp - FirstComp(fe, f)) else 0.0
  {
    assert ElementOk(fe[f]);
    if OnElement(fe, f, comp) {
      SystemShapeOn(fe, idx, node, f, n, p, comp);
    } else {
      SystemShapeOff(fe, idx, node, f, n, p, comp);
    }
  }

  lemma DofTermInside(fe: seq<Element>, idx: seq<DofComponent>, f: nat, g: nat, m: nat, p: seq<real>, c: nat)
    requires IsIndexList(fe, idx) && f < |fe| && g < |fe| && m < |fe[g].dofs| && c < fe[f].space.nComp
    ensures ValuesAt(Basis(SystemSpace(fe, idx), DofIndex(fe, g, m)), p)(FirstComp(fe, f) + c)
         == if f == g then ValuesAt(Basis(fe[f].space, m), p)(c) else 0.0
  {
    var comp := FirstComp(fe, f) + c;
    BasisInBlock(fe, idx, g, m, p, comp);
    if f != g && OnElement(fe, g, comp) {
      BlocksDisjoint(CompCounts(fe), f, c, g, comp - FirstComp(fe, g));
    }
  }

  /** Dof (f, n) of basis function (g, m): dof n of basis function m if it is the same element,
      otherwise zero. */
  lemma SystemDofValue(fe: seq<Element>, idx: seq<DofComponent>, dofs: seq<NodalDof>, f: nat, n: nat, g: nat, m: nat)
    requires ElementsOk(fe) && IsIndexList(fe, idx) && AreSystemDofs(fe, dofs)
    requires f < |fe| && n < |fe[f].dofs| && g < |fe| && m < |fe[g].dofs|
    ensures DofIndex(fe, f, n) < |dofs|
    ensures Evaluate(dofs[DofIndex(fe, f, n)], SystemSpace(fe, idx), DofIndex(fe, g, m))
         == if f == g then Evaluate(fe[f].dofs[n], fe[f].space, m) else 0.0
  {
    assert PaddedOk(fe, dofs, f, n) && ElementOk(fe[f]);
    var d, e, p := dofs[DofIndex(fe, f, n)], fe[f].dofs[n], PointOf(fe[f].dofs[n]);
    var first, size, N := FirstComp(fe, f), fe[f].space.nComp, NComps(fe);
    BlockBounds(CompCounts(fe), f, f + 1);
    var u, v := CoefsOf(d), ValuesAt(Basis(SystemSpace(fe, idx), DofIndex(fe, g, m)), p);
    var u', v' := CoefsOf(e), ValuesAt(Basis(fe[f].space, m), p);
    assert forall c :: 0 <= c < N && !(first <= c < first + size) ==> u(c) == 0.0;
    if f == g {
      forall c: nat | c < size
        ensures u(first + c) == u'(c) && v(first + c) == v'(c)
      {
        DofTermInside(fe, idx, f, g, m, p, c);
      }
      SumOfBlock(N, first, size, u, v, u', v');
    } else {
      forall c | 0 <= c < N
        ensures u(c) == 0.0 || v(c) == 0.0
      {
        if first <= c < first + size {
          DofTermInside(fe, idx, f, g, m, p, c - first);
        }
      }
      SumNothing(N, u, v);
    }
  }

  /** Matrices of the dofs of the elements. */
  ghost predicate AreDofMatrices(fe: seq<Element>, parts: seq<Matrix>) {
    |parts| == |fe| && forall f :: 0 <= f < |fe| ==> IsDofMatrix(parts[f], fe[f].space, fe[f].dofs)
  }

  lemma SystemMatrixEntry(fe: seq<Element>, idx: seq<DofComponent>, dofs: seq<NodalDof>, a: Matrix, parts: seq<Matrix>,
                          f: nat, n: nat, g: nat, m: nat)
    requires ElementsOk(fe) && IsIndexList(fe, idx) && AreSystemDofs(fe, dofs)
    requires IsDofMatrix(a, SystemSpace(fe, idx), dofs) && AreDofMatrices(fe, parts)
    requires f < |fe| && n < |fe[f].dofs| && g < |fe| && m < |fe[g].dofs|
    ensures EntryOk(a, parts, DofCounts(fe), f, n, g, m)
  {
    SystemDofValue(fe, idx, dofs, g, m, f, n);
    BlockBounds(DofCounts(fe), f, f + 1);
    var x := Evaluate(dofs[DofIndex(fe, g, m)], SystemSpace(fe, idx), DofIndex(fe, f, n));
    assert At(a, DofIndex(fe, f, n), DofIndex(fe, g, m)) == x;
    if f == g {
      assert At(parts[f], n, m) == Evaluate(fe[f].dofs[m], fe[f].space, n);
    }
  }

  lemma SystemMatrixIsDiagonal(fe: seq<Element>, idx: seq<DofComponent>, dofs: seq<NodalDof>, a: Matrix,
                               parts: seq<Matrix>)
    requires ElementsOk(fe) && IsIndexList(fe, idx) && AreSystemDofs(fe, dofs)
    requires IsDofMatrix(a, SystemSpace(fe, idx), dofs) && AreDofMatrices(fe, parts)
    ensures BlockDiagonal(a, parts, DofCounts(fe))
  {
    var sizes := DofCounts(fe);
    forall f: nat, n: nat, g: nat, m: nat | f < |sizes| && n < sizes[f] && g < |sizes| && m < sizes[g]
      ensures EntryOk(a, parts, sizes, f, n, g, m)
    {
      SystemMatrixEntry(fe, idx, dofs, a, parts, f, n, g, m);
    }
  }

  /** The block-diagonal node matrix is the inverse of the dof matrix of the whole system: the
      same as if it were computed from the system itself. */
  lemma SystemInverse(fe: seq<Element>, idx: seq<DofComponent>, dofs: seq<NodalDof>, a: Matrix, parts: seq<Matrix>,
                      node: Matrix)
    requires ElementsOk(fe) && IsIndexList(fe, idx) && AreSystemDofs(fe, dofs)
    requires IsDofMatrix(a, SystemSpace(fe, idx), dofs) && AreDofMatrices(fe, parts)
    requires forall f :: 0 <= f < |fe| ==> Inverse(parts[f], fe[f].node, |fe[f].dofs|)
    requires BlockDiagonal(node, NodesOf(fe), DofCounts(fe))
    ensures Inverse(a, node, NDofs(fe))
  {
    SystemMatrixIsDiagonal(fe, idx, dofs, a, parts);
    BlockProduct(a, node, parts, NodesOf(fe), DofCounts(fe));
    BlockProduct(node, a, NodesOf(fe), parts, DofCounts(fe));
  }

  /** So the shape functions of the system are dual to its dofs. */
  lemma SystemDuality(fe: seq<Element>, idx: seq<DofComponent>, dofs: seq<NodalDof>, a: Matrix, parts: seq<Matrix>,
                      node: Matrix, i: nat, k: nat)
    requires ElementsOk(fe) && IsIndexList(fe, idx) && AreSystemDofs(fe, dofs)
    requires IsDofMatrix(a, SystemSpace(fe, idx), dofs) && AreDofMatrices(fe, parts)
    requires forall f :: 0 <= f < |fe| ==> Inverse(parts[f], fe[f].node, |fe[f].dofs|)
    requires BlockDiagonal(node, NodesOf(fe), DofCounts(fe)) && i < |dofs| && k < |dofs|
    ensures Apply(dofs[k], NComps(fe), Shape(SystemSpace(fe, idx), node, i)) == Delta(i, k)
  {
    SystemInverse(fe, idx, dofs, a, parts, node);
    Duality(SystemSpace(fe, idx), dofs, a, node, i, k);
  }
}
