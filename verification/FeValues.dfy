/** Values of the shape functions of a compound element at quadrature points
    (src/fem/fe_values.cc): the reference values are split among the elements, mapped there, and
    gathered in one flat vector per point. */
module FeValues {
  import opened Lists
  import opened ShapeFunctions
  import opened ElementSystem

  // ---- components in space ----------------------------------------------------------------

  function SpaceComponents(kind: Kind, spacedim: nat): nat {
    match kind
    case Scalar => 1
    case Tensor => spacedim * spacedim
    case _ => spacedim
  }

  function SpaceCounts(fe: seq<Element>, spacedim: nat): (s: seq<nat>)
    ensures |s| == |fe| && forall f :: 0 <= f < |fe| ==> s[f] == SpaceComponents(fe[f].kind, spacedim)
  {
    seq(|fe|, f requires 0 <= f < |fe| => SpaceComponents(fe[f].kind, spacedim))
  }

  /** Those of the first n elements that are of some kinds. */
  ghost function OfKinds(fe: seq<Element>, n: nat, kinds: set<Kind>): (s: set<nat>)
    requires n <= |fe|
  {
    set f: nat | f < n && fe[f].kind in kinds
  }

  lemma OneMoreOfKinds(fe: seq<Element>, n: nat, kinds: set<Kind>)
    requires n < |fe|
    ensures |OfKinds(fe, n + 1, kinds)| == |OfKinds(fe, n, kinds)| + if fe[n].kind in kinds then 1 else 0
  {
    assert OfKinds(fe, n + 1, kinds)
        == if fe[n].kind in kinds then OfKinds(fe, n, kinds) + {n} else OfKinds(fe, n, kinds);
  }

  /** One more element of a kind, counted by kinds. */
  lemma OneMoreKind(kind: Kind, d: nat, scalars: nat, vectors: nat, tensors: nat, s: nat, v: nat, t: nat)
    requires s == scalars + (if kind.Scalar? then 1 else 0) && t == tensors + (if kind.Tensor? then 1 else 0)
    requires v == vectors + (if kind.Scalar? || kind.Tensor? then 0 else 1)
    ensures s + v * d + t * (d * d) == scalars + vectors * d + tensors * (d * d) + SpaceComponents(kind, d)
  {
    NextMultiple(vectors, d);
    NextMultiple(tensors, d * d);
  }

  /** Components of the first n elements: one for a scalar, one per dimension for a vector of any kind,
      and one per pair of dimensions for a tensor. */
  lemma {:induction false} StartByKinds(fe: seq<Element>, spacedim: nat, n: nat)
    requires n <= |fe|
    ensures Start(SpaceCounts(fe, spacedim), n)
      == |OfKinds(fe, n, {Scalar})| + |OfKinds(fe, n, {Vector, VectorContravariant, VectorPiola})| * spacedim
         + |OfKinds(fe, n, {Tensor})| * (spacedim * spacedim)
  {
    if n > 0 {
      var k, vectors := n - 1, {Vector, VectorContravariant, VectorPiola};
      StartByKinds(fe, spacedim, k);
      OneMoreOfKinds(fe, k, {Scalar});
      OneMoreOfKinds(fe, k, vectors);
      OneMoreOfKinds(fe, k, {Tensor});
      OneMoreKind(fe[k].kind, spacedim,
                  |OfKinds(fe, k, {Scalar})|, |OfKinds(fe, k, vectors)|, |OfKinds(fe, k, {Tensor})|,
                  |OfKinds(fe, n, {Scalar})|, |OfKinds(fe, n, vectors)|, |OfKinds(fe, n, {Tensor})|);
    }
  }

  /** The number of components of the system, counted by kinds, is the sum over its elements. */
  method SystemSpaceComponents(fe: seq<Element>, spacedim: nat) returns (n: nat)
    ensures n == Total(SpaceCounts(fe, spacedim))
    ensures n == |OfKinds(fe, |fe|, {Scalar})| + |OfKinds(fe, |fe|,
      {Vector, VectorContravariant, VectorPiola})| * spacedim
               + |OfKinds(fe, |fe|, {Tensor})| * (spacedim * spacedim)
  {
    var scalars: seq<nat>, vectors: seq<nat>, tensors: seq<nat> := [], [], [];
    var compOffset: nat, f := 0, 0;
    while f < |fe|
      invariant f <= |fe| && |scalars| == |OfKinds(fe, f, {Scalar})| && |tensors| == |OfKinds(fe, f, {Tensor})|
      invariant |vectors| == |OfKinds(fe, f, {Vector, VectorContravariant, VectorPiola})|
    {
      OneMoreOfKinds(fe, f, {Scalar});
      OneMoreOfKinds(fe, f, {Vector, VectorContravariant, VectorPiola});
      OneMoreOfKinds(fe, f, {Tensor});
      match fe[f].kind {
        case Scalar => scalars := scalars + [compOffset];
        case Tensor => tensors := tensors + [compOffset];
        case _ => vectors := vectors + [compOffset];
      }
      compOffset := compOffset + fe[f].space.nComp;
      f := f + 1;
    }
    StartByKinds(fe, spacedim, |fe|);
    n := |scalars| + |vectors| * spacedim + |tensors| * (spacedim * spacedim);
  }

  lemma NextMultiple(k: nat, m: nat)
    ensures (k + 1) * m == k * m + m
  {
  }

  // ---- the flat layout --------------------------------------------------------------------

  function Read(row: seq<real>, x: int): real {
    if 0 <= x < |row| then row[x] else 0.0
  }

  /** Component c of function j in a flat row with `nc` components per function. */
  function Component(row: seq<real>, nc: nat, j: int, c: int): real {
    Read(row, j * nc + c)
  }

  /** A flat row as a table of functions and components. */
  type View = (int, int) -> real

  function ViewOf(row: seq<real>, nc: nat): View {
    (j, c) => Component(row, nc, j, c)
  }

  lemma SlotInRow(nc: nat, nd: nat, j: nat, c: nat)
    requires j < nd && c < nc
    ensures j * nc + c < nd * nc
  {
    assert (j + 1) * nc <= nd * nc;
    NextMultiple(j, nc);
  }

  lemma SlotsOrdered(nc: nat, j: nat, c: nat, k: nat)
    requires j < k && c <= nc
    ensures j * nc + c <= k * nc
  {
    assert (j + 1) * nc <= k * nc;
    NextMultiple(j, nc);
  }

  method Copy(row: seq<real>, at: nat, src: seq<real>, from: nat, k: nat) returns (r: seq<real>)
    requires at + k <= |row| && from + k <= |src|
    ensures Copied(row, r, at, src, from, k)
  {
    r := row;
    var c := 0;
    while c < k
      invariant c <= k && r == row[..at] + src[from..from + c] + row[at + c..]
    {
      assert src[from..from + c + 1] == src[from..from + c] + [src[from + c]];
      r := r[at + c := src[from + c]];
      c := c + 1;
    }
  }

  /** The rows of functions j and j0 start at p and p0: each ends before the other starts. */
  predicate Apart(nc: nat, j: nat, j0: nat, p: nat, p0: nat) {
    (j < j0 ==> p + nc <= p0) && (j0 < j ==> p0 + nc <= p) && (j == j0 ==> p == p0)
  }

  /** r is the row with k entries of src written at a position. */
  predicate Copied(row: seq<real>, r: seq<real>, at: nat, src: seq<real>, from: nat, k: nat) {
    at + k <= |row| && from + k <= |src| && r == row[..at] + src[from..from + k] + row[at + k..]
  }

  /** Copying the components of one function writes those and no others; the products of the
      flat indices are given by their order only. */
  lemma CopiedLinear(row: seq<real>, r: seq<real>, nc: nat, j0: nat, p0: nat, first: nat, src: seq<real>, nsc: nat,
                     from: nat, j: nat, p: nat, c: nat)
    requires first + nsc <= nc && c < nc && Copied(row, r, p0 + first, src, from, nsc) && Apart(nc, j, j0, p, p0)
    ensures Read(r, p + c)
      == if j == j0 && first <= c < first + nsc then Read(src, from + (c - first)) else Read(row, p + c)
  {
  }

  lemma ViewAt(row: seq<real>, nc: nat, j: nat, c: int, p: nat)
    requires p == j * nc
    ensures ViewOf(row, nc)(j, c) == Read(row, p + c)
  {
  }

  lemma RowsApart(nc: nat, j: nat, j0: nat, p: nat, p0: nat)
    requires p == j * nc && p0 == j0 * nc
    ensures Apart(nc, j, j0, p, p0)
  {
    if j < j0 {
      SlotsOrdered(nc, j, nc, j0);
    } else if j > j0 {
      SlotsOrdered(nc, j0, nc, j);
    }
  }

  lemma CopiedComponent(row: seq<real>, r: seq<real>, nc: nat, j0: nat, p0: nat, first: nat, src: seq<real>, nsc: nat,
                        n: nat, from: nat, j: nat, c: nat)
    requires p0 == j0 * nc && from == n * nsc
    requires first + nsc <= nc && c < nc && Copied(row, r, p0 + first, src, from, nsc)
    ensures ViewOf(r, nc)(j, c)
         == if j == j0 && first <= c < first + nsc then ViewOf(src, nsc)(n, c - first) else ViewOf(row, nc)(j, c)
  {
    var p := j * nc;
    RowsApart(nc, j, j0, p, p0);
    CopiedLinear(row, r, nc, j0, p0, first, src, nsc, from, j, p, c);
    ViewsAgree(row, r, nc, src, nsc, n, from, j, p, c, c - first, j == j0 && first <= c < first + nsc);
  }

  lemma ViewsAgree(row: seq<real>, r: seq<real>, nc: nat, src: seq<real>, nsc: nat, n: nat, from: nat, j: nat, p: nat,
                   c: nat, d: int, copied: bool)
    requires p == j * nc && from == n * nsc
    requires Read(r, p + c) == if copied then Read(src, from + d) else Read(row, p + c)
    ensures ViewOf(r, nc)(j, c) == if copied then ViewOf(src, nsc)(n, d) else ViewOf(row, nc)(j, c)
  {
    ViewAt(r, nc, j, c, p);
    ViewAt(row, nc, j, c, p);
    ViewAt(src, nsc, n, d, from);
  }

  // ---- gathering the values of the elements at one point ----------------------------------

  /** Dofs and space components of the elements of a system. */
  datatype Layout = Layout(dofs: seq<nat>, comps: seq<nat>) {
    function NDofs(): nat {
      Total(dofs)
    }

    function NComps(): nat {
      Total(comps)
    }

    predicate On(f: nat, c: int)
      requires f < |comps|
    {
      Start(comps, f) <= c < Start(comps, f) + comps[f]
    }

    /** A row of values of the system, and a row of values of element f. */
    predicate IsRow(row: seq<real>) {
      |row| == NDofs() * NComps()
    }

    predicate IsSubRow(f: nat, row: seq<real>)
      requires f < |dofs| && f < |comps|
    {
      |row| == dofs[f] * comps[f]
    }
  }

  ghost predicate RowsOk(lay: Layout, sub: seq<seq<real>>) {
    |lay.dofs| == |lay.comps| == |sub| && forall f :: 0 <= f < |sub| ==> lay.IsSubRow(f, sub[f])
  }

  /** Component c of function (f, n): that of the element if it is one of the first `done`
      elements and the component is its own, otherwise what it was. */
  ghost predicate Gathered(lay: Layout, was: View, view: View, sub: seq<View>, done: nat, f: nat, n: nat, c: nat)
    requires f < |lay.dofs| == |lay.comps| == |sub|
  {
    view(Start(lay.dofs, f) + n, c)
      == if f < done && lay.On(f, c) then sub[f](n, c - Start(lay.comps, f)) else was(Start(lay.dofs, f) + n, c)
  }

  ghost predicate GatheredTo(lay: Layout, was: View, view: View, sub: seq<View>, done: nat) {
    && |lay.dofs| == |lay.comps| == |sub|
    && forall f: nat, n: nat, c: nat :: f < |lay.dofs| && n < lay.dofs[f] && c < lay.NComps() ==>
      Gathered(lay, was, view, sub, done, f, n, c)
  }

  /** The functions j0, ..., j0 + n - 1 get the components first, ..., first + nsc - 1 from `src`. */
  ghost predicate Moved(was: View, view: View, src: View, first: nat, nsc: nat, j0: nat, n: nat, j: nat, c: nat) {
    view(j, c) == if j0 <= j < j0 + n && first <= c < first + nsc then src(j - j0, c - first) else was(j, c)
  }

  lemma MoveOne(row: seq<real>, was: seq<real>, r: seq<real>, nc: nat, j0: nat, first: nat, src: seq<real>, nsc: nat,
                k: nat, p0: nat, from: nat, j: nat, c: nat)
    requires p0 == (j0 + k) * nc && from == k * nsc
    requires first + nsc <= nc && c < nc && p0 + first + nsc <= |was| && from + nsc <= |src|
    requires r == was[..p0 + first] + src[from..from + nsc] + was[p0 + first + nsc..]
    requires Moved(ViewOf(row, nc), ViewOf(was, nc), ViewOf(src, nsc), first, nsc, j0, k, j, c)
    ensures Moved(ViewOf(row, nc), ViewOf(r, nc), ViewOf(src, nsc), first, nsc, j0, k + 1, j, c)
  {
    CopiedComponent(was, r, nc, j0 + k, p0, first, src, nsc, k, from, j, c);
    Extend(ViewOf(row, nc), ViewOf(was, nc), ViewOf(r, nc), ViewOf(src, nsc), first, nsc, j0, k, j, c);
  }

  lemma Extend(row: View, was: View, view: View, src: View, first: nat, nsc: nat, j0: nat, k: nat, j: nat, c: nat)
    requires Moved(row, was, src, first, nsc, j0, k, j, c)
    requires view(j, c) == if j == j0 + k && first <= c < first + nsc then src(k, c - first) else was(j, c)
    ensures Moved(row, view, src, first, nsc, j0, k + 1, j, c)
  {
  }

  lemma SlotOffsets(j0: nat, k: nat, n: nat, nd: nat, nc: nat, nsc: nat)
    requires k < n && j0 + n <= nd
    ensures j0 * nc + nc * k == (j0 + k) * nc && (j0 + k) * nc + nc <= nd * nc && k * nsc + nsc <= n * nsc
  {
    Distribute(j0, k, nc);
    SlotsOrdered(nc, j0 + k, nc, nd);
    SlotsOrdered(nsc, k, nsc, n);
  }

  lemma Distribute(x: nat, y: nat, n: nat)
    ensures (x + y) * n == x * n + y * n
  {
  }

  ghost predicate MovedAll(row: seq<real>, r: seq<real>, nc: nat, src: seq<real>, first: nat, nsc: nat, j0: nat,
                           k: nat) {
    && |r| == |row|
    && forall j: nat, c: nat :: c < nc ==>
      Moved(ViewOf(row, nc), ViewOf(r, nc), ViewOf(src, nsc), first, nsc, j0, k, j, c)
  }

  /** The components of one function. */
  method GatherFunction(ghost row: seq<real>, was: seq<real>, nc: nat, first: nat, src: seq<real>, nsc: nat,
                        ghost j0: nat, ghost k: nat, p0: nat, from: nat) returns (r: seq<real>)
    requires p0 == (j0 + k) * nc && from == k * nsc && first + nsc <= nc && p0 + nc <= |was| && from + nsc <= |src|
    requires MovedAll(row, was, nc, src, first, nsc, j0, k)
    ensures MovedAll(row, r, nc, src, first, nsc, j0, k + 1)
  {
    r := Copy(was, p0 + first, src, from, nsc);
    ghost var next := k + 1;
    forall j: nat, c: nat | c < nc
      ensures Moved(ViewOf(row, nc), ViewOf(r, nc), ViewOf(src, nsc), first, nsc, j0, next, j, c)
    {
      MoveOne(row, was, r, nc, j0, first, src, nsc, k, p0, from, j, c);
    }
  }

  /** The loops over the functions and components of one element. */
  method GatherElement(row: seq<real>, nc: nat, ghost nd: nat, shapeOffset: nat, first: nat, src: seq<real>, nsc: nat,
                       ghost j0: nat, n: nat)
    returns (r: seq<real>)
    requires |row| == nd * nc && first + nsc <= nc && j0 + n <= nd && |src| == n * nsc && shapeOffset == j0 * nc
    ensures MovedAll(row, r, nc, src, first, nsc, j0, n)
  {
    r := row;
    var k := 0;
    while k < n
      invariant k <= n && MovedAll(row, r, nc, src, first, nsc, j0, k)
    {
      SlotOffsets(j0, k, n, nd, nc, nsc);
      r := GatherFunction(row, r, nc, first, src, nsc, j0, k, shapeOffset + nc * k, k * nsc);
      k := k + 1;
    }
  }

  lemma GatherEntry(lay: Layout, was: View, view: View, next: View, sub: seq<View>, done: nat, f: nat, n: nat, c: nat)
    requires f < |lay.dofs| == |lay.comps| == |sub| && done < |sub| && n < lay.dofs[f]
    requires Gathered(lay, was, view, sub, done, f, n, c)
    requires Moved(view, next, sub[done], Start(lay.comps, done), lay.comps[done], Start(lay.dofs, done),
      lay.dofs[done],
                   Start(lay.dofs, f) + n, c)
    ensures Gathered(lay, was, next, sub, done + 1, f, n, c)
  {
    var j := Start(lay.dofs, f) + n;
    InBlock(lay.dofs, f, n, done);
    if f == done {
      assert j - Start(lay.dofs, done) == n;
    } else {
      assert next(j, c) == view(j, c);
    }
  }

  lemma GatherStep(lay: Layout, was: View, view: View, next: View, sub: seq<View>, done: nat)
    requires done < |sub| && GatheredTo(lay, was, view, sub, done)
    requires forall j: nat, c: nat :: c < lay.NComps() ==>
      Moved(view, next, sub[done], Start(lay.comps, done), lay.comps[done], Start(lay.dofs, done), lay.dofs[done], j, c)
    ensures GatheredTo(lay, was, next, sub, done + 1)
  {
    var done' := done + 1;
    forall f: nat, n: nat, c: nat | f < |lay.dofs| && n < lay.dofs[f] && c < lay.NComps()
      ensures Gathered(lay, was, next, sub, done', f, n, c)
    {
      assert Gathered(lay, was, view, sub, done, f, n, c);
      GatherEntry(lay, was, view, next, sub, done, f, n, c);
    }
  }

  // ---- the values of the elements ---------------------------------------------------------

  /** `ref[i][j][c]`: component c of shape function j at point i of the reference element. */
  type RefValues = seq<seq<seq<real>>>

  ghost predicate RefOk(ref: RefValues, nPoints: nat, nd: nat, nc: nat) {
    |ref| == nPoints && forall i :: 0 <= i < nPoints ==> PointOk(ref[i], nd, nc)
  }

  ghost predicate PointOk(vals: seq<seq<real>>, nd: nat, nc: nat) {
    |vals| == nd && forall j :: 0 <= j < nd ==> |vals[j]| == nc
  }

  /** Reference values of one element, extracted from those of the system. */
  method SubPoint(vals: seq<seq<real>>, indices: seq<nat>, first: nat, ncomps: nat) returns (sub: seq<seq<real>>)
    requires forall n :: 0 <= n < |indices| ==> indices[n] < |vals| && first + ncomps <= |vals[indices[n]]|
    ensures PointOk(sub, |indices|, ncomps)
    ensures forall n :: 0 <= n < |indices| ==> sub[n] == vals[indices[n]][first..first + ncomps]
  {
    sub := [];
    var id := 0;
    while id < |indices|
      invariant id <= |indices| && |sub| == id
      invariant forall n :: 0 <= n < id ==> sub[n] == vals[indices[n]][first..first + ncomps]
    {
      sub := sub + [vals[indices[id]][first..first + ncomps]];
      id := id + 1;
    }
  }

  /** How an element maps reference values to space at each point: unchanged for scalars, vectors
      and tensors, by the Jacobian for the contravariant and Piola kinds. */
  type Mapping = (nat, seq<real>) -> seq<real>

  ghost predicate MapsTo(map_: Mapping, ncomps: nat, nsc: nat) {
    forall i: nat, v: seq<real> :: |v| == ncomps ==> |map_(i, v)| == nsc
  }

  /** The row of an element at a point: its mapped values one after the other. */
  ghost predicate IsMappedRow(row: seq<real>, vals: seq<seq<real>>, map_: Mapping, i: nat, nsc: nat) {
    && |row| == |vals| * nsc
    && forall j: nat, c: nat :: j < |vals| && c < nsc ==> ViewOf(row, nsc)(j, c) == Read(map_(i, vals[j]), c)
  }

  method FillSubRow(was: seq<real>, vals: seq<seq<real>>, map_: Mapping, i: nat, ghost ncomps: nat, nsc: nat)
    returns (row: seq<real>)
    requires |was| == |vals| * nsc && PointOk(vals, |vals|, ncomps) && MapsTo(map_, ncomps, nsc)
    ensures IsMappedRow(row, vals, map_, i, nsc)
  {
    row := was;
    var j := 0;
    while j < |vals|
      invariant j <= |vals| && |row| == |was|
      invariant forall k: nat, c: nat :: k < j && c < nsc ==> ViewOf(row, nsc)(k, c) == Read(map_(i, vals[k]), c)
    {
      ghost var before := row;
      var v := map_(i, vals[j]);
      SlotsOrdered(nsc, j, nsc, |vals|);
      row := Copy(row, j * nsc, v, 0, nsc);
      forall k: nat, c: nat | k < j + 1 && c < nsc
        ensures ViewOf(row, nsc)(k, c) == Read(map_(i, vals[k]), c)
      {
        CopiedComponent(before, row, nsc, j, j * nsc, 0, v, nsc, 0, 0, k, c);
      }
      j := j + 1;
    }
  }

  // ---- gathering over elements and points -------------------------------------------------

  function LayoutOf(fe: seq<Element>, spacedim: nat): Layout {
    Layout(DofCounts(fe), SpaceCounts(fe, spacedim))
  }

  ghost predicate SubRowsOk(lay: Layout, subs: seq<seq<seq<real>>>, nPoints: nat) {
    && |subs| == |lay.dofs| == |lay.comps|
    && forall f :: 0 <= f < |subs| ==> SubRowOk(lay, subs[f], f, nPoints)
  }

  ghost predicate SubRowOk(lay: Layout, sub: seq<seq<real>>, f: nat, nPoints: nat)
    requires f < |lay.dofs| == |lay.comps|
  {
    |sub| == nPoints && forall i :: 0 <= i < nPoints ==> lay.IsSubRow(f, sub[i])
  }

  /** The rows of all elements at point i. */
  ghost function ViewsAt(lay: Layout, subs: seq<seq<seq<real>>>, nPoints: nat, i: nat): (v: seq<View>)
    requires SubRowsOk(lay, subs, nPoints) && i < nPoints
    ensures |v| == |subs| && forall f :: 0 <= f < |subs| ==> v[f] == ViewOf(subs[f][i], lay.comps[f])
  {
    assert forall f :: 0 <= f < |subs| ==> SubRowOk(lay, subs[f], f, nPoints);
    seq(|subs|, f requires 0 <= f < |subs| && i < |subs[f]| => ViewOf(subs[f][i], lay.comps[f]))
  }

  ghost predicate RowDone(lay: Layout, was: seq<real>, row: seq<real>, subs: seq<seq<seq<real>>>, nPoints: nat, i: nat,
                          done: nat)
    requires SubRowsOk(lay, subs, nPoints) && i < nPoints
  {
    lay.IsRow(row) && GatheredTo(lay, ViewOf(was, lay.NComps()), ViewOf(row, lay.NComps()),
      ViewsAt(lay, subs, nPoints, i), done)
  }

  method GatherRow(lay: Layout, ghost was: seq<real>, row: seq<real>, ghost subs: seq<seq<seq<real>>>,
                   ghost nPoints: nat, ghost i: nat,
                   f: nat, sub: seq<real>, compOffset: nat, shapeOffset: nat) returns (r: seq<real>)
    requires SubRowsOk(lay, subs, nPoints) && i < nPoints && f < |subs| && SubRowOk(lay, subs[f], f, nPoints)
      && sub == subs[f][i]
    requires RowDone(lay, was, row, subs, nPoints, i, f)
    requires compOffset == Start(lay.comps, f) && shapeOffset == Start(lay.dofs, f) * lay.NComps()
    ensures RowDone(lay, was, r, subs, nPoints, i, f + 1)
  {
    BlockBounds(lay.comps, f, f + 1);
    BlockBounds(lay.dofs, f, f + 1);
    assert lay.IsSubRow(f, sub);
    r := GatherElement(row, lay.NComps(), lay.NDofs(), shapeOffset, compOffset, sub, lay.comps[f], Start(lay.dofs, f),
      lay.dofs[f]);
    GatherStep(lay, ViewOf(was, lay.NComps()), ViewOf(row, lay.NComps()), ViewOf(r, lay.NComps()),
      ViewsAt(lay, subs, nPoints, i), f);
  }

  ghost predicate AllDone(lay: Layout, was: seq<seq<real>>, rows: seq<seq<real>>, subs: seq<seq<seq<real>>>, done: nat)
    requires SubRowsOk(lay, subs, |was|)
  {
    |rows| == |was| && forall i :: 0 <= i < |was| ==> RowDone(lay, was[i], rows[i], subs, |was|, i, done)
  }

  method GatherPoints(lay: Layout, ghost was: seq<seq<real>>, rows0: seq<seq<real>>, subs: seq<seq<seq<real>>>,
                      f: nat, compOffset: nat, shapeOffset: nat) returns (rows: seq<seq<real>>)
    requires SubRowsOk(lay, subs, |was|) && f < |subs| && AllDone(lay, was, rows0, subs, f)
    requires compOffset == Start(lay.comps, f) && shapeOffset == Start(lay.dofs, f) * lay.NComps()
    ensures AllDone(lay, was, rows, subs, f + 1)
  {
    rows := rows0;
    ghost var next := f + 1;
    assert SubRowOk(lay, subs[f], f, |was|);
    var i := 0;
    while i < |rows|
      invariant i <= |was| == |rows|
      invariant forall k :: 0 <= k < i ==> RowDone(lay, was[k], rows[k], subs, |was|, k, next)
      invariant forall k :: i <= k < |was| ==> RowDone(lay, was[k], rows[k], subs, |was|, k, f)
    {
      var r := GatherRow(lay, was[i], rows[i], subs, |was|, i, f, subs[f][i], compOffset, shapeOffset);
      rows := rows[i := r];
      i := i + 1;
    }
  }

  lemma NothingGathered(lay: Layout, row: seq<real>, subs: seq<seq<seq<real>>>, nPoints: nat, i: nat)
    requires SubRowsOk(lay, subs, nPoints) && i < nPoints && lay.IsRow(row)
    ensures RowDone(lay, row, row, subs, nPoints, i, 0)
  {
  }

  /** The gathering loops: elements, points, functions, components. */
  method GatherAll(lay: Layout, was: seq<seq<real>>, subs: seq<seq<seq<real>>>) returns (rows: seq<seq<real>>)
    requires SubRowsOk(lay, subs, |was|) && forall i :: 0 <= i < |was| ==> lay.IsRow(was[i])
    ensures AllDone(lay, was, rows, subs, |subs|)
  {
    rows := was;
    var compOffset, shapeOffset, f := 0, 0, 0;
    forall i | 0 <= i < |was|
      ensures RowDone(lay, was[i], rows[i], subs, |was|, i, 0)
    {
      NothingGathered(lay, was[i], subs, |was|, i);
    }
    while f < |subs|
      invariant f <= |subs| && compOffset == Start(lay.comps, f) && shapeOffset == Start(lay.dofs, f) * lay.NComps()
      invariant AllDone(lay, was, rows, subs, f)
    {
      rows := GatherPoints(lay, was, rows, subs, f, compOffset, shapeOffset);
      Distribute(Start(lay.dofs, f), lay.dofs[f], lay.NComps());
      compOffset := compOffset + lay.comps[f];
      shapeOffset := shapeOffset + lay.dofs[f] * lay.NComps();
      f := f + 1;
    }
  }

  /** The values of shape function (f, n) of the system on the components of element f. */
  function Part(fe: seq<Element>, vals: seq<seq<real>>, f: nat, n: nat): (v: seq<real>)
    requires f < |fe| && n < |fe[f].dofs| && PointOk(vals, NDofs(fe), NComps(fe))
    ensures |v| == fe[f].space.nComp
  {
    BlockBounds(DofCounts(fe), f, f + 1);
    BlockBounds(CompCounts(fe), f, f + 1);
    vals[DofIndex(fe, f, n)][FirstComp(fe, f)..FirstComp(fe, f) + fe[f].space.nComp]
  }

  ghost predicate MapsOk(fe: seq<Element>, spacedim: nat, maps: seq<Mapping>) {
    |maps| == |fe| && forall f :: 0 <= f < |fe| ==>
      MapsTo(maps[f], fe[f].space.nComp, SpaceComponents(fe[f].kind, spacedim))
  }

  /** The row of element f at a point holds its mapped part of the reference values. */
  ghost predicate SubHolds(fe: seq<Element>, vals: seq<seq<real>>, map_: Mapping, spacedim: nat, row: seq<real>,
                           f: nat, i: nat)
    requires f < |fe| && PointOk(vals, NDofs(fe), NComps(fe))
  {
    var nsc := SpaceComponents(fe[f].kind, spacedim);
    && |row| == |fe[f].dofs| * nsc
    && forall n: nat, c: nat :: n < |fe[f].dofs| && c < nsc ==>
      ViewOf(row, nsc)(n, c) == Read(map_(i, Part(fe, vals, f, n)), c)
  }

  /** One element at one point: extract the part and map it. */
  method FillElementRow(fe: seq<Element>, f: nat, indices: seq<nat>, first: nat, vals: seq<seq<real>>, map_: Mapping,
                        spacedim: nat, i: nat)
    returns (row: seq<real>)
    requires f < |fe| && PointOk(vals, NDofs(fe), NComps(fe)) && first == FirstComp(fe, f)
    requires MapsTo(map_, fe[f].space.nComp, SpaceComponents(fe[f].kind, spacedim))
    requires |indices| == |fe[f].dofs| && forall n: nat :: n < |indices| ==> indices[n] == DofIndex(fe, f, n)
    ensures SubHolds(fe, vals, map_, spacedim, row, f, i)
  {
    var nsc := SpaceComponents(fe[f].kind, spacedim);
    BlockBounds(DofCounts(fe), f, f + 1);
    BlockBounds(CompCounts(fe), f, f + 1);
    var sub := SubPoint(vals, indices, first, fe[f].space.nComp);
    row := seq(|sub| * nsc, _ => 0.0);
    row := FillSubRow(row, sub, map_, i, fe[f].space.nComp, nsc);
    forall n: nat | n < |indices|
      ensures sub[n] == Part(fe, vals, f, n)
    {
      assert indices[n] == DofIndex(fe, f, n);
    }
  }

  ghost predicate ElementHolds(fe: seq<Element>, ref: RefValues, map_: Mapping, spacedim: nat, rows: seq<seq<real>>,
                               f: nat)
    requires f < |fe|
  {
    && RefOk(ref, |ref|, NDofs(fe), NComps(fe)) && |rows| == |ref|
    && forall i :: 0 <= i < |ref| ==> SubHolds(fe, ref[i], map_, spacedim, rows[i], f, i)
  }

  method FillElement(fe: seq<Element>, f: nat, indices: seq<nat>, first: nat, ref: RefValues, map_: Mapping,
                     spacedim: nat)
    returns (rows: seq<seq<real>>)
    requires f < |fe| && RefOk(ref, |ref|, NDofs(fe), NComps(fe)) && first == FirstComp(fe, f)
    requires MapsTo(map_, fe[f].space.nComp, SpaceComponents(fe[f].kind, spacedim))
    requires |indices| == |fe[f].dofs| && forall n: nat :: n < |indices| ==> indices[n] == DofIndex(fe, f, n)
    ensures ElementHolds(fe, ref, map_, spacedim, rows, f)
  {
    rows := [];
    var i := 0;
    while i < |ref|
      invariant i <= |ref| && |rows| == i
      invariant forall k :: 0 <= k < i ==> SubHolds(fe, ref[k], map_, spacedim, rows[k], f, k)
    {
      var row := FillElementRow(fe, f, indices, first, ref[i], map_, spacedim, i);
      rows := rows + [row];
      i := i + 1;
    }
  }

  method FillElements(fe: seq<Element>, idx: seq<DofComponent>, ref: RefValues, maps: seq<Mapping>, spacedim: nat)
    returns (subs: seq<seq<seq<real>>>)
    requires IsIndexList(fe, idx) && RefOk(ref, |ref|, NDofs(fe), NComps(fe)) && MapsOk(fe, spacedim, maps)
    ensures |subs| == |fe| && forall f :: 0 <= f < |fe| ==> ElementHolds(fe, ref, maps[f], spacedim, subs[f], f)
  {
    subs := [];
    var compOffset, f := 0, 0;
    while f < |fe|
      invariant f <= |fe| && |subs| == f && compOffset == Start(CompCounts(fe), f)
      invariant forall g :: 0 <= g < f ==> ElementHolds(fe, ref, maps[g], spacedim, subs[g], g)
    {
      var indices := FeDofs(fe, idx, f);
      var rows := FillElement(fe, f, indices, compOffset, ref, maps[f], spacedim);
      subs := subs + [rows];
      compOffset := compOffset + fe[f].space.nComp;
      f := f + 1;
    }
  }

  lemma ElementRowsOk(fe: seq<Element>, ref: RefValues, maps: seq<Mapping>, spacedim: nat, subs: seq<seq<seq<real>>>)
    requires |subs| == |fe| == |maps| && forall f :: 0 <= f < |fe| ==>
      ElementHolds(fe, ref, maps[f], spacedim, subs[f], f)
    ensures SubRowsOk(LayoutOf(fe, spacedim), subs, |ref|)
  {
    forall f | 0 <= f < |subs|
      ensures SubRowOk(LayoutOf(fe, spacedim), subs[f], f, |ref|)
    {
      assert ElementHolds(fe, ref, maps[f], spacedim, subs[f], f);
    }
  }

  // ---- the values of a system -------------------------------------------------------------

  /** Component c of shape function (f, n) at a point: on the components of element f, its mapped
      reference value; elsewhere as before. */
  ghost predicate SlotHolds(fe: seq<Element>, spacedim: nat, vals: seq<seq<real>>, map_: Mapping, was: seq<real>,
                            row: seq<real>, i: nat, f: nat, n: nat, c: nat)
    requires f < |fe| && n < |fe[f].dofs| && PointOk(vals, NDofs(fe), NComps(fe))
  {
    var lay := LayoutOf(fe, spacedim);
    ViewOf(row, lay.NComps())(DofIndex(fe, f, n), c)
      == if lay.On(f, c) then Read(map_(i, Part(fe, vals, f, n)), c - Start(lay.comps, f))
         else ViewOf(was, lay.NComps())(DofIndex(fe, f, n), c)
  }

  lemma GatheredHolds(fe: seq<Element>, spacedim: nat, ref: RefValues, maps: seq<Mapping>, subs: seq<seq<seq<real>>>,
                      was: seq<real>, row: seq<real>, i: nat, f: nat, n: nat, c: nat)
    requires |subs| == |fe| == |maps| && f < |fe| && n < |fe[f].dofs| && i < |ref|
    requires c < LayoutOf(fe, spacedim).NComps()
    requires SubRowsOk(LayoutOf(fe, spacedim), subs, |ref|) && ElementHolds(fe, ref, maps[f], spacedim, subs[f], f)
    requires RowDone(LayoutOf(fe, spacedim), was, row, subs, |ref|, i, |subs|)
    ensures SlotHolds(fe, spacedim, ref[i], maps[f], was, row, i, f, n, c)
  {
    var lay := LayoutOf(fe, spacedim);
    var views := ViewsAt(lay, subs, |ref|, i);
    assert Gathered(lay, ViewOf(was, lay.NComps()), ViewOf(row, lay.NComps()), views, |subs|, f, n, c);
    assert SubHolds(fe, ref[i], maps[f], spacedim, subs[f][i], f, i);
    if lay.On(f, c) {
      var c' := c - Start(lay.comps, f);
      assert ViewOf(subs[f][i], lay.comps[f])(n, c') == Read(maps[f](i, Part(fe, ref[i], f, n)), c');
    }
  }

  /** Components outside those of the element of a function are zero. */
  ghost predicate OffZero(fe: seq<Element>, spacedim: nat, row: seq<real>) {
    var lay := LayoutOf(fe, spacedim);
    forall f: nat, n: nat, c: nat :: f < |fe| && n < |fe[f].dofs| && c < lay.NComps() && !lay.On(f, c) ==>
      ViewOf(row, lay.NComps())(DofIndex(fe, f, n), c) == 0.0
  }

  /** All components of all shape functions at a point are those of their elements. */
  ghost predicate RowHolds(fe: seq<Element>, spacedim: nat, vals: seq<seq<real>>, maps: seq<Mapping>, row: seq<real>,
                           i: nat)
    requires |maps| == |fe| && PointOk(vals, NDofs(fe), NComps(fe))
  {
    forall f: nat, n: nat, c: nat :: f < |fe| && n < |fe[f].dofs| && c < LayoutOf(fe, spacedim).NComps() ==>
      ValueHolds(fe, spacedim, vals, maps[f], row, i, f, n, c)
  }

  ghost predicate ValueHolds(fe: seq<Element>, spacedim: nat, vals: seq<seq<real>>, map_: Mapping, row: seq<real>,
                             i: nat, f: nat, n: nat, c: nat)
    requires f < |fe| && n < |fe[f].dofs| && PointOk(vals, NDofs(fe), NComps(fe))
  {
    var lay := LayoutOf(fe, spacedim);
    ViewOf(row, lay.NComps())(DofIndex(fe, f, n), c)
      == if lay.On(f, c) then Read(map_(i, Part(fe, vals, f, n)), c - Start(lay.comps, f)) else 0.0
  }

  lemma RowFilled(fe: seq<Element>, spacedim: nat, ref: RefValues, maps: seq<Mapping>, subs: seq<seq<seq<real>>>,
                  was: seq<real>, row: seq<real>, i: nat)
    requires |subs| == |fe| == |maps| && i < |ref| && RefOk(ref, |ref|, NDofs(fe), NComps(fe))
    requires forall f :: 0 <= f < |fe| ==> ElementHolds(fe, ref, maps[f], spacedim, subs[f], f)
    requires SubRowsOk(LayoutOf(fe, spacedim), subs, |ref|)
    requires RowDone(LayoutOf(fe, spacedim), was, row, subs, |ref|, i, |subs|) && OffZero(fe, spacedim, was)
    ensures RowHolds(fe, spacedim, ref[i], maps, row, i) && OffZero(fe, spacedim, row)
  {
    var lay := LayoutOf(fe, spacedim);
    forall f: nat, n: nat, c: nat | f < |fe| && n < |fe[f].dofs| && c < lay.NComps()
      ensures ValueHolds(fe, spacedim, ref[i], maps[f], row, i, f, n, c)
    {
      GatheredHolds(fe, spacedim, ref, maps, subs, was, row, i, f, n, c);
      assert !lay.On(f, c) ==> ViewOf(was, lay.NComps())(DofIndex(fe, f, n), c) == 0.0;
    }
    forall f: nat, n: nat, c: nat | f < |fe| && n < |fe[f].dofs| && c < lay.NComps() && !lay.On(f, c)
      ensures ViewOf(row, lay.NComps())(DofIndex(fe, f, n), c) == 0.0
    {
      assert ValueHolds(fe, spacedim, ref[i], maps[f], row, i, f, n, c);
    }
  }

  class SystemValues {
    const fe: seq<Element>
    const idx: seq<DofComponent>
    const spacedim: nat
    const nComponents: nat
    var shapeValues: seq<seq<real>>

    ghost predicate Valid()
      reads this
    {
      && IsIndexList(fe, idx) && nComponents == LayoutOf(fe, spacedim).NComps()
      && forall i :: 0 <= i < |shapeValues| ==>
        LayoutOf(fe, spacedim).IsRow(shapeValues[i]) && OffZero(fe, spacedim, shapeValues[i])
    }

    constructor (fe: seq<Element>, idx: seq<DofComponent>, spacedim: nat, nPoints: nat)
      requires IsIndexList(fe, idx)
      ensures Valid() && this.fe == fe && this.idx == idx && this.spacedim == spacedim && |shapeValues| == nPoints
    {
      this.fe, this.idx, this.spacedim := fe, idx, spacedim;
      var nc := SystemSpaceComponents(fe, spacedim);
      nComponents := nc;
      shapeValues := seq(nPoints, _ => seq(NDofs(fe) * nc, _ => 0.0));
    }

    method FillSystemData(ref: RefValues, maps: seq<Mapping>)
      requires Valid() && RefOk(ref, |shapeValues|, NDofs(fe), NComps(fe)) && MapsOk(fe, spacedim, maps)
      modifies this
      ensures Valid() && |shapeValues| == |ref|
      ensures forall i :: 0 <= i < |ref| ==> RowHolds(fe, spacedim, ref[i], maps, shapeValues[i], i)
    {
      var subs := FillElements(fe, idx, ref, maps, spacedim);
      ElementRowsOk(fe, ref, maps, spacedim, subs);
      var rows := GatherAll(LayoutOf(fe, spacedim), shapeValues, subs);
      forall i | 0 <= i < |ref|
        ensures RowHolds(fe, spacedim, ref[i], maps, rows[i], i) && OffZero(fe, spacedim, rows[i])
        ensures LayoutOf(fe, spacedim).IsRow(rows[i])
      {
        RowFilled(fe, spacedim, ref, maps, subs, shapeValues[i], rows[i], i);
      }
      shapeValues := rows;
    }

    /** Once the values are filled, every function is function n of some element f, and reads as
        its mapped reference value on the components of f, and as zero on all others. */
    method ShapeValueComponent(functionNo: nat, pointNo: nat, comp: nat, ghost vals: seq<seq<real>>,
                               ghost maps: seq<Mapping>)
      returns (v: real, ghost f: nat, ghost n: nat)
      requires Valid() && functionNo < NDofs(fe) && pointNo < |shapeValues| && comp < nComponents
      requires |maps| == |fe| && PointOk(vals, NDofs(fe), NComps(fe))
      requires RowHolds(fe, spacedim, vals, maps, shapeValues[pointNo], pointNo)
      ensures f < |fe| && n < |fe[f].dofs| && functionNo == DofIndex(fe, f, n)
      ensures var lay := LayoutOf(fe, spacedim);
        v == if lay.On(f, comp) then Read(maps[f](pointNo, Part(fe, vals, f, n)), comp - Start(lay.comps, f)) else 0.0
    {
      SlotInRow(nComponents, NDofs(fe), functionNo, comp);
      f, n := BlockOf(DofCounts(fe), |fe|, functionNo);
      assert ValueHolds(fe, spacedim, vals, maps[f], shapeValues[pointNo], pointNo, f, n, comp);
      v := shapeValues[pointNo][functionNo * nComponents + comp];
    }
  }

  // ---- from shape functions to values -----------------------------------------------------

  /** The reference values are those of the shape functions. */
  ghost predicate IsRefPoint(vals: seq<seq<real>>, V: Space, node: Matrix, nd: nat, p: seq<real>) {
    && PointOk(vals, nd, V.nComp)
    && forall j: nat, c: nat :: j < nd && c < V.nComp ==> vals[j][c] == ShapeValue(V, node, j, p, c)
  }

  method InitPoint(V: Space, node: Matrix, nd: nat, p: seq<real>) returns (vals: seq<seq<real>>)
    requires V.dim == nd && IsMatrix(node, nd, nd)
    ensures IsRefPoint(vals, V, node, nd, p)
  {
    vals := [];
    var j := 0;
    while j < nd
      invariant j <= nd && PointOk(vals, j, V.nComp)
      invariant forall k: nat, c: nat :: k < j && c < V.nComp ==> vals[k][c] == ShapeValue(V, node, k, p, c)
    {
      var value: seq<real> := [];
      var c := 0;
      while c < V.nComp
        invariant c <= V.nComp && |value| == c
        invariant forall d: nat :: d < c ==> value[d] == ShapeValue(V, node, j, p, d)
      {
        var x := ShapeValueLoop(V, node, j, p, c);
        value := value + [x];
        c := c + 1;
      }
      vals := vals + [value];
      j := j + 1;
    }
  }

  method InitFeData(V: Space, node: Matrix, nd: nat, points: seq<seq<real>>) returns (ref: RefValues)
    requires V.dim == nd && IsMatrix(node, nd, nd)
    ensures |ref| == |points| && forall i :: 0 <= i < |points| ==> IsRefPoint(ref[i], V, node, nd, points[i])
  {
    ref := [];
    var i := 0;
    while i < |points|
      invariant i <= |points| && |ref| == i && forall k :: 0 <= k < i ==> IsRefPoint(ref[k], V, node, nd, points[k])
    {
      var vals := InitPoint(V, node, nd, points[i]);
      ref := ref + [vals];
      i := i + 1;
    }
  }

  /** Shape function n of an element at a point, all its components. */
  ghost function ShapeVector(e: Element, n: nat, p: seq<real>): (v: seq<real>) {
    seq(e.space.nComp, c requires 0 <= c < e.space.nComp => ShapeValue(e.space, e.node, n, p, c))
  }

  lemma PartEntry(fe: seq<Element>, idx: seq<DofComponent>, node: Matrix, vals: seq<seq<real>>, p: seq<real>, f: nat,
                  n: nat, c: nat)
    requires ElementsOk(fe) && IsIndexList(fe, idx) && BlockDiagonal(node, NodesOf(fe), DofCounts(fe))
    requires IsRefPoint(vals, SystemSpace(fe, idx), node, NDofs(fe), p) && f < |fe| && n < |fe[f].dofs|
      && c < fe[f].space.nComp
    ensures DofIndex(fe, f, n) < |vals| && FirstComp(fe, f) + c < |vals[DofIndex(fe, f, n)]|
    ensures vals[DofIndex(fe, f, n)][FirstComp(fe, f) + c] == ShapeValue(fe[f].space, fe[f].node, n, p, c)
  {
    BlockBounds(DofCounts(fe), f, f + 1);
    BlockBounds(CompCounts(fe), f, f + 1);
    var j, comp := DofIndex(fe, f, n), FirstComp(fe, f) + c;
    assert vals[j][comp] == ShapeValue(SystemSpace(fe, idx), node, j, p, comp);
    SystemShape(fe, idx, node, f, n, p, comp);
  }

  /** The part of an element of the reference values of the system is its own shape function. */
  lemma PartIsShape(fe: seq<Element>, idx: seq<DofComponent>, node: Matrix, vals: seq<seq<real>>, p: seq<real>, f: nat,
                    n: nat)
    requires ElementsOk(fe) && IsIndexList(fe, idx) && BlockDiagonal(node, NodesOf(fe), DofCounts(fe))
    requires IsRefPoint(vals, SystemSpace(fe, idx), node, NDofs(fe), p) && f < |fe| && n < |fe[f].dofs|
    ensures Part(fe, vals, f, n) == ShapeVector(fe[f], n, p)
  {
    BlockBounds(DofCounts(fe), f, f + 1);
    BlockBounds(CompCounts(fe), f, f + 1);
    var j, first := DofIndex(fe, f, n), FirstComp(fe, f);
    var v := ShapeVector(fe[f], n, p);
    forall c: nat | c < fe[f].space.nComp
      ensures vals[j][first + c] == v[c]
    {
      PartEntry(fe, idx, node, vals, p, f, n, c);
    }
    SliceIs(vals[j], first, v);
  }

  lemma SliceIs(row: seq<real>, first: nat, v: seq<real>)
    requires first + |v| <= |row| && forall c: nat :: c < |v| ==> row[first + c] == v[c]
    ensures row[first..first + |v|] == v
  {
  }

  lemma SameValue(x: real, on: bool, map_: Mapping, i: nat, a: seq<real>, b: seq<real>, k: int)
    requires a == b && x == if on then Read(map_(i, a), k) else 0.0
    ensures x == if on then Read(map_(i, b), k) else 0.0
  {
  }

  /** The value read for component c of shape function (f, n) of the system: the mapped shape
      function n of element f on its components, zero elsewhere. */
  lemma SystemValue(fe: seq<Element>, idx: seq<DofComponent>, spacedim: nat, node: Matrix, vals: seq<seq<real>>,
                    p: seq<real>, maps: seq<Mapping>, row: seq<real>, i: nat, f: nat, n: nat, c: nat)
    requires ElementsOk(fe) && IsIndexList(fe, idx) && BlockDiagonal(node, NodesOf(fe), DofCounts(fe))
    requires IsRefPoint(vals, SystemSpace(fe, idx), node, NDofs(fe), p)
    requires |maps| == |fe| && RowHolds(fe, spacedim, vals, maps, row, i)
    requires f < |fe| && n < |fe[f].dofs| && c < LayoutOf(fe, spacedim).NComps()
    ensures ViewOf(row, LayoutOf(fe, spacedim).NComps())(DofIndex(fe, f, n), c)
         == var lay := LayoutOf(fe, spacedim);
            if lay.On(f, c) then Read(maps[f](i, ShapeVector(fe[f], n, p)), c - Start(lay.comps, f)) else 0.0
  {
    var lay := LayoutOf(fe, spacedim);
    assert ValueHolds(fe, spacedim, vals, maps[f], row, i, f, n, c);
    PartIsShape(fe, idx, node, vals, p, f, n);
    SameValue(ViewOf(row, lay.NComps())(DofIndex(fe, f, n), c), lay.On(f, c), maps[f], i,
              Part(fe, vals, f, n), ShapeVector(fe[f], n, p), c - Start(lay.comps, f));
  }
}
