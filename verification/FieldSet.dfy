/** A round of the cache for a set of fields (src/fields/field_set.hh:250-252): the fields are
    updated one after the other, and fields that are functions of others read the caches of those. */
module FieldSet {
  import opened Options
  import opened Lists
  import opened CachePoints
  import opened CacheMap
  import opened FieldCache

  /** A field on one region: a constant, or a function of other fields of the set. */
  datatype Law<!V> = Fixed(value: V) | Computed(fn: seq<V> -> V, inputs: seq<nat>)

  /** A field by regions. */
  type Laws<!V> = map<nat, Law<V>>

  /** The inputs of field f are other fields of the set. */
  ghost predicate LawOk<V>(law: Law<V>, f: nat, n: nat) {
    law.Computed? ==> forall k :: 0 <= k < |law.inputs| ==> law.inputs[k] < n && law.inputs[k] != f
  }

  /** All fields are given on region r. */
  ghost predicate GivenOn<V>(fs: seq<Laws<V>>, r: nat) {
    forall f :: 0 <= f < |fs| ==> r in fs[f] && LawOk(fs[f][r], f, |fs|)
  }

  /** The inputs of field f stand before it. */
  ghost predicate AfterInputs<V>(law: Law<V>, f: nat) {
    law.Computed? ==> forall k :: 0 <= k < |law.inputs| ==> law.inputs[k] < f
  }

  ghost predicate InOrder<V>(fs: seq<Laws<V>>, r: nat) {
    forall f :: 0 <= f < |fs| && r in fs[f] ==> AfterInputs(fs[f][r], f)
  }

  /** The value of field f on region r: computed from the values of its inputs there. */
  ghost function Direct<V>(fs: seq<Laws<V>>, f: nat, r: nat): V
    requires f < |fs| && GivenOn(fs, r) && InOrder(fs, r)
    decreases f
  {
    assert AfterInputs(fs[f][r], f);
    match fs[f][r]
    case Fixed(value) => value
    case Computed(fn, inputs) =>
      fn(seq(|inputs|, k requires 0 <= k < |inputs| && inputs[k] < f => Direct(fs, inputs[k], r)))
  }

  /** What the caches held before. */
  ghost predicate SnapOk<V>(snap: seq<seq<V>>, n: nat, size: nat) {
    |snap| == n && forall f :: 0 <= f < n ==> |snap[f]| == size
  }

  /** What field f gets at position i on region r: computed from the new values of the inputs
      before it, and from what the caches of the others held. */
  ghost function Updated<V>(fs: seq<Laws<V>>, snap: seq<seq<V>>, size: nat, f: nat, r: nat, i: nat): V
    requires f < |fs| && GivenOn(fs, r) && SnapOk(snap, |fs|, size) && i < size
    decreases f
  {
    assert LawOk(fs[f][r], f, |fs|);
    match fs[f][r]
    case Fixed(value) => value
    case Computed(fn, inputs) =>
      fn(seq(|inputs|, k requires 0 <= k < |inputs| && inputs[k] < |fs| =>
        if inputs[k] < f then Updated(fs, snap, size, inputs[k], r, i) else snap[inputs[k]][i]))
  }

  /** If every field stands after its inputs, that is its value on the region. */
  lemma {:induction false} UpdatedIsDirect<V>(fs: seq<Laws<V>>, snap: seq<seq<V>>, size: nat, f: nat, r: nat, i: nat)
    requires f < |fs| && GivenOn(fs, r) && SnapOk(snap, |fs|, size) && i < size && InOrder(fs, r)
    ensures Updated(fs, snap, size, f, r, i) == Direct(fs, f, r)
    decreases f
  {
    assert LawOk(fs[f][r], f, |fs|) && AfterInputs(fs[f][r], f);
    match fs[f][r]
    case Fixed(value) =>
    case Computed(fn, inputs) =>
      var a := seq(|inputs|, k requires 0 <= k < |inputs| && inputs[k] < |fs| =>
        if inputs[k] < f then Updated(fs, snap, size, inputs[k], r, i) else snap[inputs[k]][i]);
      var b := seq(|inputs|, k requires 0 <= k < |inputs| && inputs[k] < f => Direct(fs, inputs[k], r));
      forall k | 0 <= k < |inputs|
        ensures a[k] == b[k]
      {
        UpdatedIsDirect(fs, snap, size, inputs[k], r, i);
      }
      assert a == b;
  }

  // ---- updating the caches ----------------------------------------------------------------

  ghost predicate CachesOk<V>(caches: seq<array<V>>, n: nat, size: nat) {
    && |caches| == n && (forall f :: 0 <= f < n ==> caches[f].Length == size)
    && (forall f, g :: 0 <= f < g < n ==> caches[f] != caches[g])
  }

  function InputsOf<V>(inputs: seq<nat>, caches: seq<array<V>>): (s: seq<array<V>>)
    requires forall k :: 0 <= k < |inputs| ==> inputs[k] < |caches|
    ensures |s| == |inputs| && forall k :: 0 <= k < |inputs| ==> s[k] == caches[inputs[k]]
  {
    seq(|inputs|, k requires 0 <= k < |inputs| => caches[inputs[k]])
  }

  /** The law with the caches of its inputs. */
  function Bound<V>(law: Law<V>, caches: seq<array<V>>): (a: Algorithm<V>)
    requires Bindable(law, |caches|)
  {
    match law
    case Fixed(value) => Constant(value)
    case Computed(fn, inputs) => Model(fn, InputsOf(inputs, caches))
  }

  predicate Bindable<V>(law: Law<V>, n: nat) {
    law.Computed? ==> forall k :: 0 <= k < |law.inputs| ==> law.inputs[k] < n
  }

  function BoundAll<V>(laws: Laws<V>, caches: seq<array<V>>): (m: map<nat, Algorithm<V>>)
    ensures forall r :: r in m <==> r in laws && Bindable(laws[r], |caches|)
    ensures forall r :: r in m ==> r in laws && Bindable(laws[r], |caches|) && m[r] == Bound(laws[r], caches)
  {
    map r | r in laws && Bindable(laws[r], |caches|) :: Bound(laws[r], caches)
  }

  lemma BoundOk<V>(law: Law<V>, f: nat, caches: seq<array<V>>, n: nat, size: nat)
    requires LawOk(law, f, n) && CachesOk(caches, n, size) && f < n
    ensures Bindable(law, n) && AlgorithmOk(Bound(law, caches), caches[f])
  {
  }

  /** The marked points of the cached elements hold what field f gets. */
  ghost predicate FieldHolds<V>(t: Table, flat: seq<nat>, regionOf: nat -> nat, fs: seq<Laws<V>>, snap: seq<seq<V>>,
                                size: nat, f: nat, data: array<V>)
    requires f < |fs| && SnapOk(snap, |fs|, size) && data.Length == size
    requires forall e :: 0 <= e < |flat| ==> GivenOn(fs, regionOf(flat[e]))
    reads data
  {
    forall e: nat, p: nat :: e < |flat| && Marked(t, e, p) ==>
      Rank(t, e, p) < size && data[Rank(t, e, p)] == Updated(fs, snap, size, f, regionOf(flat[e]), Rank(t, e, p))
  }

  /** The value of the bound law, when the inputs before f hold what they get and the others what
      they held. */
  lemma BoundValue<V>(fs: seq<Laws<V>>, snap: seq<seq<V>>, size: nat, caches: seq<array<V>>, f: nat, r: nat, i: nat)
    requires f < |fs| && GivenOn(fs, r) && SnapOk(snap, |fs|, size) && i < size && CachesOk(caches, |fs|, size)
    requires Bindable(fs[f][r], |caches|)
    requires forall g :: 0 <= g < f ==> caches[g][i] == Updated(fs, snap, size, g, r, i)
    requires forall g :: f < g < |fs| ==> caches[g][i] == snap[g][i]
    ensures ValueAt(Bound(fs[f][r], caches), i) == Updated(fs, snap, size, f, r, i)
  {
    assert LawOk(fs[f][r], f, |fs|);
    match fs[f][r]
    case Fixed(value) =>
    case Computed(fn, inputs) =>
      var a := seq(|inputs|, k requires 0 <= k < |inputs| && inputs[k] < |fs| =>
        if inputs[k] < f then Updated(fs, snap, size, inputs[k], r, i) else snap[inputs[k]][i]);
      assert ArgsAt(InputsOf(inputs, caches), i) == a;
  }

  ghost predicate AllGiven<V>(fs: seq<Laws<V>>, regionOf: nat -> nat, flat: seq<nat>) {
    forall e :: 0 <= e < |flat| ==> GivenOn(fs, regionOf(flat[e]))
  }

  /** The update of one field of the set. */
  method UpdateNext<V>(m: ElementCacheMap, fs: seq<Laws<V>>, caches: seq<array<V>>, f: nat, ghost snap: seq<seq<V>>,
                       ghost size: nat)
    requires m.Mapped() && size == N_CACHED_ELEMENTS * m.size && f < |fs|
    requires CachesOk(caches, |fs|, size) && SnapOk(snap, |fs|, size) && AllGiven(fs, m.regionOf, m.lay.flat)
    requires forall g :: 0 <= g < f ==> FieldHolds(m.marked, m.lay.flat, m.regionOf, fs, snap, size, g, caches[g])
    requires forall g :: f <= g < |fs| ==> caches[g][..] == snap[g]
    modifies caches[f]
    ensures FieldHolds(m.marked, m.lay.flat, m.regionOf, fs, snap, size, f, caches[f])
  {
    var visit := KeysOf(m.regionRange);
    var laws := BoundAll(fs[f], caches);
    forall r | r in m.lay.order
      ensures r in laws && AlgorithmOk(laws[r], caches[f])
    {
      var e := ElementOfRegion(m.lay.flat, m.lay.sizes, m.lay.order, m.regionOf, r);
      BoundOk(fs[f][r], f, caches, |fs|, size);
    }
    UpdateField(m, laws, caches[f], visit);
    ghost var t, flat := m.marked, m.lay.flat;
    forall e: nat, p: nat | e < |flat| && Marked(t, e, p)
      ensures Rank(t, e, p) < size
        && caches[f][Rank(t, e, p)] == Updated(fs, snap, size, f, m.regionOf(flat[e]), Rank(t, e, p))
    {
      var r, i := m.regionOf(flat[e]), Rank(t, e, p);
      assert PointHolds(t, laws[r], caches[f], e, p);
      forall g | f < g < |fs|
        ensures caches[g][i] == snap[g][i]
      {
        assert caches[g][..][i] == snap[g][i];
      }
      BoundValue(fs, snap, size, caches, f, r, i);
    }
  }

  /** Contents of all caches. */
  ghost function Contents<V>(caches: seq<array<V>>): (s: seq<seq<V>>)
    reads caches
    ensures |s| == |caches| && forall f :: 0 <= f < |caches| ==> s[f] == caches[f][..]
  {
    seq(|caches|, f requires 0 <= f < |caches| reads caches => caches[f][..])
  }

  /** Fields before f hold what they get, the others what they held. */
  ghost predicate FirstHold<V>(m: ElementCacheMap, fs: seq<Laws<V>>, caches: seq<array<V>>, f: nat, snap: seq<seq<V>>,
                               size: nat)
    requires CachesOk(caches, |fs|, size) && SnapOk(snap, |fs|, size) && AllGiven(fs, m.regionOf, m.lay.flat)
    reads m, caches
  {
    && f <= |fs|
    && (forall g :: 0 <= g < f ==> FieldHolds(m.marked, m.lay.flat, m.regionOf, fs, snap, size, g, caches[g]))
    && (forall g :: f <= g < |fs| ==> caches[g][..] == snap[g])
  }

  method UpdateStep<V>(m: ElementCacheMap, fs: seq<Laws<V>>, caches: seq<array<V>>, f: nat, ghost snap: seq<seq<V>>,
                       ghost size: nat)
    requires m.Mapped() && size == N_CACHED_ELEMENTS * m.size && f < |fs|
    requires CachesOk(caches, |fs|, size) && SnapOk(snap, |fs|, size) && AllGiven(fs, m.regionOf, m.lay.flat)
    requires FirstHold(m, fs, caches, f, snap, size)
    modifies caches
    ensures FirstHold(m, fs, caches, f + 1, snap, size)
  {
    UpdateNext(m, fs, caches, f, snap, size);
    forall g | 0 <= g < |fs| && g != f
      ensures g < f ==> FieldHolds(m.marked, m.lay.flat, m.regionOf, fs, snap, size, g, caches[g])
      ensures f < g ==> caches[g][..] == snap[g]
    {
      assert caches[g] != caches[f];
    }
  }

  /** All fields, in the order of the set. */
  method UpdateAll<V>(m: ElementCacheMap, fs: seq<Laws<V>>, caches: seq<array<V>>)
    requires m.Mapped() && CachesOk(caches, |fs|, N_CACHED_ELEMENTS * m.size) && AllGiven(fs, m.regionOf, m.lay.flat)
    modifies caches
    ensures forall f :: 0 <= f < |fs| ==>
      FieldHolds(m.marked, m.lay.flat, m.regionOf, fs, old(Contents(caches)), N_CACHED_ELEMENTS * m.size, f, caches[f])
  {
    ghost var snap, size := Contents(caches), N_CACHED_ELEMENTS * m.size;
    var f := 0;
    while f < |fs|
      invariant FirstHold(m, fs, caches, f, snap, size)
    {
      UpdateStep(m, fs, caches, f, snap, size);
      f := f + 1;
    }
  }

  // ---- a full round -----------------------------------------------------------------------

  /** Field f of the set reads, at point p of element e, as what it gets there. */
  ghost predicate ReadsAs<V>(t: Table, flat: seq<nat>, data: array<V>, e: nat, p: nat, v: V)
    reads data
  {
    && e in flat && Marked(t, Pos(flat, e), p)
    && Rank(t, Pos(flat, e), p) < data.Length && data[Rank(t, Pos(flat, e), p)] == v
  }

  /** Numbering and update of all fields. */
  method Fill<V>(m: ElementCacheMap, fs: seq<Laws<V>>, caches: seq<array<V>>)
    requires m.Prepared() && CachesOk(caches, |fs|, N_CACHED_ELEMENTS * m.size) && AllGiven(fs, m.regionOf, m.lay.flat)
    modifies m`points, m`pointsInCache, m`valueRange, m`marked, caches
    ensures m.Mapped() && m.marked == old(m.points)
    ensures forall f :: 0 <= f < |fs| ==>
      FieldHolds(m.marked, m.lay.flat, m.regionOf, fs, old(Contents(caches)), N_CACHED_ELEMENTS * m.size, f, caches[f])
  {
    var overrun := m.CreateElementsPointsMap();
    UpdateAll(m, fs, caches);
  }

  /** Each field reads at the points of a mark as its value on the region of the element. */
  ghost predicate MarkReads<V>(t: Table, flat: seq<nat>, fs: seq<Laws<V>>, f: nat, r: nat, data: array<V>, x: Mark)
    requires f < |fs| && GivenOn(fs, r) && InOrder(fs, r)
    reads data
  {
    forall p: nat :: x.begin <= p < x.begin + x.n ==> ReadsAs(t, flat, data, x.element, p, Direct(fs, f, r))
  }

  lemma MarkReadsDirect<V>(t: Table, flat: seq<nat>, regionOf: nat -> nat, fs: seq<Laws<V>>, snap: seq<seq<V>>,
                           size: nat, f: nat, data: array<V>, x: Mark)
    requires f < |fs| && SnapOk(snap, |fs|, size) && data.Length == size && AllGiven(fs, regionOf, flat)
    requires FieldHolds(t, flat, regionOf, fs, snap, size, f, data) && MarkSet(t, flat, x)
    requires GivenOn(fs, regionOf(x.element)) && InOrder(fs, regionOf(x.element))
    ensures MarkReads(t, flat, fs, f, regionOf(x.element), data, x)
  {
    forall p: nat | x.begin <= p < x.begin + x.n
      ensures ReadsAs(t, flat, data, x.element, p, Direct(fs, f, regionOf(x.element)))
    {
      var e := Pos(flat, x.element);
      assert Marked(t, e, p);
      UpdatedIsDirect(fs, snap, size, f, regionOf(flat[e]), Rank(t, e, p));
    }
  }

  /** Marking, numbering and update. */
  method FillMarked<V>(m: ElementCacheMap, marks: seq<Mark>, fs: seq<Laws<V>>, caches: seq<array<V>>)
    requires m.Prepared() && CachesOk(caches, |fs|, N_CACHED_ELEMENTS * m.size)
    requires forall e :: e in m.lay.flat ==> GivenOn(fs, m.regionOf(e)) && InOrder(fs, m.regionOf(e))
    requires forall x :: x in marks ==> x.element in m.lay.flat && x.element < UNDEF_ELEM_IDX && x.begin + x.n <= m.size
    modifies m`points, m`cacheIdx, m`pointsInCache, m`valueRange, m`marked, caches
    ensures m.Mapped()
    ensures forall f, x :: 0 <= f < |fs| && x in marks ==>
      MarkReads(m.marked, m.lay.flat, fs, f, m.regionOf(x.element), caches[f], x)
  {
    ghost var snap, size := Contents(caches), N_CACHED_ELEMENTS * m.size;
    MarkAll(m, marks);
    Fill(m, fs, caches);
    AllRead(m, marks, fs, snap, size, caches);
  }

  lemma AllRead<V>(m: ElementCacheMap, marks: seq<Mark>, fs: seq<Laws<V>>, snap: seq<seq<V>>, size: nat,
                   caches: seq<array<V>>)
    requires CachesOk(caches, |fs|, size) && SnapOk(snap, |fs|, size)
    requires forall e :: e in m.lay.flat ==> GivenOn(fs, m.regionOf(e)) && InOrder(fs, m.regionOf(e))
    requires forall x :: x in marks ==> x.element in m.lay.flat && MarkSet(m.marked, m.lay.flat, x)
    requires forall f :: 0 <= f < |fs| ==>
      FieldHolds(m.marked, m.lay.flat, m.regionOf, fs, snap, size, f, caches[f])
    ensures forall f, x :: 0 <= f < |fs| && x in marks ==>
      MarkReads(m.marked, m.lay.flat, fs, f, m.regionOf(x.element), caches[f], x)
  {
    forall f, x | 0 <= f < |fs| && x in marks
      ensures MarkReads(m.marked, m.lay.flat, fs, f, m.regionOf(x.element), caches[f], x)
    {
      MarkReadsDirect(m.marked, m.lay.flat, m.regionOf, fs, snap, size, f, caches[f], x);
    }
  }

  method Complete<V>(m: ElementCacheMap, marks: seq<Mark>, fs: seq<Laws<V>>, caches: seq<array<V>>)
    requires m.Prepared() && CachesOk(caches, |fs|, N_CACHED_ELEMENTS * m.size)
    requires forall e :: e in m.lay.flat ==> GivenOn(fs, m.regionOf(e)) && InOrder(fs, m.regionOf(e))
    requires forall x :: x in marks ==> x.element in m.lay.flat && x.element < UNDEF_ELEM_IDX && x.begin + x.n <= m.size
    modifies m, caches
    ensures m.Ready() && m.Idle() && m.regions == map[]
    ensures forall f, x :: 0 <= f < |fs| && x in marks ==>
      MarkReads(m.marked, m.lay.flat, fs, f, m.regionOf(x.element), caches[f], x)
  {
    FillMarked(m, marks, fs, caches);
    m.FinishElementsUpdate();
  }

  /** A full round for a set of fields in which every computed field stands after its inputs: every
      marked point of every added element reads, in every field, as its value on the region of the
      element. It cannot fail unless more elements are added than the cache holds. */
  method Round<V>(m: ElementCacheMap, cells: seq<nat>, marks: seq<Mark>, fs: seq<Laws<V>>, caches: seq<array<V>>)
    returns (ok: bool)
    requires m.Idle() && m.regions == map[]
    requires CachesOk(caches, |fs|, N_CACHED_ELEMENTS * m.size)
    requires forall e :: e in cells ==> e < UNDEF_ELEM_IDX && GivenOn(fs, m.regionOf(e)) && InOrder(fs, m.regionOf(e))
    requires forall x :: x in marks ==> x.element in cells && x.begin + x.n <= m.size
    modifies m, caches
    ensures |cells| <= N_CACHED_ELEMENTS ==> ok
    ensures ok ==> m.Ready() && m.Idle() && m.regions == map[]
    ensures ok ==> forall f, x :: 0 <= f < |fs| && x in marks ==>
      MarkReads(m.marked, m.lay.flat, fs, f, m.regionOf(x.element), caches[f], x)
  {
    ok := Collect(m, cells);
    if ok {
      Complete(m, marks, fs, caches);
    }
  }

  // ---- a field before its input -----------------------------------------------------------

  /** Field 0 is field 1, which is the constant 1. */
  function Reversed(): seq<Laws<int>> {
    [map[0 := Computed((args: seq<int>) => if |args| > 0 then args[0] else 0, [1])], map[0 := Fixed(1)]]
  }

  /** Field 0 then gets what the cache of field 1 held, and field 1 its value. */
  lemma ReversedUpdates(snap: seq<seq<int>>, size: nat, i: nat)
    requires SnapOk(snap, 2, size) && i < size
    ensures GivenOn(Reversed(), 0) && !InOrder(Reversed(), 0)
    ensures Updated(Reversed(), snap, size, 0, 0, i) == snap[1][i] && Updated(Reversed(), snap, size, 1, 0, i) == 1
  {
    var fs: seq<Laws<int>> := Reversed();
    var law: Law<int> := fs[0][0];
    assert law.Computed? && law.inputs == [1] && law.inputs[0] == 1;
    assert LawOk(law, 0, 2) && LawOk(fs[1][0], 1, 2) && !AfterInputs(law, 0);
  }

  method FillReversed(m: ElementCacheMap, a: array<int>, b: array<int>)
    requires m.Prepared() && a != b && a.Length == b.Length == N_CACHED_ELEMENTS * m.size && 0 < m.size
    requires m.regionOf(0) == 0 && (forall e :: e in m.lay.flat <==> e == 0)
      && MarkSet(m.points, m.lay.flat, Mark(0, 0, 1))
    requires forall i :: 0 <= i < b.Length ==> b[i] == 0
    modifies m`points, m`pointsInCache, m`valueRange, m`marked, a, b
    ensures m.Mapped()
    ensures ReadsAs(m.marked, m.lay.flat, a, 0, 0, 0) && ReadsAs(m.marked, m.lay.flat, b, 0, 0, 1)
  {
    ghost var snap := Contents([a, b]);
    ReversedUpdates(snap, a.Length, 0);
    Fill(m, Reversed(), [a, b]);
    ghost var e := Pos(m.lay.flat, 0);
    assert Marked(m.marked, e, 0);
    assert FieldHolds(m.marked, m.lay.flat, m.regionOf, Reversed(), snap, a.Length, 0, [a, b][0]);
    assert FieldHolds(m.marked, m.lay.flat, m.regionOf, Reversed(), snap, a.Length, 1, [a, b][1]);
    ReversedUpdates(snap, a.Length, Rank(m.marked, e, 0));
  }

  /** The end of a round, and two reads. */
  method ReadBoth(m: ElementCacheMap, a: array<int>, b: array<int>, ghost x: int, ghost y: int)
    returns (first: Option<int>, second: Option<int>)
    requires m.Mapped() && a.Length == b.Length == N_CACHED_ELEMENTS * m.size && 0 < m.size
    requires ReadsAs(m.marked, m.lay.flat, a, 0, 0, x) && ReadsAs(m.marked, m.lay.flat, b, 0, 0, y)
    modifies m
    ensures first == Some(x) && second == Some(y)
  {
    m.FinishElementsUpdate();
    first := GetValue(m, a, 0, 0);
    second := GetValue(m, b, 0, 0);
  }

  /** A field that stands before its input reads stale values: in a round with caches that hold 0,
      field 0 reads as 0, though the field it copies reads as 1. */
  method ReversedIsStale() returns (first: Option<int>, second: Option<int>)
    ensures first == Some(0) && second == Some(1)
  {
    var m := new ElementCacheMap(1, _ => 0, seq(N_CACHED_ELEMENTS + 1, _ => 0));
    var a, b := new int[N_CACHED_ELEMENTS](_ => 0), new int[N_CACHED_ELEMENTS](_ => 0);
    var ok := Collect(m, [0]);
    MarkAll(m, [Mark(0, 0, 1)]);
    FillReversed(m, a, b);
    first, second := ReadBoth(m, a, b, 0, 1);
  }
}
