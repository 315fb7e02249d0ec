/** Filling and reading the value cache of a field (src/fields/field.impl.hh,
    src/fields/field_constant.cc, src/fields/field_model.hh): region by region, constants and
    functions of the cached values of other fields. */
module FieldCache {
  import opened Options
  import opened Lists
  import opened CachePoints
  import opened CacheMap

  /** The field on one region: a constant, or a function of other fields given by their caches. */
  datatype Algorithm<!V> = Constant(value: V) | Model(fn: seq<V> -> V, inputs: seq<array<V>>)

  ghost predicate AlgorithmOk<V>(a: Algorithm<V>, data: array<V>) {
    a.Model? ==> forall k :: 0 <= k < |a.inputs| ==> a.inputs[k] != data && a.inputs[k].Length == data.Length
  }

  /** The values of the inputs at one position of the cache. */
  ghost function ArgsAt<V>(inputs: seq<array<V>>, i: nat): (s: seq<V>)
    requires forall k :: 0 <= k < |inputs| ==> i < inputs[k].Length
    reads inputs
  {
    seq(|inputs|, k requires 0 <= k < |inputs| && i < inputs[k].Length reads inputs => inputs[k][i])
  }

  /** The value the algorithm gives directly. */
  ghost function ValueAt<V>(a: Algorithm<V>, i: nat): V
    requires a.Model? ==> forall k :: 0 <= k < |a.inputs| ==> i < a.inputs[k].Length
    reads if a.Model? then a.inputs else []
  {
    match a
    case Constant(value) => value
    case Model(fn, inputs) => fn(ArgsAt(inputs, i))
  }

  /** The arguments are collected from the last input to the first. */
  function ModelCacheItem<V>(fn: seq<V> -> V, inputs: seq<array<V>>, index: nat, i: nat, args: seq<V>): V
    requires index <= |inputs| && forall k :: 0 <= k < |inputs| ==> i < inputs[k].Length
    reads inputs
  {
    if index == 0 then fn(args) else ModelCacheItem(fn, inputs, index - 1, i, [inputs[index - 1][i]] + args)
  }

  lemma {:induction false} ModelCacheItemIs<V>(fn: seq<V> -> V, inputs: seq<array<V>>, index: nat, i: nat, args: seq<V>)
    requires index <= |inputs| && forall k :: 0 <= k < |inputs| ==> i < inputs[k].Length
    ensures ModelCacheItem(fn, inputs, index, i, args) == fn(ArgsAt(inputs, i)[..index] + args)
  {
    var all := ArgsAt(inputs, i);
    if index == 0 {
      assert all[..0] + args == args;
    } else {
      ModelCacheItemIs(fn, inputs, index - 1, i, [inputs[index - 1][i]] + args);
      assert all[..index - 1] + ([all[index - 1]] + args) == all[..index] + args;
    }
  }

  method UpdateRegion<V>(a: Algorithm<V>, data: array<V>, begin: nat, end: nat)
    requires AlgorithmOk(a, data) && begin <= end <= data.Length
    modifies data
    ensures forall i :: 0 <= i < data.Length ==>
      data[i] == if begin <= i < end then old(ValueAt(a, i)) else old(data[i])
  {
    var i := begin;
    while i < end
      invariant begin <= i <= end
      invariant forall j :: 0 <= j < data.Length ==>
        data[j] == if begin <= j < i then old(ValueAt(a, j)) else old(data[j])
      modifies data
    {
      match a {
        case Constant(value) => data[i] := value;
        case Model(fn, inputs) =>
          ModelCacheItemIs(fn, inputs, |inputs|, i, []);
          ghost var args := ArgsAt(inputs, i);
          assert args[..|inputs|] + [] == args == old(ArgsAt(inputs, i));
          data[i] := ModelCacheItem(fn, inputs, |inputs|, i, []);
      }
      i := i + 1;
    }
  }

  // ---- all regions ------------------------------------------------------------------------

  ghost predicate Ascending(valueRange: seq<nat>, n: nat, size: nat) {
    n < |valueRange| && forall k: nat, l: nat :: k <= l <= n ==> valueRange[k] <= valueRange[l] <= size
  }

  ghost predicate FieldsOk<V>(fields: map<nat, Algorithm<V>>, data: array<V>, order: seq<nat>) {
    forall k :: 0 <= k < |order| ==> order[k] in fields && AlgorithmOk(fields[order[k]], data)
  }

  /** The field is updated on all regions in the cache, in any order. */
  method CacheUpdate<V>(fields: map<nat, Algorithm<V>>, data: array<V>, valueRange: seq<nat>,
                        regionRange: map<nat, nat>, visit: seq<nat>, ghost order: seq<nat>)
    requires RegionRangeOk(order, regionRange, |order|) && Ascending(valueRange, |order|, data.Length)
    requires FieldsOk(fields, data, order) && forall r :: r in visit <==> r in regionRange
    modifies data
    ensures forall k: nat, i: nat :: k < |order| && valueRange[k] <= i < valueRange[k + 1] ==>
      data[i] == old(ValueAt(fields[order[k]], i))
  {
    var j := 0;
    while j < |visit|
      invariant j <= |visit|
      invariant forall k: nat, i: nat ::
        k < |order| && order[k] in visit[..j] && valueRange[k] <= i < valueRange[k + 1] ==>
        data[i] == old(ValueAt(fields[order[k]], i))
    {
      var r := visit[j];
      assert r in regionRange && order[..|order|] == order;
      var n := regionRange[r];
      UpdateRegion(fields[r], data, valueRange[n], valueRange[n + 1]);
      assert visit[..j + 1] == visit[..j] + [r];
      j := j + 1;
    }
    assert visit[..|visit|] == visit;
  }

  /** The cache holds, at the number of a marked point, the value of the field there. */
  ghost predicate PointHolds<V>(t: Table, a: Algorithm<V>, data: array<V>, e: nat, p: nat)
    requires AlgorithmOk(a, data) && Marked(t, e, p)
    reads data, if a.Model? then a.inputs else []
  {
    Rank(t, e, p) < data.Length && data[Rank(t, e, p)] == ValueAt(a, Rank(t, e, p))
  }

  method UpdateField<V>(m: ElementCacheMap, fields: map<nat, Algorithm<V>>, data: array<V>, visit: seq<nat>)
    requires m.Mapped() && data.Length == N_CACHED_ELEMENTS * m.size
    requires forall r :: r in m.lay.order ==> r in fields && AlgorithmOk(fields[r], data)
    requires forall r :: r in visit <==> r in m.regionRange
    modifies data
    ensures forall e: nat, p: nat :: e < |m.lay.flat| && Marked(m.marked, e, p) ==>
      && m.regionOf(m.lay.flat[e]) in m.lay.order
      && PointHolds(m.marked, fields[m.regionOf(m.lay.flat[e])], data, e, p)
  {
    ghost var t, lay := m.marked, m.lay;
    forall k: nat, l: nat | k <= l <= |lay.order|
      ensures m.valueRange[k] <= m.valueRange[l] <= data.Length
    {
      ValueRangesAscend(t, m.size, lay.sizes, m.valueRange, k, l);
    }
    CacheUpdate(fields, data, m.valueRange, m.regionRange, visit, lay.order);
    forall e: nat, p: nat | e < |lay.flat| && Marked(t, e, p)
      ensures m.regionOf(lay.flat[e]) in lay.order
      ensures PointHolds(t, fields[m.regionOf(lay.flat[e])], data, e, p)
    {
      var k := RegionOfPoint(t, lay.flat, lay.sizes, lay.order, m.regionOf, m.valueRange, e, p);
      ValueRangesAscend(t, m.size, lay.sizes, m.valueRange, k + 1, k + 1);
    }
  }

  /** The cached read: the value at the number of the point, if the element is in the cache and
      the point was marked. */
  method GetValue<V>(m: ElementCacheMap, data: array<V>, e: nat, p: nat) returns (v: Option<V>)
    requires m.Ready() && data.Length == N_CACHED_ELEMENTS * m.size && p < m.size && e < UNDEF_ELEM_IDX
    ensures v.Some? <==> e in m.lay.flat && Marked(m.marked, Pos(m.lay.flat, e), p)
    ensures v.Some? ==>
      Rank(m.marked, Pos(m.lay.flat, e), p) < data.Length
      && v.value == data[Rank(m.marked, Pos(m.lay.flat, e), p)]
  {
    var c := m.CacheIndex(e);
    if c == UNDEF_ELEM_IDX {
      return None;
    }
    PosInFlat(m.lay.flat, m.cacheIdx, m.elmIdx, c);
    NumberedAt(m.marked, m.points, c, p);
    var i := m.points[c][p];
    if i < 0 {
      return None;
    }
    RankInRange(m.marked, c, p, 0, N_CACHED_ELEMENTS);
    CountBound(m.marked, N_CACHED_ELEMENTS, m.size, N_CACHED_ELEMENTS);
    return Some(data[i]);
  }

  lemma PosInFlat(flat: seq<nat>, cacheIdx: map<nat, nat>, elmIdx: seq<nat>, c: nat)
    requires Placed(flat, cacheIdx, elmIdx) && c < |flat|
    ensures Pos(flat, flat[c]) == c
  {
    var k := Pos(flat, flat[c]);
    assert cacheIdx[flat[k]] == k && cacheIdx[flat[c]] == c;
  }

  // ---- a full round -----------------------------------------------------------------------

  /** The keys of a hash map in whatever order it iterates. */
  method KeysOf<T>(m: map<nat, T>) returns (s: seq<nat>)
    ensures Distinct(s) && forall r :: r in s <==> r in m
  {
    s := [];
    var rest := m.Keys;
    while rest != {}
      invariant Distinct(s) && rest <= m.Keys
      invariant forall r :: r in s <==> r in m.Keys - rest
      decreases |rest|
    {
      var r :| r in rest;
      DistinctAppend(s, [r]);
      s, rest := s + [r], rest - {r};
    }
  }

  method AddAll(m: ElementCacheMap, cells: seq<nat>) returns (ok: bool)
    requires m.Collecting() && forall c :: c in cells ==> c < UNDEF_ELEM_IDX
    modifies m`regions, m`nElements, m`added
    ensures m.Collecting() && |m.added| - m.nElements == |old(m.added)| - old(m.nElements)
    ensures ok ==> forall e :: e in m.added <==> e in old(m.added) || e in cells
    ensures old(m.nElements) + |cells| <= N_CACHED_ELEMENTS ==> ok
  {
    ok := true;
    var i := 0;
    while i < |cells| && ok
      invariant i <= |cells|
      invariant m.Collecting() && |m.added| - m.nElements == |old(m.added)| - old(m.nElements)
      invariant ok ==> AddedFirst(old(m.added), m.added, cells, i)
      invariant old(m.nElements) + |cells| <= N_CACHED_ELEMENTS ==> ok && m.nElements <= old(m.nElements) + i
      decreases |cells| - i, ok
    {
      assert cells[i] in cells;
      AddedNext(old(m.added), m.added, cells, i);
      ok := m.Add(cells[i]);
      if ok {
        i := i + 1;
      }
    }
    assert ok ==> cells[..i] == cells;
  }

  /** The first i cells are added. */
  ghost predicate AddedFirst(before: set<nat>, added: set<nat>, cells: seq<nat>, i: nat)
    requires i <= |cells|
  {
    forall e :: e in added <==> e in before || e in cells[..i]
  }

  lemma AddedNext(before: set<nat>, added: set<nat>, cells: seq<nat>, i: nat)
    requires i < |cells| && AddedFirst(before, added, cells, i)
    ensures AddedFirst(before, added + {cells[i]}, cells, i + 1)
  {
    assert cells[..i + 1] == cells[..i] + [cells[i]];
  }

  datatype Mark = Mark(element: nat, begin: nat, n: nat)

  /** The points of the mark are marked. */
  ghost predicate MarkSet(t: Table, flat: seq<nat>, x: Mark) {
    x.element in flat && forall p: nat :: x.begin <= p < x.begin + x.n ==> Marked(t, Pos(flat, x.element), p)
  }

  lemma MarkKept(t: Table, u: Table, flat: seq<nat>, x: Mark, e: nat, begin: nat, n: nat)
    requires AlsoMarked(t, u, e, begin, n) && MarkSet(t, flat, x)
    ensures MarkSet(u, flat, x)
  {
    forall p: nat | x.begin <= p < x.begin + x.n
      ensures Marked(u, Pos(flat, x.element), p)
    {
      assert Marked(t, Pos(flat, x.element), p);
    }
  }

  method MarkAll(m: ElementCacheMap, marks: seq<Mark>)
    requires m.Prepared()
    requires forall x :: x in marks ==> x.element in m.lay.flat && x.element < UNDEF_ELEM_IDX && x.begin + x.n <= m.size
    modifies m`points, m`cacheIdx
    ensures m.Prepared() && m.cacheIdx == old(m.cacheIdx)
    ensures forall x :: x in marks ==> MarkSet(m.points, m.lay.flat, x)
  {
    var i := 0;
    while i < |marks|
      invariant i <= |marks| && m.Prepared() && m.cacheIdx == old(m.cacheIdx)
      invariant forall k :: 0 <= k < i ==> MarkSet(m.points, m.lay.flat, marks[k])
    {
      ghost var before := m.points;
      var x := marks[i];
      assert x in marks;
      m.MarkUsedEvalPoints(x.element, x.begin, x.n);
      forall k | 0 <= k < i
        ensures MarkSet(m.points, m.lay.flat, marks[k])
      {
        MarkKept(before, m.points, m.lay.flat, marks[k], m.cacheIdx[x.element], x.begin, x.n);
      }
      PosIsIndex(m.lay.flat, m.cacheIdx, m.elmIdx, x.element);
      i := i + 1;
    }
  }

  lemma PosIsIndex(flat: seq<nat>, cacheIdx: map<nat, nat>, elmIdx: seq<nat>, e: nat)
    requires Placed(flat, cacheIdx, elmIdx) && e in flat
    ensures cacheIdx[e] == Pos(flat, e)
  {
  }

  /** Start, additions and layout. */
  method Collect(m: ElementCacheMap, cells: seq<nat>) returns (ok: bool)
    requires m.Idle() && m.regions == map[] && forall e :: e in cells ==> e < UNDEF_ELEM_IDX
    modifies m
    ensures ok ==> m.Prepared() && forall e :: e in m.lay.flat <==> e in cells
    ensures ok ==> m.elementRange[|m.lay.order| + 1..] == old(m.elementRange)[|m.lay.order| + 1..]
    ensures |cells| <= N_CACHED_ELEMENTS ==> ok
  {
    ok := StartAndAdd(m, cells);
    if ok {
      var order := KeysOf(m.regions);
      var fits := m.PrepareElementsToUpdate(order);
    }
  }

  method StartAndAdd(m: ElementCacheMap, cells: seq<nat>) returns (ok: bool)
    requires m.Idle() && m.regions == map[] && forall e :: e in cells ==> e < UNDEF_ELEM_IDX
    modifies m`regions, m`nElements, m`added, m`readyToReading
    ensures m.Collecting() && |m.added| <= N_CACHED_ELEMENTS
    ensures ok ==> forall e :: e in m.added <==> e in cells
    ensures |cells| <= N_CACHED_ELEMENTS ==> ok
  {
    m.StartElementsUpdate();
    ok := AddAll(m, cells);
  }

  /** Every region in the cache is that of an element. */
  lemma ElementOfRegion(flat: seq<nat>, sizes: seq<nat>, order: seq<nat>, regionOf: nat -> nat, r: nat) returns (e: nat)
    requires Grouped(flat, sizes, order, regionOf) && r in order
    ensures e in flat && regionOf(e) == r
  {
    var k := Pos(order, r);
    assert InRegion(flat, sizes, order, regionOf, k, 0);
    e := flat[Start(sizes, k)];
  }
}
