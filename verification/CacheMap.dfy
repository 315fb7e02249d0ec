/** The map of the field value cache (src/fields/field_value_cache.cc): elements are collected by
    regions, laid out, their evaluation points marked and numbered, and values written and read
    at those numbers. */
module CacheMap {
  import opened Lists
  import opened CacheRegions
  import opened CachePoints

  const N_CACHED_ELEMENTS := 20
  const UNDEF_ELEM_IDX := 0xFFFF_FFFF

  // ---- positions of elements --------------------------------------------------------------

  /** `cacheIdx` and `elmIdx` are inverse to each other. */
  ghost predicate Inverse(cacheIdx: map<nat, nat>, elmIdx: seq<nat>) {
    && (forall e :: e in cacheIdx ==> cacheIdx[e] < |elmIdx| && elmIdx[cacheIdx[e]] == e)
    && (forall k :: 0 <= k < |elmIdx| && elmIdx[k] != UNDEF_ELEM_IDX ==>
      elmIdx[k] in cacheIdx && cacheIdx[elmIdx[k]] == k)
  }

  /** The elements of `flat` stand at the first positions, and nothing else. */
  ghost predicate Placed(flat: seq<nat>, cacheIdx: map<nat, nat>, elmIdx: seq<nat>) {
    && |flat| <= |elmIdx| && elmIdx[..|flat|] == flat
    && (forall k :: |flat| <= k < |elmIdx| ==> elmIdx[k] == UNDEF_ELEM_IDX)
    && (forall e :: e in cacheIdx <==> e in flat)
    && (forall k :: 0 <= k < |flat| ==> flat[k] in cacheIdx && cacheIdx[flat[k]] == k)
  }

  lemma PlacedInverse(flat: seq<nat>, cacheIdx: map<nat, nat>, elmIdx: seq<nat>)
    requires Placed(flat, cacheIdx, elmIdx)
    ensures Inverse(cacheIdx, elmIdx)
  {
    forall e | e in cacheIdx
      ensures cacheIdx[e] < |elmIdx| && elmIdx[cacheIdx[e]] == e
    {
      var k := Pos(flat, e);
      assert elmIdx[..|flat|][k] == elmIdx[k];
    }
    forall k | 0 <= k < |elmIdx| && elmIdx[k] != UNDEF_ELEM_IDX
      ensures elmIdx[k] in cacheIdx && cacheIdx[elmIdx[k]] == k
    {
      assert elmIdx[..|flat|][k] == elmIdx[k];
    }
  }

  lemma PlaceNext(flat: seq<nat>, cacheIdx: map<nat, nat>, elmIdx: seq<nat>, e: nat)
    requires Placed(flat, cacheIdx, elmIdx) && e !in flat && |flat| < |elmIdx|
    ensures Placed(flat + [e], cacheIdx[e := |flat|], elmIdx[|flat| := e])
  {
  }

  /** Element i of region k of a list grouped by regions. */
  ghost predicate InRegion(flat: seq<nat>, sizes: seq<nat>, order: seq<nat>, regionOf: nat -> nat, k: nat, i: nat)
    requires k < |sizes| == |order|
  {
    Start(sizes, k) + i < |flat| && regionOf(flat[Start(sizes, k) + i]) == order[k]
  }

  /** Elements grouped by regions that are not empty. */
  ghost predicate Grouped(flat: seq<nat>, sizes: seq<nat>, order: seq<nat>, regionOf: nat -> nat) {
    && |sizes| == |order| <= |flat| == Total(sizes)
    && (forall k :: 0 <= k < |sizes| ==> sizes[k] > 0)
    && (forall k: nat, i: nat :: k < |order| && i < sizes[k] ==> InRegion(flat, sizes, order, regionOf, k, i))
  }

  // ---- ranges of regions ------------------------------------------------------------------

  ghost predicate RangesOk(sizes: seq<nat>, elementRange: seq<nat>, n: nat) {
    n <= |sizes| && |sizes| < |elementRange| && forall k: nat {:trigger elementRange[k]} :: k <= n ==>
      elementRange[k] == Start(sizes, k)
  }

  ghost predicate RegionRangeOk(order: seq<nat>, regionRange: map<nat, nat>, n: nat) {
    && n <= |order|
    && (forall k :: 0 <= k < n ==> order[k] in regionRange && regionRange[order[k]] == k)
    && (forall r :: r in regionRange ==> r in order[..n])
  }

  /** The values of region k are numbered from the first to the last of its elements. */
  ghost predicate ValueRangesOk(t: Table, sizes: seq<nat>, valueRange: seq<nat>, n: nat) {
    && n <= |sizes| < |valueRange| && Total(sizes) <= |t|
    && forall k: nat :: k <= n ==> ValueRangeOk(t, sizes, valueRange, k)
  }

  ghost predicate ValueRangeOk(t: Table, sizes: seq<nat>, valueRange: seq<nat>, k: nat)
    requires k <= |sizes| < |valueRange|
  {
    Start(sizes, k) <= |t| && valueRange[k] == CountRows(t, Start(sizes, k))
  }

  /** Numbering reads past the end of the ranges exactly if every position up to the last starts
      a new region. */
  ghost predicate AllSingle(elementRange: seq<nat>, n: nat) {
    n < |elementRange| && forall k: nat :: 1 <= k <= n ==> elementRange[k] == k
  }

  /** Elements by position, the regions in their order, and the numbers of their elements. */
  datatype Grouping = Grouping(flat: seq<nat>, order: seq<nat>, sizes: seq<nat>)

  class ElementCacheMap {
    /** Maximal number of evaluation points of an element, and the regions of the elements. */
    const size: nat
    const regionOf: nat -> nat

    var elmIdx: seq<nat>
    var cacheIdx: map<nat, nat>
    var points: Table
    var pointsInCache: nat
    var regions: Regions
    var regionRange: map<nat, nat>
    var valueRange: seq<nat>
    var elementRange: seq<nat>
    var nElements: nat
    var readyToReading: bool

    /** All elements added, how they were laid out, and the table of points before numbering. */
    ghost var added: set<nat>
    ghost var lay: Grouping
    ghost var marked: Table

    ghost predicate Allocated()
      reads this
    {
      && |elmIdx| == N_CACHED_ELEMENTS && IsTable(points, N_CACHED_ELEMENTS, size)
      && |valueRange| == |elementRange| == N_CACHED_ELEMENTS + 1
    }

    /** Between rounds, or in an unfinished one: the region lists hold the elements added. */
    ghost predicate Idle()
      reads this
    {
      && Allocated() && RegionsOk(regions, regionOf, added) && UNDEF_ELEM_IDX !in added
      && forall r :: r in regionRange ==> r in regions
    }

    /** The counter covers the elements added since the start. */
    ghost predicate Collecting()
      reads this
    {
      Idle() && !readyToReading && nElements <= N_CACHED_ELEMENTS && nElements <= |added|
    }

    ghost predicate LaidOut()
      reads this
    {
      && Allocated() && Grouped(lay.flat, lay.sizes, lay.order, regionOf) && |lay.flat| <= N_CACHED_ELEMENTS
      && Placed(lay.flat, cacheIdx, elmIdx) && RegionRangeOk(lay.order, regionRange, |lay.order|)
    }

    ghost predicate Prepared()
      reads this
    {
      LaidOut() && RangesOk(lay.sizes, elementRange, |lay.sizes|) && Unnumbered(points, size)
    }

    /** The map of points holds the numbers of the marked points. */
    ghost predicate PointsNumbered()
      reads this
    {
      && Allocated() && Unnumbered(marked, size) && Numbered(marked, points, N_CACHED_ELEMENTS)
      && pointsInCache == CountRows(marked, N_CACHED_ELEMENTS)
    }

    ghost predicate Mapped()
      reads this
    {
      LaidOut() && PointsNumbered() && ValueRangesOk(marked, lay.sizes, valueRange, |lay.sizes|)
    }

    constructor (size: nat, regionOf: nat -> nat, garbage: seq<nat>)
      requires |garbage| == N_CACHED_ELEMENTS + 1
      ensures Collecting() && this.size == size && this.regionOf == regionOf && added == {} && elementRange == garbage
      ensures regions == map[] && regionRange == map[]
    {
      this.size, this.regionOf := size, regionOf;
      elmIdx, cacheIdx := seq(N_CACHED_ELEMENTS, _ => UNDEF_ELEM_IDX), map[];
      points, pointsInCache := seq(N_CACHED_ELEMENTS, _ => seq(size, _ => UNUSED)), 0;
      regions, regionRange, valueRange, elementRange := map[], map[], garbage, garbage;
      nElements, readyToReading := 0, false;
      added, lay, marked := {}, Grouping([], [], []), [];
    }

    /** The counter starts anew, the region lists do not: after an unfinished round they still
        hold its elements. */
    method StartElementsUpdate()
      requires Idle()
      modifies this`nElements, this`readyToReading
      ensures Collecting() && nElements == 0
      ensures regions == map[] ==> added == {}
    {
      nElements, readyToReading := 0, false;
      if regions == map[] {
        assert forall e :: e in added ==> regionOf(e) in regions;
      }
    }

    /** Adds an element to its region unless it is there; refused when the cache is full. */
    method Add(e: nat) returns (ok: bool)
      requires Collecting() && e < UNDEF_ELEM_IDX
      modifies this`regions, this`nElements, this`added
      ensures Collecting()
      ensures ok == (old(nElements) < N_CACHED_ELEMENTS)
      ensures added == if ok then old(added) + {e} else old(added)
      ensures |added| - nElements == |old(added)| - old(nElements)
    {
      if nElements >= N_CACHED_ELEMENTS {
        return false;
      }
      var isNew;
      regions, isNew := AddToRegion(regions, regionOf, added, e);
      if isNew {
        nElements := nElements + 1;
      }
      added := added + {e};
      return true;
    }

    /** Lays the elements out region after region, in any order of the regions. `fits` tells that no
        element is written past the end of the cache, and that is exactly if it has a position for
        every element collected. */
    method PrepareElementsToUpdate(order: seq<nat>) returns (fits: bool)
      requires Collecting() && IsOrder(regions, order)
      modifies this`elmIdx, this`cacheIdx, this`points, this`elementRange, this`regionRange, this`lay
      ensures fits <==> |added| <= N_CACHED_ELEMENTS
      ensures fits ==> Prepared() && lay.order == order && Cleared(points, size)
      ensures fits ==> forall e :: e in lay.flat <==> e in added
      ensures fits ==> elementRange[|order| + 1..] == old(elementRange)[|order| + 1..]
      ensures fits ==> forall r :: r in regionRange ==> r in regions
    {
      fits := Fits(regions, regionOf, added, order);
      if fits {
        LayOutAll(order);
      }
    }

    method LayOutAll(order: seq<nat>)
      requires Collecting() && IsOrder(regions, order) && |added| <= N_CACHED_ELEMENTS
      modifies this`elmIdx, this`cacheIdx, this`points, this`elementRange, this`regionRange, this`lay
      ensures Prepared() && lay.order == order && Cleared(points, size)
      ensures forall e :: e in lay.flat <==> e in added
      ensures elementRange[|order| + 1..] == old(elementRange)[|order| + 1..]
      ensures forall r :: r in regionRange ==> r in regions
    {
      points := ClearedPoints(size);
      ghost var flat, sizes;
      var ranges;
      cacheIdx, elmIdx, elementRange, ranges, flat, sizes :=
        LayOutElements(regions, regionOf, added, order, elementRange, N_CACHED_ELEMENTS);
      OldRangesGone(regions, order, regionRange, ranges);
      regionRange := regionRange + ranges;
      lay := Grouping(flat, order, sizes);
    }

    /** Marks points of an element. An element that was not laid out is entered at position 0,
        and then positions and elements are no longer inverse to each other. */
    method MarkUsedEvalPoints(e: nat, begin: nat, n: nat)
      requires Prepared() && begin + n <= size && e < UNDEF_ELEM_IDX
      modifies this`points, this`cacheIdx
      ensures Inverse(cacheIdx, elmIdx) <==> e in lay.flat
      ensures e in lay.flat ==>
        Prepared() && cacheIdx == old(cacheIdx) && AlsoMarked(old(points), points, cacheIdx[e], begin, n)
      ensures e !in lay.flat ==> cacheIdx == old(cacheIdx)[e := 0] && AlsoMarked(old(points), points, 0, begin, n)
    {
      PlacedInverse(lay.flat, cacheIdx, elmIdx);
      if e !in cacheIdx {
        NotInverse(cacheIdx, elmIdx, e);
        cacheIdx := cacheIdx[e := 0];
      }
      var row := MarkRow(points[cacheIdx[e]], begin, n);
      RowMarked(points, size, cacheIdx[e], row, begin, n);
      points := points[cacheIdx[e] := row];
    }

    /** Numbers the marked points, region after region. `overrun` tells that an entry past the
        end of the ranges was read (and not used). */
    method CreateElementsPointsMap() returns (overrun: bool)
      requires Prepared()
      modifies this`points, this`pointsInCache, this`valueRange, this`marked
      ensures Mapped() && marked == old(points)
      ensures overrun <==> AllSingle(elementRange, N_CACHED_ELEMENTS)
    {
      marked := points;
      points, pointsInCache, valueRange, overrun := NumberPoints(points, lay.sizes, elementRange, valueRange);
    }

    method FinishElementsUpdate()
      requires Mapped()
      modifies this`regions, this`regionRange, this`readyToReading, this`added
      ensures Ready() && Idle() && regions == map[] && regionRange == map[] && added == {}
    {
      regions, regionRange, readyToReading := map[], map[], true;
      added := {};
    }

    ghost predicate Ready()
      reads this
    {
      && PointsNumbered() && readyToReading
      && |lay.flat| <= N_CACHED_ELEMENTS && Placed(lay.flat, cacheIdx, elmIdx)
    }

    /** Position of an element in the cache. */
    method CacheIndex(e: nat) returns (c: nat)
      requires Ready() && e < UNDEF_ELEM_IDX
      ensures e in lay.flat ==> c < |lay.flat| && elmIdx[c] == e == lay.flat[c]
      ensures e !in lay.flat ==> c == UNDEF_ELEM_IDX
    {
      PlacedInverse(lay.flat, cacheIdx, elmIdx);
      if e in cacheIdx {
        c := cacheIdx[e];
        ghost var k := Pos(lay.flat, e);
      } else {
        c := UNDEF_ELEM_IDX;
      }
    }
  }

  /** The read past the end happens exactly if every region has one element and the entries after
      theirs, left from earlier rounds, continue the count. */
  lemma OverrunIff(flat: seq<nat>, sizes: seq<nat>, order: seq<nat>, regionOf: nat -> nat, was: seq<nat>,
                   elementRange: seq<nat>)
    requires Grouped(flat, sizes, order, regionOf) && |flat| <= N_CACHED_ELEMENTS
    requires |was| == |elementRange| == N_CACHED_ELEMENTS + 1
    requires RangesOk(sizes, elementRange, |sizes|) && elementRange[|order| + 1..] == was[|order| + 1..]
    ensures AllSingle(elementRange, N_CACHED_ELEMENTS) <==>
      (forall k :: 0 <= k < |sizes| ==> sizes[k] == 1) && (forall k :: |sizes| < k <= N_CACHED_ELEMENTS ==> was[k] == k)
  {
    forall k: nat | |sizes| < k <= N_CACHED_ELEMENTS
      ensures elementRange[k] == was[k]
    {
      var j := k - (|order| + 1);
      assert elementRange[|order| + 1..][j] == was[|order| + 1..][j];
    }
    if AllSingle(elementRange, N_CACHED_ELEMENTS) {
      forall k: nat | k < |sizes|
        ensures sizes[k] == 1
      {
        assert elementRange[k] == k && elementRange[k + 1] == k + 1;
        assert Start(sizes, k + 1) == Start(sizes, k) + sizes[k];
      }
    }
    if forall k :: 0 <= k < |sizes| ==> sizes[k] == 1 {
      forall k: nat | k <= |sizes|
        ensures elementRange[k] == k
      {
        SinglesCount(sizes, k);
      }
    }
  }

  lemma {:induction false} SinglesCount(sizes: seq<nat>, n: nat)
    requires n <= |sizes| && forall k :: 0 <= k < |sizes| ==> sizes[k] == 1
    ensures Start(sizes, n) == n
  {
    if n > 0 {
      SinglesCount(sizes, n - 1);
    }
  }

  lemma SameRegion(flat: seq<nat>, sizes: seq<nat>, order: seq<nat>, regionOf: nat -> nat, k: nat, i: nat, j: nat)
    requires Grouped(flat, sizes, order, regionOf) && k < |sizes| && i < sizes[k] && j < sizes[k]
    ensures Start(sizes, k) + i < |flat| && Start(sizes, k) + j < |flat|
    ensures regionOf(flat[Start(sizes, k) + i]) == regionOf(flat[Start(sizes, k) + j])
  {
    assert InRegion(flat, sizes, order, regionOf, k, i) && InRegion(flat, sizes, order, regionOf, k, j);
  }

  /** Elements of pairwise different regions are alone in theirs. */
  lemma AloneInRegion(flat: seq<nat>, sizes: seq<nat>, order: seq<nat>, regionOf: nat -> nat)
    requires Grouped(flat, sizes, order, regionOf)
    requires forall i, j :: 0 <= i < j < |flat| ==> regionOf(flat[i]) != regionOf(flat[j])
    ensures forall k :: 0 <= k < |sizes| ==> sizes[k] == 1
  {
    forall k: nat | k < |sizes|
      ensures sizes[k] == 1
    {
      if sizes[k] > 1 {
        SameRegion(flat, sizes, order, regionOf, k, 0, 1);
      }
    }
  }

  /** The number of a marked point lies in the value range of the region of its element. */
  lemma RegionOfPoint(t: Table, flat: seq<nat>, sizes: seq<nat>, order: seq<nat>, regionOf: nat -> nat,
                      valueRange: seq<nat>, e: nat, p: nat)
    returns (k: nat)
    requires Grouped(flat, sizes, order, regionOf) && ValueRangesOk(t, sizes, valueRange, |sizes|)
    requires e < |flat| && Marked(t, e, p)
    ensures k < |order| && order[k] == regionOf(flat[e]) && valueRange[k] <= Rank(t, e, p) < valueRange[k + 1]
  {
    var i;
    k, i := BlockOf(sizes, |sizes|, e);
    assert InRegion(flat, sizes, order, regionOf, k, i);
    assert ValueRangeOk(t, sizes, valueRange, k) && ValueRangeOk(t, sizes, valueRange, k + 1);
    RankInRange(t, e, p, Start(sizes, k), Start(sizes, k + 1));
  }

  /** And conversely: each number in the range of a region is that of a point of its elements. */
  lemma PointOfRegion(t: Table, flat: seq<nat>, sizes: seq<nat>, order: seq<nat>, regionOf: nat -> nat,
                      valueRange: seq<nat>, k: nat, g: nat)
    returns (e: nat, p: nat)
    requires Grouped(flat, sizes, order, regionOf) && ValueRangesOk(t, sizes, valueRange, |sizes|)
    requires k < |order| && valueRange[k] <= g < valueRange[k + 1]
    ensures e < |flat| && regionOf(flat[e]) == order[k] && Marked(t, e, p) && Rank(t, e, p) == g
  {
    assert ValueRangeOk(t, sizes, valueRange, k) && ValueRangeOk(t, sizes, valueRange, k + 1);
    BlockBounds(sizes, k, k + 1);
    e, p := RangeSurjective(t, Start(sizes, k), Start(sizes, k + 1), g);
    assert InRegion(flat, sizes, order, regionOf, k, e - Start(sizes, k));
  }

  /** The ranges of the regions follow one another within the cache. */
  lemma ValueRangesAscend(t: Table, size: nat, sizes: seq<nat>, valueRange: seq<nat>, k: nat, l: nat)
    requires IsTable(t, N_CACHED_ELEMENTS, size) && ValueRangesOk(t, sizes, valueRange, |sizes|) && k <= l <= |sizes|
    ensures valueRange[k] <= valueRange[l] <= N_CACHED_ELEMENTS * size
  {
    assert ValueRangeOk(t, sizes, valueRange, k) && ValueRangeOk(t, sizes, valueRange, l);
    StartMonotone(sizes, k, l);
    RowsMonotone(t, Start(sizes, k), Start(sizes, l));
    RowsMonotone(t, Start(sizes, l), |t|);
    CountBound(t, N_CACHED_ELEMENTS, size, N_CACHED_ELEMENTS);
  }

  // ---- marking ----------------------------------------------------------------------------

  /** Points begin, ..., begin + n - 1 of row e are marked in addition; no other entry changes. */
  ghost predicate AlsoMarked(t: Table, u: Table, e: nat, begin: nat, n: nat) {
    && |u| == |t| && e < |t| && |u[e]| == |t[e]|
    && (forall d :: 0 <= d < |t| && d != e ==> u[d] == t[d])
    && (forall p :: 0 <= p < |t[e]| ==> u[e][p] == if begin <= p < begin + n then IN_PROGRESS else t[e][p])
  }

  method MarkRow(row: seq<int>, begin: nat, n: nat) returns (r: seq<int>)
    requires begin + n <= |row|
    ensures |r| == |row|
    ensures forall p :: 0 <= p < |row| ==> r[p] == if begin <= p < begin + n then IN_PROGRESS else row[p]
  {
    r := row;
    var i := begin;
    while i < begin + n
      invariant begin <= i <= begin + n && |r| == |row|
      invariant forall p :: 0 <= p < |row| ==> r[p] == if begin <= p < i then IN_PROGRESS else row[p]
    {
      r := r[i := IN_PROGRESS];
      i := i + 1;
    }
  }

  lemma RowMarked(t: Table, size: nat, e: nat, row: seq<int>, begin: nat, n: nat)
    requires Unnumbered(t, size) && e < |t| && |row| == size
    requires forall p :: 0 <= p < size ==> row[p] == if begin <= p < begin + n then IN_PROGRESS else t[e][p]
    ensures Unnumbered(t[e := row], size) && AlsoMarked(t, t[e := row], e, begin, n)
  {
  }

  /** An element entered at position 0 without standing there breaks the correspondence. */
  lemma NotInverse(cacheIdx: map<nat, nat>, elmIdx: seq<nat>, e: nat)
    requires Inverse(cacheIdx, elmIdx) && e !in cacheIdx && e != UNDEF_ELEM_IDX
    ensures !Inverse(cacheIdx[e := 0], elmIdx)
  {
    var c := cacheIdx[e := 0];
    assert e in c && c[e] == 0;
    assert 0 < |elmIdx| && elmIdx[0] == e ==> e in cacheIdx;
  }

  // ---- numbering --------------------------------------------------------------------------

  /** Invariant of the numbering loop after i elements, `idx` being the next region end. */
  ghost predicate EndsFound(t: Table, sizes: seq<nat>, valueRange: seq<nat>, i: nat, idx: nat) {
    && |sizes| < |valueRange| && Total(sizes) <= |t|
    && (forall k: nat {:trigger ValueRangeOk(t, sizes, valueRange, k)} :: k < idx && k <= |sizes| ==>
      Start(sizes, k) <= i && ValueRangeOk(t, sizes, valueRange, k))
    && (idx <= |sizes| ==> i < Start(sizes, idx))
  }

  lemma EndFound(t: Table, sizes: seq<nat>, valueRange: seq<nat>, i: nat, idx: nat)
    requires EndsFound(t, sizes, valueRange, i, idx) && 0 < idx < |valueRange| && i < |t|
    requires (forall k :: 0 <= k < |sizes| ==> sizes[k] > 0) && (idx <= |sizes| ==> Start(sizes, idx) == i + 1)
    ensures EndsFound(t, sizes, valueRange[idx := CountRows(t, i + 1)], i + 1, idx + 1)
  {
    var valueRange' := valueRange[idx := CountRows(t, i + 1)];
    forall k: nat | k < idx + 1 && k <= |sizes|
      ensures Start(sizes, k) <= i + 1 && ValueRangeOk(t, sizes, valueRange', k)
    {
      if k < idx {
        assert ValueRangeOk(t, sizes, valueRange, k);
      }
    }
    if idx + 1 <= |sizes| {
      assert Start(sizes, idx + 1) == Start(sizes, idx) + sizes[idx];
    }
  }

  lemma EndNotFound(t: Table, sizes: seq<nat>, valueRange: seq<nat>, i: nat, idx: nat)
    requires EndsFound(t, sizes, valueRange, i, idx) && (idx <= |sizes| ==> Start(sizes, idx) != i + 1)
    ensures EndsFound(t, sizes, valueRange, i + 1, idx)
  {
  }

  lemma AllFound(t: Table, sizes: seq<nat>, valueRange: seq<nat>, idx: nat)
    requires EndsFound(t, sizes, valueRange, |t|, idx)
    ensures ValueRangesOk(t, sizes, valueRange, |sizes|)
  {
    if idx <= |sizes| {
      StartMonotone(sizes, idx, |sizes|);
    }
    assert idx > |sizes|;
    forall k: nat | k <= |sizes|
      ensures ValueRangeOk(t, sizes, valueRange, k)
    {
    }
  }

  lemma SingleNext(elementRange: seq<nat>, i: nat, idx: nat)
    requires i + 1 < |elementRange| && 1 <= idx <= i + 1 && (idx == i + 1 <==> AllSingle(elementRange, i))
    ensures elementRange[idx] == i + 1 ==> (idx + 1 == i + 2 <==> AllSingle(elementRange, i + 1))
    ensures elementRange[idx] != i + 1 ==> !AllSingle(elementRange, i + 1)
  {
    assert AllSingle(elementRange, i + 1) <==> AllSingle(elementRange, i) && elementRange[i + 1] == i + 1;
  }

  lemma NumberedNext(t: Table, u: Table, i: nat, row: seq<int>)
    requires Numbered(t, u, i) && i < |t| && |row| == |t[i]| && RowNumbered(t[i], CountRows(t, i), row, |t[i]|)
    ensures Numbered(t, u[i := row], i + 1) && CountRows(t, i + 1) == CountRows(t, i) + CountRow(t[i], |t[i]|)
  {
  }

  method NumberPoints(t: Table, ghost sizes: seq<nat>, elementRange: seq<nat>, valueRange0: seq<nat>)
    returns (u: Table, count: nat, valueRange: seq<nat>, overrun: bool)
    requires |t| == N_CACHED_ELEMENTS && |elementRange| == |valueRange0| == N_CACHED_ELEMENTS + 1
    requires RangesOk(sizes, elementRange, |sizes|) && Total(sizes) <= N_CACHED_ELEMENTS
    requires forall k :: 0 <= k < |sizes| ==> sizes[k] > 0
    ensures Numbered(t, u, |t|) && count == CountRows(t, |t|)
    ensures |valueRange| == N_CACHED_ELEMENTS + 1 && ValueRangesOk(t, sizes, valueRange, |sizes|)
    ensures overrun <==> AllSingle(elementRange, N_CACHED_ELEMENTS)
  {
    u, count, overrun := t, 0, false;
    valueRange := valueRange0[0 := 0];
    var idx := 1;
    var regionLast := elementRange[1];
    NoneEnded(t, sizes, elementRange, valueRange);
    var i := 0;
    while i < N_CACHED_ELEMENTS
      invariant i <= N_CACHED_ELEMENTS && Numbered(t, u, i) && count == CountRows(t, i)
      invariant RegionsEnded(t, sizes, elementRange, valueRange, i, idx, regionLast)
      invariant overrun == (idx > N_CACHED_ELEMENTS)
    {
      assert u[i] == t[i];
      var row, next := NumberRow(u[i], count);
      NumberedNext(t, u, i, row);
      u, count := u[i := row], next;
      valueRange, idx, regionLast, overrun := EndRegion(t, sizes, elementRange, valueRange, i, idx, regionLast, count);
      i := i + 1;
    }
    AllFound(t, sizes, valueRange, idx);
  }

  /** After row i, ranges before idx are set; idx is one past the rows exactly if all ranges are single. */
  ghost predicate RegionsEnded(t: Table, sizes: seq<nat>, elementRange: seq<nat>, valueRange: seq<nat>, i: nat,
                               idx: nat,
                               regionLast: nat)
    requires i < |elementRange|
  {
    && |valueRange| == |elementRange| && EndsFound(t, sizes, valueRange, i, idx)
    && 1 <= idx <= i + 1 && (idx == i + 1 <==> AllSingle(elementRange, i))
    && (idx < |elementRange| ==> regionLast == elementRange[idx])
  }

  lemma NoneEnded(t: Table, sizes: seq<nat>, elementRange: seq<nat>, valueRange: seq<nat>)
    requires 1 < |elementRange| == |valueRange| && valueRange[0] == 0 && RangesOk(sizes, elementRange, |sizes|)
    requires Total(sizes) <= |t| && forall k :: 0 <= k < |sizes| ==> sizes[k] > 0
    ensures RegionsEnded(t, sizes, elementRange, valueRange, 0, 1, elementRange[1])
  {
    assert ValueRangeOk(t, sizes, valueRange, 0);
    if |sizes| > 0 {
      assert Start(sizes, 1) == Start(sizes, 0) + sizes[0];
    }
  }

  /** The end of row i: if it ends the region, its value range ends here and the next one starts. `past`
      tells that the next one is past the end of the table. */
  method EndRegion(ghost t: Table, ghost sizes: seq<nat>, elementRange: seq<nat>, before: seq<nat>, i: nat, idx: nat,
                   regionLast: nat, count: nat)
    returns (valueRange: seq<nat>, idx': nat, regionLast': nat, past: bool)
    requires i + 1 < |elementRange| && i < |t| && RangesOk(sizes, elementRange, |sizes|)
    requires forall k :: 0 <= k < |sizes| ==> sizes[k] > 0
    requires RegionsEnded(t, sizes, elementRange, before, i, idx, regionLast) && count == CountRows(t, i + 1)
    ensures RegionsEnded(t, sizes, elementRange, valueRange, i + 1, idx', regionLast')
    ensures past == (idx' >= |elementRange|)
  {
    SingleNext(elementRange, i, idx);
    valueRange, idx', regionLast', past := before, idx, regionLast, false;
    if regionLast == i + 1 {
      EndFound(t, sizes, before, i, idx);
      valueRange, idx' := before[idx := count], idx + 1;
      if idx' < |elementRange| {
        regionLast' := elementRange[idx'];
      } else {
        past := true;
      }
    } else {
      EndNotFound(t, sizes, before, i, idx);
    }
  }

  lemma IsGrouped(regions: Regions, regionOf: nat -> nat, added: set<nat>, order: seq<nat>)
    requires RegionsOk(regions, regionOf, added) && IsOrder(regions, order)
    ensures Grouped(Flat(regions, order), Sizes(regions, order), order, regionOf)
    ensures Distinct(Flat(regions, order)) && |order| <= |Flat(regions, order)| == |added|
    ensures forall e :: e in Flat(regions, order) <==> e in added
  {
    SizesPositive(regions, regionOf, added, order);
    FlatDistinct(regions, regionOf, added, order, |order|);
    FlatLength(regions, order, |order|);
    FlatSize(regions, regionOf, added, order);
    forall k: nat, i: nat | k < |order| && i < Sizes(regions, order)[k]
      ensures InRegion(Flat(regions, order), Sizes(regions, order), order, regionOf, k, i)
    {
      assert RegionOk(regions[order[k]], regionOf, order[k]);
      FlatAt(regions, order, k, i);
    }
    forall e
      ensures e in Flat(regions, order) <==> e in added
    {
      FlatCovers(regions, regionOf, added, order, e);
    }
  }

  ghost predicate Cleared(t: Table, size: nat) {
    IsTable(t, N_CACHED_ELEMENTS, size) && forall e, p :: 0 <= e < |t| && 0 <= p < |t[e]| ==> t[e][p] == UNUSED
  }

  ghost predicate Unnumbered(t: Table, size: nat) {
    IsTable(t, N_CACHED_ELEMENTS, size) && forall e, p :: 0 <= e < |t| && 0 <= p < |t[e]| ==>
      t[e][p] == UNUSED || t[e][p] == IN_PROGRESS
  }

  function ClearedPoints(size: nat): (t: Table)
    ensures Cleared(t, size) && Unnumbered(t, size)
  {
    seq(N_CACHED_ELEMENTS, _ => seq(size, _ => UNUSED))
  }

  /** Places the elements of one region after those already there. */
  method PlaceRegion(ghost before: seq<nat>, list: seq<nat>, cacheIdx0: map<nat, nat>, elmIdx0: seq<nat>, nStored: nat)
    returns (cacheIdx: map<nat, nat>, elmIdx: seq<nat>, next: nat)
    requires Placed(before, cacheIdx0, elmIdx0) && Distinct(before + list)
    requires nStored == |before| && |before| + |list| <= |elmIdx0|
    ensures Placed(before + list, cacheIdx, elmIdx) && |elmIdx| == |elmIdx0| && next == |before| + |list|
  {
    cacheIdx, elmIdx, next := cacheIdx0, elmIdx0, nStored;
    var i := 0;
    assert before + list[..0] == before;
    while i < |list|
      invariant i <= |list| && next == nStored + i && |elmIdx| == |elmIdx0|
      invariant Placed(before + list[..i], cacheIdx, elmIdx)
    {
      ghost var done := before + list[..i];
      assert (before + list)[..|done|] == done && (before + list)[|done|] == list[i];
      assert done + [list[i]] == before + list[..i + 1];
      PlaceNext(done, cacheIdx, elmIdx, list[i]);
      cacheIdx := cacheIdx[list[i] := next];
      elmIdx := elmIdx[next := list[i]];
      next := next + 1;
      i := i + 1;
    }
    assert list[..|list|] == list;
  }

  lemma DistinctFlat(regions: Regions, order: seq<nat>, n: nat)
    requires n <= |order| && (forall r :: r in order ==> r in regions) && Distinct(Flat(regions, order))
    ensures Distinct(FlatTo(regions, order, n)) && |FlatTo(regions, order, n)| <= |Flat(regions, order)|
  {
    FlatPrefix(regions, order, n, |order|);
  }

  /** The positions of all elements and the ranges of all regions. */
  /** The elements of all regions together fit in the cache. */
  method Fits(regions: Regions, ghost regionOf: nat -> nat, ghost added: set<nat>, order: seq<nat>) returns (fits: bool)
    requires RegionsOk(regions, regionOf, added) && IsOrder(regions, order)
    ensures fits <==> |added| <= N_CACHED_ELEMENTS
  {
    var count, n := 0, 0;
    while n < |order|
      invariant n <= |order| && count == |FlatTo(regions, order, n)|
    {
      count := count + |regions[order[n]]|;
      n := n + 1;
    }
    FlatSize(regions, regionOf, added, order);
    fits := count <= N_CACHED_ELEMENTS;
  }

  method NoElements(capacity: nat) returns (elmIdx: seq<nat>)
    ensures |elmIdx| == capacity && Placed([], map[], elmIdx)
  {
    elmIdx := seq(capacity, _ => UNDEF_ELEM_IDX);
  }

  method LayOut(regions: Regions, order: seq<nat>, elementRange0: seq<nat>, capacity: nat)
    returns (cacheIdx: map<nat, nat>, elmIdx: seq<nat>, elementRange: seq<nat>, regionRange: map<nat, nat>)
    requires (forall r :: r in order ==> r in regions) && Distinct(order)
    requires Distinct(Flat(regions, order)) && |Flat(regions, order)| <= capacity
    requires |order| <= capacity && |elementRange0| == capacity + 1
    ensures Placed(Flat(regions, order), cacheIdx, elmIdx) && |elmIdx| == capacity
    ensures |elementRange| == capacity + 1 && RangesOk(Sizes(regions, order), elementRange, |order|)
    ensures RegionRangeOk(order, regionRange, |order|)
    ensures elementRange[|order| + 1..] == elementRange0[|order| + 1..]
  {
    cacheIdx, regionRange := map[], map[];
    elmIdx := NoElements(capacity);
    elementRange := elementRange0[0 := 0];
    ghost var sizes := Sizes(regions, order);
    var nStored, n := 0, 0;
    while n < |order|
      invariant n <= |order| && nStored == Start(sizes, n) && |elmIdx| == capacity
      invariant Placed(FlatTo(regions, order, n), cacheIdx, elmIdx)
      invariant |elementRange| == capacity + 1 && RangesOk(sizes, elementRange, n)
      invariant RegionRangeOk(order, regionRange, n)
      invariant elementRange[|order| + 1..] == elementRange0[|order| + 1..]
    {
      var list := regions[order[n]];
      FlatLength(regions, order, n);
      DistinctFlat(regions, order, n + 1);
      cacheIdx, elmIdx, nStored := PlaceRegion(FlatTo(regions, order, n), list, cacheIdx, elmIdx, nStored);
      regionRange := NextRegion(order, regionRange, n);
      FlatLength(regions, order, n + 1);
      NextRange(sizes, elementRange, n);
      elementRange := elementRange[n + 1 := nStored];
      n := n + 1;
    }
  }

  /** The same for collected elements: what is laid out is what was added, grouped by regions. */
  method LayOutElements(regions: Regions, ghost regionOf: nat -> nat, ghost added: set<nat>, order: seq<nat>,
                        elementRange0: seq<nat>, capacity: nat)
    returns (cacheIdx: map<nat, nat>, elmIdx: seq<nat>, elementRange: seq<nat>, regionRange: map<nat, nat>,
      ghost flat: seq<nat>, ghost sizes: seq<nat>)
    requires RegionsOk(regions, regionOf, added) && IsOrder(regions, order)
    requires |added| <= capacity && |elementRange0| == capacity + 1
    ensures Grouped(flat, sizes, order, regionOf) && |flat| <= capacity
    ensures Placed(flat, cacheIdx, elmIdx) && |elmIdx| == capacity && (forall e :: e in flat <==> e in added)
    ensures |elementRange| == capacity + 1 && RangesOk(sizes, elementRange, |sizes|)
    ensures RegionRangeOk(order, regionRange, |order|)
    ensures elementRange[|order| + 1..] == elementRange0[|order| + 1..]
  {
    IsGrouped(regions, regionOf, added, order);
    cacheIdx, elmIdx, elementRange, regionRange := LayOut(regions, order, elementRange0, capacity);
    flat, sizes := Flat(regions, order), Sizes(regions, order);
  }

  lemma NextRange(sizes: seq<nat>, elementRange: seq<nat>, n: nat)
    requires RangesOk(sizes, elementRange, n) && n < |sizes|
    ensures RangesOk(sizes, elementRange[n + 1 := Start(sizes, n + 1)], n + 1)
    ensures elementRange[n + 1 := Start(sizes, n + 1)][|sizes| + 1..] == elementRange[|sizes| + 1..]
  {
  }

  /** Every region in the old ranges gets a new one. */
  lemma OldRangesGone(regions: Regions, order: seq<nat>, was: map<nat, nat>, ranges: map<nat, nat>)
    requires IsOrder(regions, order) && RegionRangeOk(order, ranges, |order|) && forall r :: r in was ==> r in regions
    ensures was + ranges == ranges && forall r :: r in ranges ==> r in regions
  {
    assert order[..|order|] == order;
    forall r | r in was
      ensures r in ranges
    {
      assert order[Pos(order, r)] in ranges;
    }
  }

  function NextRegion(order: seq<nat>, regionRange: map<nat, nat>, n: nat): (m: map<nat, nat>)
    requires RegionRangeOk(order, regionRange, n) && n < |order| && Distinct(order)
    ensures RegionRangeOk(order, m, n + 1)
  {
    assert order[..n + 1] == order[..n] + [order[n]];
    regionRange[order[n] := n]
  }

  /** Appends the element to the list of its region unless it is there. */
  method AddToRegion(regions: Regions, regionOf: nat -> nat, ghost added: set<nat>, e: nat)
    returns (regions': Regions, isNew: bool)
    requires RegionsOk(regions, regionOf, added)
    ensures RegionsOk(regions', regionOf, added + {e}) && (forall r :: r in regions ==> r in regions')
    ensures |added + {e}| == if isNew then |added| + 1 else |added|
  {
    var r := regionOf(e);
    var list := if r in regions then regions[r] else [];
    isNew := e !in list;
    regions' := regions;
    if isNew {
      regions' := regions[r := list + [e]];
      AddedOk(regions, regionOf, added, e, list);
    } else {
      assert e in added && added + {e} == added;
    }
  }

  lemma AddedOk(regions: Regions, regionOf: nat -> nat, added: set<nat>, e: nat, list: seq<nat>)
    requires RegionsOk(regions, regionOf, added) && e !in list
    requires list == if regionOf(e) in regions then regions[regionOf(e)] else []
    ensures e !in added && RegionsOk(regions[regionOf(e) := list + [e]], regionOf, added + {e})
  {
    var r, regions' := regionOf(e), regions[regionOf(e) := list + [e]];
    forall s | s in regions'
      ensures RegionOk(regions'[s], regionOf, s)
    {
      if s in regions {
        assert RegionOk(regions[s], regionOf, s);
      }
    }
    forall x | x in added + {e}
      ensures regionOf(x) in regions' && x in regions'[regionOf(x)]
    {
      if x == e {
        assert (list + [e])[|list|] == e;
      }
    }
  }
}
