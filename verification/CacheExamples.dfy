/** Where the cache map (src/fields/field_value_cache.cc) falls short, at inputs: each method runs
    the phases of the map and returns what can be seen afterwards. */
module CacheExamples {
  import opened Lists
  import opened CacheMap
  import opened FieldCache

  /** Element 5 is added and element 7 marked: element 7 is then found at position 0, where
      element 5 stands. */
  method MarkMissing() returns (position: nat, element: nat)
    ensures position == 0 && element == 5
  {
    var m := new ElementCacheMap(1, _ => 0, seq(N_CACHED_ELEMENTS + 1, _ => 0));
    var ok := Collect(m, [5]);
    FirstIs(m.lay.flat, m.lay.sizes, m.lay.order, m.regionOf, m.cacheIdx, m.elmIdx, 5);
    m.MarkUsedEvalPoints(7, 0, 1);
    position := m.cacheIdx[7];
    element := m.elmIdx[position];
  }

  lemma FirstIs(flat: seq<nat>, sizes: seq<nat>, order: seq<nat>, regionOf: nat -> nat, cacheIdx: map<nat, nat>,
                elmIdx: seq<nat>, e: nat)
    requires Grouped(flat, sizes, order, regionOf) && Placed(flat, cacheIdx, elmIdx)
    requires forall x :: x in flat <==> x == e
    ensures |flat| > 0 && elmIdx[0] == e
  {
    assert e in flat;
    assert elmIdx[..|flat|][0] == elmIdx[0] && flat[0] in flat;
  }

  function Below(n: nat): (s: seq<nat>)
    ensures |s| == n && forall e: nat :: e in s <==> e < n
  {
    if n == 0 then [] else Below(n - 1) + [n - 1]
  }

  // ---- reading past the end of the ranges -------------------------------------------------

  /** A round with the elements 0, ..., n - 1, each in a region of its own: the first n ranges count
      up, and an entry past the end is read exactly if the stale ones continue the count. */
  method SingleRound(m: ElementCacheMap, n: nat) returns (overrun: bool)
    requires m.Idle() && m.regions == map[] && n <= N_CACHED_ELEMENTS && forall e :: m.regionOf(e) == e
    modifies m
    ensures m.Idle() && m.regions == map[] && AllSingle(m.elementRange, n)
    ensures m.elementRange[n + 1..] == old(m.elementRange)[n + 1..]
    ensures overrun <==> forall k :: n < k <= N_CACHED_ELEMENTS ==> old(m.elementRange)[k] == k
  {
    ghost var was := m.elementRange;
    var ok := Collect(m, Below(n));
    AllAlone(m.lay.flat, m.lay.sizes, m.lay.order, m.regionOf, m.cacheIdx, m.elmIdx, n);
    OverrunIff(m.lay.flat, m.lay.sizes, m.lay.order, m.regionOf, was, m.elementRange);
    CountUp(m.lay.sizes, m.elementRange);
    overrun := m.CreateElementsPointsMap();
    m.FinishElementsUpdate();
  }

  lemma CountUp(sizes: seq<nat>, elementRange: seq<nat>)
    requires RangesOk(sizes, elementRange, |sizes|) && forall k :: 0 <= k < |sizes| ==> sizes[k] == 1
    ensures AllSingle(elementRange, |sizes|)
  {
    forall k: nat | 1 <= k <= |sizes|
      ensures elementRange[k] == k
    {
      SinglesCount(sizes, k);
    }
  }

  lemma AllAlone(flat: seq<nat>, sizes: seq<nat>, order: seq<nat>, regionOf: nat -> nat, cacheIdx: map<nat, nat>,
                 elmIdx: seq<nat>, n: nat)
    requires Grouped(flat, sizes, order, regionOf) && Placed(flat, cacheIdx, elmIdx)
    requires (forall e :: regionOf(e) == e) && forall e: nat :: e in flat <==> e < n
    ensures |sizes| == |order| == n && forall k :: 0 <= k < |sizes| ==> sizes[k] == 1
  {
    forall i, j | 0 <= i < j < |flat|
      ensures regionOf(flat[i]) != regionOf(flat[j])
    {
      assert cacheIdx[flat[i]] == i && cacheIdx[flat[j]] == j;
    }
    AloneInRegion(flat, sizes, order, regionOf);
    SinglesCount(sizes, |sizes|);
    DistinctSize(flat, BelowSet(n));
  }

  /** Twenty elements in twenty regions read past the end, and so do nineteen in nineteen in the
      next round; without the earlier round these do not. */
  method TwentyRegions() returns (twenty: bool, nineteen: bool, nineteenAlone: bool)
    ensures twenty && nineteen && !nineteenAlone
  {
    var m := new ElementCacheMap(0, e => e, seq(N_CACHED_ELEMENTS + 1, _ => 0));
    twenty := SingleRound(m, 20);
    nineteen := SingleRound(m, 19);
    var other := new ElementCacheMap(0, e => e, seq(N_CACHED_ELEMENTS + 1, _ => 0));
    assert other.elementRange[20] == 0;
    nineteenAlone := SingleRound(other, 19);
  }

  // ---- a start after an unfinished round --------------------------------------------------

  /** What a start and additions leave in the region lists, whatever was there before: the lists
      hold the leftovers and what the counter counts. So they are too many for the cache exactly if
      these two together exceed its positions, and never without leftovers. */
  method Restart(m: ElementCacheMap, cells: seq<nat>) returns (accepted: bool, fits: bool)
    requires m.Idle() && forall e :: e in cells ==> e < UNDEF_ELEM_IDX
    modifies m
    ensures |m.added| == |old(m.added)| + m.nElements && m.nElements <= N_CACHED_ELEMENTS
    ensures accepted ==> forall e :: e in m.added <==> e in old(m.added) || e in cells
    ensures |cells| <= N_CACHED_ELEMENTS ==> accepted
    ensures fits <==> |old(m.added)| + m.nElements <= N_CACHED_ELEMENTS
    ensures old(m.added) == {} ==> fits
  {
    m.StartElementsUpdate();
    accepted := AddAll(m, cells);
    var order := KeysOf(m.regions);
    fits := m.PrepareElementsToUpdate(order);
  }

  /** After a start that was not followed by a finish, twenty more elements are accepted: the region
      lists then hold twenty-one, more than the cache has positions. */
  method RestartOverfills() returns (accepted: bool, fits: bool, m: ElementCacheMap)
    ensures accepted && !fits && |m.added| == N_CACHED_ELEMENTS + 1
  {
    m := new ElementCacheMap(0, e => e, seq(N_CACHED_ELEMENTS + 1, _ => 0));
    var first := m.Add(100);
    accepted, fits := Restart(m, Below(N_CACHED_ELEMENTS));
    OneMore(m.added, N_CACHED_ELEMENTS, 100);
  }

  lemma OneMore(s: set<nat>, n: nat, x: nat)
    requires n <= x && forall e: nat :: e in s <==> e < n || e == x
    ensures |s| == n + 1
  {
    assert s == BelowSet(n) + {x};
  }
}
