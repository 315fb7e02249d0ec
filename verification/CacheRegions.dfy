/** Elements of the cache grouped by regions (src/fields/field_value_cache.cc): the list of
    elements laid out region after region, for any order of the regions. */
module CacheRegions {
  import opened Lists

  /** Elements added so far, by region. */
  type Regions = map<nat, seq<nat>>

  ghost predicate RegionsOk(regions: Regions, regionOf: nat -> nat, added: set<nat>) {
    && (forall r {:trigger RegionOk(regions[r], regionOf, r)} :: r in regions ==> RegionOk(regions[r], regionOf, r))
    && (forall e :: e in added ==> regionOf(e) in regions && e in regions[regionOf(e)])
    && (forall r, e :: r in regions && e in regions[r] ==> e in added)
  }

  ghost predicate RegionOk(elements: seq<nat>, regionOf: nat -> nat, r: nat) {
    |elements| > 0 && Distinct(elements) && forall e :: e in elements ==> regionOf(e) == r
  }

  /** An order of iteration over all regions. */
  ghost predicate IsOrder(regions: Regions, order: seq<nat>) {
    Distinct(order) && (forall r :: r in order <==> r in regions)
  }

  function Sizes(regions: Regions, order: seq<nat>): (s: seq<nat>)
    requires forall r :: r in order ==> r in regions
    ensures |s| == |order| && forall k :: 0 <= k < |order| ==> s[k] == |regions[order[k]]|
  {
    seq(|order|, k requires 0 <= k < |order| => |regions[order[k]]|)
  }

  /** The elements of the first k regions. */
  function FlatTo(regions: Regions, order: seq<nat>, k: nat): (s: seq<nat>)
    requires k <= |order| && forall r :: r in order ==> r in regions
  {
    if k == 0 then [] else FlatTo(regions, order, k - 1) + regions[order[k - 1]]
  }

  function Flat(regions: Regions, order: seq<nat>): (s: seq<nat>)
    requires forall r :: r in order ==> r in regions
  {
    FlatTo(regions, order, |order|)
  }

  lemma {:induction false} FlatLength(regions: Regions, order: seq<nat>, k: nat)
    requires k <= |order| && forall r :: r in order ==> r in regions
    ensures |FlatTo(regions, order, k)| == Start(Sizes(regions, order), k)
  {
    if k > 0 {
      FlatLength(regions, order, k - 1);
    }
  }

  lemma {:induction false} FlatPrefix(regions: Regions, order: seq<nat>, k: nat, l: nat)
    requires k <= l <= |order| && forall r :: r in order ==> r in regions
    ensures FlatTo(regions, order, k) <= FlatTo(regions, order, l)
    decreases l
  {
    if k < l {
      FlatPrefix(regions, order, k, l - 1);
    }
  }

  /** Element i of region k stands at the start of the region plus i. */
  lemma FlatAt(regions: Regions, order: seq<nat>, k: nat, i: nat)
    requires (forall r :: r in order ==> r in regions) && k < |order| && i < |regions[order[k]]|
    ensures Start(Sizes(regions, order), k) + i < |Flat(regions, order)|
    ensures Flat(regions, order)[Start(Sizes(regions, order), k) + i] == regions[order[k]][i]
  {
    FlatLength(regions, order, k);
    FlatLength(regions, order, k + 1);
    FlatPrefix(regions, order, k + 1, |order|);
  }

  /** What stands in the flat list belongs to one of its regions. */
  lemma {:induction false} FlatMember(regions: Regions, order: seq<nat>, k: nat, e: nat) returns (l: nat)
    requires k <= |order| && (forall r :: r in order ==> r in regions) && e in FlatTo(regions, order, k)
    ensures l < k && e in regions[order[l]]
  {
    if e in regions[order[k - 1]] {
      l := k - 1;
    } else {
      l := FlatMember(regions, order, k - 1, e);
    }
  }

  lemma FlatRegion(regions: Regions, regionOf: nat -> nat, added: set<nat>, order: seq<nat>, k: nat, e: nat)
    requires RegionsOk(regions, regionOf, added) && IsOrder(regions, order) && k <= |order|
      && e in FlatTo(regions, order, k)
    ensures regionOf(e) in order[..k]
  {
    var l := FlatMember(regions, order, k, e);
    assert RegionOk(regions[order[l]], regionOf, order[l]);
    assert order[..k][l] == order[l];
  }

  lemma {:induction false} FlatDistinct(regions: Regions, regionOf: nat -> nat, added: set<nat>, order: seq<nat>,
                                        k: nat)
    requires RegionsOk(regions, regionOf, added) && IsOrder(regions, order) && k <= |order|
    ensures Distinct(FlatTo(regions, order, k))
  {
    if k > 0 {
      FlatDistinct(regions, regionOf, added, order, k - 1);
      var last := regions[order[k - 1]];
      assert RegionOk(last, regionOf, order[k - 1]);
      forall e | e in last
        ensures e !in FlatTo(regions, order, k - 1)
      {
        if e in FlatTo(regions, order, k - 1) {
          FlatRegion(regions, regionOf, added, order, k - 1, e);
        }
      }
      DistinctAppend(FlatTo(regions, order, k - 1), last);
    }
  }

  lemma FlatCovers(regions: Regions, regionOf: nat -> nat, added: set<nat>, order: seq<nat>, e: nat)
    requires RegionsOk(regions, regionOf, added) && IsOrder(regions, order)
    ensures e in Flat(regions, order) <==> e in added
  {
    if e in added {
      var k := Pos(order, regionOf(e));
      var i := Pos(regions[order[k]], e);
      FlatAt(regions, order, k, i);
    } else if e in Flat(regions, order) {
      var l := FlatMember(regions, order, |order|, e);
    }
  }

  /** As many elements as were added, whatever the order. */
  lemma FlatSize(regions: Regions, regionOf: nat -> nat, added: set<nat>, order: seq<nat>)
    requires RegionsOk(regions, regionOf, added) && IsOrder(regions, order)
    ensures |Flat(regions, order)| == |added|
  {
    FlatDistinct(regions, regionOf, added, order, |order|);
    forall e
      ensures e in Flat(regions, order) <==> e in added
    {
      FlatCovers(regions, regionOf, added, order, e);
    }
    DistinctSize(Flat(regions, order), added);
  }

  /** No region is empty: the starts ascend. */
  lemma StartsAscend(sizes: seq<nat>, i: nat, j: nat)
    requires i <= j <= |sizes| && forall k :: 0 <= k < |sizes| ==> sizes[k] > 0
    ensures Start(sizes, i) + (j - i) <= Start(sizes, j)
    decreases j
  {
    if i < j {
      StartsAscend(sizes, i, j - 1);
    }
  }

  lemma SizesPositive(regions: Regions, regionOf: nat -> nat, added: set<nat>, order: seq<nat>)
    requires RegionsOk(regions, regionOf, added) && IsOrder(regions, order)
    ensures forall k :: 0 <= k < |order| ==> Sizes(regions, order)[k] > 0
    ensures |order| <= |added| == Total(Sizes(regions, order))
  {
    forall k | 0 <= k < |order|
      ensures Sizes(regions, order)[k] > 0
    {
      assert RegionOk(regions[order[k]], regionOf, order[k]);
    }
    StartsAscend(Sizes(regions, order), 0, |order|);
    FlatLength(regions, order, |order|);
    FlatSize(regions, regionOf, added, order);
  }
}
