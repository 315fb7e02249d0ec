/** Which algorithm of a field is in force at a time (Field::set_time in src/fields/field.impl.hh), said
    from the items of the input alone, with the ordinary order of times. */
module FieldLimits {
  import opened Options
  import opened TimeLimits
  import opened FieldHistory

  /** The item has an algorithm for region r. */
  ghost predicate For(item: Item, r: nat) {
    r in item.domain && item.field.Some?
  }

  /** Later items for a region have later times. */
  ghost predicate Strict(list: seq<Item>) {
    forall r: nat, k: nat, l: nat :: k < l < |list| && For(list[k], r) && For(list[l], r) ==>
      list[k].time < list[l].time
  }

  /** No item for region r has nearly, but not exactly, the time t. */
  ghost predicate Sharp(list: seq<Item>, t: real, r: nat) {
    forall k: nat :: k < |list| && For(list[k], r) ==> SharpAt(list[k].time, t)
  }

  ghost predicate SharpAt(x: real, t: real) {
    || x == t
    || t - x > 0.000000000000004 * (1.0 + t)
    || x - t > 0.000000000000004 * (1.0 + x)
  }

  /** Item k is the last for region r with a time up to t. */
  ghost predicate LatestUpTo(list: seq<Item>, t: real, r: nat, k: nat) {
    && k < |list| && For(list[k], r) && list[k].time <= t
    && forall l: nat :: l < |list| && For(list[l], r) && list[l].time <= t ==> l <= k
  }

  /** Item k is the last for region r with a time before t. */
  ghost predicate LatestBefore(list: seq<Item>, t: real, r: nat, k: nat) {
    && k < |list| && For(list[k], r) && list[k].time < t
    && forall l: nat :: l < |list| && For(list[l], r) && list[l].time < t ==> l <= k
  }

  ghost predicate NoneUpTo(list: seq<Item>, t: real, r: nat) {
    forall l: nat :: l < |list| && For(list[l], r) ==> t < list[l].time
  }

  ghost predicate NoneBefore(list: seq<Item>, t: real, r: nat) {
    forall l: nat :: l < |list| && For(list[l], r) ==> t <= list[l].time
  }

  // ---- items and records ------------------------------------------------------------------

  /** Every record of a region is an item for it ... */
  lemma {:induction false} ItemOf(list: seq<Item>, n: nat, r: nat, i: nat) returns (k: nat)
    requires n <= |list| && i < |Records(list, n, r)|
    ensures k < n && For(list[k], r) && |Records(list, k, r)| == i
    ensures Records(list, n, r)[i] == Point(list[k].time, list[k].field.value)
  {
    if i < |Records(list, n - 1, r)| {
      k := ItemOf(list, n - 1, r, i);
    } else {
      k := n - 1;
    }
  }

  /** ... and every such item is a record, in the same order. */
  lemma {:induction false} RecordOf(list: seq<Item>, n: nat, r: nat, k: nat) returns (i: nat)
    requires k < n <= |list| && For(list[k], r)
    ensures i < |Records(list, n, r)| && |Records(list, k, r)| == i
    ensures Records(list, n, r)[i] == Point(list[k].time, list[k].field.value)
  {
    if k < n - 1 {
      i := RecordOf(list, n - 1, r, k);
    } else {
      i := |Records(list, k, r)|;
    }
  }

  lemma CountsGrow(list: seq<Item>, k: nat, l: nat, r: nat)
    requires k < |list| && l < |list| && For(list[k], r)
    ensures k < l <==> |Records(list, k, r)| < |Records(list, l, r)|
  {
    if k < l {
      RecordsPrefix(list, k + 1, l, r);
    } else {
      RecordsPrefix(list, l, k, r);
    }
  }

  lemma StrictAscends(list: seq<Item>)
    requires Strict(list)
    ensures RegionsAscend(list)
  {
    forall r: nat
      ensures Ascending(Records(list, |list|, r))
    {
      var s := Records(list, |list|, r);
      forall i: nat, j: nat | i < j < |s|
        ensures s[i].time < s[j].time
      {
        var k := ItemOf(list, |list|, r, i);
        var l := ItemOf(list, |list|, r, j);
        CountsGrow(list, k, l, r);
      }
    }
  }

  // ---- the limits -------------------------------------------------------------------------

  /** The default was entered for region r: no item for it was read at the first time. */
  ghost predicate Entered(f: Field, r: nat)
    reads f
  {
    f.default.Some? && forall k: nat :: k < |f.inputList| && k < f.first ==> !For(f.inputList[k], r)
  }

  /** All records of a region: the default at time 0 if it was entered, and then the items. */
  lemma RecordsAre(f: Field, r: nat)
    requires r < |f.active| && f.active[r] && f.first <= |f.inputList|
    ensures f.AllRecords(r) == (if Entered(f, r) then [Point(0.0, f.default.value)] else [])
                             + Records(f.inputList, |f.inputList|, r)
  {
    if Entered(f, r) {
      if |Records(f.inputList, f.first, r)| > 0 {
        var k := ItemOf(f.inputList, f.first, r, 0);
      }
    } else if f.default.Some? {
      var k: nat :| k < |f.inputList| && k < f.first && For(f.inputList[k], r);
      var i := RecordOf(f.inputList, f.first, r, k);
    }
  }

  /** A time up to t, or before t, with tolerance is one without. */
  lemma SharpTimes(x: real, t: real)
    requires 0.0 <= x && 0.0 <= t && SharpAt(x, t)
    ensures (Ge(t, x) <==> x <= t) && (Gt(t, x) <==> x < t)
  {
    if x < t {
      ClearIsAfter(t, x);
      GeExact(t, x);
    } else if t < x {
      ClearIsAfter(x, t);
      GtIs(t, x);
    }
  }

  /** What is known of all records of a region: at most one default at time 0, then the items. */
  ghost predicate AllOf(all: seq<Point>, base: seq<Point>, list: seq<Item>, r: nat) {
    && all == base + Records(list, |list|, r) && |base| <= 1 && Ascending(all) && TimesOk(list)
    && forall i :: 0 <= i < |base| ==> base[i].time == 0.0
  }

  lemma PositionOf(all: seq<Point>, base: seq<Point>, list: seq<Item>, r: nat, k: nat) returns (i: nat)
    requires AllOf(all, base, list, r) && k < |list| && For(list[k], r)
    ensures |base| <= i < |all| && i == |base| + |Records(list, k, r)|
    ensures all[i] == Point(list[k].time, list[k].field.value)
  {
    i := RecordOf(list, |list|, r, k);
    i := |base| + i;
  }

  lemma ItemAt(all: seq<Point>, base: seq<Point>, list: seq<Item>, r: nat, i: nat) returns (k: nat)
    requires AllOf(all, base, list, r) && |base| <= i < |all|
    ensures k < |list| && For(list[k], r) && i == |base| + |Records(list, k, r)|
    ensures all[i] == Point(list[k].time, list[k].field.value)
  {
    k := ItemOf(list, |list|, r, i - |base|);
  }

  lemma LatestIs(all: seq<Point>, base: seq<Point>, list: seq<Item>, t: real, r: nat, i: nat) returns (k: nat)
    requires AllOf(all, base, list, r) && |base| <= i < |all| && all[i].time <= t
    requires forall j: nat :: i < j < |all| ==> t < all[j].time
    ensures LatestUpTo(list, t, r, k) && all[i].field == list[k].field.value
  {
    k := ItemAt(all, base, list, r, i);
    forall l: nat | l < |list| && For(list[l], r) && list[l].time <= t
      ensures l <= k
    {
      var j := PositionOf(all, base, list, r, l);
      CountsGrow(list, k, l, r);
    }
  }

  lemma LatestBeforeIs(all: seq<Point>, base: seq<Point>, list: seq<Item>, t: real, r: nat, i: nat) returns (k: nat)
    requires AllOf(all, base, list, r) && |base| <= i < |all| && all[i].time < t
    requires forall j: nat :: i < j < |all| ==> t <= all[j].time
    ensures LatestBefore(list, t, r, k) && all[i].field == list[k].field.value
  {
    k := ItemAt(all, base, list, r, i);
    forall l: nat | l < |list| && For(list[l], r) && list[l].time < t
      ensures l <= k
    {
      var j := PositionOf(all, base, list, r, l);
      CountsGrow(list, k, l, r);
    }
  }

  lemma NoItems(all: seq<Point>, base: seq<Point>, list: seq<Item>, t: real, r: nat)
    requires AllOf(all, base, list, r)
    ensures (forall j: nat :: |base| <= j < |all| ==> t < all[j].time) ==> NoneUpTo(list, t, r)
    ensures (forall j: nat :: |base| <= j < |all| ==> t <= all[j].time) ==> NoneBefore(list, t, r)
  {
    forall l: nat | l < |list| && For(list[l], r)
      ensures exists j: nat :: |base| <= j < |all| && all[j].time == list[l].time
    {
      var j := PositionOf(all, base, list, r, l);
    }
  }

  /** The right limit: the last item up to the time, or the default if there is none. */
  lemma RightInForce(f: Field, t: real, r: nat)
    requires f.At(t, Right) && Strict(f.inputList) && r < |f.active| && f.active[r] && Sharp(f.inputList, t, r)
    ensures (exists k: nat :: LatestUpTo(f.inputList, t, r, k) && f.regionFields[r] == f.inputList[k].field)
      || (NoneUpTo(f.inputList, t, r) && f.default.Some? && f.regionFields[r] == f.default)
  {
    StrictAscends(f.inputList);
    var i := RightLimitInForce(f, t, r);
    var base := if Entered(f, r) then [Point(0.0, f.default.value)] else [];
    RecordsOk(f, t, Right, r, base);
    RightChoice(f.AllRecords(r), base, f.inputList, t, r, i);
  }

  lemma RecordsOk(f: Field, t: real, side: LimitSide, r: nat, base: seq<Point>)
    requires f.At(t, side) && RegionsAscend(f.inputList) && r < |f.active| && f.active[r]
    requires base == if Entered(f, r) then [Point(0.0, f.default.value)] else []
    ensures AllOf(f.AllRecords(r), base, f.inputList, r)
  {
    RecordsAre(f, r);
    BaseOfOk(f.inputList, f.first, f.active, f.default, f.firstTime);
  }

  lemma RightChoice(all: seq<Point>, base: seq<Point>, list: seq<Item>, t: real, r: nat, i: nat)
    requires AllOf(all, base, list, r) && LastUpTo(all, t, i) && 0.0 <= t && Sharp(list, t, r)
    ensures i < |base| ==> NoneUpTo(list, t, r)
    ensures i >= |base| ==> exists k: nat :: LatestUpTo(list, t, r, k) && all[i].field == list[k].field.value
  {
    AllPlain(all, base, list, t, r);
    if i < |base| {
      NoItems(all, base, list, t, r);
    } else {
      var k := LatestIs(all, base, list, t, r, i);
    }
  }

  /** The left limit: the last item before the time; if there is none, the default where it was
      entered, otherwise the item at the time itself. */
  lemma LeftInForce(f: Field, t: real, r: nat)
    requires f.At(t, Left) && Strict(f.inputList) && r < |f.active| && f.active[r] && Sharp(f.inputList, t, r)
    ensures (exists k: nat :: LatestBefore(f.inputList, t, r, k) && f.regionFields[r] == f.inputList[k].field)
      || (NoneBefore(f.inputList, t, r)
          && if Entered(f, r) then f.regionFields[r] == f.default
             else exists k: nat :: ItemAtTime(f.inputList, t, r, k) && f.regionFields[r] == f.inputList[k].field)
  {
    StrictAscends(f.inputList);
    var n, i := LeftLimitInForce(f, t, r);
    var base := if Entered(f, r) then [Point(0.0, f.default.value)] else [];
    RecordsOk(f, t, Left, r, base);
    LeftChosen(f.AllRecords(r), base, f.inputList, t, r, n, i);
  }

  ghost predicate ItemAtTime(list: seq<Item>, t: real, r: nat, k: nat) {
    k < |list| && For(list[k], r) && list[k].time == t
  }

  lemma SharpRecord(all: seq<Point>, base: seq<Point>, list: seq<Item>, t: real, r: nat, i: nat)
    requires AllOf(all, base, list, r) && |base| <= i < |all| && 0.0 <= t && Sharp(list, t, r)
    ensures (Ge(t, all[i].time) <==> all[i].time <= t) && (Gt(t, all[i].time) <==> all[i].time < t)
  {
    var k := ItemAt(all, base, list, r, i);
    SharpTimes(all[i].time, t);
  }

  /** From record m on, times compare with t as they are. */
  ghost predicate PlainFrom(all: seq<Point>, m: nat, t: real) {
    forall j: nat :: m <= j < |all| ==>
      (Ge(t, all[j].time) <==> all[j].time <= t) && (Gt(t, all[j].time) <==> all[j].time < t)
  }

  lemma AllPlain(all: seq<Point>, base: seq<Point>, list: seq<Item>, t: real, r: nat)
    requires AllOf(all, base, list, r) && 0.0 <= t && Sharp(list, t, r)
    ensures PlainFrom(all, |base|, t)
  {
    forall j: nat | |base| <= j < |all|
      ensures (Ge(t, all[j].time) <==> all[j].time <= t) && (Gt(t, all[j].time) <==> all[j].time < t)
    {
      SharpRecord(all, base, list, t, r, j);
    }
  }

  /** The record chosen is the last before t, or the only one, at t. */
  lemma LeftRecord(all: seq<Point>, n: nat, t: real, m: nat, i: nat)
    requires Ascending(all) && KnownAt(all, n, t) && 0 < n && PlainFrom(all, m, t) && m <= 1
    requires i == n - 1 - HistoryIndex(n, all[n - 1].time, t, Left)
    ensures forall j: nat :: i < j < |all| && m <= j ==> t <= all[j].time
    ensures m <= i && t <= all[i].time ==> m == 0 && all[i].time == t
  {
  }

  lemma AtTimeIs(all: seq<Point>, base: seq<Point>, list: seq<Item>, t: real, r: nat, i: nat) returns (k: nat)
    requires AllOf(all, base, list, r) && |base| <= i < |all| && all[i].time == t
    ensures ItemAtTime(list, t, r, k) && all[i].field == list[k].field.value
  {
    k := ItemAt(all, base, list, r, i);
  }

  lemma LeftChosen(all: seq<Point>, base: seq<Point>, list: seq<Item>, t: real, r: nat, n: nat, i: nat)
    requires AllOf(all, base, list, r) && KnownAt(all, n, t) && 0 < n && 0.0 <= t && Sharp(list, t, r)
    requires i == n - 1 - HistoryIndex(n, all[n - 1].time, t, Left)
    ensures i < |base| ==> NoneBefore(list, t, r)
    ensures i >= |base| ==>
      (exists k: nat :: LatestBefore(list, t, r, k) && all[i].field == list[k].field.value)
      || (|base| == 0 && NoneBefore(list, t, r)
          && exists k: nat :: ItemAtTime(list, t, r, k) && all[i].field == list[k].field.value)
  {
    AllPlain(all, base, list, t, r);
    LeftRecord(all, n, t, |base|, i);
    if forall j: nat :: |base| <= j < |all| ==> t <= all[j].time {
      NoItems(all, base, list, t, r);
    }
    if i >= |base| {
      if all[i].time < t {
        var k := LatestBeforeIs(all, base, list, t, r, i);
      } else {
        var k := AtTimeIs(all, base, list, t, r, i);
      }
    }
  }

  // ---- jumps ------------------------------------------------------------------------------

  /** The field has a record of region r at time t: an item, or the default at time 0. */
  ghost predicate RecordAt(f: Field, t: real, r: nat)
    reads f
  {
    (exists k: nat :: ItemAtTime(f.inputList, t, r, k)) || (t == 0.0 && Entered(f, r))
  }

  lemma NewestIs(f: Field, t: real, side: LimitSide, r: nat) returns (n: nat)
    requires f.At(t, side) && RegionsAscend(f.inputList) && r < |f.active| && f.active[r]
    ensures 0 < n && KnownAt(f.AllRecords(r), n, t)
    ensures |f.history[r]| > 0 && f.history[r][0] == f.AllRecords(r)[n - 1]
  {
    var base := BaseOf(f.inputList, f.first, f.active, f.default);
    n := |Full(base, f.inputList, f.listIdx, r)|;
    ReadIsSet(f.history, f.first, f.active, f.default, f.inputList, f.listIdx, f.firstTime, t);
    RingRefinesList(f.history, base, f.first, f.active, f.default, f.inputList, f.listIdx, t, side, r);
    FullPrefix(base, f.inputList, f.listIdx, r);
  }

  /** The newest known record is at t exactly if some record is. */
  lemma NewestAtTime(all: seq<Point>, base: seq<Point>, list: seq<Item>, t: real, r: nat, n: nat)
    requires AllOf(all, base, list, r) && KnownAt(all, n, t) && 0 < n && Sharp(list, t, r)
    requires t == 0.0 || t > 0.000000000000004 * (1.0 + t)
    ensures !Gt(t, all[n - 1].time) <==> (exists k: nat :: ItemAtTime(list, t, r, k)) || (t == 0.0 && |base| > 0)
  {
    AllPlain(all, base, list, t, r);
    if n - 1 >= |base| {
      var l := ItemAt(all, base, list, r, n - 1);
    }
    GtIs(t, all[n - 1].time);
    if t > 0.0 {
      ClearIsAfter(t, 0.0);
    }
    if !Gt(t, all[n - 1].time) && n - 1 >= |base| {
      var k := AtTimeIs(all, base, list, t, r, n - 1);
    }
    if k: nat :| ItemAtTime(list, t, r, k) {
      var i := PositionOf(all, base, list, r, k);
      assert i < n && (i < n - 1 ==> all[i].time < all[n - 1].time);
    }
  }

  /** The time is a jump exactly if the field has a record there, on a region where it matters. */
  lemma JumpIs(f: Field, t: real, side: LimitSide)
    requires f.At(t, side) && Strict(f.inputList)
    requires forall r: nat :: r < |f.active| && f.active[r] ==> Sharp(f.inputList, t, r)
    requires t == 0.0 || t > 0.000000000000004 * (1.0 + t)
    ensures f.isJumpTime <==> exists r: nat :: r < |f.active| && f.active[r] && RecordAt(f, t, r)
  {
    StrictAscends(f.inputList);
    forall r: nat | r < |f.active| && f.active[r]
      ensures JumpAt(f.history, f.active, t, r) <==> RecordAt(f, t, r)
    {
      var n := NewestIs(f, t, side, r);
      var base := if Entered(f, r) then [Point(0.0, f.default.value)] else [];
      RecordsOk(f, t, side, r, base);
      NewestAtTime(f.AllRecords(r), base, f.inputList, t, r, n);
    }
  }

  /** What is asked of a field at the first time: a default, or an item for every region where it
      matters. */
  lemma SufficesIs(default: Option<nat>, active: seq<bool>, list: seq<Item>, n: nat)
    requires n <= |list|
    ensures Suffices(default, active, list, n) <==>
      default.Some? || forall r: nat :: r < |active| && active[r] ==> exists k: nat :: k < n && For(list[k], r)
  {
    forall r: nat | r < |active| && active[r]
      ensures Records(list, n, r) != [] <==> exists k: nat :: k < n && For(list[k], r)
    {
      if Records(list, n, r) != [] {
        var k := ItemOf(list, n, r, 0);
      }
      if k: nat :| k < n && For(list[k], r) {
        var i := RecordOf(list, n, r, k);
      }
    }
  }
}
