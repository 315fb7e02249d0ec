/** Time history of a field (src/fields/field.impl.hh): per region a ring of the last three time
    records read from the input, and the record in force at a time, with left and right limits. */
module FieldHistory {
  import opened Options
  import opened TimeLimits

  /** A time and the field algorithm in force from then on. */
  datatype Point = Point(time: real, field: nat)

  /** An input record; without an algorithm if it has no key of this field. */
  datatype Item = Item(time: real, domain: set<nat>, field: Option<nat>)

  datatype LimitSide = Left | Right

  const HISTORY_LENGTH_LIMIT := 3

  // ---- the full list of records of a region ------------------------------------------------

  /** Records of region r among the first n items. */
  ghost function Records(list: seq<Item>, n: nat, r: nat): (s: seq<Point>)
    requires n <= |list|
  {
    if n == 0 then []
    else Records(list, n - 1, r) + ItemPoints(list[n - 1], r)
  }

  function ItemPoints(item: Item, r: nat): (s: seq<Point>) {
    if r in item.domain && item.field.Some? then [Point(item.time, item.field.value)] else []
  }

  ghost predicate Ascending(s: seq<Point>) {
    forall i, j :: 0 <= i < j < |s| ==> s[i].time < s[j].time
  }

  /** Times never decrease and are not negative: checked when the input is set. */
  ghost predicate TimesOk(list: seq<Item>) {
    (forall i :: 0 <= i < |list| ==> 0.0 <= list[i].time)
      && (forall i, j :: 0 <= i < j < |list| ==> list[i].time <= list[j].time)
  }

  /** The times of each region ascend strictly. */
  ghost predicate RegionsAscend(list: seq<Item>) {
    forall r: nat :: Ascending(Records(list, |list|, r))
  }

  lemma {:induction false} RecordsPrefix(list: seq<Item>, n: nat, m: nat, r: nat)
    requires n <= m <= |list|
    ensures Records(list, n, r) <= Records(list, m, r)
    decreases m
  {
    if n < m {
      RecordsPrefix(list, n, m - 1, r);
    }
  }

  /** The record at a position stems from an item. */
  lemma {:induction false} RecordFrom(list: seq<Item>, n: nat, r: nat, i: nat) returns (k: nat)
    requires n <= |list| && i < |Records(list, n, r)|
    ensures k < n && Records(list, n, r)[i].time == list[k].time && i < |Records(list, k + 1, r)|
      && |Records(list, k, r)| <= i
  {
    if i < |Records(list, n - 1, r)| {
      k := RecordFrom(list, n - 1, r, i);
    } else {
      k := n - 1;
    }
  }

  /** The items with a time up to t are the first n. */
  ghost predicate SplitsAt(list: seq<Item>, n: nat, t: real) {
    && n <= |list|
    && (forall i :: 0 <= i < n ==> Ge(t, list[i].time))
    && (forall i :: n <= i < |list| ==> !Ge(t, list[i].time))
  }

  /** And so for the records of each region. */
  lemma RecordsSplit(list: seq<Item>, n: nat, t: real, r: nat, i: nat)
    requires SplitsAt(list, n, t) && i < |Records(list, |list|, r)|
    ensures Ge(t, Records(list, |list|, r)[i].time) <==> i < |Records(list, n, r)|
  {
    var k := RecordFrom(list, |list|, r, i);
    if k < n {
      RecordsPrefix(list, k + 1, n, r);
    } else {
      RecordsPrefix(list, n, k, r);
    }
  }

  // ---- the ring ---------------------------------------------------------------------------

  /** The ring holds the last records, the newest first. */
  ghost predicate IsRing(ring: seq<Point>, full: seq<Point>) {
    && |ring| == (if |full| < HISTORY_LENGTH_LIMIT then |full| else HISTORY_LENGTH_LIMIT)
    && forall i :: 0 <= i < |ring| ==> ring[i] == full[|full| - 1 - i]
  }

  function PushFront(ring: seq<Point>, p: Point): (r: seq<Point>) {
    if |ring| < HISTORY_LENGTH_LIMIT then [p] + ring else [p] + ring[..HISTORY_LENGTH_LIMIT - 1]
  }

  /** A later record is pushed; one not later than the oldest in the ring overwrites that one. */
  function Enter(ring: seq<Point>, p: Point): (r: seq<Point>) {
    if |ring| == 0 || ring[|ring| - 1].time < p.time then PushFront(ring, p) else ring[|ring| - 1 := p]
  }

  lemma EnterKeepsRing(ring: seq<Point>, full: seq<Point>, p: Point)
    requires IsRing(ring, full) && Ascending(full + [p])
    ensures IsRing(Enter(ring, p), full + [p])
    ensures |Enter(ring, p)| == if |full| < 2 then |full| + 1 else 3
  {
    PushKeepsRing(ring, full, p);
    if |ring| > 0 {
      OldestIsEarlier(ring, full, p);
    }
  }

  lemma PushKeepsRing(ring: seq<Point>, full: seq<Point>, p: Point)
    requires IsRing(ring, full)
    ensures IsRing(PushFront(ring, p), full + [p])
  {
    var next, more := PushFront(ring, p), full + [p];
    forall i | 0 <= i < |next|
      ensures next[i] == more[|more| - 1 - i]
    {
      assert i > 0 ==> next[i] == ring[i - 1];
    }
  }

  lemma OldestIsEarlier(ring: seq<Point>, full: seq<Point>, p: Point)
    requires IsRing(ring, full) && |ring| > 0 && Ascending(full + [p])
    ensures ring[|ring| - 1].time < p.time
  {
    var oldest := |full| - |ring|;
    assert (full + [p])[oldest] == ring[|ring| - 1] && (full + [p])[|full|] == p;
  }

  /** A record with the time of the newest one should rewrite it; that happens exactly if the ring
      holds no older one, otherwise both are kept. */
  lemma RewriteIff(ring: seq<Point>, full: seq<Point>, p: Point)
    requires IsRing(ring, full) && Ascending(full) && |full| > 0 && p.time == full[|full| - 1].time
    ensures Enter(ring, p) == ring[0 := p] <==> |full| == 1
    ensures |full| > 1 ==> Enter(ring, p)[0] == p && Enter(ring, p)[1] == ring[0]
  {
    assert full[|full| - 1] == ring[0];
    if |full| > 1 {
      var oldest := |full| - |ring|;
      assert full[oldest] == ring[|ring| - 1] && full[oldest].time < full[|full| - 1].time;
      var e := Enter(ring, p);
      assert e == PushFront(ring, p) && e[1] == ring[0];
      assert |full| == 2 ==> |e| == 3 && |ring| == 2;
      if |full| > 2 {
        assert full[|full| - 2] == ring[1] && ring[1].time < ring[0].time;
      }
    }
  }

  /** Records at 0 and 1, and another one at 1: the ring keeps both, so the left limit at time 1 is
      the record that should have been rewritten. */
  lemma RewriteKeepsBoth()
    ensures var full, p := [Point(0.0, 0), Point(1.0, 1)], Point(1.0, 2);
      var ring := [Point(1.0, 1), Point(0.0, 0)];
      && IsRing(ring, full) && Ascending(full) && Enter(ring, p) == [p, Point(1.0, 1), Point(0.0, 0)]
      && HistoryIndex(3, 1.0, 1.0, Left) == 1 && Enter(ring, p)[1] == Point(1.0, 1)
  {
    var ring, p := [Point(1.0, 1), Point(0.0, 0)], Point(1.0, 2);
    assert PushFront(ring, p) == [p] + ring;
  }

  // ---- limits -----------------------------------------------------------------------------

  /** Position in the ring chosen at time t: the newest record, but the one before if the time is
      that of the newest and the left limit is wanted. */
  function HistoryIndex(size: nat, newest: real, t: real, side: LimitSide): (i: nat)
    requires size > 0
    ensures i < size
  {
    var i := if Gt(t, newest) || side == Right then 0 else 1;
    if i < size then i else size - 1
  }

  /** The record in force: the last one known at time t, or the one before. */
  ghost function Selected(known: seq<Point>, t: real, side: LimitSide): (p: Point)
    requires |known| > 0
  {
    known[|known| - 1 - HistoryIndex(|known|, known[|known| - 1].time, t, side)]
  }

  lemma RingSelects(ring: seq<Point>, full: seq<Point>, t: real, side: LimitSide)
    requires IsRing(ring, full) && |full| > 0
    ensures |ring| > 0 && ring[HistoryIndex(|ring|, ring[0].time, t, side)] == Selected(full, t, side)
  {
  }

  /** The first n records of all are those with a time up to t. */
  ghost predicate KnownAt(all: seq<Point>, n: nat, t: real) {
    n <= |all| && forall i :: 0 <= i < |all| ==> (Ge(t, all[i].time) <==> i < n)
  }

  /** Record i is the last with a time up to t, or before t. */
  ghost predicate LastUpTo(all: seq<Point>, t: real, i: nat) {
    i < |all| && Ge(t, all[i].time) && forall j :: i < j < |all| ==> !Ge(t, all[j].time)
  }

  ghost predicate LastBefore(all: seq<Point>, t: real, i: nat) {
    i < |all| && Gt(t, all[i].time) && forall j :: i < j < |all| ==> !Gt(t, all[j].time)
  }

  /** The right limit is the last record up to t. */
  lemma RightLimit(all: seq<Point>, n: nat, t: real)
    requires KnownAt(all, n, t) && n > 0
    ensures LastUpTo(all, t, n - 1) && Selected(all[..n], t, Right) == all[n - 1]
  {
  }

  /** The left limit is the only known record, or the last record before t exactly if the last but
      one is before t. */
  lemma LeftLimit(all: seq<Point>, n: nat, t: real)
    requires Ascending(all) && KnownAt(all, n, t) && n > 0
    ensures n == 1 ==> Selected(all[..n], t, Left) == all[0]
    ensures n > 1 ==> ((exists i: nat :: LastBefore(all, t, i) && Selected(all[..n], t, Left) == all[i]) <==>
      Gt(t, all[n - 2].time))
  {
    if n > 1 {
      var i: nat := if Gt(t, all[n - 1].time) then n - 1 else n - 2;
      assert Selected(all[..n], t, Left) == all[i];
      forall j | n <= j < |all|
        ensures !Gt(t, all[j].time)
      {
        if Gt(t, all[j].time) {
          GtIsGe(t, all[j].time);
        }
      }
      if Gt(t, all[n - 2].time) {
        assert LastBefore(all, t, i);
      } else {
        if Gt(t, all[n - 1].time) {
          GtMonotone(t, t, all[n - 2].time, all[n - 1].time);
        }
        forall k: nat | LastBefore(all, t, k)
          ensures Selected(all[..n], t, Left) != all[k]
        {
          assert all[k] != all[n - 2];
        }
      }
    }
  }

  /** Records at 0, 1 and just after 1: at the time of the last, the left limit is the record at 1,
      which is not before that time; the last record before it is the one at 0. */
  lemma LeftLimitTooClose()
    ensures var all, t := [Point(0.0, 0), Point(1.0, 1), Point(1.0 + TOLERANCE, 2)], 1.0 + TOLERANCE;
      && Ascending(all) && KnownAt(all, 3, t) && LastBefore(all, t, 0)
      && Selected(all[..3], t, Left) == all[1]
  {
    var all, t := [Point(0.0, 0), Point(1.0, 1), Point(1.0 + TOLERANCE, 2)], 1.0 + TOLERANCE;
    assert Gt(t, all[0].time) && !Gt(t, all[1].time) && !Gt(t, all[2].time);
    assert all[..3] == all;
  }

  /** If the last two known records are apart, the left limit is the last record before t. */
  lemma LeftLimitApart(all: seq<Point>, n: nat, t: real)
    requires Ascending(all) && KnownAt(all, n, t) && n > 1 && 0.0 <= t
    requires 0.0 <= all[n - 2].time && Apart(all[n - 2].time, all[n - 1].time)
    ensures exists i: nat :: LastBefore(all, t, i) && Selected(all[..n], t, Left) == all[i]
  {
    ApartSeparates(t, all[n - 2].time, all[n - 1].time);
    LeftLimit(all, n, t);
  }

  // ---- the rings of all regions -----------------------------------------------------------

  /** All records of region r: the default, if it was entered, and those of the input. */
  ghost function Full(base: seq<seq<Point>>, list: seq<Item>, n: nat, r: nat): (s: seq<Point>)
    requires r < |base| && n <= |list|
  {
    base[r] + Records(list, n, r)
  }

  ghost predicate RingsOk(history: seq<seq<Point>>, base: seq<seq<Point>>, list: seq<Item>, n: nat) {
    |history| == |base| && n <= |list| && forall r: nat :: r < |base| ==> IsRing(history[r], Full(base, list, n, r))
  }

  ghost predicate AllAscend(base: seq<seq<Point>>, list: seq<Item>) {
    forall r: nat :: r < |base| ==> Ascending(Full(base, list, |list|, r))
  }

  lemma FullPrefix(base: seq<seq<Point>>, list: seq<Item>, n: nat, r: nat)
    requires r < |base| && n <= |list|
    ensures Full(base, list, n, r) <= Full(base, list, |list|, r)
  {
    RecordsPrefix(list, n, |list|, r);
  }

  /** The input is accepted exactly if its times are not negative and never decrease. */
  method CheckInput(list: seq<Item>) returns (ok: bool)
    ensures ok <==> TimesOk(list)
  {
    var last := 0.0;
    var i := 0;
    while i < |list|
      invariant i <= |list| && TimesOk(list[..i]) && last == if i == 0 then 0.0 else list[i - 1].time
    {
      if list[i].time < last {
        assert i > 0 ==> list[i - 1].time > list[i].time;
        return false;
      }
      last := list[i].time;
      i := i + 1;
    }
    assert list[..i] == list;
    return true;
  }

  /** The ring of region r after an item. */
  function EnterItem(ring: seq<Point>, item: Item, r: nat): (s: seq<Point>) {
    if r in item.domain && item.field.Some? then Enter(ring, Point(item.time, item.field.value)) else ring
  }

  /** The ring of region r after the items n, ..., m - 1. */
  ghost function EnterItems(ring: seq<Point>, list: seq<Item>, n: nat, m: nat, r: nat): (s: seq<Point>)
    requires n <= m <= |list|
  {
    if n == m then ring else EnterItem(EnterItems(ring, list, n, m - 1, r), list[m - 1], r)
  }

  /** Enters one item in the rings of its regions. */
  method ReadItem(history: seq<seq<Point>>, item: Item) returns (h: seq<seq<Point>>)
    ensures |h| == |history| && forall r: nat :: r < |history| ==> h[r] == EnterItem(history[r], item, r)
  {
    h := history;
    if item.field.Some? {
      var p := Point(item.time, item.field.value);
      var r := 0;
      while r < |history|
        invariant r <= |history| == |h|
        invariant forall k: nat :: k < r ==> h[k] == EnterItem(history[k], item, k)
        invariant forall k: nat :: r <= k < |h| ==> h[k] == history[k]
      {
        if r in item.domain {
          h := h[r := Enter(h[r], p)];
        }
        r := r + 1;
      }
    }
  }

  lemma FullNext(base: seq<seq<Point>>, list: seq<Item>, n: nat, r: nat)
    requires r < |base| && n < |list|
    ensures Full(base, list, n + 1, r) == Full(base, list, n, r) + ItemPoints(list[n], r)
  {
  }

  lemma ItemKeepsRing(ring: seq<Point>, next: seq<Point>, base: seq<seq<Point>>, list: seq<Item>, n: nat, m: nat,
                      r: nat)
    requires r < |base| && n < |list| && IsRing(ring, Full(base, list, n, r)) && Ascending(Full(base, list, |list|, r))
    requires m == n + 1 && next == EnterItem(ring, list[n], r)
    ensures IsRing(next, Full(base, list, m, r))
  {
    FullPrefix(base, list, m, r);
    FullNext(base, list, n, r);
    PrefixAscends(Full(base, list, m, r), Full(base, list, |list|, r));
    EnterItemKeepsRing(ring, Full(base, list, n, r), list[n], r);
  }

  lemma PrefixAscends(a: seq<Point>, b: seq<Point>)
    requires a <= b && Ascending(b)
    ensures Ascending(a)
  {
  }

  lemma EnterItemKeepsRing(ring: seq<Point>, full: seq<Point>, item: Item, r: nat)
    requires IsRing(ring, full) && Ascending(full + ItemPoints(item, r))
    ensures IsRing(EnterItem(ring, item, r), full + ItemPoints(item, r))
  {
    if r in item.domain && item.field.Some? {
      EnterKeepsRing(ring, full, Point(item.time, item.field.value));
    } else {
      assert full + ItemPoints(item, r) == full;
    }
  }

  lemma {:induction false} ItemsKeepRing(ring: seq<Point>, base: seq<seq<Point>>, list: seq<Item>, n: nat, m: nat,
                                         r: nat)
    requires r < |base| && n <= m <= |list| && IsRing(ring, Full(base, list, n, r))
      && Ascending(Full(base, list, |list|, r))
    ensures IsRing(EnterItems(ring, list, n, m, r), Full(base, list, m, r))
  {
    if n < m {
      var k := m - 1;
      ItemsKeepRing(ring, base, list, n, k, r);
      ItemKeepsRing(EnterItems(ring, list, n, k, r), EnterItems(ring, list, n, m, r), base, list, k, m, r);
    }
  }

  /** Reads all items with a time up to t, whatever their times. */
  method UpdateHistory(history: seq<seq<Point>>, list: seq<Item>, n: nat, t: real) returns (h: seq<seq<Point>>, m: nat)
    requires TimesOk(list) && n <= |list| && forall i :: 0 <= i < n ==> Ge(t, list[i].time)
    ensures n <= m && SplitsAt(list, m, t)
    ensures |h| == |history| && forall r: nat :: r < |h| ==> h[r] == EnterItems(history[r], list, n, m, r)
  {
    h, m := history, n;
    while m < |list| && Ge(t, list[m].time)
      invariant n <= m <= |list| && |h| == |history|
      invariant forall r: nat :: r < |h| ==> h[r] == EnterItems(history[r], list, n, m, r)
      invariant forall i :: 0 <= i < m ==> Ge(t, list[i].time)
    {
      h := ReadItem(h, list[m]);
      m := m + 1;
    }
    forall i | m <= i < |list|
      ensures !Ge(t, list[i].time)
    {
      if Ge(t, list[i].time) {
        GeMonotone(t, t, list[m].time, list[i].time);
      }
    }
  }

  // ---- setting the time -------------------------------------------------------------------

  /** Region r needs its default. */
  predicate Missing(history: seq<seq<Point>>, active: seq<bool>, r: nat) {
    r < |history| && r < |active| && active[r] && |history[r]| == 0
  }

  /** Enters the default at time 0 where the field matters and has no record; fails without a
      default. */
  method CheckInitialized(history: seq<seq<Point>>, active: seq<bool>, default: Option<nat>)
    returns (h: seq<seq<Point>>, ok: bool)
    requires |active| == |history|
    ensures ok <==> default.Some? || forall r: nat :: !Missing(history, active, r)
    ensures ok ==> |h| == |history|
    ensures ok ==> forall r: nat :: r < |h| ==>
      h[r] == if Missing(history, active, r) then [Point(0.0, default.value)] else history[r]
  {
    h := history;
    var r := 0;
    while r < |history|
      invariant r <= |history| == |h|
      invariant default.Some? || forall k: nat :: k < r ==> !Missing(history, active, k)
      invariant forall k: nat :: k < r ==>
        h[k] == if Missing(history, active, k) then [Point(0.0, default.value)] else history[k]
      invariant forall k: nat :: r <= k < |h| ==> h[k] == history[k]
    {
      if active[r] && |h[r]| == 0 {
        assert Missing(history, active, r);
        if default.None? {
          return h, false;
        }
        h := h[r := PushFront(h[r], Point(0.0, default.value))];
      }
      r := r + 1;
    }
    return h, true;
  }

  /** Region r has a jump at time t. */
  predicate JumpAt(history: seq<seq<Point>>, active: seq<bool>, t: real, r: nat) {
    r < |history| && r < |active| && active[r] && |history[r]| > 0 && !Gt(t, history[r][0].time)
  }

  function Choice(ring: seq<Point>, t: real, side: LimitSide): (f: nat)
    requires |ring| > 0
  {
    ring[HistoryIndex(|ring|, ring[0].time, t, side)].field
  }

  /** The algorithm in force on region r answers that the new time changed it. */
  predicate Reports(fields: seq<Option<nat>>, active: seq<bool>, answers: nat -> bool, r: nat) {
    r < |fields| && r < |active| && active[r] && fields[r].Some? && answers(fields[r].value)
  }

  /** Sets the algorithm in force on all regions where the field matters; `answers` is what each
      algorithm returns when it is given the time. */
  method SelectFields(history: seq<seq<Point>>, active: seq<bool>, fields0: seq<Option<nat>>, t: real, side: LimitSide,
                      answers: nat -> bool)
    returns (fields: seq<Option<nat>>, jump: bool, changed: bool)
    requires |active| == |history| == |fields0|
    requires forall r :: 0 <= r < |history| && active[r] ==> |history[r]| > 0 && Ge(t, history[r][0].time)
    ensures |fields| == |fields0|
    ensures forall r :: 0 <= r < |fields| ==>
      fields[r] == if active[r] then Some(Choice(history[r], t, side)) else fields0[r]
    ensures jump <==> exists r: nat :: JumpAt(history, active, t, r)
    ensures changed <==> fields != fields0 || exists r: nat :: Reports(fields, active, answers, r)
  {
    fields, jump, changed := fields0, false, false;
    var r := 0;
    while r < |history|
      invariant r <= |history| && |fields| == |fields0|
      invariant forall k :: 0 <= k < r ==>
        fields[k] == if active[k] then Some(Choice(history[k], t, side)) else fields0[k]
      invariant forall k :: r <= k < |fields| ==> fields[k] == fields0[k]
      invariant jump <==> exists k: nat :: k < r && JumpAt(history, active, t, k)
      invariant changed <==>
        exists k: nat :: k < r && (fields[k] != fields0[k] || Reports(fields, active, answers, k))
    {
      if active[r] {
        var newest := history[r][0].time;
        assert Ge(t, newest);
        if !Gt(t, newest) {
          assert JumpAt(history, active, t, r);
          jump := true;
        }
        var f := Choice(history[r], t, side);
        if Some(f) != fields[r] {
          fields := fields[r := Some(f)];
          assert fields[r] != fields0[r];
          changed := true;
        }
        if answers(f) {
          assert Reports(fields, active, answers, r);
          changed := true;
        }
      }
      r := r + 1;
    }
  }

  // ---- the field --------------------------------------------------------------------------

  /** The default stands first where the field matters and no record was known at the first time
      set. */
  ghost predicate BaseOk(base: seq<seq<Point>>, active: seq<bool>, default: Option<nat>, list: seq<Item>, first: nat) {
    && |base| == |active| && first <= |list|
    && forall r: nat :: r < |base| ==> BaseOkAt(base, active, default, list, first, r)
  }

  ghost predicate BaseOkAt(base: seq<seq<Point>>, active: seq<bool>, default: Option<nat>, list: seq<Item>, first: nat,
                           r: nat)
    requires r < |base| == |active| && first <= |list|
  {
    if active[r] && Records(list, first, r) == [] then default.Some? && base[r] == [Point(0.0, default.value)]
    else base[r] == []
  }

  lemma PrependAscends(p: Point, s: seq<Point>)
    requires Ascending(s) && forall i :: 0 <= i < |s| ==> p.time < s[i].time
    ensures Ascending([p] + s)
  {
  }

  /** A record not known at time t is later. */
  lemma RecordLater(list: seq<Item>, first: nat, t: real, r: nat, i: nat)
    requires SplitsAt(list, first, t) && Records(list, first, r) == [] && i < |Records(list, |list|, r)|
    ensures t < Records(list, |list|, r)[i].time
  {
    RecordsSplit(list, first, t, r, i);
    var x := Records(list, |list|, r)[i].time;
    if x <= t {
      GeExact(t, x);
    }
  }

  lemma BaseAscends(base: seq<seq<Point>>, active: seq<bool>, default: Option<nat>, list: seq<Item>, first: nat,
                    t: real)
    requires BaseOk(base, active, default, list, first) && SplitsAt(list, first, t) && 0.0 <= t && RegionsAscend(list)
    ensures AllAscend(base, list)
  {
    forall r: nat | r < |base|
      ensures Ascending(Full(base, list, |list|, r))
    {
      assert BaseOkAt(base, active, default, list, first, r);
      var all := Records(list, |list|, r);
      assert Ascending(all);
      if base[r] == [] {
        assert base[r] + all == all;
      } else {
        forall i | 0 <= i < |all|
          ensures 0.0 < all[i].time
        {
          RecordLater(list, first, t, r, i);
        }
        PrependAscends(base[r][0], all);
      }
    }
  }

  ghost predicate AllKnown(history: seq<seq<Point>>, active: seq<bool>) {
    |history| == |active| && forall r: nat :: r < |history| && active[r] ==> |history[r]| > 0
  }

  ghost predicate InForce(fields: seq<Option<nat>>, history: seq<seq<Point>>, active: seq<bool>, t: real,
                          side: LimitSide)
    requires AllKnown(history, active)
  {
    |fields| == |history| && forall r: nat :: r < |fields| && active[r] ==>
      fields[r] == Some(Choice(history[r], t, side))
  }

  /** Without a jump both limits are the same. */
  lemma NoJump(fields: seq<Option<nat>>, history: seq<seq<Point>>, active: seq<bool>, t: real, side: LimitSide,
               other: LimitSide)
    requires AllKnown(history, active) && InForce(fields, history, active, t, side)
    requires !exists r: nat :: JumpAt(history, active, t, r)
    ensures InForce(fields, history, active, t, other)
  {
    forall r: nat | r < |fields| && active[r]
      ensures fields[r] == Some(Choice(history[r], t, other))
    {
      assert !JumpAt(history, active, t, r);
    }
  }

  /** Rings, defaults and algorithms in force for a time. */
  ghost predicate SetFor(history: seq<seq<Point>>, base: seq<seq<Point>>, first: nat, active: seq<bool>,
                         default: Option<nat>, list: seq<Item>, n: nat, t: real) {
    && RingsOk(history, base, list, n) && SplitsAt(list, n, t)
    && BaseOk(base, active, default, list, first) && AllAscend(base, list) && AllKnown(history, active)
  }

  /** There is a default, or a record on every region where the field matters. */
  ghost predicate Suffices(default: Option<nat>, active: seq<bool>, list: seq<Item>, n: nat) {
    n <= |list| && (default.Some? || forall r: nat :: r < |active| && active[r] ==> Records(list, n, r) != [])
  }

  // ---- what was read, whatever the times --------------------------------------------------

  /** The ring of region r after the first time, which read `first` items: the default if none is for it. */
  ghost function FirstRing(list: seq<Item>, first: nat, active: seq<bool>, default: Option<nat>, r: nat): seq<Point>
    requires first <= |list| && r < |active|
  {
    if active[r] && default.Some? && Records(list, first, r) == [] then [Point(0.0, default.value)]
    else EnterItems([], list, 0, first, r)
  }

  /** ... and after n items. */
  ghost function RingAt(list: seq<Item>, first: nat, active: seq<bool>, default: Option<nat>, n: nat,
                        r: nat): seq<Point>
    requires first <= n <= |list| && r < |active|
  {
    EnterItems(FirstRing(list, first, active, default, r), list, first, n, r)
  }

  /** The rings hold exactly the items up to time t. The first time was t0. */
  ghost predicate ReadFor(history: seq<seq<Point>>, first: nat, active: seq<bool>, default: Option<nat>,
                          list: seq<Item>,
                          n: nat, t0: real, t: real)
  {
    && first <= n <= |list| && |history| == |active| && 0.0 <= t0 <= t
    && SplitsAt(list, first, t0) && SplitsAt(list, n, t) && Suffices(default, active, list, first)
    && forall r: nat :: r < |active| ==> history[r] == RingAt(list, first, active, default, n, r)
  }

  /** A ring has a record as soon as one was read. */
  lemma {:induction false} EmptyIff(ring: seq<Point>, list: seq<Item>, n: nat, m: nat, r: nat)
    requires n <= m <= |list|
    ensures EnterItems(ring, list, n, m, r) == [] <==> ring == [] && |Records(list, m, r)| == |Records(list, n, r)|
    ensures |Records(list, n, r)| <= |Records(list, m, r)|
  {
    if n < m {
      EmptyIff(ring, list, n, m - 1, r);
    }
  }

  lemma {:induction false} EnterFurther(ring: seq<Point>, list: seq<Item>, n: nat, k: nat, m: nat, r: nat)
    requires n <= k <= m <= |list|
    ensures EnterItems(EnterItems(ring, list, n, k, r), list, k, m, r) == EnterItems(ring, list, n, m, r)
  {
    if k < m {
      EnterFurther(ring, list, n, k, m - 1, r);
    }
  }

  /** All records in the ring are known at time t. */
  ghost predicate RingKnown(ring: seq<Point>, t: real) {
    forall i :: 0 <= i < |ring| ==> Ge(t, ring[i].time)
  }

  lemma EnterKnown(ring: seq<Point>, p: Point, t: real)
    requires RingKnown(ring, t) && Ge(t, p.time)
    ensures RingKnown(Enter(ring, p), t)
  {
  }

  lemma {:induction false} ItemsKnown(ring: seq<Point>, list: seq<Item>, n: nat, m: nat, r: nat, t: real)
    requires n <= m <= |list| && RingKnown(ring, t) && forall i :: 0 <= i < m ==> Ge(t, list[i].time)
    ensures RingKnown(EnterItems(ring, list, n, m, r), t)
  {
    if n < m {
      ItemsKnown(ring, list, n, m - 1, r, t);
      var item := list[m - 1];
      if r in item.domain && item.field.Some? {
        EnterKnown(EnterItems(ring, list, n, m - 1, r), Point(item.time, item.field.value), t);
      }
    }
  }

  /** Where the field matters there is a record, and all records are known. */
  lemma ReadIsKnown(history: seq<seq<Point>>, first: nat, active: seq<bool>, default: Option<nat>, list: seq<Item>,
                    n: nat,
                    t0: real, t: real, r: nat)
    requires ReadFor(history, first, active, default, list, n, t0, t) && r < |active|
    ensures RingKnown(history[r], t) && (active[r] ==> |history[r]| > 0)
  {
    var start := FirstRing(list, first, active, default, r);
    GeExact(t, 0.0);
    ItemsKnown([], list, 0, first, r, t);
    ItemsKnown(start, list, first, n, r, t);
    EmptyIff([], list, 0, first, r);
    EmptyIff(start, list, first, n, r);
  }

  lemma AllRead(history: seq<seq<Point>>, first: nat, active: seq<bool>, default: Option<nat>, list: seq<Item>, n: nat,
                t0: real, t: real)
    requires ReadFor(history, first, active, default, list, n, t0, t)
    ensures AllKnown(history, active)
    ensures forall r :: 0 <= r < |history| && active[r] ==> |history[r]| > 0 && Ge(t, history[r][0].time)
  {
    forall r: nat | r < |history|
      ensures active[r] ==> |history[r]| > 0 && Ge(t, history[r][0].time)
    {
      ReadIsKnown(history, first, active, default, list, n, t0, t, r);
    }
  }

  /** The first time: reads the records and enters defaults. */
  method ReadFirst(history: seq<seq<Point>>, active: seq<bool>, default: Option<nat>, list: seq<Item>, t: real)
    returns (h: seq<seq<Point>>, m: nat, ok: bool)
    requires |active| == |history| && 0.0 <= t && TimesOk(list)
    requires forall r :: 0 <= r < |history| ==> history[r] == []
    ensures SplitsAt(list, m, t)
    ensures ok <==> Suffices(default, active, list, m)
    ensures ok ==> ReadFor(h, m, active, default, list, m, t, t)
  {
    h, m := UpdateHistory(history, list, 0, t);
    ghost var read := h;
    forall r: nat | r < |active|
      ensures Missing(read, active, r) <==> active[r] && Records(list, m, r) == []
    {
      EmptyIff([], list, 0, m, r);
    }
    h, ok := CheckInitialized(h, active, default);
  }

  /** A later time: reads more records; no default is missing. */
  method ReadNext(history: seq<seq<Point>>, ghost first: nat, active: seq<bool>, default: Option<nat>, list: seq<Item>,
                  n: nat, ghost t0: real, ghost last: real, t: real)
    returns (h: seq<seq<Point>>, m: nat, ok: bool)
    requires ReadFor(history, first, active, default, list, n, t0, last) && last <= t && TimesOk(list)
    ensures ok && ReadFor(h, first, active, default, list, m, t0, t)
  {
    forall i | 0 <= i < n
      ensures Ge(t, list[i].time)
    {
      GeMonotone(last, t, list[i].time, list[i].time);
    }
    h, m := UpdateHistory(history, list, n, t);
    ghost var read := h;
    forall r: nat | r < |active|
      ensures read[r] == RingAt(list, first, active, default, m, r)
    {
      EnterFurther(FirstRing(list, first, active, default, r), list, first, n, m, r);
    }
    AllRead(read, first, active, default, list, m, t0, t);
    h, ok := CheckInitialized(h, active, default);
    assert h == read;
  }

  // ---- ascending times --------------------------------------------------------------------

  /** The defaults that were entered. */
  ghost function BaseOf(list: seq<Item>, first: nat, active: seq<bool>, default: Option<nat>): (base: seq<seq<Point>>)
    requires first <= |list|
    ensures |base| == |active|
    ensures forall r :: 0 <= r < |active| ==>
      base[r] == if active[r] && default.Some? && Records(list, first, r) == [] then [Point(0.0, default.value)] else []
  {
    seq(|active|, r requires 0 <= r < |active| =>
      if active[r] && default.Some? && Records(list, first, r) == [] then [Point(0.0, default.value)] else [])
  }

  lemma BaseOfOk(list: seq<Item>, first: nat, active: seq<bool>, default: Option<nat>, t0: real)
    requires Suffices(default, active, list, first) && SplitsAt(list, first, t0) && 0.0 <= t0 && RegionsAscend(list)
    ensures BaseOk(BaseOf(list, first, active, default), active, default, list, first)
    ensures AllAscend(BaseOf(list, first, active, default), list)
  {
    var base := BaseOf(list, first, active, default);
    forall r: nat | r < |base|
      ensures BaseOkAt(base, active, default, list, first, r)
    {
    }
    BaseAscends(base, active, default, list, first, t0);
  }

  lemma ReadIsRing(list: seq<Item>, first: nat, active: seq<bool>, default: Option<nat>, n: nat, r: nat)
    requires first <= n <= |list| && r < |active| && AllAscend(BaseOf(list, first, active, default), list)
    ensures IsRing(RingAt(list, first, active, default, n, r), Full(BaseOf(list, first, active, default), list, n, r))
  {
    var base := BaseOf(list, first, active, default);
    assert Ascending(Full(base, list, |list|, r));
    var start := FirstRing(list, first, active, default, r);
    if base[r] == [] {
      assert Full(base, list, 0, r) == [];
      ItemsKeepRing([], base, list, 0, first, r);
    } else {
      assert Full(base, list, first, r) == base[r];
    }
    ItemsKeepRing(start, base, list, first, n, r);
  }

  /** If the times of each region ascend, the rings are those of the full lists of records. */
  lemma ReadIsSet(history: seq<seq<Point>>, first: nat, active: seq<bool>, default: Option<nat>, list: seq<Item>,
                  n: nat,
                  t0: real, t: real)
    requires ReadFor(history, first, active, default, list, n, t0, t) && RegionsAscend(list)
    ensures SetFor(history, BaseOf(list, first, active, default), first, active, default, list, n, t)
  {
    BaseOfOk(list, first, active, default, t0);
    AllRead(history, first, active, default, list, n, t0, t);
    forall r: nat | r < |history|
      ensures IsRing(history[r], Full(BaseOf(list, first, active, default), list, n, r))
    {
      ReadIsRing(list, first, active, default, n, r);
    }
  }

  class Field {
    /** The input and the default; where the field matters; the rings; what is in force. */
    const inputList: seq<Item>
    const default: Option<nat>
    const active: seq<bool>
    var listIdx: nat
    var history: seq<seq<Point>>
    var regionFields: seq<Option<nat>>
    var lastTime: Option<real>
    var lastSide: LimitSide
    var isJumpTime: bool
    var changed: bool

    /** The first time, and the number of items read then. */
    ghost var firstTime: real
    ghost var first: nat

    ghost predicate Shaped()
      reads this
    {
      |history| == |active| == |regionFields| && TimesOk(inputList)
    }

    /** Nothing was set yet. */
    ghost predicate Fresh()
      reads this
    {
      Shaped() && lastTime == None && listIdx == 0 && forall r :: 0 <= r < |history| ==> history[r] == []
    }

    /** The last time set was t: the rings hold what is known then, and the algorithms in force are
        chosen for it. */
    ghost predicate At(t: real, side: LimitSide)
      reads this
    {
      && Shaped() && lastTime == Some(t) && lastSide == side && 0.0 <= t
      && ReadFor(history, first, active, default, inputList, listIdx, firstTime, t)
      && AllKnown(history, active) && InForce(regionFields, history, active, t, side)
      && (isJumpTime <==> exists r: nat :: JumpAt(history, active, t, r))
    }

    /** All records of region r, after the default where one was entered. */
    ghost function AllRecords(r: nat): seq<Point>
      requires r < |active| && first <= |inputList|
      reads this
    {
      Full(BaseOf(inputList, first, active, default), inputList, |inputList|, r)
    }

    /** The time is the last one, and it is continuous there or the side is the last one. */
    ghost predicate Skips(t: real, side: LimitSide)
      reads this
    {
      lastTime == Some(t) && (!isJumpTime || side == lastSide)
    }

    /** The flag is set exactly if an algorithm was exchanged or answers that it changed. */
    ghost predicate ChangedTells(before: seq<Option<nat>>, answers: nat -> bool)
      reads this
    {
      changed <==> regionFields != before || exists r: nat :: Reports(regionFields, active, answers, r)
    }

    constructor (inputList: seq<Item>, default: Option<nat>, active: seq<bool>)
      requires TimesOk(inputList)
      ensures Fresh() && this.inputList == inputList && this.default == default && this.active == active
    {
      this.inputList, this.default, this.active := inputList, default, active;
      listIdx, history, regionFields := 0, seq(|active|, _ => []), seq(|active|, _ => None);
      lastTime, lastSide, isJumpTime, changed := None, Left, true, false;
      firstTime, first := 0.0, 0;
    }

    /** Sets the time; possibly skipped. Fails exactly if the field matters on a region where it
        has neither a record nor a default at the first time. */
    method SetTime(t: real, side: LimitSide, answers: nat -> bool) returns (ok: bool)
      requires Fresh() || (lastTime.Some? && At(lastTime.value, lastSide) && lastTime.value <= t)
      requires 0.0 <= t
      modifies this
      ensures ok ==> At(t, side)
      ensures old(lastTime.Some?) ==> ok && first == old(first) && firstTime == old(firstTime)
      ensures old(lastTime.None?) ==> SplitsAt(inputList, first, t) && firstTime == t
      ensures old(lastTime.None?) ==> (ok <==> Suffices(default, active, inputList, first))
      ensures old(Skips(t, side)) ==> changed == old(changed) && regionFields == old(regionFields)
      ensures ok && !old(Skips(t, side)) ==> ChangedTells(old(regionFields), answers)
    {
      if lastTime == Some(t) && (!isJumpTime || side == lastSide) {
        if !isJumpTime {
          NoJump(regionFields, history, active, t, lastSide, side);
        }
        lastSide := side;
        return true;
      }
      ok := Advance(t, side, answers);
    }

    method Advance(t: real, side: LimitSide, answers: nat -> bool) returns (ok: bool)
      requires Fresh() || (lastTime.Some? && At(lastTime.value, lastSide) && lastTime.value <= t)
      requires 0.0 <= t
      modifies this
      ensures ok ==> At(t, side)
      ensures old(lastTime.Some?) ==> ok && first == old(first) && firstTime == old(firstTime)
      ensures old(lastTime.None?) ==> SplitsAt(inputList, first, t) && firstTime == t
      ensures old(lastTime.None?) ==> (ok <==> Suffices(default, active, inputList, first))
      ensures ok ==> ChangedTells(old(regionFields), answers)
    {
      ok := ReadUpTo(t);
      lastTime, lastSide := Some(t), side;
      if ok {
        regionFields, isJumpTime, changed :=
          ChooseFields(history, first, active, default, inputList, listIdx, regionFields, firstTime, t, side, answers);
      }
    }

    /** Reads the records up to the time, and enters defaults at the first one. */
    method ReadUpTo(t: real) returns (ok: bool)
      requires Fresh() || (lastTime.Some? && At(lastTime.value, lastSide) && lastTime.value <= t)
      requires 0.0 <= t
      modifies this`history, this`listIdx, this`first, this`firstTime
      ensures ok ==> Shaped() && ReadFor(history, first, active, default, inputList, listIdx, firstTime, t)
      ensures lastTime.Some? ==> ok && first == old(first) && firstTime == old(firstTime)
      ensures lastTime.None? ==> SplitsAt(inputList, first, t) && firstTime == t
      ensures lastTime.None? ==> (ok <==> Suffices(default, active, inputList, first))
    {
      if lastTime.None? {
        history, listIdx, ok := ReadFirst(history, active, default, inputList, t);
        first, firstTime := listIdx, t;
      } else {
        history, listIdx, ok :=
          ReadNext(history, first, active, default, inputList, listIdx, firstTime, lastTime.value, t);
      }
    }
  }

  method ChooseFields(history: seq<seq<Point>>, ghost first: nat, active: seq<bool>, ghost default: Option<nat>,
                      ghost list: seq<Item>, ghost n: nat, fields0: seq<Option<nat>>, ghost t0: real, t: real,
                      side: LimitSide, answers: nat -> bool)
    returns (fields: seq<Option<nat>>, jump: bool, changed: bool)
    requires ReadFor(history, first, active, default, list, n, t0, t) && |fields0| == |active|
    ensures AllKnown(history, active)
    ensures InForce(fields, history, active, t, side)
    ensures jump <==> exists r: nat :: JumpAt(history, active, t, r)
    ensures changed <==> fields != fields0 || exists r: nat :: Reports(fields, active, answers, r)
  {
    AllRead(history, first, active, default, list, n, t0, t);
    fields, jump, changed := SelectFields(history, active, fields0, t, side, answers);
  }

  /** The ring refines the full list: what is in force on a region is selected from all its records
      known at time t. */
  lemma RingRefinesList(history: seq<seq<Point>>, base: seq<seq<Point>>, first: nat, active: seq<bool>,
                        default: Option<nat>, list: seq<Item>, n: nat, t: real, side: LimitSide, r: nat)
    requires SetFor(history, base, first, active, default, list, n, t) && 0.0 <= t && r < |active| && active[r]
    ensures 0 < |Full(base, list, n, r)| <= |Full(base, list, |list|, r)| && |history[r]| > 0
    ensures Choice(history[r], t, side)
      == Selected(Full(base, list, |list|, r)[..|Full(base, list, n, r)|], t, side).field
    ensures KnownAt(Full(base, list, |list|, r), |Full(base, list, n, r)|, t)
  {
    var full, all := Full(base, list, n, r), Full(base, list, |list|, r);
    assert IsRing(history[r], full);
    FullPrefix(base, list, n, r);
    assert all[..|full|] == full;
    RingSelects(history[r], full, t, side);
    assert BaseOkAt(base, active, default, list, first, r);
    KnownIsRead(base, list, n, t, r);
  }

  /** The records read are those up to the time. */
  lemma KnownIsRead(base: seq<seq<Point>>, list: seq<Item>, n: nat, t: real, r: nat)
    requires r < |base| && SplitsAt(list, n, t) && 0.0 <= t
    requires forall i :: 0 <= i < |base[r]| ==> base[r][i].time == 0.0
    ensures KnownAt(Full(base, list, |list|, r), |Full(base, list, n, r)|, t)
  {
    var full, all := Full(base, list, n, r), Full(base, list, |list|, r);
    FullPrefix(base, list, n, r);
    forall i | 0 <= i < |all|
      ensures Ge(t, all[i].time) <==> i < |full|
    {
      if i < |base[r]| {
        GeExact(t, all[i].time);
      } else {
        RecordsSplit(list, n, t, r, i - |base[r]|);
      }
    }
  }

  /** After any time set on the right side, a region's field is its last record up to t. */
  lemma RightLimitInForce(f: Field, t: real, r: nat) returns (i: nat)
    requires f.At(t, Right) && RegionsAscend(f.inputList) && r < |f.active| && f.active[r]
    ensures LastUpTo(f.AllRecords(r), t, i) && f.regionFields[r] == Some(f.AllRecords(r)[i].field)
  {
    var base := BaseOf(f.inputList, f.first, f.active, f.default);
    var all, n := Full(base, f.inputList, |f.inputList|, r), |Full(base, f.inputList, f.listIdx, r)|;
    ReadIsSet(f.history, f.first, f.active, f.default, f.inputList, f.listIdx, f.firstTime, t);
    RingRefinesList(f.history, base, f.first, f.active, f.default, f.inputList, f.listIdx, t, Right, r);
    RightLimit(all, n, t);
    i := n - 1;
  }

  /** And on the left side the only one known, or the last before t if the last but one known is
      before t. */
  lemma LeftLimitInForce(f: Field, t: real, r: nat) returns (n: nat, i: nat)
    requires f.At(t, Left) && RegionsAscend(f.inputList) && r < |f.active| && f.active[r]
    ensures 0 < n && KnownAt(f.AllRecords(r), n, t)
    ensures i == n - 1 - HistoryIndex(n, f.AllRecords(r)[n - 1].time, t, Left)
    ensures f.regionFields[r] == Some(f.AllRecords(r)[i].field)
    ensures n > 1 ==> (LastBefore(f.AllRecords(r), t, i) <==> Gt(t, f.AllRecords(r)[n - 2].time))
  {
    var base := BaseOf(f.inputList, f.first, f.active, f.default);
    ReadIsSet(f.history, f.first, f.active, f.default, f.inputList, f.listIdx, f.firstTime, t);
    assert InForce(f.regionFields, f.history, f.active, t, Left);
    n, i := LeftChoice(f.history, base, f.first, f.active, f.default, f.inputList, f.listIdx, t, r);
  }

  lemma LeftChoice(history: seq<seq<Point>>, base: seq<seq<Point>>, first: nat, active: seq<bool>,
                   default: Option<nat>, list: seq<Item>, m: nat, t: real, r: nat) returns (n: nat, i: nat)
    requires SetFor(history, base, first, active, default, list, m, t) && 0.0 <= t && r < |active| && active[r]
    ensures 0 < n && KnownAt(Full(base, list, |list|, r), n, t) && |history[r]| > 0
    ensures i == n - 1 - HistoryIndex(n, Full(base, list, |list|, r)[n - 1].time, t, Left)
    ensures Choice(history[r], t, Left) == Full(base, list, |list|, r)[i].field
    ensures n > 1 ==> (LastBefore(Full(base, list, |list|, r), t, i) <==>
      Gt(t, Full(base, list, |list|, r)[n - 2].time))
  {
    var all := Full(base, list, |list|, r);
    n := |Full(base, list, m, r)|;
    RingRefinesList(history, base, first, active, default, list, m, t, Left, r);
    assert AllAscend(base, list) && Ascending(all);
    i := LeftPick(all, n, t);
  }

  lemma LeftPick(all: seq<Point>, n: nat, t: real) returns (i: nat)
    requires Ascending(all) && KnownAt(all, n, t) && n > 0
    ensures i == n - 1 - HistoryIndex(n, all[n - 1].time, t, Left) && Selected(all[..n], t, Left) == all[i]
    ensures n > 1 ==> (LastBefore(all, t, i) <==> Gt(t, all[n - 2].time))
  {
    i := n - 1 - HistoryIndex(n, all[n - 1].time, t, Left);
    LeftIndex(all, n, t, i);
  }

  lemma LeftIndex(all: seq<Point>, n: nat, t: real, i: nat)
    requires Ascending(all) && KnownAt(all, n, t) && n > 0 && i == n - 1 - HistoryIndex(n, all[n - 1].time, t, Left)
    ensures n > 1 ==> (LastBefore(all, t, i) <==> Gt(t, all[n - 2].time))
  {
    LeftLimit(all, n, t);
    if n > 1 && Gt(t, all[n - 2].time) {
      var k: nat :| LastBefore(all, t, k) && Selected(all[..n], t, Left) == all[k];
      assert all[..n][i] == all[i];
      assert k == i;
    }
  }

  /** A time to set, and what the algorithms answer to it. */
  datatype Query = Query(time: real, side: LimitSide, answers: nat -> bool)

  /** Any run of times that never decrease keeps the field at the last of them; after the first
      no time can fail. */
  method SetTimes(f: Field, queries: seq<Query>) returns (ok: bool)
    requires f.Fresh() && |queries| > 0 && 0.0 <= queries[0].time
    requires forall i, j :: 0 <= i < j < |queries| ==> queries[i].time <= queries[j].time
    modifies f
    ensures ok ==> f.At(queries[|queries| - 1].time, queries[|queries| - 1].side)
    ensures SplitsAt(f.inputList, f.first, queries[0].time)
      && (ok <==> Suffices(f.default, f.active, f.inputList, f.first))
  {
    var t, side := queries[0].time, queries[0].side;
    ok := f.SetTime(t, side, queries[0].answers);
    if ok {
      SetFurther(f, t, side, queries);
    }
  }

  method SetFurther(f: Field, t0: real, side0: LimitSide, queries: seq<Query>)
    requires |queries| > 0 && t0 == queries[0].time && side0 == queries[0].side && f.At(t0, side0)
    requires forall i, j :: 0 <= i < j < |queries| ==> queries[i].time <= queries[j].time
    modifies f
    ensures f.At(queries[|queries| - 1].time, queries[|queries| - 1].side) && f.first == old(f.first)
  {
    var i := 1;
    while i < |queries|
      invariant 1 <= i <= |queries| && f.first == old(f.first)
      invariant f.At(queries[i - 1].time, queries[i - 1].side)
    {
      SetOne(f, queries[i - 1], queries[i]);
      i := i + 1;
    }
  }

  method SetOne(f: Field, last: Query, next: Query)
    requires f.At(last.time, last.side) && last.time <= next.time
    modifies f
    ensures f.At(next.time, next.side) && f.first == old(f.first)
  {
    var ok := f.SetTime(next.time, next.side, next.answers);
  }
}
