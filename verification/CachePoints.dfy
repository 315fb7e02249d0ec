/** Evaluation points of the cached elements and their numbering
    (src/fields/field_value_cache.cc:119-139): marked points are numbered row by row. */
module CachePoints {

  const UNUSED := -2
  const IN_PROGRESS := -1

  /** A row of points per cached element. */
  type Table = seq<seq<int>>

  ghost predicate IsTable(t: Table, rows: nat, size: nat) {
    |t| == rows && forall e :: 0 <= e < rows ==> |t[e]| == size
  }

  ghost predicate Marked(t: Table, e: nat, p: nat) {
    e < |t| && p < |t[e]| && t[e][p] == IN_PROGRESS
  }

  /** Number of marked points among the first p of a row. */
  ghost function CountRow(row: seq<int>, p: nat): (n: nat)
    requires p <= |row|
    ensures n <= p
  {
    if p == 0 then 0 else CountRow(row, p - 1) + (if row[p - 1] == IN_PROGRESS then 1 else 0)
  }

  /** Number of marked points in the first e rows. */
  ghost function CountRows(t: Table, e: nat): (n: nat)
    requires e <= |t|
  {
    if e == 0 then 0 else CountRows(t, e - 1) + CountRow(t[e - 1], |t[e - 1]|)
  }

  /** Number of marked points before point p of row e. */
  ghost function Rank(t: Table, e: nat, p: nat): (n: nat)
    requires e < |t| && p <= |t[e]|
  {
    CountRows(t, e) + CountRow(t[e], p)
  }

  lemma {:induction false} RowMonotone(row: seq<int>, p: nat, q: nat)
    requires p <= q <= |row|
    ensures CountRow(row, p) <= CountRow(row, q)
    decreases q
  {
    if p < q {
      RowMonotone(row, p, q - 1);
    }
  }

  lemma {:induction false} RowsMonotone(t: Table, d: nat, e: nat)
    requires d <= e <= |t|
    ensures CountRows(t, d) <= CountRows(t, e)
    decreases e
  {
    if d < e {
      RowsMonotone(t, d, e - 1);
    }
  }

  /** A marked point has its number within the numbers of its row. */
  lemma RankInRow(t: Table, e: nat, p: nat)
    requires Marked(t, e, p)
    ensures CountRows(t, e) <= Rank(t, e, p) < CountRows(t, e + 1)
  {
    RowMonotone(t[e], p + 1, |t[e]|);
  }

  /** Within the numbers of any range of rows that holds its row. */
  lemma RankInRange(t: Table, e: nat, p: nat, first: nat, last: nat)
    requires Marked(t, e, p) && first <= e < last <= |t|
    ensures CountRows(t, first) <= Rank(t, e, p) < CountRows(t, last)
  {
    RankInRow(t, e, p);
    RowsMonotone(t, first, e);
    RowsMonotone(t, e + 1, last);
  }

  /** Different marked points have different numbers. */
  lemma RankInjective(t: Table, e: nat, p: nat, f: nat, q: nat)
    requires Marked(t, e, p) && Marked(t, f, q) && Rank(t, e, p) == Rank(t, f, q)
    ensures e == f && p == q
  {
    if e < f {
      RankInRange(t, e, p, e, f);
    } else if f < e {
      RankInRange(t, f, q, f, e);
    } else if p < q {
      RowMonotone(t[e], p + 1, q);
    } else if q < p {
      RowMonotone(t[e], q + 1, p);
    }
  }

  lemma {:induction false} PointOfCount(row: seq<int>, q: nat, g: nat) returns (p: nat)
    requires q <= |row| && g < CountRow(row, q)
    ensures p < q && row[p] == IN_PROGRESS && CountRow(row, p) == g
  {
    if g < CountRow(row, q - 1) {
      p := PointOfCount(row, q - 1, g);
    } else {
      p := q - 1;
    }
  }

  /** Every number below the count is that of a marked point; one of the given rows. */
  lemma {:induction false} RankSurjective(t: Table, last: nat, g: nat) returns (e: nat, p: nat)
    requires last <= |t| && g < CountRows(t, last)
    ensures e < last && Marked(t, e, p) && Rank(t, e, p) == g
  {
    if g < CountRows(t, last - 1) {
      e, p := RankSurjective(t, last - 1, g);
    } else {
      e := last - 1;
      p := PointOfCount(t[e], |t[e]|, g - CountRows(t, e));
    }
  }

  /** The numbers between the counts of two rows are those of the points of the rows between. */
  lemma RangeSurjective(t: Table, first: nat, last: nat, g: nat) returns (e: nat, p: nat)
    requires first <= last <= |t| && CountRows(t, first) <= g < CountRows(t, last)
    ensures first <= e < last && Marked(t, e, p) && Rank(t, e, p) == g
  {
    e, p := RankSurjective(t, last, g);
    if e < first {
      RankInRange(t, e, p, e, first);
    }
  }

  lemma {:induction false} CountBound(t: Table, rows: nat, size: nat, e: nat)
    requires IsTable(t, rows, size) && e <= rows
    ensures CountRows(t, e) <= e * size
  {
    if e > 0 {
      CountBound(t, rows, size, e - 1);
      assert e * size == (e - 1) * size + size;
    }
  }

  // ---- the numbering loop -----------------------------------------------------------------

  ghost predicate RowNumbered(row: seq<int>, start: nat, r: seq<int>, p: nat)
    requires p <= |row| == |r|
  {
    forall k: nat {:trigger r[k]} :: k < p ==>
      r[k] == if row[k] == IN_PROGRESS then start + CountRow(row, k) else row[k]
  }

  method NumberRow(row: seq<int>, start: nat) returns (r: seq<int>, next: nat)
    ensures |r| == |row| && RowNumbered(row, start, r, |row|)
    ensures next == start + CountRow(row, |row|)
  {
    r, next := row, start;
    var p := 0;
    while p < |row|
      invariant p <= |row| == |r| && next == start + CountRow(row, p)
      invariant RowNumbered(row, start, r, p) && r[p..] == row[p..]
    {
      assert r[p] == r[p..][0] == row[p];
      assert r[p + 1..] == r[p..][1..] == row[p + 1..];
      if r[p] == IN_PROGRESS {
        r := r[p := next];
        next := next + 1;
      }
      p := p + 1;
    }
  }

  /** The first `rows` rows of a table have been numbered. */
  ghost predicate Numbered(t: Table, u: Table, rows: nat) {
    && |u| == |t| && rows <= |t|
    && (forall e: nat :: e < |t| ==> |u[e]| == |t[e]|)
    && (forall e: nat :: e < rows ==> RowNumbered(t[e], CountRows(t, e), u[e], |t[e]|))
    && (forall e: nat :: rows <= e < |t| ==> u[e] == t[e])
  }

  /** A point that was marked holds its rank, any other what it held. */
  lemma NumberedAt(t: Table, u: Table, e: nat, p: nat)
    requires Numbered(t, u, |t|) && e < |t| && p < |t[e]|
    ensures |u| == |t| && |u[e]| == |t[e]| && u[e][p] == if Marked(t, e, p) then Rank(t, e, p) else t[e][p]
  {
  }
}
