/** Exponents of the monomials of a polynomial space (PolynomialSpace in src/fem/fe_p.cc) and the
    support points of the Lagrange element (FE_P::init_dofs): two different counting loops that
    enumerate the same tuples in the same order. */
module Monomials {
  import opened Options

  function Sum(p: seq<nat>): (n: nat) {
    if p == [] then 0 else p[0] + Sum(p[1..])
  }

  function Zeros(n: nat): (z: seq<nat>)
    ensures |z| == n && forall i :: 0 <= i < n ==> z[i] == 0
  {
    seq(n, _ => 0)
  }

  // ---- the tuples and their order ---------------------------------------------------------

  function Extend(list: seq<seq<nat>>, v: nat): (r: seq<seq<nat>>)
    ensures |r| == |list| && forall i :: 0 <= i < |r| ==> r[i] == list[i] + [v]
  {
    seq(|list|, i requires 0 <= i < |list| => list[i] + [v])
  }

  /** All tuples of the given length with sum at most `deg`, the last coordinate varying slowest. */
  function All(dim: nat, deg: nat): (r: seq<seq<nat>>)
    decreases dim, deg + 2
  {
    if dim == 0 then [[]] else Blocks(dim, deg, deg + 1)
  }

  /** Those whose last coordinate is below n. */
  function Blocks(dim: nat, deg: nat, n: nat): (r: seq<seq<nat>>)
    requires dim > 0 && n <= deg + 1
    decreases dim, n
  {
    if n == 0 then [] else Blocks(dim, deg, n - 1) + Extend(All(dim - 1, deg - (n - 1)), n - 1)
  }

  /** Reverse lexicographic order: the last coordinate in which they differ decides. */
  ghost predicate RevLess(p: seq<nat>, q: seq<nat>) {
    |p| == |q| && exists k :: 0 <= k < |p| && p[k] < q[k] && p[k + 1..] == q[k + 1..]
  }

  lemma {:induction false} SumAppend(p: seq<nat>, v: nat)
    ensures Sum(p + [v]) == Sum(p) + v
  {
    if p != [] {
      SumAppend(p[1..], v);
      assert (p + [v])[1..] == p[1..] + [v];
    }
  }

  lemma {:induction false} SumZeros(n: nat)
    ensures Sum(Zeros(n)) == 0
  {
    if n > 0 {
      SumZeros(n - 1);
      assert Zeros(n)[1..] == Zeros(n - 1);
    }
  }

  /** Every listed tuple has the length and a sum within the degree. */
  lemma {:induction false} AllSound(dim: nat, deg: nat, i: nat)
    requires i < |All(dim, deg)|
    ensures |All(dim, deg)[i]| == dim && Sum(All(dim, deg)[i]) <= deg
    decreases dim, deg + 2
  {
    if dim > 0 {
      BlocksSound(dim, deg, deg + 1, i);
    }
  }

  lemma {:induction false} BlocksSound(dim: nat, deg: nat, n: nat, i: nat)
    requires dim > 0 && n <= deg + 1 && i < |Blocks(dim, deg, n)|
    ensures |Blocks(dim, deg, n)[i]| == dim && Sum(Blocks(dim, deg, n)[i]) <= deg
    ensures Blocks(dim, deg, n)[i][dim - 1] < n
    decreases dim, n
  {
    var prev := Blocks(dim, deg, n - 1);
    if i < |prev| {
      BlocksSound(dim, deg, n - 1, i);
    } else {
      var q := All(dim - 1, deg - (n - 1))[i - |prev|];
      AllSound(dim - 1, deg - (n - 1), i - |prev|);
      SumAppend(q, n - 1);
    }
  }

  /** Every such tuple is listed. */
  lemma {:induction false} AllComplete(dim: nat, deg: nat, p: seq<nat>)
    requires |p| == dim && Sum(p) <= deg
    ensures p in All(dim, deg)
    decreases dim, deg + 2
  {
    if dim > 0 {
      var v := p[dim - 1];
      assert p == p[..dim - 1] + [v];
      SumAppend(p[..dim - 1], v);
      BlocksComplete(dim, deg, deg + 1, p);
    }
  }

  lemma {:induction false} BlocksComplete(dim: nat, deg: nat, n: nat, p: seq<nat>)
    requires dim > 0 && n <= deg + 1 && |p| == dim && Sum(p) <= deg && p[dim - 1] < n
    ensures p in Blocks(dim, deg, n)
    decreases dim, n
  {
    var q, v := p[..dim - 1], p[dim - 1];
    assert p == q + [v];
    SumAppend(q, v);
    if v == n - 1 {
      AllComplete(dim - 1, deg - v, q);
      var i :| 0 <= i < |All(dim - 1, deg - v)| && All(dim - 1, deg - v)[i] == q;
      assert Extend(All(dim - 1, deg - v), v)[i] == p;
    } else {
      BlocksComplete(dim, deg, n - 1, p);
    }
  }

  lemma RevLessExtend(p: seq<nat>, q: seq<nat>, v: nat)
    requires RevLess(p, q)
    ensures RevLess(p + [v], q + [v])
  {
    var k :| 0 <= k < |p| && p[k] < q[k] && p[k + 1..] == q[k + 1..];
    assert (p + [v])[k + 1..] == p[k + 1..] + [v];
    assert (q + [v])[k + 1..] == q[k + 1..] + [v];
    assert (p + [v])[k] < (q + [v])[k];
  }

  /** The list is strictly increasing; hence no tuple occurs twice. */
  lemma {:induction false} AllAscending(dim: nat, deg: nat, i: nat, j: nat)
    requires i < j < |All(dim, deg)|
    ensures RevLess(All(dim, deg)[i], All(dim, deg)[j])
    decreases dim, deg + 2
  {
    if dim > 0 {
      BlocksAscending(dim, deg, deg + 1, i, j);
    }
  }

  lemma {:induction false} BlocksAscending(dim: nat, deg: nat, n: nat, i: nat, j: nat)
    requires dim > 0 && n <= deg + 1 && i < j < |Blocks(dim, deg, n)|
    ensures RevLess(Blocks(dim, deg, n)[i], Blocks(dim, deg, n)[j])
    decreases dim, n
  {
    var prev, last := Blocks(dim, deg, n - 1), All(dim - 1, deg - (n - 1));
    if j < |prev| {
      BlocksAscending(dim, deg, n - 1, i, j);
    } else if i < |prev| {
      BlocksSound(dim, deg, n - 1, i);
      BlocksSound(dim, deg, n, j);
      var p, q := prev[i], last[j - |prev|] + [n - 1];
      AllSound(dim - 1, deg - (n - 1), j - |prev|);
      assert p[dim - 1] < q[dim - 1] && p[dim..] == q[dim..];
    } else {
      AllAscending(dim - 1, deg - (n - 1), i - |prev|, j - |prev|);
      RevLessExtend(last[i - |prev|], last[j - |prev|], n - 1);
    }
  }

  // ---- how many there are -----------------------------------------------------------------

  function Binomial(n: nat, k: nat): (b: nat) {
    if k == 0 then 1 else if n == 0 then 0 else Binomial(n - 1, k - 1) + Binomial(n - 1, k)
  }

  lemma {:induction false} BinomialTop(n: nat, k: nat)
    requires n <= k
    ensures Binomial(n, k) == if n == k then 1 else 0
  {
    if n > 0 {
      BinomialTop(n - 1, k - 1);
      BinomialTop(n - 1, k);
    }
  }

  lemma {:induction false} BlocksShift(dim: nat, deg: nat, n: nat)
    requires dim > 0 && deg > 0 && n <= deg
    ensures |Blocks(dim, deg, n + 1)| == |All(dim - 1, deg)| + |Blocks(dim, deg - 1, n)|
  {
    if n > 0 {
      BlocksShift(dim, deg, n - 1);
    } else {
      assert Blocks(dim, deg, 0) == [];
    }
  }

  /** There are C(degree + dim, dim) tuples. */
  lemma {:induction false} AllCount(dim: nat, deg: nat)
    ensures |All(dim, deg)| == Binomial(deg + dim, dim)
    decreases dim, deg
  {
    if dim > 0 {
      AllCount(dim - 1, deg);
      if deg == 0 {
        assert Blocks(dim, 0, 0) == [];
        BinomialTop(dim, dim);
        BinomialTop(dim - 1, dim - 1);
      } else {
        BlocksShift(dim, deg, deg);
        AllCount(dim, deg - 1);
      }
    }
  }

  // ---- the successor ----------------------------------------------------------------------

  /** One increment: add to the first coordinate if the degree allows, otherwise clear it and
      carry on to the next with the freed amount. */
  function Carry(p: seq<nat>, slack: nat): (r: Option<seq<nat>>) {
    if p == [] then None
    else if slack > 0 then Some([p[0] + 1] + p[1..])
    else match Carry(p[1..], p[0])
      case None => None
      case Some(q) => Some([0] + q)
  }

  lemma {:induction false} CarryAppend(q: seq<nat>, v: nat, slack: nat)
    ensures Carry(q + [v], slack) ==
      match Carry(q, slack)
      case Some(r) => Some(r + [v])
      case None => if slack + Sum(q) > 0 then Some(Zeros(|q|) + [v + 1]) else None
  {
    var p := q + [v];
    if q == [] {
      assert p[0] == v && p[1..] == [] && [v + 1] + p[1..] == Zeros(0) + [v + 1];
      assert Carry(p[1..], v) == None;
    } else {
      assert p[1..] == q[1..] + [v] && p[0] == q[0];
      if slack > 0 {
        assert [p[0] + 1] + p[1..] == ([q[0] + 1] + q[1..]) + [v];
      } else {
        CarryAppend(q[1..], v, q[0]);
        match Carry(q[1..], q[0])
        case Some(r) => assert [0] + (r + [v]) == ([0] + r) + [v];
        case None => assert [0] + (Zeros(|q| - 1) + [v + 1]) == Zeros(|q|) + [v + 1];
      }
    }
  }

  lemma {:induction false} FirstIsZeros(dim: nat, deg: nat)
    ensures |All(dim, deg)| > 0 && All(dim, deg)[0] == Zeros(dim)
    decreases dim, deg + 2
  {
    if dim > 0 {
      FirstBlock(dim, deg, deg + 1);
    }
  }

  lemma {:induction false} FirstBlock(dim: nat, deg: nat, n: nat)
    requires dim > 0 && 0 < n <= deg + 1
    ensures |Blocks(dim, deg, n)| > 0 && Blocks(dim, deg, n)[0] == Zeros(dim)
    decreases dim, n
  {
    if n == 1 {
      assert Blocks(dim, deg, 0) == [];
      FirstIsZeros(dim - 1, deg);
      assert Zeros(dim - 1) + [0] == Zeros(dim);
    } else {
      FirstBlock(dim, deg, n - 1);
    }
  }

  /** The increment goes from each tuple to the next one of the list, and stops at the last. */
  lemma {:induction false} CarryIsNext(dim: nat, deg: nat, i: nat)
    requires i < |All(dim, deg)| && Sum(All(dim, deg)[i]) <= deg
    ensures Carry(All(dim, deg)[i], deg - Sum(All(dim, deg)[i])) ==
      if i + 1 < |All(dim, deg)| then Some(All(dim, deg)[i + 1]) else None
    decreases dim, deg + 2
  {
    if dim > 0 {
      CarryInBlocks(dim, deg, deg + 1, i);
    }
  }

  lemma {:induction false} CarryInBlocks(dim: nat, deg: nat, n: nat, i: nat)
    requires dim > 0 && n <= deg + 1 && i < |Blocks(dim, deg, n)| && Sum(Blocks(dim, deg, n)[i]) <= deg
    ensures Carry(Blocks(dim, deg, n)[i], deg - Sum(Blocks(dim, deg, n)[i])) ==
      if i + 1 < |Blocks(dim, deg, n)| then Some(Blocks(dim, deg, n)[i + 1])
      else if n <= deg then Some(Zeros(dim - 1) + [n]) else None
    decreases dim, n
  {
    var prev, v := Blocks(dim, deg, n - 1), n - 1;
    var list := All(dim - 1, deg - v);
    FirstIsZeros(dim - 1, deg - v);
    if i < |prev| {
      CarryInBlocks(dim, deg, n - 1, i);
    } else {
      var k := i - |prev|;
      AllSound(dim - 1, deg - v, k);
      SumAppend(list[k], v);
      CarryIsNext(dim - 1, deg - v, k);
      CarryAppend(list[k], v, deg - v - Sum(list[k]));
    }
  }

  // ---- the exponent loop ------------------------------------------------------------------

  lemma {:induction false} SumSplit(p: seq<nat>, i: nat)
    requires i < |p|
    ensures Sum(p[i..]) == p[i] + Sum(p[i + 1..])
  {
    assert p[i..][1..] == p[i + 1..];
  }

  function Prefixed(n: nat, r: Option<seq<nat>>): Option<seq<nat>> {
    match r
    case None => None
    case Some(q) => Some(Zeros(n) + q)
  }

  /** The inner loop: raise the first coordinate that can be raised, clearing those before it. */
  method Increment(pows: seq<nat>, degreeSum: nat, degree: nat) returns (next: seq<nat>, nextSum: nat, done: bool)
    requires degreeSum == Sum(pows) <= degree
    ensures Carry(pows, degree - degreeSum) == if done then None else Some(next)
    ensures |next| == |pows| && (!done ==> nextSum == Sum(next))
  {
    next, nextSum := pows, degreeSum;
    ghost var goal := Carry(pows, degree - degreeSum);
    NothingCleared(pows, degree, goal);
    var i := 0;
    while i < |pows|
      invariant Cleared(pows, degree, goal, next, nextSum, i)
    {
      SumSplit(pows, i);
      if nextSum < degree {
        assert pows[i..][0] == pows[i] && pows[i..][1..] == pows[i + 1..];
        next := Raised(next, i, pows);
        return next, nextSum + 1, false;
      }
      ClearNext(pows, degree, goal, next, nextSum, i);
      nextSum := nextSum - next[i];
      next := next[i := 0];
      i := i + 1;
    }
    return next, nextSum, true;
  }

  /** Coordinates before i are cleared, and the increment of the others is still to be made. */
  ghost predicate Cleared(pows: seq<nat>, degree: nat, goal: Option<seq<nat>>, next: seq<nat>, nextSum: nat, i: nat) {
    && i <= |pows| && |next| == |pows| && next == Zeros(i) + pows[i..]
    && nextSum == Sum(pows[i..]) && nextSum <= degree
    && goal == Prefixed(i, Carry(pows[i..], degree - nextSum))
  }

  lemma NothingCleared(pows: seq<nat>, degree: nat, goal: Option<seq<nat>>)
    requires Sum(pows) <= degree && goal == Carry(pows, degree - Sum(pows))
    ensures Cleared(pows, degree, goal, pows, Sum(pows), 0)
  {
    assert pows[0..] == pows;
    assert goal.Some? ==> Zeros(0) + goal.value == goal.value;
  }

  lemma ClearNext(pows: seq<nat>, degree: nat, goal: Option<seq<nat>>, next: seq<nat>, nextSum: nat, i: nat)
    requires Cleared(pows, degree, goal, next, nextSum, i) && i < |pows| && nextSum == degree
    ensures next[i] <= nextSum && Cleared(pows, degree, goal, next[i := 0], nextSum - next[i], i + 1)
  {
    SumSplit(pows, i);
    assert next[i] == pows[i] && pows[i..][0] == pows[i] && pows[i..][1..] == pows[i + 1..];
    CarryCleared(i, pows[i..]);
    assert next[i := 0] == Zeros(i + 1) + pows[i + 1..];
  }

  method Raised(before: seq<nat>, i: nat, ghost pows: seq<nat>) returns (next: seq<nat>)
    requires i < |pows| && before == Zeros(i) + pows[i..]
    ensures next == Zeros(i) + ([pows[i] + 1] + pows[i + 1..])
    ensures |next| == |pows| && Sum(next) == pows[i] + 1 + Sum(pows[i + 1..])
  {
    next := before[i := before[i] + 1];
    SumRaised(i, pows[i] + 1, pows[i + 1..]);
    assert next == Zeros(i) + ([pows[i] + 1] + pows[i + 1..]);
  }

  lemma {:induction false} SumRaised(n: nat, v: nat, rest: seq<nat>)
    ensures Sum(Zeros(n) + ([v] + rest)) == v + Sum(rest)
  {
    var s := Zeros(n) + ([v] + rest);
    if n == 0 {
      assert s == [v] + rest && s[1..] == rest;
    } else {
      SumRaised(n - 1, v, rest);
      assert s[1..] == Zeros(n - 1) + ([v] + rest);
    }
  }

  lemma CarryCleared(n: nat, p: seq<nat>)
    requires p != []
    ensures Prefixed(n, Carry(p, 0)) == Prefixed(n + 1, Carry(p[1..], p[0]))
  {
    match Carry(p[1..], p[0])
    case None =>
    case Some(q) => assert Zeros(n) + ([0] + q) == Zeros(n + 1) + q;
  }

  /** The constructor's loop terminates and lists all exponents in order. */
  method Powers(degree: nat, dim: nat) returns (powers: seq<seq<nat>>)
    ensures powers == All(dim, degree)
  {
    var pows := Zeros(dim);
    var degreeSum := 0;
    powers := [];
    ghost var all := All(dim, degree);
    FirstIsZeros(dim, degree);
    SumZeros(dim);
    var done := false;
    while !done
      invariant |powers| <= |all| && powers == all[..|powers|]
      invariant if done then |powers| == |all|
                else |powers| < |all| && pows == all[|powers|] && degreeSum == Sum(pows) <= degree
      decreases |all| - |powers|, !done
    {
      CarryIsNext(dim, degree, |powers|);
      powers := powers + [pows];
      pows, degreeSum, done := Increment(pows, degreeSum, degree);
      if !done {
        AllSound(dim, degree, |powers|);
      }
    }
  }

  // ---- the barycentric loop ---------------------------------------------------------------

  /** With no slack the carry clears the first nonzero coordinate and raises the one after it. */
  lemma {:induction false} CarryAtNonzero(p: seq<nat>, k: nat)
    requires k < |p| && p[k] > 0 && forall i :: 0 <= i < k ==> p[i] == 0
    ensures Carry(p, 0) ==
      if k + 1 == |p| then None else Some(Zeros(k + 1) + [p[k + 1] + 1] + p[k + 2..])
  {
    if k == 0 {
      if |p| > 1 {
        assert p[1..][0] == p[1] && p[1..][1..] == p[2..];
        assert [0] + ([p[1] + 1] + p[2..]) == Zeros(1) + [p[1] + 1] + p[2..];
      }
    } else {
      CarryAtNonzero(p[1..], k - 1);
      if k + 1 < |p| {
        assert p[1..][k] == p[k + 1] && p[1..][k + 1..] == p[k + 2..];
        assert [0] + (Zeros(k) + [p[k + 1] + 1] + p[k + 2..]) == Zeros(k + 1) + [p[k + 1] + 1] + p[k + 2..];
      }
    }
  }

  lemma {:induction false} SumAtNonzero(p: seq<nat>, k: nat)
    requires k < |p| && forall i :: 0 <= i < k ==> p[i] == 0
    ensures Sum(p) == p[k] + Sum(p[k + 1..])
  {
    if k > 0 {
      SumAtNonzero(p[1..], k - 1);
      assert p[1..][k..] == p[k + 1..];
    }
  }

  lemma {:induction false} SomeNonzero(p: seq<nat>)
    requires Sum(p) > 0
    ensures exists k :: 0 <= k < |p| && p[k] > 0
  {
    if p[0] == 0 {
      SomeNonzero(p[1..]);
      var k :| 0 <= k < |p[1..]| && p[1..][k] > 0;
      assert p[k + 1] > 0;
    }
  }

  /** Coordinate 0 completes the others to the degree. */
  ghost predicate Completes(ubc: seq<nat>, p: seq<nat>, degree: nat) {
    |ubc| == |p| + 1 && ubc[1..] == p && ubc[0] + Sum(p) == degree
  }

  /** One step of the barycentric loop. */
  method NextPoint(ubc: seq<nat>, degree: nat) returns (next: seq<nat>, finish: bool)
    requires degree > 0 && |ubc| > 1 && Completes(ubc, ubc[1..], degree)
    ensures |next| == |ubc| && Carry(ubc[1..], ubc[0]) == if finish then None else Some(next[1..])
    ensures (!finish ==> Completes(next, next[1..], degree))
  {
    ghost var p := ubc[1..];
    next, finish := ubc, false;
    if ubc[0] > 0 {
      next := next[1 := next[1] + 1];
      next := next[0 := next[0] - 1];
      assert next[1..] == [p[0] + 1] + p[1..];
      assert next[1..][1..] == p[1..];
    } else {
      var c := FirstNonzero(ubc);
      ghost var k := c - 1;
      assert forall i :: 0 <= i < k ==> p[i] == ubc[i + 1];
      CarryAtNonzero(p, k);
      if c == |ubc| - 1 {
        finish := true;
      } else {
        next := CarryPoint(ubc, c);
        SumAtNonzero(p, k);
        SumSplit(p, k + 1);
      }
    }
  }

  /** The first coordinate after 0 that is not zero. */
  method FirstNonzero(ubc: seq<nat>) returns (c: nat)
    requires |ubc| > 1 && Sum(ubc[1..]) > 0
    ensures 1 <= c < |ubc| && ubc[c] > 0 && forall i :: 1 <= i < c ==> ubc[i] == 0
  {
    SomeNonzero(ubc[1..]);
    ghost var w :| 0 <= w < |ubc[1..]| && ubc[1..][w] > 0;
    c := 1;
    while ubc[c] == 0
      invariant 1 <= c < |ubc| && c <= w + 1 && forall i :: 1 <= i < c ==> ubc[i] == 0
      decreases |ubc| - c
    {
      assert ubc[w + 1] == ubc[1..][w];
      c := c + 1;
    }
  }

  /** Coordinate c goes to coordinate 0, less one for the coordinate after it. */
  method CarryPoint(ubc: seq<nat>, c: nat) returns (next: seq<nat>)
    requires 1 <= c && c + 1 < |ubc| && ubc[c] > 0 && forall i :: 1 <= i < c ==> ubc[i] == 0
    ensures |next| == |ubc| && next[0] == ubc[c] - 1
    ensures next[1..] == Zeros(c) + [ubc[c + 1] + 1] + ubc[c + 2..]
    ensures Sum(next[1..]) == ubc[c + 1] + 1 + Sum(ubc[c + 2..])
  {
    next := ubc[0 := ubc[c] - 1];
    next := next[c := 0];
    next := next[c + 1 := next[c + 1] + 1];
    ghost var q := Zeros(c) + [ubc[c + 1] + 1] + ubc[c + 2..];
    assert next[1..] == q;
    SumAtNonzero(q, c);
    assert q[c + 1..] == ubc[c + 2..];
  }

  /** For degree and dimension at least one, the support points are the exponents of the space,
      completed by coordinate 0, in the same order: there are as many dofs as basis functions. */
  method SupportPoints(degree: nat, dim: nat) returns (points: seq<seq<nat>>)
    requires degree > 0 && dim > 0
    ensures |points| == |All(dim, degree)|
    ensures forall i :: 0 <= i < |points| ==> Completes(points[i], All(dim, degree)[i], degree)
  {
    ghost var all := All(dim, degree);
    var ubc := [degree] + Zeros(dim);
    assert ubc[1..] == Zeros(dim);
    FirstIsZeros(dim, degree);
    SumZeros(dim);
    points := [];
    var finish := false;
    while !finish
      invariant |points| <= |all| && forall i :: 0 <= i < |points| ==> Completes(points[i], all[i], degree)
      invariant if finish then |points| == |all|
                else |points| < |all| && Completes(ubc, all[|points|], degree) && |ubc| == dim + 1
      decreases |all| - |points|, !finish
    {
      CarryIsNext(dim, degree, |points|);
      points := points + [ubc];
      ubc, finish := NextPoint(ubc, degree);
    }
  }
}
