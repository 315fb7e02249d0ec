/** Sources and fluxes of a balance (src/coupling/balance.cc:535-700): summed up over all dofs for
    the cumulative balance, and split by sign and region for the instant one. */
module BalanceSums {
  import opened RealSums

  /** An entry of the source matrices: the region, the multiplier of the solution and the constant
      part. */
  datatype Cell = Cell(region: nat, mult: real, add: real)

  function Value(cell: Cell, x: real): real {
    cell.mult * x + cell.add
  }

  predicate RowOk(row: seq<Cell>, nRegions: nat) {
    forall j :: 0 <= j < |row| ==> row[j].region < nRegions
  }

  predicate RowsOk(rows: seq<seq<Cell>>, sol: seq<real>, nRegions: nat) {
    |sol| == |rows| && forall i :: 0 <= i < |rows| ==> RowOk(rows[i], nRegions)
  }

  // ---- the cumulative rate ----------------------------------------------------------------

  ghost function RowRate(row: seq<Cell>, x: real, n: nat): real
    requires n <= |row|
  {
    if n == 0 then 0.0 else RowRate(row, x, n - 1) + Value(row[n - 1], x)
  }

  ghost function Rate(rows: seq<seq<Cell>>, sol: seq<real>, n: nat): real
    requires n <= |rows| == |sol|
  {
    if n == 0 then 0.0 else Rate(rows, sol, n - 1) + RowRate(rows[n - 1], sol[n - 1], |rows[n - 1]|)
  }

  method SumSources(rows: seq<seq<Cell>>, sol: seq<real>) returns (s: real)
    requires |sol| == |rows|
    ensures s == Rate(rows, sol, |rows|)
    ensures s == SumTo(|rows|, Scaled(rows, sol, Everywhere())) + SumTo(|rows|, Constant(rows, Everywhere()))
  {
    RateIs(rows, sol, |rows|);
    s := 0.0;
    var i := 0;
    while i < |rows|
      invariant i <= |rows| && s == Rate(rows, sol, i)
    {
      ghost var before := s;
      var j := 0;
      while j < |rows[i]|
        invariant j <= |rows[i]| && s == before + RowRate(rows[i], sol[i], j)
      {
        s := s + Value(rows[i][j], sol[i]);
        j := j + 1;
      }
      i := i + 1;
    }
  }

  // ---- the split by sign and region -------------------------------------------------------

  /** What a value adds to region r: the positive or the other part. */
  function Share(region: nat, v: real, r: int, positive: bool): real {
    if region == r && (v > 0.0) == positive then v else 0.0
  }

  ghost function RowPart(row: seq<Cell>, x: real, n: nat, r: int, positive: bool): real
    requires n <= |row|
  {
    if n == 0 then 0.0
    else RowPart(row, x, n - 1, r, positive) + Share(row[n - 1].region, Value(row[n - 1], x), r, positive)
  }

  ghost function Part(rows: seq<seq<Cell>>, sol: seq<real>, n: nat, r: int, positive: bool): real
    requires n <= |rows| == |sol|
  {
    if n == 0 then 0.0
    else Part(rows, sol, n - 1, r, positive) + RowPart(rows[n - 1], sol[n - 1], |rows[n - 1]|, r, positive)
  }

  /** One row of the splitting loop. */
  method SplitRow(row: seq<Cell>, x: real, in0: seq<real>, out0: seq<real>) returns (ins: seq<real>, outs: seq<real>)
    requires |in0| == |out0| && RowOk(row, |in0|)
    ensures |ins| == |in0| && |outs| == |out0|
    ensures forall r :: 0 <= r < |ins| ==> ins[r] == in0[r] + RowPart(row, x, |row|, r, true)
    ensures forall r :: 0 <= r < |outs| ==> outs[r] == out0[r] + RowPart(row, x, |row|, r, false)
  {
    ins, outs := in0, out0;
    var j := 0;
    while j < |row|
      invariant j <= |row| && |ins| == |in0| && |outs| == |out0|
      invariant forall r :: 0 <= r < |ins| ==> ins[r] == in0[r] + RowPart(row, x, j, r, true)
      invariant forall r :: 0 <= r < |outs| ==> outs[r] == out0[r] + RowPart(row, x, j, r, false)
    {
      var f, col := Value(row[j], x), row[j].region;
      if f > 0.0 {
        ins := ins[col := ins[col] + f];
      } else {
        outs := outs[col := outs[col] + f];
      }
      j := j + 1;
    }
  }

  method SplitSources(rows: seq<seq<Cell>>, sol: seq<real>, nRegions: nat) returns (ins: seq<real>, outs: seq<real>)
    requires RowsOk(rows, sol, nRegions)
    ensures |ins| == |outs| == nRegions
    ensures forall r :: 0 <= r < nRegions ==> ins[r] == Part(rows, sol, |rows|, r, true)
    ensures forall r :: 0 <= r < nRegions ==> outs[r] == Part(rows, sol, |rows|, r, false)
    ensures forall r :: 0 <= r < nRegions ==> ins[r] == SumTo(|rows|, AllGains(rows, sol, r))
    ensures forall r :: 0 <= r < nRegions ==>
      ins[r] + outs[r] == SumTo(|rows|, Scaled(rows, sol, Only(r))) + SumTo(|rows|, Constant(rows, Only(r)))
  {
    forall r: int
      ensures Part(rows, sol, |rows|, r, true) == SumTo(|rows|, AllGains(rows, sol, r))
      ensures Part(rows, sol, |rows|, r, true) + Part(rows, sol, |rows|, r, false)
           == SumTo(|rows|, Scaled(rows, sol, Only(r))) + SumTo(|rows|, Constant(rows, Only(r)))
    {
      GainsAre(rows, sol, |rows|, r);
      NetIs(rows, sol, |rows|, r);
    }
    ins, outs := seq(nRegions, _ => 0.0), seq(nRegions, _ => 0.0);
    var i := 0;
    while i < |rows|
      invariant i <= |rows| && |ins| == |outs| == nRegions
      invariant forall r :: 0 <= r < nRegions ==> ins[r] == Part(rows, sol, i, r, true)
      invariant forall r :: 0 <= r < nRegions ==> outs[r] == Part(rows, sol, i, r, false)
    {
      ins, outs := SplitRow(rows[i], sol[i], ins, outs);
      i := i + 1;
    }
  }

  /** The parts have their signs. */
  lemma {:induction false} RowPartSign(row: seq<Cell>, x: real, n: nat, r: int)
    requires n <= |row|
    ensures RowPart(row, x, n, r, true) >= 0.0 >= RowPart(row, x, n, r, false)
  {
    if n > 0 {
      RowPartSign(row, x, n - 1, r);
    }
  }

  lemma {:induction false} PartSign(rows: seq<seq<Cell>>, sol: seq<real>, n: nat, r: int)
    requires n <= |rows| == |sol|
    ensures Part(rows, sol, n, r, true) >= 0.0 >= Part(rows, sol, n, r, false)
  {
    if n > 0 {
      PartSign(rows, sol, n - 1, r);
      RowPartSign(rows[n - 1], sol[n - 1], |rows[n - 1]|, r);
    }
  }

  // ---- both agree -------------------------------------------------------------------------

  ghost function RowNet(row: seq<Cell>, x: real, n: nat): int -> real
    requires n <= |row|
  {
    r => RowPart(row, x, n, r, true) + RowPart(row, x, n, r, false)
  }

  ghost function Net(rows: seq<seq<Cell>>, sol: seq<real>, n: nat): int -> real
    requires n <= |rows| == |sol|
  {
    r => Part(rows, sol, n, r, true) + Part(rows, sol, n, r, false)
  }

  function OneRegion(region: nat, v: real): int -> real {
    r => if r == region then v else 0.0
  }

  lemma {:induction false} RowAgrees(row: seq<Cell>, x: real, n: nat, nRegions: nat)
    requires n <= |row| && RowOk(row, nRegions)
    ensures SumTo(nRegions, RowNet(row, x, n)) == RowRate(row, x, n)
  {
    if n == 0 {
      SumZero(nRegions, RowNet(row, x, 0));
    } else {
      RowAgrees(row, x, n - 1, nRegions);
      var region, v := row[n - 1].region, Value(row[n - 1], x);
      SumAdd(nRegions, RowNet(row, x, n - 1), OneRegion(region, v), RowNet(row, x, n));
      SumOne(nRegions, OneRegion(region, v), region);
    }
  }

  /** Summed over all regions, the instant sources are the cumulative rate. */
  lemma {:induction false} SourcesAgree(rows: seq<seq<Cell>>, sol: seq<real>, n: nat, nRegions: nat)
    requires n <= |rows| && RowsOk(rows, sol, nRegions)
    ensures SumTo(nRegions, Net(rows, sol, n)) == Rate(rows, sol, n)
  {
    if n == 0 {
      SumZero(nRegions, Net(rows, sol, 0));
    } else {
      SourcesAgree(rows, sol, n - 1, nRegions);
      RowAgrees(rows[n - 1], sol[n - 1], |rows[n - 1]|, nRegions);
      SumAdd(nRegions, Net(rows, sol, n - 1), RowNet(rows[n - 1], sol[n - 1], |rows[n - 1]|), Net(rows, sol, n));
    }
  }

  // ---- said by plain sums -----------------------------------------------------------------

  function Everywhere(): nat -> bool {
    _ => true
  }

  function Only(r: int): nat -> bool {
    s => s == r
  }

  /** The multipliers, and the constant parts, of the entries of a row that are in some regions. */
  function Mults(row: seq<Cell>, where: nat -> bool): int -> real {
    j => if 0 <= j < |row| && where(row[j].region) then row[j].mult else 0.0
  }

  function Adds(row: seq<Cell>, where: nat -> bool): int -> real {
    j => if 0 <= j < |row| && where(row[j].region) then row[j].add else 0.0
  }

  /** The sum of all multipliers of a row times the solution there; the sum of its constant parts. */
  ghost function Scaled(rows: seq<seq<Cell>>, sol: seq<real>, where: nat -> bool): int -> real
    requires |rows| == |sol|
  {
    i => if 0 <= i < |rows| then SumTo(|rows[i]|, Mults(rows[i], where)) * sol[i] else 0.0
  }

  ghost function Constant(rows: seq<seq<Cell>>, where: nat -> bool): int -> real {
    i => if 0 <= i < |rows| then SumTo(|rows[i]|, Adds(rows[i], where)) else 0.0
  }

  lemma OneMoreEntry(s: real, m: real, v: real, b: real, x: real)
    ensures s * x + v + (m * x + b) == (s + m) * x + (v + b)
  {
  }

  lemma {:induction false} RowRateIs(row: seq<Cell>, x: real, n: nat)
    requires n <= |row|
    ensures RowRate(row, x, n) == SumTo(n, Mults(row, Everywhere())) * x + SumTo(n, Adds(row, Everywhere()))
  {
    if n > 0 {
      RowRateIs(row, x, n - 1);
      OneMoreEntry(SumTo(n - 1, Mults(row, Everywhere())), row[n - 1].mult,
                   SumTo(n - 1, Adds(row, Everywhere())), row[n - 1].add, x);
    }
  }

  ghost function RowRates(rows: seq<seq<Cell>>, sol: seq<real>): int -> real
    requires |rows| == |sol|
  {
    i => if 0 <= i < |rows| then RowRate(rows[i], sol[i], |rows[i]|) else 0.0
  }

  lemma {:induction false} RateByRows(rows: seq<seq<Cell>>, sol: seq<real>, n: nat)
    requires n <= |rows| == |sol|
    ensures Rate(rows, sol, n) == SumTo(n, RowRates(rows, sol))
  {
    if n > 0 {
      RateByRows(rows, sol, n - 1);
    }
  }

  /** The rate is the sum over the rows of their multipliers times the solution, plus all constant
      parts. */
  lemma RateIs(rows: seq<seq<Cell>>, sol: seq<real>, n: nat)
    requires n <= |rows| == |sol|
    ensures Rate(rows, sol, n)
         == SumTo(n, Scaled(rows, sol, Everywhere())) + SumTo(n, Constant(rows, Everywhere()))
  {
    var f, g, h := Scaled(rows, sol, Everywhere()), Constant(rows, Everywhere()), RowRates(rows, sol);
    forall i: nat | i < n
      ensures h(i) == f(i) + g(i)
    {
      RowRateIs(rows[i], sol[i], |rows[i]|);
    }
    RateByRows(rows, sol, n);
    SumAdd(n, f, g, h);
  }

  lemma {:induction false} RowNetIs(row: seq<Cell>, x: real, n: nat, r: int)
    requires n <= |row|
    ensures RowPart(row, x, n, r, true) + RowPart(row, x, n, r, false)
         == SumTo(n, Mults(row, Only(r))) * x + SumTo(n, Adds(row, Only(r)))
  {
    if n > 0 {
      RowNetIs(row, x, n - 1, r);
      OneMoreEntry(SumTo(n - 1, Mults(row, Only(r))), Mults(row, Only(r))(n - 1),
                   SumTo(n - 1, Adds(row, Only(r))), Adds(row, Only(r))(n - 1), x);
    }
  }

  ghost function RowNets(rows: seq<seq<Cell>>, sol: seq<real>, r: int): int -> real
    requires |rows| == |sol|
  {
    i =>
      if 0 <= i < |rows| then
        RowPart(rows[i], sol[i], |rows[i]|, r, true) + RowPart(rows[i], sol[i], |rows[i]|, r, false)
      else 0.0
  }

  lemma {:induction false} NetByRows(rows: seq<seq<Cell>>, sol: seq<real>, n: nat, r: int)
    requires n <= |rows| == |sol|
    ensures Part(rows, sol, n, r, true) + Part(rows, sol, n, r, false) == SumTo(n, RowNets(rows, sol, r))
  {
    if n > 0 {
      NetByRows(rows, sol, n - 1, r);
    }
  }

  /** ... and so for what comes into and goes out of a region together. */
  lemma NetIs(rows: seq<seq<Cell>>, sol: seq<real>, n: nat, r: int)
    requires n <= |rows| == |sol|
    ensures Part(rows, sol, n, r, true) + Part(rows, sol, n, r, false)
         == SumTo(n, Scaled(rows, sol, Only(r))) + SumTo(n, Constant(rows, Only(r)))
  {
    var f, g, h := Scaled(rows, sol, Only(r)), Constant(rows, Only(r)), RowNets(rows, sol, r);
    forall i: nat | i < n
      ensures h(i) == f(i) + g(i)
    {
      RowNetIs(rows[i], sol[i], |rows[i]|, r);
    }
    NetByRows(rows, sol, n, r);
    SumAdd(n, f, g, h);
  }

  /** The positive values of a row in region r. */
  function Gains(row: seq<Cell>, x: real, r: int): int -> real {
    j => if 0 <= j < |row| && row[j].region == r && row[j].mult * x + row[j].add > 0.0
         then row[j].mult * x + row[j].add else 0.0
  }

  ghost function AllGains(rows: seq<seq<Cell>>, sol: seq<real>, r: int): int -> real
    requires |rows| == |sol|
  {
    i => if 0 <= i < |rows| then SumTo(|rows[i]|, Gains(rows[i], sol[i], r)) else 0.0
  }

  lemma {:induction false} RowGains(row: seq<Cell>, x: real, n: nat, r: int)
    requires n <= |row|
    ensures RowPart(row, x, n, r, true) == SumTo(n, Gains(row, x, r))
  {
    if n > 0 {
      RowGains(row, x, n - 1, r);
    }
  }

  /** What comes into a region is the sum of the positive values there; the rest goes out. */
  lemma {:induction false} GainsAre(rows: seq<seq<Cell>>, sol: seq<real>, n: nat, r: int)
    requires n <= |rows| == |sol|
    ensures Part(rows, sol, n, r, true) == SumTo(n, AllGains(rows, sol, r))
  {
    if n > 0 {
      GainsAre(rows, sol, n - 1, r);
      RowGains(rows[n - 1], sol[n - 1], |rows[n - 1]|, r);
    }
  }

  // ---- fluxes -----------------------------------------------------------------------------

  /** Incoming flux of boundary edges: the negative of the outgoing one. */
  ghost function FluxPart(flux: seq<real>, regions: seq<nat>, n: nat, r: int, inward: bool): real
    requires n <= |flux| == |regions|
  {
    if n == 0 then 0.0
    else
      var f := -flux[n - 1];
      FluxPart(flux, regions, n - 1, r, inward) + (if regions[n - 1] == r && (f < 0.0) != inward then f else 0.0)
  }

  ghost function FluxSum(flux: seq<real>, n: nat): real
    requires n <= |flux|
  {
    if n == 0 then 0.0 else FluxSum(flux, n - 1) + flux[n - 1]
  }

  method SplitFluxes(flux: seq<real>, regions: seq<nat>, nRegions: nat) returns (ins: seq<real>, outs: seq<real>)
    requires |flux| == |regions| && forall e :: 0 <= e < |regions| ==> regions[e] < nRegions
    ensures |ins| == |outs| == nRegions
    ensures forall r :: 0 <= r < nRegions ==> ins[r] == FluxPart(flux, regions, |flux|, r, true)
    ensures forall r :: 0 <= r < nRegions ==> outs[r] == FluxPart(flux, regions, |flux|, r, false)
  {
    ins, outs := seq(nRegions, _ => 0.0), seq(nRegions, _ => 0.0);
    var e := 0;
    while e < |flux|
      invariant e <= |flux| && |ins| == |outs| == nRegions
      invariant forall r :: 0 <= r < nRegions ==> ins[r] == FluxPart(flux, regions, e, r, true)
      invariant forall r :: 0 <= r < nRegions ==> outs[r] == FluxPart(flux, regions, e, r, false)
    {
      var f, r := -flux[e], regions[e];
      if f < 0.0 {
        outs := outs[r := outs[r] + f];
      } else {
        ins := ins[r := ins[r] + f];
      }
      e := e + 1;
    }
  }

  ghost function FluxNet(flux: seq<real>, regions: seq<nat>, n: nat): int -> real
    requires n <= |flux| == |regions|
  {
    r => FluxPart(flux, regions, n, r, true) + FluxPart(flux, regions, n, r, false)
  }

  lemma {:induction false} FluxPartSign(flux: seq<real>, regions: seq<nat>, n: nat, r: int)
    requires n <= |flux| == |regions|
    ensures FluxPart(flux, regions, n, r, true) >= 0.0 >= FluxPart(flux, regions, n, r, false)
  {
    if n > 0 {
      FluxPartSign(flux, regions, n - 1, r);
    }
  }

  /** Summed over all regions, the instant fluxes are the negative of the sum of outgoing ones. */
  lemma {:induction false} FluxesAgree(flux: seq<real>, regions: seq<nat>, n: nat, nRegions: nat)
    requires n <= |flux| == |regions| && forall e :: 0 <= e < |regions| ==> regions[e] < nRegions
    ensures SumTo(nRegions, FluxNet(flux, regions, n)) == -FluxSum(flux, n)
  {
    if n == 0 {
      SumZero(nRegions, FluxNet(flux, regions, 0));
    } else {
      FluxesAgree(flux, regions, n - 1, nRegions);
      var region, v := regions[n - 1], -flux[n - 1];
      SumAdd(nRegions, FluxNet(flux, regions, n - 1), OneRegion(region, v), FluxNet(flux, regions, n));
      SumOne(nRegions, OneRegion(region, v), region);
    }
  }

  /** The outward flux of the boundary edges, and of those in region r that it leaves or enters. */
  function Fluxes(flux: seq<real>): int -> real {
    e => if 0 <= e < |flux| then flux[e] else 0.0
  }

  function FluxesOf(flux: seq<real>, regions: seq<nat>, r: int, inward: bool): int -> real
    requires |flux| == |regions|
  {
    e => if 0 <= e < |flux| && regions[e] == r && (if inward then flux[e] < 0.0 else flux[e] > 0.0)
         then flux[e] else 0.0
  }

  /** What flows in, or out, through a boundary region is the negative of its fluxes of that sign. */
  lemma {:induction false} FluxPartIs(flux: seq<real>, regions: seq<nat>, n: nat, r: int, inward: bool)
    requires n <= |flux| == |regions|
    ensures FluxPart(flux, regions, n, r, inward) == -SumTo(n, FluxesOf(flux, regions, r, inward))
  {
    if n > 0 {
      FluxPartIs(flux, regions, n - 1, r, inward);
    }
  }

  lemma {:induction false} FluxSumIs(flux: seq<real>, n: nat)
    requires n <= |flux|
    ensures FluxSum(flux, n) == SumTo(n, Fluxes(flux))
  {
    if n > 0 {
      FluxSumIs(flux, n - 1);
    }
  }
}
