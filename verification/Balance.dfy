/** The balance of several quantities on several processes (src/coupling/balance.cc): each process
    keeps its tables; process 0 also the masses, the fluxes and the integrals. */
module Balance {
  import opened Options
  import opened RealSums
  import opened BalanceSums
  import opened BalanceBuffer
  import opened BalanceRuns

  /** The data of one process for a quantity: entries of its source matrices by dof, its part of
      the solution, and the outgoing fluxes of its boundary edges with their regions. */
  datatype Process = Process(rows: seq<seq<Cell>>, sol: seq<real>, flux: seq<real>, edgeRegions: seq<nat>)

  ghost predicate ProcessOk(x: Process, s: Sizes) {
    && RowsOk(x.rows, x.sol, s.bulk)
    && |x.flux| == |x.edgeRegions| && forall e :: 0 <= e < |x.flux| ==> x.edgeRegions[e] < s.boundary
  }

  ghost predicate ProcessesOk(xs: seq<Process>, s: Sizes) {
    forall p :: 0 <= p < |xs| ==> ProcessOk(xs[p], s)
  }

  ghost predicate AllOk(local: seq<Tables>, s: Sizes) {
    |local| > 0 && forall p :: 0 <= p < |local| ==> TablesOk(local[p], s)
  }

  /** Rates of the sources of all processes, and the sum of all outgoing fluxes. */
  ghost function Rates(xs: seq<Process>, s: Sizes): (r: seq<real>)
    requires ProcessesOk(xs, s)
    ensures |r| == |xs|
  {
    seq(|xs|, p requires 0 <= p < |xs| && ProcessOk(xs[p], s) => Rate(xs[p].rows, xs[p].sol, |xs[p].rows|))
  }

  ghost function OutFluxes(xs: seq<Process>): int -> real {
    p => if 0 <= p < |xs| then FluxSum(xs[p].flux, |xs[p].flux|) else 0.0
  }

  ghost function OutFlux(xs: seq<Process>): real {
    SumTo(|xs|, OutFluxes(xs))
  }

  /** Pending sources of a quantity on all processes. */
  ghost function Pending(local: seq<Tables>, q: nat): (r: seq<real>)
    requires forall p :: 0 <= p < |local| ==> q < |local[p].increments|
    ensures |r| == |local|
  {
    seq(|local|, p requires 0 <= p < |local| && q < |local[p].increments| => local[p].increments[q])
  }

  // ---- accumulating -----------------------------------------------------------------------

  function WithIncrement(t: Tables, q: nat, x: real): (u: Tables)
    requires q < |t.increments|
  {
    t.(increments := t.increments[q := x])
  }

  /** Only the pending sources of quantity q differ. */
  ghost predicate OnlyPending(local: seq<Tables>, after: seq<Tables>, s: Sizes, q: nat) {
    && AllOk(local, s) && AllOk(after, s) && |after| == |local|
    && forall k: nat :: k < s.quantities && k != q ==> Pending(after, k) == Pending(local, k)
  }

  method AddRates(local: seq<Tables>, s: Sizes, q: nat, xs: seq<Process>, dt: real) returns (after: seq<Tables>)
    requires AllOk(local, s) && q < s.quantities && |xs| == |local| && ProcessesOk(xs, s)
    ensures OnlyPending(local, after, s, q) && Pending(after, q) == Accumulated(Pending(local, q), Rates(xs, s), dt)
  {
    after := local;
    ghost var amounts := Accumulated(Pending(local, q), Rates(xs, s), dt);
    var p := 0;
    while p < |local|
      invariant p <= |local| == |after|
      invariant forall k :: p <= k < |local| ==> after[k] == local[k]
      invariant forall k :: 0 <= k < p ==> after[k] == WithIncrement(local[k], q, amounts[k])
    {
      assert ProcessOk(xs[p], s) && TablesOk(local[p], s);
      var rate := SumSources(xs[p].rows, xs[p].sol);
      ghost var rates := Rates(xs, s);
      assert rates[p] == rate;
      assert amounts[p] == after[p].increments[q] + rate * dt;
      after := after[p := WithIncrement(after[p], q, after[p].increments[q] + rate * dt)];
      p := p + 1;
    }
    forall k | 0 <= k < |after|
      ensures TablesOk(after[k], s)
    {
      IncrementKeepsTables(local[k], s, q, amounts[k]);
    }
  }

  lemma IncrementKeepsTables(t: Tables, s: Sizes, q: nat, x: real)
    requires TablesOk(t, s) && q < s.quantities
    ensures TablesOk(WithIncrement(t, q, x), s)
  {
    var u := WithIncrement(t, q, x);
    forall k: nat | k < s.quantities
      ensures QuantityOk(u, s, k)
    {
      assert QuantityOk(t, s, k);
    }
  }

  /** The sum of a distributed vector. */
  method SumFluxes(xs: seq<Process>) returns (sum: real)
    ensures sum == OutFlux(xs)
  {
    sum := 0.0;
    var p := 0;
    while p < |xs|
      invariant p <= |xs| && sum == SumTo(p, OutFluxes(xs))
    {
      ghost var before := sum;
      var e := 0;
      while e < |xs[p].flux|
        invariant e <= |xs[p].flux| && sum == before + FluxSum(xs[p].flux, e)
      {
        sum := sum + xs[p].flux[e];
        e := e + 1;
      }
      p := p + 1;
    }
  }

  // ---- instant sources and fluxes ---------------------------------------------------------

  /** The tables of a process hold the split of its sources and fluxes of quantity q. */
  ghost predicate IsSplit(t: Tables, s: Sizes, q: nat, x: Process) {
    && ProcessOk(x, s) && TablesOk(t, s)
    && (forall r: nat :: r < s.bulk ==> At(t, SourceIn, q, r) == Part(x.rows, x.sol, |x.rows|, r, true))
    && (forall r: nat :: r < s.bulk ==> At(t, SourceOut, q, r) == Part(x.rows, x.sol, |x.rows|, r, false))
    && (forall r: nat :: r < s.boundary ==> At(t, FluxIn, q, r) == FluxPart(x.flux, x.edgeRegions, |x.flux|, r, true))
    && (forall r: nat :: r < s.boundary ==> At(t, FluxOut, q, r) == FluxPart(x.flux, x.edgeRegions, |x.flux|, r, false))
  }

  method SplitProcess(t: Tables, s: Sizes, q: nat, x: Process) returns (u: Tables)
    requires TablesOk(t, s) && ProcessOk(x, s) && q < s.quantities
    ensures IsSplit(u, s, q, x) && u.increments == t.increments
    ensures forall kind, k: nat, r: nat :: k != q ==> At(u, kind, k, r) == At(t, kind, k, r)
  {
    var si, so := SplitSources(x.rows, x.sol, s.bulk);
    var fi, fo := SplitFluxes(x.flux, x.edgeRegions, s.boundary);
    u := Tables(t.sourcesIn[q := si], t.sourcesOut[q := so], t.fluxesIn[q := fi], t.fluxesOut[q := fo], t.increments);
    forall k: nat | k < s.quantities
      ensures QuantityOk(u, s, k)
    {
      assert QuantityOk(t, s, k);
    }
  }

  ghost function NetSources(ts: seq<Tables>, q: nat): (int, int) -> real {
    (p, r) => if 0 <= p < |ts| && 0 <= r then At(ts[p], SourceIn, q, r) + At(ts[p], SourceOut, q, r) else 0.0
  }

  ghost function NetFluxes(ts: seq<Tables>, q: nat): (int, int) -> real {
    (p, r) => if 0 <= p < |ts| && 0 <= r then At(ts[p], FluxIn, q, r) + At(ts[p], FluxOut, q, r) else 0.0
  }

  lemma ProcessRate(ts: seq<Tables>, s: Sizes, q: nat, xs: seq<Process>, p: nat)
    requires p < |ts| == |xs| && IsSplit(ts[p], s, q, xs[p])
    ensures SumTo(s.bulk, Row(NetSources(ts, q), p)) == Rate(xs[p].rows, xs[p].sol, |xs[p].rows|)
    ensures SumTo(s.boundary, Row(NetFluxes(ts, q), p)) == -FluxSum(xs[p].flux, |xs[p].flux|)
  {
    var x := xs[p];
    SourcesAgree(x.rows, x.sol, |x.rows|, s.bulk);
    SumCong(s.bulk, Row(NetSources(ts, q), p), Net(x.rows, x.sol, |x.rows|));
    FluxesAgree(x.flux, x.edgeRegions, |x.flux|, s.boundary);
    SumCong(s.boundary, Row(NetFluxes(ts, q), p), FluxNet(x.flux, x.edgeRegions, |x.flux|));
  }

  /** Summed over processes and regions, the instant sources are the rates that are accumulated. */
  lemma InstantSourcesAgree(ts: seq<Tables>, s: Sizes, q: nat, xs: seq<Process>)
    requires |ts| == |xs| && ProcessesOk(xs, s) && forall p :: 0 <= p < |ts| ==> IsSplit(ts[p], s, q, xs[p])
    ensures SumTo(s.bulk, ColumnSum(NetSources(ts, q), |ts|)) == SumOf(Rates(xs, s))
  {
    SumSwap(|ts|, s.bulk, NetSources(ts, q));
    forall p | 0 <= p < |ts|
      ensures RowSum(NetSources(ts, q), s.bulk)(p) == Entry(Rates(xs, s))(p)
    {
      ProcessRate(ts, s, q, xs, p);
    }
    SumCong(|ts|, RowSum(NetSources(ts, q), s.bulk), Entry(Rates(xs, s)));
  }

  /** And so are the instant fluxes, with the sign of incoming fluxes. */
  lemma InstantFluxesAgree(ts: seq<Tables>, s: Sizes, q: nat, xs: seq<Process>)
    requires |ts| == |xs| && forall p :: 0 <= p < |ts| ==> IsSplit(ts[p], s, q, xs[p])
    ensures SumTo(s.boundary, ColumnSum(NetFluxes(ts, q), |ts|)) == -OutFlux(xs)
  {
    SumSwap(|ts|, s.boundary, NetFluxes(ts, q));
    forall p | 0 <= p < |ts|
      ensures RowSum(NetFluxes(ts, q), s.boundary)(p) == -1.0 * OutFluxes(xs)(p)
    {
      ProcessRate(ts, s, q, xs, p);
    }
    SumScale(|ts|, -1.0, OutFluxes(xs), RowSum(NetFluxes(ts, q), s.boundary));
  }

  ghost function TotalSources(t: Tables, q: nat): int -> real {
    r => if 0 <= r then At(t, SourceIn, q, r) + At(t, SourceOut, q, r) else 0.0
  }

  ghost function TotalFluxes(t: Tables, q: nat): int -> real {
    r => if 0 <= r then At(t, FluxIn, q, r) + At(t, FluxOut, q, r) else 0.0
  }

  /** What process 0 collects on a region is the sum of the net values of the processes. */
  ghost predicate Collects(total: Tables, ts: seq<Tables>, s: Sizes, q: nat) {
    forall kind, r: nat :: r < Regions(s, kind) ==> At(total, kind, q, r) == SumTo(|ts|, RankEntry(ts, kind, q, r))
  }

  /** The sums over all regions that process 0 writes are the rates that were accumulated. */
  lemma OutputRates(total: Tables, ts: seq<Tables>, s: Sizes, q: nat, xs: seq<Process>)
    requires |ts| == |xs| && ProcessesOk(xs, s) && forall p :: 0 <= p < |ts| ==> IsSplit(ts[p], s, q, xs[p])
    requires Collects(total, ts, s, q)
    ensures SumTo(s.bulk, TotalSources(total, q)) == SumOf(Rates(xs, s))
    ensures SumTo(s.boundary, TotalFluxes(total, q)) == -OutFlux(xs)
  {
    forall r: nat | r < s.bulk
      ensures TotalSources(total, q)(r) == ColumnSum(NetSources(ts, q), |ts|)(r)
    {
      assert r < Regions(s, SourceIn) && r < Regions(s, SourceOut);
      SumAdd(|ts|, RankEntry(ts, SourceIn, q, r), RankEntry(ts, SourceOut, q, r), Column(NetSources(ts, q), r));
    }
    SumCong(s.bulk, TotalSources(total, q), ColumnSum(NetSources(ts, q), |ts|));
    InstantSourcesAgree(ts, s, q, xs);
    forall r: nat | r < s.boundary
      ensures TotalFluxes(total, q)(r) == ColumnSum(NetFluxes(ts, q), |ts|)(r)
    {
      assert r < Regions(s, FluxIn) && r < Regions(s, FluxOut);
      SumAdd(|ts|, RankEntry(ts, FluxIn, q, r), RankEntry(ts, FluxOut, q, r), Column(NetFluxes(ts, q), r));
    }
    SumCong(s.boundary, TotalFluxes(total, q), ColumnSum(NetFluxes(ts, q), |ts|));
    InstantFluxesAgree(ts, s, q, xs);
  }

  // ---- output -----------------------------------------------------------------------------

  /** Sums over all regions of a table of rows. */
  method SumRegions(rows: seq<seq<real>>) returns (sums: seq<real>)
    ensures |sums| == |rows| && forall q :: 0 <= q < |rows| ==> sums[q] == SumOf(rows[q])
  {
    sums := [];
    var q := 0;
    while q < |rows|
      invariant q <= |rows| && |sums| == q && forall k :: 0 <= k < q ==> sums[k] == SumOf(rows[k])
    {
      var sum, r := 0.0, 0;
      while r < |rows[q]|
        invariant r <= |rows[q]| && sum == SumTo(r, Entry(rows[q]))
      {
        sum := sum + rows[q][r];
        r := r + 1;
      }
      sums := sums + [sum];
      q := q + 1;
    }
  }

  function Plus(x: seq<real>, y: seq<real>): (z: seq<real>)
    requires |x| == |y|
    ensures |z| == |x| && forall q :: 0 <= q < |z| ==> z[q] == x[q] + y[q]
  {
    seq(|x|, q requires 0 <= q < |x| => x[q] + y[q])
  }

  function Cleared(t: Tables, s: Sizes): (u: Tables) {
    t.(increments := Zero(s.quantities))
  }

  method ClearAll(local: seq<Tables>, s: Sizes) returns (after: seq<Tables>)
    requires AllOk(local, s)
    ensures AllOk(after, s) && |after| == |local| && forall k :: 0 <= k < |local| ==> after[k] == Cleared(local[k], s)
    ensures forall q: nat :: q < s.quantities ==> Pending(after, q) == Zero(|local|)
  {
    after := local;
    var p := 0;
    while p < |local|
      invariant p <= |local| == |after|
      invariant forall k :: 0 <= k < p ==> after[k] == Cleared(local[k], s)
      invariant forall k :: p <= k < |local| ==> after[k] == local[k]
    {
      after := after[p := Cleared(after[p], s)];
      p := p + 1;
    }
    forall k | 0 <= k < |after|
      ensures TablesOk(after[k], s)
    {
      ClearKeepsTables(local[k], s);
    }
  }

  lemma ClearKeepsTables(t: Tables, s: Sizes)
    requires TablesOk(t, s)
    ensures TablesOk(Cleared(t, s), s)
  {
    var u := Cleared(t, s);
    forall k: nat | k < s.quantities
      ensures QuantityOk(u, s, k)
    {
      assert QuantityOk(t, s, k);
    }
  }

  /** Increments collected by process 0 are the sums of the pending sources. */
  lemma CollectedPending(local: seq<Tables>, s: Sizes, q: nat)
    requires AllOk(local, s) && q < s.quantities
    ensures SumTo(|local|, RankIncrement(local, q)) == SumOf(Pending(local, q))
  {
    forall p | 0 <= p < |local|
      ensures RankIncrement(local, q)(p) == Entry(Pending(local, q))(p)
    {
      assert TablesOk(local[p], s);
    }
    SumCong(|local|, RankIncrement(local, q), Entry(Pending(local, q)));
  }

  /** Process 0 has the totals, the others what they had; nothing is pending. */
  ghost predicate KeepsTotals(before: seq<Tables>, after: seq<Tables>, total: Tables, s: Sizes) {
    && |after| == |before| > 0 && after[0] == Cleared(total, s)
    && forall p :: 0 < p < |after| ==> after[p] == Cleared(before[p], s)
  }

  /** What the processes other than 0 hold of an entry. */
  ghost function Others(ts: seq<Tables>, kind: BalanceBuffer.Kind, q: nat, r: nat): real
    requires |ts| > 0
  {
    SumTo(|ts| - 1, Shifted(RankEntry(ts, kind, q, r), 1))
  }

  lemma ClearedEntry(t: Tables, s: Sizes, kind: BalanceBuffer.Kind, q: nat, r: nat)
    ensures At(Cleared(t, s), kind, q, r) == At(t, kind, q, r)
  {
  }

  /** A second output without new instant values counts what the other processes hold once more:
      it gives the same totals exactly if they hold nothing. */
  lemma SecondOutput(before: seq<Tables>, after: seq<Tables>, total: Tables, again: Tables, s: Sizes,
                     kind: BalanceBuffer.Kind, q: nat, r: nat)
    requires KeepsTotals(before, after, total, s)
    requires At(again, kind, q, r) == SumTo(|after|, RankEntry(after, kind, q, r))
    ensures At(again, kind, q, r) == At(total, kind, q, r) + Others(before, kind, q, r)
    ensures At(again, kind, q, r) == At(total, kind, q, r) <==> Others(before, kind, q, r) == 0.0
  {
    var f := RankEntry(after, kind, q, r);
    SumSplitAt(|after|, 1, f);
    assert SumTo(1, f) == SumTo(0, f) + f(0);
    ClearedEntry(total, s, kind, q, r);
    OthersKeep(before, after, total, s, kind, q, r);
  }

  lemma OthersKeep(before: seq<Tables>, after: seq<Tables>, total: Tables, s: Sizes, kind: BalanceBuffer.Kind, q: nat,
                   r: nat)
    requires KeepsTotals(before, after, total, s)
    ensures Others(after, kind, q, r) == Others(before, kind, q, r)
  {
    var f, g := RankEntry(after, kind, q, r), RankEntry(before, kind, q, r);
    forall p | 0 <= p < |after| - 1
      ensures Shifted(f, 1)(p) == Shifted(g, 1)(p)
    {
      ClearedEntry(before[p + 1], s, kind, q, r);
    }
    SumCong(|after| - 1, Shifted(f, 1), Shifted(g, 1));
  }

  class Ledger {
    const s: Sizes
    var local: seq<Tables>
    var masses: seq<seq<real>>
    var incrementFluxes: seq<real>
    var integratedSources: seq<real>
    var integratedFluxes: seq<real>
    var initialMass: seq<real>
    var initial: bool

    ghost predicate Valid()
      reads this
    {
      && AllOk(local, s)
      && |masses| == |incrementFluxes| == |integratedSources| == |integratedFluxes| == |initialMass| == s.quantities
    }

    /** The account of quantity q. */
    ghost function AccountOf(q: nat): (a: Account)
      requires Valid() && q < s.quantities
      reads this
    {
      Account(Pending(local, q), incrementFluxes[q], integratedSources[q], integratedFluxes[q],
              if initial then None else Some(initialMass[q]))
    }

    constructor (s: Sizes, ranks: nat)
      requires ranks > 0
      ensures Valid() && this.s == s && |local| == ranks && masses == StartMasses(s)
      ensures forall q: nat :: q < s.quantities ==> AccountOf(q) == Run([], ranks)
      ensures forall p: nat, kind: BalanceBuffer.Kind, q: nat, r: nat :: p < ranks ==> At(local[p], kind, q, r) == 0.0
    {
      this.s := s;
      var empty := EmptyTables(s);
      local := seq(ranks, _ => empty);
      masses := StartMasses(s);
      incrementFluxes, integratedSources, integratedFluxes, initialMass :=
        Zero(s.quantities), Zero(s.quantities), Zero(s.quantities), Zero(s.quantities);
      initial := true;
    }

    method AddCumulativeSource(q: nat, source: real)
      requires Valid() && q < s.quantities
      modifies this`local
      ensures Valid() && |local| == |old(local)| && AccountOf(q) == Step(old(AccountOf(q)), AddSource(source))
      ensures forall k: nat :: k < s.quantities && k != q ==> AccountOf(k) == old(AccountOf(k))
    {
      local := AddToFirst(local, s, q, source);
    }

    method CalculateCumulative(q: nat, xs: seq<Process>, dt: real, tlevel: int)
      requires Valid() && q < s.quantities && |xs| == |local| && ProcessesOk(xs, s)
      modifies this`local, this`incrementFluxes
      ensures Valid() && |local| == |old(local)|
      ensures AccountOf(q) == Step(old(AccountOf(q)), Cumulative(tlevel, Rates(xs, s), OutFlux(xs), dt))
      ensures forall k: nat :: k < s.quantities && k != q ==> AccountOf(k) == old(AccountOf(k))
    {
      if tlevel <= 0 {
        return;
      }
      local := AddRates(local, s, q, xs, dt);
      var sum := SumFluxes(xs);
      incrementFluxes := incrementFluxes[q := incrementFluxes[q] + -1.0 * sum * dt];
      Negated(sum, dt);
    }

    method CalculateInstant(q: nat, xs: seq<Process>, mass: seq<real>)
      requires Valid() && q < s.quantities && |xs| == |local| && ProcessesOk(xs, s)
      modifies this`local, this`masses
      ensures Valid() && masses == old(masses)[q := mass] && |local| == |old(local)|
      ensures forall k: nat :: k < s.quantities ==> AccountOf(k) == old(AccountOf(k))
      ensures forall p :: 0 <= p < |local| ==> IsSplit(local[p], s, q, xs[p])
    {
      masses := masses[q := mass];
      local := SplitAll(local, s, q, xs);
    }

    /** Collects the tables, integrates what is pending and gives the error of each quantity.
        Process 0 keeps the collected tables as its own. */
    method Output() returns (total: Tables, sumMasses: seq<real>, errors: seq<real>)
      requires Valid()
      modifies this
      ensures Valid() && !initial && masses == old(masses) && TablesOk(total, s)
        && |errors| == |sumMasses| == s.quantities
      ensures forall kind, q: nat, r: nat :: q < s.quantities && r < Regions(s, kind) ==>
        At(total, kind, q, r) == SumTo(|old(local)|, RankEntry(old(local), kind, q, r))
      ensures forall q: nat :: q < s.quantities ==> sumMasses[q] == SumOf(masses[q])
      ensures forall q: nat :: q < s.quantities ==>
        AccountOf(q) == Step(old(AccountOf(q)), BalanceRuns.Output(sumMasses[q]))
      ensures forall q: nat :: q < s.quantities ==> errors[q] == CsvError(AccountOf(q), sumMasses[q])
      ensures KeepsTotals(old(local), local, total, s)
    {
      total := Gather(local, s);
      forall q: nat | q < s.quantities
        ensures total.increments[q] == SumOf(Pending(local, q))
      {
        CollectedPending(local, s, q);
      }
      sumMasses := SumRegions(masses);
      if initial {
        initialMass, initial := sumMasses, false;
      }
      integratedFluxes := Plus(integratedFluxes, incrementFluxes);
      integratedSources := Plus(integratedSources, total.increments);
      errors := Errors(sumMasses, initialMass, integratedSources, integratedFluxes);
      incrementFluxes := Zero(s.quantities);
      local := ClearAll(local[0 := total], s);
    }
  }

  /** No mass before the first calculation. */
  function StartMasses(s: Sizes): (m: seq<seq<real>>)
    ensures |m| == s.quantities
  {
    seq(s.quantities, _ => Zero(s.bulk))
  }

  lemma Negated(x: real, y: real)
    ensures -1.0 * x * y == -(x * y)
  {
  }

  function Errors(masses: seq<real>, initialMass: seq<real>, sources: seq<real>, fluxes: seq<real>): (e: seq<real>)
    requires |masses| == |initialMass| == |sources| == |fluxes|
    ensures |e| == |masses| && forall q :: 0 <= q < |e| ==>
      e[q] == masses[q] - (initialMass[q] + sources[q] + fluxes[q])
  {
    seq(|masses|, q requires 0 <= q < |masses| => masses[q] - (initialMass[q] + sources[q] + fluxes[q]))
  }

  function EmptyTables(s: Sizes): (t: Tables)
    ensures TablesOk(t, s) && t.increments == Zero(s.quantities)
  {
    var bulk := seq(s.quantities, _ => seq(s.bulk, _ => 0.0));
    var boundary := seq(s.quantities, _ => seq(s.boundary, _ => 0.0));
    Tables(bulk, bulk, boundary, boundary, Zero(s.quantities))
  }

  method AddToFirst(local: seq<Tables>, s: Sizes, q: nat, source: real) returns (after: seq<Tables>)
    requires AllOk(local, s) && q < s.quantities
    ensures OnlyPending(local, after, s, q)
      && Pending(after, q) == Pending(local, q)[0 := Pending(local, q)[0] + source]
  {
    assert TablesOk(local[0], s);
    after := local[0 := WithIncrement(local[0], q, local[0].increments[q] + source)];
    IncrementKeepsTables(local[0], s, q, local[0].increments[q] + source);
  }

  method SplitAll(local: seq<Tables>, s: Sizes, q: nat, xs: seq<Process>) returns (after: seq<Tables>)
    requires AllOk(local, s) && q < s.quantities && |xs| == |local| && ProcessesOk(xs, s)
    ensures AllOk(after, s) && |after| == |local|
    ensures forall k: nat :: k < s.quantities ==> Pending(after, k) == Pending(local, k)
    ensures forall p :: 0 <= p < |after| ==> IsSplit(after[p], s, q, xs[p])
  {
    after := local;
    var p := 0;
    while p < |local|
      invariant p <= |local| == |after|
      invariant forall k :: p <= k < |local| ==> after[k] == local[k]
      invariant forall k :: 0 <= k < p ==> IsSplit(after[k], s, q, xs[k]) && after[k].increments == local[k].increments
    {
      assert ProcessOk(xs[p], s) && TablesOk(local[p], s);
      var t := SplitProcess(after[p], s, q, xs[p]);
      after := after[p := t];
      p := p + 1;
    }
  }
}
