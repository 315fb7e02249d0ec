/** What a balance writes (src/coupling/balance.cc:535-601, 706-846), said from the calls alone: the
    integrated sources and fluxes are the sums of all that the calls brought. */
module BalanceTotals {
  import opened RealSums
  import opened BalanceSums
  import opened BalanceBuffer
  import opened BalanceRuns
  import opened Balance
  import opened BalanceCalls

  /** The source rate of process p: multipliers times solution, and constant parts. */
  ghost function SourceRates(xs: seq<Process>, s: Sizes): int -> real
    requires ProcessesOk(xs, s)
  {
    p =>
      if 0 <= p < |xs| && |xs[p].sol| == |xs[p].rows| then
        SumTo(|xs[p].rows|, BalanceSums.Scaled(xs[p].rows, xs[p].sol, Everywhere()))
          + SumTo(|xs[p].rows|, Constant(xs[p].rows, Everywhere()))
      else 0.0
  }

  /** The flux out of the boundary edges of process p. */
  ghost function FluxRates(xs: seq<Process>): int -> real {
    p => if 0 <= p < |xs| then SumTo(|xs[p].flux|, Fluxes(xs[p].flux)) else 0.0
  }

  /** What a call brings to quantity q by sources: a step counts from time level 1 on, for its length. */
  ghost function SourceBy(c: Call, s: Sizes, ranks: nat, q: nat): real
    requires CallOk(c, s, ranks)
  {
    match c
    case Source(k, source) => if k == q then source else 0.0
    case Cumulate(k, xs, dt, tlevel) => if k == q && tlevel >= 1 then SumTo(ranks, SourceRates(xs, s)) * dt else 0.0
    case _ => 0.0
  }

  /** ... and by the flux through the boundary. */
  ghost function FluxBy(c: Call, q: nat, ranks: nat): real {
    match c
    case Cumulate(k, xs, dt, tlevel) => if k == q && tlevel >= 1 then -(SumTo(ranks, FluxRates(xs)) * dt) else 0.0
    case _ => 0.0
  }

  ghost function SourcesBy(calls: seq<Call>, s: Sizes, ranks: nat, q: nat): int -> real
    requires CallsOk(calls, s, ranks)
  {
    i => if 0 <= i < |calls| then SourceBy(calls[i], s, ranks, q) else 0.0
  }

  ghost function FluxesBy(calls: seq<Call>, ranks: nat, q: nat): int -> real {
    i => if 0 <= i < |calls| then FluxBy(calls[i], q, ranks) else 0.0
  }

  lemma {:induction false} RatesAre(xs: seq<Process>, s: Sizes)
    requires ProcessesOk(xs, s)
    ensures SumOf(Rates(xs, s)) == SumTo(|xs|, SourceRates(xs, s))
  {
    forall p: nat | p < |xs|
      ensures Entry(Rates(xs, s))(p) == SourceRates(xs, s)(p)
    {
      assert ProcessOk(xs[p], s);
      RateIs(xs[p].rows, xs[p].sol, |xs[p].rows|);
    }
    SumCong(|xs|, Entry(Rates(xs, s)), SourceRates(xs, s));
  }

  lemma OutFluxIs(xs: seq<Process>)
    ensures OutFlux(xs) == SumTo(|xs|, FluxRates(xs))
  {
    forall p: nat | p < |xs|
      ensures OutFluxes(xs)(p) == FluxRates(xs)(p)
    {
      FluxSumIs(xs[p].flux, |xs[p].flux|);
    }
    SumCong(|xs|, OutFluxes(xs), FluxRates(xs));
  }

  lemma OneEvent(e: Event)
    ensures TotalSource([e]) == SourceOf(e) && TotalFlux([e]) == FluxOf(e)
  {
    var es := [e];
    assert es[..0] == [];
    assert TotalSource(es) == TotalSource(es[..0]) + SourceOf(es[0]);
    assert TotalFlux(es) == TotalFlux(es[..0]) + FluxOf(es[0]);
  }

  /** A step, given the sums of its rates and fluxes. */
  lemma StepIs(e: Event, rate: real, flux: real)
    requires e.Cumulative? && SumOf(e.rates) == rate && e.outflux == flux
    ensures SourceOf(e) == if e.tlevel >= 1 then rate * e.dt else 0.0
    ensures FluxOf(e) == if e.tlevel >= 1 then -(flux * e.dt) else 0.0
  {
  }

  lemma {:induction false} StepBrings(xs: seq<Process>, s: Sizes, dt: real, tlevel: int, rate: real, flux: real)
    requires ProcessesOk(xs, s) && rate == SumTo(|xs|, SourceRates(xs, s)) && flux == SumTo(|xs|, FluxRates(xs))
    ensures var e := Cumulative(tlevel, Rates(xs, s), OutFlux(xs), dt);
      && TotalSource([e]) == (if tlevel >= 1 then rate * dt else 0.0)
      && TotalFlux([e]) == (if tlevel >= 1 then -(flux * dt) else 0.0)
  {
    RatesAre(xs, s);
    OutFluxIs(xs);
    StepIs(Cumulative(tlevel, Rates(xs, s), OutFlux(xs), dt), rate, flux);
    OneEvent(Cumulative(tlevel, Rates(xs, s), OutFlux(xs), dt));
  }

  /** The event of a call contributes what the call brings. */
  lemma {:induction false} EventBrings(c: Call, s: Sizes, ranks: nat, masses: seq<seq<real>>, q: nat)
    requires CallOk(c, s, ranks) && q < |masses|
    ensures |EventOf(c, s, ranks, masses, q)| <= 1
    ensures TotalSource(EventOf(c, s, ranks, masses, q)) == SourceBy(c, s, ranks, q)
    ensures TotalFlux(EventOf(c, s, ranks, masses, q)) == FluxBy(c, q, ranks)
  {
    match c
    case Source(_, source) => OneEvent(AddSource(source));
    case Cumulate(_, xs, dt, tlevel) => StepBrings(xs, s, dt, tlevel, SumTo(ranks, SourceRates(xs, s)),
      SumTo(ranks, FluxRates(xs)));
    case Instant(_, _, _) =>
    case Write => OneEvent(BalanceRuns.Output(SumOf(masses[q])));
  }

  lemma {:induction false} TotalsAppend(es: seq<Event>, more: seq<Event>)
    requires |more| <= 1
    ensures TotalSource(es + more) == TotalSource(es) + TotalSource(more)
    ensures TotalFlux(es + more) == TotalFlux(es) + TotalFlux(more)
  {
    if |more| == 0 {
      assert es + more == es;
    } else {
      assert (es + more)[..|es|] == es && more[..0] == [];
    }
  }

  /** One more call adds what it brings. */
  lemma OneMoreCall(calls: seq<Call>, s: Sizes, ranks: nat, q: nat, n: nat)
    requires CallsOk(calls, s, ranks) && q < s.quantities && n < |calls|
    ensures TotalSource(EventsOf(calls, s, ranks, q, n + 1))
      == TotalSource(EventsOf(calls, s, ranks, q, n)) + SourcesBy(calls, s, ranks, q)(n)
    ensures TotalFlux(EventsOf(calls, s, ranks, q, n + 1))
      == TotalFlux(EventsOf(calls, s, ranks, q, n)) + FluxesBy(calls, ranks, q)(n)
  {
    var masses := MassesAfter(calls, s, n);
    EventBrings(calls[n], s, ranks, masses, q);
    TotalsAppend(EventsOf(calls, s, ranks, q, n), EventOf(calls[n], s, ranks, masses, q));
  }

  lemma SumNext(n: nat, f: int -> real, a: real, b: real)
    requires a == SumTo(n, f) && b == a + f(n)
    ensures b == SumTo(n + 1, f)
  {
  }

  /** The sources and fluxes of the first n calls. */
  ghost predicate Brought(calls: seq<Call>, s: Sizes, ranks: nat, q: nat, n: nat)
    requires CallsOk(calls, s, ranks) && q < s.quantities && n <= |calls|
  {
    && TotalSource(EventsOf(calls, s, ranks, q, n)) == SumTo(n, SourcesBy(calls, s, ranks, q))
    && TotalFlux(EventsOf(calls, s, ranks, q, n)) == SumTo(n, FluxesBy(calls, ranks, q))
  }

  lemma BroughtNone(calls: seq<Call>, s: Sizes, ranks: nat, q: nat)
    requires CallsOk(calls, s, ranks) && q < s.quantities
    ensures Brought(calls, s, ranks, q, 0)
  {
  }

  lemma BroughtNext(calls: seq<Call>, s: Sizes, ranks: nat, q: nat, n: nat)
    requires CallsOk(calls, s, ranks) && q < s.quantities && n < |calls| && Brought(calls, s, ranks, q, n)
    ensures Brought(calls, s, ranks, q, n + 1)
  {
    OneMoreCall(calls, s, ranks, q, n);
    SumNext(n, SourcesBy(calls, s, ranks, q), TotalSource(EventsOf(calls, s, ranks, q, n)),
            TotalSource(EventsOf(calls, s, ranks, q, n + 1)));
    SumNext(n, FluxesBy(calls, ranks, q), TotalFlux(EventsOf(calls, s, ranks, q, n)),
            TotalFlux(EventsOf(calls, s, ranks, q, n + 1)));
  }

  /** The events of a quantity contribute what the calls bring to it. */
  lemma {:induction false} EventsBring(calls: seq<Call>, s: Sizes, ranks: nat, q: nat, n: nat)
    requires CallsOk(calls, s, ranks) && q < s.quantities && n <= |calls|
    ensures Brought(calls, s, ranks, q, n)
  {
    if n == 0 {
      BroughtNone(calls, s, ranks, q);
    } else {
      EventsBring(calls, s, ranks, q, n - 1);
      BroughtNext(calls, s, ranks, q, n - 1);
    }
  }

  /** A call that sets the masses of quantity q. */
  ghost predicate SetsMass(c: Call, q: nat) {
    c.Instant? && c.q == q
  }

  /** The masses of a quantity are those of the last call that set them ... */
  lemma {:induction false} MassIs(calls: seq<Call>, s: Sizes, ranks: nat, q: nat, n: nat, k: nat)
    requires CallsOk(calls, s, ranks) && q < s.quantities && k < n <= |calls| && SetsMass(calls[k], q)
    requires forall i: nat :: k < i < n ==> !SetsMass(calls[i], q)
    ensures MassesAfter(calls, s, n)[q] == calls[k].mass
  {
    assert CallOk(calls[n - 1], s, ranks);
    if k < n - 1 {
      MassIs(calls, s, ranks, q, n - 1, k);
    }
  }

  /** ... and zero before the first. */
  lemma {:induction false} StartMassIs(calls: seq<Call>, s: Sizes, ranks: nat, q: nat, n: nat)
    requires CallsOk(calls, s, ranks) && q < s.quantities && n <= |calls|
    requires forall i: nat :: i < n ==> !SetsMass(calls[i], q)
    ensures |MassesAfter(calls, s, n)[q]| == s.bulk
    ensures forall b :: 0 <= b < s.bulk ==> MassesAfter(calls, s, n)[q][b] == 0.0
  {
    if n > 0 {
      assert CallOk(calls[n - 1], s, ranks);
      StartMassIs(calls, s, ranks, q, n - 1);
    }
  }

  /** After an output the integrated sources and fluxes of every quantity are all that the calls brought. */
  lemma WrittenTotals(b: Ledger, calls: seq<Call>, ranks: nat, q: nat)
    requires BalanceCalls.Holds(b, calls, ranks, |calls|) && |calls| > 0 && calls[|calls| - 1].Write?
      && q < b.s.quantities
    ensures b.integratedSources[q] == SumTo(|calls|, SourcesBy(calls, b.s, ranks, q))
    ensures b.integratedFluxes[q] == SumTo(|calls|, FluxesBy(calls, ranks, q))
  {
    LastEvent(calls, b.s, ranks, q);
    EventsBring(calls, b.s, ranks, q, |calls|);
    OutputSettles(EventsOf(calls, b.s, ranks, q, |calls|), ranks);
    assert b.AccountOf(q) == RunOf(calls, b.s, ranks, q, |calls|);
  }
}
