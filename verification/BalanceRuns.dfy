/** The cumulative balance of one quantity over a whole run (src/coupling/balance.cc:535-601,
    706-846, 1060): pending increments of all processes, integrals kept by process 0, and the error
    columns of the output. */
module BalanceRuns {
  import opened Options
  import opened RealSums

  /** Pending sources of each process, pending flux, integrated amounts, and the mass at the first
      output. */
  datatype Account = Account(pending: seq<real>, pendingFlux: real, sources: real, fluxes: real,
                             initialMass: Option<real>)

  /** What happens to a quantity: a source is added, a step is accumulated from the source rates of
      the processes and the sum of outgoing fluxes, or the balance is output with the current
      mass. */
  datatype Event = AddSource(source: real)
                 | Cumulative(tlevel: int, rates: seq<real>, outflux: real, dt: real)
                 | Output(mass: real)

  function Entry(s: seq<real>): int -> real {
    p => if 0 <= p < |s| then s[p] else 0.0
  }

  ghost function SumOf(s: seq<real>): real {
    SumTo(|s|, Entry(s))
  }

  function Zero(n: nat): (s: seq<real>)
    ensures |s| == n && forall p :: 0 <= p < n ==> s[p] == 0.0
  {
    seq(n, _ => 0.0)
  }

  function Accumulated(pending: seq<real>, rates: seq<real>, dt: real): (s: seq<real>)
    requires |rates| == |pending|
    ensures |s| == |pending| && forall p :: 0 <= p < |s| ==> s[p] == pending[p] + rates[p] * dt
  {
    seq(|pending|, p requires 0 <= p < |pending| => pending[p] + rates[p] * dt)
  }

  predicate EventOk(e: Event, ranks: nat) {
    e.Cumulative? ==> |e.rates| == ranks
  }

  ghost function Step(a: Account, e: Event): (b: Account)
    requires |a.pending| > 0 && EventOk(e, |a.pending|)
    ensures |b.pending| == |a.pending|
  {
    match e
    case AddSource(source) => a.(pending := a.pending[0 := a.pending[0] + source])
    case Cumulative(tlevel, rates, outflux, dt) =>
      if tlevel <= 0 then a
      else a.(pending := Accumulated(a.pending, rates, dt), pendingFlux := a.pendingFlux - outflux * dt)
    case Output(mass) =>
      Account(Zero(|a.pending|), 0.0, a.sources + SumOf(a.pending), a.fluxes + a.pendingFlux,
              if a.initialMass.None? then Some(mass) else a.initialMass)
  }

  ghost predicate RunOk(es: seq<Event>, ranks: nat) {
    ranks > 0 && forall i :: 0 <= i < |es| ==> EventOk(es[i], ranks)
  }

  ghost function Run(es: seq<Event>, ranks: nat): (a: Account)
    requires RunOk(es, ranks)
    ensures |a.pending| == ranks
  {
    if |es| == 0 then Account(Zero(ranks), 0.0, 0.0, 0.0, None)
    else Step(Run(es[..|es| - 1], ranks), es[|es| - 1])
  }

  // ---- conservation -----------------------------------------------------------------------

  /** What an event contributes, whatever the state. */
  ghost function SourceOf(e: Event): real {
    match e
    case AddSource(source) => source
    case Cumulative(tlevel, rates, outflux, dt) => if tlevel <= 0 then 0.0 else SumOf(rates) * dt
    case Output(_) => 0.0
  }

  ghost function FluxOf(e: Event): real {
    match e
    case Cumulative(tlevel, rates, outflux, dt) => if tlevel <= 0 then 0.0 else -(outflux * dt)
    case _ => 0.0
  }

  ghost function TotalSource(es: seq<Event>): real {
    if |es| == 0 then 0.0 else TotalSource(es[..|es| - 1]) + SourceOf(es[|es| - 1])
  }

  ghost function TotalFlux(es: seq<Event>): real {
    if |es| == 0 then 0.0 else TotalFlux(es[..|es| - 1]) + FluxOf(es[|es| - 1])
  }

  lemma SumOfZero(n: nat)
    ensures SumOf(Zero(n)) == 0.0
  {
    SumZero(n, Entry(Zero(n)));
  }

  function OnlyFirst(x: real): int -> real {
    p => if p == 0 then x else 0.0
  }

  lemma SumOfFirst(s: seq<real>, x: real)
    requires |s| > 0
    ensures SumOf(s[0 := s[0] + x]) == SumOf(s) + x
  {
    SumAdd(|s|, Entry(s), OnlyFirst(x), Entry(s[0 := s[0] + x]));
    SumOne(|s|, OnlyFirst(x), 0);
  }

  function Scaled(s: seq<real>, dt: real): int -> real {
    p => dt * Entry(s)(p)
  }

  lemma Commute(x: real, y: real)
    ensures x * y == y * x
  {
  }

  lemma SumOfAccumulated(s: seq<real>, rates: seq<real>, dt: real)
    requires |rates| == |s|
    ensures SumOf(Accumulated(s, rates, dt)) == SumOf(s) + SumOf(rates) * dt
  {
    var f, g, h := Entry(s), Scaled(rates, dt), Entry(Accumulated(s, rates, dt));
    forall p | 0 <= p < |s|
      ensures h(p) == f(p) + g(p)
    {
      AccumulatedEntry(s, rates, dt, p);
    }
    SumAdd(|s|, f, g, h);
    SumOfScaled(rates, dt);
  }

  lemma AccumulatedEntry(s: seq<real>, rates: seq<real>, dt: real, p: int)
    requires |rates| == |s| && 0 <= p < |s|
    ensures Entry(Accumulated(s, rates, dt))(p) == Entry(s)(p) + Scaled(rates, dt)(p)
  {
    var x := Entry(rates)(p);
    assert x == rates[p] && Scaled(rates, dt)(p) == dt * x;
    Commute(x, dt);
  }

  lemma SumOfScaled(rates: seq<real>, dt: real)
    ensures SumTo(|rates|, Scaled(rates, dt)) == SumOf(rates) * dt
  {
    SumScale(|rates|, dt, Entry(rates), Scaled(rates, dt));
    Commute(SumOf(rates), dt);
  }

  /** One event moves amounts from pending to integrated, or adds its own contribution. */
  lemma StepConserves(a: Account, e: Event)
    requires |a.pending| > 0 && EventOk(e, |a.pending|)
    ensures var b := Step(a, e); b.sources + SumOf(b.pending) == a.sources + SumOf(a.pending) + SourceOf(e)
    ensures var b := Step(a, e); b.fluxes + b.pendingFlux == a.fluxes + a.pendingFlux + FluxOf(e)
  {
    match e
    case AddSource(source) => SumOfFirst(a.pending, source);
    case Cumulative(tlevel, rates, outflux, dt) => SumOfAccumulated(a.pending, rates, dt);
    case Output(_) => SumOfZero(|a.pending|);
  }

  /** Over any interleaving of events and any number of processes, integrated and pending amounts
      together are everything that was contributed. */
  lemma {:induction false} Conservation(es: seq<Event>, ranks: nat)
    requires RunOk(es, ranks)
    ensures var a := Run(es, ranks); a.sources + SumOf(a.pending) == TotalSource(es)
    ensures var a := Run(es, ranks); a.fluxes + a.pendingFlux == TotalFlux(es)
  {
    if |es| == 0 {
      SumOfZero(ranks);
    } else {
      Conservation(es[..|es| - 1], ranks);
      StepConserves(Run(es[..|es| - 1], ranks), es[|es| - 1]);
    }
  }

  // ---- the error columns ------------------------------------------------------------------

  function CsvError(a: Account, mass: real): real
    requires a.initialMass.Some?
  {
    mass - (a.initialMass.value + a.sources + a.fluxes)
  }

  function LegacyError(a: Account, mass: real): real
    requires a.initialMass.Some?
  {
    a.initialMass.value + a.sources - a.fluxes - mass
  }

  ghost predicate FirstOutput(es: seq<Event>, k: nat) {
    k < |es| && es[k].Output? && forall i :: 0 <= i < k ==> !es[i].Output?
  }

  ghost function Total(es: seq<Event>): real {
    TotalSource(es) + TotalFlux(es)
  }

  /** The initial mass is that of the first output. */
  lemma {:induction false} InitialMass(es: seq<Event>, ranks: nat, k: nat)
    requires RunOk(es, ranks) && FirstOutput(es, k)
    ensures Run(es, ranks).initialMass == Some(es[k].mass)
  {
    var rest := es[..|es| - 1];
    if k == |es| - 1 {
      NoOutput(rest, ranks);
    } else {
      InitialMass(rest, ranks, k);
    }
  }

  lemma {:induction false} NoOutput(es: seq<Event>, ranks: nat)
    requires RunOk(es, ranks) && forall i :: 0 <= i < |es| ==> !es[i].Output?
    ensures Run(es, ranks).initialMass == None
  {
    if |es| > 0 {
      NoOutput(es[..|es| - 1], ranks);
    }
  }

  /** Right after an output nothing is pending. */
  lemma OutputSettles(es: seq<Event>, ranks: nat)
    requires RunOk(es, ranks) && |es| > 0 && es[|es| - 1].Output?
    ensures Run(es, ranks).sources == TotalSource(es) && Run(es, ranks).fluxes == TotalFlux(es)
  {
    Conservation(es, ranks);
    SumOfZero(ranks);
  }

  /** At every output the mass is the initial one plus everything contributed until then. */
  ghost predicate Conserving(es: seq<Event>, m0: real) {
    forall i :: 0 <= i < |es| && es[i].Output? ==> es[i].mass == m0 + Total(es[..i])
  }

  lemma OutputAddsNothing(es: seq<Event>)
    requires |es| > 0 && es[|es| - 1].Output?
    ensures Total(es) == Total(es[..|es| - 1])
  {
  }

  /** The error in the CSV output, if all steps conserve: what was contributed before the first
      output, with the opposite sign. So it is zero at every output exactly if that is zero. */
  lemma CsvErrorExact(es: seq<Event>, ranks: nat, m0: real, k: nat)
    requires RunOk(es, ranks) && |es| > 0 && es[|es| - 1].Output? && FirstOutput(es, k) && Conserving(es, m0)
    ensures Run(es, ranks).initialMass.Some? && CsvError(Run(es, ranks), es[|es| - 1].mass) == -Total(es[..k])
  {
    InitialMass(es, ranks, k);
    OutputSettles(es, ranks);
    OutputAddsNothing(es);
  }

  /** The error without that hypothesis: the defect of the mass since the first output. */
  lemma CsvErrorIs(es: seq<Event>, ranks: nat, k: nat)
    requires RunOk(es, ranks) && |es| > 0 && es[|es| - 1].Output? && FirstOutput(es, k)
    ensures Run(es, ranks).initialMass.Some?
    ensures CsvError(Run(es, ranks), es[|es| - 1].mass) == (es[|es| - 1].mass - es[k].mass) - Total(es)
  {
    InitialMass(es, ranks, k);
    OutputSettles(es, ranks);
  }

  /** Nothing is contributed at time level 0 unless a source is added explicitly. */
  lemma {:induction false} NothingAtLevelZero(es: seq<Event>)
    requires forall i :: 0 <= i < |es| ==> es[i].Cumulative? && es[i].tlevel <= 0
    ensures Total(es) == 0.0
  {
    if |es| > 0 {
      NothingAtLevelZero(es[..|es| - 1]);
    }
  }

  /** With the first output at time level 0, the error column is zero at every output. */
  lemma CsvErrorZero(es: seq<Event>, ranks: nat, m0: real, k: nat)
    requires RunOk(es, ranks) && |es| > 0 && es[|es| - 1].Output? && FirstOutput(es, k) && Conserving(es, m0)
    requires forall i :: 0 <= i < k ==> es[i].Cumulative? && es[i].tlevel <= 0
    ensures Run(es, ranks).initialMass.Some? && CsvError(Run(es, ranks), es[|es| - 1].mass) == 0.0
  {
    CsvErrorExact(es, ranks, m0, k);
    NothingAtLevelZero(es[..k]);
  }

  /** A late first output: one process, one step with source 1, then the first output. */
  function LateRun(): (es: seq<Event>) {
    [Cumulative(1, [1.0], 0.0, 1.0), Output(1.0)]
  }

  lemma LateTotal()
    ensures LateRun()[..1] == [LateRun()[0]] && Total(LateRun()[..1]) == 1.0
  {
    var c := LateRun()[0];
    assert LateRun()[..1] == [c] && [c][..0] == [];
    assert SumTo(1, Entry([1.0])) == SumTo(0, Entry([1.0])) + Entry([1.0])(0);
    assert SourceOf(c) == 1.0 && FluxOf(c) == 0.0;
    assert TotalSource([c]) == TotalSource([]) + SourceOf(c) && TotalFlux([c]) == TotalFlux([]) + FluxOf(c);
  }

  lemma LateOutputHasError()
    ensures RunOk(LateRun(), 1) && Conserving(LateRun(), 0.0) && FirstOutput(LateRun(), 1)
    ensures Run(LateRun(), 1).initialMass.Some? && CsvError(Run(LateRun(), 1), 1.0) == -1.0
  {
    LateTotal();
    CsvErrorExact(LateRun(), 1, 0.0, 1);
  }

  /** The error column of the legacy output takes the incoming flux with the wrong sign: for a
      conserving run it is what was contributed before the first output, less twice the flux. So it
      is zero exactly if these two are equal, and not when the CSV error is. */
  lemma LegacyErrorExact(es: seq<Event>, ranks: nat, m0: real, k: nat)
    requires RunOk(es, ranks) && |es| > 0 && es[|es| - 1].Output? && FirstOutput(es, k) && Conserving(es, m0)
    ensures Run(es, ranks).initialMass.Some?
    ensures LegacyError(Run(es, ranks), es[|es| - 1].mass) == Total(es[..k]) - 2.0 * TotalFlux(es)
    ensures LegacyError(Run(es, ranks), es[|es| - 1].mass) == 0.0 <==> Total(es[..k]) == 2.0 * TotalFlux(es)
  {
    CsvErrorExact(es, ranks, m0, k);
    OutputSettles(es, ranks);
  }

  /** A run that conserves, with its first output at the start: one process, one step with incoming
      flux 1, and masses 0 and 1. */
  function InflowRun(): (es: seq<Event>) {
    [Output(0.0), Cumulative(1, [0.0], -1.0, 1.0), Output(1.0)]
  }

  lemma InflowTotals()
    ensures TotalFlux(InflowRun()) == 1.0 && TotalSource(InflowRun()) == 0.0
    ensures Total(InflowRun()[..0]) == 0.0 && Total(InflowRun()[..2]) == 1.0
  {
    var es := InflowRun();
    var c := es[1];
    assert es[..2][..1] == [es[0]] && [es[0]][..0] == [] && es[..0] == [];
    assert SumTo(1, Entry([0.0])) == SumTo(0, Entry([0.0])) + Entry([0.0])(0);
    assert SourceOf(c) == 0.0 && FluxOf(c) == 1.0;
    assert TotalFlux([es[0]]) == 0.0 && TotalSource([es[0]]) == 0.0;
    assert TotalFlux(es[..2]) == 1.0 && TotalSource(es[..2]) == 0.0;
  }

  lemma InflowConserves()
    ensures RunOk(InflowRun(), 1) && Conserving(InflowRun(), 0.0) && FirstOutput(InflowRun(), 0)
  {
    InflowTotals();
    var es := InflowRun();
    forall i | 0 <= i < |es| && es[i].Output?
      ensures es[i].mass == 0.0 + Total(es[..i])
    {
      assert i == 0 || i == 2;
    }
  }

  /** Its CSV error is zero and its legacy error is -2. */
  lemma InflowHasLegacyError(es: seq<Event>)
    requires es == InflowRun()
    ensures RunOk(es, 1) && Conserving(es, 0.0) && FirstOutput(es, 0) && Run(es, 1).initialMass.Some?
    ensures CsvError(Run(es, 1), 1.0) == 0.0 && LegacyError(Run(es, 1), 1.0) == -2.0
  {
    InflowTotals();
    InflowConserves();
    ErrorsFromStart(es, 1, 0.0);
  }

  /** With the first output at the start, the legacy error is twice the outgoing flux. */
  lemma ErrorsFromStart(es: seq<Event>, ranks: nat, m0: real)
    requires RunOk(es, ranks) && |es| > 0 && es[|es| - 1].Output? && FirstOutput(es, 0) && Conserving(es, m0)
    ensures Run(es, ranks).initialMass.Some? && CsvError(Run(es, ranks), es[|es| - 1].mass) == 0.0
    ensures LegacyError(Run(es, ranks), es[|es| - 1].mass) == -2.0 * TotalFlux(es)
  {
    assert es[..0] == [];
    CsvErrorExact(es, ranks, m0, 0);
    LegacyErrorExact(es, ranks, m0, 0);
  }
}
