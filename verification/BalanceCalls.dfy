/** Whole runs of the balance (src/coupling/balance.cc): any list of calls on any number of processes
    leaves, for every quantity, the account of its events, so the laws of module BalanceRuns hold of
    what the program computes. */
module BalanceCalls {
  import opened RealSums
  import opened BalanceSums
  import opened BalanceBuffer
  import opened BalanceRuns
  import opened Balance

  datatype Call =
    | Source(q: nat, source: real)
    | Cumulate(q: nat, xs: seq<Process>, dt: real, tlevel: int)
    | Instant(q: nat, xs: seq<Process>, mass: seq<real>)
    | Write

  ghost predicate CallOk(c: Call, s: Sizes, ranks: nat) {
    match c
    case Source(q, _) => q < s.quantities
    case Cumulate(q, xs, _, _) => q < s.quantities && |xs| == ranks && ProcessesOk(xs, s)
    case Instant(q, xs, _) => q < s.quantities && |xs| == ranks && ProcessesOk(xs, s)
    case Write => true
  }

  ghost predicate CallsOk(calls: seq<Call>, s: Sizes, ranks: nat) {
    ranks > 0 && forall i :: 0 <= i < |calls| ==> CallOk(calls[i], s, ranks)
  }

  /** Masses of all quantities by region after the first n calls. */
  ghost function MassesAfter(calls: seq<Call>, s: Sizes, n: nat): (m: seq<seq<real>>)
    requires n <= |calls| && forall i :: 0 <= i < |calls| && calls[i].Instant? ==> calls[i].q < s.quantities
    ensures |m| == s.quantities
  {
    if n == 0 then StartMasses(s)
    else
      var m := MassesAfter(calls, s, n - 1);
      if calls[n - 1].Instant? then m[calls[n - 1].q := calls[n - 1].mass] else m
  }

  /** What a call means for quantity q. */
  ghost function EventOf(c: Call, s: Sizes, ranks: nat, masses: seq<seq<real>>, q: nat): (es: seq<Event>)
    requires CallOk(c, s, ranks) && q < |masses|
    ensures forall i :: 0 <= i < |es| ==> EventOk(es[i], ranks)
  {
    match c
    case Source(k, source) => if k == q then [AddSource(source)] else []
    case Cumulate(k, xs, dt, tlevel) => if k == q then [Cumulative(tlevel, Rates(xs, s), OutFlux(xs), dt)] else []
    case Instant(_, _, _) => []
    case Write => [BalanceRuns.Output(SumOf(masses[q]))]
  }

  /** Events of quantity q in the first n calls. */
  ghost function EventsOf(calls: seq<Call>, s: Sizes, ranks: nat, q: nat, n: nat): (es: seq<Event>)
    requires CallsOk(calls, s, ranks) && q < s.quantities && n <= |calls|
    ensures RunOk(es, ranks)
  {
    if n == 0 then []
    else EventsOf(calls, s, ranks, q, n - 1) + EventOf(calls[n - 1], s, ranks, MassesAfter(calls, s, n - 1), q)
  }

  lemma RunNext(es: seq<Event>, e: Event, ranks: nat)
    requires RunOk(es, ranks) && EventOk(e, ranks)
    ensures RunOk(es + [e], ranks) && Run(es + [e], ranks) == Step(Run(es, ranks), e)
  {
    assert (es + [e])[..|es|] == es;
  }

  /** The account of quantity q after the first n calls. */
  ghost function RunOf(calls: seq<Call>, s: Sizes, ranks: nat, q: nat, n: nat): (a: Account)
    requires CallsOk(calls, s, ranks) && q < s.quantities && n <= |calls|
    ensures |a.pending| == ranks
  {
    Run(EventsOf(calls, s, ranks, q, n), ranks)
  }

  /** ... and what one call does to it. */
  ghost function Next(a: Account, c: Call, s: Sizes, ranks: nat, masses: seq<seq<real>>, q: nat): Account
    requires CallOk(c, s, ranks) && q < |masses| && |a.pending| == ranks > 0
  {
    match c
    case Source(k, source) => if k == q then Step(a, AddSource(source)) else a
    case Cumulate(k, xs, dt, tlevel) =>
      if k == q then Step(a, Cumulative(tlevel, Rates(xs, s), OutFlux(xs), dt)) else a
    case Instant(_, _, _) => a
    case Write => Step(a, BalanceRuns.Output(SumOf(masses[q])))
  }

  lemma RunOfNext(calls: seq<Call>, s: Sizes, ranks: nat, q: nat, n: nat)
    requires CallsOk(calls, s, ranks) && n < |calls| && q < s.quantities
    ensures RunOf(calls, s, ranks, q, n + 1)
      == Next(RunOf(calls, s, ranks, q, n), calls[n], s, ranks, MassesAfter(calls, s, n), q)
  {
    var es, e := EventsOf(calls, s, ranks, q, n), EventOf(calls[n], s, ranks, MassesAfter(calls, s, n), q);
    assert EventsOf(calls, s, ranks, q, n + 1) == es + e;
    if |e| > 0 {
      assert e == [e[0]];
      RunNext(es, e[0], ranks);
    } else {
      assert es + e == es;
    }
  }

  /** The ledger holds the accounts and masses of the first n calls. */
  ghost predicate Holds(b: Ledger, calls: seq<Call>, ranks: nat, n: nat)
    reads b
  {
    && n <= |calls| && b.Valid() && |b.local| == ranks && CallsOk(calls, b.s, ranks)
    && b.masses == MassesAfter(calls, b.s, n)
    && forall q: nat :: q < b.s.quantities ==> b.AccountOf(q) == RunOf(calls, b.s, ranks, q, n)
  }

  /** The errors are those of the current accounts and masses. */
  ghost predicate ErrorsOf(b: Ledger, errors: seq<real>)
    reads b
  {
    && b.Valid() && !b.initial && |errors| == b.s.quantities
    && forall q: nat :: q < b.s.quantities ==> errors[q] == CsvError(b.AccountOf(q), SumOf(b.masses[q]))
  }

  /** One call on the ledger; the errors are those of the last output. */
  method Perform(b: Ledger, c: Call, before: seq<real>) returns (errors: seq<real>)
    requires b.Valid() && CallOk(c, b.s, |b.local|)
    modifies b
    ensures b.Valid() && |b.local| == |old(b.local)|
    ensures b.masses == if c.Instant? then old(b.masses)[c.q := c.mass] else old(b.masses)
    ensures forall q: nat :: q < b.s.quantities ==>
      b.AccountOf(q) == Next(old(b.AccountOf(q)), c, b.s, |b.local|, old(b.masses), q)
    ensures c.Write? ==> ErrorsOf(b, errors)
  {
    errors := before;
    match c
    case Source(q, source) => b.AddCumulativeSource(q, source);
    case Cumulate(q, xs, dt, tlevel) => b.CalculateCumulative(q, xs, dt, tlevel);
    case Instant(q, xs, mass) => b.CalculateInstant(q, xs, mass);
    case Write =>
      var total, sumMasses;
      total, sumMasses, errors := b.Output();
  }

  method PerformNext(b: Ledger, calls: seq<Call>, ghost ranks: nat, n: nat, before: seq<real>)
    returns (errors: seq<real>)
    requires Holds(b, calls, ranks, n) && n < |calls|
    modifies b
    ensures Holds(b, calls, ranks, n + 1) && (calls[n].Write? ==> ErrorsOf(b, errors))
  {
    assert CallOk(calls[n], b.s, ranks);
    forall q: nat | q < b.s.quantities
      ensures RunOf(calls, b.s, ranks, q, n + 1)
        == Next(RunOf(calls, b.s, ranks, q, n), calls[n], b.s, ranks, MassesAfter(calls, b.s, n), q)
    {
      RunOfNext(calls, b.s, ranks, q, n);
    }
    errors := Perform(b, calls[n], before);
  }

  /** Any list of calls: every account is the run of the events of its quantity, and if the last call
      is an output, its error column is that of the run. */
  method PerformAll(s: Sizes, ranks: nat, calls: seq<Call>) returns (b: Ledger, errors: seq<real>)
    requires CallsOk(calls, s, ranks)
    ensures b.s == s && Holds(b, calls, ranks, |calls|)
    ensures |calls| > 0 && calls[|calls| - 1].Write? ==> ErrorsOf(b, errors)
  {
    b := new Ledger(s, ranks);
    errors := [];
    var n := 0;
    while n < |calls|
      invariant b.s == s && Holds(b, calls, ranks, n)
      invariant n > 0 && calls[n - 1].Write? ==> ErrorsOf(b, errors)
    {
      errors := PerformNext(b, calls, ranks, n, errors);
      n := n + 1;
    }
  }

  /** The error that a run of calls writes for a conserving quantity: minus what was contributed
      before its first output, so zero exactly if that is. */
  lemma WrittenError(b: Ledger, calls: seq<Call>, ranks: nat, errors: seq<real>, q: nat, m0: real, k: nat)
    requires Holds(b, calls, ranks, |calls|) && |calls| > 0 && calls[|calls| - 1].Write? && ErrorsOf(b, errors)
    requires q < b.s.quantities
    requires var es := EventsOf(calls, b.s, ranks, q, |calls|); FirstOutput(es, k) && Conserving(es, m0)
    ensures errors[q] == -Total(EventsOf(calls, b.s, ranks, q, |calls|)[..k])
  {
    LastEvent(calls, b.s, ranks, q);
    CsvErrorExact(EventsOf(calls, b.s, ranks, q, |calls|), ranks, m0, k);
  }

  /** The last event of an output is the output of the current mass. */
  lemma LastEvent(calls: seq<Call>, s: Sizes, ranks: nat, q: nat)
    requires CallsOk(calls, s, ranks) && q < s.quantities && |calls| > 0 && calls[|calls| - 1].Write?
    ensures var es := EventsOf(calls, s, ranks, q, |calls|);
      |es| > 0 && es[|es| - 1] == BalanceRuns.Output(SumOf(MassesAfter(calls, s, |calls|)[q]))
  {
  }

  // ---- a second output --------------------------------------------------------------------

  /** A process with no sources, and one with a source of 1 in region 0. */
  function Idle(): Process {
    Process([], [], [], [])
  }

  function Working(): Process {
    Process([[Cell(0, 0.0, 1.0)]], [0.0], [], [])
  }

  lemma WorkingSource(x: Process)
    requires x == Working()
    ensures Part(x.rows, x.sol, |x.rows|, 0, true) == 1.0
  {
    var row := x.rows[0];
    assert RowPart(row, 0.0, 1, 0, true) == RowPart(row, 0.0, 0, 0, true) + Share(0, Value(row[0], 0.0), 0, true);
    assert Part(x.rows, x.sol, 1, 0, true) == Part(x.rows, x.sol, 0, 0, true) + RowPart(row, 0.0, 1, 0, true);
  }

  /** Two processes, the second with a source of 1: the first output writes 1, and the second, without
      new instant values, writes 2. */
  method WriteTwice() returns (first: real, second: real)
    ensures first == 1.0 && second == 2.0
  {
    var s := Sizes(1, 1, 0);
    var b := new Ledger(s, 2);
    var xs := [Idle(), Working()];
    assert ProcessesOk(xs, s);
    b.CalculateInstant(0, xs, [0.0]);
    ghost var before := b.local;
    WorkingSource(xs[1]);
    assert IsSplit(before[0], s, 0, xs[0]) && IsSplit(before[1], s, 0, xs[1]);
    var total, masses, errors := b.Output();
    ghost var middle := b.local;
    var again, masses', errors' := b.Output();
    TwoEntries(before);
    TwoEntries(middle);
    first, second := At(total, SourceIn, 0, 0), At(again, SourceIn, 0, 0);
  }

  lemma TwoEntries(ts: seq<Tables>)
    requires |ts| == 2
    ensures SumTo(2, RankEntry(ts, SourceIn, 0, 0)) == At(ts[0], SourceIn, 0, 0) + At(ts[1], SourceIn, 0, 0)
  {
    var f := RankEntry(ts, SourceIn, 0, 0);
    assert SumTo(2, f) == SumTo(1, f) + f(1) && SumTo(1, f) == SumTo(0, f) + f(0);
  }
}
