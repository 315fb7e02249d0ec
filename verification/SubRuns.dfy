/** Whole runs of the sub-handler's exchange on the tables of module SubHandler: the tables of all
    processes follow every run of module SubExchange. */
module SubRuns {
  import opened Lists
  import opened Handshake
  import opened SubHandler
  import opened SubExchange
  import opened SubSession

  /** The tables of all processes stand for the state of the exchange. */
  ghost predicate AllStand(L: GoodSubLayout, ts: seq<SubNumbering>, s: SubSystem)
    reads ts
  {
    |ts| == |L.nbs| == |s| && forall r :: 0 <= r < |ts| ==> Stands(L, r, ts[r], s[r].ghostNumbers)
  }

  ghost predicate Separate(ts: seq<SubNumbering>) {
    forall i, j :: 0 <= i < j < |ts| ==> ts[i] != ts[j]
  }

  /** Offsets of the sub-numbers of the processes. */
  ghost predicate AreBegins(L: GoodSubLayout, begins: seq<nat>) {
    |begins| == |L.nbs| && forall r :: 0 <= r < |L.nbs| ==> begins[r] == Start(OwnedSizes(L), r)
  }

  datatype Message = Message(x: nat, y: nat, tag: nat)

  ghost predicate StepOf(L: GoodSubLayout, s: SubSystem, e: Message, s': SubSystem) {
    Inv(L, s) && CanPass(L, s, e.x, e.y) && e.tag == s[e.x].at.tag && s' == After(L, s, e.x, e.y)
  }

  /** Only the ghost numbers of the process that receives an answer change, and as the answer says. */
  lemma MessageDoes(L: GoodSubLayout, s: SubSystem, e: Message, s': SubSystem)
    requires StepOf(L, s, e, s')
    ensures |s'| == |s| == |L.nbs| && e.x < |s| && e.y < |s| && e.x != e.y
    ensures forall r :: 0 <= r < |s| && (r != e.y || e.tag < 2) ==> s'[r].ghostNumbers == s[r].ghostNumbers
    ensures e.tag >= 2 ==> |s[e.y].ghostNumbers| == |L.ghosts[e.y]| && Found(L, e.x, Ask(L, e.y, e.x))
    ensures e.tag >= 2 ==>
      s'[e.y].ghostNumbers == Updated(L, L.ghosts[e.y], e.x, s[e.y].ghostNumbers, SubAnswer(L, e.x, Ask(L, e.y, e.x)),
        |L.ghosts[e.y]|)
  {
    EnabledIsPaired(L.nbs, SubCursors(s), e.x, e.y);
    assert RequestRight(L, e.x, s[e.x]);
  }

  /** An answer on the tables: x looks up what y asks for, and y enters it. */
  method PassAnswer(L: GoodSubLayout, ts: seq<SubNumbering>, begins: seq<nat>, x: nat, y: nat,
                    ghost xs: seq<int>, ghost ys: seq<int>)
    requires x < |L.nbs| && y < |L.nbs| && |ts| == |L.nbs| && AreBegins(L, begins)
    requires Stands(L, x, ts[x], xs) && Stands(L, y, ts[y], ys) && Found(L, x, Ask(L, y, x))
    modifies ts[y]
    ensures Stands(L, y, ts[y], Updated(L, L.ghosts[y], x, ys, SubAnswer(L, x, Ask(L, y, x)), |L.ghosts[y]|))
  {
    var wanted := CollectRequest(L, L.ghosts[y], x);
    var dofs := Answer(L, x, ts[x], xs, wanted, begins[x]);
    TakeAnswer(L, y, x, ts[y], ys, dofs);
  }

  method PassMessage(L: GoodSubLayout, ts: seq<SubNumbering>, begins: seq<nat>, ghost s: SubSystem, e: Message,
                     ghost s': SubSystem)
    requires AllStand(L, ts, s) && Separate(ts) && AreBegins(L, begins) && StepOf(L, s, e, s')
    modifies ts
    ensures AllStand(L, ts, s')
  {
    MessageDoes(L, s, e, s');
    if e.tag >= 2 {
      PassAnswer(L, ts, begins, e.x, e.y, s[e.x].ghostNumbers, s[e.y].ghostNumbers);
      forall r | 0 <= r < |ts| && r != e.y
        ensures Stands(L, r, ts[r], s'[r].ghostNumbers)
      {
        assert ts[r] != ts[e.y];
      }
    }
  }

  ghost predicate Schedules(L: GoodSubLayout, run: seq<SubSystem>, sched: seq<Message>) {
    && |run| == |sched| + 1
    && forall k: nat {:trigger sched[k]} :: k < |sched| ==> StepOf(L, run[k], sched[k], run[k + 1])
  }

  /** The tables follow every run. */
  method FollowRun(L: GoodSubLayout, ts: seq<SubNumbering>, begins: seq<nat>, ghost run: seq<SubSystem>,
                   sched: seq<Message>)
    requires Schedules(L, run, sched) && AllStand(L, ts, run[0]) && Separate(ts) && AreBegins(L, begins)
    modifies ts
    ensures AllStand(L, ts, run[|run| - 1])
  {
    for k := 0 to |sched|
      invariant AllStand(L, ts, run[k])
    {
      PassMessage(L, ts, begins, run[k], sched[k], run[k + 1]);
    }
  }

  /** Every run is a list of messages. */
  lemma RunHasSchedule(L: GoodSubLayout, run: seq<SubSystem>) returns (sched: seq<Message>)
    requires IsRun(L, run)
    ensures Schedules(L, run, sched)
  {
    forall k: nat | 0 < k < |run|
      ensures StepAt(L, run, k)
    {
      RunInv(L, run, k - 1);
    }
    sched := ScheduleOf(L, run, |run| - 1);
    assert run[..|run|] == run;
  }

  ghost predicate StepAt(L: GoodSubLayout, run: seq<SubSystem>, k: nat)
    requires 0 < k < |run|
  {
    Inv(L, run[k - 1]) && Next(L, run[k - 1], run[k])
  }

  lemma {:induction false} ScheduleOf(L: GoodSubLayout, run: seq<SubSystem>, n: nat) returns (sched: seq<Message>)
    requires n < |run| && forall k: nat :: 0 < k < |run| ==> StepAt(L, run, k)
    ensures Schedules(L, run[..n + 1], sched)
  {
    if n == 0 {
      sched := [];
    } else {
      var before := ScheduleOf(L, run, n - 1);
      assert StepAt(L, run, n);
      var e := MessageOf(L, run[n - 1], run[n]);
      OneMoreStep(L, run[..n], before, e, run[n]);
      assert run[..n] + [run[n]] == run[..n + 1];
      sched := before + [e];
    }
  }

  lemma MessageOf(L: GoodSubLayout, s: SubSystem, s': SubSystem) returns (e: Message)
    requires Inv(L, s) && Next(L, s, s')
    ensures StepOf(L, s, e, s')
  {
    var x: nat, y: nat :| CanPass(L, s, x, y) && s' == After(L, s, x, y);
    e := Message(x, y, s[x].at.tag);
  }

  lemma OneMoreStep(L: GoodSubLayout, run: seq<SubSystem>, sched: seq<Message>, e: Message, s': SubSystem)
    requires Schedules(L, run, sched) && StepOf(L, run[|run| - 1], e, s')
    ensures Schedules(L, run + [s'], sched + [e])
  {
  }

  /** What the local-to-global tables hold after a complete run: sub-numbers for the owned dofs, and for
      a ghost dof its sub-number if and only if its owner is a ghost neighbour or the two numbers coincide. */
  lemma TablesAfter(L: GoodSubLayout, run: seq<SubSystem>, ts: seq<SubNumbering>, r: nat, i: nat)
    requires IsRun(L, run) && Stuck(L, run[|run| - 1]) && AllStand(L, ts, run[|run| - 1])
    requires r < |L.nbs| && i < |ts[r].l2g|
    ensures ts[r].lsize == |L.owned[r]| && |ts[r].l2g| == |L.owned[r]| + |L.ghosts[r]|
    ensures var t := ts[r];
      var g := if i < t.lsize then L.owned[r][i] else L.ghosts[r][i - t.lsize];
      && HasOwner(L, g)
      && (t.l2g[i] == SubNumber(L, g) <==> i < t.lsize || OwnerOf(L, g) in L.nbs[r] || SubNumber(L, g) == g)
  {
    var t := ts[r];
    assert Stands(L, r, t, run[|run| - 1][r].ghostNumbers);
    if i < t.lsize {
      assert t.l2g[..t.lsize][i] == t.l2g[i];
    } else {
      assert t.l2g[t.lsize..][i - t.lsize] == t.l2g[i];
      GhostNumberRight(L, run, r, i - t.lsize);
    }
  }
}
