/** Joins the table loops of module DofHandler to the exchange of module Exchange: the tables of
    every process stand for its state in the exchange model from the local numbering on, through
    every message of every run, until get_dof_indices gives the global numbers of all local cells. */
module DofSession {
  import opened Lists
  import opened MeshModel
  import opened Numbering
  import opened Partition
  import opened Handshake
  import opened Exchange
  import opened Distribute
  import opened DofTables
  import opened DofHandler

  /** What one process works on: local cells, the map back to local indices, the cells to ask each
      neighbour for, and its tables. */
  datatype Rank = Rank(local: seq<nat>, index: map<nat, nat>, asks: map<nat, seq<nat>>, t: DofTables)

  ghost function GoodLayoutOf(m: GoodMesh): (L: GoodLayout)
    ensures L == LayoutOf(m)
  {
    LayoutOfMeshOk(m);
    LayoutOf(m)
  }

  // ---- which ghost cells were received before session n -----------------------------------

  /** Process r has requested from q before session n. */
  ghost predicate Fetched(nbs: seq<seq<nat>>, r: nat, n: nat, q: nat)
    requires r < |nbs|
  {
    exists j: nat :: j < n && j < Sessions(nbs, r) && Requests(nbs, r, j) && Peer(nbs, r, j) == q
  }

  lemma FetchedNext(nbs: seq<seq<nat>>, r: nat, n: nat, q: nat)
    requires r < |nbs| && n < Sessions(nbs, r)
    ensures Fetched(nbs, r, n + 1, q) <==> Fetched(nbs, r, n, q) || (Requests(nbs, r, n) && Peer(nbs, r, n) == q)
  {
    ghost var next := n + 1;
    assert n < next;
  }

  lemma NotFetchedYet(nbs: seq<seq<nat>>, r: nat, n: nat)
    requires Network(nbs) && r < |nbs| && n < Sessions(nbs, r) && Requests(nbs, r, n)
    ensures !Fetched(nbs, r, n, Peer(nbs, r, n))
  {
    if Fetched(nbs, r, n, Peer(nbs, r, n)) {
      var j: nat :| j < n && j < Sessions(nbs, r) && Requests(nbs, r, j) && Peer(nbs, r, j) == Peer(nbs, r, n);
      RequestsOnce(nbs, r, j, n);
    }
  }

  /** Local indices of the ghost cells received before session n. */
  ghost function KnownLocals(m: GoodMesh, r: nat, n: nat): (known: set<nat>)
    requires r < |m.own|
    ensures forall l: nat :: l in known <==>
      && |m.own[r]| <= l < |LocalCells(m, r)| && LocalCells(m, r)[l] < |m.cells|
      && Fetched(Neighbours(m), r, n, m.proc[LocalCells(m, r)[l]])
  {
    set l: nat |
      && |m.own[r]| <= l < |LocalCells(m, r)| && LocalCells(m, r)[l] < |m.cells|
      && Fetched(Neighbours(m), r, n, m.proc[LocalCells(m, r)[l]])
  }

  lemma LocalOfGhost(m: GoodMesh, r: nat, index: map<nat, nat>, c: nat)
    requires r < |m.own| && Inverts(index, LocalCells(m, r)) && IsGhost(m, r, c)
    ensures c in index && |m.own[r]| <= index[c] < |LocalCells(m, r)| && LocalCells(m, r)[index[c]] == c
  {
    GhostsExact(m, r);
    LocalCellsDistinct(m, r);
    assert c in Ghosts(m, r);
    var l := |m.own[r]| + Pos(Ghosts(m, r), c);
    assert LocalCells(m, r)[l] == c;
  }

  lemma LocalOfOwn(m: GoodMesh, r: nat, index: map<nat, nat>, c: nat)
    requires r < |m.own| && Inverts(index, LocalCells(m, r)) && c < |m.cells| && m.proc[c] == r
    ensures c in index && index[c] < |m.own[r]|
  {
    assert c in m.own[m.proc[c]];
    var l := Pos(m.own[r], c);
    assert LocalCells(m, r)[l] == c;
  }

  lemma GhostOfLocal(m: GoodMesh, r: nat, l: nat)
    requires r < |m.own| && |m.own[r]| <= l < |LocalCells(m, r)|
    ensures IsGhost(m, r, LocalCells(m, r)[l])
  {
    GhostsExact(m, r);
    assert LocalCells(m, r)[l] == Ghosts(m, r)[l - |m.own[r]|];
    assert LocalCells(m, r)[l] in Ghosts(m, r);
  }

  lemma {:induction false} EnteredRowsAre(index: map<nat, nat>, list: seq<nat>, n: nat, l: nat)
    requires n <= |list| && forall j :: 0 <= j < |list| ==> list[j] in index
    ensures l in EnteredRows(index, list, n) <==> exists j :: 0 <= j < n && index[list[j]] == l
  {
    if n > 0 {
      EnteredRowsAre(index, list, n - 1, l);
    }
  }

  /** Every cell asked for has a local index. */
  lemma WantedIndexed(m: GoodMesh, r: nat, index: map<nat, nat>, q: nat, j: nat)
    requires r < |m.own| && Inverts(index, LocalCells(m, r)) && j < |Wanted(m, r, q)|
    ensures var c := Wanted(m, r, q)[j];
      && c in index && |m.own[r]| <= index[c] < |LocalCells(m, r)| && LocalCells(m, r)[index[c]] == c
      && c < |m.cells| && m.proc[c] == q
  {
    assert Wanted(m, r, q)[j] in Wanted(m, r, q);
    LocalOfGhost(m, r, index, Wanted(m, r, q)[j]);
  }

  lemma EnteredFrom(m: GoodMesh, r: nat, index: map<nat, nat>, q: nat, l: nat)
    requires r < |m.own| && Inverts(index, LocalCells(m, r))
    requires forall j :: 0 <= j < |Wanted(m, r, q)| ==> Wanted(m, r, q)[j] in index
    ensures l in EnteredRows(index, Wanted(m, r, q), |Wanted(m, r, q)|) <==>
      && |m.own[r]| <= l < |LocalCells(m, r)| && LocalCells(m, r)[l] < |m.cells|
      && m.proc[LocalCells(m, r)[l]] == q
  {
    var w := Wanted(m, r, q);
    EnteredRowsAre(index, w, |w|, l);
    if j :| 0 <= j < |w| && index[w[j]] == l {
      WantedIndexed(m, r, index, q, j);
    }
    if |m.own[r]| <= l < |LocalCells(m, r)| && LocalCells(m, r)[l] < |m.cells| && m.proc[LocalCells(m, r)[l]] == q {
      GhostOfLocal(m, r, l);
      assert LocalCells(m, r)[l] in w;
      var j := Pos(w, LocalCells(m, r)[l]);
      assert index[w[j]] == l;
    }
  }

  /** A request adds the rows of the cells it asked for; an answer adds none. */
  lemma KnownNext(m: GoodMesh, r: nat, index: map<nat, nat>, n: nat)
    requires r < |m.own| && Inverts(index, LocalCells(m, r)) && n < Sessions(Neighbours(m), r)
    ensures var w := Wanted(m, r, Peer(Neighbours(m), r, n));
      && (forall j :: 0 <= j < |w| ==> w[j] in index)
      && KnownLocals(m, r, n + 1) == KnownLocals(m, r, n)
           + if Requests(Neighbours(m), r, n) then EnteredRows(index, w, |w|) else {}
  {
    var nbs := Neighbours(m);
    var q := Peer(nbs, r, n);
    var w := Wanted(m, r, q);
    forall j: nat | j < |w|
      ensures w[j] in index
    {
      WantedIndexed(m, r, index, q, j);
    }
    forall l: nat
      ensures l in KnownLocals(m, r, n + 1) <==>
        l in KnownLocals(m, r, n) || (Requests(nbs, r, n) && l in EnteredRows(index, w, |w|))
    {
      EnteredFrom(m, r, index, q, l);
      if |m.own[r]| <= l < |LocalCells(m, r)| && LocalCells(m, r)[l] < |m.cells| {
        FetchedNext(nbs, r, n, m.proc[LocalCells(m, r)[l]]);
      }
    }
  }

  lemma KnownKept(m: GoodMesh, r: nat, index: map<nat, nat>, n: nat)
    requires r < |m.own| && Inverts(index, LocalCells(m, r)) && n < Sessions(Neighbours(m), r)
    requires !Requests(Neighbours(m), r, n)
    ensures KnownLocals(m, r, n + 1) == KnownLocals(m, r, n)
  {
    KnownNext(m, r, index, n);
  }

  // ---- tables of one process --------------------------------------------------------------

  ghost predicate Asks(m: GoodMesh, r: nat, asks: map<nat, seq<nat>>)
    requires r < |m.own|
  {
    forall q :: q in Neighbours(m)[r] ==> q in asks && asks[q] == Wanted(m, r, q)
  }

  /** The tables of process r stand for its state p in the exchange model. */
  ghost predicate Stands(m: GoodMesh, r: nat, k: Rank, p: Proc)
    requires r < |m.own|
    reads k.t
  {
    && TablesOf(m, r, k.local, k.t) && Inverts(k.index, k.local) && Asks(m, r, k.asks)
    && p.t == Tables(k.t.slots, k.t.l2g) && k.t.Settled(KnownLocals(m, r, p.at.session))
  }

  lemma RowsOfMesh(m: GoodMesh, r: nat, k: Rank)
    requires TablesOf(m, r, k.local, k.t) && Inverts(k.index, k.local)
    ensures RowsOf(LayoutOf(m), k.index, k.t)
  {
  }

  /** The cells that y asks x for are own cells of x. */
  lemma AskedAreOwn(m: GoodMesh, x: nat, k: Rank, y: nat)
    requires TablesOf(m, x, k.local, k.t) && Inverts(k.index, k.local)
    ensures OwnCells(k.index, k.t, Wanted(m, y, x))
  {
    var w := Wanted(m, y, x);
    forall j | 0 <= j < |w|
      ensures w[j] in k.index && k.index[w[j]] < k.t.nOwn
    {
      LocalOfOwn(m, x, k.index, w[j]);
    }
  }

  lemma OwnInterior(m: GoodMesh, r: nat, k: Rank, x: nat, i: nat)
    requires TablesOf(m, r, k.local, k.t) && x < k.t.nOwn && i < |k.t.rows[x]| && k.t.rows[x][i].CellSlot?
    ensures k.t.rows[x][i] in Local(m, r)
  {
    var c := k.local[x];
    assert c == m.own[r][x] && m.proc[c] == r;
    assert k.t.rows[x][i] == SlotOf(m, c, i) && IsSlot(m, SlotOf(m, c, i));
    LocalIsOwned(m, r);
  }

  /** What process r asks for in session n was not entered before. */
  lemma RequestIsNew(m: GoodMesh, r: nat, k: Rank, n: nat)
    requires TablesOf(m, r, k.local, k.t) && Inverts(k.index, k.local)
    requires n < Sessions(Neighbours(m), r) && Requests(Neighbours(m), r, n)
    ensures Requested(m, LayoutOf(m), k.index, k.t, Wanted(m, r, Peer(Neighbours(m), r, n)), KnownLocals(m, r, n))
  {
    var q := Peer(Neighbours(m), r, n);
    var w := Wanted(m, r, q);
    NeighboursFormNetwork(m);
    NotFetchedYet(Neighbours(m), r, n);
    forall j: nat | j < |w|
      ensures w[j] in k.index && k.t.nOwn <= k.index[w[j]] < |k.t.rows|
      ensures k.index[w[j]] !in KnownLocals(m, r, n) && k.local[k.index[w[j]]] == w[j]
    {
      WantedIndexed(m, r, k.index, q, j);
    }
  }

  /** The answer of a process: dof counts of the cells asked for, then their numbers. */
  method SendAnswer(m: GoodMesh, x: nat, k: Rank, ghost p: Proc, ghost y: nat, elems: seq<nat>)
    returns (counts: seq<nat>, dofs: seq<int>)
    requires x < |m.own| && Stands(m, x, k, p) && elems == Wanted(m, y, x)
    requires Answerable(GoodLayoutOf(m), x, p.t, elems)
    ensures counts == DofSizes(GoodLayoutOf(m), elems)
    ensures dofs == Answer(GoodLayoutOf(m), x, p.t, elems, |elems|)
  {
    RowsOfMesh(m, x, k);
    AskedAreOwn(m, x, k, y);
    counts := SendCounts(k.index, k.t, GoodLayoutOf(m), elems);
    dofs := SendDofs(x, k.index, k.t, GoodLayoutOf(m), KnownLocals(m, x, p.at.session), elems);
  }

  lemma ReadyToReceive(m: GoodMesh, r: nat, k: Rank, p: Proc)
    requires r < |m.own| && Stands(m, r, k, p) && ProcOk(GoodLayoutOf(m), r, p)
      && p.at.session < Sessions(Neighbours(m), r)
    requires Requests(Neighbours(m), r, p.at.session)
    ensures ReadyFor(m, k.local, k.t, k.index, GoodLayoutOf(m), Wanted(m, r, Peer(Neighbours(m), r, p.at.session)),
                     KnownLocals(m, r, p.at.session))
  {
    var L, n := GoodLayoutOf(m), p.at.session;
    PeerInRange(L.nbs, r, n);
    RequestIsNew(m, r, k, n);
    RequestedFresh(L, r, n, p.t, Peer(L.nbs, r, n));
    forall x: nat, i: nat | x < k.t.nOwn && i < |k.t.rows[x]| && k.t.rows[x][i].CellSlot?
      ensures k.t.rows[x][i] in k.t.slots
    {
      OwnInterior(m, r, k, x, i);
    }
    RowsOfMesh(m, r, k);
  }

  /** Received numbers are entered: the tables are those of the exchange model. */
  method ReceiveDofs(m: GoodMesh, r: nat, k: Rank, ghost p: Proc, list: seq<nat>, dofs: seq<int>)
    requires r < |m.own| && Stands(m, r, k, p) && ProcOk(GoodLayoutOf(m), r, p)
      && p.at.session < Sessions(Neighbours(m), r)
    requires Requests(Neighbours(m), r, p.at.session)
    requires list == Wanted(m, r, Peer(Neighbours(m), r, p.at.session))
    requires Cells(GoodLayoutOf(m), list) && |dofs| == Total(DofSizes(GoodLayoutOf(m), list))
    modifies k.t
    ensures Tables(k.t.slots, k.t.l2g) == AddCells(GoodLayoutOf(m), p.t, list, dofs, |list|)
    ensures k.t.Settled(KnownLocals(m, r, p.at.session + 1))
  {
    ghost var n := p.at.session;
    KnownNext(m, r, k.index, n);
    ReadyToReceive(m, r, k, p);
    UpdateLocalDofs(m, k.local, k.t, k.index, GoodLayoutOf(m), list, dofs, KnownLocals(m, r, n));
  }

  // ---- one message ------------------------------------------------------------------------

  /** A message from x to y passes in a state of the invariant. */
  ghost predicate Passes(L: GoodLayout, s: System, x: nat, y: nat) {
    Inv(L, s) && CanPass(L, s, x, y)
  }

  /** From p to p' the tables stay, and nothing was requested. */
  ghost predicate Quiet(L: GoodLayout, r: nat, p: Proc, p': Proc)
    requires r < |L.nbs|
  {
    && p'.t == p.t
    && (p'.at.session == p.at.session
        || (p.at.session < Sessions(L.nbs, r) && p'.at.session == p.at.session + 1
            && !Requests(L.nbs, r, p.at.session)))
  }

  /** A message changes no tables but those that numbers are sent to. */
  lemma MessageIsQuiet(L: GoodLayout, s: System, x: nat, y: nat, r: nat)
    requires Passes(L, s, x, y) && r < |s| && (r != y || s[x].at.tag < 3)
    ensures |After(L, s, x, y)| == |s| && Quiet(L, r, s[r], After(L, s, x, y)[r])
  {
    EnabledIsPaired(L.nbs, Cursors(s), x, y);
    assert CursorOk(L.nbs, MESSAGES, x, Cursors(s)[x]);
  }

  lemma QuietStands(m: GoodMesh, r: nat, k: Rank, p: Proc, p': Proc)
    requires r < |m.own| && Stands(m, r, k, p) && Quiet(GoodLayoutOf(m), r, p, p')
    ensures Stands(m, r, k, p')
  {
    if p'.at.session != p.at.session {
      KnownKept(m, r, k.index, p.at.session);
    }
  }

  /** Process y, in state q, takes the answer of x, in state p, and is then in state q'. */
  ghost predicate Takes(L: GoodLayout, x: nat, y: nat, p: Proc, q: Proc, q': Proc)
    requires x < |L.nbs| && y < |L.nbs|
  {
    && ProcOk(L, y, q) && q.at.session < Sessions(L.nbs, y) && Requests(L.nbs, y, q.at.session)
    && Peer(L.nbs, y, q.at.session) == x && q'.at.session == q.at.session + 1
    && var w := L.wanted[y][x];
       Answerable(L, x, p.t, w) && q'.t == AddCells(L, q.t, w, Answer(L, x, p.t, w, |w|), |w|)
  }

  lemma NumbersPass(L: GoodLayout, s: System, x: nat, y: nat)
    requires Passes(L, s, x, y) && s[x].at.tag >= 3
    ensures |After(L, s, x, y)| == |s| && Takes(L, x, y, s[x], s[y], After(L, s, x, y)[y])
  {
    EnabledIsPaired(L.nbs, Cursors(s), x, y);
    RequestsAnswerable(L, s, x, y);
  }

  /** The numbers that x sends are entered by y. */
  method PassNumbers(m: GoodMesh, x: nat, y: nat, a: Rank, b: Rank, ghost p: Proc, ghost q: Proc, ghost q': Proc)
    requires x < |m.own| && y < |m.own| && Stands(m, x, a, p) && Stands(m, y, b, q)
    requires Takes(GoodLayoutOf(m), x, y, p, q, q')
    modifies b.t
    ensures Stands(m, y, b, q')
  {
    var elems := b.asks[x];
    var counts, dofs := SendAnswer(m, x, a, p, y, elems);
    ReceiveDofs(m, y, b, q, elems, dofs);
  }

  // ---- whole runs -------------------------------------------------------------------------

  ghost predicate AllStand(m: GoodMesh, ranks: seq<Rank>, s: System)
    reads set k | k in ranks :: k.t
  {
    |ranks| == |m.own| == |s| && FirstStand(m, ranks, s)
  }

  ghost predicate FirstStand(m: GoodMesh, ranks: seq<Rank>, s: System)
    requires |ranks| <= |m.own| == |s|
    reads set k | k in ranks :: k.t
  {
    forall r :: 0 <= r < |ranks| ==> Stands(m, r, ranks[r], s[r])
  }

  /** Each process has tables of its own. */
  ghost predicate Separate(ranks: seq<Rank>) {
    forall i, j :: 0 <= i < j < |ranks| ==> ranks[i].t != ranks[j].t
  }

  /** A message of the run: from x to y, with its tag. */
  datatype Message = Message(x: nat, y: nat, tag: nat)

  ghost predicate StepOf(L: GoodLayout, s: System, e: Message, s': System) {
    CanPass(L, s, e.x, e.y) && e.tag == s[e.x].at.tag && s' == After(L, s, e.x, e.y)
  }

  ghost predicate Passing(L: GoodLayout, s: System, e: Message, s': System) {
    Inv(L, s) && StepOf(L, s, e, s')
  }

  /** Only the tables that dof numbers are sent to have to change. */
  lemma OthersStand(m: GoodMesh, ranks: seq<Rank>, s: System, e: Message, s': System)
    requires AllStand(m, ranks, s) && Passing(GoodLayoutOf(m), s, e, s')
    ensures |s'| == |s|
    ensures forall r :: 0 <= r < |ranks| && (r != e.y || e.tag < 3) ==> Stands(m, r, ranks[r], s'[r])
  {
    forall r: nat | r < |ranks| && (r != e.y || e.tag < 3)
      ensures |s'| == |s| && Stands(m, r, ranks[r], s'[r])
    {
      MessageIsQuiet(GoodLayoutOf(m), s, e.x, e.y, r);
      QuietStands(m, r, ranks[r], s[r], s'[r]);
    }
  }

  lemma AnswerTaken(m: GoodMesh, ranks: seq<Rank>, s: System, e: Message, s': System)
    requires AllStand(m, ranks, s) && Passing(GoodLayoutOf(m), s, e, s') && e.tag >= 3
    ensures e.x < |ranks| && e.y < |ranks| && Takes(GoodLayoutOf(m), e.x, e.y, s[e.x], s[e.y], s'[e.y])
  {
    NumbersPass(GoodLayoutOf(m), s, e.x, e.y);
  }

  /** One message of a run, on the tables. */
  method PassMessage(m: GoodMesh, ranks: seq<Rank>, ghost s: System, e: Message, ghost s': System)
    requires AllStand(m, ranks, s) && Separate(ranks) && Passing(GoodLayoutOf(m), s, e, s')
    modifies set k | k in ranks :: k.t
    ensures AllStand(m, ranks, s')
  {
    OthersStand(m, ranks, s, e, s');
    if e.tag >= 3 {
      AnswerTaken(m, ranks, s, e, s');
      PassNumbers(m, e.x, e.y, ranks[e.x], ranks[e.y], s[e.x], s[e.y], s'[e.y]);
      forall r | 0 <= r < |ranks| && r != e.y
        ensures Stands(m, r, ranks[r], s'[r])
      {
        assert ranks[r].t != ranks[e.y].t;
      }
    }
  }

  /** The messages of a run, in order. */
  ghost predicate Schedules(L: GoodLayout, run: seq<System>, sched: seq<Message>) {
    && |run| == |sched| + 1
    && forall k: nat {:trigger sched[k]} :: k < |sched| ==> StepOf(L, run[k], sched[k], run[k + 1])
  }

  /** Every run has its messages. */
  lemma RunHasSchedule(L: GoodLayout, run: seq<System>) returns (sched: seq<Message>)
    requires IsRun(L, run)
    ensures Schedules(L, run, sched)
  {
    assert forall k: nat :: 0 < k < |run| ==> StepAt(L, run, k);
    sched := ScheduleOf(L, run, |run| - 1);
    assert run[..|run|] == run;
  }

  ghost predicate StepAt(L: GoodLayout, run: seq<System>, k: nat)
    requires 0 < k < |run|
  {
    Next(L, run[k - 1], run[k])
  }

  lemma {:induction false} ScheduleOf(L: GoodLayout, run: seq<System>, n: nat) returns (sched: seq<Message>)
    requires n < |run| && forall k: nat :: 0 < k < |run| ==> StepAt(L, run, k)
    ensures Schedules(L, run[..n + 1], sched)
  {
    if n == 0 {
      sched := [];
    } else {
      var before := ScheduleOf(L, run, n - 1);
      assert StepAt(L, run, n);
      var e := MessageOf(L, run[n - 1], run[n]);
      OneMoreStep(L, run[..n], before, e, run[n]);
      assert run[..n] + [run[n]] == run[..n + 1];
      sched := before + [e];
    }
  }

  lemma OneMoreStep(L: GoodLayout, run: seq<System>, sched: seq<Message>, e: Message, s': System)
    requires Schedules(L, run, sched) && StepOf(L, run[|run| - 1], e, s')
    ensures Schedules(L, run + [s'], sched + [e])
  {
  }

  lemma MessageOf(L: GoodLayout, s: System, s': System) returns (e: Message)
    requires Next(L, s, s')
    ensures StepOf(L, s, e, s')
  {
    var x: nat, y: nat :| CanPass(L, s, x, y) && s' == After(L, s, x, y);
    e := Message(x, y, s[x].at.tag);
  }

  lemma PassingAt(L: GoodLayout, run: seq<System>, sched: seq<Message>, k: nat)
    requires IsRun(L, run) && Schedules(L, run, sched) && k < |sched|
    ensures Passing(L, run[k], sched[k], run[k + 1])
  {
    RunInv(L, run, k);
  }

  /** The tables follow every run of the exchange model. */
  method FollowRun(m: GoodMesh, ranks: seq<Rank>, ghost run: seq<System>, sched: seq<Message>)
    requires IsRun(GoodLayoutOf(m), run) && Schedules(GoodLayoutOf(m), run, sched)
    requires AllStand(m, ranks, run[0]) && Separate(ranks)
    modifies set k | k in ranks :: k.t
    ensures AllStand(m, ranks, run[|run| - 1])
  {
    var k := 0;
    while k < |sched|
      invariant k <= |sched| && AllStand(m, ranks, run[k])
    {
      PassingAt(GoodLayoutOf(m), run, sched, k);
      PassMessage(m, ranks, run[k], sched[k], run[k + 1]);
      k := k + 1;
    }
  }

  // ---- before and after the exchange ------------------------------------------------------

  lemma NothingKnown(m: GoodMesh, r: nat)
    requires r < |m.own|
    ensures KnownLocals(m, r, 0) == {}
  {
  }

  /** Numbering and shift give the tables that the exchange starts from. */
  method InitialTables(m: GoodMesh, r: nat, local: seq<nat>, nOwn: nat, edg4loc: seq<nat>, offset: nat)
    returns (t: DofTables)
    requires r < |m.own| && InMesh(m, local) && local == LocalCells(m, r) && nOwn == |m.own[r]|
    requires forall e: nat :: e in edg4loc <==>
      e < |m.edgeDim| && exists c: nat :: c < |m.cells| && m.proc[c] == r && e in m.cells[c].edges
    requires offset == Offset(m, r)
    ensures fresh(t) && TablesOf(m, r, local, t) && t.Settled({})
    ensures Tables(t.slots, t.l2g) == InitProc(GoodLayoutOf(m), r).t
  {
    t := BuildTables(m, r, local, nOwn, edg4loc);
    NumberOwnCells(m, r, local, t);
    ShiftNumbers(t, offset, {});
    forall j: nat | j < |t.slots|
      ensures IsSlot(m, t.slots[j]) && t.l2g[j] == Global(m, t.slots[j])
    {
      GlobalOfLocal(m, r, j);
    }
  }

  /** Everything a process does before the exchange, from the mesh and its offset. */
  method StartRank(m: GoodMesh, r: nat, offset: nat) returns (k: Rank)
    requires r < |m.own| && offset == Offset(m, r)
    ensures fresh(k.t) && Stands(m, r, k, InitProc(GoodLayoutOf(m), r))
  {
    var part := new ElementPartition(m, r);
    part.MakeElemPartitioning();
    var local := m.own[r] + part.ghost4loc;
    LocalCellsDistinct(m, r);
    forall l: nat | l < |local|
      ensures local[l] < |m.cells|
    {
      assert local[l] in LocalCells(m, r);
    }
    var t := InitialTables(m, r, local, |m.own[r]|, part.edg4loc, offset);
    k := Rank(local, part.globalToLocal, part.ghostProcEl, t);
    NothingKnown(m, r);
  }

  lemma OneMoreStands(m: GoodMesh, ranks: seq<Rank>, k: Rank, s: System)
    requires |ranks| < |m.own| == |s| && FirstStand(m, ranks, s) && Stands(m, |ranks|, k, s[|ranks|])
    ensures FirstStand(m, ranks + [k], s)
  {
    var more := ranks + [k];
    forall r: nat | r < |more|
      ensures Stands(m, r, more[r], s[r])
    {
      SameRank(m, r, if r < |ranks| then ranks[r] else k, more[r], s[r]);
    }
  }

  lemma SameRank(m: GoodMesh, r: nat, k: Rank, k': Rank, p: Proc)
    requires k == k' && r < |m.own| && Stands(m, r, k, p)
    ensures Stands(m, r, k', p)
  {
  }

  lemma OneMoreSeparate(ranks: seq<Rank>, k: Rank)
    requires Separate(ranks) && forall x :: x in ranks ==> x.t != k.t
    ensures Separate(ranks + [k])
  {
  }

  /** All processes before the exchange. */
  method StartAll(m: GoodMesh, offsets: seq<nat>) returns (ranks: seq<Rank>)
    requires |offsets| == |m.own| && forall r :: 0 <= r < |m.own| ==> offsets[r] == Offset(m, r)
    ensures (forall k :: k in ranks ==> fresh(k.t)) && Separate(ranks)
    ensures AllStand(m, ranks, Init(GoodLayoutOf(m)))
  {
    ghost var s := Init(GoodLayoutOf(m));
    ranks := [];
    var r := 0;
    while r < |m.own|
      invariant r <= |m.own| && |ranks| == r && Separate(ranks) && forall k :: k in ranks ==> fresh(k.t)
      invariant FirstStand(m, ranks, s)
    {
      var k := StartRank(m, r, offsets[r]);
      OneMoreStands(m, ranks, k, s);
      OneMoreSeparate(ranks, k);
      ranks := ranks + [k];
      r := r + 1;
    }
  }

  /** When a process has finished, every row is known. */
  lemma FinishedRowKnown(m: GoodMesh, r: nat, k: Rank, p: Proc, l: nat)
    requires r < |m.own| && Stands(m, r, k, p) && HasAll(m, r, p) && l < |k.local|
    ensures KnownRow(k.t.rows, k.t.dofIndices, k.t.slots, l, |k.t.rows[l]|)
  {
    var c, n := k.local[l], p.at.session;
    if l < |m.own[r]| {
      assert c == m.own[r][l] && m.proc[c] == r;
      OwnCellsResolved(GoodLayoutOf(m), r, n, p.t, c);
      OwnRowKnown(k.t, l, KnownLocals(m, r, n));
    } else {
      GhostsKnown(m, r, n, l);
    }
  }

  lemma GhostsKnown(m: GoodMesh, r: nat, n: nat, l: nat)
    requires r < |m.own| && n >= Sessions(Neighbours(m), r) && |m.own[r]| <= l < |LocalCells(m, r)|
    ensures l in KnownLocals(m, r, n)
  {
    GhostOfLocal(m, r, l);
    var q := m.proc[LocalCells(m, r)[l]];
    WantedMakesNeighbour(m, r, q);
    NeighboursFormNetwork(m);
    var j := AllRequested(Neighbours(m), r, q);
    assert Fetched(Neighbours(m), r, n, q);
  }

  /** get_dof_indices after the exchange: the global numbers of the dofs of every local cell. */
  method CellIndices(m: GoodMesh, r: nat, k: Rank, ghost p: Proc, l: nat) returns (indices: seq<int>)
    requires r < |m.own| && Stands(m, r, k, p) && HasAll(m, r, p) && l < |k.local|
    ensures k.local[l] < |m.cells| && |indices| == |CellDofs(m, k.local[l])|
    ensures forall i: nat :: i < |indices| ==>
      IsSlot(m, SlotOf(m, k.local[l], i)) && indices[i] == Global(m, SlotOf(m, k.local[l], i))
  {
    FinishedRowKnown(m, r, k, p, l);
    indices := GetDofIndices(k.t, l, KnownLocals(m, r, p.at.session));
    ghost var c, L := k.local[l], GoodLayoutOf(m);
    forall i: nat | i < |indices|
      ensures IsSlot(m, SlotOf(m, c, i)) && indices[i] == Global(m, SlotOf(m, c, i))
    {
      LookupCorrect(L, p.t, k.t.rows[l][i]);
    }
  }

  /** The process has completed its exchange. */
  ghost predicate HasAll(m: GoodMesh, r: nat, p: Proc)
    requires r < |m.own|
  {
    ProcOk(GoodLayoutOf(m), r, p) && Finished(Neighbours(m), r, p.at)
  }

  ghost predicate EveryHasAll(m: GoodMesh, s: System) {
    |s| == |m.own| && forall r :: 0 <= r < |s| ==> HasAll(m, r, s[r])
  }

  lemma CompleteHasAll(m: GoodMesh, run: seq<System>)
    requires CompleteRun(m, run)
    ensures EveryHasAll(m, run[|run| - 1])
  {
    RunsComplete(GoodLayoutOf(m), run);
    RunInv(GoodLayoutOf(m), run, |run| - 1);
  }

  /** distribute_dofs on all processes, for any complete run of the exchange: afterwards
      CellIndices applies to every process and every one of its local cells. */
  method DistributeDofs(m: GoodMesh, offsets: seq<nat>, ghost run: seq<System>, sched: seq<Message>)
    returns (ranks: seq<Rank>)
    requires |offsets| == |m.own| && forall r :: 0 <= r < |m.own| ==> offsets[r] == Offset(m, r)
    requires CompleteRun(m, run) && Schedules(GoodLayoutOf(m), run, sched)
    ensures AllStand(m, ranks, run[|run| - 1])
    ensures EveryHasAll(m, run[|run| - 1])
  {
    ranks := StartAll(m, offsets);
    FollowRun(m, ranks, run, sched);
    CompleteHasAll(m, run);
  }
}
