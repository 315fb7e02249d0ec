/** The sub-handler of a component from the tables of its parent, on all processes: the visits are read
    from `dof_indices`, the tables are built from them, follow any run of the exchange, and end with the
    numbers of module SubMesh. */
module SubCreate {
  import opened Lists
  import opened MeshModel
  import opened Numbering
  import opened FlatTables
  import opened DofTables
  import opened Exchange
  import opened DofHandler
  import opened DofSession
  import opened SubHandler
  import opened SubDistribute
  import opened SubMesh
  import Sequential
  import SubExchange
  import SubSession
  import SubRuns

  // ---- the component's dofs in the elements -----------------------------------------------

  function Range(lo: nat, hi: nat): (s: seq<nat>)
    requires lo <= hi
    ensures |s| == hi - lo && forall i :: 0 <= i < |s| ==> s[i] == lo + i
  {
    seq(hi - lo, i requires 0 <= i => lo + i)
  }

  /** The dofs of component a in an element, in order. */
  method ElementDofs(parts: seq<seq<Dof>>, a: nat) returns (list: seq<nat>)
    requires a < |parts|
    ensures var lens := Sequential.Lengths(parts);
      Start(lens, a) <= Start(lens, a + 1) && list == Range(Start(lens, a), Start(lens, a + 1))
  {
    list := [];
    ghost var lens := Sequential.Lengths(parts);
    var first := 0;
    for b := 0 to |parts|
      invariant first == Start(lens, b)
      invariant list == if b <= a then [] else Range(Start(lens, a), Start(lens, a) + |parts[a]|)
    {
      if b == a {
        list := Range(first, first + |parts[b]|);
      }
      first := first + |parts[b]|;
    }
  }

  /** ... in the elements of all dimensions. */
  ghost predicate AreSubDofs(parts: seq<seq<seq<Dof>>>, a: nat, sub: seq<seq<nat>>) {
    && |sub| == |parts|
    && forall d :: 0 <= d < |parts| ==>
      && a < |parts[d]| && Start(Sequential.Lengths(parts[d]), a) <= Start(Sequential.Lengths(parts[d]), a + 1)
      && sub[d] == Range(Start(Sequential.Lengths(parts[d]), a), Start(Sequential.Lengths(parts[d]), a + 1))
  }

  method ComponentDofs(parts: seq<seq<seq<Dof>>>, a: nat) returns (sub: seq<seq<nat>>)
    requires forall d :: 0 <= d < |parts| ==> a < |parts[d]|
    ensures AreSubDofs(parts, a, sub)
  {
    sub := [];
    while |sub| < |parts|
      invariant |sub| <= |parts| && AreSubDofs(parts[..|sub|], a, sub)
    {
      var list := ElementDofs(parts[|sub|], a);
      sub := sub + [list];
    }
    assert parts[..|sub|] == parts;
  }

  // ---- visits of one process --------------------------------------------------------------

  /** What a process reads of its tables: starts and entries of the rows; and what they stand for. */
  datatype Rows = Rows(starts: seq<nat>, table: seq<int>)

  datatype Meaning = Meaning(rows: seq<seq<Slot>>, slots: seq<Slot>)

  /** Row l of the tables has a number for every dof, and the listed dofs are those of `comp`. */
  ghost predicate CellKnown(d: Rows, g: Meaning, l: nat, list: seq<nat>, comp: seq<Slot>) {
    && IsStarts(d.starts, Sizes(g.rows)) && l < |g.rows| && KnownRow(g.rows, d.table, g.slots, l, |g.rows[l]|)
    && |comp| == |list| && forall j :: 0 <= j < |list| ==> list[j] < |g.rows[l]| && comp[j] == g.rows[l][list[j]]
  }

  lemma CellEntry(d: Rows, g: Meaning, l: nat, list: seq<nat>, comp: seq<Slot>, j: nat)
    requires CellKnown(d, g, l, list, comp) && j < |list|
    ensures l < |d.starts| && d.starts[l] + list[j] < |d.table| && comp[j] in g.slots
    ensures d.table[d.starts[l] + list[j]] == Pos(g.slots, comp[j])
  {
    assert Entry(g.rows, d.table, g.slots, l, list[j]);
  }

  ghost predicate CellsKnown(dims: seq<nat>, sub: seq<seq<nat>>, d: Rows, g: Meaning, comps: seq<seq<Slot>>) {
    && |comps| == |dims|
    && forall l: nat :: l < |dims| ==> dims[l] < |sub| && CellKnown(d, g, l, sub[dims[l]], comps[l])
  }

  /** The loops over the local cells and the component's dofs on them. */
  method ReadVisits(dims: seq<nat>, sub: seq<seq<nat>>, d: Rows, ghost g: Meaning, ghost comps: seq<seq<Slot>>)
    returns (v: seq<nat>)
    requires RowsIn(g.slots, comps) && CellsKnown(dims, sub, d, g, comps)
    ensures v == Visits(g.slots, comps, |comps|)
  {
    v := [];
    for l := 0 to |dims|
      invariant v == Visits(g.slots, comps, l)
    {
      ghost var before, row := v, VisitRow(g.slots, comps[l]);
      var list := sub[dims[l]];
      assert CellKnown(d, g, l, list, comps[l]);
      for j := 0 to |list|
        invariant v == before + row[..j]
      {
        CellEntry(d, g, l, list, comps[l], j);
        assert row[..j + 1] == row[..j] + [row[j]];
        v := v + [d.table[d.starts[l] + list[j]]];
      }
      assert row[..|list|] == row;
    }
  }

  // ---- from the tables of the parent ------------------------------------------------------

  lemma CompListed(m: GoodMesh, parts: seq<seq<seq<Dof>>>, a: nat, sub: seq<seq<nat>>, c: nat)
    requires ComponentOk(m, parts, a) && AreSubDofs(parts, a, sub) && c < |m.cells|
    ensures m.cells[c].dim < |sub|
    ensures var list, comp := sub[m.cells[c].dim], CompRow(m, parts, a, c);
      |comp| == |list| && forall j :: 0 <= j < |list| ==>
        list[j] < |CellSlots(m, c)| && comp[j] == CellSlots(m, c)[list[j]]
  {
    ComponentRange(m, parts, a, c);
  }

  lemma CellKnownOf(m: GoodMesh, parts: seq<seq<seq<Dof>>>, a: nat, sub: seq<seq<nat>>, r: nat, k: Rank, p: Proc,
                    l: nat)
    requires ComponentOk(m, parts, a) && AreSubDofs(parts, a, sub)
    requires r < |m.own| && Stands(m, r, k, p) && HasAll(m, r, p) && l < |k.local|
    ensures k.local[l] < |m.cells| && m.cells[k.local[l]].dim < |sub|
    ensures CellKnown(Rows(k.t.cellStarts, k.t.dofIndices), Meaning(k.t.rows, k.t.slots), l,
                      sub[m.cells[k.local[l]].dim], CompRow(m, parts, a, k.local[l]))
  {
    FinishedRowKnown(m, r, k, p, l);
    CompListed(m, parts, a, sub, k.local[l]);
  }

  /** Dimensions of the local cells. */
  function DimsOf(m: GoodMesh, local: seq<nat>): (s: seq<nat>)
    requires InMesh(m, local)
    ensures |s| == |local| && forall l :: 0 <= l < |local| ==> s[l] == m.cells[local[l]].dim
  {
    seq(|local|, l requires 0 <= l < |local| && local[l] < |m.cells| => m.cells[local[l]].dim)
  }

  lemma CellsKnownOf(m: GoodMesh, parts: seq<seq<seq<Dof>>>, a: nat, sub: seq<seq<nat>>, r: nat, k: Rank, p: Proc)
    requires ComponentOk(m, parts, a) && AreSubDofs(parts, a, sub)
    requires r < |m.own| && Stands(m, r, k, p) && HasAll(m, r, p)
    ensures InMesh(m, k.local)
    ensures CellsKnown(DimsOf(m, k.local), sub, Rows(k.t.cellStarts, k.t.dofIndices), Meaning(k.t.rows, k.t.slots),
                       CompRows(m, parts, a, r))
  {
    forall l: nat | l < |k.local|
      ensures k.local[l] < |m.cells| && m.cells[k.local[l]].dim < |sub|
      ensures CellKnown(Rows(k.t.cellStarts, k.t.dofIndices), Meaning(k.t.rows, k.t.slots), l,
                        sub[m.cells[k.local[l]].dim], CompRows(m, parts, a, r)[l])
    {
      CellKnownOf(m, parts, a, sub, r, k, p, l);
    }
  }

  /** The visits of a process. */
  method VisitsOf(m: GoodMesh, ghost parts: seq<seq<seq<Dof>>>, ghost a: nat, sub: seq<seq<nat>>, ghost r: nat, k: Rank,
                  ghost p: Proc) returns (v: seq<nat>)
    requires ComponentOk(m, parts, a) && AreSubDofs(parts, a, sub)
    requires r < |m.own| && Stands(m, r, k, p) && HasAll(m, r, p) && RowsIn(k.t.slots, CompRows(m, parts, a, r))
    ensures v == Visits(k.t.slots, CompRows(m, parts, a, r), |CompRows(m, parts, a, r)|)
  {
    CellsKnownOf(m, parts, a, sub, r, k, p);
    v := ReadVisits(DimsOf(m, k.local), sub, Rows(k.t.cellStarts, k.t.dofIndices), Meaning(k.t.rows, k.t.slots),
                    CompRows(m, parts, a, r));
  }

  /** A component of the finite-element system of a mesh, and the final state of the parent's exchange. */
  datatype Case = Case(m: GoodMesh, parts: seq<seq<seq<Dof>>>, a: nat, s: System)

  type GoodCase = x: Case | ComponentOk(x.m, x.parts, x.a) && Ready(x.m, x.s)
    ghost witness Case(Mesh([], [], [], [], [], [], []), [], 0, [])

  ghost function LayoutOfCase(x: GoodCase): (L: SubSession.GoodSubLayout)
    ensures L == MeshSubLayout(x.m, x.parts, x.a, x.s) && |L.nbs| == |L.ghosts| == |x.m.own|
  {
    MeshSubLayout(x.m, x.parts, x.a, x.s)
  }

  /** The tables of the parent are those of its final state. */
  ghost predicate ParentDone(x: GoodCase, ranks: seq<Rank>)
    reads set k | k in ranks :: k.t
  {
    AllStand(x.m, ranks, x.s) && EveryHasAll(x.m, x.s)
  }

  /** What the parent's tables give for the sub-handler. */
  ghost predicate FromParent(P: Parent, visits: seq<seq<nat>>, l2gs: seq<seq<int>>)
    requires ParentOk(P)
  {
    && |visits| == |l2gs| <= |P.nbs|
    && forall r :: 0 <= r < |visits| ==> visits[r] == AllVisits(P, r) && l2gs[r] == P.tables[r].l2g
  }

  ghost function ParentOfCase(x: GoodCase): (P: Parent)
    ensures P == ParentOf(x.m, x.parts, x.a, x.s) && ParentOk(P) && |P.nbs| == |x.m.own|
    ensures SubSession.Layout(P) == LayoutOfCase(x)
  {
    ParentOfOk(x.m, x.parts, x.a, x.s);
    ParentOf(x.m, x.parts, x.a, x.s)
  }

  method ReadRank(ghost x: GoodCase, m: GoodMesh, sub: seq<seq<nat>>, r: nat, ranks: seq<Rank>)
    returns (visits: seq<nat>, l2g: seq<int>)
    requires m == x.m && ParentDone(x, ranks) && AreSubDofs(x.parts, x.a, sub) && r < |m.own|
    ensures visits == AllVisits(ParentOfCase(x), r) && l2g == ParentOfCase(x).tables[r].l2g
  {
    ParentOfOk(m, x.parts, x.a, x.s);
    RankTables(m, x.parts, x.a, x.s, r);
    visits := VisitsOf(m, x.parts, x.a, sub, r, ranks[r], x.s[r]);
    l2g := ranks[r].t.l2g;
  }

  /** The visits and numbers of all processes, read from the parent's tables. */
  method ReadParent(ghost x: GoodCase, m: GoodMesh, sub: seq<seq<nat>>, ranks: seq<Rank>)
    returns (visits: seq<seq<nat>>, l2gs: seq<seq<int>>)
    requires m == x.m && ParentDone(x, ranks) && AreSubDofs(x.parts, x.a, sub)
    ensures |visits| == |m.own| && FromParent(ParentOfCase(x), visits, l2gs)
  {
    visits, l2gs := [], [];
    ghost var P := ParentOfCase(x);
    while |visits| < |m.own|
      invariant FromParent(P, visits, l2gs)
    {
      var v, l := ReadRank(x, m, sub, |visits|, ranks);
      OneMoreRank(P, visits, l2gs, v, l);
      visits, l2gs := visits + [v], l2gs + [l];
    }
  }

  lemma OneMoreRank(P: Parent, visits: seq<seq<nat>>, l2gs: seq<seq<int>>, v: seq<nat>, l: seq<int>)
    requires ParentOk(P) && FromParent(P, visits, l2gs) && |visits| < |P.nbs|
    requires v == AllVisits(P, |visits|) && l == P.tables[|visits|].l2g
    ensures FromParent(P, visits + [v], l2gs + [l])
  {
  }

  // ---- all processes ----------------------------------------------------------------------

  /** The first processes have their tables. */
  ghost predicate FirstStand(L: SubSession.GoodSubLayout, ts: seq<SubNumbering>)
    reads ts
  {
    && |ts| <= |L.nbs| == |L.ghosts|
    && forall r :: 0 <= r < |ts| ==> SubSession.Stands(L, r, ts[r], SubExchange.Init(L)[r].ghostNumbers)
  }

  lemma OneMoreStands(L: SubSession.GoodSubLayout, ts: seq<SubNumbering>, t: SubNumbering)
    requires FirstStand(L, ts) && |ts| < |L.nbs| && SubRuns.Separate(ts) && t !in ts
    requires SubSession.Stands(L, |ts|, t, SubExchange.Init(L)[|ts|].ghostNumbers)
    ensures FirstStand(L, ts + [t]) && SubRuns.Separate(ts + [t])
  {
    var more := ts + [t];
    forall r: nat | r < |more|
      ensures SubSession.Stands(L, r, more[r], SubExchange.Init(L)[r].ghostNumbers)
    {
      assert r < |ts| ==> more[r] == ts[r];
    }
  }

  /** The tables of process r. */
  method ConstructRank(ghost P: Parent, r: nat, visits: seq<seq<nat>>, l2gs: seq<seq<int>>, lsizes: seq<nat>,
                       begins: seq<nat>) returns (t: SubNumbering)
    requires ParentOk(P) && |visits| == |P.nbs| && FromParent(P, visits, l2gs) && lsizes == P.lsizes
    requires SubRuns.AreBegins(SubSession.Layout(P), begins) && r < |P.nbs|
    ensures var L := SubSession.Layout(P);
      fresh(t) && |L.nbs| == |L.ghosts| && SubSession.Stands(L, r, t, SubExchange.Init(L)[r].ghostNumbers)
  {
    t := SubSession.Construct(P, r, visits[r], l2gs[r], lsizes[r], begins[r]);
  }

  method ConstructAll(ghost P: Parent, visits: seq<seq<nat>>, l2gs: seq<seq<int>>, lsizes: seq<nat>, begins: seq<nat>)
    returns (ts: seq<SubNumbering>)
    requires ParentOk(P) && |visits| == |P.nbs| && FromParent(P, visits, l2gs) && lsizes == P.lsizes
    requires SubRuns.AreBegins(SubSession.Layout(P), begins)
    ensures fresh(ts) && SubRuns.Separate(ts)
    ensures |ts| == |P.nbs| && FirstStand(SubSession.Layout(P), ts)
  {
    ghost var L := SubSession.Layout(P);
    ts := [];
    while |ts| < |visits|
      invariant FirstStand(L, ts) && fresh(ts) && SubRuns.Separate(ts)
    {
      var t := ConstructRank(P, |ts|, visits, l2gs, lsizes, begins);
      OneMoreStands(L, ts, t);
      ts := ts + [t];
    }
  }

  /** Construction and exchange: the tables end as the final state of the run says. */
  method RunSub(ghost P: Parent, visits: seq<seq<nat>>, l2gs: seq<seq<int>>, lsizes: seq<nat>, begins: seq<nat>,
                L: SubSession.GoodSubLayout, ghost run: seq<SubExchange.SubSystem>, sched: seq<SubRuns.Message>)
    returns (ts: seq<SubNumbering>)
    requires ParentOk(P) && |visits| == |P.nbs| && FromParent(P, visits, l2gs) && lsizes == P.lsizes
    requires L == SubSession.Layout(P) && SubRuns.AreBegins(L, begins)
    requires SubExchange.IsRun(L, run) && SubRuns.Schedules(L, run, sched)
    ensures SubRuns.AllStand(L, ts, run[|run| - 1])
  {
    ts := ConstructAll(P, visits, l2gs, lsizes, begins);
    assert SubRuns.AllStand(L, ts, run[0]);
    SubRuns.FollowRun(L, ts, begins, run, sched);
  }

  /** The sub-handler on all processes, from the parent's tables, over any run of its exchange; what its
      tables hold after a complete run is said by SubRuns.TablesAfter. */
  method CreateSub(ghost x: GoodCase, m: GoodMesh, parts: seq<seq<seq<Dof>>>, a: nat, ranks: seq<Rank>,
                   lsizes: seq<nat>,
                   begins: seq<nat>, L: SubSession.GoodSubLayout, ghost run: seq<SubExchange.SubSystem>,
                   sched: seq<SubRuns.Message>) returns (ts: seq<SubNumbering>)
    requires m == x.m && parts == x.parts && a == x.a && ParentDone(x, ranks)
    requires lsizes == LocalSizes(m) && L == LayoutOfCase(x) && SubRuns.AreBegins(L, begins)
    requires SubExchange.IsRun(L, run) && SubRuns.Schedules(L, run, sched)
    ensures SubRuns.AllStand(L, ts, run[|run| - 1])
  {
    var sub := ComponentDofs(parts, a);
    var visits, l2gs := ReadParent(x, m, sub, ranks);
    ts := RunSub(ParentOfCase(x), visits, l2gs, lsizes, begins, L, run, sched);
  }
}
