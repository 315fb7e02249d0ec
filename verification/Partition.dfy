/** Own and ghost cells of a process (DOFHandlerMultiDim::make_elem_partitioning and the cell
    accessors). The ghost list is first given as a function of the mesh, then computed by the
    loops of the source. */
module Partition {
  import opened Lists
  import opened MeshModel
  import Handshake

  // ---- ghost cells as a function of the mesh ----------------------------------------------

  predicate Coupled(m: Mesh, c: nat, d: nat) {
    Coupling(c, d) in m.couplings || Coupling(d, c) in m.couplings
  }

  /** A foreign cell that shares a tree node, or is coupled, with an own cell of process r. */
  ghost predicate IsGhost(m: Mesh, r: nat, c: nat)
    requires |m.proc| == |m.cells|
  {
    && c < |m.cells| && m.proc[c] != r
    && exists d: nat :: d < |m.cells| && m.proc[d] == r && (Adjacent(m, c, d) || Coupled(m, c, d))
  }

  /** Node n belongs to an own cell of process r. */
  ghost predicate LocalNode(m: Mesh, r: nat, n: nat)
    requires |m.proc| == |m.cells|
  {
    exists d: nat :: d < |m.cells| && m.proc[d] == r && n in m.cells[d].nodes
  }

  ghost predicate Touches(m: Mesh, r: nat, c: nat)
    requires |m.proc| == |m.cells| && c < |m.cells|
  {
    m.proc[c] != r && exists n :: n in m.cells[c].nodes && LocalNode(m, r, n)
  }

  /** Ghosts found through nodes among the first n cells. */
  ghost function NodeGhosts(m: GoodMesh, r: nat, n: nat): seq<nat>
    requires n <= |m.cells|
  {
    if n == 0 then []
    else NodeGhosts(m, r, n - 1) + (if Touches(m, r, n - 1) then [n - 1] else [])
  }

  /** Add a cell unless it is own or already listed. */
  function AddGhost(m: Mesh, r: nat, g: seq<nat>, c: nat): seq<nat>
    requires c < |m.proc|
  {
    if m.proc[c] != r && c !in g then g + [c] else g
  }

  function AddEnds(m: Mesh, r: nat, g: seq<nat>, b: Coupling): seq<nat>
    requires b.lower < |m.proc| && b.higher < |m.proc|
  {
    AddGhost(m, r, AddGhost(m, r, g, b.lower), b.higher)
  }

  /** Go through the first k couplings that have an own cell at one end. */
  function CouplingGhosts(m: Mesh, r: nat, g: seq<nat>, k: nat): seq<nat>
    requires CouplingsOk(m) && k <= |m.couplings|
  {
    if k == 0 then g
    else
      var h := CouplingGhosts(m, r, g, k - 1);
      var b := m.couplings[k - 1];
      if m.proc[b.lower] == r || m.proc[b.higher] == r then AddEnds(m, r, h, b) else h
  }

  /** The ghost cells of process r, in the order of the source. */
  ghost function Ghosts(m: GoodMesh, r: nat): seq<nat>
  {
    CouplingGhosts(m, r, NodeGhosts(m, r, |m.cells|), |m.couplings|)
  }

  lemma TouchesIsAdjacent(m: GoodMesh, r: nat, c: nat)
    requires c < |m.cells|
    ensures Touches(m, r, c) <==>
      m.proc[c] != r && exists d: nat :: d < |m.cells| && m.proc[d] == r && Adjacent(m, c, d)
  {
    if Touches(m, r, c) {
      var n :| n in m.cells[c].nodes && LocalNode(m, r, n);
      var d: nat :| d < |m.cells| && m.proc[d] == r && n in m.cells[d].nodes;
      assert Adjacent(m, c, d);
    }
    if d: nat :| d < |m.cells| && m.proc[d] == r && Adjacent(m, c, d) {
      var n :| n in m.cells[c].nodes && n in m.cells[d].nodes;
      assert LocalNode(m, r, n);
    }
  }

  lemma {:induction false} NodeGhostsExact(m: GoodMesh, r: nat, n: nat)
    requires n <= |m.cells|
    ensures Distinct(NodeGhosts(m, r, n))
    ensures forall c: nat :: c in NodeGhosts(m, r, n) <==> c < n && Touches(m, r, c)
  {
    if n > 0 {
      NodeGhostsExact(m, r, n - 1);
      DistinctAppend(NodeGhosts(m, r, n - 1), if Touches(m, r, n - 1) then [n - 1] else []);
    }
  }

  /** Some coupling among the first k links cell c to an own cell. */
  ghost predicate CoupledWithin(m: GoodMesh, r: nat, c: nat, k: nat)
    requires k <= |m.couplings|
  {
    exists j, d: nat :: 0 <= j < k && d < |m.cells| && m.proc[d] == r
      && (m.couplings[j] == Coupling(c, d) || m.couplings[j] == Coupling(d, c))
  }

  lemma {:induction false} CouplingGhostsExact(m: GoodMesh, r: nat, g: seq<nat>, k: nat)
    requires k <= |m.couplings| && Distinct(g)
    requires forall c :: c in g ==> c < |m.cells| && m.proc[c] != r
    ensures Distinct(CouplingGhosts(m, r, g, k))
    ensures forall c: nat :: c in CouplingGhosts(m, r, g, k) <==>
      c in g || (c < |m.cells| && m.proc[c] != r && CoupledWithin(m, r, c, k))
  {
    if k > 0 {
      CouplingGhostsExact(m, r, g, k - 1);
      var h, t := CouplingGhosts(m, r, g, k - 1), CouplingGhosts(m, r, g, k);
      var b := m.couplings[k - 1];
      assert b in m.couplings;
      forall c: nat
        ensures c in t <==> c in g || (c < |m.cells| && m.proc[c] != r && CoupledWithin(m, r, c, k))
      {
        if c < |m.cells| && m.proc[c] != r {
          CoupledStep(m, r, c, k);
        }
      }
    }
  }

  lemma CoupledStep(m: GoodMesh, r: nat, c: nat, k: nat)
    requires 0 < k <= |m.couplings| && c < |m.cells| && m.proc[c] != r
    ensures CoupledWithin(m, r, c, k) <==> CoupledWithin(m, r, c, k - 1) || CoupledBy(m, r, c, m.couplings[k - 1])
  {
    var b := m.couplings[k - 1];
    assert b in m.couplings;
    if CoupledWithin(m, r, c, k) && !CoupledBy(m, r, c, b) {
      CoupledBefore(m, r, c, k);
    }
    if CoupledWithin(m, r, c, k - 1) {
      var j, d: nat :| 0 <= j < k - 1 && d < |m.cells| && m.proc[d] == r
        && (m.couplings[j] == Coupling(c, d) || m.couplings[j] == Coupling(d, c));
    } else if CoupledBy(m, r, c, b) {
      var d := if b.lower == c && m.proc[b.higher] == r then b.higher else b.lower;
      assert m.couplings[k - 1] == Coupling(c, d) || m.couplings[k - 1] == Coupling(d, c);
    }
  }

  lemma CoupledBefore(m: GoodMesh, r: nat, c: nat, k: nat)
    requires 0 < k <= |m.couplings| && c < |m.cells|
    requires CoupledWithin(m, r, c, k) && !CoupledBy(m, r, c, m.couplings[k - 1])
    ensures CoupledWithin(m, r, c, k - 1)
  {
    var j, d: nat :| 0 <= j < k && d < |m.cells| && m.proc[d] == r
      && (m.couplings[j] == Coupling(c, d) || m.couplings[j] == Coupling(d, c));
    assert m.couplings[j] in m.couplings && j < k - 1;
  }

  /** Coupling b joins cell c to a cell of process r. */
  ghost predicate CoupledBy(m: GoodMesh, r: nat, c: nat, b: Coupling)
    requires b in m.couplings
  {
    (b.lower == c && m.proc[b.higher] == r) || (b.higher == c && m.proc[b.lower] == r)
  }

  lemma CoupledWithinAll(m: GoodMesh, r: nat, c: nat)
    requires c < |m.cells|
    ensures CoupledWithin(m, r, c, |m.couplings|) <==>
      exists d: nat :: d < |m.cells| && m.proc[d] == r && Coupled(m, c, d)
  {
    if CoupledWithin(m, r, c, |m.couplings|) {
      var j, d: nat :| 0 <= j < |m.couplings| && d < |m.cells| && m.proc[d] == r
        && (m.couplings[j] == Coupling(c, d) || m.couplings[j] == Coupling(d, c));
      assert Coupled(m, c, d);
    }
    if d: nat :| d < |m.cells| && m.proc[d] == r && Coupled(m, c, d) {
      var j :| 0 <= j < |m.couplings|
        && (m.couplings[j] == Coupling(c, d) || m.couplings[j] == Coupling(d, c));
      assert CoupledWithin(m, r, c, |m.couplings|);
    }
  }

  lemma GhostByNodeOrCoupling(m: GoodMesh, r: nat, c: nat)
    requires c < |m.cells| && m.proc[c] != r
    ensures IsGhost(m, r, c) <==> Touches(m, r, c) || CoupledWithin(m, r, c, |m.couplings|)
  {
    TouchesIsAdjacent(m, r, c);
    CoupledWithinAll(m, r, c);
  }

  /** The ghost list holds exactly the foreign cells that share a node, or are coupled, with an
      own cell, each once. */
  lemma GhostsExact(m: GoodMesh, r: nat)
    ensures Distinct(Ghosts(m, r))
    ensures forall c: nat :: c in Ghosts(m, r) <==> IsGhost(m, r, c)
    ensures forall i :: 0 <= i < |Ghosts(m, r)| ==> Ghosts(m, r)[i] < |m.cells|
  {
    var g := NodeGhosts(m, r, |m.cells|);
    NodeGhostsExact(m, r, |m.cells|);
    CouplingGhostsExact(m, r, g, |m.couplings|);
    forall c: nat
      ensures c in Ghosts(m, r) <==> IsGhost(m, r, c)
    {
      if c < |m.cells| && m.proc[c] != r {
        GhostByNodeOrCoupling(m, r, c);
      }
    }
    forall i | 0 <= i < |Ghosts(m, r)|
      ensures Ghosts(m, r)[i] < |m.cells|
    {
      assert Ghosts(m, r)[i] in Ghosts(m, r);
    }
  }

  // ---- local cells ------------------------------------------------------------------------

  /** Own cells followed by ghost cells: entry l is the cell with local index l
      (DHCellAccessor::elm_idx). */
  ghost function LocalCells(m: GoodMesh, r: nat): seq<nat>
    requires r < |m.own|
  {
    m.own[r] + Ghosts(m, r)
  }

  /** Local index and cell determine each other. */
  lemma LocalCellsDistinct(m: GoodMesh, r: nat)
    requires r < |m.own|
    ensures Distinct(LocalCells(m, r))
    ensures forall c: nat :: c in LocalCells(m, r) ==> c < |m.cells|
    ensures forall c: nat :: c in m.own[r] <==> c < |m.cells| && m.proc[c] == r
  {
    forall c: nat | c < |m.cells| && m.proc[c] == r
      ensures c in m.own[r]
    {
      assert c in m.own[m.proc[c]];
    }
    GhostsExact(m, r);
    DistinctAppend(m.own[r], Ghosts(m, r));
  }

  /** The cells of a list that belong to process q (`ghost_proc_el[q]`). */
  function OfProc(m: Mesh, cells: seq<nat>, q: nat): (s: seq<nat>)
    requires forall i :: 0 <= i < |cells| ==> cells[i] < |m.proc|
    ensures forall c: nat :: c in s <==> c in cells && m.proc[c] == q
  {
    if cells == [] then []
    else
      var rest := OfProc(m, cells[..|cells| - 1], q);
      var c := cells[|cells| - 1];
      assert cells == cells[..|cells| - 1] + [c];
      if m.proc[c] == q then rest + [c] else rest
  }

  lemma OfProcAppend(m: Mesh, cells: seq<nat>, c: nat, q: nat)
    requires forall i :: 0 <= i < |cells| ==> cells[i] < |m.proc|
    requires c < |m.proc|
    ensures OfProc(m, cells + [c], q) == OfProc(m, cells, q) + (if m.proc[c] == q then [c] else [])
  {
    assert (cells + [c])[..|cells|] == cells;
  }

  lemma {:induction false} OfProcDistinct(m: Mesh, cells: seq<nat>, q: nat)
    requires forall i :: 0 <= i < |cells| ==> cells[i] < |m.proc|
    requires Distinct(cells)
    ensures Distinct(OfProc(m, cells, q))
  {
    if cells != [] {
      var rest, c := cells[..|cells| - 1], cells[|cells| - 1];
      OfProcDistinct(m, rest, q);
      assert c !in rest;
      DistinctAppend(OfProc(m, rest, q), if m.proc[c] == q then [c] else []);
    }
  }

  lemma AscendingAppend(s: seq<nat>, x: nat)
    requires Handshake.Ascending(s) && forall y: nat :: y in s ==> y < x
    ensures Handshake.Ascending(s + [x])
  {
    forall i, j | 0 <= i < j < |s + [x]|
      ensures (s + [x])[i] < (s + [x])[j]
    {
      assert s[i] in s;
    }
  }

  /** The cells that process r requests from process q. */
  ghost function Wanted(m: GoodMesh, r: nat, q: nat): (s: seq<nat>)
    ensures Distinct(s)
    ensures forall c: nat :: c in s <==> IsGhost(m, r, c) && m.proc[c] == q
    ensures forall j :: 0 <= j < |s| ==> s[j] < |m.cells| && m.proc[s[j]] == q && q != r
  {
    GhostsExact(m, r);
    OfProcDistinct(m, Ghosts(m, r), q);
    var s := OfProc(m, Ghosts(m, r), q);
    assert forall j :: 0 <= j < |s| ==> s[j] in s && IsGhost(m, r, s[j]);
    s
  }

  /** The processes below n that own a ghost cell of r, ascending (`ghost_proc`). */
  ghost function NeighboursBelow(m: GoodMesh, r: nat, n: nat): (s: seq<nat>)
    ensures Handshake.Ascending(s)
    ensures forall q: nat :: q in s <==> q < n && Wanted(m, r, q) != []
  {
    if n == 0 then []
    else
      var s := NeighboursBelow(m, r, n - 1);
      AscendingAppend(s, n - 1);
      if Wanted(m, r, n - 1) != [] then s + [n - 1] else s
  }

  ghost function Neighbours(m: GoodMesh): (nbs: seq<seq<nat>>)
    ensures |nbs| == |m.own|
    ensures forall r :: 0 <= r < |m.own| ==> nbs[r] == NeighboursBelow(m, r, |m.own|)
  {
    seq(|m.own|, (r: nat) requires r < |m.own| => NeighboursBelow(m, r, |m.own|))
  }

  lemma IsGhostSymmetric(m: GoodMesh, r: nat, c: nat) returns (d: nat)
    requires IsGhost(m, r, c)
    ensures d < |m.cells| && m.proc[d] == r && IsGhost(m, m.proc[c], d)
    ensures Adjacent(m, c, d) || Coupled(m, c, d)
  {
    d :| d < |m.cells| && m.proc[d] == r && (Adjacent(m, c, d) || Coupled(m, c, d));
    assert Adjacent(m, c, d) ==> Adjacent(m, d, c);
    assert Coupled(m, c, d) ==> Coupled(m, d, c);
  }

  /** Being a ghost neighbour is symmetric, so the exchange has two ends everywhere. */
  lemma NeighboursFormNetwork(m: GoodMesh)
    ensures Handshake.Network(Neighbours(m))
  {
    var nbs := Neighbours(m);
    forall r, q | 0 <= r < |nbs| && q in nbs[r]
      ensures q < |nbs| && q != r && r in nbs[q]
    {
      var c := Wanted(m, r, q)[0];
      assert c in Wanted(m, r, q);
      var d := IsGhostSymmetric(m, r, c);
      assert d in Wanted(m, q, r);
    }
  }

  // ---- the loops of the source ------------------------------------------------------------

  /** The per-process tables split the ghost list g by process. */
  ghost predicate SplitsByProcess(m: Mesh, g: seq<nat>, procs: set<nat>, procEl: map<nat, seq<nat>>)
    requires |m.proc| == |m.cells|
  {
    && (forall i :: 0 <= i < |g| ==> g[i] < |m.cells|)
    && procs == procEl.Keys
    && (forall q: nat :: (if q in procEl then procEl[q] else []) == OfProc(m, g, q))
    && (forall q :: q in procEl ==> procEl[q] != [])
  }

  /** The map sends every entry of s to its position, and has no other keys. */
  ghost predicate Inverts(index: map<nat, nat>, s: seq<nat>) {
    && (forall l :: 0 <= l < |s| ==> s[l] in index && index[s[l]] == l)
    && (forall c :: c in index ==> index[c] < |s| && s[index[c]] == c)
  }

  lemma SplitAppend(m: Mesh, g: seq<nat>, procs: set<nat>, procEl: map<nat, seq<nat>>, c: nat)
    requires |m.proc| == |m.cells| && c < |m.cells| && SplitsByProcess(m, g, procs, procEl)
    ensures var q := m.proc[c];
      SplitsByProcess(m, g + [c], procs + {q},
                      procEl[q := (if q in procEl then procEl[q] else []) + [c]])
  {
    forall p: nat
      ensures OfProc(m, g + [c], p) == OfProc(m, g, p) + (if m.proc[c] == p then [c] else [])
    {
      OfProcAppend(m, g, c, p);
    }
  }

  lemma InvertAppend(index: map<nat, nat>, s: seq<nat>, c: nat)
    requires Inverts(index, s) && c !in s
    ensures Inverts(index[c := |s|], s + [c])
  {
  }

  /** The tables by process with one more cell. */
  method PushByProcess(m: Mesh, ghost ghosts: seq<nat>, procs: set<nat>, procEl: map<nat, seq<nat>>, c: nat)
    returns (procs': set<nat>, procEl': map<nat, seq<nat>>)
    requires |m.proc| == |m.cells| && c < |m.cells| && SplitsByProcess(m, ghosts, procs, procEl)
    ensures SplitsByProcess(m, ghosts + [c], procs', procEl')
  {
    var q := m.proc[c];
    procs' := procs + {q};
    procEl' := procEl[q := (if q in procEl then procEl[q] else []) + [c]];
    SplitAppend(m, ghosts, procs, procEl, c);
  }

  /** The map of local indices with one more cell. */
  method PushIndex(nOwn: nat, nGhosts: nat, ghost own: seq<nat>, ghost ghosts: seq<nat>, index: map<nat, nat>, c: nat)
    returns (index': map<nat, nat>)
    requires nOwn == |own| && nGhosts == |ghosts| + 1 && Inverts(index, own + ghosts) && c !in own && c !in ghosts
    ensures Inverts(index', own + (ghosts + [c]))
  {
    index' := index[c := nOwn - 1 + nGhosts];
    InvertAppend(index, own + ghosts, c);
    assert own + (ghosts + [c]) == (own + ghosts) + [c];
  }

  /** The tables by process of all ghosts: the neighbours, and what is wanted from each. */
  lemma SplitIsWanted(m: GoodMesh, r: nat, procs: set<nat>, procEl: map<nat, seq<nat>>)
    requires r < |m.own| && SplitsByProcess(m, Ghosts(m, r), procs, procEl)
    ensures forall q: nat :: q < |m.own| ==> (q in procs <==> q in Neighbours(m)[r])
    ensures forall q: nat :: q in procs ==> procEl[q] == Wanted(m, r, q)
  {
    forall q: nat
      ensures (if q in procEl then procEl[q] else []) == Wanted(m, r, q)
    {
      assert OfProc(m, Ghosts(m, r), q) == Wanted(m, r, q);
    }
  }

  ghost predicate AreCouplings(m: Mesh, nbs: seq<nat>) {
    forall k :: 0 <= k < |nbs| ==> nbs[k] < |m.couplings|
  }

  type Adding = (seq<nat>, nat) -> seq<nat>

  /** Apply a step for the first k entries of a list. */
  ghost function Fold(add: Adding, g: seq<nat>, nbs: seq<nat>, k: nat): seq<nat>
    requires k <= |nbs|
  {
    if k == 0 then g else add(Fold(add, g, nbs, k - 1), nbs[k - 1])
  }

  lemma {:induction false} FoldPrefix(add: Adding, g: seq<nat>, a: seq<nat>, b: seq<nat>, k: nat)
    requires k <= |a| && a <= b
    ensures Fold(add, g, a, k) == Fold(add, g, b, k)
  {
    if k > 0 {
      FoldPrefix(add, g, a, b, k - 1);
    }
  }

  lemma FoldNext(add: Adding, g: seq<nat>, nbs: seq<nat>, k: nat, h: seq<nat>, next: seq<nat>)
    requires k < |nbs| && h == Fold(add, g, nbs, k) && next == add(h, nbs[k])
    ensures next == Fold(add, g, nbs, k + 1)
  {
  }

  /** Add both ends of a coupling. */
  ghost function EndsOf(m: Mesh, r: nat): Adding
    requires CouplingsOk(m)
  {
    (g: seq<nat>, i: nat) => if i < |m.couplings| then AddEnds(m, r, g, m.couplings[i]) else g
  }

  /** Add both ends of the first k listed couplings. */
  ghost function FollowNeighbours(m: Mesh, r: nat, g: seq<nat>, nbs: seq<nat>, k: nat): seq<nat>
    requires CouplingsOk(m) && k <= |nbs|
  {
    Fold(EndsOf(m, r), g, nbs, k)
  }

  lemma FollowNext(m: Mesh, r: nat, g: seq<nat>, nbs: seq<nat>, i: nat)
    requires CouplingsOk(m) && AreCouplings(m, nbs) && i < |m.couplings|
    requires CouplingGhosts(m, r, g, i) == FollowNeighbours(m, r, g, nbs, |nbs|)
    ensures var b := m.couplings[i];
      CouplingGhosts(m, r, g, i + 1)
        == if m.proc[b.lower] == r || m.proc[b.higher] == r then FollowNeighbours(m, r, g, nbs + [i], |nbs| + 1)
           else FollowNeighbours(m, r, g, nbs, |nbs|)
  {
    FoldPrefix(EndsOf(m, r), g, nbs, nbs + [i], |nbs|);
    var h, b := CouplingGhosts(m, r, g, i), m.couplings[i];
    assert EndsOf(m, r)(h, i) == AddEnds(m, r, h, b);
  }

  method NeighbourList(m: Mesh, r: nat) returns (nbs: seq<nat>)
    requires CouplingsOk(m)
    ensures AreCouplings(m, nbs)
    ensures forall g :: CouplingGhosts(m, r, g, |m.couplings|) == FollowNeighbours(m, r, g, nbs, |nbs|)
  {
    nbs := [];
    var i := 0;
    while i < |m.couplings|
      invariant i <= |m.couplings| && AreCouplings(m, nbs)
      invariant forall g :: CouplingGhosts(m, r, g, i) == FollowNeighbours(m, r, g, nbs, |nbs|)
    {
      var b := m.couplings[i];
      ghost var before, next := nbs, i + 1;
      if m.proc[b.lower] == r || m.proc[b.higher] == r {
        nbs := nbs + [i];
      }
      forall g
        ensures CouplingGhosts(m, r, g, next) == FollowNeighbours(m, r, g, nbs, |nbs|)
      {
        FollowNext(m, r, g, before, i);
      }
      i := i + 1;
    }
  }

  class ElementPartition {
    const m: GoodMesh
    const r: nat
    var edg4loc: seq<nat>
    var nb4loc: seq<nat>
    var ghost4loc: seq<nat>
    var ghostProc: set<nat>
    var ghostProcEl: map<nat, seq<nat>>
    var globalToLocal: map<nat, nat>

    constructor (m: GoodMesh, r: nat)
      ensures this.m == m && this.r == r
      ensures edg4loc == [] && nb4loc == [] && ghost4loc == [] && ghostProc == {}
      ensures ghostProcEl == map[] && globalToLocal == map[]
    {
      this.m, this.r := m, r;
      edg4loc, nb4loc, ghost4loc := [], [], [];
      ghostProc, ghostProcEl, globalToLocal := {}, map[], map[];
    }

    /** The ghost tables describe the ghost list g. */
    ghost predicate Lists(g: seq<nat>)
      requires |m.proc| == |m.cells| && r < |m.own|
      reads this
    {
      ghost4loc == g && SplitsByProcess(m, g, ghostProc, ghostProcEl) && Inverts(globalToLocal, m.own[r] + g)
    }

    /** Append one ghost cell to all four tables. */
    method PushGhost(c: nat)
      requires |m.proc| == |m.cells| && r < |m.own| && c < |m.cells|
      requires Lists(ghost4loc)
      requires c !in m.own[r] && c !in ghost4loc
      modifies this`ghost4loc, this`ghostProc, this`ghostProcEl, this`globalToLocal
      ensures ghost4loc == old(ghost4loc) + [c] && Lists(ghost4loc)
    {
      ghost var g := ghost4loc;
      ghost4loc := ghost4loc + [c];
      ghostProc, ghostProcEl := PushByProcess(m, g, ghostProc, ghostProcEl, c);
      globalToLocal := PushIndex(|m.own[r]|, |ghost4loc|, m.own[r], g, globalToLocal, c);
    }

    /** Own cells get the local indices 0, 1, ... */
    method MapOwnCells()
      requires r < |m.own|
      requires globalToLocal == map[] && ghost4loc == [] && ghostProcEl == map[] && ghostProc == {}
      modifies this`globalToLocal
      ensures Lists([])
    {
      var iel := 0;
      while iel < |m.own[r]|
        invariant iel <= |m.own[r]|
        invariant Inverts(globalToLocal, m.own[r][..iel])
      {
        assert Distinct(m.own[r]);
        assert m.own[r][..iel + 1] == m.own[r][..iel] + [m.own[r][iel]];
        globalToLocal := globalToLocal[m.own[r][iel] := iel];
        iel := iel + 1;
      }
      assert m.own[r][..iel] == m.own[r] == m.own[r] + [];
    }

    /** Edges with an own cell on one of their sides, ascending. */
    method ListEdges()
      requires edg4loc == []
      modifies this`edg4loc
      ensures Handshake.Ascending(edg4loc)
      ensures forall e: nat :: e in edg4loc <==>
        e < |m.edgeDim| && exists c: nat :: c < |m.cells| && m.proc[c] == r && e in m.cells[c].edges
    {
      var e := 0;
      while e < |m.edgeDim|
        invariant e <= |m.edgeDim| && Handshake.Ascending(edg4loc)
        invariant forall x: nat :: x in edg4loc <==>
          x < e && exists c: nat :: c < |m.cells| && m.proc[c] == r && x in m.cells[c].edges
      {
        var isLocal := false;
        var c := 0;
        while c < |m.cells|
          invariant c <= |m.cells|
          invariant isLocal <==> exists d: nat :: d < c && m.proc[d] == r && e in m.cells[d].edges
        {
          if e in m.cells[c].edges && m.proc[c] == r {
            isLocal := true;
            break;
          }
          c := c + 1;
        }
        if isLocal {
          AscendingAppend(edg4loc, e);
          edg4loc := edg4loc + [e];
        }
        e := e + 1;
      }
    }

    /** Which nodes belong to own cells. */
    method MarkLocalNodes() returns (isLocal: seq<bool>)
      requires r < |m.own|
      ensures |isLocal| == |m.nodeDim|
      ensures forall n :: 0 <= n < |isLocal| ==> (isLocal[n] <==> LocalNode(m, r, n))
    {
      isLocal := seq(|m.nodeDim|, _ => false);
      var l := 0;
      while l < |m.own[r]|
        invariant l <= |m.own[r]| && |isLocal| == |m.nodeDim|
        invariant forall n :: 0 <= n < |isLocal| ==>
          (isLocal[n] <==> exists j :: 0 <= j < l && n in m.cells[m.own[r][j]].nodes)
      {
        var cell := m.cells[m.own[r][l]];
        ghost var before := isLocal;
        var i := 0;
        while i < |cell.nodes|
          invariant i <= |cell.nodes| && |isLocal| == |m.nodeDim|
          invariant forall n :: 0 <= n < |isLocal| ==> (isLocal[n] <==> before[n] || n in cell.nodes[..i])
        {
          assert CellOk(m, cell) && cell.nodes[i] in cell.nodes;
          assert cell.nodes[..i + 1] == cell.nodes[..i] + [cell.nodes[i]];
          isLocal := isLocal[cell.nodes[i] := true];
          i := i + 1;
        }
        assert cell.nodes[..i] == cell.nodes;
        l := l + 1;
      }
      forall n: nat | n < |isLocal|
        ensures isLocal[n] <==> LocalNode(m, r, n)
      {
        if LocalNode(m, r, n) {
          var d: nat :| d < |m.cells| && m.proc[d] == r && n in m.cells[d].nodes;
          assert d in m.own[m.proc[d]];
        }
      }
    }

    /** Does a cell have a node of an own cell? */
    method HasLocalNode(c: nat, isLocal: seq<bool>) returns (has: bool)
      requires c < |m.cells| && |isLocal| == |m.nodeDim|
      requires forall n :: 0 <= n < |isLocal| ==> (isLocal[n] <==> LocalNode(m, r, n))
      ensures has <==> exists n :: n in m.cells[c].nodes && LocalNode(m, r, n)
    {
      var nodes := m.cells[c].nodes;
      assert CellOk(m, m.cells[c]);
      has := false;
      var i := 0;
      while i < |nodes|
        invariant i <= |nodes|
        invariant has <==> exists j: nat :: j < i && LocalNode(m, r, nodes[j])
      {
        assert nodes[i] in nodes;
        if isLocal[nodes[i]] {
          has := true;
          break;
        }
        i := i + 1;
      }
    }

    method PushIfTouching(c: nat, isLocal: seq<bool>)
      requires r < |m.own| && c < |m.cells| && Lists(NodeGhosts(m, r, c))
      requires |isLocal| == |m.nodeDim|
      requires forall n :: 0 <= n < |isLocal| ==> (isLocal[n] <==> LocalNode(m, r, n))
      modifies this`ghost4loc, this`ghostProc, this`ghostProcEl, this`globalToLocal
      ensures Lists(NodeGhosts(m, r, c + 1))
    {
      NodeGhostsExact(m, r, c);
      if m.proc[c] != r {
        var hasLocalNode := HasLocalNode(c, isLocal);
        if hasLocalNode {
          PushGhost(c);
        }
      }
    }

    /** Foreign cells with a node of an own cell, in the order of cell indices. */
    method ListNodeGhosts(isLocal: seq<bool>)
      requires r < |m.own| && Lists([])
      requires |isLocal| == |m.nodeDim|
      requires forall n :: 0 <= n < |isLocal| ==> (isLocal[n] <==> LocalNode(m, r, n))
      modifies this`ghost4loc, this`ghostProc, this`ghostProcEl, this`globalToLocal
      ensures Lists(NodeGhosts(m, r, |m.cells|))
    {
      var c := 0;
      while c < |m.cells|
        invariant c <= |m.cells| && Lists(NodeGhosts(m, r, c))
      {
        PushIfTouching(c, isLocal);
        c := c + 1;
      }
    }

    /** Couplings with an own cell at one end. */
    method ListNeighbours()
      requires nb4loc == []
      modifies this`nb4loc
      ensures AreCouplings(m, nb4loc)
      ensures forall g :: CouplingGhosts(m, r, g, |m.couplings|) == FollowNeighbours(m, r, g, nb4loc, |nb4loc|)
    {
      nb4loc := NeighbourList(m, r);
    }

    /** Own cells are those of the process. */
    ghost predicate OwnOk()
      requires r < |m.own|
    {
      |m.proc| == |m.cells| && forall c: nat :: c in m.own[r] ==> c < |m.cells| && m.proc[c] == r
    }

    method PushUnlessLocal(c: nat)
      requires r < |m.own| && OwnOk() && c < |m.cells|
      requires Lists(ghost4loc)
      modifies this`ghost4loc, this`ghostProc, this`ghostProcEl, this`globalToLocal
      ensures ghost4loc == AddGhost(m, r, old(ghost4loc), c) && Lists(ghost4loc)
    {
      if m.proc[c] != r && c !in ghost4loc {
        PushGhost(c);
      }
    }

    method PushEnds(b: Coupling)
      requires r < |m.own| && OwnOk() && b.lower < |m.cells| && b.higher < |m.cells|
      requires Lists(ghost4loc)
      modifies this`ghost4loc, this`ghostProc, this`ghostProcEl, this`globalToLocal
      ensures ghost4loc == AddEnds(m, r, old(ghost4loc), b) && Lists(ghost4loc)
    {
      PushUnlessLocal(b.lower);
      PushUnlessLocal(b.higher);
    }

    method PushNeighbour(i: nat)
      requires r < |m.own| && OwnOk() && CouplingsOk(m) && i < |m.couplings|
      requires Lists(ghost4loc)
      modifies this`ghost4loc, this`ghostProc, this`ghostProcEl, this`globalToLocal
      ensures ghost4loc == EndsOf(m, r)(old(ghost4loc), i) && Lists(ghost4loc)
    {
      PushEnds(m.couplings[i]);
    }

    method PushListed(k: nat, ghost g: seq<nat>)
      requires r < |m.own| && OwnOk() && CouplingsOk(m) && AreCouplings(m, nb4loc) && k < |nb4loc|
      requires Lists(FollowNeighbours(m, r, g, nb4loc, k))
      modifies this`ghost4loc, this`ghostProc, this`ghostProcEl, this`globalToLocal
      ensures Lists(FollowNeighbours(m, r, g, nb4loc, k + 1))
    {
      ghost var h := ghost4loc;
      PushNeighbour(nb4loc[k]);
      FoldNext(EndsOf(m, r), g, nb4loc, k, h, ghost4loc);
    }

    /** Cells at the other end of the listed couplings. */
    method ListCouplingGhosts()
      requires r < |m.own| && OwnOk() && CouplingsOk(m) && Lists(ghost4loc) && AreCouplings(m, nb4loc)
      modifies this`ghost4loc, this`ghostProc, this`ghostProcEl, this`globalToLocal
      ensures Lists(FollowNeighbours(m, r, old(ghost4loc), nb4loc, |nb4loc|))
    {
      ghost var g := ghost4loc;
      var k := 0;
      while k < |nb4loc|
        invariant k <= |nb4loc| && Lists(FollowNeighbours(m, r, g, nb4loc, k))
      {
        PushListed(k, g);
        k := k + 1;
      }
    }

    /** The whole partitioning: the tables describe the ghost list of the mesh, and the map from
        cells to local indices inverts the list of local cells. */
    method MakeElemPartitioning()
      requires r < |m.own|
      requires edg4loc == [] && nb4loc == [] && ghost4loc == []
      requires ghostProc == {} && ghostProcEl == map[] && globalToLocal == map[]
      modifies this
      ensures Lists(Ghosts(m, r))
      ensures Inverts(globalToLocal, LocalCells(m, r))
      ensures forall q: nat :: q < |m.own| ==> (q in ghostProc <==> q in Neighbours(m)[r])
      ensures forall q: nat :: q in ghostProc ==> ghostProcEl[q] == Wanted(m, r, q)
      ensures forall e: nat :: e in edg4loc <==>
        e < |m.edgeDim| && exists c: nat :: c < |m.cells| && m.proc[c] == r && e in m.cells[c].edges
    {
      ListEdges();
      ListNeighbours();
      MapOwnCells();
      var isLocal := MarkLocalNodes();
      ListNodeGhosts(isLocal);
      ListCouplingGhosts();
      SplitIsWanted(m, r, ghostProc, ghostProcEl);
    }
  }
}
