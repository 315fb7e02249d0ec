/** The sub-handler of a component of a mesh's finite-element system: its hypotheses hold after
    every complete run of the parent's exchange, and the sub-numbers of its ghost dofs are right
    exactly when their owners are ghost neighbours or parent and sub-number coincide. */
module SubMesh {
  import opened Lists
  import opened MeshModel
  import opened Numbering
  import opened Partition
  import opened Exchange
  import opened Distribute
  import opened Component
  import opened SubDistribute
  import Sequential
  import SubExchange

  /** Component a exists in every dimension. */
  ghost predicate ComponentOk(m: Mesh, parts: seq<seq<seq<Dof>>>, a: nat) {
    Systems(m, parts) && forall d :: 0 <= d < |parts| ==> a < |parts[d]|
  }

  lemma ComponentRange(m: GoodMesh, parts: seq<seq<seq<Dof>>>, a: nat, c: nat)
    requires ComponentOk(m, parts, a) && c < |m.cells|
    ensures m.cells[c].dim < |parts| && a < |parts[m.cells[c].dim]|
    ensures var p := parts[m.cells[c].dim];
      Start(Sequential.Lengths(p), a) <= Start(Sequential.Lengths(p), a + 1) <= |CellDofs(m, c)|
  {
    var p := parts[m.cells[c].dim];
    assert CellOk(m, m.cells[c]) && SystemOf(m.fe[m.cells[c].dim], p, m.cells[c].dim);
    Sequential.FlattenBlock(p, a);
  }

  /** Slot s is dof i of cell c, in component a. */
  ghost predicate CompSlot(m: GoodMesh, parts: seq<seq<seq<Dof>>>, a: nat, c: nat, i: nat, s: Slot)
    requires ComponentOk(m, parts, a) && c < |m.cells|
  {
    i < |CellDofs(m, c)| && InComponent(parts[m.cells[c].dim], a, i) && SlotOf(m, c, i) == s
  }

  /** Slots of the component's dofs on cell c. */
  ghost function CompRow(m: GoodMesh, parts: seq<seq<seq<Dof>>>, a: nat, c: nat): (row: seq<Slot>)
    requires ComponentOk(m, parts, a) && c < |m.cells|
  {
    ComponentRange(m, parts, a, c);
    var lens := Sequential.Lengths(parts[m.cells[c].dim]);
    CellSlots(m, c)[Start(lens, a)..Start(lens, a + 1)]
  }

  lemma CompRowExact(m: GoodMesh, parts: seq<seq<seq<Dof>>>, a: nat, c: nat, s: Slot)
    requires ComponentOk(m, parts, a) && c < |m.cells|
    ensures s in CompRow(m, parts, a, c) <==> exists i: nat :: CompSlot(m, parts, a, c, i, s)
  {
    ComponentRange(m, parts, a, c);
    var row, lo := CompRow(m, parts, a, c), Start(Sequential.Lengths(parts[m.cells[c].dim]), a);
    if s in row {
      assert CompSlot(m, parts, a, c, lo + Pos(row, s), s);
    }
    if i: nat :| CompSlot(m, parts, a, c, i, s) {
      assert row[i - lo] == s;
    }
  }

  /** The dofs of a component are those after the dofs of all components before it, and they are the
      dofs of that component's element. */
  lemma ComponentRow(m: GoodMesh, parts: seq<seq<seq<Dof>>>, a: nat, c: nat)
    requires ComponentOk(m, parts, a) && c < |m.cells|
    ensures m.cells[c].dim < |parts| && a < |parts[m.cells[c].dim]|
    ensures var p := parts[m.cells[c].dim];
      && |CompRow(m, parts, a, c)| == |p[a]| && |Sequential.Flatten(p[..a])| + |p[a]| <= |CellDofs(m, c)|
      && forall i: nat :: i < |p[a]| ==>
        && CellDofs(m, c)[|Sequential.Flatten(p[..a])| + i] == p[a][i]
        && CompRow(m, parts, a, c)[i] == SlotOf(m, c, |Sequential.Flatten(p[..a])| + i)
  {
    ComponentRange(m, parts, a, c);
    var p := parts[m.cells[c].dim];
    assert SystemOf(m.fe[m.cells[c].dim], p, m.cells[c].dim);
    PartOfSystem(CellDofs(m, c), p, a);
    Sequential.FlattenLength(p[..a]);
    StartAgree(Sequential.Lengths(p[..a]), Sequential.Lengths(p), a);
  }

  ghost function CompRows(m: GoodMesh, parts: seq<seq<seq<Dof>>>, a: nat, r: nat): (rows: seq<seq<Slot>>)
    requires ComponentOk(m, parts, a) && r < |m.own|
    ensures |rows| == |LocalCells(m, r)|
    ensures forall l :: 0 <= l < |rows| ==>
      LocalCells(m, r)[l] < |m.cells| && rows[l] == CompRow(m, parts, a, LocalCells(m, r)[l])
  {
    LocalCellsDistinct(m, r);
    var cells := LocalCells(m, r);
    assert forall l :: 0 <= l < |cells| ==> cells[l] in cells;
    seq(|cells|, l requires 0 <= l < |cells| => CompRow(m, parts, a, cells[l]))
  }

  /** What process r holds after the parent's exchange. */
  ghost predicate RankReady(m: GoodMesh, r: nat, t: Tables)
    requires r < |m.own|
  {
    && |t.slots| == |t.l2g| && Distinct(t.slots) && Local(m, r) <= t.slots && ProperMap(m, r, t.l2g)
    && (forall i :: 0 <= i < |t.slots| ==> IsSlot(m, t.slots[i]) && t.l2g[i] == Global(m, t.slots[i]))
    && (forall c: nat, i: nat :: c in LocalCells(m, r) && c < |m.cells| && i < |CellDofs(m, c)| ==>
          SlotOf(m, c, i) in t.slots)
  }

  ghost predicate Ready(m: GoodMesh, s: System)
  {
    |s| == |m.own| && forall r :: 0 <= r < |s| ==> RankReady(m, r, s[r].t)
  }

  lemma CompleteSlot(m: GoodMesh, run: seq<System>, r: nat, c: nat, i: nat)
    requires CompleteRun(m, run) && r < |m.own| && c in LocalCells(m, r) && c < |m.cells| && i < |CellDofs(m, c)|
    ensures |run[|run| - 1]| == |m.own| && SlotOf(m, c, i) in run[|run| - 1][r].t.slots
  {
    NumbersAgree(m, run, r, c, i);
    assert CellSlots(m, c)[i] in run[|run| - 1][r].t.slots;
  }

  lemma CompleteTables(m: GoodMesh, run: seq<System>, r: nat)
    requires CompleteRun(m, run) && r < |m.own|
    ensures |run[|run| - 1]| == |m.own|
    ensures var t := run[|run| - 1][r].t;
      && |t.slots| == |t.l2g| && Distinct(t.slots) && Local(m, r) <= t.slots && ProperMap(m, r, t.l2g)
      && forall i :: 0 <= i < |t.slots| ==> IsSlot(m, t.slots[i]) && t.l2g[i] == Global(m, t.slots[i])
  {
    var L, s := LayoutOf(m), run[|run| - 1];
    LayoutOfMeshOk(m);
    RunInv(L, run, |run| - 1);
    LocalToGlobalMap(m, run, |run| - 1, r);
    assert ProcOk(L, r, s[r]);
  }

  lemma CompleteRankReady(m: GoodMesh, run: seq<System>, r: nat)
    requires CompleteRun(m, run) && r < |m.own|
    ensures |run[|run| - 1]| == |m.own| && RankReady(m, r, run[|run| - 1][r].t)
  {
    CompleteTables(m, run, r);
    var t := run[|run| - 1][r].t;
    forall c: nat, i: nat | c in LocalCells(m, r) && c < |m.cells| && i < |CellDofs(m, c)|
      ensures SlotOf(m, c, i) in t.slots
    {
      CompleteSlot(m, run, r, c, i);
    }
  }

  ghost function Offsets(m: GoodMesh): (o: seq<int>)
    ensures |o| == |m.own| + 1 && forall r :: 0 <= r <= |m.own| ==> o[r] == Offset(m, r)
  {
    seq(|m.own| + 1, (r: nat) requires r <= |m.own| => Offset(m, r))
  }

  ghost function ParentOf(m: GoodMesh, parts: seq<seq<seq<Dof>>>, a: nat, s: System): (P: Parent)
    requires ComponentOk(m, parts, a) && |s| == |m.own|
    ensures P.nbs == Neighbours(m) && P.offsets == Offsets(m) && P.lsizes == LocalSizes(m)
    ensures |P.tables| == |m.own| && forall r :: 0 <= r < |m.own| ==> P.tables[r] == s[r].t
    ensures |P.rows| == |m.own| && forall r :: 0 <= r < |m.own| ==> P.rows[r] == CompRows(m, parts, a, r)
  {
    Parent(Neighbours(m), Offsets(m),
      seq(|m.own|, (r: nat) requires r < |m.own| => s[r].t),
      LocalSizes(m),
      seq(|m.own|, (r: nat) requires r < |m.own| => CompRows(m, parts, a, r)))
  }

  lemma RankTables(m: GoodMesh, parts: seq<seq<seq<Dof>>>, a: nat, s: System, r: nat)
    requires ComponentOk(m, parts, a) && Ready(m, s) && r < |m.own|
    ensures TablesOk(ParentOf(m, parts, a, s), r)
  {
    var P, t := ParentOf(m, parts, a, s), s[r].t;
    assert RankReady(m, r, t);
    forall l, i | 0 <= l < |P.rows[r]| && 0 <= i < |P.rows[r][l]|
      ensures P.rows[r][l][i] in t.slots
    {
      var c := LocalCells(m, r)[l];
      assert P.rows[r][l] == CompRow(m, parts, a, c) && P.rows[r][l][i] in P.rows[r][l];
      assert c in LocalCells(m, r);
      CompRowExact(m, parts, a, c, P.rows[r][l][i]);
    }
  }

  /** The owner of a slot has an own cell with that slot, in the same component, and its number. */
  lemma OwnerSeesSlot(m: GoodMesh, parts: seq<seq<seq<Dof>>>, a: nat, s: System, c: nat, i: nat)
    requires ComponentOk(m, parts, a) && Ready(m, s)
    requires c < |m.cells| && i < |CellDofs(m, c)| && InComponent(parts[m.cells[c].dim], a, i)
    ensures IsSlot(m, SlotOf(m, c, i)) && OwnerSees(ParentOf(m, parts, a, s), Global(m, SlotOf(m, c, i)))
  {
    var e := SlotOf(m, c, i);
    assert IsSlot(m, e);
    var q := Owner(m, e);
    var d, j := OwnerCell(m, c, i);
    SlotComponent(m, parts, a, c, i, d, j);
    LocalIsOwned(m, q);
    var p := Pos(Local(m, q), e);
    assert RankReady(m, q, s[q].t);
    var P := ParentOf(m, parts, a, s);
    assert d in m.own[q];
    var l := Pos(m.own[q], d);
    assert LocalCells(m, q)[l] == d;
    CompRowExact(m, parts, a, d, e);
    assert CompSlot(m, parts, a, d, j, e);
    assert e in P.rows[q][l];
    assert P.tables[q].slots[p] == e && P.tables[q].l2g[p] == Global(m, e);
    assert SeesAt(P, Global(m, e), q, p, l);
  }

  lemma OwnerCell(m: GoodMesh, c: nat, i: nat) returns (d: nat, j: nat)
    requires c < |m.cells| && i < |CellDofs(m, c)| && IsSlot(m, SlotOf(m, c, i))
    ensures d < |m.cells| && m.proc[d] == Owner(m, SlotOf(m, c, i)) && j < |CellDofs(m, d)|
    ensures SlotOf(m, d, j) == SlotOf(m, c, i)
  {
    var e := SlotOf(m, c, i);
    d, j := c, i;
    if e.FaceSlot? {
      SlotInFace(m, c, i);
      var x: nat :| x < |m.cells| && HasFace(m, x, e.face) && m.proc[x] == Owner(m, e);
      d := x;
      j := SlotOnCell(m, d, e.face, e.k);
    }
  }

  lemma OffsetsAscend(m: GoodMesh)
    ensures forall p, q :: 0 <= p <= q <= |m.own| ==> Offsets(m)[p] <= Offsets(m)[q]
  {
    forall p, q | 0 <= p <= q <= |m.own|
      ensures Offsets(m)[p] <= Offsets(m)[q]
    {
      StartMonotone(LocalSizes(m), p, q);
    }
  }

  /** After the parent's exchange the hypotheses of the sub-handler hold for every component. */
  lemma ParentOfOk(m: GoodMesh, parts: seq<seq<seq<Dof>>>, a: nat, s: System)
    requires ComponentOk(m, parts, a) && Ready(m, s)
    ensures ParentOk(ParentOf(m, parts, a, s))
  {
    var P := ParentOf(m, parts, a, s);
    NeighboursFormNetwork(m);
    OffsetsAscend(m);
    forall r | 0 <= r < |m.own|
      ensures TablesOk(P, r)
    {
      RankTables(m, parts, a, s, r);
    }
    forall r, l, i | 0 <= r < |m.own| && 0 <= l < |P.rows[r]| && 0 <= i < |P.rows[r][l]|
      ensures P.rows[r][l][i] in P.tables[r].slots && |P.tables[r].slots| == |P.tables[r].l2g|
        && OwnerSees(P, Lookup(P.tables[r], P.rows[r][l][i]))
    {
      RowEntrySeen(m, parts, a, s, r, l, i);
    }
  }

  lemma RowEntrySeen(m: GoodMesh, parts: seq<seq<seq<Dof>>>, a: nat, s: System, r: nat, l: nat, i: nat)
    requires ComponentOk(m, parts, a) && Ready(m, s) && r < |m.own|
    requires l < |CompRows(m, parts, a, r)| && i < |CompRows(m, parts, a, r)[l]|
    ensures var P := ParentOf(m, parts, a, s);
      P.rows[r][l][i] in P.tables[r].slots && |P.tables[r].slots| == |P.tables[r].l2g|
      && OwnerSees(P, Lookup(P.tables[r], P.rows[r][l][i]))
  {
    RankTables(m, parts, a, s, r);
    assert RankReady(m, r, s[r].t);
    var c := LocalCells(m, r)[l];
    var e := CompRow(m, parts, a, c)[i];
    assert e in CompRow(m, parts, a, c);
    CompRowExact(m, parts, a, c, e);
    var j: nat :| CompSlot(m, parts, a, c, j, e);
    OwnerSeesSlot(m, parts, a, s, c, j);
  }

  lemma CompleteReady(m: GoodMesh, run: seq<System>)
    requires CompleteRun(m, run)
    ensures Ready(m, run[|run| - 1])
  {
    LayoutOfMeshOk(m);
    RunInv(LayoutOf(m), run, |run| - 1);
    var s := run[|run| - 1];
    forall r: nat | r < |s|
      ensures RankReady(m, r, s[r].t)
    {
      CompleteRankReady(m, run, r);
    }
  }

  /** The exchange of the sub-handler of component a, over the parent's final state s. */
  ghost function MeshSubLayout(m: GoodMesh, parts: seq<seq<seq<Dof>>>, a: nat, s: System): (L: SubExchange.SubLayout)
    requires ComponentOk(m, parts, a) && Ready(m, s)
    ensures SubExchange.SubOk(L) && L.nbs == Neighbours(m)
  {
    ParentOfOk(m, parts, a, s);
    SubLayoutOk(ParentOf(m, parts, a, s));
    SubLayoutOf(ParentOf(m, parts, a, s))
  }

  /** The sub-handler of any component, after complete runs of the parent's and of its own
      exchange: ghost dof i of process r has its sub-number if and only if its owner is a ghost
      neighbour of r, or its sub-number happens to equal its parent number. */
  lemma SubHandlerNumbers(m: GoodMesh, parts: seq<seq<seq<Dof>>>, a: nat, s: System,
                          run: seq<SubExchange.SubSystem>, r: nat, i: nat)
    requires ComponentOk(m, parts, a) && Ready(m, s) && r < |m.own|
    requires SubExchange.IsRun(MeshSubLayout(m, parts, a, s), run)
    requires SubExchange.Stuck(MeshSubLayout(m, parts, a, s), run[|run| - 1])
    requires i < |MeshSubLayout(m, parts, a, s).ghosts[r]|
    ensures var L, last := MeshSubLayout(m, parts, a, s), run[|run| - 1];
      var g := L.ghosts[r][i];
      && |last| == |L.nbs| && |last[r].ghostNumbers| == |L.ghosts[r]| && SubExchange.HasOwner(L, g)
      && (last[r].ghostNumbers[i] == SubExchange.SubNumber(L, g) <==>
            SubExchange.OwnerOf(L, g) in Neighbours(m)[r] || SubExchange.SubNumber(L, g) == g)
  {
    SubExchange.GhostNumberRight(MeshSubLayout(m, parts, a, s), run, r, i);
  }
}
