/** The sub-handler of a component over a parent handler that has completed its exchange: which
    dofs each process owns and which it asks for, and what it ends up with. */
module SubDistribute {
  import opened Lists
  import opened MeshModel
  import opened Handshake
  import opened Exchange
  import opened SubHandler
  import opened SubExchange

  /** The parent on all processes: neighbours, ownership ranges, tables, numbers of owned dofs,
      and for every local cell the slots of the component's dofs. */
  datatype Parent = Parent(
    nbs: seq<seq<nat>>, offsets: seq<int>, tables: seq<Tables>, lsizes: seq<nat>, rows: seq<seq<seq<Slot>>>)

  // ---- visits of the component's dofs on one process --------------------------------------

  /** Parent indices of the slots of one cell. */
  ghost function VisitRow(slots: seq<Slot>, row: seq<Slot>): (v: seq<nat>)
    requires forall i :: 0 <= i < |row| ==> row[i] in slots
    ensures |v| == |row| && forall i :: 0 <= i < |v| ==> v[i] == Pos(slots, row[i])
  {
    seq(|row|, i requires 0 <= i < |row| => Pos(slots, row[i]))
  }

  ghost predicate RowsIn(slots: seq<Slot>, rows: seq<seq<Slot>>) {
    forall l, i :: 0 <= l < |rows| && 0 <= i < |rows[l]| ==> rows[l][i] in slots
  }

  /** All visits of the first n local cells, in order. */
  ghost function Visits(slots: seq<Slot>, rows: seq<seq<Slot>>, n: nat): (v: seq<nat>)
    requires RowsIn(slots, rows) && n <= |rows|
    ensures forall p :: 0 <= p < |v| ==> v[p] < |slots|
  {
    if n == 0 then [] else Visits(slots, rows, n - 1) + VisitRow(slots, rows[n - 1])
  }

  /** A dof is visited exactly if its slot is a dof of the component on a local cell. */
  lemma {:induction false} VisitsExact(slots: seq<Slot>, rows: seq<seq<Slot>>, n: nat, j: nat)
    requires RowsIn(slots, rows) && n <= |rows| && Distinct(slots) && j < |slots|
    ensures j in Visits(slots, rows, n) <==> exists l :: 0 <= l < n && slots[j] in rows[l]
  {
    if n > 0 {
      VisitsExact(slots, rows, n - 1, j);
      var row := rows[n - 1];
      if j in VisitRow(slots, row) {
        var i := Pos(VisitRow(slots, row), j);
        assert row[i] == slots[j];
      }
      if slots[j] in row {
        var i := Pos(row, slots[j]);
        PosIs(slots, j);
        assert VisitRow(slots, row)[i] == j;
      }
    }
  }

  // ---- the layout of the sub-exchange -----------------------------------------------------

  ghost predicate TablesOk(P: Parent, r: nat)
    requires r < |P.tables| && |P.rows| == |P.tables| && |P.lsizes| == |P.tables| && |P.offsets| == |P.tables| + 1
  {
    var t := P.tables[r];
    && |t.slots| == |t.l2g| && Distinct(t.slots) && Distinct(t.l2g) && P.lsizes[r] <= |t.slots|
    && RowsIn(t.slots, P.rows[r])
    && forall j :: 0 <= j < |t.slots| ==>
         (j < P.lsizes[r] <==> P.offsets[r] <= t.l2g[j] < P.offsets[r + 1])
  }

  /** The process that owns global number g sees that dof as one of the component. */
  ghost predicate OwnerSees(P: Parent, g: int)
    requires |P.rows| == |P.tables| && |P.lsizes| == |P.tables|
  {
    exists q: nat, j: nat, l: nat :: SeesAt(P, g, q, j, l)
  }

  /** Dof j of process q has number g and lies on its local cell l. */
  ghost predicate SeesAt(P: Parent, g: int, q: nat, j: nat, l: nat)
    requires |P.rows| == |P.tables| && |P.lsizes| == |P.tables|
  {
    && q < |P.tables| && j < P.lsizes[q] && l < |P.rows[q]| && j < |P.tables[q].slots| && j < |P.tables[q].l2g|
    && P.tables[q].l2g[j] == g && P.tables[q].slots[j] in P.rows[q][l]
  }

  ghost predicate ParentOk(P: Parent) {
    && Network(P.nbs) && |P.tables| == |P.nbs| && |P.rows| == |P.nbs| && |P.lsizes| == |P.nbs|
    && |P.offsets| == |P.nbs| + 1
    && (forall p, q :: 0 <= p <= q <= |P.nbs| ==> P.offsets[p] <= P.offsets[q])
    && (forall r :: 0 <= r < |P.nbs| ==> TablesOk(P, r))
    && (forall r, l, i :: 0 <= r < |P.nbs| && 0 <= l < |P.rows[r]| && 0 <= i < |P.rows[r][l]| ==>
          P.rows[r][l][i] in P.tables[r].slots && |P.tables[r].slots| == |P.tables[r].l2g|
          && OwnerSees(P, Lookup(P.tables[r], P.rows[r][l][i])))
  }

  ghost function AllVisits(P: Parent, r: nat): (v: seq<nat>)
    requires ParentOk(P) && r < |P.nbs|
    ensures forall p :: 0 <= p < |v| ==> v[p] < |P.tables[r].l2g|
  {
    assert TablesOk(P, r);
    Visits(P.tables[r].slots, P.rows[r], |P.rows[r]|)
  }

  /** Global numbers of listed dofs. */
  ghost function NumbersOf(l2g: seq<int>, list: seq<nat>): (s: seq<int>)
    requires forall i :: 0 <= i < |list| ==> list[i] < |l2g|
    ensures |s| == |list| && forall i :: 0 <= i < |s| ==> s[i] == l2g[list[i]]
  {
    seq(|list|, i requires 0 <= i < |list| => l2g[list[i]])
  }

  ghost function OwnedNumbers(P: Parent, r: nat): (s: seq<int>)
    requires ParentOk(P) && r < |P.nbs|
  {
    var v := AllVisits(P, r);
    var own := OwnedFirst(v, P.lsizes[r], |v|);
    ListedInRange(v, P.lsizes[r], |P.tables[r].l2g|);
    NumbersOf(P.tables[r].l2g, own)
  }

  ghost function GhostNumbers(P: Parent, r: nat): (s: seq<int>)
    requires ParentOk(P) && r < |P.nbs|
  {
    var v := AllVisits(P, r);
    ListedInRange(v, P.lsizes[r], |P.tables[r].l2g|);
    ParentIndicesOk(v, P.lsizes[r]);
    NumbersOf(P.tables[r].l2g, ParentIndices(v, P.lsizes[r])[|OwnedFirst(v, P.lsizes[r], |v|)|..])
  }

  lemma ListedInRange(v: seq<nat>, lsize: nat, n: nat)
    requires forall p :: 0 <= p < |v| ==> v[p] < n
    ensures forall i :: 0 <= i < |OwnedFirst(v, lsize, |v|)| ==> OwnedFirst(v, lsize, |v|)[i] < n
    ensures forall i :: 0 <= i < |ParentIndices(v, lsize)| ==> ParentIndices(v, lsize)[i] < n
  {
    ParentIndicesOk(v, lsize);
    OwnedFirstHas(v, lsize, |v|);
    var own, all := OwnedFirst(v, lsize, |v|), ParentIndices(v, lsize);
    assert v[..|v|] == v;
    forall i | 0 <= i < |own|
      ensures own[i] < n
    {
      assert own[i] in own;
    }
    forall i | 0 <= i < |all|
      ensures all[i] < n
    {
      assert all[i] in all;
    }
  }

  /** What the construction on each process hands to the exchange. */
  ghost function SubLayoutOf(P: Parent): (L: SubLayout)
    requires ParentOk(P)
    ensures L.nbs == P.nbs && L.offsets == P.offsets && |L.owned| == |P.nbs| && |L.ghosts| == |P.nbs|
    ensures forall r :: 0 <= r < |P.nbs| ==> L.owned[r] == OwnedNumbers(P, r) && L.ghosts[r] == GhostNumbers(P, r)
  {
    SubLayout(P.nbs, P.offsets,
      seq(|P.nbs|, (r: nat) requires r < |P.nbs| => OwnedNumbers(P, r)),
      seq(|P.nbs|, (r: nat) requires r < |P.nbs| => GhostNumbers(P, r)))
  }

  lemma OwnedOk(P: Parent, r: nat)
    requires ParentOk(P) && r < |P.nbs|
    ensures Distinct(OwnedNumbers(P, r))
    ensures forall i :: 0 <= i < |OwnedNumbers(P, r)| ==> On(SubLayoutOf(P), OwnedNumbers(P, r)[i], r)
  {
    assert TablesOk(P, r);
    var v, t := AllVisits(P, r), P.tables[r];
    ListedInRange(v, P.lsizes[r], |t.l2g|);
    var own := OwnedFirst(v, P.lsizes[r], |v|);
    OwnedDistinct(v, P.lsizes[r], |v|);
    OwnedFirstHas(v, P.lsizes[r], |v|);
    forall i | 0 <= i < |own|
      ensures own[i] < P.lsizes[r]
    {
      assert own[i] in own;
    }
    MapDistinct(t.l2g, own);
  }

  lemma MapDistinct(l2g: seq<int>, list: seq<nat>)
    requires Distinct(l2g) && Distinct(list) && forall i :: 0 <= i < |list| ==> list[i] < |l2g|
    ensures Distinct(NumbersOf(l2g, list))
  {
    forall i, j | 0 <= i < j < |list|
      ensures l2g[list[i]] != l2g[list[j]]
    {
      assert list[i] != list[j];
    }
  }

  /** Owned dofs that are visited are listed. */
  lemma VisitedListed(P: Parent, q: nat, j: nat)
    requires ParentOk(P) && q < |P.nbs| && j in AllVisits(P, q) && j < P.lsizes[q] && j < |P.tables[q].l2g|
    ensures P.tables[q].l2g[j] in OwnedNumbers(P, q)
  {
    var v := AllVisits(P, q);
    assert v[..|v|] == v;
    var own := OwnedFirst(v, P.lsizes[q], |v|);
    OwnedFirstHas(v, P.lsizes[q], |v|);
    ListedInRange(v, P.lsizes[q], |P.tables[q].l2g|);
    assert OwnedNumbers(P, q)[Pos(own, j)] == P.tables[q].l2g[j];
  }

  /** A dof that its owner sees as one of the component is in the owner's list. */
  lemma OwnerLists(P: Parent, g: int)
    requires ParentOk(P) && OwnerSees(P, g)
    ensures HasOwner(SubLayoutOf(P), g)
  {
    var q: nat, j: nat, l: nat :| SeesAt(P, g, q, j, l);
    assert TablesOk(P, q);
    VisitsExact(P.tables[q].slots, P.rows[q], |P.rows[q]|, j);
    VisitedListed(P, q, j);
    assert On(SubLayoutOf(P), g, q);
  }

  /** Every visited dof has its owner. */
  lemma VisitedHasOwner(P: Parent, r: nat, j: nat)
    requires ParentOk(P) && r < |P.nbs| && j in AllVisits(P, r) && j < |P.tables[r].l2g|
    ensures HasOwner(SubLayoutOf(P), P.tables[r].l2g[j])
  {
    assert TablesOk(P, r);
    var t := P.tables[r];
    VisitsExact(t.slots, P.rows[r], |P.rows[r]|, j);
    var l :| 0 <= l < |P.rows[r]| && t.slots[j] in P.rows[r][l];
    var i := Pos(P.rows[r][l], t.slots[j]);
    PosIs(t.slots, j);
    assert OwnerSees(P, Lookup(t, P.rows[r][l][i]));
    OwnerLists(P, t.l2g[j]);
  }

  lemma GhostsHaveOwners(P: Parent, r: nat, i: nat)
    requires ParentOk(P) && r < |P.nbs| && i < |GhostNumbers(P, r)|
    ensures HasOwner(SubLayoutOf(P), GhostNumbers(P, r)[i])
  {
    var v := AllVisits(P, r);
    var all, k := ParentIndices(v, P.lsizes[r]), |OwnedFirst(v, P.lsizes[r], |v|)|;
    ListedInRange(v, P.lsizes[r], |P.tables[r].l2g|);
    ParentIndicesOk(v, P.lsizes[r]);
    var j := all[k..][i];
    assert j == all[k + i] && j in all;
    VisitedHasOwner(P, r, j);
  }

  /** The layout handed to the exchange meets its conditions, so the exchange completes and the
      owner's map lookup never misses. */
  lemma SubLayoutOk(P: Parent)
    requires ParentOk(P)
    ensures SubOk(SubLayoutOf(P))
  {
    var L := SubLayoutOf(P);
    forall q | 0 <= q < |L.owned|
      ensures Distinct(L.owned[q])
      ensures forall j :: 0 <= j < |L.owned[q]| ==> On(L, L.owned[q][j], q)
    {
      OwnedOk(P, q);
    }
    forall r, i | 0 <= r < |L.ghosts| && 0 <= i < |L.ghosts[r]|
      ensures HasOwner(L, L.ghosts[r][i])
    {
      GhostsHaveOwners(P, r, i);
    }
  }
}
