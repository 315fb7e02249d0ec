/** The numbering that each process gives to the dofs it owns (src/fem/dofhandler.cc, the loop over
    own cells in distribute_dofs), and the global numbering it induces. A process's local dof
    numbers are represented by the list of slots in the order in which they were numbered. */
module Numbering {
  import opened Lists
  import opened MeshModel

  /** All slots of a face, in order. */
  function FaceSlots(m: GoodMesh, f: nat): (s: seq<Slot>)
    requires f < NFaces(m)
    ensures |s| == FaceDofs(m, f)
    ensures forall k :: 0 <= k < |s| ==> s[k] == FaceSlot(f, k)
  {
    seq(FaceDofs(m, f), (k: nat) => FaceSlot(f, k))
  }

  /** The slots of the dofs of cell c. */
  ghost function CellSlots(m: GoodMesh, c: nat): (s: seq<Slot>)
    requires c < |m.cells|
    ensures |s| == |CellDofs(m, c)| && forall i :: 0 <= i < |s| ==> s[i] == SlotOf(m, c, i)
  {
    seq(|CellDofs(m, c)|, (i: nat) requires i < |CellDofs(m, c)| => SlotOf(m, c, i))
  }

  /** Visit dof i of own cell c: an interior dof is numbered at once; the first visit of an owned
      face numbers all its slots; anything else leaves the numbering alone. */
  ghost function VisitDof(m: GoodMesh, r: nat, slots: seq<Slot>, c: nat, i: nat): seq<Slot>
    requires c < |m.cells| && i < |CellDofs(m, c)|
  {
    var s := SlotOf(m, c, i);
    if s.CellSlot? then slots + [s]
    else if OwnsFace(m, r, s.face) && s !in slots then
      SlotInFace(m, c, i);
      slots + FaceSlots(m, s.face)
    else slots
  }

  /** Visit the first n dofs of cell c. */
  ghost function VisitDofs(m: GoodMesh, r: nat, slots: seq<Slot>, c: nat, n: nat): seq<Slot>
    requires c < |m.cells| && n <= |CellDofs(m, c)|
  {
    if n == 0 then slots else VisitDof(m, r, VisitDofs(m, r, slots, c, n - 1), c, n - 1)
  }

  /** Visit the first n own cells of process r. */
  ghost function VisitCells(m: GoodMesh, r: nat, n: nat): seq<Slot>
    requires r < |m.own| && n <= |m.own[r]|
  {
    if n == 0 then []
    else var c := m.own[r][n - 1]; VisitDofs(m, r, VisitCells(m, r, n - 1), c, |CellDofs(m, c)|)
  }

  /** The slots numbered by process r: local number j belongs to slot `Local(m, r)[j]`. */
  ghost function Local(m: GoodMesh, r: nat): seq<Slot>
    requires r < |m.own|
  {
    VisitCells(m, r, |m.own[r]|)
  }

  // ---- what one visit keeps ---------------------------------------------------------------

  /** Numbered slots are owned by r, come in complete faces, and their cells have been reached:
      cells before position n of the own list, and cell n itself below dof i. */
  ghost predicate Progress(m: GoodMesh, r: nat, slots: seq<Slot>, n: nat, i: nat)
    requires r < |m.own| && n <= |m.own[r]|
  {
    && Distinct(slots)
    && (forall s :: s in slots ==> IsSlot(m, s) && OwnsSlot(m, r, s))
    && (forall f: nat, k: nat, l: nat ::
          FaceSlot(f, k) in slots && f < NFaces(m) && l < FaceDofs(m, f) ==> FaceSlot(f, l) in slots)
    && (forall c: nat, j: nat :: CellSlot(c, j) in slots ==>
          c in m.own[r][..n] || (n < |m.own[r]| && c == m.own[r][n] && j < i))
  }

  /** Everything r owns on the visited dofs has been numbered. */
  ghost predicate Covered(m: GoodMesh, r: nat, slots: seq<Slot>, c: nat, n: nat)
    requires c < |m.cells| && n <= |CellDofs(m, c)|
  {
    forall j :: 0 <= j < n && OwnsSlot(m, r, SlotOf(m, c, j)) ==> SlotOf(m, c, j) in slots
  }

  lemma VisitKeepsProgress(m: GoodMesh, r: nat, slots: seq<Slot>, n: nat, i: nat)
    requires r < |m.own| && n < |m.own[r]|
    requires i < |CellDofs(m, m.own[r][n])|
    requires Progress(m, r, slots, n, i)
    ensures var t := VisitDof(m, r, slots, m.own[r][n], i);
      Progress(m, r, t, n, i + 1) && slots <= t
      && (OwnsSlot(m, r, SlotOf(m, m.own[r][n], i)) ==> SlotOf(m, m.own[r][n], i) in t)
  {
    var c := m.own[r][n];
    var s := SlotOf(m, c, i);
    var t := VisitDof(m, r, slots, c, i);
    assert IsSlot(m, s);
    if s.CellSlot? {
      assert Distinct(m.own[r]);
      assert s !in slots;
      DistinctAppend(slots, [s]);
    } else if OwnsFace(m, r, s.face) && s !in slots {
      SlotInFace(m, c, i);
      var fs := FaceSlots(m, s.face);
      assert fs[s.k] == s;
      forall x | x in fs
        ensures x !in slots && IsSlot(m, x) && x.FaceSlot? && x.face == s.face
      {
        var j := SlotOnCell(m, c, x.face, x.k);
      }
      DistinctAppend(slots, fs);
      forall f: nat, k: nat, l: nat | FaceSlot(f, k) in t && f < NFaces(m) && l < FaceDofs(m, f)
        ensures FaceSlot(f, l) in t
      {
        if FaceSlot(f, k) !in slots {
          assert fs[l] == FaceSlot(f, l);
        }
      }
    }
  }

  lemma CoverOne(m: GoodMesh, r: nat, slots: seq<Slot>, t: seq<Slot>, c: nat, n: nat)
    requires c < |m.cells| && n < |CellDofs(m, c)|
    requires slots <= t && Covered(m, r, slots, c, n)
    requires OwnsSlot(m, r, SlotOf(m, c, n)) ==> SlotOf(m, c, n) in t
    ensures Covered(m, r, t, c, n + 1)
  {
    assert forall s :: s in slots ==> s in t;
  }

  lemma {:induction false} VisitsKeepProgress(m: GoodMesh, r: nat, slots: seq<Slot>, n: nat, i: nat)
    requires r < |m.own| && n < |m.own[r]|
    requires i <= |CellDofs(m, m.own[r][n])|
    requires Progress(m, r, slots, n, 0)
    ensures var t := VisitDofs(m, r, slots, m.own[r][n], i);
      Progress(m, r, t, n, i) && slots <= t && Covered(m, r, t, m.own[r][n], i)
  {
    if i > 0 {
      var c := m.own[r][n];
      VisitsKeepProgress(m, r, slots, n, i - 1);
      var u, t := VisitDofs(m, r, slots, c, i - 1), VisitDofs(m, r, slots, c, i);
      VisitKeepsProgress(m, r, u, n, i - 1);
      CoverOne(m, r, u, t, c, i - 1);
    }
  }

  lemma NextCell(m: GoodMesh, r: nat, slots: seq<Slot>, n: nat)
    requires r < |m.own| && n < |m.own[r]|
    requires Progress(m, r, slots, n, |CellDofs(m, m.own[r][n])|)
    ensures Progress(m, r, slots, n + 1, 0)
  {
    assert m.own[r][..n + 1] == m.own[r][..n] + [m.own[r][n]];
  }

  lemma CoverGrows(m: GoodMesh, r: nat, slots: seq<Slot>, t: seq<Slot>, c: nat, n: nat)
    requires c < |m.cells| && n <= |CellDofs(m, c)| && slots <= t && Covered(m, r, slots, c, n)
    ensures Covered(m, r, t, c, n)
  {
    assert forall s :: s in slots ==> s in t;
  }

  /** What one more cell keeps. */
  lemma CellKeepsProgress(m: GoodMesh, r: nat, n: nat)
    requires r < |m.own| && n < |m.own[r]| && Progress(m, r, VisitCells(m, r, n), n, 0)
    ensures VisitCells(m, r, n) <= VisitCells(m, r, n + 1) && Progress(m, r, VisitCells(m, r, n + 1), n + 1, 0)
    ensures Covered(m, r, VisitCells(m, r, n + 1), m.own[r][n], |CellDofs(m, m.own[r][n])|)
  {
    VisitsKeepProgress(m, r, VisitCells(m, r, n), n, |CellDofs(m, m.own[r][n])|);
    NextCell(m, r, VisitCells(m, r, n + 1), n);
  }

  lemma {:induction false} CellsKeepProgress(m: GoodMesh, r: nat, n: nat)
    requires r < |m.own| && n <= |m.own[r]|
    ensures Progress(m, r, VisitCells(m, r, n), n, 0) && CoveredCells(m, r, VisitCells(m, r, n), n)
  {
    if n > 0 {
      CellsKeepProgress(m, r, n - 1);
      CellKeepsProgress(m, r, n - 1);
      CoversGrow(m, r, VisitCells(m, r, n - 1), VisitCells(m, r, n), n - 1);
    }
  }

  /** Everything r owns on its first n cells has been numbered. */
  ghost predicate CoveredCells(m: GoodMesh, r: nat, slots: seq<Slot>, n: nat)
    requires r < |m.own| && n <= |m.own[r]|
  {
    forall j :: 0 <= j < n ==> Covered(m, r, slots, m.own[r][j], |CellDofs(m, m.own[r][j])|)
  }

  lemma CoversGrow(m: GoodMesh, r: nat, slots: seq<Slot>, t: seq<Slot>, n: nat)
    requires r < |m.own| && n <= |m.own[r]| && slots <= t
    requires CoveredCells(m, r, slots, n)
    ensures CoveredCells(m, r, t, n)
  {
    forall j | 0 <= j < n
      ensures Covered(m, r, t, m.own[r][j], |CellDofs(m, m.own[r][j])|)
    {
      CoverGrows(m, r, slots, t, m.own[r][j], |CellDofs(m, m.own[r][j])|);
    }
  }

  /** Process r numbers exactly the slots it owns, each once. */
  lemma LocalIsOwned(m: GoodMesh, r: nat)
    requires r < |m.own|
    ensures Distinct(Local(m, r))
    ensures forall s :: s in Local(m, r) <==> IsSlot(m, s) && OwnsSlot(m, r, s)
  {
    CellsKeepProgress(m, r, |m.own[r]|);
    forall s | IsSlot(m, s) && OwnsSlot(m, r, s)
      ensures s in Local(m, r)
    {
      var c: nat, i: nat :| c < |m.cells| && i < |CellDofs(m, c)| && SlotOf(m, c, i) == s;
      var d, j := c, i;
      if s.FaceSlot? {
        SlotInFace(m, c, i);
        var e: nat :| e < |m.cells| && HasFace(m, e, s.face) && m.proc[e] == r;
        d := e;
        j := SlotOnCell(m, d, s.face, s.k);
      }
      var x: nat :| x < |m.own[r]| && m.own[r][x] == d;
      assert Covered(m, r, Local(m, r), m.own[r][x], |CellDofs(m, m.own[r][x])|);
    }
  }

  // ---- the global numbering ---------------------------------------------------------------

  /** Numbers of dofs owned by the processes. */
  ghost function LocalSizes(m: GoodMesh): (s: seq<nat>)
    ensures |s| == |m.own| && forall r :: 0 <= r < |m.own| ==> s[r] == |Local(m, r)|
  {
    seq(|m.own|, r requires 0 <= r < |m.own| => |Local(m, r)|)
  }

  /** First global number of process r. */
  ghost function Offset(m: GoodMesh, r: nat): nat
    requires r <= |m.own|
  {
    Start(LocalSizes(m), r)
  }

  ghost function GlobalSize(m: GoodMesh): nat
  {
    Offset(m, |m.own|)
  }

  /** The global number of a slot: the number its owner gave it, shifted by the owner's offset. */
  ghost function Global(m: GoodMesh, s: Slot): nat
    requires IsSlot(m, s)
  {
    LocalIsOwned(m, Owner(m, s));
    Offset(m, Owner(m, s)) + Pos(Local(m, Owner(m, s)), s)
  }

  lemma GlobalInRange(m: GoodMesh, s: Slot)
    requires IsSlot(m, s)
    ensures Offset(m, Owner(m, s)) <= Global(m, s) < Offset(m, Owner(m, s) + 1) <= GlobalSize(m)
  {
    LocalIsOwned(m, Owner(m, s));
    BlockBounds(LocalSizes(m), Owner(m, s), Owner(m, s) + 1);
  }

  /** Different slots get different global numbers. */
  lemma GlobalInjective(m: GoodMesh, s: Slot, t: Slot)
    requires IsSlot(m, s) && IsSlot(m, t) && Global(m, s) == Global(m, t)
    ensures s == t
  {
    var q, r := Owner(m, s), Owner(m, t);
    LocalIsOwned(m, q);
    LocalIsOwned(m, r);
    BlocksDisjoint(LocalSizes(m), q, Pos(Local(m, q), s), r, Pos(Local(m, r), t));
  }

  /** The number at position j of process r is the global number of its j-th slot. */
  lemma GlobalOfLocal(m: GoodMesh, r: nat, j: nat)
    requires r < |m.own| && j < |Local(m, r)|
    ensures IsSlot(m, Local(m, r)[j]) && OwnsSlot(m, r, Local(m, r)[j])
    ensures Global(m, Local(m, r)[j]) == Offset(m, r) + j
  {
    LocalIsOwned(m, r);
    var s := Local(m, r)[j];
    OwnerUnique(m, r, s);
    PosIs(Local(m, r), j);
  }

  /** Every number below the global size belongs to a slot: with injectivity, the numbering is a
      bijection from the slots of the mesh to the interval. */
  lemma GlobalSurjective(m: GoodMesh, g: nat) returns (s: Slot)
    requires g < GlobalSize(m)
    ensures IsSlot(m, s) && Global(m, s) == g
  {
    var r, j := BlockOf(LocalSizes(m), |m.own|, g);
    GlobalOfLocal(m, r, j);
    s := Local(m, r)[j];
  }
}
