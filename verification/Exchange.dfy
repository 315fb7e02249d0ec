/** The exchange of ghost dof numbers that ends distribute_dofs, as a state machine over all
    processes with blocking messages. A process's dof tables are represented by the list of
    slots that its local dof numbers stand for, beside the map from local to global numbers;
    class DofTables shows that the flat tables of the source are such a list. The mesh enters
    only through the slots of each cell and the cells each process asks for. */
module Exchange {
  import opened Lists
  import opened MeshModel
  import opened Handshake

  /** `cells[c]` are the slots of the dofs of cell c, `wanted[r][q]` the cells that process r asks
      process q for, `nbs[r]` its neighbours, `owned[r]` the slots it numbers, in order, and
      `number` the global number of every slot. */
  datatype Layout = Layout(
    cells: seq<seq<Slot>>, proc: seq<nat>, wanted: seq<seq<seq<nat>>>, nbs: seq<seq<nat>>,
    owned: seq<seq<Slot>>, number: map<Slot, int>)

  datatype Tables = Tables(slots: seq<Slot>, l2g: seq<int>)

  /** One process: where it stands, its tables, and what it received in the current session
      (number of cells asked for, those cells, and the dof counts of the cells it asked for). */
  datatype Proc = Proc(at: Cursor, t: Tables, count: nat, elems: seq<nat>, sizes: seq<nat>)

  type System = seq<Proc>

  /** Messages per session: number of cells, cells, dof counts, dof numbers. */
  const MESSAGES: nat := 4

  // ---- what the layout must satisfy -------------------------------------------------------

  ghost predicate Cells(L: Layout, list: seq<nat>) {
    forall j :: 0 <= j < |list| ==> list[j] < |L.cells|
  }

  ghost predicate Shape(L: Layout) {
    && Network(L.nbs)
    && |L.wanted| == |L.nbs| && |L.owned| == |L.nbs| && |L.proc| == |L.cells|
    && (forall r :: 0 <= r < |L.nbs| ==> |L.wanted[r]| == |L.nbs|)
    && (forall r, q :: 0 <= r < |L.nbs| && 0 <= q < |L.nbs| ==>
          && Cells(L, L.wanted[r][q]) && Distinct(L.wanted[r][q])
          && (L.wanted[r][q] != [] ==> q in L.nbs[r])
          && forall j :: 0 <= j < |L.wanted[r][q]| ==> L.proc[L.wanted[r][q][j]] == q)
  }

  /** Dofs of cells have numbers, and interior ones have slots of their own. */
  ghost predicate CellSlotsOk(L: Layout) {
    forall c, i :: 0 <= c < |L.cells| && 0 <= i < |L.cells[c]| ==>
      && L.cells[c][i] in L.number
      && (L.cells[c][i].CellSlot? ==> L.cells[c][i].cell == c && L.cells[c][i].i == i)
  }

  /** Owned slots have numbers; an interior slot is owned with its cell. */
  ghost predicate OwnedOk(L: Layout) {
    && (forall r :: 0 <= r < |L.owned| ==> Distinct(L.owned[r]))
    && (forall r, j :: 0 <= r < |L.owned| && 0 <= j < |L.owned[r]| ==>
          var s := L.owned[r][j];
          s in L.number && (s.CellSlot? ==> s.cell < |L.proc| && L.proc[s.cell] == r))
  }

  /** The slot lies on a cell that r asks a lower process for. */
  ghost predicate FromBelow(L: Layout, r: nat, s: Slot)
    requires Shape(L) && r < |L.nbs|
  {
    exists q: nat, j: nat :: q < r && j < |L.wanted[r][q]| && s in L.cells[L.wanted[r][q][j]]
  }

  /** Every dof of an own cell is owned, or lies on a ghost cell of some lower process. */
  ghost predicate Resolvable(L: Layout)
    requires Shape(L)
  {
    forall c, i :: 0 <= c < |L.cells| && 0 <= i < |L.cells[c]| && L.proc[c] < |L.nbs| ==>
      L.cells[c][i] in L.owned[L.proc[c]] || FromBelow(L, L.proc[c], L.cells[c][i])
  }

  ghost predicate LayoutOk(L: Layout) {
    Shape(L) && CellSlotsOk(L) && OwnedOk(L) && Resolvable(L)
  }

  /** The layouts on which the exchange works. */
  type GoodLayout = L: Layout | LayoutOk(L) ghost witness Layout([], [], [], [], [], map[])

  // ---- what is sent and what is done with it ----------------------------------------------

  function DofSizes(L: Layout, list: seq<nat>): (s: seq<nat>)
    requires Cells(L, list)
    ensures |s| == |list| && forall j :: 0 <= j < |list| ==> s[j] == |L.cells[list[j]]|
  {
    seq(|list|, j requires 0 <= j < |list| => |L.cells[list[j]]|)
  }

  /** The global number that the tables give to a slot. */
  ghost function Lookup(t: Tables, s: Slot): int
    requires s in t.slots && |t.l2g| == |t.slots|
  {
    t.l2g[Pos(t.slots, s)]
  }

  /** Every slot of the list has a number. */
  ghost predicate Resolved(t: Tables, slots: seq<Slot>) {
    |t.l2g| == |t.slots| && forall i :: 0 <= i < |slots| ==> slots[i] in t.slots
  }

  /** Global numbers of the dofs of a cell (get_dof_indices). */
  ghost function CellNumbers(t: Tables, slots: seq<Slot>): (s: seq<int>)
    requires Resolved(t, slots)
    ensures |s| == |slots| && forall i :: 0 <= i < |s| ==> s[i] == Lookup(t, slots[i])
  {
    seq(|slots|, i requires 0 <= i < |slots| => Lookup(t, slots[i]))
  }

  /** The cells asked for are own cells of x and all their dofs are numbered. */
  ghost predicate Answerable(L: Layout, x: nat, t: Tables, list: seq<nat>)
    requires |L.proc| == |L.cells|
  {
    && Cells(L, list)
    && forall j :: 0 <= j < |list| ==> L.proc[list[j]] == x && Resolved(t, L.cells[list[j]])
  }

  /** Dof numbers of the first n cells asked for, one cell after the other. */
  ghost function Answer(L: Layout, x: nat, t: Tables, list: seq<nat>, n: nat): (s: seq<int>)
    requires |L.proc| == |L.cells| && Answerable(L, x, t, list) && n <= |list|
    ensures |s| == Start(DofSizes(L, list), n)
  {
    if n == 0 then [] else Answer(L, x, t, list, n - 1) + CellNumbers(t, L.cells[list[n - 1]])
  }

  /** A dof of a ghost cell: a face slot already numbered is left alone, any other is appended. */
  ghost function AddDof(t: Tables, s: Slot, v: int): Tables {
    if s.FaceSlot? && s in t.slots then t else Tables(t.slots + [s], t.l2g + [v])
  }

  /** The first n dofs of a ghost cell, with the values from position `off` on. */
  ghost function AddDofs(t: Tables, slots: seq<Slot>, vals: seq<int>, off: nat, n: nat): Tables
    requires n <= |slots| && off + n <= |vals|
  {
    if n == 0 then t else AddDof(AddDofs(t, slots, vals, off, n - 1), slots[n - 1], vals[off + n - 1])
  }

  /** The first n ghost cells are entered into the tables (update_local_dofs). */
  ghost function AddCells(L: Layout, t: Tables, list: seq<nat>, vals: seq<int>, n: nat): Tables
    requires Cells(L, list) && n <= |list| && |vals| == Total(DofSizes(L, list))
  {
    if n == 0 then t
    else
      var sizes := DofSizes(L, list);
      BlockBounds(sizes, n - 1, n);
      AddDofs(AddCells(L, t, list, vals, n - 1), L.cells[list[n - 1]], vals, Start(sizes, n - 1), sizes[n - 1])
  }

  // ---- the state machine ------------------------------------------------------------------

  function Cursors(s: System): (at: seq<Cursor>)
    ensures |at| == |s| && forall r :: 0 <= r < |s| ==> at[r] == s[r].at
  {
    seq(|s|, r requires 0 <= r < |s| => s[r].at)
  }

  /** A message from x to y is ready, and both sides agree on its size; before dof numbers are
      sent, all of them exist. */
  ghost predicate CanPass(L: Layout, s: System, x: nat, y: nat)
    requires Shape(L)
  {
    && |s| == |L.nbs| && Enabled(L.nbs, Cursors(s), x, y)
    && match s[x].at.tag
       case 0 => true
       case 1 => s[y].count == |L.wanted[x][y]|
       case 2 => Cells(L, s[x].elems) && |s[x].elems| == |L.wanted[y][x]|
       case _ =>
         && Answerable(L, x, s[x].t, s[x].elems)
         && Total(DofSizes(L, s[x].elems)) == Total(s[y].sizes)
         && Total(s[y].sizes) == Total(DofSizes(L, L.wanted[y][x]))
  }

  /** The receiver after the message, apart from its cursor. */
  ghost function Delivered(L: Layout, s: System, x: nat, y: nat): Proc
    requires Shape(L) && CanPass(L, s, x, y)
  {
    match s[x].at.tag
    case 0 => s[y].(count := |L.wanted[x][y]|)
    case 1 => s[y].(elems := L.wanted[x][y])
    case 2 => s[y].(sizes := DofSizes(L, s[x].elems))
    case _ =>
      var vals := Answer(L, x, s[x].t, s[x].elems, |s[x].elems|);
      s[y].(t := AddCells(L, s[y].t, L.wanted[y][x], vals, |L.wanted[y][x]|))
  }

  ghost function After(L: Layout, s: System, x: nat, y: nat): System
    requires Shape(L) && CanPass(L, s, x, y)
  {
    s[x := s[x].(at := Advance(MESSAGES, s[x].at))]
     [y := Delivered(L, s, x, y).(at := Advance(MESSAGES, s[y].at))]
  }

  ghost predicate Next(L: Layout, s: System, s': System)
    requires Shape(L)
  {
    exists x: nat, y: nat :: CanPass(L, s, x, y) && s' == After(L, s, x, y)
  }

  /** No message can pass. */
  ghost predicate Stuck(L: Layout, s: System)
    requires Shape(L)
  {
    forall s' :: !Next(L, s, s')
  }

  /** After the local numbering and its shift: the tables list the owned slots. */
  ghost function InitProc(L: Layout, r: nat): Proc
    requires Shape(L) && OwnedOk(L) && r < |L.nbs|
  {
    var own := L.owned[r];
    Proc(Cursor(0, 0), Tables(own, seq(|own|, j requires 0 <= j < |own| => L.number[own[j]])), 0, [], [])
  }

  ghost function Init(L: Layout): (s: System)
    requires Shape(L) && OwnedOk(L)
    ensures |s| == |L.nbs| && forall r :: 0 <= r < |s| ==> s[r] == InitProc(L, r)
  {
    seq(|L.nbs|, (r: nat) requires r < |L.nbs| => InitProc(L, r))
  }

  /** A finite run from the initial state; one message passes at every step. */
  ghost predicate IsRun(L: Layout, run: seq<System>)
    requires Shape(L) && OwnedOk(L)
  {
    && run != [] && run[0] == Init(L)
    && forall k :: 0 < k < |run| ==> Next(L, run[k - 1], run[k])
  }

  ghost predicate AllFinished(L: Layout, s: System) {
    |s| == |L.nbs| && forall r :: 0 <= r < |s| ==> Finished(L.nbs, r, s[r].at)
  }

  // ---- the invariant ----------------------------------------------------------------------

  /** Distinct slots, each with its global number. */
  ghost predicate Correct(L: Layout, t: Tables) {
    && |t.slots| == |t.l2g| && Distinct(t.slots)
    && forall i :: 0 <= i < |t.slots| ==> t.slots[i] in L.number && t.l2g[i] == L.number[t.slots[i]]
  }

  /** The slot lies on one of the first n cells of the list. */
  ghost predicate OnCells(L: Layout, list: seq<nat>, n: nat, s: Slot)
    requires n <= |list| && Cells(L, list)
  {
    exists j :: 0 <= j < n && s in L.cells[list[j]]
  }

  /** The slot lies on a cell that process r has received before session n. */
  ghost predicate Received(L: Layout, r: nat, n: nat, s: Slot)
    requires Shape(L) && r < |L.nbs|
  {
    exists j: nat :: j < n && j < Sessions(L.nbs, r) && ReceivedIn(L, r, j, s)
  }

  ghost predicate ReceivedIn(L: Layout, r: nat, j: nat, s: Slot)
    requires Shape(L) && r < |L.nbs| && j < Sessions(L.nbs, r)
  {
    PeerInRange(L.nbs, r, j);
    var w := L.wanted[r][Peer(L.nbs, r, j)];
    Requests(L.nbs, r, j) && OnCells(L, w, |w|, s)
  }

  /** The tables hold what r owns, first, and what it has received. */
  ghost predicate Holds(L: Layout, r: nat, n: nat, t: Tables)
    requires Shape(L) && r < |L.nbs|
  {
    && L.owned[r] <= t.slots
    && forall s :: s in t.slots <==> s in L.owned[r] || Received(L, r, n, s)
  }

  /** What was received so far in the current session is what the other side wants or has. */
  ghost predicate SessionData(L: Layout, r: nat, p: Proc)
    requires Shape(L) && r < |L.nbs|
  {
    if p.at.session >= Sessions(L.nbs, r) then true
    else
      PeerInRange(L.nbs, r, p.at.session);
      var q := Peer(L.nbs, r, p.at.session);
      if Requests(L.nbs, r, p.at.session) then
        p.at.tag == 3 ==> p.sizes == DofSizes(L, L.wanted[r][q])
      else
        && (p.at.tag >= 1 ==> p.count == |L.wanted[q][r]|)
        && (p.at.tag >= 2 ==> p.elems == L.wanted[q][r])
  }

  ghost predicate ProcOk(L: Layout, r: nat, p: Proc)
    requires Shape(L) && r < |L.nbs|
  {
    Correct(L, p.t) && Holds(L, r, p.at.session, p.t) && SessionData(L, r, p)
  }

  ghost predicate Inv(L: Layout, s: System)
    requires Shape(L)
  {
    && |s| == |L.nbs| && InStep(L.nbs, MESSAGES, Cursors(s))
    && forall r :: 0 <= r < |s| ==> ProcOk(L, r, s[r])
  }

  // ---- entering received numbers ----------------------------------------------------------

  lemma AddDofCorrect(L: Layout, t: Tables, s: Slot, v: int)
    requires Correct(L, t) && s in L.number && v == L.number[s]
    requires s.CellSlot? ==> s !in t.slots
    ensures var u := AddDof(t, s, v);
      Correct(L, u) && t.slots <= u.slots && forall x :: x in u.slots <==> x in t.slots || x == s
  {
    if s !in t.slots {
      DistinctAppend(t.slots, [s]);
    }
  }

  /** From position `off` on, the values are the global numbers of the slots. */
  ghost predicate GoodCell(L: Layout, slots: seq<Slot>, vals: seq<int>, off: nat) {
    && off + |slots| <= |vals|
    && forall i :: 0 <= i < |slots| ==> slots[i] in L.number && vals[off + i] == L.number[slots[i]]
  }

  lemma {:induction false} AddDofsCorrect(L: Layout, t: Tables, c: nat, vals: seq<int>, off: nat, n: nat)
    requires CellSlotsOk(L) && c < |L.cells| && n <= |L.cells[c]|
    requires Correct(L, t) && GoodCell(L, L.cells[c], vals, off)
    requires forall x :: x in t.slots && x.CellSlot? ==> x.cell != c
    ensures var u := AddDofs(t, L.cells[c], vals, off, n);
      && Correct(L, u) && t.slots <= u.slots
      && forall x :: x in u.slots <==> x in t.slots || x in L.cells[c][..n]
  {
    var slots := L.cells[c];
    if n > 0 {
      AddDofsCorrect(L, t, c, vals, off, n - 1);
      var u := AddDofs(t, slots, vals, off, n - 1);
      assert slots[n - 1].CellSlot? ==> slots[n - 1] !in slots[..n - 1];
      AddDofCorrect(L, u, slots[n - 1], vals[off + n - 1]);
      assert slots[..n] == slots[..n - 1] + [slots[n - 1]];
    }
  }

  /** The values in block j are the global numbers of the dofs of cell j of the list. */
  ghost predicate GoodAt(L: Layout, list: seq<nat>, vals: seq<int>, j: nat)
    requires Cells(L, list) && j < |list|
  {
    GoodCell(L, L.cells[list[j]], vals, Start(DofSizes(L, list), j))
  }

  /** The values are the global numbers of the dofs of the cells, one cell after the other. */
  ghost predicate GoodValues(L: Layout, list: seq<nat>, vals: seq<int>)
    requires Cells(L, list)
  {
    && |vals| == Total(DofSizes(L, list))
    && forall j: nat :: j < |list| ==> GoodAt(L, list, vals, j)
  }

  /** Table u is t with the first n cells of the list entered. */
  ghost predicate Entered(L: Layout, t: Tables, u: Tables, list: seq<nat>, n: nat)
    requires n <= |list| && Cells(L, list)
  {
    && Correct(L, u) && t.slots <= u.slots
    && forall x :: x in u.slots <==> x in t.slots || OnCells(L, list, n, x)
  }

  lemma EnterCell(L: Layout, t: Tables, u: Tables, list: seq<nat>, vals: seq<int>, n: nat)
    requires CellSlotsOk(L) && Cells(L, list) && n < |list|
    requires Entered(L, t, u, list, n) && GoodValues(L, list, vals)
    requires forall x :: x in u.slots && x.CellSlot? ==> x.cell != list[n]
    ensures Start(DofSizes(L, list), n) + |L.cells[list[n]]| <= |vals|
    ensures Entered(L, t, AddDofs(u, L.cells[list[n]], vals, Start(DofSizes(L, list), n), |L.cells[list[n]]|),
                    list, n + 1)
  {
    var slots := L.cells[list[n]];
    assert GoodAt(L, list, vals, n);
    AddDofsCorrect(L, u, list[n], vals, Start(DofSizes(L, list), n), |slots|);
    assert slots[..|slots|] == slots;
    OnCellsStep(L, list, n + 1);
  }

  /** No interior slot of the cells is in the tables. */
  ghost predicate Fresh(t: Tables, list: seq<nat>) {
    forall x :: x in t.slots && x.CellSlot? ==> x.cell !in list
  }

  lemma FreshAfter(L: Layout, t: Tables, u: Tables, list: seq<nat>, n: nat)
    requires CellSlotsOk(L) && Cells(L, list) && n < |list| && Distinct(list)
    requires Fresh(t, list) && Entered(L, t, u, list, n)
    ensures forall x :: x in u.slots && x.CellSlot? ==> x.cell != list[n]
  {
    forall x | x in u.slots && x.CellSlot?
      ensures x.cell != list[n]
    {
      if x !in t.slots {
        OtherCellsFresh(L, list, n, x);
      }
    }
  }

  lemma {:induction false} AddCellsCorrect(L: Layout, t: Tables, list: seq<nat>, vals: seq<int>, n: nat)
    requires CellSlotsOk(L) && Cells(L, list) && n <= |list| && Distinct(list)
    requires Correct(L, t) && GoodValues(L, list, vals) && Fresh(t, list)
    ensures Entered(L, t, AddCells(L, t, list, vals, n), list, n)
  {
    if n > 0 {
      var u := AddCells(L, t, list, vals, n - 1);
      AddCellsCorrect(L, t, list, vals, n - 1);
      FreshAfter(L, t, u, list, n - 1);
      EnterCell(L, t, u, list, vals, n - 1);
    }
  }

  lemma OnCellsStep(L: Layout, list: seq<nat>, n: nat)
    requires 0 < n <= |list| && Cells(L, list)
    ensures forall s :: OnCells(L, list, n, s) <==> OnCells(L, list, n - 1, s) || s in L.cells[list[n - 1]]
  {
  }

  /** A cell that was not entered yet has no interior slots in the tables. */
  lemma OtherCellsFresh(L: Layout, list: seq<nat>, n: nat, s: Slot)
    requires CellSlotsOk(L) && Cells(L, list) && n < |list| && Distinct(list)
    requires s.CellSlot? && OnCells(L, list, n, s)
    ensures s.cell != list[n]
  {
  }

  // ---- answers ----------------------------------------------------------------------------

  lemma LookupCorrect(L: Layout, t: Tables, s: Slot)
    requires Correct(L, t) && s in t.slots
    ensures s in L.number && Lookup(t, s) == L.number[s]
  {
  }

  /** Correct tables give correct answers. */
  lemma {:induction false} AnswerCell(L: Layout, x: nat, t: Tables, list: seq<nat>, n: nat, j: nat)
    requires |L.proc| == |L.cells| && Answerable(L, x, t, list) && j < n <= |list|
    requires Correct(L, t)
    ensures GoodAt(L, list, Answer(L, x, t, list, n), j)
  {
    var sizes := DofSizes(L, list);
    BlockBounds(sizes, j, n);
    var slots, off, vals := L.cells[list[j]], Start(sizes, j), Answer(L, x, t, list, n);
    if j < n - 1 {
      AnswerCell(L, x, t, list, n - 1, j);
      BlockBounds(sizes, j, n - 1);
    } else {
      assert Resolved(t, L.cells[list[j]]);
      forall i | 0 <= i < |slots|
        ensures slots[i] in L.number && vals[off + i] == L.number[slots[i]]
      {
        assert vals[off + i] == CellNumbers(t, slots)[i];
        LookupCorrect(L, t, slots[i]);
      }
    }
  }

  lemma AnswerGood(L: Layout, x: nat, t: Tables, list: seq<nat>)
    requires |L.proc| == |L.cells| && Answerable(L, x, t, list) && Correct(L, t)
    ensures GoodValues(L, list, Answer(L, x, t, list, |list|))
  {
    forall j: nat | j < |list|
      ensures GoodAt(L, list, Answer(L, x, t, list, |list|), j)
    {
      AnswerCell(L, x, t, list, |list|, j);
    }
  }

  // ---- every step keeps the invariant -----------------------------------------------------

  lemma ReceivedNext(L: Layout, r: nat, n: nat)
    requires Shape(L) && r < |L.nbs| && n < Sessions(L.nbs, r)
    ensures forall s :: Received(L, r, n + 1, s) <==> Received(L, r, n, s) || ReceivedIn(L, r, n, s)
  {
  }

  /** The induction over ranks: a process that answers, or has finished, has already received from
      every lower neighbour, hence has numbers for all dofs of its own cells. */
  lemma OwnCellsResolved(L: Layout, r: nat, n: nat, t: Tables, c: nat)
    requires LayoutOk(L) && r < |L.nbs| && c < |L.cells| && L.proc[c] == r
    requires n >= Sessions(L.nbs, r) || !Requests(L.nbs, r, n)
    requires Correct(L, t) && Holds(L, r, n, t)
    ensures Resolved(t, L.cells[c])
  {
    forall i | 0 <= i < |L.cells[c]|
      ensures L.cells[c][i] in t.slots
    {
      var s := L.cells[c][i];
      if s !in L.owned[r] {
        var q: nat, j: nat :| q < r && j < |L.wanted[r][q]| && s in L.cells[L.wanted[r][q][j]];
        var k := LowerFirst(L.nbs, r, n, q);
        assert OnCells(L, L.wanted[r][q], |L.wanted[r][q]|, s);
        assert ReceivedIn(L, r, k, s);
      }
    }
  }

  /** A process asks for each cell once: interior slots of requested cells are not yet known. */
  lemma RequestedFresh(L: Layout, r: nat, n: nat, t: Tables, q: nat)
    requires LayoutOk(L) && r < |L.nbs| && n < Sessions(L.nbs, r) && Requests(L.nbs, r, n)
    requires Holds(L, r, n, t) && q == Peer(L.nbs, r, n) && q < |L.nbs| && q != r
    ensures Fresh(t, L.wanted[r][q])
  {
    forall x | x in t.slots && x.CellSlot?
      ensures x.cell !in L.wanted[r][q]
    {
      if x !in L.owned[r] {
        var k: nat :| k < n && ReceivedIn(L, r, k, x);
        InteriorFrom(L, r, k, x);
        RequestsOnce(L.nbs, r, k, n);
      }
    }
  }

  /** An interior slot is received only from the process of its cell. */
  lemma InteriorFrom(L: Layout, r: nat, k: nat, s: Slot)
    requires LayoutOk(L) && r < |L.nbs| && k < Sessions(L.nbs, r) && s.CellSlot?
    ensures ReceivedIn(L, r, k, s) ==> s.cell < |L.proc| && L.proc[s.cell] == Peer(L.nbs, r, k)
  {
    PeerInRange(L.nbs, r, k);
  }

  lemma SenderKeeps(L: Layout, r: nat, p: Proc)
    requires LayoutOk(L) && r < |L.nbs| && ProcOk(L, r, p)
    requires p.at.session < Sessions(L.nbs, r) && p.at.tag < MESSAGES
    requires Requests(L.nbs, r, p.at.session) == (p.at.tag < 2)
    ensures ProcOk(L, r, p.(at := Advance(MESSAGES, p.at)))
  {
    ReceivedNext(L, r, p.at.session);
  }

  /** The receiving side, for the first three messages of a session. */
  lemma ReceiverKeeps(L: Layout, s: System, x: nat, y: nat)
    requires LayoutOk(L) && Inv(L, s) && CanPass(L, s, x, y) && s[x].at.tag < 3
    ensures ProcOk(L, y, Delivered(L, s, x, y).(at := Advance(MESSAGES, s[y].at)))
  {
    EnabledIsPaired(L.nbs, Cursors(s), x, y);
    assert ProcOk(L, x, s[x]) && ProcOk(L, y, s[y]);
  }

  /** The receiving side, when dof numbers arrive. */
  lemma NumbersArrive(L: Layout, s: System, x: nat, y: nat)
    requires LayoutOk(L) && Inv(L, s) && CanPass(L, s, x, y) && s[x].at.tag == 3
    ensures ProcOk(L, y, Delivered(L, s, x, y).(at := Advance(MESSAGES, s[y].at)))
  {
    EnabledIsPaired(L.nbs, Cursors(s), x, y);
    assert ProcOk(L, x, s[x]) && ProcOk(L, y, s[y]);
    var w, n := L.wanted[y][x], s[y].at.session;
    assert s[x].elems == w;
    AnswerGood(L, x, s[x].t, w);
    RequestedFresh(L, y, n, s[y].t, x);
    AddCellsCorrect(L, s[y].t, w, Answer(L, x, s[x].t, w, |w|), |w|);
    ReceivedNext(L, y, n);
    var t := Delivered(L, s, x, y).t;
    assert Entered(L, s[y].t, t, w, |w|);
    assert L.owned[y] <= t.slots;
    assert forall e :: ReceivedIn(L, y, n, e) <==> OnCells(L, w, |w|, e);
  }

  /** One message keeps the invariant of the whole system. */
  lemma StepKeepsInv(L: Layout, s: System, x: nat, y: nat)
    requires LayoutOk(L) && Inv(L, s) && CanPass(L, s, x, y)
    ensures Inv(L, After(L, s, x, y))
  {
    EnabledIsPaired(L.nbs, Cursors(s), x, y);
    PassingKeepsStep(L.nbs, MESSAGES, Cursors(s), x, y);
    var s' := After(L, s, x, y);
    assert Cursors(s') == Passed(L.nbs, MESSAGES, Cursors(s), x, y);
    assert CursorOk(L.nbs, MESSAGES, x, Cursors(s)[x]);
    assert ProcOk(L, x, s[x]);
    SenderKeeps(L, x, s[x]);
    if s[x].at.tag < 3 {
      ReceiverKeeps(L, s, x, y);
    } else {
      NumbersArrive(L, s, x, y);
    }
  }

  lemma InitInv(L: Layout)
    requires LayoutOk(L)
    ensures Inv(L, Init(L))
  {
    assert Cursors(Init(L)) == StartLine(L.nbs);
    StartInStep(L.nbs, MESSAGES);
  }

  // ---- progress ---------------------------------------------------------------------------

  /** In every state of the invariant, whoever answers a request owns the cells asked for and has
      numbers for all their dofs: an unset dof is never used as an index. */
  lemma RequestsAnswerable(L: Layout, s: System, x: nat, y: nat)
    requires LayoutOk(L) && Inv(L, s) && Enabled(L.nbs, Cursors(s), x, y) && s[x].at.tag >= 2
    ensures s[x].elems == L.wanted[y][x] && Answerable(L, x, s[x].t, s[x].elems)
  {
    EnabledIsPaired(L.nbs, Cursors(s), x, y);
    assert ProcOk(L, x, s[x]);
    forall j | 0 <= j < |s[x].elems|
      ensures Resolved(s[x].t, L.cells[s[x].elems[j]])
    {
      OwnCellsResolved(L, x, s[x].at.session, s[x].t, s[x].elems[j]);
    }
  }

  /** A message that both sides are ready for never fails. */
  lemma EnabledCanPass(L: Layout, s: System, x: nat, y: nat)
    requires LayoutOk(L) && Inv(L, s) && Enabled(L.nbs, Cursors(s), x, y)
    ensures CanPass(L, s, x, y)
  {
    EnabledIsPaired(L.nbs, Cursors(s), x, y);
    assert ProcOk(L, x, s[x]) && ProcOk(L, y, s[y]);
    assert CursorOk(L.nbs, MESSAGES, x, Cursors(s)[x]);
    if s[x].at.tag >= 2 {
      RequestsAnswerable(L, s, x, y);
    }
  }

  /** Unless all processes have finished, some message can pass. */
  lemma Progress(L: Layout, s: System)
    requires LayoutOk(L) && Inv(L, s) && !AllFinished(L, s)
    ensures !Stuck(L, s)
  {
    var u :| 0 <= u < |s| && !Finished(L.nbs, u, s[u].at);
    var x, y := NoDeadlock(L.nbs, MESSAGES, Cursors(s), u);
    EnabledCanPass(L, s, x, y);
    assert Next(L, s, After(L, s, x, y));
  }

  // ---- whole runs -------------------------------------------------------------------------

  lemma StepLowersWork(L: Layout, s: System, x: nat, y: nat)
    requires Shape(L) && |s| == |L.nbs| && InStep(L.nbs, MESSAGES, Cursors(s)) && CanPass(L, s, x, y)
    ensures Work(L.nbs, MESSAGES, Cursors(After(L, s, x, y)), |L.nbs|)
      == Work(L.nbs, MESSAGES, Cursors(s), |L.nbs|) - 2
  {
    PassingLowersWork(L.nbs, MESSAGES, Cursors(s), x, y);
    CursorsPass(L, s, x, y);
  }

  lemma CursorsPass(L: Layout, s: System, x: nat, y: nat)
    requires Shape(L) && CanPass(L, s, x, y)
    ensures Cursors(After(L, s, x, y)) == Passed(L.nbs, MESSAGES, Cursors(s), x, y)
  {
  }

  lemma NextKeepsInv(L: Layout, s: System, s': System)
    requires LayoutOk(L) && Inv(L, s) && Next(L, s, s')
    ensures Inv(L, s')
    ensures Work(L.nbs, MESSAGES, Cursors(s'), |L.nbs|) == Work(L.nbs, MESSAGES, Cursors(s), |L.nbs|) - 2
  {
    var x: nat, y: nat :| CanPass(L, s, x, y) && s' == After(L, s, x, y);
    StepKeepsInv(L, s, x, y);
    StepLowersWork(L, s, x, y);
  }

  lemma {:induction false} RunInv(L: Layout, run: seq<System>, k: nat)
    requires LayoutOk(L) && IsRun(L, run) && k < |run|
    ensures Inv(L, run[k])
    ensures Work(L.nbs, MESSAGES, Cursors(run[k]), |L.nbs|)
      == Work(L.nbs, MESSAGES, StartLine(L.nbs), |L.nbs|) - 2 * k
  {
    if k == 0 {
      InitInv(L);
      assert Cursors(Init(L)) == StartLine(L.nbs);
    } else {
      RunInv(L, run, k - 1);
      NextKeepsInv(L, run[k - 1], run[k]);
    }
  }

  /** Every run is finite, with a bound known in advance, and a run that cannot be continued has
      finished on every process: the exchange always completes. */
  lemma RunsComplete(L: Layout, run: seq<System>)
    requires LayoutOk(L) && IsRun(L, run)
    ensures 2 * (|run| - 1) <= Work(L.nbs, MESSAGES, StartLine(L.nbs), |L.nbs|)
    ensures AllFinished(L, run[|run| - 1]) <==> Stuck(L, run[|run| - 1])
  {
    var s := run[|run| - 1];
    RunInv(L, run, |run| - 1);
    WorkPositive(L.nbs, MESSAGES, Cursors(s), |L.nbs|);
    if !AllFinished(L, s) {
      Progress(L, s);
    }
  }

  lemma ExtendRun(L: Layout, run: seq<System>, s': System)
    requires LayoutOk(L) && IsRun(L, run) && Next(L, run[|run| - 1], s')
    ensures IsRun(L, run + [s']) && 2 * |run| <= Work(L.nbs, MESSAGES, StartLine(L.nbs), |L.nbs|)
  {
    var longer := run + [s'];
    forall k | 0 < k < |longer|
      ensures Next(L, longer[k - 1], longer[k])
    {
      assert k < |run| ==> Next(L, run[k - 1], run[k]);
    }
    RunsComplete(L, longer);
  }

  lemma LongerRun(L: GoodLayout, run: seq<System>) returns (longer: seq<System>)
    requires IsRun(L, run) && !AllFinished(L, run[|run| - 1])
    ensures IsRun(L, longer) && run <= longer && |longer| == |run| + 1
    ensures 2 * |run| <= Work(L.nbs, MESSAGES, StartLine(L.nbs), |L.nbs|)
  {
    RunsComplete(L, run);
    var s' :| Next(L, run[|run| - 1], s');
    ExtendRun(L, run, s');
    longer := run + [s'];
  }

  /** Every run can be continued to one that is complete. */
  lemma {:induction false} CompleteFrom(L: GoodLayout, run: seq<System>, work: int) returns (whole: seq<System>)
    requires IsRun(L, run) && work == Work(L.nbs, MESSAGES, StartLine(L.nbs), |L.nbs|)
    ensures IsRun(L, whole) && run <= whole && AllFinished(L, whole[|whole| - 1])
    decreases work - 2 * |run|
  {
    if AllFinished(L, run[|run| - 1]) {
      whole := run;
    } else {
      var longer := LongerRun(L, run);
      whole := CompleteFrom(L, longer, work);
    }
  }

  /** When all have finished, each process has the global number of every dof of its own cells and
      of every cell it asked for. */
  lemma FinishedIsComplete(L: Layout, s: System, r: nat, c: nat)
    requires LayoutOk(L) && Inv(L, s) && AllFinished(L, s) && r < |L.nbs| && c < |L.cells|
    requires L.proc[c] == r || (L.proc[c] < |L.nbs| && c in L.wanted[r][L.proc[c]])
    ensures Resolved(s[r].t, L.cells[c])
    ensures forall i :: 0 <= i < |L.cells[c]| ==>
      L.cells[c][i] in L.number && CellNumbers(s[r].t, L.cells[c])[i] == L.number[L.cells[c][i]]
  {
    var t, n := s[r].t, s[r].at.session;
    assert ProcOk(L, r, s[r]);
    if L.proc[c] == r {
      OwnCellsResolved(L, r, n, t, c);
    } else {
      var q := L.proc[c];
      var k := AllRequested(L.nbs, r, q);
      forall i | 0 <= i < |L.cells[c]|
        ensures L.cells[c][i] in t.slots
      {
        assert L.cells[c][i] in L.cells[c];
        assert OnCells(L, L.wanted[r][q], |L.wanted[r][q]|, L.cells[c][i]);
        assert ReceivedIn(L, r, k, L.cells[c][i]);
      }
    }
    forall i | 0 <= i < |L.cells[c]|
      ensures L.cells[c][i] in L.number && CellNumbers(t, L.cells[c])[i] == L.number[L.cells[c][i]]
    {
      LookupCorrect(L, t, L.cells[c][i]);
    }
  }
}
