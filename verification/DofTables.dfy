/** The tables that distribute_dofs fills on one process: `node_dofs` and `edge_dofs` (one row per
    face), `dof_indices` (one row per local cell), the local-to-global map, the face status and
    the marks of cells to update. The rows say which slot every entry belongs to; each method
    keeps every entry equal to the index of its slot in the list of numbered slots. */
module DofTables {
  import opened Lists
  import opened MeshModel
  import opened FlatTables
  import opened Exchange

  const INVALID_NFACE := 1
  const VALID_NFACE := 2
  const ASSIGNED_NFACE := 3

  // ---- slots of a process, on values ------------------------------------------------------

  /** Row f holds the slots of face f, and cells refer only to those. */
  ghost predicate Fit(frows: seq<seq<Slot>>, rows: seq<seq<Slot>>) {
    && (forall f: nat, k: nat :: f < |frows| && k < |frows[f]| ==> frows[f][k] == FaceSlot(f, k))
    && (forall l: nat, i: nat :: l < |rows| && i < |rows[l]| && rows[l][i].FaceSlot? ==>
          rows[l][i].face < |frows| && rows[l][i].k < |frows[rows[l][i].face]|)
  }

  lemma FitUnshared(frows: seq<seq<Slot>>, rows: seq<seq<Slot>>)
    requires Fit(frows, rows)
    ensures Unshared(frows)
  {
  }

  /** A slot that this process numbers when it visits one of its own cells. */
  predicate Mine(owns: set<nat>, s: Slot) {
    s.CellSlot? || s.face in owns
  }

  /** One visit of the numbering loop. */
  ghost function Visit(frows: seq<seq<Slot>>, owns: set<nat>, slots: seq<Slot>, s: Slot): seq<Slot> {
    if s.CellSlot? then slots + [s]
    else if s.face in owns && s !in slots && s.face < |frows| then slots + frows[s.face]
    else slots
  }

  /** Numbered slots are distinct, are this process's, and come in complete faces. */
  ghost predicate Sound(frows: seq<seq<Slot>>, owns: set<nat>, slots: seq<Slot>) {
    && Distinct(slots)
    && (forall s :: s in slots ==> Mine(owns, s))
    && (forall f: nat, k: nat, l: nat ::
          FaceSlot(f, k) in slots && f < |frows| && l < |frows[f]| ==> FaceSlot(f, l) in slots)
  }

  ghost predicate IsIdentity(l2g: seq<int>, n: nat) {
    |l2g| == n && forall j :: 0 <= j < n ==> l2g[j] == j
  }

  ghost function StatusOf(owns: set<nat>, slots: seq<Slot>, f: nat): int {
    if f !in owns then INVALID_NFACE
    else if FaceSlot(f, 0) in slots then ASSIGNED_NFACE else VALID_NFACE
  }

  ghost predicate StatusOk(frows: seq<seq<Slot>>, owns: set<nat>, status: seq<int>, slots: seq<Slot>) {
    && |status| == |frows|
    && forall f: nat :: f < |frows| && |frows[f]| > 0 ==> status[f] == StatusOf(owns, slots, f)
  }

  /** The first n entries of row x are right, hold numbers for all own slots, and, if the cell is
      not marked for update, for all slots. */
  ghost predicate VisitedRow(owns: set<nat>, rows: seq<seq<Slot>>, table: seq<int>, slots: seq<Slot>,
                             marked: bool, x: nat, n: nat)
  {
    && Filled(rows, table, slots, x, n)
    && (forall j :: 0 <= j < n && Mine(owns, rows[x][j]) ==> rows[x][j] in slots)
    && (!marked ==> forall j :: 0 <= j < n ==> rows[x][j] in slots)
  }

  /** Rows before l are visited, and row l up to entry i. */
  ghost predicate VisitedRows(owns: set<nat>, rows: seq<seq<Slot>>, table: seq<int>, slots: seq<Slot>,
                              marks: seq<bool>, l: nat, i: nat)
    requires |marks| <= |rows|
  {
    forall x: nat :: x < |marks| && x <= l ==>
      VisitedRow(owns, rows, table, slots, marks[x], x, if x < l then |rows[x]| else i)
  }

  /** Own slots are appended: visited rows stay right, for they wait for none of them. */
  lemma VisitedGrow(owns: set<nat>, rows: seq<seq<Slot>>, table: seq<int>, slots: seq<Slot>,
                    more: seq<Slot>, marks: seq<bool>, l: nat, i: nat)
    requires |marks| <= |rows| && VisitedRows(owns, rows, table, slots, marks, l, i)
    requires Distinct(slots + more) && forall s :: s in more ==> Mine(owns, s)
    ensures VisitedRows(owns, rows, table, slots + more, marks, l, i)
  {
    forall x: nat | x < |marks| && x <= l
      ensures VisitedRow(owns, rows, table, slots + more, marks[x], x, if x < l then |rows[x]| else i)
    {
      var n := if x < l then |rows[x]| else i;
      assert VisitedRow(owns, rows, table, slots, marks[x], x, n);
      forall j: nat | j < n
        ensures rows[x][j] !in more
      {
        if rows[x][j] in more {
          AppendedApart(slots, more, rows[x][j]);
        }
      }
      GrowKeeps(rows, table, slots, more, x, n);
    }
  }

  lemma AppendedApart(slots: seq<Slot>, more: seq<Slot>, s: Slot)
    requires Distinct(slots + more) && s in more
    ensures s !in slots
  {
    var j := Pos(more, s);
    forall i | 0 <= i < |slots|
      ensures slots[i] != s
    {
      assert (slots + more)[i] != (slots + more)[|slots| + j];
    }
  }

  /** The next entry of row l is set. */
  lemma VisitedNext(owns: set<nat>, rows: seq<seq<Slot>>, table: seq<int>, slots: seq<Slot>,
                    marks: seq<bool>, l: nat, i: nat, v: int)
    requires |marks| <= |rows| && |table| == Total(Sizes(rows))
    requires VisitedRows(owns, rows, table, slots, marks, l, i) && l < |marks| && i < |rows[l]|
    requires v == Index(slots, rows[l][i])
    requires Mine(owns, rows[l][i]) || !marks[l] ==> rows[l][i] in slots
    ensures At(rows, l, i) < |table|
    ensures VisitedRows(owns, rows, table[At(rows, l, i) := v], slots, marks, l, i + 1)
  {
    AtInTable(rows, table, l, i);
    forall x: nat | x < |marks| && x <= l
      ensures VisitedRow(owns, rows, table[At(rows, l, i) := v], slots, marks[x], x,
                         if x < l then |rows[x]| else i + 1)
    {
      assert VisitedRow(owns, rows, table, slots, marks[x], x, if x < l then |rows[x]| else i);
      if x == l {
        FillNext(rows, table, slots, l, i, v);
      } else {
        FillKeeps(rows, table, slots, l, i, v, x, |rows[x]|);
      }
    }
  }

  /** Marking a cell for update relaxes what its row promises. */
  lemma MarkedRow(owns: set<nat>, rows: seq<seq<Slot>>, table: seq<int>, slots: seq<Slot>,
                  marks: seq<bool>, l: nat, i: nat)
    requires |marks| <= |rows| && l < |marks| && VisitedRows(owns, rows, table, slots, marks, l, i)
    ensures VisitedRows(owns, rows, table, slots, marks[l := true], l, i)
  {
    forall x: nat | x < |marks| && x <= l
      ensures VisitedRow(owns, rows, table, slots, marks[l := true][x], x, if x < l then |rows[x]| else i)
    {
      assert VisitedRow(owns, rows, table, slots, marks[x], x, if x < l then |rows[x]| else i);
    }
  }

  /** A finished row is the start of the next one. */
  lemma NextRow(owns: set<nat>, rows: seq<seq<Slot>>, table: seq<int>, slots: seq<Slot>, marks: seq<bool>, l: nat)
    requires |marks| <= |rows| && l < |marks| && VisitedRows(owns, rows, table, slots, marks, l, |rows[l]|)
    ensures VisitedRows(owns, rows, table, slots, marks, l + 1, 0)
  {
    forall x: nat | x < |marks| && x <= l + 1
      ensures VisitedRow(owns, rows, table, slots, marks[x], x, if x < l + 1 then |rows[x]| else 0)
    {
      if x <= l {
        assert VisitedRow(owns, rows, table, slots, marks[x], x, |rows[x]|);
      }
    }
  }

  /** The slots of a face are numbered together. */
  lemma FaceAllOrNone(frows: seq<seq<Slot>>, owns: set<nat>, slots: seq<Slot>, f: nat, k: nat)
    requires Sound(frows, owns, slots) && f < |frows| && k < |frows[f]|
    ensures FaceSlot(f, k) in slots <==> FaceSlot(f, 0) in slots
    ensures FaceSlot(f, 0) !in slots ==> forall x: nat :: FaceSlot(f, x) !in slots
  {
  }

  /** Numbering a whole face keeps the slots sound and changes one status. */
  lemma FaceNumbered(frows: seq<seq<Slot>>, rows: seq<seq<Slot>>, owns: set<nat>, status: seq<int>, slots: seq<Slot>,
                     f: nat)
    requires Fit(frows, rows) && Sound(frows, owns, slots) && f < |frows| && |frows[f]| > 0
    requires f in owns && StatusOk(frows, owns, status, slots) && Distinct(slots + frows[f])
    ensures Sound(frows, owns, slots + frows[f])
    ensures StatusOk(frows, owns, status[f := ASSIGNED_NFACE], slots + frows[f])
  {
    assert frows[f][0] == FaceSlot(f, 0);
    forall g: nat, k: nat, l: nat |
      FaceSlot(g, k) in slots + frows[f] && g < |frows| && l < |frows[g]|
      ensures FaceSlot(g, l) in slots + frows[f]
    {
      if g == f {
        assert frows[f][l] == FaceSlot(f, l);
      }
    }
  }

  // ---- rows while numbers arrive, on values -----------------------------------------------

  /** The first n entries of row x are right and all have numbers. */
  ghost predicate KnownRow(rows: seq<seq<Slot>>, table: seq<int>, slots: seq<Slot>, x: nat, n: nat) {
    Filled(rows, table, slots, x, n) && forall j :: 0 <= j < n ==> rows[x][j] in slots
  }

  ghost predicate KnownRows(rows: seq<seq<Slot>>, table: seq<int>, slots: seq<Slot>, known: set<nat>) {
    forall x :: x in known ==> x < |rows| && KnownRow(rows, table, slots, x, |rows[x]|)
  }

  /** The rows of own cells are right for the slots known at some time; unmarked rows are complete. */
  ghost predicate OwnRows(rows: seq<seq<Slot>>, table: seq<int>, slots: seq<Slot>, marks: seq<bool>) {
    && |marks| <= |rows|
    && forall x: nat :: x < |marks| ==>
         Filled(rows, table, slots, x, |rows[x]|) && (!marks[x] ==> KnownRow(rows, table, slots, x, |rows[x]|))
  }

  lemma KnownGrow(rows: seq<seq<Slot>>, table: seq<int>, slots: seq<Slot>, more: seq<Slot>, x: nat, n: nat)
    requires KnownRow(rows, table, slots, x, n) && Distinct(slots + more)
    ensures KnownRow(rows, table, slots + more, x, n)
  {
    forall j: nat | j < n
      ensures rows[x][j] !in more
    {
      if rows[x][j] in more {
        AppendedApart(slots, more, rows[x][j]);
      }
    }
    GrowKeeps(rows, table, slots, more, x, n);
  }

  lemma KnownRowsGrow(rows: seq<seq<Slot>>, table: seq<int>, slots: seq<Slot>, more: seq<Slot>, known: set<nat>)
    requires KnownRows(rows, table, slots, known) && Distinct(slots + more)
    ensures KnownRows(rows, table, slots + more, known)
  {
    forall x | x in known
      ensures KnownRow(rows, table, slots + more, x, |rows[x]|)
    {
      KnownGrow(rows, table, slots, more, x, |rows[x]|);
    }
  }

  /** Setting an entry of another row keeps known and own rows. */
  lemma OthersKept(rows: seq<seq<Slot>>, table: seq<int>, slots: seq<Slot>, base: seq<Slot>, known: set<nat>,
                   marks: seq<bool>, l: nat, i: nat, v: int)
    requires |table| == Total(Sizes(rows)) && |marks| <= l < |rows| && i < |rows[l]| && l !in known
    requires KnownRows(rows, table, slots, known) && OwnRows(rows, table, base, marks)
    ensures At(rows, l, i) < |table|
    ensures KnownRows(rows, table[At(rows, l, i) := v], slots, known)
    ensures OwnRows(rows, table[At(rows, l, i) := v], base, marks)
  {
    AtInTable(rows, table, l, i);
    forall x | x in known
      ensures KnownRow(rows, table[At(rows, l, i) := v], slots, x, |rows[x]|)
    {
      FillKeeps(rows, table, slots, l, i, v, x, |rows[x]|);
    }
    forall x: nat | x < |marks|
      ensures Filled(rows, table[At(rows, l, i) := v], base, x, |rows[x]|)
    {
      FillKeeps(rows, table, base, l, i, v, x, |rows[x]|);
    }
  }

  /** Own rows during the update: entries before (x, i) are up to date, the others as they were. */
  ghost predicate Updated(rows: seq<seq<Slot>>, table: seq<int>, slots: seq<Slot>, base: seq<Slot>, n: nat, x: nat,
                          i: nat) {
    && n <= |rows|
    && forall y: nat, j: nat :: y < n && j < |rows[y]| ==>
         if y < x || (y == x && j < i) then Entry(rows, table, slots, y, j) else Entry(rows, table, base, y, j)
  }

  /** An entry that had a number keeps it; one that had none is looked up again. */
  lemma UpdateEntry(rows: seq<seq<Slot>>, table: seq<int>, slots: seq<Slot>, base: seq<Slot>, n: nat, x: nat, i: nat,
                    v: int)
    requires Updated(rows, table, slots, base, n, x, i) && x < n && i < |rows[x]|
    requires base <= slots && Distinct(slots) && |table| == Total(Sizes(rows))
    requires At(rows, x, i) < |table|
    requires table[At(rows, x, i)] == INVALID_DOF ==> v == Index(slots, rows[x][i])
    requires table[At(rows, x, i)] != INVALID_DOF ==> v == table[At(rows, x, i)]
    ensures Updated(rows, table[At(rows, x, i) := v], slots, base, n, x, i + 1)
  {
    var table' := table[At(rows, x, i) := v];
    assert Entry(rows, table, base, x, i);
    assert v == Index(slots, rows[x][i]) by {
      if rows[x][i] in base {
        assert slots == base + slots[|base|..];
        PosAppend(base, slots[|base|..], rows[x][i]);
      }
    }
    forall y: nat, j: nat | y < n && j < |rows[y]|
      ensures if y < x || (y == x && j < i + 1) then Entry(rows, table', slots, y, j)
        else Entry(rows, table', base, y, j)
    {
      assert if y < x || (y == x && j < i) then Entry(rows, table, slots, y, j) else Entry(rows, table, base, y, j);
      if y != x || j != i {
        SetOther(rows, x, i, y, j);
      }
    }
  }

  /** A row whose cell is not marked needs no update. */
  lemma SkipRow(rows: seq<seq<Slot>>, table: seq<int>, slots: seq<Slot>, base: seq<Slot>, n: nat, x: nat)
    requires Updated(rows, table, slots, base, n, x, 0) && x < n
    requires base <= slots && Distinct(slots)
    requires forall j :: 0 <= j < |rows[x]| ==> rows[x][j] in base
    ensures Updated(rows, table, slots, base, n, x, |rows[x]|)
  {
    forall j: nat | j < |rows[x]|
      ensures Entry(rows, table, slots, x, j)
    {
      assert Entry(rows, table, base, x, j);
      assert slots == base + slots[|base|..];
      PosAppend(base, slots[|base|..], rows[x][j]);
    }
  }

  /** An entry whose slot had a number is up to date already. */
  lemma KeepEntry(rows: seq<seq<Slot>>, table: seq<int>, slots: seq<Slot>, base: seq<Slot>, n: nat, x: nat, i: nat)
    requires Updated(rows, table, slots, base, n, x, i) && x < n && i < |rows[x]|
    requires base <= slots && Distinct(slots) && rows[x][i] in base
    ensures Updated(rows, table, slots, base, n, x, i + 1)
  {
    assert Entry(rows, table, base, x, i);
    assert slots == base + slots[|base|..];
    PosAppend(base, slots[|base|..], rows[x][i]);
  }

  /** Two tables agree on the rows from n on. */
  ghost predicate SameFrom(rows: seq<seq<Slot>>, n: nat, a: seq<int>, b: seq<int>) {
    && |a| == |b|
    && forall y: nat, j: nat :: n <= y < |rows| && j < |rows[y]| && At(rows, y, j) < |a| ==>
         a[At(rows, y, j)] == b[At(rows, y, j)]
  }

  lemma SameFromKeepsRow(rows: seq<seq<Slot>>, n: nat, a: seq<int>, b: seq<int>, slots: seq<Slot>, x: nat, k: nat)
    requires SameFrom(rows, n, a, b) && n <= x && KnownRow(rows, a, slots, x, k)
    ensures KnownRow(rows, b, slots, x, k)
  {
    forall i: nat | i < k
      ensures Entry(rows, b, slots, x, i)
    {
      assert Entry(rows, a, slots, x, i);
    }
  }

  lemma UpdatedNextRow(rows: seq<seq<Slot>>, table: seq<int>, slots: seq<Slot>, base: seq<Slot>, n: nat, x: nat)
    requires x < n <= |rows| && Updated(rows, table, slots, base, n, x, |rows[x]|)
    ensures Updated(rows, table, slots, base, n, x + 1, 0)
  {
  }

  class DofTables {
    ghost const frows: seq<seq<Slot>>
    ghost const rows: seq<seq<Slot>>
    ghost const owns: set<nat>
    const nOwn: nat
    var faceStarts: seq<nat>
    var cellStarts: seq<nat>
    var faceDofs: seq<int>
    var dofIndices: seq<int>
    var l2g: seq<int>
    var status: seq<int>
    var updateCells: seq<bool>
    ghost var slots: seq<Slot>

    ghost predicate Laid()
      reads this
    {
      && Fit(frows, rows) && nOwn <= |rows| && |updateCells| == nOwn
      && IsStarts(faceStarts, Sizes(frows)) && IsStarts(cellStarts, Sizes(rows))
      && |dofIndices| == Total(Sizes(rows))
    }

    /** Everything but the cell rows is right. */
    ghost predicate FacesRight()
      reads this
    {
      && Sound(frows, owns, slots) && IsIdentity(l2g, |slots|)
      && AllEntries(frows, faceDofs, slots) && StatusOk(frows, owns, status, slots)
    }

    /** The rows of visited cells are right, up to entry i of own cell l. */
    ghost predicate CellsRight(l: nat, i: nat)
      requires Laid()
      reads this
    {
      VisitedRows(owns, rows, dofIndices, slots, updateCells, l, i)
    }

    /** Before the numbering: no slot has a number. */
    constructor (ghost frows: seq<seq<Slot>>, ghost rows: seq<seq<Slot>>, ghost owns: set<nat>, nOwn: nat,
                 faceSizes: seq<nat>, cellSizes: seq<nat>, status: seq<int>)
      requires Fit(frows, rows) && nOwn <= |rows|
      requires faceSizes == Sizes(frows) && cellSizes == Sizes(rows)
      requires StatusOk(frows, owns, status, [])
      ensures this.frows == frows && this.rows == rows && this.owns == owns && this.nOwn == nOwn
      ensures Laid() && FacesRight() && CellsRight(0, 0) && slots == []
    {
      this.frows, this.rows, this.owns, this.nOwn := frows, rows, owns, nOwn;
      var fs := PrefixSums([0] + faceSizes, faceSizes);
      var cs := PrefixSums([0] + cellSizes, cellSizes);
      faceStarts, cellStarts := fs, cs;
      faceDofs := seq(fs[|faceSizes|], _ => INVALID_DOF);
      dofIndices := seq(cs[|cellSizes|], _ => 0);
      l2g, this.status := [], status;
      updateCells := seq(nOwn, _ => false);
      slots := [];
      new;
      forall f: nat, k: nat | f < |frows| && k < |frows[f]|
        ensures Entry(frows, faceDofs, slots, f, k)
      {
        AtInTable(frows, faceDofs, f, k);
      }
    }

    /** Number all dofs of a face. */
    method PushFace(f: nat)
      requires Laid() && f < |frows|
      requires AllEntries(frows, faceDofs, slots) && Distinct(slots) && IsIdentity(l2g, |slots|)
      requires forall k: nat :: FaceSlot(f, k) !in slots
      modifies this`l2g, this`faceDofs, this`slots
      ensures slots == old(slots) + frows[f] && Distinct(slots)
      ensures AllEntries(frows, faceDofs, slots) && IsIdentity(l2g, |slots|)
    {
      ghost var fs := frows[f];
      FitUnshared(frows, rows);
      var n := faceStarts[f + 1] - faceStarts[f];
      var i := 0;
      while i < n
        invariant n == |fs| && i <= n && slots == old(slots) + fs[..i] && Distinct(slots)
        invariant AllEntries(frows, faceDofs, slots) && IsIdentity(l2g, |slots|)
      {
        RecordNew(frows, faceDofs, slots, f, i);
        assert fs[..i + 1] == fs[..i] + [fs[i]];
        faceDofs := faceDofs[faceStarts[f] + i := |l2g|];
        l2g := l2g + [|l2g|];
        slots := slots + [fs[i]];
        i := i + 1;
      }
      assert fs[..i] == fs;
    }

    /** First visit of an owned face. */
    method NumberFace(l: nat, i: nat, f: nat)
      requires Laid() && FacesRight() && CellsRight(l, i)
      requires f < |frows| && |frows[f]| > 0 && f in owns && forall k: nat :: FaceSlot(f, k) !in slots
      modifies this`l2g, this`faceDofs, this`slots, this`status
      ensures slots == old(slots) + frows[f]
      ensures Laid() && FacesRight() && CellsRight(l, i)
    {
      ghost var before := slots;
      PushFace(f);
      FaceNumbered(frows, rows, owns, status, before, f);
      status := status[f := ASSIGNED_NFACE];
      VisitedGrow(owns, rows, dofIndices, before, frows[f], updateCells, l, i);
    }

    /** Visit of a face that a lower process numbers: its entry stays unset, the cell is marked. */
    method SkipFace(l: nat, i: nat, f: nat, k: nat)
      requires Laid() && FacesRight() && CellsRight(l, i)
      requires l < nOwn && f < |frows| && k < |frows[f]| && FaceSlot(f, k) !in slots
      modifies this`faceDofs, this`updateCells
      ensures Laid() && FacesRight() && CellsRight(l, i) && updateCells[l]
    {
      assert Entry(frows, faceDofs, slots, f, k);
      faceDofs := faceDofs[faceStarts[f] + k := INVALID_DOF];
      assert faceDofs == old(faceDofs);
      MarkedRow(owns, rows, dofIndices, slots, updateCells, l, i);
      updateCells := updateCells[l := true];
    }

    /** Copy the entry of the face into the row of the cell. */
    method SetCellEntry(l: nat, i: nat, f: nat, k: nat)
      requires Laid() && FacesRight() && CellsRight(l, i)
      requires l < nOwn && i < |rows[l]| && rows[l][i] == FaceSlot(f, k)
      requires FaceSlot(f, k) in slots || (updateCells[l] && f !in owns)
      modifies this`dofIndices
      ensures Laid() && CellsRight(l, i + 1)
    {
      assert Entry(frows, faceDofs, slots, f, k);
      VisitedNext(owns, rows, dofIndices, slots, updateCells, l, i, faceDofs[faceStarts[f] + k]);
      dofIndices := dofIndices[cellStarts[l] + i := faceDofs[faceStarts[f] + k]];
    }

    /** Visit a dof on a node or edge: number the face on the first visit if it is owned, leave a
        mark if a lower process will number it. */
    method VisitShared(l: nat, i: nat, f: nat, k: nat)
      requires Laid() && FacesRight() && CellsRight(l, i)
      requires l < nOwn && i < |rows[l]| && rows[l][i] == FaceSlot(f, k)
      modifies this`l2g, this`faceDofs, this`slots, this`status, this`updateCells, this`dofIndices
      ensures slots == Visit(frows, owns, old(slots), rows[l][i])
      ensures Laid() && FacesRight() && CellsRight(l, i + 1)
    {
      FaceAllOrNone(frows, owns, slots, f, k);
      if status[f] == VALID_NFACE {
        NumberFace(l, i, f);
        assert frows[f][k] in slots;
      } else if status[f] == INVALID_NFACE {
        SkipFace(l, i, f, k);
      }
      SetCellEntry(l, i, f, k);
    }

    /** Visit an interior dof: it gets a number at once. */
    method VisitInterior(l: nat, i: nat)
      requires Laid() && FacesRight() && CellsRight(l, i)
      requires l < nOwn && i < |rows[l]| && rows[l][i].CellSlot? && rows[l][i] !in slots
      modifies this`l2g, this`slots, this`dofIndices
      ensures slots == Visit(frows, owns, old(slots), rows[l][i])
      ensures Laid() && FacesRight() && CellsRight(l, i + 1)
    {
      ghost var s := rows[l][i];
      RecordForeign(frows, faceDofs, slots, s);
      VisitedGrow(owns, rows, dofIndices, slots, [s], updateCells, l, i);
      IndexLast(slots, s);
      slots := slots + [s];
      VisitedNext(owns, rows, dofIndices, slots, updateCells, l, i, |l2g|);
      dofIndices := dofIndices[cellStarts[l] + i := |l2g|];
      l2g := l2g + [|l2g|];
    }

    // ---- numbers arrive from other processes ----------------------------------------------

    /** Tables while received numbers are entered: rows of the received cells are right, own rows
        are right for the slots known before. */
    ghost predicate Open(base: seq<Slot>, known: set<nat>)
      reads this
    {
      && Laid() && base <= slots && Distinct(slots) && |l2g| == |slots|
      && AllEntries(frows, faceDofs, slots)
      && KnownRows(rows, dofIndices, slots, known)
      && OwnRows(rows, dofIndices, base, updateCells)
    }

    /** Outside of updates own rows are right for all known slots. */
    ghost predicate Settled(known: set<nat>)
      reads this
    {
      Open(slots, known)
    }

    /** A node or edge dof of a ghost cell: unless the slot has a number, it gets the next local
        one, and the received value as its global one. */
    method RecordShared(ghost base: seq<Slot>, ghost known: set<nat>, ghost l: nat, ghost i: nat, f: nat, k: nat,
                        v: int)
      requires Open(base, known) && l < |rows| && i < |rows[l]| && rows[l][i] == FaceSlot(f, k)
      requires KnownRow(rows, dofIndices, slots, l, i)
      modifies this`l2g, this`slots, this`faceDofs
      ensures Tables(slots, l2g) == AddDof(Tables(old(slots), old(l2g)), FaceSlot(f, k), v)
      ensures Open(base, known) && KnownRow(rows, dofIndices, slots, l, i)
    {
      assert Entry(frows, faceDofs, slots, f, k);
      if faceDofs[faceStarts[f] + k] == INVALID_DOF {
        ghost var s := FaceSlot(f, k);
        FitUnshared(frows, rows);
        RecordNew(frows, faceDofs, slots, f, k);
        KnownRowsGrow(rows, dofIndices, slots, [s], known);
        KnownGrow(rows, dofIndices, slots, [s], l, i);
        faceDofs := faceDofs[faceStarts[f] + k := |l2g|];
        l2g := l2g + [v];
        slots := slots + [s];
      }
    }

    /** Set the next entry of the row of a ghost cell. */
    method SetGhostEntry(ghost base: seq<Slot>, ghost known: set<nat>, l: nat, i: nat, v: int)
      requires Open(base, known) && nOwn <= l < |rows| && i < |rows[l]| && l !in known
      requires KnownRow(rows, dofIndices, slots, l, i)
      requires rows[l][i] in slots && v == Index(slots, rows[l][i])
      modifies this`dofIndices
      ensures Open(base, known) && KnownRow(rows, dofIndices, slots, l, i + 1)
    {
      OthersKept(rows, dofIndices, slots, base, known, updateCells, l, i, v);
      FillNext(rows, dofIndices, slots, l, i, v);
      dofIndices := dofIndices[cellStarts[l] + i := v];
    }

    method EnterShared(ghost base: seq<Slot>, ghost known: set<nat>, l: nat, i: nat, f: nat, k: nat, v: int)
      requires Open(base, known) && nOwn <= l < |rows| && l !in known
      requires i < |rows[l]| && rows[l][i] == FaceSlot(f, k) && KnownRow(rows, dofIndices, slots, l, i)
      modifies this`l2g, this`slots, this`faceDofs, this`dofIndices
      ensures Tables(slots, l2g) == AddDof(Tables(old(slots), old(l2g)), rows[l][i], v)
      ensures Open(base, known) && KnownRow(rows, dofIndices, slots, l, i + 1)
    {
      RecordShared(base, known, l, i, f, k, v);
      assert Entry(frows, faceDofs, slots, f, k);
      SetGhostEntry(base, known, l, i, faceDofs[faceStarts[f] + k]);
    }

    /** An interior dof of a ghost cell always gets a new local number. */
    method EnterInterior(ghost base: seq<Slot>, ghost known: set<nat>, l: nat, i: nat, v: int)
      requires Open(base, known) && nOwn <= l < |rows| && l !in known
      requires i < |rows[l]| && rows[l][i].CellSlot? && rows[l][i] !in slots
      requires KnownRow(rows, dofIndices, slots, l, i)
      modifies this`l2g, this`slots, this`dofIndices
      ensures Tables(slots, l2g) == AddDof(Tables(old(slots), old(l2g)), rows[l][i], v)
      ensures Open(base, known) && KnownRow(rows, dofIndices, slots, l, i + 1)
    {
      ghost var s := rows[l][i];
      RecordForeign(frows, faceDofs, slots, s);
      KnownRowsGrow(rows, dofIndices, slots, [s], known);
      KnownGrow(rows, dofIndices, slots, [s], l, i);
      IndexLast(slots, s);
      l2g := l2g + [v];
      slots := slots + [s];
      SetGhostEntry(base, known, l, i, |l2g| - 1);
    }

    /** Look an unset entry of an own cell up again. */
    method UpdateShared(ghost base: seq<Slot>, x: nat, i: nat, f: nat, k: nat)
      requires Laid() && base <= slots && Distinct(slots) && AllEntries(frows, faceDofs, slots)
      requires x < nOwn && i < |rows[x]| && rows[x][i] == FaceSlot(f, k)
      requires Updated(rows, dofIndices, slots, base, nOwn, x, i)
      modifies this`dofIndices
      ensures Laid() && Updated(rows, dofIndices, slots, base, nOwn, x, i + 1)
      ensures SameFrom(rows, nOwn, old(dofIndices), dofIndices)
    {
      assert Entry(frows, faceDofs, slots, f, k);
      AtInTable(rows, dofIndices, x, i);
      var v := dofIndices[cellStarts[x] + i];
      if v == INVALID_DOF {
        v := faceDofs[faceStarts[f] + k];
      }
      UpdateEntry(rows, dofIndices, slots, base, nOwn, x, i, v);
      dofIndices := dofIndices[cellStarts[x] + i := v];
      forall y: nat, j: nat | nOwn <= y < |rows| && j < |rows[y]| && At(rows, y, j) < |dofIndices|
        ensures dofIndices[At(rows, y, j)] == old(dofIndices)[At(rows, y, j)]
      {
        SetOther(rows, x, i, y, j);
      }
    }
  }
}
