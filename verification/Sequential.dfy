/** The sequential dof handler (DOFHandlerMultiDim::create_sequential): every process computes
    padded prefix sums and a flat list for its own rows, the prefix sums are added over all
    processes, the flat lists are joined in rank order, and together they give the dof numbers of
    every cell on every process. */
module Sequential {
  import opened Lists
  import opened MeshModel
  import opened Numbering
  import opened Partition
  import opened Exchange
  import opened Distribute

  // ---- lists of lists ---------------------------------------------------------------------

  function Flatten<T>(lists: seq<seq<T>>): (s: seq<T>) {
    if lists == [] then [] else Flatten(lists[..|lists| - 1]) + lists[|lists| - 1]
  }

  function Lengths<T>(lists: seq<seq<T>>): (s: seq<nat>)
    ensures |s| == |lists| && forall i :: 0 <= i < |s| ==> s[i] == |lists[i]|
  {
    seq(|lists|, i requires 0 <= i < |lists| => |lists[i]|)
  }

  /** List i occupies the block of its length at its start. */
  lemma {:induction false} FlattenBlock<T>(lists: seq<seq<T>>, i: nat)
    requires i < |lists|
    ensures |Flatten(lists)| == Total(Lengths(lists))
    ensures Start(Lengths(lists), i) + |lists[i]| <= |Flatten(lists)|
    ensures Flatten(lists)[Start(Lengths(lists), i)..Start(Lengths(lists), i) + |lists[i]|] == lists[i]
    decreases |lists|
  {
    FlattenLength(lists);
    var n := |lists| - 1;
    StartAgree(Lengths(lists), Lengths(lists[..n]), i);
    FlattenLength(lists[..n]);
    StartAgree(Lengths(lists), Lengths(lists[..n]), n);
    if i < n {
      FlattenBlock(lists[..n], i);
    }
  }

  lemma {:induction false} FlattenLength<T>(lists: seq<seq<T>>)
    ensures |Flatten(lists)| == Total(Lengths(lists))
  {
    if lists != [] {
      var n := |lists| - 1;
      FlattenLength(lists[..n]);
      StartAgree(Lengths(lists), Lengths(lists[..n]), n);
    }
  }

  lemma {:induction false} FlattenAppend<T>(a: seq<seq<T>>, b: seq<seq<T>>)
    ensures Flatten(a + b) == Flatten(a) + Flatten(b)
  {
    if b == [] {
      assert a + b == a;
    } else {
      var n := |b| - 1;
      FlattenAppend(a, b[..n]);
      assert (a + b)[..|a + b| - 1] == a + b[..n];
    }
  }

  // ---- what one process contributes -------------------------------------------------------

  /** Row sizes as one process sees them: its own rows from `first` on, zero elsewhere. */
  function Padded<T>(n: nat, first: nat, lists: seq<seq<T>>): (s: seq<nat>)
    ensures |s| == n
    ensures forall i :: 0 <= i < n ==> s[i] == if first <= i < first + |lists| then |lists[i - first]| else 0
  {
    seq(n, i => if first <= i < first + |lists| then |lists[i - first]| else 0)
  }

  /** Row sizes, after a leading zero. */
  method RowSizes(n: nat, first: nat, lists: seq<seq<int>>) returns (starts: seq<nat>)
    requires first + |lists| <= n
    ensures starts == [0] + Padded(n, first, lists)
  {
    starts := seq(n + 1, _ => 0);
    var l := 0;
    while l < |lists|
      invariant l <= |lists| && |starts| == n + 1 && starts[0] == 0
      invariant forall i :: 1 <= i <= n ==>
        starts[i] == if first < i <= first + l then |lists[i - 1 - first]| else 0
    {
      starts := starts[first + l + 1 := |lists[l]|];
      l := l + 1;
    }
  }

  /** Row sizes, then prefix sums in place. */
  method LocalStarts(n: nat, first: nat, lists: seq<seq<int>>) returns (starts: seq<nat>)
    requires first + |lists| <= n
    ensures |starts| == n + 1 && IsStarts(starts, Padded(n, first, lists))
  {
    starts := RowSizes(n, first, lists);
    starts := PrefixSums(starts, Padded(n, first, lists));
  }

  lemma {:induction false} PaddedStart<T>(n: nat, first: nat, lists: seq<seq<T>>, l: nat)
    requires first + |lists| <= n && l <= |lists|
    ensures Start(Padded(n, first, lists), first + l) == Start(Lengths(lists), l)
  {
    if l == 0 {
      ZeroStart(Padded(n, first, lists), first);
    } else {
      PaddedStart(n, first, lists, l - 1);
      assert Padded(n, first, lists)[first + l - 1] == |lists[l - 1]|;
    }
  }

  lemma {:induction false} ZeroStart(sizes: seq<nat>, i: nat)
    requires i <= |sizes| && forall k :: 0 <= k < i ==> sizes[k] == 0
    ensures Start(sizes, i) == 0
  {
    if i > 0 {
      ZeroStart(sizes, i - 1);
    }
  }

  /** Overwrite the entries from `pos` on by a row. */
  method WriteRow(before: seq<int>, pos: nat, row: seq<int>) returns (flat: seq<int>)
    requires pos + |row| <= |before|
    ensures |flat| == |before| && flat[..pos + |row|] == before[..pos] + row
  {
    flat := before;
    var k := 0;
    while k < |row|
      invariant k <= |row| && |flat| == |before|
      invariant flat[..pos + k] == before[..pos] + row[..k]
    {
      flat := flat[pos + k := row[k]];
      assert flat[..pos + k + 1] == flat[..pos + k] + [row[k]];
      assert row[..k + 1] == row[..k] + [row[k]];
      k := k + 1;
    }
    assert row[..k] == row;
  }

  /** Write row l after the rows before it. */
  method WriteNext(first: nat, lists: seq<seq<int>>, starts: seq<nat>, before: seq<int>, l: nat, ghost n: nat)
    returns (flat: seq<int>)
    requires l < |lists| && first + |lists| <= n && |starts| == n + 1
    requires starts[first + l] == Start(Padded(n, first, lists), first + l)
    requires |before| == Total(Lengths(lists)) && Start(Lengths(lists), l) <= |before|
    requires before[..Start(Lengths(lists), l)] == Flatten(lists[..l])
    ensures |flat| == |before| && Start(Lengths(lists), l + 1) <= |flat|
    ensures flat[..Start(Lengths(lists), l + 1)] == Flatten(lists[..l + 1])
  {
    BlockBounds(Lengths(lists), l, l + 1);
    PaddedStart(n, first, lists, l);
    flat := WriteRow(before, starts[first + l], lists[l]);
    assert lists[..l + 1][..l] == lists[..l];
  }

  /** The dof numbers of own cells, written at the starts of their rows. */
  method LocalDofs(n: nat, first: nat, lists: seq<seq<int>>, starts: seq<nat>) returns (flat: seq<int>)
    requires first + |lists| <= n && |starts| == n + 1
    requires forall i: nat :: i <= n ==> starts[i] == Start(Padded(n, first, lists), i)
    ensures flat == Flatten(lists)
  {
    ghost var lens := Lengths(lists);
    PaddedTotal(n, first, lists);
    FlattenLength(lists);
    flat := seq(starts[n], _ => 0);
    var l := 0;
    while l < |lists|
      invariant l <= |lists| && |flat| == Total(lens)
      invariant Start(lens, l) <= |flat| && flat[..Start(lens, l)] == Flatten(lists[..l])
    {
      flat := WriteNext(first, lists, starts, flat, l, n);
      l := l + 1;
    }
    assert lists[..l] == lists;
    assert flat[..|flat|] == flat;
  }

  lemma PaddedTotal<T>(n: nat, first: nat, lists: seq<seq<T>>)
    requires first + |lists| <= n
    ensures Start(Padded(n, first, lists), n) == Total(Lengths(lists))
  {
    PaddedStart(n, first, lists, |lists|);
    ConstantAfter(Padded(n, first, lists), first + |lists|, n);
  }

  lemma {:induction false} ConstantAfter(sizes: seq<nat>, i: nat, j: nat)
    requires i <= j <= |sizes| && forall k :: i <= k < j ==> sizes[k] == 0
    ensures Start(sizes, i) == Start(sizes, j)
    decreases j - i
  {
    if i < j {
      ConstantAfter(sizes, i, j - 1);
    }
  }

  // ---- reduce and gather ------------------------------------------------------------------

  /** Sum over the first p processes of the start of row i (MPI_Allreduce with MPI_SUM). */
  function ReducedStart<T>(n: nat, parts: seq<seq<seq<T>>>, p: nat, i: nat): (s: nat)
    requires p <= |parts| && i <= n
  {
    if p == 0 then 0
    else ReducedStart(n, parts, p - 1, i) + Start(Padded(n, Start(Lengths(parts), p - 1), parts[p - 1]), i)
  }

  /** Flat lists of the processes, joined in rank order (MPI_Allgatherv). */
  function Gathered<T>(parts: seq<seq<seq<T>>>): (s: seq<T>) {
    if parts == [] then [] else Gathered(parts[..|parts| - 1]) + Flatten(parts[|parts| - 1])
  }

  /** Row sizes known after the first p processes. */
  lemma {:induction false} PaddedRow<T>(n: nat, parts: seq<seq<seq<T>>>, p: nat, i: nat)
    requires p <= |parts| && i < n
    ensures ReducedStart(n, parts, p, i + 1) - ReducedStart(n, parts, p, i) == RowSize(parts, p, i)
  {
    if p > 0 {
      PaddedRow(n, parts, p - 1, i);
    }
  }

  /** Size of row i if it belongs to one of the first p processes. */
  function RowSize<T>(parts: seq<seq<seq<T>>>, p: nat, i: nat): (s: nat)
    requires p <= |parts|
  {
    if p == 0 then 0
    else
      var first := Start(Lengths(parts), p - 1);
      RowSize(parts, p - 1, i) + (if first <= i < first + |parts[p - 1]| then |parts[p - 1][i - first]| else 0)
  }

  /** A row belongs to exactly one process. */
  lemma {:induction false} RowSizeIs<T>(parts: seq<seq<seq<T>>>, p: nat, i: nat)
    requires p <= |parts|
    ensures |Flatten(parts[..p])| == Start(Lengths(parts), p)
    ensures RowSize(parts, p, i) == if i < |Flatten(parts[..p])| then |Flatten(parts[..p])[i]| else 0
  {
    if p > 0 {
      RowSizeIs(parts, p - 1, i);
      assert parts[..p][..p - 1] == parts[..p - 1];
    }
  }

  /** The reduced starts are the prefix sums of all rows. */
  lemma {:induction false} ReducedIsStart<T>(n: nat, parts: seq<seq<seq<T>>>, i: nat)
    requires i <= n && |Flatten(parts)| == n
    ensures ReducedStart(n, parts, |parts|, i) == Start(Lengths(Flatten(parts)), i)
  {
    if i == 0 {
      ReducedZero(n, parts, |parts|);
    } else {
      ReducedIsStart(n, parts, i - 1);
      PaddedRow(n, parts, |parts|, i - 1);
      RowSizeIs(parts, |parts|, i - 1);
      assert parts[..|parts|] == parts;
    }
  }

  lemma {:induction false} ReducedZero<T>(n: nat, parts: seq<seq<seq<T>>>, p: nat)
    requires p <= |parts|
    ensures ReducedStart(n, parts, p, 0) == 0
  {
    if p > 0 {
      ReducedZero(n, parts, p - 1);
    }
  }

  /** Joining the flat lists in rank order flattens the joined row lists. */
  lemma {:induction false} GatheredIsFlat<T>(parts: seq<seq<seq<T>>>)
    ensures Gathered(parts) == Flatten(Flatten(parts))
  {
    if parts != [] {
      var n := |parts| - 1;
      GatheredIsFlat(parts[..n]);
      FlattenAppend(Flatten(parts[..n]), parts[n]);
    }
  }

  /** Reduced starts and gathered numbers fit: every row reads back what its owner put there. */
  lemma RowsReadBack<T>(parts: seq<seq<seq<T>>>, i: nat)
    requires i < |Flatten(parts)|
    ensures var n := |Flatten(parts)|;
      var lo, hi := ReducedStart(n, parts, |parts|, i), ReducedStart(n, parts, |parts|, i + 1);
      lo <= hi <= |Gathered(parts)| && Gathered(parts)[lo..hi] == Flatten(parts)[i]
  {
    var n, rows := |Flatten(parts)|, Flatten(parts);
    ReducedIsStart(n, parts, i);
    ReducedIsStart(n, parts, i + 1);
    GatheredIsFlat(parts);
    FlattenBlock(rows, i);
    assert Lengths(rows)[i] == |rows[i]|;
  }

  // ---- the sequential handler of a mesh ---------------------------------------------------

  /** Row of a cell: rows are contiguous per process, in rank order (row_4_el). */
  ghost function RowOf(m: GoodMesh, c: nat): nat
    requires c < |m.cells|
  {
    Start(Lengths(m.own), m.proc[c]) + Pos(m.own[m.proc[c]], c)
  }

  /** What the processes contribute: the dof numbers of their own cells, by row. */
  ghost function Contribution(m: GoodMesh, s: System, r: nat): (lists: seq<seq<int>>)
    requires r < |m.own| && r < |s|
    requires forall l :: 0 <= l < |m.own[r]| ==> Resolved(s[r].t, CellSlots(m, m.own[r][l]))
    ensures |lists| == |m.own[r]|
    ensures forall l :: 0 <= l < |lists| ==> lists[l] == CellNumbers(s[r].t, CellSlots(m, m.own[r][l]))
  {
    seq(|m.own[r]|, l requires 0 <= l < |m.own[r]| => CellNumbers(s[r].t, CellSlots(m, m.own[r][l])))
  }

  ghost predicate AllResolved(m: GoodMesh, s: System)
  {
    |s| == |m.own| && forall r, l :: 0 <= r < |m.own| && 0 <= l < |m.own[r]| ==>
      Resolved(s[r].t, CellSlots(m, m.own[r][l]))
  }

  ghost function Contributions(m: GoodMesh, s: System): (parts: seq<seq<seq<int>>>)
    requires AllResolved(m, s)
    ensures |parts| == |m.own| && forall r :: 0 <= r < |parts| ==> parts[r] == Contribution(m, s, r)
  {
    seq(|m.own|, (r: nat) requires r < |m.own| => Contribution(m, s, r))
  }

  /** The cells' lists stand in the same places as the cells. */
  lemma {:induction false} RowsAlike<A, B>(a: seq<seq<A>>, b: seq<seq<B>>, r: nat, l: nat)
    requires Lengths(a) == Lengths(b) && r < |a| && l < |a[r]|
    ensures var i := Start(Lengths(a), r) + l;
      i < |Flatten(a)| && i < |Flatten(b)| && Flatten(a)[i] == a[r][l] && Flatten(b)[i] == b[r][l]
  {
    FlattenBlock(a, r);
    FlattenBlock(b, r);
    assert Lengths(a)[r] == Lengths(b)[r];
    var lo := Start(Lengths(a), r);
    assert Flatten(a)[lo..lo + |a[r]|][l] == a[r][l];
    assert Flatten(b)[lo..lo + |b[r]|][l] == b[r][l];
  }

  /** Dof numbers of cell c in the sequential handler: entries between its starts; the map from
      local to global numbers is the identity there. */
  ghost function SequentialNumbers(m: GoodMesh, parts: seq<seq<seq<int>>>, c: nat): seq<int>
    requires c < |m.cells| && RowOf(m, c) < |Flatten(parts)|
  {
    RowsReadBack(parts, RowOf(m, c));
    var n := |Flatten(parts)|;
    Gathered(parts)[ReducedStart(n, parts, |parts|, RowOf(m, c))..ReducedStart(n, parts, |parts|, RowOf(m, c) + 1)]
  }

  lemma AllOwnResolved(m: GoodMesh, run: seq<System>)
    requires CompleteRun(m, run)
    ensures AllResolved(m, run[|run| - 1])
  {
    var s := run[|run| - 1];
    var L := LayoutOf(m);
    LayoutOfMeshOk(m);
    RunsComplete(L, run);
    RunInv(L, run, |run| - 1);
    forall r: nat, l: nat | r < |m.own| && l < |m.own[r]|
      ensures Resolved(s[r].t, CellSlots(m, m.own[r][l]))
    {
      FinishedIsComplete(L, s, r, m.own[r][l]);
    }
  }

  /** Entry (r, l) of any contributions in the layout of the cells reads back. */
  lemma EntryReadsBack<T>(parts: seq<seq<seq<T>>>, own: seq<seq<nat>>, r: nat, l: nat)
    requires Lengths(parts) == Lengths(own) && r < |own| && l < |own[r]|
    ensures r < |parts| && l < |parts[r]|
    ensures var n, row := |Flatten(parts)|, Start(Lengths(own), r) + l;
      && row < n
      && var lo, hi := ReducedStart(n, parts, |parts|, row), ReducedStart(n, parts, |parts|, row + 1);
      lo <= hi <= |Gathered(parts)| && Gathered(parts)[lo..hi] == parts[r][l]
  {
    assert Lengths(parts)[r] == Lengths(own)[r];
    RowsAlike(parts, own, r, l);
    RowsReadBack(parts, Start(Lengths(own), r) + l);
  }

  lemma ContributionsAlike(m: GoodMesh, s: System)
    requires AllResolved(m, s)
    ensures Lengths(Contributions(m, s)) == Lengths(m.own)
  {
  }

  lemma RowReadsOwner(m: GoodMesh, s: System, c: nat)
    requires AllResolved(m, s) && c < |m.cells|
    ensures var parts := Contributions(m, s);
      && RowOf(m, c) < |Flatten(parts)| && Resolved(s[m.proc[c]].t, CellSlots(m, c))
      && SequentialNumbers(m, parts, c) == CellNumbers(s[m.proc[c]].t, CellSlots(m, c))
  {
    var r := m.proc[c];
    assert c in m.own[r];
    var l := Pos(m.own[r], c);
    ContributionsAlike(m, s);
    ContributionAt(m, s, r, l);
    PlaceReadsBack(m, Contributions(m, s), c, l);
  }

  lemma ContributionAt(m: GoodMesh, s: System, r: nat, l: nat)
    requires AllResolved(m, s) && r < |m.own| && l < |m.own[r]|
    ensures Resolved(s[r].t, CellSlots(m, m.own[r][l])) && |Contributions(m, s)[r]| == |m.own[r]|
    ensures Contributions(m, s)[r][l] == CellNumbers(s[r].t, CellSlots(m, m.own[r][l]))
  {
    assert Contributions(m, s)[r] == Contribution(m, s, r);
  }

  lemma PlaceReadsBack(m: GoodMesh, parts: seq<seq<seq<int>>>, c: nat, l: nat)
    requires c < |m.cells| && Lengths(parts) == Lengths(m.own) && c in m.own[m.proc[c]] && l == Pos(m.own[m.proc[c]], c)
    ensures RowOf(m, c) < |Flatten(parts)| && m.proc[c] < |parts| && l < |parts[m.proc[c]]|
    ensures SequentialNumbers(m, parts, c) == parts[m.proc[c]][l]
  {
    EntryReadsBack(parts, m.own, m.proc[c], l);
  }

  /** The sequential handler refines the parallel one: after a complete exchange it gives, for
      every cell of the mesh and on every process, exactly the owner's list. */
  lemma SequentialIsParallel(m: GoodMesh, run: seq<System>, c: nat)
    requires CompleteRun(m, run) && c < |m.cells|
    ensures AllResolved(m, run[|run| - 1])
    ensures var s := run[|run| - 1];
      && RowOf(m, c) < |Flatten(Contributions(m, s))| && Resolved(s[m.proc[c]].t, CellSlots(m, c))
      && SequentialNumbers(m, Contributions(m, s), c) == CellNumbers(s[m.proc[c]].t, CellSlots(m, c))
  {
    AllOwnResolved(m, run);
    RowReadsOwner(m, run[|run| - 1], c);
  }

  /** ... that is, the global numbers of the cell's slots. */
  lemma SequentialIsGlobal(m: GoodMesh, run: seq<System>, c: nat, i: nat)
    requires CompleteRun(m, run) && c < |m.cells| && i < |CellDofs(m, c)|
    ensures AllResolved(m, run[|run| - 1]) && IsSlot(m, SlotOf(m, c, i))
    ensures RowOf(m, c) < |Flatten(Contributions(m, run[|run| - 1]))|
    ensures var numbers := SequentialNumbers(m, Contributions(m, run[|run| - 1]), c);
      i < |numbers| && numbers[i] == Global(m, SlotOf(m, c, i))
  {
    SequentialIsParallel(m, run, c);
    assert c in LocalCells(m, m.proc[c]);
    NumbersAgree(m, run, m.proc[c], c, i);
  }
}
