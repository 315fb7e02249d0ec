/** The exchange of a sub-handler (SubDOFHandlerMultiDim): ghost dofs of one component first carry
    the parent's global numbers; each process asks every neighbour for the sub-numbers of the
    ghost dofs that neighbour owns. Sessions have three messages. */
module SubExchange {
  import opened Lists
  import opened Handshake

  /** `offsets` are the parent's ownership ranges, `owned[r]` the parent numbers of the component's
      dofs owned by process r, in sub-number order, and `ghosts[r]` those of its ghost dofs. */
  datatype SubLayout = SubLayout(nbs: seq<seq<nat>>, offsets: seq<int>, owned: seq<seq<int>>, ghosts: seq<seq<int>>)

  /** One process: cursor, sub-numbers of its ghost dofs, and what the current request holds. */
  datatype SubProc = SubProc(at: Cursor, ghostNumbers: seq<int>, count: nat, wanted: seq<int>)

  type SubSystem = seq<SubProc>

  const SUB_MESSAGES: nat := 3

  /** Parent number g lies in the range of process q (Distribution::is_on_proc). */
  predicate On(L: SubLayout, g: int, q: nat) {
    q + 1 < |L.offsets| && L.offsets[q] <= g < L.offsets[q + 1]
  }

  /** The first process whose range holds g (Distribution::get_proc), or the number of processes. */
  method GetProc(L: SubLayout, g: int) returns (q: nat)
    requires |L.offsets| > 0
    ensures q < |L.offsets| && forall p: nat :: p < q ==> !On(L, g, p)
    ensures q + 1 < |L.offsets| ==> On(L, g, q)
  {
    q := 0;
    while q + 1 < |L.offsets|
      invariant q < |L.offsets| && forall p: nat :: p < q ==> !On(L, g, p)
    {
      if L.offsets[q] <= g < L.offsets[q + 1] {
        return;
      }
      q := q + 1;
    }
  }

  ghost predicate SubOk(L: SubLayout) {
    && Network(L.nbs) && |L.offsets| == |L.nbs| + 1 && |L.owned| == |L.nbs| && |L.ghosts| == |L.nbs|
    && (forall p, q :: 0 <= p <= q <= |L.nbs| ==> L.offsets[p] <= L.offsets[q])
    && (forall q :: 0 <= q < |L.owned| ==> Distinct(L.owned[q]))
    && (forall q, j :: 0 <= q < |L.owned| && 0 <= j < |L.owned[q]| ==> On(L, L.owned[q][j], q))
    && (forall r, i :: 0 <= r < |L.ghosts| && 0 <= i < |L.ghosts[r]| ==> HasOwner(L, L.ghosts[r][i]))
  }

  /** Some process owns g as a dof of the component. */
  ghost predicate HasOwner(L: SubLayout, g: int)
    requires |L.owned| == |L.nbs|
  {
    exists q: nat :: q < |L.nbs| && On(L, g, q) && g in L.owned[q]
  }

  lemma OneProcess(L: SubLayout, g: int, p: nat, q: nat)
    requires SubOk(L) && On(L, g, p) && On(L, g, q)
    ensures p == q
  {
  }

  ghost function OwnerOf(L: SubLayout, g: int): (q: nat)
    requires SubOk(L) && HasOwner(L, g)
    ensures q < |L.nbs| && On(L, g, q) && g in L.owned[q]
  {
    var q: nat :| q < |L.nbs| && On(L, g, q) && g in L.owned[q];
    q
  }

  // ---- the sub-numbering ------------------------------------------------------------------

  ghost function OwnedSizes(L: SubLayout): (s: seq<nat>)
    ensures |s| == |L.owned| && forall q :: 0 <= q < |s| ==> s[q] == |L.owned[q]|
  {
    seq(|L.owned|, q requires 0 <= q < |L.owned| => |L.owned[q]|)
  }

  /** Sub-number of the dof with parent number g: position among its owner's dofs plus offset. */
  ghost function SubNumber(L: SubLayout, g: int): nat
    requires SubOk(L) && HasOwner(L, g)
  {
    Start(OwnedSizes(L), OwnerOf(L, g)) + Pos(L.owned[OwnerOf(L, g)], g)
  }

  lemma SubNumberInjective(L: SubLayout, g: int, h: int)
    requires SubOk(L) && HasOwner(L, g) && HasOwner(L, h) && SubNumber(L, g) == SubNumber(L, h)
    ensures g == h
  {
    var p, q := OwnerOf(L, g), OwnerOf(L, h);
    BlocksDisjoint(OwnedSizes(L), p, Pos(L.owned[p], g), q, Pos(L.owned[q], h));
  }

  /** The j-th dof of process q has sub-number j plus the offset of q. */
  lemma SubNumberOfOwned(L: SubLayout, q: nat, j: nat)
    requires SubOk(L) && q < |L.owned| && j < |L.owned[q]|
    ensures HasOwner(L, L.owned[q][j]) && OwnerOf(L, L.owned[q][j]) == q
    ensures SubNumber(L, L.owned[q][j]) == Start(OwnedSizes(L), q) + j
  {
    var g := L.owned[q][j];
    assert On(L, g, q) && g in L.owned[q];
    assert HasOwner(L, g);
    OneProcess(L, g, OwnerOf(L, g), q);
    PosIs(L.owned[q], j);
  }

  /** The owned sub-numbers tile the interval of the component's dofs. */
  lemma SubNumbersTile(L: SubLayout, n: nat) returns (g: int)
    requires SubOk(L) && n < Total(OwnedSizes(L))
    ensures HasOwner(L, g) && SubNumber(L, g) == n
  {
    var q, j := BlockOf(OwnedSizes(L), |L.owned|, n);
    SubNumberOfOwned(L, q, j);
    g := L.owned[q][j];
  }

  // ---- requests, answers, updates ---------------------------------------------------------

  /** Ghost dofs among the first n that process q owns. */
  ghost function Asked(L: SubLayout, ghosts: seq<int>, q: nat, n: nat): (s: seq<int>)
    requires n <= |ghosts|
    ensures forall j :: 0 <= j < |s| ==> s[j] in ghosts && On(L, s[j], q)
  {
    if n == 0 then []
    else
      assert ghosts[n - 1] in ghosts;
      Asked(L, ghosts, q, n - 1) + (if On(L, ghosts[n - 1], q) then [ghosts[n - 1]] else [])
  }

  /** The request, collected in a loop. */
  method CollectRequest(L: SubLayout, ghosts: seq<int>, q: nat) returns (request: seq<int>)
    ensures request == Asked(L, ghosts, q, |ghosts|)
  {
    request := [];
    var i := 0;
    while i < |ghosts|
      invariant i <= |ghosts| && request == Asked(L, ghosts, q, i)
    {
      if On(L, ghosts[i], q) {
        request := request + [ghosts[i]];
      }
      i := i + 1;
    }
  }

  /** The owner's lookup of each parent number in its map (`at` must not miss). */
  ghost predicate Found(L: SubLayout, q: nat, wanted: seq<int>)
    requires q < |L.owned|
  {
    forall j :: 0 <= j < |wanted| ==> wanted[j] in L.owned[q]
  }

  ghost function SubAnswer(L: SubLayout, q: nat, wanted: seq<int>): (dofs: seq<int>)
    requires q < |L.owned| && Found(L, q, wanted)
    ensures |dofs| == |wanted|
    ensures forall j :: 0 <= j < |dofs| ==> dofs[j] == Start(OwnedSizes(L), q) + Pos(L.owned[q], wanted[j])
  {
    seq(|wanted|, j requires 0 <= j < |wanted| => Start(OwnedSizes(L), q) + Pos(L.owned[q], wanted[j]))
  }

  /** Ghost entries owned by q take the received numbers in order; others stay. */
  method UpdateGhosts(L: SubLayout, ghosts: seq<int>, q: nat, before: seq<int>, dofs: seq<int>)
    returns (after: seq<int>)
    requires |before| == |ghosts| && |dofs| == |Asked(L, ghosts, q, |ghosts|)|
    ensures after == Updated(L, ghosts, q, before, dofs, |ghosts|)
  {
    after := [];
    var i, idof := 0, 0;
    while i < |ghosts|
      invariant i <= |ghosts| && idof == |Asked(L, ghosts, q, i)|
      invariant after == Updated(L, ghosts, q, before, dofs, i)
    {
      AskedMonotone(L, ghosts, q, i + 1, |ghosts|);
      if On(L, ghosts[i], q) {
        after := after + [dofs[idof]];
        idof := idof + 1;
      } else {
        after := after + [before[i]];
      }
      i := i + 1;
    }
  }

  ghost function Updated(L: SubLayout, ghosts: seq<int>, q: nat, before: seq<int>, dofs: seq<int>,
                         n: nat): (s: seq<int>)
    requires n <= |ghosts| && |before| == |ghosts| && |dofs| == |Asked(L, ghosts, q, |ghosts|)|
    ensures |s| == n
  {
    if n == 0 then []
    else
      AskedMonotone(L, ghosts, q, n, |ghosts|);
      Updated(L, ghosts, q, before, dofs, n - 1)
      + [if On(L, ghosts[n - 1], q) then dofs[|Asked(L, ghosts, q, n - 1)|] else before[n - 1]]
  }

  lemma {:induction false} AskedMonotone(L: SubLayout, ghosts: seq<int>, q: nat, i: nat, n: nat)
    requires i <= n <= |ghosts|
    ensures Asked(L, ghosts, q, i) <= Asked(L, ghosts, q, n)
  {
    if i < n {
      AskedMonotone(L, ghosts, q, i, n - 1);
    }
  }

  /** With a correct answer each ghost entry owned by q gets its sub-number. */
  lemma {:induction false} UpdatedEntry(L: SubLayout, ghosts: seq<int>, q: nat, before: seq<int>, n: nat, i: nat)
    requires SubOk(L) && q < |L.owned| && i < n <= |ghosts| && |before| == |ghosts|
    requires forall j :: 0 <= j < |ghosts| ==> HasOwner(L, ghosts[j])
    requires Found(L, q, Asked(L, ghosts, q, |ghosts|))
    ensures var dofs := SubAnswer(L, q, Asked(L, ghosts, q, |ghosts|));
      Updated(L, ghosts, q, before, dofs, n)[i]
        == if OwnerOf(L, ghosts[i]) == q then SubNumber(L, ghosts[i]) else before[i]
  {
    if i < n - 1 {
      UpdatedEntry(L, ghosts, q, before, n - 1, i);
    } else {
      UpdatedLast(L, ghosts, q, before, i);
      OwnedBy(L, ghosts[i], q);
    }
  }

  lemma OwnedBy(L: SubLayout, g: int, q: nat)
    requires SubOk(L) && q < |L.owned| && HasOwner(L, g)
    ensures On(L, g, q) && g in L.owned[q] <==> OwnerOf(L, g) == q
    ensures OwnerOf(L, g) == q ==> SubNumber(L, g) == Start(OwnedSizes(L), q) + Pos(L.owned[q], g)
  {
    if On(L, g, q) {
      OneProcess(L, g, q, OwnerOf(L, g));
    }
  }

  lemma UpdatedLast(L: SubLayout, ghosts: seq<int>, q: nat, before: seq<int>, i: nat)
    requires SubOk(L) && q < |L.owned| && i < |ghosts| == |before| && Found(L, q, Asked(L, ghosts, q, |ghosts|))
    ensures var dofs := SubAnswer(L, q, Asked(L, ghosts, q, |ghosts|));
      Updated(L, ghosts, q, before, dofs, i + 1)[i]
        == if On(L, ghosts[i], q) && ghosts[i] in L.owned[q]
           then Start(OwnedSizes(L), q) + Pos(L.owned[q], ghosts[i]) else before[i]
  {
    AskedMonotone(L, ghosts, q, i + 1, |ghosts|);
    var k := |Asked(L, ghosts, q, i)|;
    assert On(L, ghosts[i], q) ==> Asked(L, ghosts, q, i + 1)[k] == ghosts[i];
  }

  /** Requests reach only dofs in the owner's map. */
  lemma RequestFound(L: SubLayout, ghosts: seq<int>, q: nat)
    requires SubOk(L) && q < |L.owned| && forall j :: 0 <= j < |ghosts| ==> HasOwner(L, ghosts[j])
    ensures Found(L, q, Asked(L, ghosts, q, |ghosts|))
  {
    var w := Asked(L, ghosts, q, |ghosts|);
    forall j | 0 <= j < |w|
      ensures w[j] in L.owned[q]
    {
      assert w[j] in ghosts && On(L, w[j], q);
      OneProcess(L, w[j], q, OwnerOf(L, w[j]));
    }
  }

  // ---- the state machine ------------------------------------------------------------------

  ghost function Ask(L: SubLayout, r: nat, q: nat): seq<int>
    requires r < |L.ghosts|
  {
    Asked(L, L.ghosts[r], q, |L.ghosts[r]|)
  }

  function SubCursors(s: SubSystem): (at: seq<Cursor>)
    ensures |at| == |s| && forall r :: 0 <= r < |s| ==> at[r] == s[r].at
  {
    seq(|s|, r requires 0 <= r < |s| => s[r].at)
  }

  ghost predicate CanPass(L: SubLayout, s: SubSystem, x: nat, y: nat)
    requires SubOk(L)
  {
    && |s| == |L.nbs| && Enabled(L.nbs, SubCursors(s), x, y)
    && match s[x].at.tag
       case 0 => true
       case 1 => s[y].count == |Ask(L, x, y)|
       case _ =>
         Found(L, x, s[x].wanted) && |s[x].wanted| == |Ask(L, y, x)| && |s[y].ghostNumbers| == |L.ghosts[y]|
  }

  ghost function Delivered(L: SubLayout, s: SubSystem, x: nat, y: nat): SubProc
    requires SubOk(L) && CanPass(L, s, x, y)
  {
    match s[x].at.tag
    case 0 => s[y].(count := |Ask(L, x, y)|)
    case 1 => s[y].(wanted := Ask(L, x, y))
    case _ =>
      s[y].(ghostNumbers :=
        Updated(L, L.ghosts[y], x, s[y].ghostNumbers, SubAnswer(L, x, s[x].wanted), |L.ghosts[y]|))
  }

  ghost function After(L: SubLayout, s: SubSystem, x: nat, y: nat): SubSystem
    requires SubOk(L) && CanPass(L, s, x, y)
  {
    s[x := s[x].(at := Advance(SUB_MESSAGES, s[x].at))]
     [y := Delivered(L, s, x, y).(at := Advance(SUB_MESSAGES, s[y].at))]
  }

  ghost predicate Next(L: SubLayout, s: SubSystem, s': SubSystem)
    requires SubOk(L)
  {
    exists x: nat, y: nat :: CanPass(L, s, x, y) && s' == After(L, s, x, y)
  }

  ghost predicate Stuck(L: SubLayout, s: SubSystem)
    requires SubOk(L)
  {
    forall s' :: !Next(L, s, s')
  }

  /** Ghost dofs temporarily keep the parent's global numbers. */
  ghost function Init(L: SubLayout): (s: SubSystem)
    requires |L.ghosts| == |L.nbs|
    ensures |s| == |L.nbs| && forall r :: 0 <= r < |s| ==> s[r] == SubProc(Cursor(0, 0), L.ghosts[r], 0, [])
  {
    seq(|L.nbs|, r requires 0 <= r < |L.nbs| => SubProc(Cursor(0, 0), L.ghosts[r], 0, []))
  }

  ghost predicate IsRun(L: SubLayout, run: seq<SubSystem>)
    requires SubOk(L)
  {
    run != [] && run[0] == Init(L) && forall k :: 0 < k < |run| ==> Next(L, run[k - 1], run[k])
  }

  ghost predicate AllFinished(L: SubLayout, s: SubSystem) {
    |s| == |L.nbs| && forall r :: 0 <= r < |s| ==> Finished(L.nbs, r, s[r].at)
  }

  // ---- the invariant ----------------------------------------------------------------------

  /** Process r has completed its request to q before session n. */
  ghost predicate HasAsked(L: SubLayout, r: nat, n: nat, q: nat)
    requires r < |L.nbs|
  {
    exists j: nat :: j < n && j < Sessions(L.nbs, r) && Requests(L.nbs, r, j) && Peer(L.nbs, r, j) == q
  }

  /** A ghost dof has its sub-number once its owner was asked, and the parent's number before. */
  ghost predicate EntryRight(L: SubLayout, r: nat, n: nat, v: int, g: int)
    requires SubOk(L) && r < |L.nbs| && HasOwner(L, g)
  {
    v == if HasAsked(L, r, n, OwnerOf(L, g)) then SubNumber(L, g) else g
  }

  ghost predicate GhostsRight(L: SubLayout, r: nat, n: nat, numbers: seq<int>)
    requires SubOk(L) && r < |L.nbs|
  {
    |numbers| == |L.ghosts[r]| && forall i :: 0 <= i < |numbers| ==> EntryRight(L, r, n, numbers[i], L.ghosts[r][i])
  }

  ghost predicate RequestRight(L: SubLayout, r: nat, p: SubProc)
    requires SubOk(L) && r < |L.nbs|
  {
    if p.at.session >= Sessions(L.nbs, r) || Requests(L.nbs, r, p.at.session) then true
    else
      PeerInRange(L.nbs, r, p.at.session);
      var q := Peer(L.nbs, r, p.at.session);
      && (p.at.tag >= 1 ==> p.count == |Ask(L, q, r)|)
      && (p.at.tag >= 2 ==> p.wanted == Ask(L, q, r))
  }

  ghost predicate Inv(L: SubLayout, s: SubSystem)
    requires SubOk(L)
  {
    && |s| == |L.nbs| && InStep(L.nbs, SUB_MESSAGES, SubCursors(s))
    && forall r :: 0 <= r < |s| ==> GhostsRight(L, r, s[r].at.session, s[r].ghostNumbers) && RequestRight(L, r, s[r])
  }

  lemma HasAskedNext(L: SubLayout, r: nat, n: nat)
    requires r < |L.nbs| && n < Sessions(L.nbs, r)
    ensures forall q: nat :: HasAsked(L, r, n + 1, q) <==>
      HasAsked(L, r, n, q) || (Requests(L.nbs, r, n) && Peer(L.nbs, r, n) == q)
  {
    forall q: nat
      ensures HasAsked(L, r, n + 1, q) <==>
        HasAsked(L, r, n, q) || (Requests(L.nbs, r, n) && Peer(L.nbs, r, n) == q)
    {
      if HasAsked(L, r, n, q) {
        var j: nat :| j < n && j < Sessions(L.nbs, r) && Requests(L.nbs, r, j) && Peer(L.nbs, r, j) == q;
        assert j < n + 1;
      }
    }
  }

  lemma SenderKeeps(L: SubLayout, r: nat, p: SubProc)
    requires SubOk(L) && r < |L.nbs| && p.at.session < Sessions(L.nbs, r) && p.at.tag < SUB_MESSAGES
    requires Requests(L.nbs, r, p.at.session) == (p.at.tag < 2)
    requires GhostsRight(L, r, p.at.session, p.ghostNumbers) && RequestRight(L, r, p)
    ensures var p' := p.(at := Advance(SUB_MESSAGES, p.at));
      GhostsRight(L, r, p'.at.session, p'.ghostNumbers) && RequestRight(L, r, p')
  {
    HasAskedNext(L, r, p.at.session);
    var p' := p.(at := Advance(SUB_MESSAGES, p.at));
    forall i | 0 <= i < |p.ghostNumbers|
      ensures EntryRight(L, r, p'.at.session, p.ghostNumbers[i], L.ghosts[r][i])
    {
      assert EntryRight(L, r, p.at.session, p.ghostNumbers[i], L.ghosts[r][i]);
    }
  }

  lemma AnswerArrives(L: SubLayout, r: nat, n: nat, before: seq<int>, q: nat)
    requires SubOk(L) && r < |L.nbs| && n < Sessions(L.nbs, r) && Requests(L.nbs, r, n)
    requires q == Peer(L.nbs, r, n) && q < |L.nbs| && GhostsRight(L, r, n, before)
    ensures Found(L, q, Ask(L, r, q))
    ensures GhostsRight(L, r, n + 1,
                        Updated(L, L.ghosts[r], q, before, SubAnswer(L, q, Ask(L, r, q)), |L.ghosts[r]|))
  {
    RequestFound(L, L.ghosts[r], q);
    HasAskedNext(L, r, n);
    var after := Updated(L, L.ghosts[r], q, before, SubAnswer(L, q, Ask(L, r, q)), |L.ghosts[r]|);
    forall i | 0 <= i < |after|
      ensures EntryRight(L, r, n + 1, after[i], L.ghosts[r][i])
    {
      assert EntryRight(L, r, n, before[i], L.ghosts[r][i]);
      UpdatedEntry(L, L.ghosts[r], q, before, |L.ghosts[r]|, i);
    }
  }

  lemma ReceiverKeeps(L: SubLayout, s: SubSystem, x: nat, y: nat)
    requires SubOk(L) && Inv(L, s) && CanPass(L, s, x, y)
    ensures var p := Delivered(L, s, x, y).(at := Advance(SUB_MESSAGES, s[y].at));
      GhostsRight(L, y, p.at.session, p.ghostNumbers) && RequestRight(L, y, p)
  {
    EnabledIsPaired(L.nbs, SubCursors(s), x, y);
    assert GhostsRight(L, y, s[y].at.session, s[y].ghostNumbers) && RequestRight(L, y, s[y]);
    assert RequestRight(L, x, s[x]);
    assert CursorOk(L.nbs, SUB_MESSAGES, y, SubCursors(s)[y]);
    if s[x].at.tag == 2 {
      AnswerArrives(L, y, s[y].at.session, s[y].ghostNumbers, x);
    }
  }

  lemma StepKeepsInv(L: SubLayout, s: SubSystem, x: nat, y: nat)
    requires SubOk(L) && Inv(L, s) && CanPass(L, s, x, y)
    ensures Inv(L, After(L, s, x, y))
    ensures Work(L.nbs, SUB_MESSAGES, SubCursors(After(L, s, x, y)), |L.nbs|)
      == Work(L.nbs, SUB_MESSAGES, SubCursors(s), |L.nbs|) - 2
  {
    var at := SubCursors(s);
    EnabledIsPaired(L.nbs, at, x, y);
    PassingKeepsStep(L.nbs, SUB_MESSAGES, at, x, y);
    PassingLowersWork(L.nbs, SUB_MESSAGES, at, x, y);
    assert SubCursors(After(L, s, x, y)) == Passed(L.nbs, SUB_MESSAGES, at, x, y);
    assert CursorOk(L.nbs, SUB_MESSAGES, x, at[x]);
    SenderKeeps(L, x, s[x]);
    ReceiverKeeps(L, s, x, y);
  }

  lemma Progress(L: SubLayout, s: SubSystem)
    requires SubOk(L) && Inv(L, s) && !AllFinished(L, s)
    ensures !Stuck(L, s)
  {
    var u :| 0 <= u < |s| && !Finished(L.nbs, u, s[u].at);
    var x, y := NoDeadlock(L.nbs, SUB_MESSAGES, SubCursors(s), u);
    EnabledIsPaired(L.nbs, SubCursors(s), x, y);
    assert CursorOk(L.nbs, SUB_MESSAGES, x, SubCursors(s)[x]);
    assert GhostsRight(L, y, s[y].at.session, s[y].ghostNumbers) && RequestRight(L, y, s[y]);
    assert RequestRight(L, x, s[x]);
    if s[x].at.tag == 2 {
      RequestFound(L, L.ghosts[y], x);
    }
    assert Next(L, s, After(L, s, x, y));
  }

  lemma {:induction false} RunInv(L: SubLayout, run: seq<SubSystem>, k: nat)
    requires SubOk(L) && IsRun(L, run) && k < |run|
    ensures Inv(L, run[k])
    ensures Work(L.nbs, SUB_MESSAGES, SubCursors(run[k]), |L.nbs|)
      == Work(L.nbs, SUB_MESSAGES, StartLine(L.nbs), |L.nbs|) - 2 * k
  {
    if k == 0 {
      assert SubCursors(Init(L)) == StartLine(L.nbs);
      StartInStep(L.nbs, SUB_MESSAGES);
    } else {
      RunInv(L, run, k - 1);
      assert Next(L, run[k - 1], run[k]);
      var x: nat, y: nat :| CanPass(L, run[k - 1], x, y) && run[k] == After(L, run[k - 1], x, y);
      StepKeepsInv(L, run[k - 1], x, y);
    }
  }

  /** The sub-handler exchange always completes. */
  lemma SubRunsComplete(L: SubLayout, run: seq<SubSystem>)
    requires SubOk(L) && IsRun(L, run)
    ensures 2 * (|run| - 1) <= Work(L.nbs, SUB_MESSAGES, StartLine(L.nbs), |L.nbs|)
    ensures AllFinished(L, run[|run| - 1]) <==> Stuck(L, run[|run| - 1])
  {
    var s := run[|run| - 1];
    RunInv(L, run, |run| - 1);
    WorkPositive(L.nbs, SUB_MESSAGES, SubCursors(s), |L.nbs|);
    if !AllFinished(L, s) {
      Progress(L, s);
    }
  }

  lemma ExtendRun(L: SubLayout, run: seq<SubSystem>, s': SubSystem)
    requires SubOk(L) && IsRun(L, run) && Next(L, run[|run| - 1], s')
    ensures IsRun(L, run + [s']) && 2 * |run| <= Work(L.nbs, SUB_MESSAGES, StartLine(L.nbs), |L.nbs|)
  {
    var longer := run + [s'];
    forall k | 0 < k < |longer|
      ensures Next(L, longer[k - 1], longer[k])
    {
      assert k < |run| ==> Next(L, run[k - 1], run[k]);
    }
    SubRunsComplete(L, longer);
  }

  lemma LongerRun(L: SubLayout, run: seq<SubSystem>) returns (longer: seq<SubSystem>)
    requires SubOk(L) && IsRun(L, run) && !AllFinished(L, run[|run| - 1])
    ensures IsRun(L, longer) && run <= longer && |longer| == |run| + 1
    ensures 2 * |run| <= Work(L.nbs, SUB_MESSAGES, StartLine(L.nbs), |L.nbs|)
  {
    SubRunsComplete(L, run);
    var s' :| Next(L, run[|run| - 1], s');
    ExtendRun(L, run, s');
    longer := run + [s'];
  }

  /** Every run can be continued to one that is complete. */
  lemma {:induction false} SubCompleteFrom(L: SubLayout, run: seq<SubSystem>, work: int) returns (whole: seq<SubSystem>)
    requires SubOk(L) && IsRun(L, run) && work == Work(L.nbs, SUB_MESSAGES, StartLine(L.nbs), |L.nbs|)
    ensures IsRun(L, whole) && run <= whole && AllFinished(L, whole[|whole| - 1])
    decreases work - 2 * |run|
  {
    if AllFinished(L, run[|run| - 1]) {
      whole := run;
    } else {
      var longer := LongerRun(L, run);
      whole := SubCompleteFrom(L, longer, work);
    }
  }

  /** After a complete exchange a ghost dof holds its owner's sub-number if the owner is a ghost
      neighbour, and the parent's global number if it is not: it is right exactly if the owner is
      a neighbour or the two numbers happen to coincide. */
  lemma GhostNumberRight(L: SubLayout, run: seq<SubSystem>, r: nat, i: nat)
    requires SubOk(L) && IsRun(L, run) && Stuck(L, run[|run| - 1])
    requires r < |L.nbs| && i < |L.ghosts[r]|
    ensures |run[|run| - 1]| == |L.nbs| && |run[|run| - 1][r].ghostNumbers| == |L.ghosts[r]|
    ensures var g, v := L.ghosts[r][i], run[|run| - 1][r].ghostNumbers[i];
      && HasOwner(L, g)
      && v == (if OwnerOf(L, g) in L.nbs[r] then SubNumber(L, g) else g)
      && (v == SubNumber(L, g) <==> OwnerOf(L, g) in L.nbs[r] || SubNumber(L, g) == g)
  {
    var s := run[|run| - 1];
    SubRunsComplete(L, run);
    RunInv(L, run, |run| - 1);
    assert GhostsRight(L, r, s[r].at.session, s[r].ghostNumbers);
    var g := L.ghosts[r][i];
    assert EntryRight(L, r, s[r].at.session, s[r].ghostNumbers[i], g);
    var q := OwnerOf(L, g);
    if q in L.nbs[r] {
      var k := AllRequested(L.nbs, r, q);
      assert HasAsked(L, r, s[r].at.session, q);
    }
  }
}
