/** The pairwise communication pattern of the dof handlers (the loops `from_higher` over
    `ghost_proc`), with blocking sends: a message passes only when its sender stands at the send
    and its receiver at the matching receive. Every process runs two passes over its neighbours
    in ascending order; in pass 0 it requests data from lower neighbours and answers higher ones,
    in pass 1 the other way round. A session is `len` messages, tags 0 to len-1: the requesting
    side sends tags 0 and 1, the answering side sends the rest. */
module Handshake {

  /** Where a process stands: its session, and the tag of the next message of that session. */
  datatype Cursor = Cursor(session: nat, tag: nat)

  datatype Op = Send(to: nat, tag: nat) | Recv(from: nat, tag: nat)

  /** Position of a session in the global order. */
  datatype Key = Key(pass: nat, low: nat, high: nat)

  // ---- the network ------------------------------------------------------------------------

  ghost predicate Ascending(s: seq<nat>) {
    forall i, j :: 0 <= i < j < |s| ==> s[i] < s[j]
  }

  /** Neighbour lists are ascending, and neighbourhood is symmetric and irreflexive. */
  ghost predicate Network(nbs: seq<seq<nat>>) {
    && (forall r :: 0 <= r < |nbs| ==> Ascending(nbs[r]))
    && (forall r, q :: 0 <= r < |nbs| && q in nbs[r] ==> q < |nbs| && q != r)
    && (forall r, q :: 0 <= r < |nbs| && 0 <= q < |nbs| && q in nbs[r] ==> r in nbs[q])
  }

  function Sessions(nbs: seq<seq<nat>>, r: nat): nat
    requires r < |nbs|
  {
    2 * |nbs[r]|
  }

  function Pass(nbs: seq<seq<nat>>, r: nat, j: nat): nat
    requires r < |nbs| && j < Sessions(nbs, r)
  {
    if j < |nbs[r]| then 0 else 1
  }

  function Peer(nbs: seq<seq<nat>>, r: nat, j: nat): (q: nat)
    requires r < |nbs| && j < Sessions(nbs, r)
    ensures q in nbs[r]
  {
    if j < |nbs[r]| then nbs[r][j] else nbs[r][j - |nbs[r]|]
  }

  lemma PeerInRange(nbs: seq<seq<nat>>, r: nat, j: nat)
    requires Network(nbs) && r < |nbs| && j < Sessions(nbs, r)
    ensures Peer(nbs, r, j) < |nbs| && Peer(nbs, r, j) != r
  {
  }

  /** Does process r ask for data in its session j? */
  predicate Requests(nbs: seq<seq<nat>>, r: nat, j: nat)
    requires r < |nbs| && j < Sessions(nbs, r)
  {
    (Peer(nbs, r, j) > r) == (Pass(nbs, r, j) == 1)
  }

  function NextOp(nbs: seq<seq<nat>>, r: nat, cur: Cursor): Op
    requires r < |nbs| && cur.session < Sessions(nbs, r)
  {
    if Requests(nbs, r, cur.session) == (cur.tag < 2) then Send(Peer(nbs, r, cur.session), cur.tag)
    else Recv(Peer(nbs, r, cur.session), cur.tag)
  }

  // ---- steps ------------------------------------------------------------------------------

  predicate CursorOk(nbs: seq<seq<nat>>, len: nat, r: nat, cur: Cursor)
    requires r < |nbs|
  {
    if cur.session < Sessions(nbs, r) then cur.tag < len else cur == Cursor(Sessions(nbs, r), 0)
  }

  predicate Finished(nbs: seq<seq<nat>>, r: nat, cur: Cursor)
    requires r < |nbs|
  {
    cur.session >= Sessions(nbs, r)
  }

  function Advance(len: nat, cur: Cursor): Cursor {
    if cur.tag + 1 >= len then Cursor(cur.session + 1, 0) else Cursor(cur.session, cur.tag + 1)
  }

  /** Process x is about to send to y exactly what y is about to receive from x. */
  predicate Enabled(nbs: seq<seq<nat>>, at: seq<Cursor>, x: nat, y: nat)
    requires |at| == |nbs|
  {
    && x < |at| && y < |at| && x != y
    && !Finished(nbs, x, at[x]) && !Finished(nbs, y, at[y])
    && NextOp(nbs, x, at[x]) == Send(y, at[x].tag)
    && NextOp(nbs, y, at[y]) == Recv(x, at[x].tag)
  }

  function Passed(nbs: seq<seq<nat>>, len: nat, at: seq<Cursor>, x: nat, y: nat): seq<Cursor>
    requires |at| == |nbs| && Enabled(nbs, at, x, y)
  {
    at[x := Advance(len, at[x])][y := Advance(len, at[y])]
  }

  // ---- both ends of a session agree -------------------------------------------------------

  /** Messages of session j that a process at `cur` has completed. */
  function Done(len: nat, cur: Cursor, j: nat): nat {
    if cur.session < j then 0 else if cur.session == j then cur.tag else len
  }

  /** Session i of process a and session j of process b are the two ends of one session. */
  predicate Paired(nbs: seq<seq<nat>>, a: nat, i: nat, b: nat, j: nat) {
    && a < |nbs| && i < Sessions(nbs, a) && b < |nbs| && j < Sessions(nbs, b)
    && Peer(nbs, a, i) == b && Peer(nbs, b, j) == a
    && Pass(nbs, a, i) == Pass(nbs, b, j)
  }

  ghost predicate InStep(nbs: seq<seq<nat>>, len: nat, at: seq<Cursor>) {
    && |at| == |nbs|
    && (forall r :: 0 <= r < |at| ==> CursorOk(nbs, len, r, at[r]))
    && (forall a: nat, i: nat, b: nat, j: nat :: Paired(nbs, a, i, b, j) ==> Done(len, at[a], i) == Done(len, at[b], j))
  }

  lemma SessionUnique(nbs: seq<seq<nat>>, r: nat, i: nat, j: nat)
    requires Network(nbs) && r < |nbs| && i < Sessions(nbs, r) && j < Sessions(nbs, r)
    requires Peer(nbs, r, i) == Peer(nbs, r, j) && Pass(nbs, r, i) == Pass(nbs, r, j)
    ensures i == j
  {
    assert Ascending(nbs[r]);
  }

  /** Every session has a counterpart at the peer, in the same pass and with the opposite role. */
  lemma Counterpart(nbs: seq<seq<nat>>, a: nat, i: nat) returns (b: nat, j: nat)
    requires Network(nbs) && a < |nbs| && i < Sessions(nbs, a)
    ensures Paired(nbs, a, i, b, j) && a != b
    ensures Requests(nbs, a, i) != Requests(nbs, b, j)
  {
    b := Peer(nbs, a, i);
    var k: nat :| k < |nbs[b]| && nbs[b][k] == a;
    j := if Pass(nbs, a, i) == 0 then k else k + |nbs[b]|;
  }

  /** A message can pass only between the two ends of the same session. */
  lemma EnabledIsPaired(nbs: seq<seq<nat>>, at: seq<Cursor>, x: nat, y: nat)
    requires Network(nbs) && |at| == |nbs| && Enabled(nbs, at, x, y)
    ensures Paired(nbs, x, at[x].session, y, at[y].session) && at[x].tag == at[y].tag
    ensures Requests(nbs, x, at[x].session) != Requests(nbs, y, at[y].session)
  {
  }

  /** A message adds one to the count of the session it belongs to and to no other. */
  lemma DoneAdvance(len: nat, cur: Cursor, j: nat)
    requires cur.tag < len
    ensures Done(len, Advance(len, cur), j) == Done(len, cur, j) + (if j == cur.session then 1 else 0)
  {
  }

  /** The message of session (a, i) is also the message of its counterpart (b, j). */
  lemma SameSession(nbs: seq<seq<nat>>, at: seq<Cursor>, x: nat, y: nat, a: nat, i: nat, b: nat, j: nat)
    requires Network(nbs) && |at| == |nbs| && x < |at| && y < |at|
    requires Paired(nbs, x, at[x].session, y, at[y].session) && Paired(nbs, a, i, b, j)
    requires (a == x || a == y) && i == at[a].session
    ensures (b == x || b == y) && b != a && j == at[b].session
  {
    if a == x {
      SessionUnique(nbs, y, j, at[y].session);
    } else {
      SessionUnique(nbs, x, j, at[x].session);
    }
  }

  lemma PassingKeepsPair(nbs: seq<seq<nat>>, len: nat, at: seq<Cursor>, x: nat, y: nat,
                         a: nat, i: nat, b: nat, j: nat)
    requires Network(nbs) && InStep(nbs, len, at) && Enabled(nbs, at, x, y) && Paired(nbs, a, i, b, j)
    ensures var after := Passed(nbs, len, at, x, y); Done(len, after[a], i) == Done(len, after[b], j)
  {
    EnabledIsPaired(nbs, at, x, y);
    assert Done(len, at[a], i) == Done(len, at[b], j);
    DoneAdvance(len, at[a], i);
    DoneAdvance(len, at[b], j);
    if (a == x || a == y) && i == at[a].session {
      SameSession(nbs, at, x, y, a, i, b, j);
    } else if (b == x || b == y) && j == at[b].session {
      SameSession(nbs, at, x, y, b, j, a, i);
    }
  }

  lemma PassingKeepsStep(nbs: seq<seq<nat>>, len: nat, at: seq<Cursor>, x: nat, y: nat)
    requires Network(nbs) && InStep(nbs, len, at) && Enabled(nbs, at, x, y)
    ensures InStep(nbs, len, Passed(nbs, len, at, x, y))
  {
    var after := Passed(nbs, len, at, x, y);
    forall a: nat, i: nat, b: nat, j: nat | Paired(nbs, a, i, b, j)
      ensures Done(len, after[a], i) == Done(len, after[b], j)
    {
      PassingKeepsPair(nbs, len, at, x, y, a, i, b, j);
    }
  }

  /** A process requests from each neighbour once. */
  lemma RequestsOnce(nbs: seq<seq<nat>>, r: nat, i: nat, j: nat)
    requires Network(nbs) && r < |nbs| && i < j < Sessions(nbs, r)
    requires Requests(nbs, r, i) && Requests(nbs, r, j)
    ensures Peer(nbs, r, i) != Peer(nbs, r, j)
  {
    assert Ascending(nbs[r]);
  }

  /** A process that answers, or has finished, has already requested from all lower neighbours. */
  lemma LowerFirst(nbs: seq<seq<nat>>, r: nat, n: nat, q: nat) returns (k: nat)
    requires Network(nbs) && r < |nbs| && q in nbs[r] && q < r
    requires n >= Sessions(nbs, r) || !Requests(nbs, r, n)
    ensures k < n && k < Sessions(nbs, r) && Requests(nbs, r, k) && Peer(nbs, r, k) == q
  {
    k :| k < |nbs[r]| && nbs[r][k] == q;
    assert Ascending(nbs[r]);
    if n < |nbs[r]| {
      PeerInRange(nbs, r, n);
    }
  }

  /** A finished process has requested from all its neighbours. */
  lemma AllRequested(nbs: seq<seq<nat>>, r: nat, q: nat) returns (k: nat)
    requires Network(nbs) && r < |nbs| && q in nbs[r]
    ensures k < Sessions(nbs, r) && Requests(nbs, r, k) && Peer(nbs, r, k) == q
  {
    k :| k < |nbs[r]| && nbs[r][k] == q;
    if q > r {
      k := k + |nbs[r]|;
    }
  }

  // ---- freedom from deadlock --------------------------------------------------------------

  function KeyOf(nbs: seq<seq<nat>>, r: nat, j: nat): Key
    requires r < |nbs| && j < Sessions(nbs, r)
  {
    var q := Peer(nbs, r, j);
    Key(Pass(nbs, r, j), if r < q then r else q, if r < q then q else r)
  }

  predicate Less(a: Key, b: Key) {
    a.pass < b.pass || (a.pass == b.pass && (a.low < b.low || (a.low == b.low && a.high < b.high)))
  }

  /** A process visits its sessions in the global order. */
  lemma SessionsAscend(nbs: seq<seq<nat>>, r: nat, i: nat, j: nat)
    requires Network(nbs) && r < |nbs| && i < j < Sessions(nbs, r)
    ensures Less(KeyOf(nbs, r, i), KeyOf(nbs, r, j))
  {
    assert Ascending(nbs[r]);
    var p, q := Peer(nbs, r, i), Peer(nbs, r, j);
    assert Pass(nbs, r, i) == Pass(nbs, r, j) ==> p < q;
  }

  /** Among the first n processes some unfinished one stands at the earliest session. */
  lemma {:induction false} Earliest(nbs: seq<seq<nat>>, at: seq<Cursor>, n: nat, u: nat) returns (e: nat)
    requires |at| == |nbs| && u < n <= |at| && !Finished(nbs, u, at[u])
    ensures e < n && !Finished(nbs, e, at[e])
    ensures forall r :: 0 <= r < n && !Finished(nbs, r, at[r]) ==>
      !Less(KeyOf(nbs, r, at[r].session), KeyOf(nbs, e, at[e].session))
  {
    if u == n - 1 && forall r :: 0 <= r < n - 1 ==> Finished(nbs, r, at[r]) {
      e := u;
    } else {
      var v := u;
      if u == n - 1 {
        v :| 0 <= v < n - 1 && !Finished(nbs, v, at[v]);
      }
      e := Earliest(nbs, at, n - 1, v);
      if !Finished(nbs, n - 1, at[n - 1])
        && Less(KeyOf(nbs, n - 1, at[n - 1].session), KeyOf(nbs, e, at[e].session)) {
        e := n - 1;
      }
    }
  }

  /** While some process has not finished, some message can pass: the exchange never deadlocks. */
  lemma NoDeadlock(nbs: seq<seq<nat>>, len: nat, at: seq<Cursor>, u: nat) returns (x: nat, y: nat)
    requires Network(nbs) && InStep(nbs, len, at)
    requires u < |at| && !Finished(nbs, u, at[u])
    ensures Enabled(nbs, at, x, y)
  {
    var a := Earliest(nbs, at, |at|, u);
    var i := at[a].session;
    var b, j := Counterpart(nbs, a, i);
    assert Done(len, at[a], i) == Done(len, at[b], j);
    assert CursorOk(nbs, len, a, at[a]) && CursorOk(nbs, len, b, at[b]);
    assert KeyOf(nbs, a, i) == KeyOf(nbs, b, j);
    if at[b].session < j {
      SessionsAscend(nbs, b, at[b].session, j);
    }
    if NextOp(nbs, a, at[a]).Send? {
      x, y := a, b;
    } else {
      x, y := b, a;
    }
  }

  // ---- termination ------------------------------------------------------------------------

  /** Messages that process r still has to send or receive. */
  function Left(nbs: seq<seq<nat>>, len: nat, r: nat, cur: Cursor): int
    requires r < |nbs|
  {
    (Sessions(nbs, r) - cur.session) * len - cur.tag
  }

  /** ... summed over the first n processes. */
  function Work(nbs: seq<seq<nat>>, len: nat, at: seq<Cursor>, n: nat): int
    requires |at| == |nbs| && n <= |at|
  {
    if n == 0 then 0 else Work(nbs, len, at, n - 1) + Left(nbs, len, n - 1, at[n - 1])
  }

  lemma LeftAdvance(nbs: seq<seq<nat>>, len: nat, r: nat, cur: Cursor)
    requires r < |nbs| && cur.session < Sessions(nbs, r) && cur.tag < len
    ensures Left(nbs, len, r, Advance(len, cur)) == Left(nbs, len, r, cur) - 1
  {
    OneLess(Sessions(nbs, r) - cur.session, len);
  }

  lemma LeftPositive(nbs: seq<seq<nat>>, len: nat, r: nat, cur: Cursor)
    requires r < |nbs| && CursorOk(nbs, len, r, cur)
    ensures Left(nbs, len, r, cur) >= 0
  {
    if cur.session < Sessions(nbs, r) {
      OneLess(Sessions(nbs, r) - cur.session, len);
      assert Left(nbs, len, r, cur) >= len - cur.tag;
    } else {
      assert Left(nbs, len, r, cur) == 0 * len == 0;
    }
  }

  lemma OneLess(k: int, n: nat)
    requires k > 0
    ensures (k - 1) * n == k * n - n && (k - 1) * n >= 0
  {
  }

  lemma {:induction false} WorkUpdate(nbs: seq<seq<nat>>, len: nat, at: seq<Cursor>, n: nat, r: nat, cur: Cursor)
    requires |at| == |nbs| && n <= |at| && r < |at|
    ensures Work(nbs, len, at[r := cur], n)
      == Work(nbs, len, at, n)
         + (if r < n then Left(nbs, len, r, cur) - Left(nbs, len, r, at[r]) else 0)
  {
    if n > 0 {
      WorkUpdate(nbs, len, at, n - 1, r, cur);
    }
  }

  /** Each message lowers the remaining work by two, so runs are bounded. */
  lemma PassingLowersWork(nbs: seq<seq<nat>>, len: nat, at: seq<Cursor>, x: nat, y: nat)
    requires InStep(nbs, len, at) && Enabled(nbs, at, x, y)
    ensures Work(nbs, len, Passed(nbs, len, at, x, y), |at|) == Work(nbs, len, at, |at|) - 2
  {
    var mid := at[x := Advance(len, at[x])];
    WorkUpdate(nbs, len, at, |at|, x, Advance(len, at[x]));
    WorkUpdate(nbs, len, mid, |at|, y, Advance(len, at[y]));
    LeftAdvance(nbs, len, x, at[x]);
    LeftAdvance(nbs, len, y, at[y]);
  }

  lemma {:induction false} WorkPositive(nbs: seq<seq<nat>>, len: nat, at: seq<Cursor>, n: nat)
    requires |at| == |nbs| && n <= |at| && forall r :: 0 <= r < |at| ==> CursorOk(nbs, len, r, at[r])
    ensures Work(nbs, len, at, n) >= 0
  {
    if n > 0 {
      WorkPositive(nbs, len, at, n - 1);
      LeftPositive(nbs, len, n - 1, at[n - 1]);
    }
  }

  /** Everybody at the start: no message has passed. */
  function StartLine(nbs: seq<seq<nat>>): (at: seq<Cursor>)
    ensures |at| == |nbs| && forall r :: 0 <= r < |at| ==> at[r] == Cursor(0, 0)
  {
    seq(|nbs|, r => Cursor(0, 0))
  }

  lemma StartInStep(nbs: seq<seq<nat>>, len: nat)
    requires len > 0
    ensures InStep(nbs, len, StartLine(nbs))
  {
  }
}
