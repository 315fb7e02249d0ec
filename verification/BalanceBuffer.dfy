/** The buffer in which processes send their parts of a balance to process 0
    (src/coupling/balance.cc:712-765): packed, summed entry by entry, and unpacked. */
module BalanceBuffer {
  import opened RealSums

  /** Sources and fluxes by quantity and region, and increments of sources by quantity. */
  datatype Tables = Tables(sourcesIn: seq<seq<real>>, sourcesOut: seq<seq<real>>,
                           fluxesIn: seq<seq<real>>, fluxesOut: seq<seq<real>>, increments: seq<real>)

  /** Numbers of quantities, bulk regions and boundary regions. */
  datatype Sizes = Sizes(quantities: nat, bulk: nat, boundary: nat) {
    function SourcesAt(q: nat): nat {
      Rows(q, 2 * bulk)
    }

    function FluxesAt(q: nat): nat {
      Rows(quantities, 2 * bulk) + Rows(q, 2 * boundary)
    }

    function IncrementAt(q: nat): nat {
      Rows(quantities, 2 * bulk) + Rows(quantities, 2 * boundary) + q
    }

    function BufferSize(): nat {
      Rows(quantities, 2 * bulk) + Rows(quantities, 2 * boundary) + quantities
    }
  }

  /** Number of entries in n rows: their product, as a sum. */
  function Rows(n: nat, length: nat): nat {
    if n == 0 then 0 else Rows(n - 1, length) + length
  }

  lemma {:induction false} RowsIsProduct(n: nat, length: nat)
    ensures Rows(n, length) == n * length
  {
    if n == 0 {
      assert 0 * length == 0;
    } else {
      RowsIsProduct(n - 1, length);
      assert (n - 1) * length + length == n * length;
    }
  }

  ghost predicate QuantityOk(t: Tables, s: Sizes, q: nat) {
    && q < |t.sourcesIn| && q < |t.sourcesOut| && |t.sourcesIn[q]| == |t.sourcesOut[q]| == s.bulk
    && q < |t.fluxesIn| && q < |t.fluxesOut| && |t.fluxesIn[q]| == |t.fluxesOut[q]| == s.boundary
    && q < |t.increments|
  }

  ghost predicate TablesOk(t: Tables, s: Sizes) {
    && |t.sourcesIn| == |t.sourcesOut| == |t.fluxesIn| == |t.fluxesOut| == |t.increments| == s.quantities
    && forall q: nat :: q < s.quantities ==> QuantityOk(t, s, q)
  }

  // ---- the layout -------------------------------------------------------------------------

  lemma {:induction false} RowsAscend(length: nat, p: nat, q: nat)
    requires p <= q
    ensures Rows(p, length) <= Rows(q, length)
  {
    if p < q {
      RowsAscend(length, p, q - 1);
    }
  }

  lemma Block(n: nat, length: nat, p: nat, q: nat)
    requires p < q <= n
    ensures Rows(p, length) + length <= Rows(q, length) <= Rows(n, length)
  {
    RowsAscend(length, p + 1, q);
    RowsAscend(length, q, n);
  }

  /** The parts of a quantity lie one after the other, and within the buffer. */
  lemma PartsInside(s: Sizes, q: nat)
    requires q < s.quantities
    ensures s.SourcesAt(q) + 2 * s.bulk <= Rows(s.quantities, 2 * s.bulk) <= s.FluxesAt(q)
    ensures s.FluxesAt(q) + 2 * s.boundary <= s.IncrementAt(0) <= s.IncrementAt(q) < s.BufferSize()
  {
    Block(s.quantities, 2 * s.bulk, q, s.quantities);
    Block(s.quantities, 2 * s.boundary, q, s.quantities);
  }

  /** And before those of later quantities. */
  lemma PartsOrdered(s: Sizes, p: nat, q: nat)
    requires p < q < s.quantities
    ensures s.SourcesAt(p) + 2 * s.bulk <= s.SourcesAt(q) && s.FluxesAt(p) + 2 * s.boundary <= s.FluxesAt(q)
  {
    Block(s.quantities, 2 * s.bulk, p, q);
    Block(s.quantities, 2 * s.boundary, p, q);
  }

  /** The buffer holds two rows of equal length from position `at`. */
  ghost predicate HoldsPair(buf: seq<real>, at: nat, x: seq<real>, y: seq<real>) {
    && |x| == |y| && at + 2 * |x| <= |buf|
    && buf[at..at + |x|] == x && buf[at + |x|..at + 2 * |x|] == y
  }

  ghost predicate Holds(buf: seq<real>, t: Tables, s: Sizes, q: nat)
    requires QuantityOk(t, s, q)
  {
    && HoldsPair(buf, s.SourcesAt(q), t.sourcesIn[q], t.sourcesOut[q])
    && HoldsPair(buf, s.FluxesAt(q), t.fluxesIn[q], t.fluxesOut[q])
    && s.IncrementAt(q) < |buf| && buf[s.IncrementAt(q)] == t.increments[q]
  }

  ghost predicate IsPacked(buf: seq<real>, t: Tables, s: Sizes) {
    |buf| == s.BufferSize() && TablesOk(t, s) && forall q: nat :: q < s.quantities ==> Holds(buf, t, s, q)
  }

  // ---- packing ----------------------------------------------------------------------------

  method WritePair(buf: seq<real>, at: nat, x: seq<real>, y: seq<real>) returns (r: seq<real>)
    requires |x| == |y| && at + 2 * |x| <= |buf|
    ensures |r| == |buf| && HoldsPair(r, at, x, y)
    ensures forall i :: 0 <= i < |buf| && !(at <= i < at + 2 * |x|) ==> r[i] == buf[i]
  {
    r := buf;
    var n, k := |x|, 0;
    while k < n
      invariant k <= n && |r| == |buf|
      invariant forall i :: 0 <= i < k ==> r[at + i] == x[i] && r[at + n + i] == y[i]
      invariant forall i :: 0 <= i < |buf| && !(at <= i < at + 2 * n) ==> r[i] == buf[i]
    {
      r := r[at + k := x[k]];
      r := r[at + n + k := y[k]];
      k := k + 1;
    }
  }

  lemma PairKept(buf: seq<real>, r: seq<real>, at: nat, x: seq<real>, y: seq<real>)
    requires HoldsPair(buf, at, x, y) && |r| == |buf|
    requires forall i :: at <= i < at + 2 * |x| ==> r[i] == buf[i]
    ensures HoldsPair(r, at, x, y)
  {
    assert r[at..at + |x|] == buf[at..at + |x|];
    assert r[at + |x|..at + 2 * |x|] == buf[at + |x|..at + 2 * |x|];
  }

  /** Positions of the parts of quantity q. */
  predicate InParts(s: Sizes, q: nat, i: int) {
    Within(s.SourcesAt(q), 2 * s.bulk, s.FluxesAt(q), 2 * s.boundary, s.IncrementAt(q), i)
  }

  method PackQuantity(buf: seq<real>, t: Tables, s: Sizes, q: nat) returns (r: seq<real>)
    requires |buf| == s.BufferSize() && q < s.quantities && QuantityOk(t, s, q)
    ensures |r| == |buf| && Holds(r, t, s, q)
    ensures forall i :: 0 <= i < |buf| && !InParts(s, q, i) ==> r[i] == buf[i]
  {
    PartsInside(s, q);
    var a, b, c := s.SourcesAt(q), s.FluxesAt(q), s.IncrementAt(q);
    var r1 := WritePair(buf, a, t.sourcesIn[q], t.sourcesOut[q]);
    var r2 := WritePair(r1, b, t.fluxesIn[q], t.fluxesOut[q]);
    r := r2[c := t.increments[q]];
    PairKept(r1, r, a, t.sourcesIn[q], t.sourcesOut[q]);
    PairKept(r2, r, b, t.fluxesIn[q], t.fluxesOut[q]);
  }

  predicate Within(a: int, w: int, b: int, v: int, c: int, i: int) {
    a <= i < a + w || b <= i < b + v || i == c
  }

  lemma WithinDisjoint(a: int, a': int, w: int, b: int, b': int, v: int, c: int, c': int, middle: int, end: int, i: int)
    requires 0 <= a && a + w <= a' && a' + w <= middle <= b && b + v <= b' && b' + v <= c && c < c' < end
      && Within(a, w, b, v, c, i)
    requires 0 <= w && 0 <= v
    ensures 0 <= i < end && !Within(a', w, b', v, c', i)
  {
  }

  lemma PartsDisjoint(s: Sizes, p: nat, q: nat, i: int)
    requires p < q < s.quantities && InParts(s, p, i)
    ensures 0 <= i < s.BufferSize() && !InParts(s, q, i)
  {
    PartsInside(s, p);
    PartsInside(s, q);
    PartsOrdered(s, p, q);
    WithinDisjoint(s.SourcesAt(p), s.SourcesAt(q), 2 * s.bulk, s.FluxesAt(p), s.FluxesAt(q), 2 * s.boundary,
                   s.IncrementAt(p), s.IncrementAt(q), Rows(s.quantities, 2 * s.bulk), s.BufferSize(), i);
  }

  lemma QuantityKept(buf: seq<real>, r: seq<real>, t: Tables, s: Sizes, p: nat, q: nat)
    requires p < q < s.quantities && QuantityOk(t, s, p) && Holds(buf, t, s, p) && |r| == |buf| == s.BufferSize()
    requires forall i :: 0 <= i < |buf| && !InParts(s, q, i) ==> r[i] == buf[i]
    ensures Holds(r, t, s, p)
  {
    forall i | InParts(s, p, i)
      ensures 0 <= i < |buf| && r[i] == buf[i]
    {
      PartsDisjoint(s, p, q, i);
    }
    PartKept(buf, r, t, s, p);
  }

  lemma PartKept(buf: seq<real>, r: seq<real>, t: Tables, s: Sizes, p: nat)
    requires QuantityOk(t, s, p) && Holds(buf, t, s, p) && |r| == |buf|
    requires forall i :: InParts(s, p, i) ==> 0 <= i < |buf| && r[i] == buf[i]
    ensures Holds(r, t, s, p)
  {
    var a, b, c := s.SourcesAt(p), s.FluxesAt(p), s.IncrementAt(p);
    forall i | a <= i < a + 2 * s.bulk
      ensures r[i] == buf[i]
    {
      assert InParts(s, p, i);
    }
    forall i | b <= i < b + 2 * s.boundary
      ensures r[i] == buf[i]
    {
      assert InParts(s, p, i);
    }
    assert InParts(s, p, c);
    PairKept(buf, r, a, t.sourcesIn[p], t.sourcesOut[p]);
    PairKept(buf, r, b, t.fluxesIn[p], t.fluxesOut[p]);
  }

  method Pack(t: Tables, s: Sizes) returns (buf: seq<real>)
    requires TablesOk(t, s)
    ensures IsPacked(buf, t, s)
  {
    buf := seq(s.BufferSize(), _ => 0.0);
    var q := 0;
    while q < s.quantities
      invariant q <= s.quantities && |buf| == s.BufferSize()
      invariant forall p: nat :: p < q ==> Holds(buf, t, s, p)
    {
      ghost var before := buf;
      buf := PackQuantity(buf, t, s, q);
      forall p: nat | p < q
        ensures Holds(buf, t, s, p)
      {
        QuantityKept(before, buf, t, s, p, q);
      }
      q := q + 1;
    }
  }

  /** The first q quantities are read from the buffer. */
  ghost predicate UnpackedTo(buf: seq<real>, t: Tables, s: Sizes, q: nat) {
    && |t.sourcesIn| == |t.sourcesOut| == |t.fluxesIn| == |t.fluxesOut| == |t.increments| == q <= s.quantities
    && forall p: nat :: p < q ==> QuantityOk(t, s, p) && Holds(buf, t, s, p)
  }

  method UnpackNext(buf: seq<real>, t: Tables, s: Sizes, q: nat) returns (u: Tables)
    requires |buf| == s.BufferSize() && q < s.quantities && UnpackedTo(buf, t, s, q)
    ensures UnpackedTo(buf, u, s, q + 1)
  {
    PartsInside(s, q);
    var a, b, c := s.SourcesAt(q), s.FluxesAt(q), s.IncrementAt(q);
    u := Tables(
      t.sourcesIn + [buf[a..a + s.bulk]], t.sourcesOut + [buf[a + s.bulk..a + 2 * s.bulk]],
      t.fluxesIn + [buf[b..b + s.boundary]], t.fluxesOut + [buf[b + s.boundary..b + 2 * s.boundary]],
      t.increments + [buf[c]]);
    forall p: nat | p < q
      ensures QuantityOk(u, s, p) && Holds(buf, u, s, p)
    {
      assert QuantityOk(t, s, p) && Holds(buf, t, s, p);
    }
  }

  method Unpack(buf: seq<real>, s: Sizes) returns (t: Tables)
    requires |buf| == s.BufferSize()
    ensures IsPacked(buf, t, s)
  {
    t := Tables([], [], [], [], []);
    var q := 0;
    while q < s.quantities
      invariant UnpackedTo(buf, t, s, q)
    {
      t := UnpackNext(buf, t, s, q);
      q := q + 1;
    }
  }

  // ---- reduction --------------------------------------------------------------------------

  /** Entry i of the buffers of all processes. */
  ghost function EntryOf(bufs: seq<seq<real>>, i: int): int -> real {
    p => if 0 <= p < |bufs| && 0 <= i < |bufs[p]| then bufs[p][i] else 0.0
  }

  ghost predicate IsReduced(bufs: seq<seq<real>>, recv: seq<real>) {
    forall i :: 0 <= i < |recv| ==> recv[i] == SumTo(|bufs|, EntryOf(bufs, i))
  }

  method Reduce(bufs: seq<seq<real>>, size: nat) returns (recv: seq<real>)
    requires forall p :: 0 <= p < |bufs| ==> |bufs[p]| == size
    ensures |recv| == size && IsReduced(bufs, recv)
  {
    recv := seq(size, _ => 0.0);
    var p := 0;
    while p < |bufs|
      invariant p <= |bufs| && |recv| == size
      invariant forall i :: 0 <= i < size ==> recv[i] == SumTo(p, EntryOf(bufs, i))
    {
      recv := seq(size, i requires 0 <= i < size && |recv| == size && |bufs[p]| == size => recv[i] + bufs[p][i]);
      p := p + 1;
    }
  }

  datatype Kind = SourceIn | SourceOut | FluxIn | FluxOut

  function At(t: Tables, kind: Kind, q: nat, r: nat): real {
    var table := match kind
      case SourceIn => t.sourcesIn
      case SourceOut => t.sourcesOut
      case FluxIn => t.fluxesIn
      case FluxOut => t.fluxesOut;
    if q < |table| && r < |table[q]| then table[q][r] else 0.0
  }

  function Regions(s: Sizes, kind: Kind): nat {
    match kind
    case SourceIn => s.bulk
    case SourceOut => s.bulk
    case FluxIn => s.boundary
    case FluxOut => s.boundary
  }

  function Position(s: Sizes, kind: Kind, q: nat, r: nat): nat {
    match kind
    case SourceIn => s.SourcesAt(q) + r
    case SourceOut => s.SourcesAt(q) + s.bulk + r
    case FluxIn => s.FluxesAt(q) + r
    case FluxOut => s.FluxesAt(q) + s.boundary + r
  }

  lemma PairAt(buf: seq<real>, at: nat, x: seq<real>, y: seq<real>, r: nat)
    requires HoldsPair(buf, at, x, y) && r < |x|
    ensures buf[at + r] == x[r] && buf[at + |x| + r] == y[r]
  {
    assert buf[at..at + |x|][r] == buf[at + r];
    assert buf[at + |x|..at + 2 * |x|][r] == buf[at + |x| + r];
  }

  lemma EntryAt(buf: seq<real>, t: Tables, s: Sizes, kind: Kind, q: nat, r: nat)
    requires IsPacked(buf, t, s) && q < s.quantities && r < Regions(s, kind)
    ensures Position(s, kind, q, r) < |buf| && buf[Position(s, kind, q, r)] == At(t, kind, q, r)
  {
    assert QuantityOk(t, s, q) && Holds(buf, t, s, q);
    if kind.SourceIn? || kind.SourceOut? {
      PairAt(buf, s.SourcesAt(q), t.sourcesIn[q], t.sourcesOut[q], r);
    } else {
      PairAt(buf, s.FluxesAt(q), t.fluxesIn[q], t.fluxesOut[q], r);
    }
  }

  /** An entry of the tables of all processes. */
  ghost function RankEntry(ts: seq<Tables>, kind: Kind, q: nat, r: nat): int -> real {
    p => if 0 <= p < |ts| then At(ts[p], kind, q, r) else 0.0
  }

  ghost function RankIncrement(ts: seq<Tables>, q: nat): int -> real {
    p => if 0 <= p < |ts| && q < |ts[p].increments| then ts[p].increments[q] else 0.0
  }

  /** What is unpacked after the reduction is the sum of what the processes packed, entry by
      entry. */
  lemma UnpackedIsSum(ts: seq<Tables>, bufs: seq<seq<real>>, recv: seq<real>, t: Tables, s: Sizes, kind: Kind, q: nat,
                      r: nat)
    requires |ts| == |bufs| && forall p :: 0 <= p < |ts| ==> IsPacked(bufs[p], ts[p], s)
    requires IsReduced(bufs, recv) && IsPacked(recv, t, s) && q < s.quantities && r < Regions(s, kind)
    ensures At(t, kind, q, r) == SumTo(|ts|, RankEntry(ts, kind, q, r))
  {
    var i := Position(s, kind, q, r);
    EntryAt(recv, t, s, kind, q, r);
    forall p | 0 <= p < |ts|
      ensures EntryOf(bufs, i)(p) == RankEntry(ts, kind, q, r)(p)
    {
      EntryAt(bufs[p], ts[p], s, kind, q, r);
    }
    SumCong(|ts|, EntryOf(bufs, i), RankEntry(ts, kind, q, r));
  }

  lemma IncrementIsSum(ts: seq<Tables>, bufs: seq<seq<real>>, recv: seq<real>, t: Tables, s: Sizes, q: nat)
    requires |ts| == |bufs| && forall p :: 0 <= p < |ts| ==> IsPacked(bufs[p], ts[p], s)
    requires IsReduced(bufs, recv) && IsPacked(recv, t, s) && q < s.quantities
    ensures q < |t.increments| && t.increments[q] == SumTo(|ts|, RankIncrement(ts, q))
  {
    var i := s.IncrementAt(q);
    assert QuantityOk(t, s, q) && Holds(recv, t, s, q);
    forall p | 0 <= p < |ts|
      ensures EntryOf(bufs, i)(p) == RankIncrement(ts, q)(p)
    {
      assert QuantityOk(ts[p], s, q) && Holds(bufs[p], ts[p], s, q);
    }
    SumCong(|ts|, EntryOf(bufs, i), RankIncrement(ts, q));
  }

  /** Packing on all processes, reduction and unpacking on process 0. */
  method Gather(ts: seq<Tables>, s: Sizes) returns (t: Tables)
    requires forall p :: 0 <= p < |ts| ==> TablesOk(ts[p], s)
    ensures TablesOk(t, s)
    ensures forall kind, q: nat, r: nat :: q < s.quantities && r < Regions(s, kind) ==>
      At(t, kind, q, r) == SumTo(|ts|, RankEntry(ts, kind, q, r))
    ensures forall q: nat :: q < s.quantities ==> t.increments[q] == SumTo(|ts|, RankIncrement(ts, q))
  {
    var bufs: seq<seq<real>> := [];
    var p := 0;
    while p < |ts|
      invariant p <= |ts| && |bufs| == p && forall k :: 0 <= k < p ==> IsPacked(bufs[k], ts[k], s)
    {
      var buf := Pack(ts[p], s);
      bufs := bufs + [buf];
      p := p + 1;
    }
    var recv := Reduce(bufs, s.BufferSize());
    t := Unpack(recv, s);
    forall kind, q: nat, r: nat | q < s.quantities && r < Regions(s, kind)
      ensures At(t, kind, q, r) == SumTo(|ts|, RankEntry(ts, kind, q, r))
    {
      UnpackedIsSum(ts, bufs, recv, t, s, kind, q, r);
    }
    forall q: nat | q < s.quantities
      ensures t.increments[q] == SumTo(|ts|, RankIncrement(ts, q))
    {
      IncrementIsSum(ts, bufs, recv, t, s, q);
    }
  }
}
