/** Sequences without repetition, positions in them, and prefix sums: the vocabulary shared by
    the index tables of the dof handlers, the finite-element systems and the value cache. */
module Lists {

  /** No two entries are equal. */
  ghost predicate Distinct<T>(s: seq<T>) {
    forall i, j :: 0 <= i < j < |s| ==> s[i] != s[j]
  }

  /** An index of `x` in `s`; the only one when `s` has no repetition. */
  ghost function Pos<T>(s: seq<T>, x: T): (p: nat)
    requires x in s
    ensures p < |s| && s[p] == x
  {
    var p: nat :| p < |s| && s[p] == x;
    p
  }

  lemma PosIs<T>(s: seq<T>, i: nat)
    requires Distinct(s) && i < |s|
    ensures Pos(s, s[i]) == i
  {
  }

  /** Appending does not move what was already there. */
  lemma PosAppend<T>(s: seq<T>, t: seq<T>, x: T)
    requires Distinct(s + t) && x in s
    ensures x in s + t && Pos(s + t, x) == Pos(s, x)
  {
    var p := Pos(s, x);
    assert (s + t)[p] == x;
    PosIs(s + t, p);
  }

  lemma DistinctAppend<T>(s: seq<T>, t: seq<T>)
    requires Distinct(s) && Distinct(t)
    requires forall x :: x in t ==> x !in s
    ensures Distinct(s + t)
  {
    forall i, j | 0 <= i < j < |s + t|
      ensures (s + t)[i] != (s + t)[j]
    {
      if i < |s| && |s| <= j {
        assert (s + t)[i] in s;
        assert (s + t)[j] == t[j - |s|];
        assert t[j - |s|] in t;
      } else if |s| <= i {
        assert t[i - |s|] != t[j - |s|];
      }
    }
  }

  /** Sum of the first `i` block sizes: the start of block `i` in a flat layout. */
  function Start(sizes: seq<nat>, i: nat): (n: nat)
    requires i <= |sizes|
  {
    if i == 0 then 0 else Start(sizes, i - 1) + sizes[i - 1]
  }

  function Total(sizes: seq<nat>): (n: nat) {
    Start(sizes, |sizes|)
  }

  /** The table lists the starts of the blocks, and the total at the end. */
  ghost predicate IsStarts(starts: seq<nat>, sizes: seq<nat>) {
    |starts| == |sizes| + 1 && forall i: nat {:trigger starts[i]} :: i <= |sizes| ==> starts[i] == Start(sizes, i)
  }

  /** Prefix sums of a table of sizes, in place. */
  method PrefixSums(before: seq<nat>, ghost sizes: seq<nat>) returns (starts: seq<nat>)
    requires before == [0] + sizes
    ensures IsStarts(starts, sizes)
  {
    starts := before;
    var i := 0;
    while i < |starts| - 1
      invariant i <= |sizes| && |starts| == |sizes| + 1 && starts[i + 1..] == sizes[i..]
      invariant forall j: nat {:trigger starts[j]} :: j <= i ==> starts[j] == Start(sizes, j)
    {
      assert starts[i + 1] == starts[i + 1..][0];
      starts := starts[i + 1 := starts[i + 1] + starts[i]];
      assert starts[i + 2..] == sizes[i..][1..];
      i := i + 1;
    }
  }

  lemma {:induction false} StartMonotone(sizes: seq<nat>, i: nat, j: nat)
    requires i <= j <= |sizes|
    ensures Start(sizes, i) <= Start(sizes, j)
    decreases j - i
  {
    if i < j {
      StartMonotone(sizes, i, j - 1);
    }
  }

  /** Block `i` ends before any later block starts, and inside the flat layout. */
  lemma {:induction false} BlockBounds(sizes: seq<nat>, i: nat, j: nat)
    requires i < j <= |sizes|
    ensures Start(sizes, i) + sizes[i] <= Start(sizes, j) <= Total(sizes)
  {
    StartMonotone(sizes, i + 1, j);
    StartMonotone(sizes, j, |sizes|);
  }

  /** Different (block, offset) pairs occupy different flat positions. */
  lemma {:induction false} BlocksDisjoint(sizes: seq<nat>, i: nat, k: nat, j: nat, l: nat)
    requires i < |sizes| && k < sizes[i]
    requires j < |sizes| && l < sizes[j]
    requires Start(sizes, i) + k == Start(sizes, j) + l
    ensures i == j && k == l
  {
    if i < j {
      BlockBounds(sizes, i, j);
    } else if j < i {
      BlockBounds(sizes, j, i);
    }
  }

  /** Every flat position belongs to some block. */
  lemma {:induction false} BlockOf(sizes: seq<nat>, n: nat, g: nat) returns (i: nat, k: nat)
    requires n <= |sizes| && g < Start(sizes, n)
    ensures i < n && k < sizes[i] && g == Start(sizes, i) + k
  {
    if g < Start(sizes, n - 1) {
      i, k := BlockOf(sizes, n - 1, g);
    } else {
      i, k := n - 1, g - Start(sizes, n - 1);
    }
  }

  /** Prefix sums depend only on the sizes before them. */
  lemma {:induction false} StartAgree(a: seq<nat>, b: seq<nat>, i: nat)
    requires i <= |a| && i <= |b|
    requires forall k :: 0 <= k < i ==> a[k] == b[k]
    ensures Start(a, i) == Start(b, i)
  {
    if i > 0 {
      StartAgree(a, b, i - 1);
    }
  }

  // ---- sizes ------------------------------------------------------------------------------

  lemma {:induction false} DistinctSize(s: seq<nat>, t: set<nat>)
    requires Distinct(s) && forall e :: e in s <==> e in t
    ensures |s| == |t|
  {
    if |s| == 0 {
      assert t == {};
    } else {
      var last := s[|s| - 1];
      forall e | e in t - {last}
        ensures e in s[..|s| - 1]
      {
        var p := Pos(s, e);
        assert s[..|s| - 1][p] == e;
      }
      DistinctSize(s[..|s| - 1], t - {last});
    }
  }

  /** The numbers below n. */
  ghost function BelowSet(n: nat): (s: set<nat>)
    ensures |s| == n && forall e: nat :: e in s <==> e < n
  {
    if n == 0 then {} else BelowSet(n - 1) + {n - 1}
  }
}
