/** Finite sums of reals, as accumulated by the loops of the finite-element and balance code. */
module RealSums {

  /** f(0) + ... + f(n - 1). */
  ghost function SumTo(n: nat, f: int -> real): (s: real) {
    if n == 0 then 0.0 else SumTo(n - 1, f) + f(n - 1)
  }

  lemma {:induction false} SumCong(n: nat, f: int -> real, g: int -> real)
    requires forall i :: 0 <= i < n ==> f(i) == g(i)
    ensures SumTo(n, f) == SumTo(n, g)
  {
    if n > 0 {
      SumCong(n - 1, f, g);
    }
  }

  lemma {:induction false} SumAdd(n: nat, f: int -> real, g: int -> real, h: int -> real)
    requires forall i :: 0 <= i < n ==> h(i) == f(i) + g(i)
    ensures SumTo(n, h) == SumTo(n, f) + SumTo(n, g)
  {
    if n > 0 {
      SumAdd(n - 1, f, g, h);
    }
  }

  lemma {:induction false} SumScale(n: nat, a: real, f: int -> real, h: int -> real)
    requires forall i :: 0 <= i < n ==> h(i) == a * f(i)
    ensures SumTo(n, h) == a * SumTo(n, f)
  {
    if n > 0 {
      SumScale(n - 1, a, f, h);
    }
  }

  lemma {:induction false} SumZero(n: nat, f: int -> real)
    requires forall i :: 0 <= i < n ==> f(i) == 0.0
    ensures SumTo(n, f) == 0.0
  {
    if n > 0 {
      SumZero(n - 1, f);
    }
  }

  /** Only one term counts. */
  lemma {:induction false} SumOne(n: nat, f: int -> real, k: nat)
    requires k < n && forall i :: 0 <= i < n && i != k ==> f(i) == 0.0
    ensures SumTo(n, f) == f(k)
  {
    if k == n - 1 {
      SumZero(n - 1, f);
    } else {
      SumOne(n - 1, f, k);
    }
  }

  /** Products of corresponding terms. */
  function Times(f: int -> real, g: int -> real): int -> real {
    i => f(i) * g(i)
  }

  lemma {:induction false} TimesCong(n: nat, f: int -> real, f': int -> real, g: int -> real)
    requires forall i :: 0 <= i < n ==> f(i) == f'(i)
    ensures SumTo(n, Times(f, g)) == SumTo(n, Times(f', g))
  {
    SumCong(n, Times(f, g), Times(f', g));
  }

  /** Row i and column j of a table of numbers. */
  function Row(a: (int, int) -> real, i: int): int -> real {
    j => a(i, j)
  }

  function Column(a: (int, int) -> real, j: int): int -> real {
    i => a(i, j)
  }

  ghost function RowSum(a: (int, int) -> real, m: nat): int -> real {
    i => SumTo(m, Row(a, i))
  }

  ghost function ColumnSum(a: (int, int) -> real, n: nat): int -> real {
    j => SumTo(n, Column(a, j))
  }

  /** The order of summation does not matter. */
  lemma {:induction false} SumSwap(n: nat, m: nat, a: (int, int) -> real)
    ensures SumTo(n, RowSum(a, m)) == SumTo(m, ColumnSum(a, n))
  {
    if n == 0 {
      SumZero(m, ColumnSum(a, 0));
    } else {
      SumSwap(n - 1, m, a);
      SumAdd(m, ColumnSum(a, n - 1), Row(a, n - 1), ColumnSum(a, n));
    }
  }

  function Shifted(f: int -> real, k: int): int -> real {
    i => f(k + i)
  }

  /** A sum splits at any point. */
  lemma {:induction false} SumSplitAt(n: nat, k: nat, f: int -> real)
    requires k <= n
    ensures SumTo(n, f) == SumTo(k, f) + SumTo(n - k, Shifted(f, k))
  {
    if k < n {
      SumSplitAt(n - 1, k, f);
    }
  }

  /** A sum with terms in one block only. */
  lemma SumOfRange(n: nat, first: nat, size: nat, t: int -> real)
    requires first + size <= n
    requires forall i :: 0 <= i < n && !(first <= i < first + size) ==> t(i) == 0.0
    ensures SumTo(n, t) == SumTo(size, Shifted(t, first))
  {
    SumSplitAt(n, first + size, t);
    SumZero(n - (first + size), Shifted(t, first + size));
    SumSplitAt(first + size, first, t);
    SumZero(first, t);
  }

  /** A sum of products with terms in one block only. */
  lemma SumOfBlock(n: nat, first: nat, size: nat, f: int -> real, g: int -> real, f': int -> real, g': int -> real)
    requires first + size <= n
    requires forall i :: 0 <= i < n && !(first <= i < first + size) ==> f(i) == 0.0 || g(i) == 0.0
    requires forall i :: 0 <= i < size ==> f(first + i) == f'(i) && g(first + i) == g'(i)
    ensures SumTo(n, Times(f, g)) == SumTo(size, Times(f', g'))
  {
    SumOfRange(n, first, size, Times(f, g));
    SumCong(size, Shifted(Times(f, g), first), Times(f', g'));
  }

  /** A sum of products with no terms in the only block that counts. */
  lemma SumNothing(n: nat, f: int -> real, g: int -> real)
    requires forall i :: 0 <= i < n ==> f(i) == 0.0 || g(i) == 0.0
    ensures SumTo(n, Times(f, g)) == 0.0
  {
    SumZero(n, Times(f, g));
  }
}
