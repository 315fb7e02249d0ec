/** Time comparison with tolerance (src/tools/time_governor.cc:230-234, time_governor.hh:158-176),
    time records of a field and its limits at a time. */
module TimeLimits {

  /** 16 times the machine epsilon of double precision. */
  const TOLERANCE: real := 16.0 / 4503599627370496.0

  function Abs(x: real): real {
    if x < 0.0 then -x else x
  }

  function Max(x: real, y: real): real {
    if x < y then y else x
  }

  predicate SafeCompare(t1: real, t0: real) {
    t1 >= t0 - TOLERANCE * (1.0 + Max(Abs(t1), Abs(t0)))
  }

  /** Time t is at or after x, up to tolerance. */
  predicate Ge(t: real, x: real) {
    SafeCompare(t, x)
  }

  /** Time t is after x by more than the tolerance. */
  predicate Gt(t: real, x: real) {
    !SafeCompare(x, t)
  }

  /** Exactly: a time is after another if it is so by more than 2^-48 relative to one plus the later. */
  lemma GtIs(t: real, x: real)
    requires 0.0 <= x && 0.0 <= t
    ensures Gt(t, x) <==> t - x > 0.000000000000003552713678800500929355621337890625 * (1.0 + t)
    ensures Ge(x, t) <==> !Gt(t, x)
  {
  }

  /** Times farther apart than this are never equal up to tolerance ... */
  lemma ClearIsAfter(t: real, x: real)
    requires 0.0 <= x && 0.0 <= t && t - x > 0.000000000000004 * (1.0 + t)
    ensures Gt(t, x) && !Ge(x, t)
  {
    GtIs(t, x);
    assert 0.000000000000004 * (1.0 + t) >= 0.000000000000003552713678800500929355621337890625 * (1.0 + t);
  }

  /** ... and closer than this they always are. */
  lemma CloseIsEqual(t: real, x: real)
    requires 0.0 <= x && 0.0 <= t && 0.0 <= t - x <= 0.000000000000003 * (1.0 + t)
    ensures !Gt(t, x) && Ge(t, x) && Ge(x, t)
  {
    GtIs(t, x);
    assert 0.000000000000003 * (1.0 + t) <= 0.000000000000003552713678800500929355621337890625 * (1.0 + t);
  }

  lemma GtIsGe(t: real, x: real)
    requires Gt(t, x)
    ensures Ge(t, x)
  {
  }

  lemma GeMonotone(t: real, u: real, x: real, y: real)
    requires t <= u && x <= y && Ge(t, y)
    ensures Ge(u, x)
  {
  }

  lemma GtMonotone(t: real, u: real, x: real, y: real)
    requires t <= u && x <= y && Gt(t, y)
    ensures Gt(u, x)
  {
  }

  /** A later time is at or after a record at or before an earlier one. */
  lemma GeExact(t: real, x: real)
    requires x <= t
    ensures Ge(t, x)
  {
  }

  /** Two times are far enough apart that no third one equals both up to tolerance. */
  predicate Apart(x: real, y: real) {
    y - x > 2.0 * TOLERANCE * (1.0 + y)
  }

  lemma ApartSeparates(t: real, x: real, y: real)
    requires 0.0 <= x && Apart(x, y) && 0.0 <= t && Ge(t, y)
    ensures Gt(t, x)
  {
  }
}
