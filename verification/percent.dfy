/**
  Percent values as the sieve table holds them: exact reals standing for the
  float cells of the table, a NaN marker for cells left empty, and the
  two-decimal rounding that every computed column goes through.
 */
module Percent {

  /** One numeric cell of the table: a number, or NaN for a missing value. */
  datatype Pct = Num(v: real) | NaN

  /** x is a whole number of hundredths (it has at most two decimals). */
  predicate IsCents(x: real) {
    (x * 100.0).Floor as real == x * 100.0
  }

  /** Distance of x above the hundredth just below it, in hundredths. */
  function CentFraction(x: real): real {
    x * 100.0 - (x * 100.0).Floor as real
  }

  /**
    Rounding to two decimals, half to even, applied to the exact value
    (the rule of a `.round(2)` on a numeric column).
   */
  function Round2(x: real): (r: real)
    ensures IsCents(r)
    ensures x - 0.005 <= r <= x + 0.005
    ensures IsCents(x) ==> r == x
    ensures CentFraction(x) == 0.5 ==> (r * 100.0).Floor % 2 == 0
  {
    var n := (x * 100.0).Floor;
    var f := x * 100.0 - n as real;
    var k := if f < 0.5 then n else if f > 0.5 then n + 1 else if n % 2 == 0 then n else n + 1;
    assert (k as real / 100.0) * 100.0 == k as real;
    k as real / 100.0
  }

  /** Rounding never reverses the order of two values. */
  lemma Round2Monotone(x: real, y: real)
    requires x <= y
    ensures Round2(x) <= Round2(y)
  {
    var n, m := (x * 100.0).Floor, (y * 100.0).Floor;
    assert Round2(x) * 100.0 <= (n + 1) as real;
    assert n <= m;
    if n < m {
      assert Round2(y) * 100.0 >= m as real;
    }
  }

  lemma CentsAdd(a: real, b: real)
    requires IsCents(a) && IsCents(b)
    ensures IsCents(a + b) && IsCents(a - b)
  {
    var m, n := (a * 100.0).Floor, (b * 100.0).Floor;
    assert a * 100.0 == m as real && b * 100.0 == n as real;
    assert (a + b) * 100.0 == a * 100.0 + b * 100.0;
    assert (a - b) * 100.0 == a * 100.0 - b * 100.0;
    assert ((m + n) as real).Floor == m + n && ((m - n) as real).Floor == m - n;
  }

  /** A total taken as a percentage of itself is 100. */
  lemma WholeIsHundredPercent(total: real)
    requires total != 0.0
    ensures total / total * 100.0 == 100.0
  {
  }

  /** A non-negative part of a positive total is a non-negative rounded percentage. */
  lemma ShareNonNegative(w: real, total: real)
    requires w >= 0.0 && total > 0.0
    ensures Round2(w / total * 100.0) >= 0.0
  {
    assert 0.0 <= w / total * 100.0;
    Round2Monotone(0.0, w / total * 100.0);
    assert IsCents(0.0) by { assert (0.0 * 100.0).Floor == 0; }
  }

  /** The percentages two parts make of a total add up to the percentage their sum makes. */
  lemma SharesAdd(a: real, b: real, total: real)
    requires total != 0.0
    ensures a / total * 100.0 + b / total * 100.0 == (a + b) / total * 100.0
  {
    var u, v := a / total, b / total;
    assert u * total == a && v * total == b;
    assert (u + v) * total == a + b;
  }

  /** The cell a `.round(2)` leaves: NaN stays NaN. */
  function RoundPct(p: Pct): (r: Pct)
    ensures r.NaN? <==> p.NaN?
    ensures r.Num? ==> IsCents(r.v) && p.v - 0.005 <= r.v <= p.v + 0.005
  {
    match p
    case NaN => NaN
    case Num(x) => Num(Round2(x))
  }

}
