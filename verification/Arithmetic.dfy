/** Small facts about integers and reals that several components need. */
module Arithmetic {

  function Min(a: int, b: int): int {
    if a < b then a else b
  }

  function Max(a: int, b: int): int {
    if a < b then b else a
  }

  function RMin(a: real, b: real): real {
    if b < a then b else a
  }

  function RMax(a: real, b: real): real {
    if a < b then b else a
  }

  function RAbs(x: real): real {
    if x < 0.0 then -x else x
  }

  lemma ProductNonNegative(a: real, b: real)
    requires a >= 0.0 && b >= 0.0
    ensures a * b >= 0.0
  {
  }

  lemma Scaled(a: int, b: int, d: int)
    requires a <= b && d >= 0
    ensures a * d <= b * d
  {
  }

  lemma ProductOrder(a: int, b: int, d: int)
    requires d > 0
    ensures (a < b ==> a * d + d <= b * d) && (b < a ==> b * d + d <= a * d)
  {
    if a < b {
      Scaled(a + 1, b, d);
    } else if b < a {
      Scaled(b + 1, a, d);
    }
  }

  /** A nonzero multiple of n is at least n away from 0. */
  lemma Multiples(d: int, n: int)
    requires n > 0
    ensures (d >= 1 ==> d * n >= n) && (d <= -1 ==> d * n <= -n)
  {
    if d >= 1 {
      assert (d - 1) * n >= 0;
    } else if d <= -1 {
      assert (-d - 1) * n >= 0;
    }
  }

  /** Quotient and remainder are unique. */
  lemma QuotientIs(a: int, n: int, q: int, r: int)
    requires n > 0 && a == q * n + r && 0 <= r < n
    ensures a / n == q && a % n == r
  {
    assert (a / n - q) * n == r - a % n;
    Multiples(a / n - q, n);
  }
}
