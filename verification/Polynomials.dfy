/** Real vectors, polynomials given by their coefficients, and their samples. */
module Polynomials {

  type Vec = seq<real>

  // ---- vectors ----

  function Dot(x: Vec, y: Vec): real
    requires |x| == |y|
  {
    if x == [] then 0.0
    else Dot(x[..|x| - 1], y[..|y| - 1]) + x[|x| - 1] * y[|y| - 1]
  }

  /** x + k y */
  function Axpy(x: Vec, k: real, y: Vec): (r: Vec)
    requires |x| == |y|
    ensures |r| == |x| && forall i | 0 <= i < |x| :: r[i] == x[i] + k * y[i]
  {
    seq(|x|, i requires 0 <= i < |x| => x[i] + k * y[i])
  }

  function Zeros(n: nat): (r: Vec)
    ensures |r| == n && forall i | 0 <= i < n :: r[i] == 0.0
  {
    seq(n, _ => 0.0)
  }

  function Unit(n: nat, i: int): (r: Vec)
    ensures |r| == n && forall j | 0 <= j < n :: r[j] == if j == i then 1.0 else 0.0
  {
    seq(n, j => if j == i then 1.0 else 0.0)
  }

  lemma DotSnoc(x: Vec, y: Vec, n: nat)
    requires |x| == |y| == n + 1
    ensures Dot(x, y) == Dot(x[..n], y[..n]) + x[n] * y[n]
  {
  }

  lemma {:induction false} DotComm(x: Vec, y: Vec)
    requires |x| == |y|
    ensures Dot(x, y) == Dot(y, x)
  {
    if x != [] {
      DotComm(x[..|x| - 1], y[..|y| - 1]);
    }
  }

  lemma AxpyTake(x: Vec, k: real, y: Vec, n: nat)
    requires |x| == |y| && n <= |x|
    ensures Axpy(x, k, y)[..n] == Axpy(x[..n], k, y[..n])
  {
    var a, b := Axpy(x, k, y)[..n], Axpy(x[..n], k, y[..n]);
    forall i | 0 <= i < n ensures a[i] == b[i] {
      assert x[..n][i] == x[i] && y[..n][i] == y[i];
      assert Axpy(x, k, y)[i] == a[i];
    }
  }

  lemma {:induction false} DotAxpy(x: Vec, k: real, y: Vec, z: Vec)
    requires |x| == |y| == |z|
    ensures Dot(Axpy(x, k, y), z) == Dot(x, z) + k * Dot(y, z)
    decreases |x|, 1
  {
    if x != [] {
      DotAxpyStep(x, k, y, z, |x| - 1);
    }
  }

  lemma DotAxpyStep(x: Vec, k: real, y: Vec, z: Vec, n: nat)
    requires |x| == |y| == |z| == n + 1
    ensures Dot(Axpy(x, k, y), z) == Dot(x, z) + k * Dot(y, z)
    decreases |x|, 0
  {
    hide Dot;
    AxpyTake(x, k, y, n);
    DotAxpy(x[..n], k, y[..n], z[..n]);
    DotSnoc(x, z, n);
    DotSnoc(y, z, n);
    DotSnoc(Axpy(x, k, y), z, n);
    AxpyAlgebra(x[n], k, y[n], z[n], Dot(y[..n], z[..n]));
  }

  lemma {:induction false} DotUnit(x: Vec, i: int)
    requires 0 <= i < |x|
    ensures Dot(x, Unit(|x|, i)) == x[i]
  {
    var n := |x| - 1;
    assert Unit(|x|, i)[..n] == Unit(n, i);
    if i == n {
      DotZero(x[..n], Unit(n, i));
    } else {
      DotUnit(x[..n], i);
    }
  }

  lemma {:induction false} DotZero(x: Vec, z: Vec)
    requires |x| == |z| && forall i | 0 <= i < |z| :: z[i] == 0.0
    ensures Dot(x, z) == 0.0 && Dot(z, x) == 0.0
  {
    if x != [] {
      DotZero(x[..|x| - 1], z[..|z| - 1]);
    }
  }

  lemma {:induction false} DotConcat(a: Vec, b: Vec, c: Vec, d: Vec)
    requires |a| == |c| && |b| == |d|
    ensures Dot(a + b, c + d) == Dot(a, c) + Dot(b, d)
  {
    if b == [] {
      assert a + b == a && c + d == c;
    } else {
      var n := |b| - 1;
      assert (a + b)[..|a + b| - 1] == a + b[..n];
      assert (c + d)[..|c + d| - 1] == c + d[..n];
      DotConcat(a, b[..n], c, d[..n]);
    }
  }

  lemma PositiveProduct(a: real, b: real, s: real)
    requires a > 0.0 && b > 0.0 && s == a * b
    ensures s > 0.0
  {
  }

  lemma SquareSign(a: real, s: real)
    requires s == a * a
    ensures s >= 0.0 && (a != 0.0 ==> s > 0.0)
  {
    if a > 0.0 {
      PositiveProduct(a, a, s);
    } else if a < 0.0 {
      PositiveProduct(-a, -a, s);
    }
  }

  lemma {:induction false} SquareSum(x: Vec)
    ensures Dot(x, x) >= 0.0
    ensures Dot(x, x) == 0.0 ==> forall i | 0 <= i < |x| :: x[i] == 0.0
  {
    if x != [] {
      var n := |x| - 1;
      SquareSum(x[..n]);
      SquareSign(x[n], Dot(x, x) - Dot(x[..n], x[..n]));
      assert forall i | 0 <= i < n :: x[..n][i] == x[i];
    }
  }

  // ---- polynomials ----

  function Pow(t: real, k: nat): real {
    if k == 0 then 1.0 else Pow(t, k - 1) * t
  }

  /** a[0] + a[1] t + a[2] t^2 + ... */
  function Poly(a: Vec, t: real): real {
    if a == [] then 0.0
    else Poly(a[..|a| - 1], t) + a[|a| - 1] * Pow(t, |a| - 1)
  }

  lemma PolySnoc(a: Vec, t: real, n: nat)
    requires |a| == n + 1
    ensures Poly(a, t) == Poly(a[..n], t) + a[n] * Pow(t, n)
  {
  }

  lemma {:induction false} Horner(a: Vec, t: real)
    requires a != []
    ensures Poly(a, t) == a[0] + t * Poly(a[1..], t)
    decreases |a|, 1
  {
    if |a| > 1 {
      HornerStep(a, t, |a| - 1);
    } else {
      assert a[..0] == [] && a[1..] == [];
    }
  }

  lemma HornerStep(a: Vec, t: real, n: nat)
    requires |a| == n + 1 > 1
    ensures Poly(a, t) == a[0] + t * Poly(a[1..], t)
    decreases |a|, 0
  {
    hide Poly;
    Horner(a[..n], t);
    assert a[..n][1..] == a[1..][..n - 1];
    PolySnoc(a, t, n);
    PolySnoc(a[1..], t, n - 1);
    PowStep(a[n], t, n, Poly(a[1..][..n - 1], t));
  }

  lemma PowStep(u: real, t: real, n: nat, v: real)
    requires n > 0
    ensures t * v + u * Pow(t, n) == t * (v + u * Pow(t, n - 1))
  {
    var p := Pow(t, n - 1);
    assert u * (p * t) == t * (u * p);
  }

  lemma {:induction false} PolyZero(a: Vec, t: real)
    requires forall i | 0 <= i < |a| :: a[i] == 0.0
    ensures Poly(a, t) == 0.0
  {
    if a != [] {
      PolyZero(a[..|a| - 1], t);
    }
  }

  lemma {:induction false} PolyAxpy(x: Vec, k: real, y: Vec, t: real)
    requires |x| == |y|
    ensures Poly(Axpy(x, k, y), t) == Poly(x, t) + k * Poly(y, t)
    decreases |x|, 1
  {
    if x != [] {
      PolyAxpyStep(x, k, y, t, |x| - 1);
    }
  }

  lemma PolyAxpyStep(x: Vec, k: real, y: Vec, t: real, n: nat)
    requires |x| == |y| == n + 1
    ensures Poly(Axpy(x, k, y), t) == Poly(x, t) + k * Poly(y, t)
    decreases |x|, 0
  {
    hide Poly, Pow;
    AxpyTake(x, k, y, n);
    PolyAxpy(x[..n], k, y[..n], t);
    PolySnoc(x, t, n);
    PolySnoc(y, t, n);
    PolySnoc(Axpy(x, k, y), t, n);
    AxpyAlgebra(x[n], k, y[n], Pow(t, n), Poly(y[..n], t));
  }

  lemma AxpyAlgebra(u: real, k: real, v: real, w: real, q: real)
    ensures k * q + (u + k * v) * w == u * w + k * (q + v * w)
  {
    assert (u + k * v) * w == u * w + k * (v * w);
  }

  // ---- a polynomial with as many roots as coefficients is zero ----

  /** Synthetic division by (t - r). */
  function Quotient(a: Vec, r: real): (q: Vec)
    requires a != []
    ensures |q| == |a| - 1
  {
    if |a| == 1 then [] else [Poly(a[1..], r)] + Quotient(a[1..], r)
  }

  lemma DivisionStep(t: real, r: real, u: real, v: real, w: real, q: real)
    requires u - v == (t - r) * w && q == v + t * w
    ensures t * u - r * v == (t - r) * q
  {
    assert t * u - r * v == (t - r) * v + t * (u - v);
    assert t * (u - v) == t * ((t - r) * w) == (t - r) * (t * w);
  }

  lemma QuotientStep(a: Vec, r: real)
    requires |a| > 1
    ensures Quotient(a, r)[0] == Poly(a[1..], r) && Quotient(a, r)[1..] == Quotient(a[1..], r)
  {
  }

  lemma {:induction false} Division(a: Vec, r: real, t: real)
    requires a != []
    ensures Poly(a, t) - Poly(a, r) == (t - r) * Poly(Quotient(a, r), t)
    decreases |a|, 1
  {
    Horner(a, t);
    Horner(a, r);
    if |a| > 1 {
      DivisionMore(a, r, t);
    } else {
      assert a[1..] == [];
    }
  }

  lemma {:induction false} DivisionMore(a: Vec, r: real, t: real)
    requires |a| > 1
    ensures Poly(a, t) - Poly(a, r) == (t - r) * Poly(Quotient(a, r), t)
    decreases |a|, 0
  {
    hide Poly, Quotient;
    var b, q := a[1..], Quotient(a, r);
    Division(b, r, t);
    QuotientStep(a, r);
    Horner(a, t);
    Horner(a, r);
    Horner(q, t);
    DivisionStep(t, r, Poly(b, t), Poly(b, r), Poly(q[1..], t), Poly(q, t));
  }

  lemma {:induction false} QuotientZero(a: Vec, r: real)
    requires a != [] && forall i | 0 <= i < |a| - 1 :: Quotient(a, r)[i] == 0.0
    ensures forall i | 1 <= i < |a| :: a[i] == 0.0
  {
    if |a| > 1 {
      var b := a[1..];
      assert Quotient(a, r)[0] == Poly(b, r);
      forall i | 0 <= i < |b| - 1 ensures Quotient(b, r)[i] == 0.0 {
        assert Quotient(a, r)[i + 1] == Quotient(b, r)[i];
      }
      QuotientZero(b, r);
      Horner(b, r);
      PolyZero(b[1..], r);
      forall i | 1 <= i < |a| ensures a[i] == 0.0 {
        assert a[i] == b[i - 1];
      }
    }
  }

  lemma {:induction false} TooManyRoots(a: Vec, ts: Vec)
    requires |ts| >= |a|
    requires forall i, j | 0 <= i < j < |ts| :: ts[i] != ts[j]
    requires forall i | 0 <= i < |ts| :: Poly(a, ts[i]) == 0.0
    ensures forall i | 0 <= i < |a| :: a[i] == 0.0
    decreases |a|
  {
    if a != [] {
      var r := ts[0];
      var q := Quotient(a, r);
      forall i | 0 <= i < |ts| - 1 ensures Poly(q, ts[1..][i]) == 0.0 {
        Division(a, r, ts[i + 1]);
      }
      TooManyRoots(q, ts[1..]);
      QuotientZero(a, r);
      Horner(a, r);
      PolyZero(a[1..], r);
    }
  }

  // ---- samples and moments: the Vandermonde matrix and its transpose ----

  /** The polynomial at every offset: A x, for the Vandermonde matrix A of the offsets. */
  function Samples(x: Vec, offs: Vec): (r: Vec)
    ensures |r| == |offs| && forall k | 0 <= k < |offs| :: r[k] == Poly(x, offs[k])
  {
    seq(|offs|, k requires 0 <= k < |offs| => Poly(x, offs[k]))
  }

  /** Column j of A. */
  function Powers(offs: Vec, j: nat): (r: Vec)
    ensures |r| == |offs| && forall k | 0 <= k < |offs| :: r[k] == Pow(offs[k], j)
  {
    seq(|offs|, k requires 0 <= k < |offs| => Pow(offs[k], j))
  }

  /** The first p moments of the samples: A^T s. */
  function Moments(offs: Vec, p: nat, s: Vec): (r: Vec)
    requires |s| == |offs|
    ensures |r| == p && forall j | 0 <= j < p :: r[j] == Dot(Powers(offs, j), s)
  {
    seq(p, j requires 0 <= j < p => Dot(Powers(offs, j), s))
  }

  lemma SamplesSnoc(x: Vec, offs: Vec)
    requires x != []
    ensures var n := |x| - 1; Samples(x, offs) == Axpy(Samples(x[..n], offs), x[n], Powers(offs, n))
  {
    var n := |x| - 1;
    var sum := Axpy(Samples(x[..n], offs), x[n], Powers(offs, n));
    forall k | 0 <= k < |offs| ensures Samples(x, offs)[k] == sum[k] {
      assert Poly(x, offs[k]) == Poly(x[..n], offs[k]) + x[n] * Pow(offs[k], n);
    }
  }

  /** <A x, s> == <x, A^T s> */
  lemma {:induction false} Adjoint(x: Vec, offs: Vec, s: Vec)
    requires |s| == |offs|
    ensures Dot(Samples(x, offs), s) == Dot(x, Moments(offs, |x|, s))
  {
    hide Poly, Samples, Axpy, Powers, Pow;
    if x == [] {
      AdjointEmpty(offs, s);
    } else {
      var n := |x| - 1;
      SamplesSnoc(x, offs);
      DotAxpy(Samples(x[..n], offs), x[n], Powers(offs, n), s);
      Adjoint(x[..n], offs, s);
      assert Moments(offs, |x|, s)[..n] == Moments(offs, n, s);
    }
  }

  lemma AdjointEmpty(offs: Vec, s: Vec)
    requires |s| == |offs|
    ensures Dot(Samples([], offs), s) == Dot([], Moments(offs, 0, s))
  {
    DotZero(s, Samples([], offs));
  }

  lemma {:induction false} SamplesAxpy(x: Vec, k: real, y: Vec, offs: Vec)
    requires |x| == |y|
    ensures Samples(Axpy(x, k, y), offs) == Axpy(Samples(x, offs), k, Samples(y, offs))
  {
    var a, b := Samples(Axpy(x, k, y), offs), Axpy(Samples(x, offs), k, Samples(y, offs));
    forall i | 0 <= i < |offs| ensures a[i] == b[i] {
      PolyAxpy(x, k, y, offs[i]);
    }
  }

  lemma {:induction false} MomentsAxpy(x: Vec, k: real, y: Vec, offs: Vec, p: nat)
    requires |x| == |y| == |offs|
    ensures Moments(offs, p, Axpy(x, k, y)) == Axpy(Moments(offs, p, x), k, Moments(offs, p, y))
  {
    var a, b := Moments(offs, p, Axpy(x, k, y)), Axpy(Moments(offs, p, x), k, Moments(offs, p, y));
    forall j | 0 <= j < p ensures a[j] == b[j] {
      DotAxpy(x, k, y, Powers(offs, j));
      DotComm(Powers(offs, j), Axpy(x, k, y));
      DotComm(Powers(offs, j), x);
      DotComm(Powers(offs, j), y);
    }
  }

  // ---- least squares ----

  /** c is the least-squares polynomial through (offs, s): its residual is orthogonal to every power. */
  ghost predicate IsFit(c: Vec, offs: Vec, s: Vec) {
    && |s| == |offs|
    && Moments(offs, |c|, Samples(c, offs)) == Moments(offs, |c|, s)
  }

  ghost predicate Distinct(offs: Vec) {
    forall i, j | 0 <= i < j < |offs| :: offs[i] != offs[j]
  }

  /** With at least as many distinct offsets as coefficients, A^T A is nonsingular. */
  lemma GramInjective(x: Vec, offs: Vec)
    requires Distinct(offs) && |x| <= |offs|
    requires Moments(offs, |x|, Samples(x, offs)) == Zeros(|x|)
    ensures x == Zeros(|x|)
  {
    var s := Samples(x, offs);
    Adjoint(x, offs, s);
    DotZero(x, Zeros(|x|));
    SquareSum(s);
    forall k | 0 <= k < |offs| ensures Poly(x, offs[k]) == 0.0 {
      assert s[k] == 0.0;
    }
    TooManyRoots(x, offs);
  }

  /** The least-squares polynomial is unique. */
  lemma FitUnique(c: Vec, d: Vec, offs: Vec, s: Vec)
    requires Distinct(offs) && |c| == |d| <= |offs|
    requires IsFit(c, offs, s) && IsFit(d, offs, s)
    ensures c == d
  {
    var e := Axpy(c, -1.0, d);
    SamplesAxpy(c, -1.0, d, offs);
    MomentsAxpy(Samples(c, offs), -1.0, Samples(d, offs), offs, |c|);
    assert Moments(offs, |c|, Samples(e, offs)) == Zeros(|c|);
    GramInjective(e, offs);
    forall i | 0 <= i < |c| ensures c[i] == d[i] {
      assert e[i] == 0.0;
    }
  }

  /** No polynomial of that many coefficients comes closer to the samples. */
  lemma FitIsClosest(c: Vec, d: Vec, offs: Vec, s: Vec)
    requires |c| == |d| && IsFit(c, offs, s)
    ensures var rc, rd := Axpy(s, -1.0, Samples(c, offs)), Axpy(s, -1.0, Samples(d, offs));
            Dot(rc, rc) <= Dot(rd, rd)
  {
    var rc, rd := Axpy(s, -1.0, Samples(c, offs)), Axpy(s, -1.0, Samples(d, offs));
    var e := Axpy(c, -1.0, d);
    var se := Samples(e, offs);
    SamplesAxpy(c, -1.0, d, offs);
    assert rd == Axpy(rc, 1.0, se);
    DotAxpy(rc, 1.0, se, rd);
    DotComm(rc, rd);
    DotComm(se, rd);
    DotAxpy(rc, 1.0, se, rc);
    DotAxpy(rc, 1.0, se, se);
    DotComm(rc, se);
    MomentsAxpy(s, -1.0, Samples(c, offs), offs, |c|);
    assert Moments(offs, |c|, rc) == Zeros(|c|);
    Adjoint(e, offs, rc);
    DotZero(e, Zeros(|c|));
    SquareSum(se);
  }

  /** A polynomial is the fit of its own samples. */
  lemma PolynomialIsItsFit(x: Vec, offs: Vec)
    ensures IsFit(x, offs, Samples(x, offs))
  {
  }
}
