/** centerline_generator.cpp: Savitzky-Golay kernels and their application, in exact arithmetic. */
module SavitzkyGolay {
  import opened Polynomials
  import opened GaussJordan
  import opened Vandermonde

  datatype SGKernel = SGKernel(interior: Vec, left: Rows, right: Rows)

  // ---- polynomials around another point, and their derivatives ----

  /** The coefficients of t -> a(m + t). */
  function Shift(a: Vec, m: real): (r: Vec)
    ensures |r| == |a|
  {
    if a == [] then []
    else
      var b := Shift(a[1..], m);
      Axpy([a[0]] + b, m, b + [0.0])
  }

  lemma {:induction false} ShiftPoly(a: Vec, m: real, t: real)
    ensures Poly(Shift(a, m), t) == Poly(a, m + t)
    decreases |a|, 1
  {
    if a != [] {
      ShiftPolyStep(a, m, t);
    }
  }

  lemma ShiftStep(a: Vec, m: real)
    requires a != []
    ensures var b := Shift(a[1..], m); Shift(a, m) == Axpy([a[0]] + b, m, b + [0.0])
  {
  }

  lemma ShiftPolyStep(a: Vec, m: real, t: real)
    requires a != []
    ensures Poly(Shift(a, m), t) == Poly(a, m + t)
    decreases |a|, 0
  {
    hide Poly, Shift, Axpy;
    var b := Shift(a[1..], m);
    ShiftStep(a, m);
    PolyAxpy([a[0]] + b, m, b + [0.0], t);
    Horner([a[0]] + b, t);
    assert ([a[0]] + b)[1..] == b;
    PolyPad(b, t);
    Horner(a, m + t);
    ShiftPoly(a[1..], m, t);
    Distribute(t, m, Poly(b, t));
  }

  lemma Distribute(t: real, m: real, v: real)
    ensures t * v + m * v == (m + t) * v
  {
  }

  lemma PolyPad(b: Vec, t: real)
    ensures Poly(b + [0.0], t) == Poly(b, t)
  {
    assert (b + [0.0])[..|b|] == b;
  }

  /** The coefficients of the derivative. */
  function Deriv(a: Vec): (r: Vec)
    requires a != []
    ensures |r| == |a| - 1 && forall i | 0 <= i < |r| :: r[i] == (i + 1) as real * a[i + 1]
  {
    seq(|a| - 1, i requires 0 <= i < |a| - 1 => (i + 1) as real * a[i + 1])
  }

  lemma DerivSumAt(a: Vec, b: Vec, d: Vec, i: nat)
    requires |a| >= 2 && b == a[1..] && d == [0.0] + Deriv(b) && i < |b|
    ensures Deriv(a)[i] == b[i] + d[i]
  {
    var v := b[i];
    assert Deriv(a)[i] == (i + 1) as real * v;
    if i > 0 {
      assert d[i] == Deriv(b)[i - 1] == i as real * v;
    } else {
      assert d[i] == 0.0 == i as real * v;
    }
    OneMore(i, v);
  }

  lemma DerivSum(a: Vec)
    requires |a| >= 2
    ensures Deriv(a) == Axpy(a[1..], 1.0, [0.0] + Deriv(a[1..]))
  {
    hide Deriv;
    var b := a[1..];
    var d := [0.0] + Deriv(b);
    var sum := Axpy(b, 1.0, d);
    forall i | 0 <= i < |b| ensures Deriv(a)[i] == sum[i] {
      DerivSumAt(a, b, d, i);
    }
  }

  lemma OneMore(i: nat, v: real)
    ensures (i + 1) as real * v == v + i as real * v
  {
  }

  /** a = a[0] + t b gives a' = b + t b' */
  lemma DerivHorner(a: Vec, t: real)
    requires |a| >= 2
    ensures Poly(Deriv(a), t) == Poly(a[1..], t) + t * Poly(Deriv(a[1..]), t)
  {
    hide Poly, Deriv, Axpy;
    var b := a[1..];
    var d := [0.0] + Deriv(b);
    DerivSum(a);
    PolyAxpy(b, 1.0, d, t);
    Horner(d, t);
    assert d[1..] == Deriv(b);
  }

  lemma ShiftConstant(a: Vec, m: real)
    requires a != []
    ensures Shift(a, m)[0] == Poly(a, m)
  {
    ShiftPoly(a, m, 0.0);
    Horner(Shift(a, m), 0.0);
  }

  lemma {:induction false} ShiftSlope(a: Vec, m: real)
    requires |a| >= 2
    ensures Shift(a, m)[1] == Poly(Deriv(a), m)
    decreases |a|
  {
    hide Poly, Deriv, Shift, Axpy;
    var b := a[1..];
    var s := Shift(b, m);
    ShiftConstant(b, m);
    DerivHorner(a, m);
    ShiftStep(a, m);
    assert ([a[0]] + s)[1] == s[0];
    if |b| >= 2 {
      ShiftSlope(b, m);
      assert (s + [0.0])[1] == s[1];
    } else {
      NoSlope(b, m);
      assert (s + [0.0])[1] == 0.0;
    }
  }

  lemma NoSlope(b: Vec, m: real)
    requires |b| == 1
    ensures Poly(Deriv(b), m) == 0.0
  {
    assert Deriv(b) == [];
  }

  // ---- windows ----

  /** The sample offsets of a window, centred. */
  function Offsets(window: nat): (r: Vec)
    ensures |r| == window && forall i | 0 <= i < window :: r[i] == (i - window / 2) as real
  {
    seq(window, i => (i - window / 2) as real)
  }

  lemma OffsetsDistinct(window: nat)
    ensures Distinct(Offsets(window))
  {
  }

  function Factorial(n: nat): nat {
    if n <= 1 then 1 else Factorial(n - 1) * n
  }

  /** The degree fitted at the ends: a straight line when the slope is asked for. */
  function EdgeOrder(order: nat, deriv: nat): nat {
    if deriv == 1 && order > 1 then 1 else order
  }

  /** Value (deriv 0) or slope (deriv 1) of the polynomial c at tau. */
  function EvalAt(c: Vec, deriv: nat, tau: real): real
    requires c != []
  {
    if deriv == 0 then Poly(c, tau) else Poly(Deriv(c), tau)
  }

  /** The interior weights give the derivative of the least-squares polynomial at the window centre. */
  ghost predicate InteriorOk(w: Vec, window: nat, order: nat, deriv: nat)
    requires deriv <= order
  {
    && |w| == window
    && forall s: Vec, c: Vec | |s| == window && |c| == order + 1 && IsFit(c, Offsets(window), s) ::
         Dot(w, s) == Factorial(deriv) as real * c[deriv]
  }

  /** The edge weights evaluate the polynomial fitted to the whole window at tau. */
  ghost predicate EdgeOk(w: Vec, window: nat, order: nat, deriv: nat, tau: int) {
    && |w| == window
    && forall s: Vec, c: Vec | |s| == window && |c| == EdgeOrder(order, deriv) + 1 && IsFit(c, Offsets(window), s) ::
         Dot(w, s) == EvalAt(c, deriv, tau as real)
  }

  ghost predicate HasFit(s: Vec, p: nat) {
    exists c: Vec :: |c| == p && IsFit(c, Offsets(|s|), s)
  }

  /** Every window of samples has a least-squares polynomial with p coefficients. */
  ghost predicate HasFits(window: nat, p: nat) {
    forall s: Vec {:trigger HasFit(s, p)} | |s| == window :: HasFit(s, p)
  }

  lemma PinvHasFits(pinv: Rows, window: nat, p: nat)
    requires IsPinv(pinv, Offsets(window), p)
    ensures HasFits(window, p)
  {
    hide IsFit;
    forall s: Vec | |s| == window ensures HasFit(s, p) {
      var c := Vandermonde.Apply(pinv, s);
      assert IsFit(c, Offsets(window), s);
    }
  }

  ghost predicate KernelOk(k: SGKernel, window: nat, order: nat, deriv: nat)
    requires deriv <= order
  {
    && HasFits(window, order + 1) && HasFits(window, EdgeOrder(order, deriv) + 1)
    && InteriorOk(k.interior, window, order, deriv)
    && |k.left| == |k.right| == window / 2
    && (forall r | 0 <= r < window / 2 :: EdgeOk(k.left[r], window, order, deriv, r - window / 2))
    && (forall r | 0 <= r < window / 2 :: EdgeOk(k.right[r], window, order, deriv, r + 1))
  }

  // ---- the weights ----

  lemma ScaledDot(row: Vec, f: real, w: Vec, s: Vec)
    requires |row| == |w| == |s| && forall i | 0 <= i < |w| :: w[i] == row[i] * f
    ensures Dot(w, s) == f * Dot(row, s)
  {
    hide Dot;
    forall i | 0 <= i < |w| ensures w[i] == Axpy(Zeros(|w|), f, row)[i] {
      assert Axpy(Zeros(|w|), f, row)[i] == 0.0 + f * row[i];
    }
    assert w == Axpy(Zeros(|w|), f, row);
    DotAxpy(Zeros(|w|), f, row, s);
    DotZero(s, Zeros(|w|));
  }

  lemma ScaledFit(pinv: Rows, window: nat, order: nat, deriv: nat, w: Vec, s: Vec, c: Vec)
    requires IsPinv(pinv, Offsets(window), order + 1) && deriv <= order < window
    requires |w| == window && forall i | 0 <= i < window :: w[i] == pinv[deriv][i] * Factorial(deriv) as real
    requires |s| == window && |c| == order + 1 && IsFit(c, Offsets(window), s)
    ensures Dot(w, s) == Factorial(deriv) as real * c[deriv]
  {
    hide Dot, Factorial, IsFit;
    OffsetsDistinct(window);
    PinvIsTheFit(pinv, Offsets(window), order + 1, s, c);
    ScaledDot(pinv[deriv], Factorial(deriv) as real, w, s);
  }

  lemma ScaledRow(pinv: Rows, window: nat, order: nat, deriv: nat, w: Vec)
    requires IsPinv(pinv, Offsets(window), order + 1) && deriv <= order < window
    requires |w| == window && forall i | 0 <= i < window :: w[i] == pinv[deriv][i] * Factorial(deriv) as real
    ensures InteriorOk(w, window, order, deriv)
  {
    hide Dot, Factorial, IsFit, IsPinv;
    forall s: Vec, c: Vec | |s| == window && |c| == order + 1 && IsFit(c, Offsets(window), s)
      ensures Dot(w, s) == Factorial(deriv) as real * c[deriv]
    {
      ScaledFit(pinv, window, order, deriv, w, s, c);
    }
  }

  /** The derivative of t^q. */
  function PowSlope(t: real, q: nat): real {
    if q == 0 then 0.0 else q as real * Pow(t, q - 1)
  }

  /** [0, 1, 2 t, 3 t^2, ...] */
  function SlopeRow(t: real, n: nat): (r: Vec)
    ensures |r| == n && forall q | 0 <= q < n :: r[q] == PowSlope(t, q)
  {
    seq(n, q requires 0 <= q < n => PowSlope(t, q))
  }

  /** The row [1, tau, tau^2, ...], or its derivative. */
  function EvalRow(deriv: nat, tau: int, order: nat): (r: Vec)
    ensures |r| == order + 1
  {
    if deriv == 0 then PowerRow(tau as real, order + 1) else SlopeRow(tau as real, order + 1)
  }

  lemma {:induction false} DotPowers(c: Vec, t: real)
    ensures Dot(c, PowerRow(t, |c|)) == Poly(c, t)
  {
    if c != [] {
      var n := |c| - 1;
      DotPowers(c[..n], t);
      assert PowerRow(t, |c|)[..n] == PowerRow(t, n);
    }
  }

  lemma {:induction false} DotSlopes(c: Vec, t: real)
    requires c != []
    ensures Dot(c, SlopeRow(t, |c|)) == Poly(Deriv(c), t)
    decreases |c|, 1
  {
    if |c| > 1 {
      DotSlopesStep(c, t, |c| - 1);
    } else {
      assert Deriv(c) == [];
      assert SlopeRow(t, 1)[..0] == [] && c[..0] == [];
    }
  }

  lemma DerivTake(c: Vec, n: nat)
    requires |c| == n + 1 > 1
    ensures Deriv(c)[..n - 1] == Deriv(c[..n])
  {
    forall i | 0 <= i < n - 1 ensures Deriv(c)[..n - 1][i] == Deriv(c[..n])[i] {
      assert c[..n][i + 1] == c[i + 1];
    }
  }

  lemma DotSlopesStep(c: Vec, t: real, n: nat)
    requires |c| == n + 1 > 1
    ensures Dot(c, SlopeRow(t, |c|)) == Poly(Deriv(c), t)
    decreases |c|, 0
  {
    hide Dot, Poly, Pow;
    var row := SlopeRow(t, |c|);
    DotSlopes(c[..n], t);
    assert row[..n] == SlopeRow(t, n);
    DerivTake(c, n);
    DotSnoc(c, row, n);
    PolySnoc(Deriv(c), t, n - 1);
    Reorder(c[n], n as real, Pow(t, n - 1));
  }

  lemma Reorder(u: real, k: real, v: real)
    ensures u * (k * v) == (k * u) * v
  {
  }

  lemma EvalRowDot(c: Vec, deriv: nat, tau: int, order: nat)
    requires |c| == EdgeOrder(order, deriv) + 1
    ensures Dot(c, EvalRow(deriv, tau, order)[..|c|]) == EvalAt(c, deriv, tau as real)
  {
    var t := tau as real;
    if deriv == 0 {
      assert EvalRow(deriv, tau, order)[..|c|] == PowerRow(t, |c|);
      DotPowers(c, t);
    } else {
      assert EvalRow(deriv, tau, order)[..|c|] == SlopeRow(t, |c|);
      DotSlopes(c, t);
    }
  }

  lemma EdgeRow(pinv: Rows, window: nat, order: nat, deriv: nat, tau: int, w: Vec)
    requires var p := EdgeOrder(order, deriv) + 1;
             && p <= window && IsPinv(pinv, Offsets(window), p)
             && w == Combination(pinv, EvalRow(deriv, tau, order)[..p], window)
    ensures EdgeOk(w, window, order, deriv, tau)
  {
    hide Dot, IsFit, Combination, EvalRow, EvalAt;
    var p := EdgeOrder(order, deriv) + 1;
    var offs, row := Offsets(window), EvalRow(deriv, tau, order)[..p];
    OffsetsDistinct(window);
    forall s: Vec, c: Vec | |s| == window && |c| == p && IsFit(c, offs, s)
      ensures Dot(w, s) == EvalAt(c, deriv, tau as real)
    {
      PinvIsTheFit(pinv, offs, p, s, c);
      CombinationDot(pinv, row, window, s);
      EvalRowDot(c, deriv, tau, order);
    }
  }

  // ---- sgKernel ----

  method BuildEvalRow(deriv: nat, tau: int, order: nat) returns (row: Vec)
    ensures row == EvalRow(deriv, tau, order)
  {
    if deriv == 0 {
      row := BuildPowers(tau as real, order + 1);
    } else {
      var v := 1.0;
      row := [0.0];
      for q := 1 to order + 1
        invariant v == Pow(tau as real, q - 1)
        invariant row == SlopeRow(tau as real, q)
      {
        assert PowSlope(tau as real, q) == q as real * v;
        row := row + [q as real * v];
        v := v * tau as real;
      }
    }
  }

  /** One edge row: row[q] weighted sum of the rows of the pseudo-inverse. */
  method BuildEdgeRow(pinv: Rows, row: Vec, window: nat) returns (w: Vec)
    requires |pinv| <= |row| && forall q | 0 <= q < |pinv| :: |pinv[q]| == window
    ensures w == Combination(pinv, row[..|pinv|], window)
  {
    var p := |pinv|;
    ghost var v := row[..p];
    w := [];
    for c := 0 to window
      invariant |w| == c && forall k | 0 <= k < c :: w[k] == Dot(Column(pinv, k), v)
    {
      var s := 0.0;
      ghost var col := Column(pinv, c);
      for q := 0 to p
        invariant s == Dot(col[..q], v[..q])
      {
        assert col[..q + 1][..q] == col[..q] && v[..q + 1][..q] == v[..q];
        s := s + row[q] * pinv[q][c];
      }
      assert col[..p] == col && v[..p] == v;
      w := w + [s];
    }
    forall k | 0 <= k < window ensures w[k] == Combination(pinv, v, window)[k] {
      CombinationAt(pinv, v, window, k);
    }
  }

  method BuildEdges(pinv: Rows, window: nat, order: nat, deriv: nat, first: int) returns (rows: Rows)
    requires var p := EdgeOrder(order, deriv) + 1; p <= window && IsPinv(pinv, Offsets(window), p)
    ensures |rows| == window / 2
    ensures forall r | 0 <= r < window / 2 :: EdgeOk(rows[r], window, order, deriv, first + r)
  {
    hide EdgeOk, IsFit, EvalRow, Combination;
    rows := [];
    for r := 0 to window / 2
      invariant |rows| == r && forall q | 0 <= q < r :: EdgeOk(rows[q], window, order, deriv, first + q)
    {
      var row := BuildEvalRow(deriv, first + r, order);
      var w := BuildEdgeRow(pinv, row, window);
      EdgeRow(pinv, window, order, deriv, first + r, w);
      rows := rows + [w];
    }
  }

  method ComputeFactorial(n: nat) returns (f: real)
    ensures f == Factorial(n) as real
  {
    f := 1.0;
    var i := 2;
    while i <= n
      invariant 2 <= i && (if n < 2 then i == 2 else i <= n + 1)
      invariant f == (if i == 2 then 1 else Factorial(i - 1)) as real
    {
      f := f * i as real;
      i := i + 1;
    }
  }

  method BuildKernel(window: nat, order: nat, deriv: nat) returns (k: SGKernel)
    requires 1 <= order < window && deriv <= 1
    ensures KernelOk(k, window, order, deriv)
  {
    hide EdgeOk, InteriorOk, IsFit, HasFits;
    var offs := Offsets(window);
    OffsetsDistinct(window);
    var pinv := VanderPinv(offs, order + 1);
    PinvHasFits(pinv, window, order + 1);
    var fact := ComputeFactorial(deriv);
    var interior := [];
    for i := 0 to window
      invariant |interior| == i && forall j | 0 <= j < i :: interior[j] == pinv[deriv][j] * fact
    {
      interior := interior + [pinv[deriv][i] * fact];
    }
    ScaledRow(pinv, window, order, deriv, interior);
    var edgePinv := VanderPinv(offs, EdgeOrder(order, deriv) + 1);
    PinvHasFits(edgePinv, window, EdgeOrder(order, deriv) + 1);
    var half := window / 2;
    var left := BuildEdges(edgePinv, window, order, deriv, -half);
    var right := BuildEdges(edgePinv, window, order, deriv, 1);
    k := SGKernel(interior, left, right);
  }

  // ---- sgApply ----

  /** v is the derivative, at the window centre, of the least-squares polynomial through s. */
  ghost predicate InteriorPoint(v: real, s: Vec, order: nat, deriv: nat)
    requires deriv <= order
  {
    forall c: Vec | |c| == order + 1 && IsFit(c, Offsets(|s|), s) :: v == Factorial(deriv) as real * c[deriv]
  }

  /** v is the value (or slope) at tau of the polynomial fitted to the whole window s. */
  ghost predicate EdgePoint(v: real, s: Vec, order: nat, deriv: nat, tau: int) {
    forall c: Vec | |c| == EdgeOrder(order, deriv) + 1 && IsFit(c, Offsets(|s|), s)
      :: v == EvalAt(c, deriv, tau as real)
  }

  /** Sample i is filtered by the fit of its window; near an end, by the fit of the end's window. */
  ghost predicate SampleOk(v: real, a: Vec, window: nat, order: nat, deriv: nat, i: nat)
    requires deriv <= order && i < |a| && window <= |a| && window % 2 == 1
  {
    var n, half := |a|, window / 2;
    if i < half then EdgePoint(v, a[..window], order, deriv, i - half)
    else if i < n - half then InteriorPoint(v, a[i - half..i - half + window], order, deriv)
    else EdgePoint(v, a[n - window..], order, deriv, i - (n - half) + 1)
  }

  ghost predicate Filtered(out: Vec, a: Vec, window: nat, order: nat, deriv: nat)
    requires deriv <= order && window <= |a| && window % 2 == 1
  {
    |out| == |a| && forall i | 0 <= i < |a| :: SampleOk(out[i], a, window, order, deriv, i)
  }

  lemma KernelHasFits(k: SGKernel, window: nat, order: nat, deriv: nat)
    requires deriv <= order && KernelOk(k, window, order, deriv)
    ensures HasFits(window, order + 1) && HasFits(window, EdgeOrder(order, deriv) + 1)
  {
  }

  lemma KernelSizes(k: SGKernel, window: nat, order: nat, deriv: nat)
    requires deriv <= order && KernelOk(k, window, order, deriv)
    ensures |k.interior| == window && |k.left| == |k.right| == window / 2
    ensures forall r | 0 <= r < window / 2 :: |k.left[r]| == window && |k.right[r]| == window
  {
    hide HasFits;
    forall r | 0 <= r < window / 2 ensures |k.left[r]| == window && |k.right[r]| == window {
      assert EdgeOk(k.left[r], window, order, deriv, r - window / 2);
      assert EdgeOk(k.right[r], window, order, deriv, r + 1);
    }
  }

  lemma InteriorWeights(w: Vec, s: Vec, order: nat, deriv: nat)
    requires deriv <= order && InteriorOk(w, |s|, order, deriv)
    ensures InteriorPoint(Dot(w, s), s, order, deriv)
  {
  }

  lemma EdgeWeights(w: Vec, s: Vec, order: nat, deriv: nat, tau: int)
    requires EdgeOk(w, |s|, order, deriv, tau)
    ensures EdgePoint(Dot(w, s), s, order, deriv, tau)
  {
  }

  /** The weighted sum of the samples from place `at` on. */
  method Correlate(w: Vec, a: Vec, at: nat) returns (s: real)
    requires at + |w| <= |a|
    ensures s == Dot(w, a[at..at + |w|])
  {
    s := 0.0;
    ghost var x := a[at..at + |w|];
    for q := 0 to |w|
      invariant s == Dot(w[..q], x[..q])
    {
      assert w[..q + 1][..q] == w[..q] && x[..q + 1][..q] == x[..q];
      s := s + w[q] * a[at + q];
    }
    assert w[..|w|] == w && x[..|w|] == x;
  }

  class Smoother {
    const polyorder: nat
    var cache: map<(nat, nat), SGKernel>

    /** Only kernels that do what their key says are in the cache. */
    ghost predicate Valid()
      reads this
    {
      && polyorder >= 1
      && forall key | key in cache :: key.1 <= 1 && KernelOk(cache[key], key.0, polyorder, key.1)
    }

    constructor (requested: int)
      ensures Valid() && cache == map[] && polyorder == if requested > 1 then requested else 1
    {
      polyorder := if requested > 1 then requested else 1;
      cache := map[];
    }

    /** The kernel of a window, computed once. */
    method Kernel(window: nat, deriv: nat) returns (k: SGKernel)
      requires Valid() && polyorder < window && deriv <= 1
      modifies this`cache
      ensures Valid() && KernelOk(k, window, polyorder, deriv)
      ensures cache == old(cache)[(window, deriv) := k]
      ensures (window, deriv) in old(cache) ==> k == old(cache)[(window, deriv)]
    {
      hide KernelOk;
      if (window, deriv) in cache {
        k := cache[(window, deriv)];
        return;
      }
      k := BuildKernel(window, polyorder, deriv);
      cache := cache[(window, deriv) := k];
    }

    /** Filters a line of samples with an odd window that fits into it. */
    method Apply(a: Vec, window: nat, deriv: nat) returns (out: Vec)
      requires Valid() && polyorder < window <= |a| && window % 2 == 1 && deriv <= 1
      modifies this`cache
      ensures Valid() && Filtered(out, a, window, polyorder, deriv)
      ensures HasFits(window, polyorder + 1) && HasFits(window, EdgeOrder(polyorder, deriv) + 1)
    {
      hide KernelOk, SampleOk, HasFits;
      var k := Kernel(window, deriv);
      KernelHasFits(k, window, polyorder, deriv);
      out := ApplyInterior(k, a, window, polyorder, deriv);
      if window < 3 {
        return;
      }
      out := ApplyEnds(k, a, window, polyorder, deriv, out);
    }
  }

  method ApplyInterior(k: SGKernel, a: Vec, window: nat, ghost order: nat, ghost deriv: nat) returns (out: Vec)
    requires deriv <= order && KernelOk(k, window, order, deriv) && window <= |a| && window % 2 == 1
    ensures |out| == |a|
    ensures forall j | window / 2 <= j < |a| - window / 2 :: SampleOk(out[j], a, window, order, deriv, j)
  {
    hide KernelOk, SampleOk;
    KernelSizes(k, window, order, deriv);
    var n, half := |a|, window / 2;
    out := Zeros(n);
    var i := 0;
    while i + window <= n
      invariant 0 <= i <= n - window + 1 && |out| == n
      invariant forall j | half <= j < half + i :: SampleOk(out[j], a, window, order, deriv, j)
    {
      var s := Correlate(k.interior, a, i);
      InteriorSample(k, a, window, order, deriv, i);
      out := out[i + half := s];
      i := i + 1;
    }
  }

  method ApplyEnds(k: SGKernel, a: Vec, window: nat, ghost order: nat, ghost deriv: nat, interior: Vec)
    returns (out: Vec)
    requires deriv <= order && KernelOk(k, window, order, deriv) && window <= |a| && window % 2 == 1
    requires |interior| == |a|
    requires forall j | window / 2 <= j < |a| - window / 2 :: SampleOk(interior[j], a, window, order, deriv, j)
    ensures Filtered(out, a, window, order, deriv)
  {
    hide KernelOk, SampleOk;
    KernelSizes(k, window, order, deriv);
    var n, half := |a|, window / 2;
    out := interior;
    for r := 0 to half
      invariant |out| == n
      invariant forall j | 0 <= j < n && (j < r || half <= j < n - half + r) ::
                  SampleOk(out[j], a, window, order, deriv, j)
    {
      var head := Correlate(k.left[r], a, 0);
      var tail := Correlate(k.right[r], a, n - window);
      EdgeSamples(k, a, window, order, deriv, r);
      out := out[r := head];
      out := out[n - half + r := tail];
    }
  }

  lemma InteriorSample(k: SGKernel, a: Vec, window: nat, order: nat, deriv: nat, i: nat)
    requires deriv <= order && KernelOk(k, window, order, deriv) && i + window <= |a| && window % 2 == 1
    ensures |k.interior| == window
    ensures SampleOk(Dot(k.interior, a[i..i + window]), a, window, order, deriv, i + window / 2)
  {
    hide IsFit, Dot, Factorial, HasFits;
    InteriorWeights(k.interior, a[i..i + window], order, deriv);
  }

  lemma EdgeSamples(k: SGKernel, a: Vec, window: nat, order: nat, deriv: nat, r: nat)
    requires deriv <= order && KernelOk(k, window, order, deriv) && window <= |a| && window % 2 == 1 && r < window / 2
    ensures |k.left[r]| == window && |k.right[r]| == window
    ensures SampleOk(Dot(k.left[r], a[0..0 + window]), a, window, order, deriv, r)
    ensures var n := |a|;
            SampleOk(Dot(k.right[r], a[n - window..n - window + window]), a, window, order, deriv, n - window / 2 + r)
  {
    hide IsFit, Dot, EvalAt, HasFits, EdgeOk, EdgePoint, InteriorOk, InteriorPoint;
    KernelSizes(k, window, order, deriv);
    var n := |a|;
    assert a[0..0 + window] == a[..window] && a[n - window..n - window + window] == a[n - window..];
    assert EdgeOk(k.left[r], window, order, deriv, r - window / 2);
    assert EdgeOk(k.right[r], window, order, deriv, r + 1);
    EdgeWeights(k.left[r], a[..window], order, deriv, r - window / 2);
    EdgeWeights(k.right[r], a[n - window..], order, deriv, r + 1);
  }

  // ---- what filtering does to polynomials ----

  /** a holds the samples of the polynomial x at 0, 1, 2, ... */
  ghost predicate SamplesOf(a: Vec, x: Vec) {
    forall i | 0 <= i < |a| :: a[i] == Poly(x, i as real)
  }

  /** The window starting at i is fitted exactly by the polynomial moved to the window's centre. */
  lemma WindowFit(a: Vec, x: Vec, i: nat, window: nat)
    requires SamplesOf(a, x) && i + window <= |a|
    ensures IsFit(Shift(x, (i + window / 2) as real), Offsets(window), a[i..i + window])
  {
    hide IsFit, Poly, Shift;
    var m := (i + window / 2) as real;
    var s := a[i..i + window];
    forall k | 0 <= k < window ensures s[k] == Poly(Shift(x, m), Offsets(window)[k]) {
      ShiftPoly(x, m, (k - window / 2) as real);
      assert m + (k - window / 2) as real == (i + k) as real;
    }
    assert s == Samples(Shift(x, m), Offsets(window));
    PolynomialIsItsFit(Shift(x, m), Offsets(window));
  }

  lemma SmoothingInside(v: real, a: Vec, x: Vec, window: nat, order: nat, i: nat)
    requires window <= |a| && window % 2 == 1 && |x| == order + 1 && SamplesOf(a, x)
    requires window / 2 <= i < |a| - window / 2 && SampleOk(v, a, window, order, 0, i)
    ensures v == Poly(x, i as real)
  {
    hide IsFit, Poly, Shift;
    WindowFit(a, x, i - window / 2, window);
    ShiftConstant(x, i as real);
  }

  lemma SmoothingAtEnds(v: real, a: Vec, x: Vec, window: nat, order: nat, i: nat)
    requires window <= |a| && window % 2 == 1 && |x| == order + 1 && SamplesOf(a, x)
    requires (i < window / 2 || |a| - window / 2 <= i < |a|) && SampleOk(v, a, window, order, 0, i)
    ensures v == Poly(x, i as real)
  {
    hide IsFit, Poly, Shift;
    var n, half := |a|, window / 2;
    var at := if i < half then 0 else n - window;
    WindowFit(a, x, at, window);
    assert a[at..at + window] == if i < half then a[..window] else a[n - window..];
    ShiftPoly(x, (at + half) as real, (i - (at + half)) as real);
    assert (at + half) as real + (i - (at + half)) as real == i as real;
  }

  /** Smoothing (deriv 0) returns every polynomial of the filter's degree unchanged, ends included. */
  lemma SmoothingKeepsPolynomials(out: Vec, a: Vec, x: Vec, window: nat, order: nat)
    requires order < window <= |a| && window % 2 == 1 && Filtered(out, a, window, order, 0)
    requires |x| == order + 1 && SamplesOf(a, x)
    ensures out == a
  {
    hide IsFit, Poly, Shift, SampleOk;
    forall i | 0 <= i < |a| ensures out[i] == a[i] {
      assert SampleOk(out[i], a, window, order, 0, i);
      if window / 2 <= i < |a| - window / 2 {
        SmoothingInside(out[i], a, x, window, order, i);
      } else {
        SmoothingAtEnds(out[i], a, x, window, order, i);
      }
    }
  }

  /** In the interior, deriv 1 gives the exact slope of every polynomial of the filter's degree. */
  lemma SlopeOfPolynomials(out: Vec, a: Vec, x: Vec, window: nat, order: nat, i: nat)
    requires 1 <= order < window <= |a| && window % 2 == 1 && Filtered(out, a, window, order, 1)
    requires |x| == order + 1 && SamplesOf(a, x) && window / 2 <= i < |a| - window / 2
    ensures out[i] == Poly(Deriv(x), i as real)
  {
    hide IsFit, Poly, Shift, Deriv;
    var half := window / 2;
    assert SampleOk(out[i], a, window, order, 1, i);
    WindowFit(a, x, i - half, window);
    ShiftSlope(x, i as real);
  }

  /** At the ends, deriv 1 gives the exact slope of a straight line. */
  lemma SlopeOfLinesAtEnds(out: Vec, a: Vec, x: Vec, window: nat, order: nat, i: nat)
    requires 1 <= order < window <= |a| && window % 2 == 1 && Filtered(out, a, window, order, 1)
    requires |x| == 2 && SamplesOf(a, x) && (i < window / 2 || |a| - window / 2 <= i < |a|)
    ensures out[i] == x[1]
  {
    hide IsFit, Shift;
    var n, half := |a|, window / 2;
    assert SampleOk(out[i], a, window, order, 1, i);
    var at := if i < half then 0 else n - window;
    WindowFit(a, x, at, window);
    assert a[at..at + window] == if i < half then a[..window] else a[n - window..];
    var c := Shift(x, (at + half) as real);
    ShiftSlope(x, (at + half) as real);
    LineSlope(x, (at + half) as real);
    LineSlope(c, (i - (at + half)) as real);
  }

  lemma LineSlope(c: Vec, t: real)
    requires |c| == 2
    ensures Poly(Deriv(c), t) == c[1]
  {
    assert Deriv(c) == [c[1]];
    assert [c[1]][..0] == [];
  }

  // ---- which polynomial a sample comes from ----

  /** c is a least-squares polynomial of the `window` samples from place `at` on, in offsets from their centre. */
  ghost predicate FitsWindow(c: Vec, a: Vec, at: int, window: nat) {
    0 <= at <= at + window <= |a| && IsFit(c, Offsets(window), a[at..at + window])
  }

  /** A sample with a full window around it becomes the centre value, or slope, of the least-squares polynomial of the
      filter's degree through that window. */
  lemma InteriorIsLocalFit(out: Vec, a: Vec, c: Vec, window: nat, order: nat, i: nat)
    requires order < window <= |a| && window % 2 == 1 && |c| == order + 1
    requires window / 2 <= i < |a| - window / 2 && FitsWindow(c, a, i - window / 2, window)
    ensures Filtered(out, a, window, order, 0) ==> out[i] == c[0]
    ensures order >= 1 && Filtered(out, a, window, order, 1) ==> out[i] == c[1]
  {
    hide IsFit;
    if Filtered(out, a, window, order, 0) {
      assert SampleOk(out[i], a, window, order, 0, i);
    }
    if order >= 1 && Filtered(out, a, window, order, 1) {
      assert SampleOk(out[i], a, window, order, 1, i);
    }
  }

  /** A sample without one becomes the value of the polynomial of the filter's degree fitted to the first, or last,
      window; where the slope is asked for, the slope of the straight line fitted to it. */
  lemma EndIsLocalFit(out: Vec, a: Vec, c: Vec, window: nat, order: nat, i: nat)
    requires order < window <= |a| && window % 2 == 1
    requires (i < window / 2 && FitsWindow(c, a, 0, window))
          || (|a| - window / 2 <= i < |a| && FitsWindow(c, a, |a| - window, window))
    ensures |c| == order + 1 && Filtered(out, a, window, order, 0) ==>
              out[i] == Poly(c, (if i < window / 2 then i - window / 2 else i - (|a| - window / 2) + 1) as real)
    ensures order >= 1 && |c| == 2 && Filtered(out, a, window, order, 1) ==> out[i] == c[1]
  {
    hide IsFit, Poly, Deriv, Offsets;
    var at := if i < window / 2 then 0 else |a| - window;
    assert a[at..at + window] == if i < window / 2 then a[..window] else a[|a| - window..];
    if |c| == order + 1 && Filtered(out, a, window, order, 0) {
      assert SampleOk(out[i], a, window, order, 0, i);
    }
    if order >= 1 && |c| == 2 && Filtered(out, a, window, order, 1) {
      assert SampleOk(out[i], a, window, order, 1, i);
      LineSlope(c, (if i < window / 2 then i - window / 2 else i - (|a| - window / 2) + 1) as real);
    }
  }
}
