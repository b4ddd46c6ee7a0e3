/** centerline_generator.cpp: the least-squares pseudo-inverse of a Vandermonde matrix. */
module Vandermonde {
  import opened Arithmetic
  import opened Polynomials
  import opened GaussJordan

  /** The matrix-vector product. */
  function Apply(m: Rows, s: Vec): (r: Vec)
    requires forall i | 0 <= i < |m| :: |m[i]| == |s|
    ensures |r| == |m| && forall i | 0 <= i < |m| :: r[i] == Dot(m[i], s)
  {
    seq(|m|, i requires 0 <= i < |m| => Dot(m[i], s))
  }

  ghost predicate Sized(m: Rows, rows: nat, cols: nat) {
    |m| == rows && forall i | 0 <= i < rows :: |m[i]| == cols
  }

  /** Applying `pinv` to samples gives the coefficients of their least-squares polynomial. */
  ghost predicate IsPinv(pinv: Rows, offs: Vec, p: nat) {
    && Sized(pinv, p, |offs|)
    && forall s: Vec | |s| == |offs| :: IsFit(Apply(pinv, s), offs, s)
  }

  // ---- from the inverse of A^T A to the pseudo-inverse ----

  /** (A^T A)^-1 A^T: row i is the polynomial R[i] at the offsets. */
  function PinvRows(R: Rows, offs: Vec): (r: Rows)
    ensures |r| == |R| && forall i | 0 <= i < |R| :: r[i] == Samples(R[i], offs)
  {
    seq(|R|, i requires 0 <= i < |R| => Samples(R[i], offs))
  }

  lemma GramSymmetric(offs: Vec, x: Vec, z: Vec)
    requires |x| == |z|
    ensures Dot(x, Gram(offs, z)) == Dot(z, Gram(offs, x))
  {
    hide Dot, Moments, Samples;
    Adjoint(x, offs, Samples(z, offs));
    Adjoint(z, offs, Samples(x, offs));
    DotComm(Samples(x, offs), Samples(z, offs));
  }

  lemma InverseSymmetric(R: Rows, offs: Vec, p: nat, i: nat, j: nat)
    requires Inverts(R, offs, p) && i < p && j < p
    ensures R[i][j] == R[j][i]
  {
    hide Dot, Gram;
    assert Dot(R[j], Gram(offs, R[i])) == R[i][j];
    assert Dot(R[i], Gram(offs, R[j])) == R[j][i];
    GramSymmetric(offs, R[i], R[j]);
  }

  function Column(m: Rows, k: nat): (r: Vec)
    requires forall i | 0 <= i < |m| :: k < |m[i]|
    ensures |r| == |m| && forall i | 0 <= i < |m| :: r[i] == m[i][k]
  {
    seq(|m|, i requires 0 <= i < |m| => m[i][k])
  }

  /** v[0] m[0] + v[1] m[1] + ... */
  function Combination(m: Rows, v: Vec, p: nat): (r: Vec)
    requires Sized(m, |v|, p)
    ensures |r| == p
  {
    if m == [] then Zeros(p)
    else
      var n := |m| - 1;
      Axpy(Combination(m[..n], v[..n], p), v[n], m[n])
  }

  lemma {:induction false} CombinationAt(m: Rows, v: Vec, p: nat, k: nat)
    requires Sized(m, |v|, p) && k < p
    ensures Combination(m, v, p)[k] == Dot(Column(m, k), v)
  {
    if m != [] {
      var n := |m| - 1;
      CombinationAt(m[..n], v[..n], p, k);
      assert Column(m, k)[..n] == Column(m[..n], k);
    }
  }

  lemma CombinationSnoc(m: Rows, v: Vec, p: nat, n: nat)
    requires Sized(m, |v|, p) && |m| == n + 1
    ensures Combination(m, v, p) == Axpy(Combination(m[..n], v[..n], p), v[n], m[n])
  {
  }

  lemma {:induction false} CombinationDot(m: Rows, v: Vec, p: nat, y: Vec)
    requires Sized(m, |v|, p) && |y| == p
    ensures Dot(Apply(m, y), v) == Dot(Combination(m, v, p), y)
    decreases m, 1
  {
    if m == [] {
      DotZero(y, Zeros(p));
    } else {
      CombinationDotStep(m, v, p, y);
    }
  }

  lemma CombinationDotStep(m: Rows, v: Vec, p: nat, y: Vec)
    requires Sized(m, |v|, p) && |y| == p && m != []
    ensures Dot(Apply(m, y), v) == Dot(Combination(m, v, p), y)
    decreases m, 0
  {
    hide Dot, Combination, Axpy;
    var n := |m| - 1;
    CombinationDot(m[..n], v[..n], p, y);
    CombinationSnoc(m, v, p, n);
    DotSnoc(Apply(m, y), v, n);
    assert Apply(m, y)[..n] == Apply(m[..n], y);
    DotAxpy(Combination(m[..n], v[..n], p), v[n], m[n], y);
  }

  /** R y solves A^T A c = y. */
  lemma InverseSolves(R: Rows, offs: Vec, p: nat, y: Vec)
    requires Inverts(R, offs, p) && |y| == p
    ensures Gram(offs, Apply(R, y)) == y
  {
    hide Dot, Gram, Combination;
    var c := Apply(R, y);
    forall j | 0 <= j < p ensures Gram(offs, c)[j] == y[j] {
      var u := Unit(p, j);
      var v := Gram(offs, u);
      DotUnit(Gram(offs, c), j);
      DotComm(Gram(offs, c), u);
      GramSymmetric(offs, u, c);
      CombinationDot(R, v, p, y);
      assert Combination(R, v, p) == u by {
        InverseCombines(R, offs, p, j);
      }
      DotComm(u, y);
      DotUnit(y, j);
    }
  }

  lemma InverseCombines(R: Rows, offs: Vec, p: nat, j: nat)
    requires Inverts(R, offs, p) && j < p
    ensures Combination(R, Gram(offs, Unit(p, j)), p) == Unit(p, j)
  {
    hide Dot, Gram, Combination;
    var u := Unit(p, j);
    var v := Gram(offs, u);
    forall k | 0 <= k < p ensures Combination(R, v, p)[k] == u[k] {
      CombinationAt(R, v, p, k);
      forall i | 0 <= i < p ensures Column(R, k)[i] == R[k][i] {
        InverseSymmetric(R, offs, p, i, k);
      }
      assert Column(R, k) == R[k];
      assert Dot(R[k], Gram(offs, u)) == u[k];
    }
  }

  lemma PinvOfMoments(R: Rows, offs: Vec, p: nat, s: Vec)
    requires Sized(R, p, p) && |s| == |offs|
    ensures Apply(PinvRows(R, offs), s) == Apply(R, Moments(offs, p, s))
  {
    hide Dot, Samples, Moments;
    forall i | 0 <= i < p ensures Apply(PinvRows(R, offs), s)[i] == Apply(R, Moments(offs, p, s))[i] {
      Adjoint(R[i], offs, s);
    }
  }

  lemma SolutionFits(offs: Vec, c: Vec, s: Vec)
    requires |s| == |offs| && Gram(offs, c) == Moments(offs, |c|, s)
    ensures IsFit(c, offs, s)
  {
  }

  lemma PinvFits(R: Rows, offs: Vec, p: nat)
    requires Inverts(R, offs, p)
    ensures IsPinv(PinvRows(R, offs), offs, p)
  {
    hide Dot, Samples, Moments, IsFit, Gram;
    var pinv := PinvRows(R, offs);
    forall s: Vec | |s| == |offs| ensures IsFit(Apply(pinv, s), offs, s) {
      var y := Moments(offs, p, s);
      PinvOfMoments(R, offs, p, s);
      InverseSolves(R, offs, p, y);
      SolutionFits(offs, Apply(R, y), s);
    }
  }

  /** pinv A = I: on the samples of a polynomial the pseudo-inverse gives back its coefficients. */
  lemma LeftInverse(pinv: Rows, offs: Vec, p: nat, x: Vec)
    requires IsPinv(pinv, offs, p) && Distinct(offs) && p == |x| <= |offs|
    ensures Apply(pinv, Samples(x, offs)) == x
  {
    hide Dot, Moments;
    PolynomialIsItsFit(x, offs);
    FitUnique(Apply(pinv, Samples(x, offs)), x, offs, Samples(x, offs));
  }

  /** Any least-squares polynomial of the samples is the one the pseudo-inverse computes. */
  lemma PinvIsTheFit(pinv: Rows, offs: Vec, p: nat, s: Vec, c: Vec)
    requires IsPinv(pinv, offs, p) && Distinct(offs) && p == |c| <= |offs|
    requires IsFit(c, offs, s)
    ensures Apply(pinv, s) == c
  {
    hide Dot, Moments, Samples;
    FitUnique(Apply(pinv, s), c, offs, s);
  }

  // ---- the routine ----

  /** Row i of A: the powers 0..p-1 of offset i. */
  function PowerRow(t: real, p: nat): (r: Vec)
    ensures |r| == p && forall k | 0 <= k < p :: r[k] == Pow(t, k)
  {
    seq(p, k requires 0 <= k < p => Pow(t, k))
  }

  method BuildPowers(t: real, p: nat) returns (row: Vec)
    ensures row == PowerRow(t, p)
  {
    var v := 1.0;
    row := [];
    for k := 0 to p
      invariant |row| == k && v == Pow(t, k)
      invariant forall j | 0 <= j < k :: row[j] == Pow(t, j)
    {
      row := row + [v];
      v := v * t;
    }
  }

  method BuildVander(offs: Vec, p: nat) returns (A: Rows)
    ensures |A| == |offs| && forall i | 0 <= i < |offs| :: A[i] == PowerRow(offs[i], p)
  {
    A := [];
    for i := 0 to |offs|
      invariant |A| == i && forall r | 0 <= r < i :: A[r] == PowerRow(offs[r], p)
    {
      var row := BuildPowers(offs[i], p);
      A := A + [row];
    }
  }

  /** One entry of A^T A. */
  method GramEntry(A: Rows, offs: Vec, p: nat, i: nat, j: nat) returns (s: real)
    requires |A| == |offs| && (forall k | 0 <= k < |offs| :: A[k] == PowerRow(offs[k], p)) && i < p && j < p
    ensures s == Moments(offs, p, Powers(offs, i))[j]
  {
    s := 0.0;
    var a, b := Powers(offs, i), Powers(offs, j);
    for k := 0 to |offs|
      invariant s == Dot(a[..k], b[..k])
    {
      assert a[..k + 1][..k] == a[..k] && b[..k + 1][..k] == b[..k];
      s := s + A[k][i] * A[k][j];
    }
    assert a[..|offs|] == a && b[..|offs|] == b;
    DotComm(a, b);
  }

  /** Row i of the augmented matrix [A^T A | I]. */
  method FillRow(A: Rows, offs: Vec, p: nat, i: nat) returns (row: Vec)
    requires |A| == |offs| && (forall k | 0 <= k < |offs| :: A[k] == PowerRow(offs[k], p)) && i < p
    ensures row == StartRow(offs, p, i)
  {
    hide Moments, PowerRow;
    ghost var left := Moments(offs, p, Powers(offs, i));
    row := Zeros(2 * p);
    for j := 0 to p
      invariant row == left[..j] + Zeros(2 * p)[j..]
    {
      var s := GramEntry(A, offs, p, i, j);
      row := row[j := s];
    }
    row := row[p + i := 1.0];
    assert row == left + Unit(p, i);
  }

  method StartMatrix(A: Rows, offs: Vec, p: nat) returns (M: array<Vec>)
    requires |A| == |offs| && (forall k | 0 <= k < |offs| :: A[k] == PowerRow(offs[k], p))
    ensures fresh(M) && Shape(M[..], p) && forall i | 0 <= i < p :: M[i] == StartRow(offs, p, i)
  {
    hide PowerRow, StartRow;
    M := new Vec[p](_ => Zeros(2 * p));
    for i := 0 to p
      invariant forall r | 0 <= r < i :: M[r] == StartRow(offs, p, r)
    {
      M[i] := FillRow(A, offs, p, i);
    }
  }

  /** Partial pivoting: a row at or below c with the largest entry in column c. */
  method FindPivot(M: array<Vec>, p: nat, c: nat) returns (piv: nat)
    requires Shape(M[..], p) && c < p
    ensures c <= piv < p && forall r | c <= r < p :: RAbs(M[r][c]) <= RAbs(M[piv][c])
  {
    assert forall r | 0 <= r < p :: |M[..][r]| == |M[r]|;
    piv := c;
    for r := c + 1 to p
      invariant c <= piv < p && forall q | c <= q < r :: RAbs(M[q][c]) <= RAbs(M[piv][c])
    {
      if RAbs(M[r][c]) > RAbs(M[piv][c]) {
        piv := r;
      }
    }
  }

  method DivideRowBy(M: array<Vec>, c: nat, d: real)
    requires c < M.Length && d != 0.0
    modifies M
    ensures M[..] == old(M[..])[c := Divided(old(M[c]), d)]
  {
    ghost var row := M[c];
    for j := 0 to |M[c]|
      invariant |M[c]| == |row| && forall k | 0 <= k < |row| :: M[c][k] == if k < j then row[k] / d else row[k]
      invariant forall r | 0 <= r < M.Length && r != c :: M[r] == old(M[r])
    {
      M[c] := M[c][j := M[c][j] / d];
    }
    assert M[c] == Divided(row, d);
  }

  method SubtractRowFrom(M: array<Vec>, r: nat, c: nat, f: real)
    requires r < M.Length && c < M.Length && r != c && |M[r]| == |M[c]|
    modifies M
    ensures M[..] == old(M[..])[r := Axpy(old(M[r]), -f, old(M[c]))]
  {
    ghost var row := M[r];
    for j := 0 to |M[r]|
      invariant forall q | 0 <= q < M.Length && q != r :: M[q] == old(M[q])
      invariant |M[r]| == |row| == |M[c]|
      invariant forall k | 0 <= k < |row| :: M[r][k] == if k < j then row[k] - f * M[c][k] else row[k]
    {
      M[r] := M[r][j := M[r][j] - f * M[c][j]];
    }
    SubtractIsAxpy(row, f, M[c], M[r]);
  }

  lemma SubtractIsAxpy(x: Vec, f: real, y: Vec, z: Vec)
    requires |x| == |y| == |z| && forall k | 0 <= k < |x| :: z[k] == x[k] - f * y[k]
    ensures z == Axpy(x, -f, y)
  {
    forall k | 0 <= k < |x| ensures z[k] == Axpy(x, -f, y)[k] {
      assert (-f) * y[k] == -(f * y[k]);
    }
  }

  // ---- one column of the elimination ----

  /** Column c holds 1 in row c and, among the first k rows, 0 elsewhere. */
  ghost predicate Cleared(m: Rows, p: nat, c: nat, k: nat) {
    && Shape(m, p) && c < p && k <= p && UnitColumns(m, p, c)
    && m[c][c] == 1.0
    && forall q | 0 <= q < k && q != c :: m[q][c] == 0.0
  }

  lemma SwapColumns(m: Rows, p: nat, c: nat, piv: nat)
    requires Shape(m, p) && c <= piv < p && UnitColumns(m, p, c)
    ensures Shape(Swapped(m, c, piv), p) && UnitColumns(Swapped(m, c, piv), p, c)
    ensures Swapped(m, c, piv)[c] == m[piv]
  {
  }

  lemma DivideColumns(m: Rows, p: nat, c: nat)
    requires Shape(m, p) && c < p && UnitColumns(m, p, c) && m[c][c] != 0.0
    ensures Cleared(m[c := Divided(m[c], m[c][c])], p, c, 0)
  {
    var n := m[c := Divided(m[c], m[c][c])];
    forall i | 0 <= i < c ensures n[c][i] == 0.0 {
      assert m[c][i] == 0.0;
    }
    forall r, i | 0 <= r < p && 0 <= i < c ensures n[r][i] == if r == i then 1.0 else 0.0 {
      if r != c {
        assert n[r] == m[r];
      }
    }
  }

  lemma SubtractColumns(m: Rows, p: nat, c: nat, r: nat)
    requires Cleared(m, p, c, r) && r < p && r != c
    ensures Cleared(m[r := Axpy(m[r], -m[r][c], m[c])], p, c, r + 1)
  {
    var f := m[r][c];
    var n := m[r := Axpy(m[r], -f, m[c])];
    assert n[r][c] == f + (-f) * 1.0;
    forall q, i | 0 <= q < p && 0 <= i < c ensures n[q][i] == if q == i then 1.0 else 0.0 {
      if q == r {
        assert m[c][i] == 0.0;
        assert n[r][i] == m[r][i] + (-f) * 0.0;
      } else {
        assert n[q] == m[q];
      }
    }
  }

  lemma ClearedColumn(m: Rows, p: nat, c: nat)
    requires Cleared(m, p, c, p)
    ensures UnitColumns(m, p, c + 1)
  {
  }

  method ClearColumn(M: array<Vec>, p: nat, c: nat, ghost offs: Vec)
    requires Inv(M[..], offs, p) && Cleared(M[..], p, c, 0)
    modifies M
    ensures Inv(M[..], offs, p) && Cleared(M[..], p, c, p)
  {
    for r := 0 to p
      invariant Inv(M[..], offs, p) && Cleared(M[..], p, c, r)
    {
      ClearEntry(M, p, c, r, offs);
    }
  }

  method ClearEntry(M: array<Vec>, p: nat, c: nat, r: nat, ghost offs: Vec)
    requires Inv(M[..], offs, p) && Cleared(M[..], p, c, r) && r < p
    modifies M
    ensures Inv(M[..], offs, p) && Cleared(M[..], p, c, r + 1)
  {
    hide Zeroed, Aug, Pad;
    if r != c {
      var f := M[r][c];
      if f != 0.0 {
        SubtractColumns(M[..], p, c, r);
        SubtractRow(M[..], offs, p, r, c, f);
        SubtractRowFrom(M, r, c, f);
      }
    }
  }

  method EliminateColumn(M: array<Vec>, p: nat, c: nat, ghost offs: Vec)
    requires Inv(M[..], offs, p) && c < p && UnitColumns(M[..], p, c)
    modifies M
    ensures Inv(M[..], offs, p) && UnitColumns(M[..], p, c + 1)
  {
    hide Zeroed, Aug, Pad;
    ghost var m := M[..];
    var piv := FindPivot(M, p, c);
    PivotExists(m, offs, p, c);
    SwapRows(m, offs, p, c, piv);
    SwapColumns(m, p, c, piv);
    M[c], M[piv] := M[piv], M[c];
    assert M[..] == Swapped(m, c, piv);
    var d := M[c][c];
    DivideRow(M[..], offs, p, c, d);
    DivideColumns(M[..], p, c);
    DivideRowBy(M, c, d);
    ClearColumn(M, p, c, offs);
    ClearedColumn(M[..], p, c);
  }

  method Invert(M: array<Vec>, p: nat, ghost offs: Vec)
    requires Inv(M[..], offs, p)
    modifies M
    ensures Inv(M[..], offs, p) && UnitColumns(M[..], p, p)
  {
    hide Zeroed, Aug, Pad;
    for c := 0 to p
      invariant Inv(M[..], offs, p) && UnitColumns(M[..], p, c)
    {
      EliminateColumn(M, p, c, offs);
    }
  }

  /** One entry of R A^T. */
  method PinvEntry(row: Vec, powers: Vec, p: nat, ghost t: real) returns (s: real)
    requires |row| == 2 * p && powers == PowerRow(t, p)
    ensures s == Poly(row[p..], t)
  {
    s := 0.0;
    for j := 0 to p
      invariant s == Poly(row[p..][..j], t)
    {
      assert row[p..][..j + 1][..j] == row[p..][..j];
      s := s + row[p + j] * powers[j];
    }
    assert row[p..][..p] == row[p..];
  }

  method TimesTransposed(M: array<Vec>, A: Rows, p: nat, ghost offs: Vec) returns (pinv: Rows)
    requires Shape(M[..], p) && |A| == |offs| && forall k | 0 <= k < |offs| :: A[k] == PowerRow(offs[k], p)
    ensures pinv == PinvRows(RightHalf(M[..], p), offs)
  {
    hide Poly, Pow;
    pinv := [];
    for i := 0 to p
      invariant |pinv| == i && forall r | 0 <= r < i :: pinv[r] == Samples(M[r][p..], offs)
    {
      var row := [];
      for k := 0 to |A|
        invariant |row| == k && forall l | 0 <= l < k :: row[l] == Poly(M[i][p..], offs[l])
      {
        var s := PinvEntry(M[i], A[k], p, offs[k]);
        row := row + [s];
      }
      assert row == Samples(M[i][p..], offs);
      pinv := pinv + [row];
    }
  }

  /** The least-squares pseudo-inverse; the offsets must be distinct and at least p many. */
  method VanderPinv(offs: Vec, p: nat) returns (pinv: Rows)
    requires Distinct(offs) && p <= |offs|
    ensures IsPinv(pinv, offs, p)
  {
    hide Zeroed, Aug, Pad, IsPinv, Inverts, UnitColumns;
    var A := BuildVander(offs, p);
    var M := StartMatrix(A, offs, p);
    StartInv(M[..], offs, p);
    Invert(M, p, offs);
    RightHalfInverts(M[..], offs, p);
    PinvFits(RightHalf(M[..], p), offs, p);
    pinv := TimesTransposed(M, A, p, offs);
  }
}
