/** Gauss-Jordan elimination with partial pivoting on [A^T A | I], as in `vanderPinv`:
    what the row operations keep, and why a pivot is always found. */
module GaussJordan {
  import opened Polynomials

  type Rows = seq<Vec>

  ghost predicate Shape(m: Rows, p: nat) {
    |m| == p && forall r | 0 <= r < p :: |m[r]| == 2 * p
  }

  /** A^T A x */
  function Gram(offs: Vec, x: Vec): (r: Vec)
    ensures |r| == |x|
  {
    Moments(offs, |x|, Samples(x, offs))
  }

  /** x followed by -A^T A x: what every row of [L | R] with L = R A^T A annihilates. */
  function Aug(offs: Vec, x: Vec): (r: Vec)
    ensures |r| == 2 * |x|
  {
    x + Axpy(Zeros(|x|), -1.0, Gram(offs, x))
  }

  /** x followed by zeros: a row annihilates it when its left half annihilates x. */
  function Pad(x: Vec): (r: Vec)
    ensures |r| == 2 * |x|
  {
    x + Zeros(|x|)
  }

  /** Every row annihilates z. */
  ghost predicate Zeroed(m: Rows, z: Vec) {
    forall r | 0 <= r < |m| :: |m[r]| == |z| && Dot(m[r], z) == 0.0
  }

  /** Left half = right half times A^T A, and the left half is still nonsingular. */
  ghost predicate Inv(m: Rows, offs: Vec, p: nat) {
    && Shape(m, p)
    && (forall x: Vec | |x| == p :: Zeroed(m, Aug(offs, x)))
    && (forall x: Vec | |x| == p && Zeroed(m, Pad(x)) :: x == Zeros(p))
  }

  /** The first c columns are those of the identity. */
  ghost predicate UnitColumns(m: Rows, p: nat, c: nat)
    requires Shape(m, p) && c <= p
  {
    forall r, i | 0 <= r < p && 0 <= i < c :: m[r][i] == if r == i then 1.0 else 0.0
  }

  // ---- the start: [A^T A | I] ----

  function StartRow(offs: Vec, p: nat, i: nat): (r: Vec)
    ensures |r| == 2 * p
  {
    Moments(offs, p, Powers(offs, i)) + Unit(p, i)
  }

  lemma GramRow(offs: Vec, p: nat, i: nat, x: Vec)
    requires i < p == |x|
    ensures Dot(Moments(offs, p, Powers(offs, i)), x) == Gram(offs, x)[i]
  {
    Adjoint(x, offs, Powers(offs, i));
    DotComm(Moments(offs, p, Powers(offs, i)), x);
    DotComm(Powers(offs, i), Samples(x, offs));
  }

  lemma StartAug(offs: Vec, p: nat, i: nat, x: Vec)
    requires i < p == |x|
    ensures Dot(StartRow(offs, p, i), Aug(offs, x)) == 0.0
  {
    hide Moments, Samples, Dot;
    var g := Axpy(Zeros(p), -1.0, Gram(offs, x));
    DotConcat(Moments(offs, p, Powers(offs, i)), Unit(p, i), x, g);
    GramRow(offs, p, i, x);
    DotComm(Unit(p, i), g);
    DotUnit(g, i);
  }

  lemma StartPad(offs: Vec, p: nat, i: nat, x: Vec)
    requires i < p == |x|
    ensures Dot(StartRow(offs, p, i), Pad(x)) == Gram(offs, x)[i]
  {
    hide Moments, Samples, Dot;
    DotConcat(Moments(offs, p, Powers(offs, i)), Unit(p, i), x, Zeros(p));
    GramRow(offs, p, i, x);
    DotZero(Unit(p, i), Zeros(p));
  }

  lemma StartInv(m: Rows, offs: Vec, p: nat)
    requires Shape(m, p) && Distinct(offs) && p <= |offs|
    requires forall i | 0 <= i < p :: m[i] == StartRow(offs, p, i)
    ensures Inv(m, offs, p)
  {
    hide Moments, Samples, Dot, StartRow, Aug, Pad;
    forall x: Vec | |x| == p ensures Zeroed(m, Aug(offs, x)) {
      forall r | 0 <= r < p ensures Dot(m[r], Aug(offs, x)) == 0.0 {
        StartAug(offs, p, r, x);
      }
    }
    forall x: Vec | |x| == p && Zeroed(m, Pad(x)) ensures x == Zeros(p) {
      forall i | 0 <= i < p ensures Gram(offs, x)[i] == 0.0 {
        StartPad(offs, p, i, x);
        assert Dot(m[i], Pad(x)) == 0.0;
      }
      assert Gram(offs, x) == Zeros(p);
      GramInjective(x, offs);
    }
  }

  // ---- row operations ----

  function Swapped(m: Rows, a: nat, b: nat): Rows
    requires a < |m| && b < |m|
  {
    m[a := m[b]][b := m[a]]
  }

  lemma SwapRows(m: Rows, offs: Vec, p: nat, a: nat, b: nat)
    requires Inv(m, offs, p) && a < p && b < p
    ensures Inv(Swapped(m, a, b), offs, p)
  {
    hide Dot, Aug, Pad;
    var n := Swapped(m, a, b);
    forall z: Vec | |z| == 2 * p ensures Zeroed(m, z) <==> Zeroed(n, z) {
      SwapZeroed(m, p, a, b, z);
    }
  }

  lemma SwapZeroed(m: Rows, p: nat, a: nat, b: nat, z: Vec)
    requires Shape(m, p) && a < p && b < p && |z| == 2 * p
    ensures Zeroed(m, z) <==> Zeroed(Swapped(m, a, b), z)
  {
    hide Dot;
    var n := Swapped(m, a, b);
    forall r | 0 <= r < p
      ensures Zeroed(n, z) ==> Dot(m[r], z) == 0.0
      ensures Zeroed(m, z) ==> Dot(n[r], z) == 0.0
    {
      var q := if r == a then b else if r == b then a else r;
      assert m[r] == n[q] && n[r] == m[q];
    }
  }

  /** row / d, entry by entry */
  function Divided(row: Vec, d: real): (r: Vec)
    requires d != 0.0
    ensures |r| == |row| && forall j | 0 <= j < |row| :: r[j] == row[j] / d
  {
    seq(|row|, j requires 0 <= j < |row| => row[j] / d)
  }

  lemma DividedDot(row: Vec, d: real, z: Vec)
    requires d != 0.0 && |row| == |z|
    ensures Dot(Divided(row, d), z) == 0.0 <==> Dot(row, z) == 0.0
  {
    hide Dot;
    var q := Divided(row, d);
    DividedBack(row, d);
    DotAxpy(Zeros(|row|), d, q, z);
    DotZero(z, Zeros(|row|));
    NonzeroFactor(d, Dot(q, z), Dot(row, z));
  }

  lemma DividedBack(row: Vec, d: real)
    requires d != 0.0
    ensures Axpy(Zeros(|row|), d, Divided(row, d)) == row
  {
    var back := Axpy(Zeros(|row|), d, Divided(row, d));
    forall j | 0 <= j < |row| ensures back[j] == row[j] {
      DivideBack(row[j], d);
    }
  }

  lemma DivideBack(a: real, d: real)
    requires d != 0.0
    ensures d * (a / d) == a
  {
  }

  lemma NonzeroFactor(d: real, v: real, w: real)
    requires d != 0.0 && w == d * v
    ensures w == 0.0 <==> v == 0.0
  {
    assert v == w / d;
  }

  lemma DivideRow(m: Rows, offs: Vec, p: nat, c: nat, d: real)
    requires Inv(m, offs, p) && c < p && d != 0.0
    ensures Inv(m[c := Divided(m[c], d)], offs, p)
  {
    hide Dot, Aug, Pad;
    var n := m[c := Divided(m[c], d)];
    forall z: Vec | |z| == 2 * p ensures Zeroed(m, z) <==> Zeroed(n, z) {
      DivideZeroed(m, p, c, d, z);
    }
  }

  lemma DivideZeroed(m: Rows, p: nat, c: nat, d: real, z: Vec)
    requires Shape(m, p) && c < p && d != 0.0 && |z| == 2 * p
    ensures Zeroed(m, z) <==> Zeroed(m[c := Divided(m[c], d)], z)
  {
    hide Dot, Divided;
    var n := m[c := Divided(m[c], d)];
    DividedDot(m[c], d, z);
    assert forall r | 0 <= r < p && r != c :: n[r] == m[r];
    assert n[c] == Divided(m[c], d);
  }

  lemma SubtractRow(m: Rows, offs: Vec, p: nat, r: nat, c: nat, f: real)
    requires Inv(m, offs, p) && r < p && c < p && r != c
    ensures Inv(m[r := Axpy(m[r], -f, m[c])], offs, p)
  {
    hide Dot, Aug, Pad, Axpy;
    var n := m[r := Axpy(m[r], -f, m[c])];
    forall z: Vec | |z| == 2 * p ensures Zeroed(m, z) <==> Zeroed(n, z) {
      SubtractZeroed(m, p, r, c, f, z);
    }
  }

  lemma SubtractZeroed(m: Rows, p: nat, r: nat, c: nat, f: real, z: Vec)
    requires Shape(m, p) && r < p && c < p && r != c && |z| == 2 * p
    ensures Zeroed(m, z) <==> Zeroed(m[r := Axpy(m[r], -f, m[c])], z)
  {
    hide Dot, Axpy;
    var n := m[r := Axpy(m[r], -f, m[c])];
    DotAxpy(m[r], -f, m[c], z);
    assert forall q | 0 <= q < p && q != r :: n[q] == m[q];
    assert n[r] == Axpy(m[r], -f, m[c]) && n[c] == m[c];
  }

  // ---- the pivot ----

  /** Zero but for 1 at place c and, at the k first places, minus column c. */
  function NullVector(m: Rows, p: nat, c: nat, k: nat): (x: Vec)
    requires |m| == p && c < p && k <= c && forall r | 0 <= r < p :: |m[r]| > c
    ensures |x| == p && forall i | 0 <= i < p ::
              x[i] == if i < k then -m[i][c] else if i == c then 1.0 else 0.0
  {
    seq(p, i requires 0 <= i < p => if i < k then -m[i][c] else if i == c then 1.0 else 0.0)
  }

  lemma NullVectorStep(m: Rows, p: nat, c: nat, k: nat)
    requires |m| == p && c < p && 0 < k <= c && forall r | 0 <= r < p :: |m[r]| > c
    ensures NullVector(m, p, c, k) == Axpy(NullVector(m, p, c, k - 1), -m[k - 1][c], Unit(p, k - 1))
  {
    var x, y := NullVector(m, p, c, k - 1), NullVector(m, p, c, k);
    var z := Axpy(x, -m[k - 1][c], Unit(p, k - 1));
    forall i | 0 <= i < p ensures y[i] == z[i] {
      if i == k - 1 {
        assert z[i] == 0.0 + (-m[k - 1][c]) * 1.0;
      } else {
        assert z[i] == x[i] + (-m[k - 1][c]) * 0.0;
      }
    }
  }

  lemma {:induction false} NullVectorDot(m: Rows, p: nat, c: nat, k: nat, r: nat)
    requires Shape(m, p) && c < p && k <= c && r < p && UnitColumns(m, p, c)
    ensures Dot(m[r][..p], NullVector(m, p, c, k)) == m[r][c] - (if r < k then m[r][c] else 0.0)
  {
    hide Dot, Axpy;
    var row := m[r][..p];
    if k == 0 {
      assert NullVector(m, p, c, 0) == Unit(p, c);
      DotUnit(row, c);
    } else {
      var x, y := NullVector(m, p, c, k - 1), NullVector(m, p, c, k);
      NullVectorStep(m, p, c, k);
      DotAxpy(x, -m[k - 1][c], Unit(p, k - 1), row);
      DotComm(row, x);
      DotComm(row, y);
      DotUnit(row, k - 1);
      DotComm(row, Unit(p, k - 1));
      NullVectorDot(m, p, c, k - 1, r);
      assert row[k - 1] == m[r][k - 1];
    }
  }

  lemma NullVectorPad(m: Rows, p: nat, c: nat, r: nat)
    requires Shape(m, p) && c < p && r < p && UnitColumns(m, p, c)
    requires c <= r ==> m[r][c] == 0.0
    ensures Dot(m[r], Pad(NullVector(m, p, c, c))) == 0.0
  {
    hide Dot, UnitColumns, NullVector;
    var x := NullVector(m, p, c, c);
    NullVectorDot(m, p, c, c, r);
    assert m[r] == m[r][..p] + m[r][p..];
    DotConcat(m[r][..p], m[r][p..], x, Zeros(p));
    DotZero(m[r][p..], Zeros(p));
  }

  /** The pivot search cannot come up with zero. */
  lemma PivotExists(m: Rows, offs: Vec, p: nat, c: nat)
    requires Inv(m, offs, p) && c < p && UnitColumns(m, p, c)
    ensures exists r :: c <= r < p && m[r][c] != 0.0
  {
    hide Dot, Pad, Aug, UnitColumns;
    if forall r | c <= r < p :: m[r][c] == 0.0 {
      var x := NullVector(m, p, c, c);
      assert x[c] != Zeros(p)[c];
      forall r | 0 <= r < p ensures |m[r]| == |Pad(x)| && Dot(m[r], Pad(x)) == 0.0 {
        NullVectorPad(m, p, c, r);
      }
    }
  }

  // ---- the end: [I | (A^T A)^-1] ----

  /** R maps A^T A x back to x. */
  ghost predicate Inverts(R: Rows, offs: Vec, p: nat) {
    && |R| == p
    && (forall i | 0 <= i < p :: |R[i]| == p)
    && (forall x: Vec, i | |x| == p && 0 <= i < p :: Dot(R[i], Gram(offs, x)) == x[i])
  }

  function RightHalf(m: Rows, p: nat): (R: Rows)
    requires forall r | 0 <= r < |m| :: |m[r]| == 2 * p
    ensures |R| == |m| && forall i | 0 <= i < |m| :: R[i] == m[i][p..]
  {
    seq(|m|, i requires 0 <= i < |m| => m[i][p..])
  }

  lemma RowSplit(m: Rows, p: nat, i: nat)
    requires Shape(m, p) && UnitColumns(m, p, p) && i < p
    ensures m[i] == Unit(p, i) + RightHalf(m, p)[i]
  {
    assert m[i][..p] == Unit(p, i);
    assert m[i] == m[i][..p] + m[i][p..];
  }

  lemma InvZeroed(m: Rows, offs: Vec, p: nat, i: nat, x: Vec)
    requires Inv(m, offs, p) && i < p == |x|
    ensures |m| == p && |m[i]| == 2 * p && Dot(m[i], Aug(offs, x)) == 0.0
  {
    hide Dot, Aug, Pad;
    assert Zeroed(m, Aug(offs, x));
  }

  lemma RightHalfRow(m: Rows, offs: Vec, p: nat, i: nat, row: Vec, x: Vec)
    requires Inv(m, offs, p) && i < p == |x| == |row|
    requires |m| == p && m[i] == Unit(p, i) + row
    ensures Dot(row, Gram(offs, x)) == x[i]
  {
    hide *;
    InvZeroed(m, offs, p, i, x);
    UnitRow(offs, p, i, row, x);
  }

  lemma RightHalfInverts(m: Rows, offs: Vec, p: nat)
    requires Inv(m, offs, p) && UnitColumns(m, p, p)
    ensures Inverts(RightHalf(m, p), offs, p)
  {
    hide Dot, Aug, Pad, Gram, UnitColumns;
    forall x: Vec, i | |x| == p && 0 <= i < p ensures Dot(RightHalf(m, p)[i], Gram(offs, x)) == x[i] {
      RowSplit(m, p, i);
      RightHalfRow(m, offs, p, i, RightHalf(m, p)[i], x);
    }
  }

  lemma UnitRow(offs: Vec, p: nat, i: nat, row: Vec, x: Vec)
    requires i < p == |x| == |row|
    requires Dot(Unit(p, i) + row, Aug(offs, x)) == 0.0
    ensures Dot(row, Gram(offs, x)) == x[i]
  {
    hide Dot, Moments, Samples;
    var g := Gram(offs, x);
    var neg := Axpy(Zeros(p), -1.0, g);
    DotConcat(Unit(p, i), row, x, neg);
    DotComm(Unit(p, i), x);
    DotUnit(x, i);
    DotAxpy(Zeros(p), -1.0, g, row);
    DotComm(row, neg);
    DotComm(row, g);
    DotZero(row, Zeros(p));
  }
}
