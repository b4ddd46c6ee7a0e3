/** centerline_generator.cpp: the windowed local-linear smoother that ignores invalid samples. */
module MaskedSmooth {
  import opened Arithmetic
  import opened Polynomials

  function Sum(x: Vec): real {
    if x == [] then 0.0 else Sum(x[..|x| - 1]) + x[|x| - 1]
  }

  /** The determinant of the normal equations of a line through samples at the offsets. */
  function Det(offs: Vec): real {
    |offs| as real * Dot(offs, offs) - Sum(offs) * Sum(offs)
  }

  /** Sum of (x[a] - t)^2 */
  function Spread(x: Vec, t: real): real {
    if x == [] then 0.0 else Spread(x[..|x| - 1], t) + (x[|x| - 1] - t) * (x[|x| - 1] - t)
  }

  /** Sum of (x[b] - x[a])^2 over all pairs a < b. */
  function PairSquares(x: Vec): real {
    if x == [] then 0.0 else PairSquares(x[..|x| - 1]) + Spread(x[..|x| - 1], x[|x| - 1])
  }

  lemma {:induction false} SpreadExpanded(x: Vec, t: real)
    ensures Spread(x, t) == Dot(x, x) - 2.0 * t * Sum(x) + |x| as real * (t * t)
    decreases |x|, 1
  {
    if x != [] {
      SpreadStep(x, t, |x| - 1);
    }
  }

  lemma Snoc(x: Vec, n: nat, t: real)
    requires |x| == n + 1
    ensures Sum(x) == Sum(x[..n]) + x[n]
    ensures Spread(x, t) == Spread(x[..n], t) + (x[n] - t) * (x[n] - t)
    ensures PairSquares(x) == PairSquares(x[..n]) + Spread(x[..n], x[n])
  {
  }

  lemma SpreadAlgebra(k: real, d: real, s: real, u: real, t: real)
    ensures (d - 2.0 * t * s + k * (t * t)) + (u - t) * (u - t)
         == (d + u * u) - 2.0 * t * (s + u) + (k + 1.0) * (t * t)
  {
    assert (u - t) * (u - t) == u * u - 2.0 * t * u + t * t;
    assert 2.0 * t * (s + u) == 2.0 * t * s + 2.0 * t * u;
    assert (k + 1.0) * (t * t) == k * (t * t) + t * t;
  }

  lemma SpreadStep(x: Vec, t: real, n: nat)
    requires |x| == n + 1
    ensures Spread(x, t) == Dot(x, x) - 2.0 * t * Sum(x) + |x| as real * (t * t)
    decreases |x|, 0
  {
    hide Dot, Sum, Spread, PairSquares;
    var front, u := x[..n], x[n];
    SpreadExpanded(front, t);
    Snoc(x, n, t);
    DotSnoc(x, x, n);
    assert |front| as real == n as real && |x| as real == n as real + 1.0;
    SpreadAlgebra(n as real, Dot(front, front), Sum(front), u, t);
  }

  /** The determinant is the sum of the squared differences over all pairs of offsets. */
  lemma {:induction false} DetIsPairSquares(x: Vec)
    ensures Det(x) == PairSquares(x)
    decreases |x|, 1
  {
    if x != [] {
      DetStep(x, |x| - 1);
    }
  }

  lemma DetStep(x: Vec, n: nat)
    requires |x| == n + 1
    ensures Det(x) == PairSquares(x)
    decreases |x|, 0
  {
    hide Dot, Sum, Spread, PairSquares;
    var front, u := x[..n], x[n];
    DetIsPairSquares(front);
    SpreadExpanded(front, u);
    Snoc(x, n, 0.0);
    DotSnoc(x, x, n);
    assert |front| as real == n as real && |x| as real == n as real + 1.0;
    DetAlgebra(n as real, Dot(front, front), Sum(front), u);
  }

  lemma DetAlgebra(k: real, d: real, s: real, u: real)
    ensures (k + 1.0) * (d + u * u) - (s + u) * (s + u) == (k * d - s * s) + (d - 2.0 * u * s + k * (u * u))
  {
    assert (k + 1.0) * (d + u * u) == k * d + k * (u * u) + d + u * u;
    assert (s + u) * (s + u) == s * s + 2.0 * u * s + u * u;
  }

  // ---- windows ----

  /** The offsets t in [lo, hi) at which sample i + t exists and is valid. */
  function WinOffs(valid: seq<bool>, i: int, lo: int, hi: int): Vec
    decreases hi - lo
  {
    if hi <= lo then []
    else
      var rest := WinOffs(valid, i, lo, hi - 1);
      if 0 <= i + hi - 1 < |valid| && valid[i + hi - 1] then rest + [(hi - 1) as real] else rest
  }

  /** The valid samples at those offsets. */
  function WinVals(values: Vec, valid: seq<bool>, i: int, lo: int, hi: int): (r: Vec)
    requires |values| == |valid|
    ensures |r| == |WinOffs(valid, i, lo, hi)|
    decreases hi - lo
  {
    if hi <= lo then []
    else
      var rest := WinVals(values, valid, i, lo, hi - 1);
      if 0 <= i + hi - 1 < |valid| && valid[i + hi - 1] then rest + [values[i + hi - 1]] else rest
  }

  /** Integer offsets, strictly ascending, below hi. */
  ghost predicate Ascending(o: Vec, hi: int) {
    && (forall a | 0 <= a < |o| :: o[a] + 1.0 <= hi as real)
    && (forall a, b | 0 <= a < b < |o| :: o[a] + 1.0 <= o[b])
  }

  lemma {:induction false} OffsetsAscend(valid: seq<bool>, i: int, lo: int, hi: int)
    ensures Ascending(WinOffs(valid, i, lo, hi), hi)
    decreases hi - lo
  {
    if lo < hi {
      OffsetsAscend(valid, i, lo, hi - 1);
      AscendingSnoc(WinOffs(valid, i, lo, hi - 1), hi - 1);
    }
  }

  lemma AscendingSnoc(o: Vec, hi: int)
    requires Ascending(o, hi)
    ensures Ascending(o, hi + 1) && Ascending(o + [hi as real], hi + 1)
  {
    var p := o + [hi as real];
    forall a | 0 <= a < |p| ensures p[a] + 1.0 <= (hi + 1) as real {
      if a < |o| {
        assert o[a] == p[a];
      }
    }
  }

  lemma {:induction false} SpreadNonNegative(x: Vec, t: real)
    ensures Spread(x, t) >= 0.0
    ensures x != [] && (forall a | 0 <= a < |x| :: x[a] + 1.0 <= t) ==> Spread(x, t) >= 1.0
  {
    if x != [] {
      var n := |x| - 1;
      SpreadNonNegative(x[..n], t);
      var e := x[n] - t;
      SquareSign(e, e * e);
      if x[n] + 1.0 <= t {
        SquareAtLeastOne(e, e * e);
      }
    }
  }

  lemma SquareAtLeastOne(e: real, s: real)
    requires e <= -1.0 && s == e * e
    ensures s >= 1.0
  {
    var f := -e - 1.0;
    assert s == f * f + 2.0 * f + 1.0;
    SquareSign(f, f * f);
  }

  /** The determinant exceeds 0.5 exactly when the window has two valid samples. */
  lemma DetTellsTwo(x: Vec)
    requires forall a, b | 0 <= a < b < |x| :: x[a] + 1.0 <= x[b]
    ensures Det(x) > 0.5 <==> |x| >= 2
    ensures |x| < 2 ==> Det(x) == 0.0
  {
    DetIsPairSquares(x);
    PairsAtLeast(x);
  }

  lemma {:induction false} PairsAtLeast(x: Vec)
    requires forall a, b | 0 <= a < b < |x| :: x[a] + 1.0 <= x[b]
    ensures if |x| < 2 then PairSquares(x) == 0.0 else PairSquares(x) >= 1.0
  {
    if x != [] {
      var n := |x| - 1;
      PairsAtLeast(x[..n]);
      SpreadNonNegative(x[..n], x[n]);
      if n == 0 {
        assert x[..0] == [];
      } else if n == 1 {
        assert x[..1][..0] == [];
      }
    }
  }

  // ---- the local line ----

  function LineAt(alpha: real, beta: real, t: real): real {
    alpha + beta * t
  }

  /** The samples of the line alpha + beta t. */
  function Line(offs: Vec, alpha: real, beta: real): (r: Vec)
    ensures |r| == |offs| && forall k | 0 <= k < |offs| :: r[k] == LineAt(alpha, beta, offs[k])
  {
    seq(|offs|, k requires 0 <= k < |offs| => LineAt(alpha, beta, offs[k]))
  }

  lemma {:induction false} LineSums(offs: Vec, alpha: real, beta: real)
    ensures Sum(Line(offs, alpha, beta)) == alpha * |offs| as real + beta * Sum(offs)
    ensures Dot(offs, Line(offs, alpha, beta)) == alpha * Sum(offs) + beta * Dot(offs, offs)
    decreases |offs|, 1
  {
    if offs != [] {
      LineSumsStep(offs, alpha, beta, |offs| - 1);
    }
  }

  lemma LineSumsStep(offs: Vec, alpha: real, beta: real, n: nat)
    requires |offs| == n + 1
    ensures Sum(Line(offs, alpha, beta)) == alpha * |offs| as real + beta * Sum(offs)
    ensures Dot(offs, Line(offs, alpha, beta)) == alpha * Sum(offs) + beta * Dot(offs, offs)
    decreases |offs|, 0
  {
    hide Dot, Sum, Spread, PairSquares;
    var line, front, u := Line(offs, alpha, beta), offs[..n], offs[n];
    LineSums(front, alpha, beta);
    LineTake(offs, alpha, beta, n);
    Snoc(offs, n, 0.0);
    Snoc(line, n, 0.0);
    DotSnoc(offs, offs, n);
    DotSnoc(offs, line, n);
    assert |front| as real == n as real && |offs| as real == n as real + 1.0;
    LineAlgebra(alpha, beta, u, n as real, Sum(front), Dot(front, front));
  }

  lemma LineTake(offs: Vec, alpha: real, beta: real, n: nat)
    requires n <= |offs|
    ensures Line(offs, alpha, beta)[..n] == Line(offs[..n], alpha, beta)
  {
    forall k | 0 <= k < n ensures Line(offs, alpha, beta)[..n][k] == Line(offs[..n], alpha, beta)[k] {
      assert offs[..n][k] == offs[k];
    }
  }

  lemma LineAlgebra(alpha: real, beta: real, u: real, n: real, s: real, d: real)
    ensures (alpha * n + beta * s) + (alpha + beta * u) == alpha * (n + 1.0) + beta * (s + u)
    ensures (alpha * s + beta * d) + u * (alpha + beta * u) == alpha * (s + u) + beta * (d + u * u)
  {
    assert u * (alpha + beta * u) == alpha * u + beta * (u * u);
  }

  lemma {:induction false} OnesDot(ones: Vec, s: Vec)
    requires |ones| == |s| && forall k | 0 <= k < |ones| :: ones[k] == 1.0
    ensures Dot(ones, s) == Sum(s)
  {
    if s != [] {
      OnesDot(ones[..|s| - 1], s[..|s| - 1]);
    }
  }

  lemma FirstPowers(offs: Vec)
    ensures Powers(offs, 1) == offs
    ensures forall k | 0 <= k < |offs| :: Powers(offs, 0)[k] == 1.0
  {
    forall k | 0 <= k < |offs| ensures Powers(offs, 1)[k] == offs[k] {
      assert Pow(offs[k], 1) == Pow(offs[k], 0) * offs[k];
    }
  }

  lemma TwoMoments(offs: Vec, s: Vec)
    requires |s| == |offs|
    ensures Moments(offs, 2, s) == [Sum(s), Dot(offs, s)]
  {
    hide Dot, Sum, Pow, Powers;
    FirstPowers(offs);
    OnesDot(Powers(offs, 0), s);
  }

  lemma LineSamples(offs: Vec, alpha: real, beta: real)
    ensures Samples([alpha, beta], offs) == Line(offs, alpha, beta)
  {
    forall k | 0 <= k < |offs| ensures Poly([alpha, beta], offs[k]) == alpha + beta * offs[k] {
      Horner([alpha, beta], offs[k]);
      Horner([beta], offs[k]);
      assert [alpha, beta][1..] == [beta] && [beta][1..] == [];
    }
  }

  lemma Solve(s0: real, s1: real, s2: real, sv: real, stv: real, det: real, alpha: real, beta: real)
    requires det == s0 * s2 - s1 * s1 && det != 0.0
    requires alpha * det == s2 * sv - s1 * stv && beta * det == s0 * stv - s1 * sv
    ensures alpha * s0 + beta * s1 == sv && alpha * s1 + beta * s2 == stv
  {
    SolveRow(s0, s1, s2, sv, stv, det, alpha, beta);
    SolveRow(s2, s1, s0, stv, sv, det, beta, alpha);
  }

  lemma SolveRow(s0: real, s1: real, s2: real, sv: real, stv: real, det: real, alpha: real, beta: real)
    requires det == s0 * s2 - s1 * s1 && det != 0.0
    requires alpha * det == s2 * sv - s1 * stv && beta * det == s0 * stv - s1 * sv
    ensures alpha * s0 + beta * s1 == sv
  {
    var v := alpha * s0 + beta * s1;
    assert v * det == (alpha * det) * s0 + (beta * det) * s1;
    assert (s2 * sv - s1 * stv) * s0 + (s0 * stv - s1 * sv) * s1 == sv * (s0 * s2 - s1 * s1);
    Cancel(v, sv, det);
  }

  lemma Cancel(a: real, b: real, d: real)
    requires d != 0.0 && a * d == b * d
    ensures a == b
  {
    assert (a - b) * d == 0.0;
  }

  /** The value at the window centre and the slope that the closed formulas give are the least-squares line. */
  lemma LineFits(offs: Vec, vals: Vec, s0: real, s1: real, s2: real, sv: real, stv: real, det: real,
                 alpha: real, beta: real)
    requires |offs| == |vals|
    requires s0 == |offs| as real && s1 == Sum(offs) && s2 == Dot(offs, offs)
    requires sv == Sum(vals) && stv == Dot(offs, vals)
    requires det == s0 * s2 - s1 * s1 && det != 0.0
    requires alpha * det == s2 * sv - s1 * stv && beta * det == s0 * stv - s1 * sv
    ensures IsFit([alpha, beta], offs, vals)
  {
    hide Dot, Sum, Moments, Samples, Poly;
    Solve(s0, s1, s2, sv, stv, det, alpha, beta);
    LineSums(offs, alpha, beta);
    LineSamples(offs, alpha, beta);
    TwoMoments(offs, Line(offs, alpha, beta));
    TwoMoments(offs, vals);
  }

  // ---- the smoother ----

  function CountValid(valid: seq<bool>): nat {
    if valid == [] then 0 else CountValid(valid[..|valid| - 1]) + (if valid[|valid| - 1] then 1 else 0)
  }

  /** The window actually used: at most the number of valid samples, and odd. */
  function UsedWindow(valid: seq<bool>, window: int): int {
    var w := if window < CountValid(valid) then window else CountValid(valid);
    if w % 2 == 0 then w - 1 else w
  }

  function ValidPlaces(valid: seq<bool>, n: nat): set<int> {
    set k | 0 <= k < n && k < |valid| && valid[k]
  }

  lemma {:induction false} CountIsPlaces(valid: seq<bool>, n: nat)
    requires n <= |valid|
    ensures CountValid(valid[..n]) == |ValidPlaces(valid, n)|
  {
    if n > 0 {
      CountIsPlaces(valid, n - 1);
      assert valid[..n][..n - 1] == valid[..n - 1];
      if valid[n - 1] {
        assert ValidPlaces(valid, n) == ValidPlaces(valid, n - 1) + {n - 1};
      } else {
        assert ValidPlaces(valid, n) == ValidPlaces(valid, n - 1);
      }
    }
  }

  /** The window used is the greatest odd number that is neither more than asked for nor more than the number of
      valid samples. */
  lemma UsedWindowIsGreatestOdd(valid: seq<bool>, window: int)
    ensures var w, n := UsedWindow(valid, window), |ValidPlaces(valid, |valid|)|;
            && w % 2 == 1 && w <= window && w <= n
            && forall v | v % 2 == 1 && v <= window && v <= n :: v <= w
  {
    assert valid[..|valid|] == valid;
    CountIsPlaces(valid, |valid|);
  }

  /** v is the centre value of the least-squares line through the valid samples of the window;
      the only valid sample, or 0, when there are fewer than two. */
  ghost predicate Smoothed(v: real, offs: Vec, vals: Vec)
    requires |offs| == |vals|
  {
    if |offs| >= 2 then exists slope: real :: IsFit([v, slope], offs, vals)
    else if |offs| == 1 then v == vals[0]
    else v == 0.0
  }

  /** The values as they are below a used window of 3, the centre values of the local lines otherwise. */
  ghost predicate IsSmoothing(out: Vec, values: Vec, valid: seq<bool>, window: int)
    requires |values| == |valid|
  {
    var w := UsedWindow(valid, window);
    if w < 3 then out == values
    else |out| == |values| && forall i | 0 <= i < |out| ::
           Smoothed(out[i], WinOffs(valid, i, -(w / 2), w / 2 + 1), WinVals(values, valid, i, -(w / 2), w / 2 + 1))
  }

  /** The five running sums over the window around sample i. */
  method GatherSums(values: Vec, valid: seq<bool>, i: nat, h: int)
    returns (s0: real, s1: real, s2: real, sv: real, stv: real)
    requires |values| == |valid| && h >= 0
    ensures var offs, vals := WinOffs(valid, i, -h, h + 1), WinVals(values, valid, i, -h, h + 1);
            && s0 == |offs| as real && s1 == Sum(offs) && s2 == Dot(offs, offs)
            && sv == Sum(vals) && stv == Dot(offs, vals)
  {
    hide Dot, Sum;
    s0, s1, s2, sv, stv := 0.0, 0.0, 0.0, 0.0, 0.0;
    EmptySums();
    var n := |values|;
    var t := -h;
    while t <= h
      invariant -h <= t <= h + 1
      invariant s0 == |WinOffs(valid, i, -h, t)| as real
      invariant s1 == Sum(WinOffs(valid, i, -h, t))
      invariant s2 == Dot(WinOffs(valid, i, -h, t), WinOffs(valid, i, -h, t))
      invariant sv == Sum(WinVals(values, valid, i, -h, t))
      invariant stv == Dot(WinOffs(valid, i, -h, t), WinVals(values, valid, i, -h, t))
    {
      var j := i + t;
      ghost var offs, vals := WinOffs(valid, i, -h, t), WinVals(values, valid, i, -h, t);
      if 0 <= j < n && valid[j] {
        var v := values[j];
        GrowSums(offs, vals, t as real, v);
        assert WinOffs(valid, i, -h, t + 1) == offs + [t as real] && WinVals(values, valid, i, -h, t + 1) == vals + [v];
        s0 := s0 + 1.0;
        s1 := s1 + t as real;
        s2 := s2 + (t as real) * (t as real);
        sv := sv + v;
        stv := stv + (t as real) * v;
      }
      t := t + 1;
    }
  }

  lemma EmptySums()
    ensures Sum([]) == 0.0 && Dot([], []) == 0.0
  {
  }

  lemma GrowSums(offs: Vec, vals: Vec, t: real, v: real)
    requires |offs| == |vals|
    ensures Sum(offs + [t]) == Sum(offs) + t && Sum(vals + [v]) == Sum(vals) + v
    ensures Dot(offs + [t], offs + [t]) == Dot(offs, offs) + t * t
    ensures Dot(offs + [t], vals + [v]) == Dot(offs, vals) + t * v
  {
    hide Dot, Sum;
    SumAppend(offs, t);
    SumAppend(vals, v);
    DotAppend(offs, t, offs, t);
    DotAppend(offs, t, vals, v);
  }

  lemma SumAppend(x: Vec, t: real)
    ensures Sum(x + [t]) == Sum(x) + t
  {
    assert (x + [t])[..|x|] == x;
  }

  lemma DotAppend(x: Vec, t: real, y: Vec, v: real)
    requires |x| == |y|
    ensures Dot(x + [t], y + [v]) == Dot(x, y) + t * v
  {
    hide Dot;
    assert (x + [t])[..|x|] == x && (y + [v])[..|y|] == y;
    DotSnoc(x + [t], y + [v], |x|);
  }

  method SmoothAt(values: Vec, valid: seq<bool>, i: nat, h: int) returns (v: real)
    requires |values| == |valid| && h >= 0
    ensures Smoothed(v, WinOffs(valid, i, -h, h + 1), WinVals(values, valid, i, -h, h + 1))
  {
    hide WinOffs, WinVals, Dot, Sum, Smoothed, Ascending, Det;
    var s0, s1, s2, sv, stv := GatherSums(values, valid, i, h);
    var det := s0 * s2 - s1 * s1;
    var linear := (s2 * sv - s1 * stv) / RMax(det, 0.000001);
    var box := sv / RMax(s0, 0.000001);
    v := if det > 0.5 then linear else box;
    OffsetsAscend(valid, i, -h, h + 1);
    ghost var offs, vals := WinOffs(valid, i, -h, h + 1), WinVals(values, valid, i, -h, h + 1);
    DetFromSums(offs, h + 1, s0, s1, s2, det);
    if det > 0.5 {
      ChooseLine(offs, vals, s0, s1, s2, sv, stv, det, v);
    } else {
      ChooseBox(offs, vals, s0, sv, v);
    }
  }

  lemma DetFromSums(offs: Vec, hi: int, s0: real, s1: real, s2: real, det: real)
    requires Ascending(offs, hi)
    requires s0 == |offs| as real && s1 == Sum(offs) && s2 == Dot(offs, offs)
    requires det == s0 * s2 - s1 * s1
    ensures det > 0.5 <==> |offs| >= 2
  {
    hide Dot, Sum;
    DetTellsTwo(offs);
  }

  lemma ChooseLine(offs: Vec, vals: Vec, s0: real, s1: real, s2: real, sv: real, stv: real, det: real, v: real)
    requires |offs| == |vals| && |offs| >= 2 && det > 0.5
    requires s0 == |offs| as real && s1 == Sum(offs) && s2 == Dot(offs, offs)
    requires sv == Sum(vals) && stv == Dot(offs, vals)
    requires det == s0 * s2 - s1 * s1 && v == (s2 * sv - s1 * stv) / RMax(det, 0.000001)
    ensures Smoothed(v, offs, vals)
  {
    hide Dot, IsFit, Sum;
    var a, b := s2 * sv - s1 * stv, s0 * stv - s1 * sv;
    Quotient(a, det);
    Quotient(b, det);
    LineFits(offs, vals, s0, s1, s2, sv, stv, det, v, b / det);
  }

  lemma ChooseBox(offs: Vec, vals: Vec, s0: real, sv: real, v: real)
    requires |offs| == |vals| && |offs| < 2
    requires s0 == |offs| as real && sv == Sum(vals) && v == sv / RMax(s0, 0.000001)
    ensures Smoothed(v, offs, vals)
  {
    hide IsFit;
    if |offs| == 1 {
      assert vals[..0] == [];
      assert Sum(vals) == vals[0];
    }
  }

  lemma Quotient(a: real, d: real)
    requires d != 0.0
    ensures (a / d) * d == a
  {
  }

  method MaskedSmooth(values: Vec, valid: seq<bool>, window: int) returns (out: Vec)
    requires |values| == |valid|
    ensures IsSmoothing(out, values, valid, window)
  {
    hide Smoothed, WinOffs, WinVals;
    var nvalid := 0;
    for k := 0 to |valid|
      invariant nvalid == CountValid(valid[..k])
    {
      assert valid[..k + 1][..k] == valid[..k];
      nvalid := nvalid + (if valid[k] then 1 else 0);
    }
    assert valid[..|valid|] == valid;
    var w := if window < nvalid then window else nvalid;
    if w % 2 == 0 {
      w := w - 1;
    }
    if w < 3 {
      return values;
    }
    var h := w / 2;
    out := SmoothAll(values, valid, h);
  }

  method SmoothAll(values: Vec, valid: seq<bool>, h: int) returns (out: Vec)
    requires |values| == |valid| && h >= 0
    ensures |out| == |values|
    ensures forall i | 0 <= i < |out| ::
              Smoothed(out[i], WinOffs(valid, i, -h, h + 1), WinVals(values, valid, i, -h, h + 1))
  {
    hide Smoothed, WinOffs, WinVals;
    out := [];
    for i := 0 to |values|
      invariant |out| == i
      invariant forall j | 0 <= j < i
                  :: Smoothed(out[j], WinOffs(valid, j, -h, h + 1), WinVals(values, valid, j, -h, h + 1))
    {
      var v := SmoothAt(values, valid, i, h);
      out := out + [v];
    }
  }

  // ---- what smoothing keeps ----

  lemma {:induction false} WinValsAgree(values: Vec, others: Vec, valid: seq<bool>, i: int, lo: int, hi: int)
    requires |values| == |others| == |valid|
    requires forall j | 0 <= j < |valid| && valid[j] :: values[j] == others[j]
    ensures WinVals(values, valid, i, lo, hi) == WinVals(others, valid, i, lo, hi)
    decreases hi - lo
  {
    if lo < hi {
      WinValsAgree(values, others, valid, i, lo, hi - 1);
    }
  }

  lemma SmoothedUnique(v: real, w: real, offs: Vec, vals: Vec, hi: int)
    requires |offs| == |vals| && Ascending(offs, hi)
    requires Smoothed(v, offs, vals) && Smoothed(w, offs, vals)
    ensures v == w
  {
    hide IsFit;
    if |offs| >= 2 {
      var a :| IsFit([v, a], offs, vals);
      var b :| IsFit([w, b], offs, vals);
      FitUnique([v, a], [w, b], offs, vals);
      assert [v, a][0] == [w, b][0];
    }
  }

  /** Invalid values have no influence on a local line: it is a function of the valid samples alone. */
  lemma InvalidValuesIgnored(values: Vec, others: Vec, valid: seq<bool>, i: int, h: int, v: real, w: real)
    requires |values| == |others| == |valid| && h >= 0
    requires forall j | 0 <= j < |valid| && valid[j] :: values[j] == others[j]
    requires Smoothed(v, WinOffs(valid, i, -h, h + 1), WinVals(values, valid, i, -h, h + 1))
    requires Smoothed(w, WinOffs(valid, i, -h, h + 1), WinVals(others, valid, i, -h, h + 1))
    ensures v == w
  {
    hide Smoothed;
    WinValsAgree(values, others, valid, i, -h, h + 1);
    OffsetsAscend(valid, i, -h, h + 1);
    SmoothedUnique(v, w, WinOffs(valid, i, -h, h + 1), WinVals(values, valid, i, -h, h + 1), h + 1);
  }

  predicate SameWhereValid(values: Vec, others: Vec, valid: seq<bool>) {
    |values| == |others| == |valid| && forall j | 0 <= j < |valid| && valid[j] :: values[j] == others[j]
  }

  /** The results on two inputs that are equal where they are valid. */
  ghost predicate ResultPair(out: Vec, other: Vec, values: Vec, others: Vec, valid: seq<bool>, window: int) {
    && SameWhereValid(values, others, valid)
    && IsSmoothing(out, values, valid, window) && IsSmoothing(other, others, valid, window)
  }

  ghost predicate IgnoresInvalid(valid: seq<bool>, window: int) {
    forall out, other, values, others | ResultPair(out, other, values, others, valid, window) :: out == other
  }

  /** The invalid values have no influence exactly when the used window is 3 or more, or there are none. */
  lemma InvalidIgnoredIff(valid: seq<bool>, window: int)
    ensures IgnoresInvalid(valid, window) <==> UsedWindow(valid, window) >= 3 || forall j | 0 <= j < |valid| :: valid[j]
  {
    hide Smoothed, WinOffs, WinVals, UsedWindow;
    var w := UsedWindow(valid, window);
    if w >= 3 || forall j | 0 <= j < |valid| :: valid[j] {
      forall out, other, values, others | ResultPair(out, other, values, others, valid, window) ensures out == other {
        if w >= 3 {
          forall i | 0 <= i < |out| ensures out[i] == other[i] {
            InvalidValuesIgnored(values, others, valid, i, w / 2, out[i], other[i]);
          }
        }
      }
    } else {
      var j :| 0 <= j < |valid| && !valid[j];
      var zeros: Vec := seq(|valid|, k => 0.0);
      assert ResultPair(zeros, zeros[j := 1.0], zeros, zeros[j := 1.0], valid, window);
      assert zeros[j] != zeros[j := 1.0][j];
    }
  }

  lemma {:induction false} WinOfAffine(values: Vec, valid: seq<bool>, i: int, lo: int, hi: int, alpha: real, beta: real)
    requires |values| == |valid|
    requires forall j | 0 <= j < |valid| && valid[j] :: values[j] == LineAt(alpha, beta, j as real)
    ensures WinVals(values, valid, i, lo, hi) == Line(WinOffs(valid, i, lo, hi), LineAt(alpha, beta, i as real), beta)
    decreases hi - lo
  {
    if lo < hi {
      WinOfAffine(values, valid, i, lo, hi - 1, alpha, beta);
      var t := hi - 1;
      if 0 <= i + t < |valid| && valid[i + t] {
        LineAppend(WinOffs(valid, i, lo, t), t as real, LineAt(alpha, beta, i as real), beta);
        AffineAt(alpha, beta, i, t);
        assert values[i + t] == LineAt(LineAt(alpha, beta, i as real), beta, t as real);
      }
    }
  }

  lemma AffineAt(alpha: real, beta: real, i: int, t: int)
    ensures LineAt(alpha, beta, (i + t) as real) == LineAt(LineAt(alpha, beta, i as real), beta, t as real)
  {
    assert (i + t) as real == i as real + t as real;
  }

  lemma LineAppend(offs: Vec, t: real, alpha: real, beta: real)
    ensures Line(offs + [t], alpha, beta) == Line(offs, alpha, beta) + [LineAt(alpha, beta, t)]
  {
    LineTake(offs + [t], alpha, beta, |offs|);
    assert (offs + [t])[..|offs|] == offs;
    var l := Line(offs + [t], alpha, beta);
    assert l == l[..|offs|] + [l[|offs|]];
  }

  lemma {:induction false} OwnOffset(valid: seq<bool>, i: int, lo: int, hi: int)
    requires 0 <= i < |valid| && valid[i] && lo <= 0 < hi
    ensures 0.0 in WinOffs(valid, i, lo, hi)
    decreases hi - lo
  {
    if 1 < hi {
      OwnOffset(valid, i, lo, hi - 1);
    } else {
      assert WinOffs(valid, i, lo, hi) == WinOffs(valid, i, lo, 0) + [0 as real];
    }
  }

  /** Valid samples on a line are reproduced: at every valid sample, and at every invalid one
      whose window holds at least two valid samples. */
  lemma AffineDataKept(values: Vec, valid: seq<bool>, i: int, h: int, alpha: real, beta: real, v: real)
    requires |values| == |valid| && 0 <= i < |valid| && h >= 0
    requires forall j | 0 <= j < |valid| && valid[j] :: values[j] == LineAt(alpha, beta, j as real)
    requires Smoothed(v, WinOffs(valid, i, -h, h + 1), WinVals(values, valid, i, -h, h + 1))
    requires valid[i] || |WinOffs(valid, i, -h, h + 1)| >= 2
    ensures v == LineAt(alpha, beta, i as real)
  {
    hide IsFit;
    var offs, vals := WinOffs(valid, i, -h, h + 1), WinVals(values, valid, i, -h, h + 1);
    var c := LineAt(alpha, beta, i as real);
    WinOfAffine(values, valid, i, -h, h + 1, alpha, beta);
    OffsetsAscend(valid, i, -h, h + 1);
    if |offs| >= 2 {
      var a :| IsFit([v, a], offs, vals);
      LineSamples(offs, c, beta);
      PolynomialIsItsFit([c, beta], offs);
      FitUnique([v, a], [c, beta], offs, vals);
      assert [v, a][0] == [c, beta][0];
    } else {
      OwnOffset(valid, i, -h, h + 1);
      assert offs[0] == 0.0;
    }
  }

  // ---- which samples are reproduced ----

  predicate OnLine(values: Vec, valid: seq<bool>, alpha: real, beta: real) {
    |values| == |valid| && forall j | 0 <= j < |valid| && valid[j] :: values[j] == LineAt(alpha, beta, j as real)
  }

  /** v is a result at i for valid samples on the line alpha + beta t. */
  ghost predicate LineResult(values: Vec, valid: seq<bool>, i: int, h: int, alpha: real, beta: real, v: real)
    requires h >= 0
  {
    && OnLine(values, valid, alpha, beta)
    && Smoothed(v, WinOffs(valid, i, -h, h + 1), WinVals(values, valid, i, -h, h + 1))
  }

  /** Whatever line the valid samples lie on, the result at i lies on it. */
  ghost predicate KeepsLines(valid: seq<bool>, i: int, h: int)
    requires h >= 0
  {
    forall values, alpha, beta, v | LineResult(values, valid, i, h, alpha, beta, v)
      :: v == LineAt(alpha, beta, i as real)
  }

  /** A sample is reproduced for every line exactly when it is valid or its window holds two valid samples. */
  lemma LinesKeptIff(valid: seq<bool>, i: int, h: int)
    requires 0 <= i < |valid| && h >= 0
    ensures KeepsLines(valid, i, h) <==> valid[i] || |WinOffs(valid, i, -h, h + 1)| >= 2
  {
    hide Smoothed, WinOffs, WinVals;
    if valid[i] || |WinOffs(valid, i, -h, h + 1)| >= 2 {
      forall values, alpha, beta, v | LineResult(values, valid, i, h, alpha, beta, v)
        ensures v == LineAt(alpha, beta, i as real)
      {
        AffineDataKept(values, valid, i, h, alpha, beta, v);
      }
    } else {
      LineLost(valid, i, h);
    }
  }

  lemma LineLost(valid: seq<bool>, i: int, h: int)
    requires 0 <= i < |valid| && h >= 0 && !valid[i] && |WinOffs(valid, i, -h, h + 1)| < 2
    ensures !KeepsLines(valid, i, h)
  {
    hide WinOffs, WinVals;
    var offs := WinOffs(valid, i, -h, h + 1);
    if offs == [] {
      var ones: Vec := seq(|valid|, j => 1.0);
      assert OnLine(ones, valid, 1.0, 0.0);
      assert LineResult(ones, valid, i, h, 1.0, 0.0, 0.0);
    } else {
      var places: Vec := seq(|valid|, j => j as real);
      assert OnLine(places, valid, 0.0, 1.0);
      WinOfAffine(places, valid, i, -h, h + 1, 0.0, 1.0);
      NotOwnOffset(valid, i, -h, h + 1);
      var vals := WinVals(places, valid, i, -h, h + 1);
      assert vals[0] == i as real + offs[0];
      assert LineResult(places, valid, i, h, 0.0, 1.0, vals[0]);
    }
  }

  lemma {:induction false} NotOwnOffset(valid: seq<bool>, i: int, lo: int, hi: int)
    requires 0 <= i < |valid| && !valid[i]
    ensures 0.0 !in WinOffs(valid, i, lo, hi)
    decreases hi - lo
  {
    if lo < hi {
      NotOwnOffset(valid, i, lo, hi - 1);
    }
  }
}
