/** What the masked smoother returns, by the samples themselves: the line that fits those near a sample best. */
module LocalLines {
  import opened Polynomials
  import opened MaskedSmooth

  predicate IsValid(valid: seq<bool>, j: int) {
    0 <= j < |valid| && valid[j]
  }

  /** The valid samples lo .. hi - 1. */
  function Between(valid: seq<bool>, lo: int, hi: int): set<int> {
    set j | lo <= j < hi && IsValid(valid, j)
  }

  function Gap(v: real, a: real, b: real, t: int): real {
    v - a - b * t as real
  }

  /** How badly the line a + b (j - i) fits the valid samples lo .. hi - 1: the sum of the squared gaps. */
  function Misfit(values: Vec, valid: seq<bool>, i: int, a: real, b: real, lo: int, hi: int): real
    requires |values| == |valid|
    decreases hi - lo
  {
    if hi <= lo then 0.0
    else
      var j := hi - 1;
      Misfit(values, valid, i, a, b, lo, j) +
      if IsValid(valid, j) then Gap(values[j], a, b, j - i) * Gap(values[j], a, b, j - i) else 0.0
  }

  lemma BetweenSnoc(valid: seq<bool>, lo: int, hi: int)
    requires lo <= hi
    ensures |Between(valid, lo, hi + 1)| == |Between(valid, lo, hi)| + if IsValid(valid, hi) then 1 else 0
  {
    var s, t := Between(valid, lo, hi + 1), Between(valid, lo, hi);
    assert hi !in t;
    if IsValid(valid, hi) {
      assert s == t + {hi};
    } else {
      assert s == t;
    }
  }

  lemma {:induction false} OffsetsAreBetween(valid: seq<bool>, i: int, lo: int, hi: int)
    ensures |WinOffs(valid, i, lo, hi)| == |Between(valid, i + lo, i + hi)|
    decreases hi - lo
  {
    if lo < hi {
      hide Between;
      OffsetsAreBetween(valid, i, lo, hi - 1);
      BetweenSnoc(valid, i + lo, i + hi - 1);
    } else {
      assert Between(valid, i + lo, i + hi) == {};
    }
  }

  function Errors(offs: Vec, vals: Vec, a: real, b: real): Vec
    requires |offs| == |vals|
  {
    Axpy(vals, -1.0, Samples([a, b], offs))
  }

  lemma ErrorsSnoc(offs: Vec, vals: Vec, a: real, b: real, t: int, v: real)
    requires |offs| == |vals|
    ensures Errors(offs + [t as real], vals + [v], a, b) == Errors(offs, vals, a, b) + [Gap(v, a, b, t)]
  {
    hide Poly;
    var n := |offs|;
    var x, e := Errors(offs + [t as real], vals + [v], a, b), Errors(offs, vals, a, b);
    PolyOfLine(a, b, t as real);
    assert |x| == n + 1 && |e| == n;
    assert x[n] == Gap(v, a, b, t);
    forall k | 0 <= k < n ensures x[k] == e[k] {
      assert (offs + [t as real])[k] == offs[k];
    }
    assert x == e + [Gap(v, a, b, t)];
  }

  lemma PolyOfLine(a: real, b: real, t: real)
    ensures Poly([a, b], t) == a + b * t
  {
    LineSamples([t], a, b);
    assert Samples([a, b], [t])[0] == Line([t], a, b)[0];
  }

  lemma NoErrors(a: real, b: real)
    ensures Errors([], [], a, b) == [] && Dot([], []) == 0.0
  {
  }

  lemma SquaresSnoc(e: Vec, g: real)
    ensures Dot(e + [g], e + [g]) == Dot(e, e) + g * g
  {
    assert (e + [g])[..|e|] == e;
  }

  lemma {:induction false} MisfitIsError(values: Vec, valid: seq<bool>, i: int, a: real, b: real, lo: int, hi: int)
    requires |values| == |valid|
    ensures var e := Errors(WinOffs(valid, i, lo, hi), WinVals(values, valid, i, lo, hi), a, b);
            Dot(e, e) == Misfit(values, valid, i, a, b, i + lo, i + hi)
    decreases hi - lo
  {
    hide Gap, Errors, Dot;
    if lo < hi {
      var t := hi - 1;
      MisfitIsError(values, valid, i, a, b, lo, t);
      var offs, vals := WinOffs(valid, i, lo, t), WinVals(values, valid, i, lo, t);
      if IsValid(valid, i + t) {
        ErrorsSnoc(offs, vals, a, b, t, values[i + t]);
        SquaresSnoc(Errors(offs, vals, a, b), Gap(values[i + t], a, b, t));
      }
    } else {
      NoErrors(a, b);
    }
  }

  lemma BestOf(offs: Vec, vals: Vec, v: real, slope: real, a: real, b: real)
    requires IsFit([v, slope], offs, vals)
    ensures |offs| == |vals|
    ensures var e, f := Errors(offs, vals, v, slope), Errors(offs, vals, a, b); Dot(e, e) <= Dot(f, f)
  {
    FitIsClosest([v, slope], [a, b], offs, vals);
  }

  /** No line fits the valid samples lo .. hi - 1 better than the one with value v at i and this slope. */
  ghost predicate FitsBest(values: Vec, valid: seq<bool>, i: int, lo: int, hi: int, v: real, slope: real)
    requires |values| == |valid|
  {
    forall a, b :: Misfit(values, valid, i, v, slope, lo, hi) <= Misfit(values, valid, i, a, b, lo, hi)
  }

  ghost predicate LiesOnBest(values: Vec, valid: seq<bool>, i: int, lo: int, hi: int, v: real)
    requires |values| == |valid|
  {
    exists slope :: FitsBest(values, valid, i, lo, hi, v, slope)
  }

  lemma FitIsBest(values: Vec, valid: seq<bool>, i: int, lo: int, hi: int, v: real, slope: real)
    requires |values| == |valid| && IsFit([v, slope], WinOffs(valid, i, lo, hi), WinVals(values, valid, i, lo, hi))
    ensures FitsBest(values, valid, i, i + lo, i + hi, v, slope)
  {
    hide IsFit, Misfit, Errors, WinOffs, WinVals;
    var l, u := i + lo, i + hi;
    forall a, b ensures Misfit(values, valid, i, v, slope, l, u) <= Misfit(values, valid, i, a, b, l, u) {
      MisfitIsError(values, valid, i, v, slope, lo, hi);
      MisfitIsError(values, valid, i, a, b, lo, hi);
      BestOf(WinOffs(valid, i, lo, hi), WinVals(values, valid, i, lo, hi), v, slope, a, b);
    }
  }

  /** Every output is the value at its sample of a line that fits the valid samples around it, up to half the used
      window away, better than any other line; with a single valid one it is that sample, and without any 0. */
  lemma OutputIsBestLine(out: Vec, values: Vec, valid: seq<bool>, window: int, i: int, h: int)
    requires |values| == |valid| && IsSmoothing(out, values, valid, window) && 0 <= i < |valid|
    requires UsedWindow(valid, window) == 2 * h + 1 && h >= 1
    ensures |out| == |values|
    ensures var near := Between(valid, i - h, i + h + 1);
            && (|near| >= 2 ==> LiesOnBest(values, valid, i, i - h, i + h + 1, out[i]))
            && (forall j | near == {j} :: IsValid(valid, j) && out[i] == values[j])
            && (near == {} ==> out[i] == 0.0)
  {
    hide IsFit, UsedWindow, WinOffs, WinVals, FitsBest;
    var offs, vals := WinOffs(valid, i, -h, h + 1), WinVals(values, valid, i, -h, h + 1);
    OffsetsAreBetween(valid, i, -h, h + 1);
    var near := Between(valid, i - h, i + h + 1);
    assert Smoothed(out[i], offs, vals);
    if |near| >= 2 {
      var slope :| IsFit([out[i], slope], offs, vals);
      FitIsBest(values, valid, i, -h, h + 1, out[i], slope);
    } else {
      forall j | near == {j} ensures IsValid(valid, j) && out[i] == values[j] {
        assert j in near;
        OnlyValue(values, valid, i, -h, h + 1, j);
      }
    }
  }

  lemma {:induction false} OnlyValue(values: Vec, valid: seq<bool>, i: int, lo: int, hi: int, j: int)
    requires |values| == |valid| && Between(valid, i + lo, i + hi) == {j}
    ensures IsValid(valid, j) && WinVals(values, valid, i, lo, hi) == [values[j]]
    decreases hi - lo
  {
    var s, t := Between(valid, i + lo, i + hi), Between(valid, i + lo, i + hi - 1);
    assert j in s;
    if j == i + hi - 1 {
      assert t == {} by {
        assert forall k | k in t :: k in s;
      }
      OffsetsAreBetween(valid, i, lo, hi - 1);
      assert WinVals(values, valid, i, lo, hi - 1) == [];
    } else {
      assert i + hi - 1 !in s;
      assert t == s;
      OnlyValue(values, valid, i, lo, hi - 1, j);
    }
  }
}
