/** inflation_layer.cpp: the table that replaces distances by their rank. */
module InflationLevels {
  import opened Sorting

  type Point = (int, int)

  function Norm(p: Point): int {
    p.0 * p.0 + p.1 * p.1
  }

  /** p lies in the disk of radius r around the origin. */
  predicate InDisk(p: Point, r: int) {
    Norm(p) <= r * r
  }

  lemma NormBounds(p: Point, r: int)
    requires InDisk(p, r) && r >= 0
    ensures -r <= p.0 <= r && -r <= p.1 <= r && Norm(p) >= 0
  {
    SquareBound(p.0, r);
    SquareBound(p.1, r);
    assert p.0 * p.0 >= 0 && p.1 * p.1 >= 0;
  }

  lemma SquareBound(a: int, r: int)
    requires r >= 0
    ensures a * a <= r * r ==> -r <= a <= r
  {
    if a > r {
      assert a * a > r * r;
    } else if a < -r {
      assert (-a) * (-a) > r * r;
      assert (-a) * (-a) == a * a;
    }
  }

  // ---- the matrix of levels ----

  ghost predicate MatrixShape(dm: seq<seq<int>>, r: int) {
    r >= 0 && |dm| == 2 * r + 1 && forall x | 0 <= x < |dm| :: |dm[x]| == 2 * r + 1
  }

  /** The matrix entry of p, whose origin is the centre; -1 outside. */
  function LevelOr(dm: seq<seq<int>>, r: int, p: Point): int {
    if 0 <= p.0 + r < |dm| && 0 <= p.1 + r < |dm[p.0 + r]| then dm[p.0 + r][p.1 + r] else -1
  }

  /** Levels rank the points of the disk by their distance, from 0 at the origin up to `top`. */
  ghost predicate LevelsOk(dm: seq<seq<int>>, r: int, top: int) {
    && MatrixShape(dm, r)
    && (forall p: Point | InDisk(p, r) :: 0 <= LevelOr(dm, r, p) <= top)
    && (forall p: Point, q: Point | InDisk(p, r) && InDisk(q, r) ::
          LevelOr(dm, r, p) < LevelOr(dm, r, q) <==> Norm(p) < Norm(q))
    && LevelOr(dm, r, (0, 0)) == 0
  }

  function NormLess(): (Point, Point) -> bool {
    (a: Point, b: Point) => Norm(a) < Norm(b)
  }

  /** The level of each sorted point: it goes up by one whenever the distance changes. */
  ghost predicate Stepped(points: seq<Point>, lev: seq<int>) {
    && |lev| <= |points|
    && (forall i | 0 <= i < |lev| :: lev[i] >= 0)
    && (forall i, j | 0 <= i < |lev| && 0 <= j < |lev| :: lev[i] < lev[j] <==> Norm(points[i]) < Norm(points[j]))
  }

  /** The levels of the first points have been entered into the matrix. */
  ghost predicate Entered(dm: seq<seq<int>>, r: int, points: seq<Point>, lev: seq<int>) {
    |lev| <= |points| && forall i | 0 <= i < |lev| :: LevelOr(dm, r, points[i]) == lev[i]
  }

  lemma StepLevel(points: seq<Point>, lev: seq<int>, level: int)
    requires Stepped(points, lev) && SortedBy(NormLess(), points) && |lev| < |points|
    requires |lev| > 0
    requires level == if Norm(points[|lev|]) != Norm(points[|lev| - 1]) then lev[|lev| - 1] + 1 else lev[|lev| - 1]
    requires forall i | 0 <= i < |lev| :: lev[i] <= lev[|lev| - 1]
    ensures Stepped(points, lev + [level])
    ensures forall i | 0 <= i < |lev| :: lev[i] <= level
  {
    var n := |lev|;
    var less := NormLess();
    forall i | 0 <= i < n ensures Norm(points[i]) <= Norm(points[n - 1]) <= Norm(points[n]) {
      assert i == n - 1 || !less(points[n - 1], points[i]);
      assert !less(points[n], points[n - 1]);
    }
  }

  lemma StartStepped(points: seq<Point>)
    ensures Stepped(points, [])
  {
  }

  lemma FirstLevel(points: seq<Point>, level: int)
    requires |points| > 0 && level >= 0
    ensures Stepped(points, [] + [level])
  {
  }

  lemma EnterLevel(dm: seq<seq<int>>, r: int, points: seq<Point>, lev: seq<int>, level: int)
    requires MatrixShape(dm, r) && Entered(dm, r, points, lev) && |lev| < |points|
    requires Stepped(points, lev + [level])
    requires forall i | 0 <= i < |points| :: InDisk(points[i], r)
    ensures var p := points[|lev|];
            && -r <= p.0 <= r && -r <= p.1 <= r
            && (var dm' := dm[p.0 + r := dm[p.0 + r][p.1 + r := level]];
                MatrixShape(dm', r) && Entered(dm', r, points, lev + [level]))
  {
    var n := |lev|;
    var p := points[n];
    NormBounds(p, r);
    var dm' := dm[p.0 + r := dm[p.0 + r][p.1 + r := level]];
    var lev' := lev + [level];
    forall i | 0 <= i < n ensures LevelOr(dm', r, points[i]) == lev[i] {
      NormBounds(points[i], r);
      if points[i] == p {
        assert !(lev'[i] < lev'[n]) && !(lev'[n] < lev'[i]);
      }
    }
  }

  lemma AllEntered(dm: seq<seq<int>>, r: int, points: seq<Point>, lev: seq<int>)
    requires MatrixShape(dm, r) && Entered(dm, r, points, lev) && Stepped(points, lev) && |lev| == |points| > 0
    requires SortedBy(NormLess(), points) && lev[0] == 0
    requires forall i | 0 <= i < |lev| :: lev[i] <= lev[|lev| - 1]
    requires forall p: Point | InDisk(p, r) :: p in points
    ensures LevelsOk(dm, r, lev[|lev| - 1])
  {
    hide Norm, SortedBy, InDisk, LevelOr;
    forall p: Point | InDisk(p, r) ensures 0 <= LevelOr(dm, r, p) <= lev[|lev| - 1] {
      var i :| 0 <= i < |points| && points[i] == p;
      assert LevelOr(dm, r, points[i]) == lev[i];
    }
    forall p: Point, q: Point | InDisk(p, r) && InDisk(q, r)
      ensures LevelOr(dm, r, p) < LevelOr(dm, r, q) <==> Norm(p) < Norm(q)
    {
      var i :| 0 <= i < |points| && points[i] == p;
      var j :| 0 <= j < |points| && points[j] == q;
      assert LevelOr(dm, r, points[i]) == lev[i] && LevelOr(dm, r, points[j]) == lev[j];
    }
    OriginLevel(points, r, lev);
    var o :| 0 <= o < |points| && points[o] == (0, 0) && lev[o] == 0;
    assert LevelOr(dm, r, points[o]) == lev[o];
  }

  lemma OriginLevel(points: seq<Point>, r: int, lev: seq<int>)
    requires Stepped(points, lev) && |lev| == |points| > 0 && SortedBy(NormLess(), points) && lev[0] == 0
    requires forall p: Point | InDisk(p, r) :: p in points
    ensures exists o :: 0 <= o < |points| && points[o] == (0, 0) && lev[o] == 0
  {
    assert InDisk((0, 0), r) by {
      assert r * r >= 0;
    }
    var o :| 0 <= o < |points| && points[o] == (0, 0);
    var less := NormLess();
    assert o == 0 || !less(points[o], points[0]);
    assert Norm(points[0]) >= 0 by {
      var q := points[0];
      assert q.0 * q.0 >= 0 && q.1 * q.1 >= 0;
    }
    assert !(lev[0] < lev[o]) && !(lev[o] < lev[0]);
  }

  // ---- generateIntegerDistances ----

  method DiskPoints(r: int) returns (points: seq<Point>)
    requires r >= 0
    ensures forall p: Point :: p in points <==> InDisk(p, r)
  {
    points := [];
    var y := -r;
    while y <= r
      invariant -r <= y <= r + 1
      invariant forall p: Point :: p in points <==> InDisk(p, r) && -r <= p.0 <= r && -r <= p.1 < y
    {
      points := DiskRow(points, r, y);
      y := y + 1;
    }
    forall p: Point | InDisk(p, r) ensures p in points {
      NormBounds(p, r);
    }
  }

  method DiskRow(before: seq<Point>, r: int, y: int) returns (points: seq<Point>)
    requires r >= 0
    ensures forall p: Point :: p in points <==> p in before || (InDisk(p, r) && -r <= p.0 <= r && p.1 == y)
  {
    points := before;
    var x := -r;
    while x <= r
      invariant -r <= x <= r + 1
      invariant forall p: Point :: p in points <==> p in before || (InDisk(p, r) && -r <= p.0 < x && p.1 == y)
    {
      if x * x + y * y <= r * r {
        points := points + [(x, y)];
      }
      x := x + 1;
    }
  }

  /** Ranks the distances; returns the matrix and the highest level. */
  method GenerateIntegerDistances(cellInflationRadius: nat) returns (dm: seq<seq<int>>, top: int)
    ensures LevelsOk(dm, cellInflationRadius + 2, top) && top >= 0
  {
    var r := cellInflationRadius + 2;
    var size := r * 2 + 1;
    var unsorted := DiskPoints(r);
    var points := StdSort(unsorted, NormLess());
    SameMembers(points, unsorted);
    dm := seq(size, _ => seq(size, _ => 0));
    dm, top := FillLevels(dm, r, points);
  }

  method FillLevels(dm0: seq<seq<int>>, r: int, points: seq<Point>) returns (dm: seq<seq<int>>, level: int)
    requires MatrixShape(dm0, r) && SortedBy(NormLess(), points)
    requires forall p: Point :: p in points <==> InDisk(p, r)
    ensures LevelsOk(dm, r, level) && level >= 0
  {
    hide LevelsOk, Stepped, LevelOr, SortedBy, NormLess, InDisk;
    dm := dm0;
    var last := (0, 0);
    level := 0;
    ghost var lev: seq<int> := [];
    OriginFirst(points, r);
    StartStepped(points);
    for k := 0 to |points|
      invariant MatrixShape(dm, r) && |lev| == k && Entered(dm, r, points, lev) && Stepped(points, lev)
      invariant if k == 0 then last == (0, 0) && level == 0 else last == points[k - 1] && level == lev[k - 1]
      invariant k > 0 ==> lev[0] == 0
      invariant level >= 0 && forall i | 0 <= i < k :: lev[i] <= level
    {
      var p := points[k];
      if Norm(p) != Norm(last) {
        level := level + 1;
      }
      if k > 0 {
        StepLevel(points, lev, level);
      } else {
        FirstLevel(points, level);
      }
      EnterLevel(dm, r, points, lev, level);
      dm := dm[p.0 + r := dm[p.0 + r][p.1 + r := level]];
      lev := lev + [level];
      last := p;
    }
    AllEntered(dm, r, points, lev);
  }

  lemma OriginFirst(points: seq<Point>, r: int)
    requires SortedBy(NormLess(), points) && forall p: Point :: p in points <==> InDisk(p, r)
    ensures |points| > 0 && Norm(points[0]) == 0
    ensures forall i | 0 <= i < |points| :: InDisk(points[i], r)
  {
    assert InDisk((0, 0), r) by {
      assert r * r >= 0;
    }
    var o :| 0 <= o < |points| && points[o] == (0, 0);
    var less := NormLess();
    assert o == 0 || !less(points[o], points[0]);
    var q := points[0];
    assert q.0 * q.0 >= 0 && q.1 * q.1 >= 0;
    forall i | 0 <= i < |points| ensures InDisk(points[i], r) {
      assert points[i] in points;
    }
  }
}
