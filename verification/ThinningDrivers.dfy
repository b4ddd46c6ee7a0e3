/** thinning.py: the three drivers that run the iterations with early exits. */
module ThinningDrivers {
  import opened Arithmetic
  import opened Options
  import opened ZhangSuen

  /** The number of rounds of `range(max_iter)`. */
  function Rounds(maxIter: int): nat {
    if maxIter > 0 then maxIter else 0
  }

  /** What every driver is meant to return for a mask. */
  function Thinned(masks: Image, k: nat): Image {
    Corners(Iterations(masks, k))
  }

  // ---- iterations only delete ----

  lemma IterationShrinks(img: Image)
    ensures Iteration(img) <= img
  {
    hide Deletes, Neighbours;
  }

  lemma {:induction false} IterationsShrink(img: Image, a: nat, b: nat)
    requires a <= b
    ensures Iterations(img, b) <= Iterations(img, a)
    decreases b
  {
    hide Iteration;
    if a < b {
      IterationsShrink(img, a, b - 1);
      IterationShrinks(Iterations(img, b - 1));
    }
  }

  lemma {:induction false} FixpointStays(img: Image, a: nat, n: nat)
    requires a <= n && Iteration(Iterations(img, a)) == Iterations(img, a)
    ensures Iterations(img, n) == Iterations(img, a)
    decreases n
  {
    hide Iteration;
    if a < n {
      FixpointStays(img, a, n - 1);
    }
  }

  lemma SameCountSameSet<T>(a: set<T>, b: set<T>)
    requires a <= b && |a| == |b|
    ensures a == b
  {
    assert |b - a| == |b| - |a|;
    assert b - a == {};
  }

  /** If the count is what it was some iterations ago, no later iteration changes the image. */
  lemma UnchangedCountIsFinal(img: Image, a: nat, b: nat, n: nat)
    requires a < b <= n && |Iterations(img, a)| == |Iterations(img, b)|
    ensures Iterations(img, n) == Iterations(img, b)
  {
    hide Iteration;
    IterationsShrink(img, a, b);
    SameCountSameSet(Iterations(img, b), Iterations(img, a));
    IterationsShrink(img, a, a + 1);
    IterationsShrink(img, a + 1, b);
    FixpointStays(img, a, n);
  }

  lemma {:induction false} IterationsAdd(img: Image, a: nat, b: nat)
    ensures Iterations(Iterations(img, a), b) == Iterations(img, a + b)
    decreases b
  {
    hide Iteration;
    if b > 0 {
      IterationsAdd(img, a, b - 1);
    }
  }

  // ---- the corner passes, one after the other ----

  function CornerRun(img: Image, k: nat): Image {
    if k == 0 then img else CornerStep((k - 1) % 4, CornerRun(img, k - 1))
  }

  lemma CornerNext(img: Image, k: nat)
    ensures CornerRun(img, k + 1) == CornerStep(k % 4, CornerRun(img, k))
  {
  }

  lemma EightCornerSteps(img: Image)
    ensures CornerRun(img, 8) == Corners(img)
  {
    hide CornerStep, CornerRun;
    assert CornerRun(img, 0) == img by {
      NoCornerStep(img);
    }
    CornerNext(img, 0);
    CornerNext(img, 1);
    CornerNext(img, 2);
    CornerNext(img, 3);
    CornerNext(img, 4);
    CornerNext(img, 5);
    CornerNext(img, 6);
    CornerNext(img, 7);
  }

  lemma NoCornerStep(img: Image)
    ensures CornerRun(img, 0) == img
  {
  }

  // ---- the driver over lookup tables ----

  method TakeRow(keep: array2<bool>, i: int) returns (table: seq<bool>)
    requires 0 <= i < keep.Length0 && keep.Length1 == 512
    ensures |table| == 512 && forall code | 0 <= code < 512 :: table[code] == keep[i, code]
  {
    table := seq(512, code requires 0 <= code < 512 reads keep => keep[i, code]);
  }

  method CornersByTable(img: Image) returns (r: Image)
    ensures r == Corners(img)
  {
    hide Target, TableStep, CornerStep, CornerRun, Corners;
    var keep := BuildCornerTables();
    var table0 := TakeRow(keep, 0);
    var table1 := TakeRow(keep, 1);
    var table2 := TakeRow(keep, 2);
    var table3 := TakeRow(keep, 3);
    var tables := [table0, table1, table2, table3];
    NoCornerStep(img);
    r := img;
    for pass := 0 to 2
      invariant r == CornerRun(img, 4 * pass)
    {
      for t := 0 to 4
        invariant r == CornerRun(img, 4 * pass + t)
      {
        CornerTableIsBitwise(t, tables[t], r);
        CornerNext(img, 4 * pass + t);
        r := TableStep(tables[t], r);
      }
    }
    EightCornerSteps(img);
  }

  /** `_thin_conv`; None stands for the division by zero of a zero check_every. */
  method ThinConv(masks: Image, maxIter: int, checkEvery: int) returns (r: Option<Image>)
    ensures r == if maxIter > 0 && checkEvery == 0 then None else Some(Thinned(masks, Rounds(maxIter)))
  {
    hide Keeps, TableStep, SubStep, Corners;
    var keep := BuildTables();
    var keep0 := TakeRow(keep, 0);
    var keep1 := TakeRow(keep, 1);
    var img := masks;
    var prev := |img|;
    ghost var n, last := Rounds(maxIter), 0;
    for it := 0 to Rounds(maxIter)
      invariant img == Iterations(masks, it) && 0 <= last <= it && prev == |Iterations(masks, last)|
      invariant it > 0 ==> checkEvery != 0
    {
      TableIsBitwise(0, keep0, img);
      TableIsBitwise(1, keep1, TableStep(keep0, img));
      img := TableStep(keep0, img);
      img := TableStep(keep1, img);
      if checkEvery == 0 {
        return None;
      }
      if (it + 1) % checkEvery == 0 {
        var cur := |img|;
        if cur == prev {
          UnchangedCountIsFinal(masks, last, it + 1, n);
          break;
        }
        prev, last := cur, it + 1;
      }
    }
    assert img == Iterations(masks, n);
    img := CornersByTable(img);
    return Some(img);
  }

  // ---- the fused driver ----

  /** `_zs_both`. */
  method IterateBitwise(masks: Image) returns (img: Image)
    ensures img == Iteration(masks)
  {
    hide Deletes, Neighbours;
    img := masks;
    for step := 0 to 2
      invariant img == if step == 0 then masks else if step == 1 then SubStep(0, masks) else Iteration(masks)
    {
      var delete := set p | p in img && Deletes(step, Neighbours(img, p));
      img := img - delete;
    }
  }

  /** `_corners`. */
  method CornersBitwise(masks: Image) returns (img: Image)
    ensures img == Corners(masks)
  {
    hide IsCorner, Neighbours, Corners, CornerRun;
    NoCornerStep(masks);
    img := masks;
    for pass := 0 to 2
      invariant img == CornerRun(masks, 4 * pass)
    {
      var pairs := [(0, 2), (2, 4), (4, 6), (6, 0)];
      for t := 0 to 4
        invariant img == CornerRun(masks, 4 * pass + t)
      {
        var delete := set p | p in img && IsCorner(pairs[t].0, pairs[t].1, Neighbours(img, p));
        CornerNext(masks, 4 * pass + t);
        assert pairs[t] == (2 * t, (2 * t + 2) % 8);
        img := img - delete;
      }
    }
    EightCornerSteps(masks);
  }

  /** `_thin_fused`; None stands for a zero check_every, or for `it` being unset when there is no round. */
  method ThinFused(masks: Image, maxIter: int, checkEvery: int) returns (r: Option<Image>)
    ensures r == if maxIter <= 0 || checkEvery == 0 then None else Some(Thinned(masks, maxIter))
  {
    hide Iteration, Corners;
    if maxIter <= 0 {
      return None;
    }
    var img := masks;
    var prev := |img|;
    ghost var last := 0;
    for it := 0 to maxIter
      invariant img == Iterations(masks, it) && 0 <= last <= it && prev == |Iterations(masks, last)|
      invariant it > 0 ==> checkEvery != 0
    {
      img := IterateBitwise(img);
      if checkEvery == 0 {
        return None;
      }
      if (it + 1) % checkEvery == 0 {
        var cur := |img|;
        if cur == prev {
          UnchangedCountIsFinal(masks, last, it + 1, maxIter);
          break;
        }
        prev, last := cur, it + 1;
      }
    }
    assert img == Iterations(masks, maxIter);
    img := CornersBitwise(img);
    return Some(img);
  }

  // ---- the recorded graphs ----

  /** A buffer, and the two recordings replayed on it. */
  class Graph {
    const K: nat
    var buf: Image

    constructor (k: nat)
      requires k > 0
      ensures K == k
    {
      K, buf := k, {};
    }

    method Chunk()
      modifies this
      ensures buf == Iterations(old(buf), K)
    {
      var x := buf;
      for k := 0 to K
        invariant x == Iterations(old(buf), k)
      {
        x := IterateBitwise(x);
      }
      buf := x;
    }

    method Corner()
      modifies this
      ensures buf == Corners(old(buf))
    {
      buf := CornersBitwise(buf);
    }
  }

  /** Whole chunks: the rounds rounded up to a multiple of k. */
  function ChunkRounds(maxIter: int, k: nat): nat
    requires k > 0
  {
    ChunksNonNegative(Rounds(maxIter), k);
    (Rounds(maxIter) + k - 1) / k * k
  }

  lemma ChunksNonNegative(n: nat, k: nat)
    requires k > 0
    ensures (n + k - 1) / k * k >= n
  {
    assert (n + k - 1) / k * k == n + k - 1 - (n + k - 1) % k;
  }

  lemma ChunksAre(n: nat, k: nat, j: nat)
    requires k > 0 && (j - 1) * k < n <= j * k
    ensures (n + k - 1) / k * k == j * k
  {
    assert (j - 1) * k == j * k - k;
    QuotientIs(n + k - 1, k, j, n + k - 1 - j * k);
  }

  /** `_thin_graphed`. */
  method ThinGraphed(gr: Graph, masks: Image, maxIter: int) returns (r: Image)
    requires gr.K > 0
    modifies gr
    ensures r == Thinned(masks, ChunkRounds(maxIter, gr.K))
  {
    hide Iteration, Corners;
    gr.buf := masks;
    var prev := |gr.buf|;
    var done := 0;
    ghost var n, j := ChunkRounds(maxIter, gr.K), 0;
    ChunksNonNegative(Rounds(maxIter), gr.K);
    while done < maxIter
      invariant 0 <= done == j * gr.K && (j > 0 ==> (j - 1) * gr.K < maxIter)
      invariant done <= n
      invariant gr.buf == Iterations(masks, done) && prev == |gr.buf|
      decreases maxIter - done
    {
      gr.Chunk();
      IterationsAdd(masks, done, gr.K);
      OneMoreChunk(maxIter, gr.K, j);
      done := done + gr.K;
      j := j + 1;
      var cur := |gr.buf|;
      if cur == prev {
        UnchangedCountIsFinal(masks, done - gr.K, done, n);
        break;
      }
      prev := cur;
    }
    if done >= maxIter {
      EndOfChunks(maxIter, gr.K, j);
    }
    assert gr.buf == Iterations(masks, n);
    gr.Corner();
    return gr.buf;
  }

  lemma OneMoreChunk(maxIter: int, k: nat, j: nat)
    requires k > 0 && j * k < maxIter
    ensures (j + 1) * k == j * k + k <= ChunkRounds(maxIter, k)
  {
    var q := (maxIter + k - 1) / k;
    assert q * k == maxIter + k - 1 - (maxIter + k - 1) % k;
    assert (q - j) * k == q * k - j * k;
    Multiples(q - j, k);
  }

  lemma EndOfChunks(maxIter: int, k: nat, j: nat)
    requires k > 0 && j * k >= maxIter && (j > 0 ==> (j - 1) * k < maxIter)
    ensures ChunkRounds(maxIter, k) == j * k
  {
    if maxIter > 0 {
      assert j > 0;
      ChunksAre(maxIter, k, j);
    } else {
      assert j == 0 || (j - 1) * k >= 0;
      ChunksAre(0, k, 0);
    }
  }

  /** Whole chunks stop at the image of n rounds exactly when K divides n or that image no longer changes. */
  lemma ChunksStopThereIff(masks: Image, n: nat, k: nat)
    requires k > 0
    ensures Iterations(masks, ChunkRounds(n, k)) == Iterations(masks, n)
       <==> n % k == 0 || Iteration(Iterations(masks, n)) == Iterations(masks, n)
  {
    hide Iteration, Iterations;
    var r := ChunkRounds(n, k);
    ChunksNonNegative(n, k);
    if n % k == 0 {
      WholeChunks(n, k);
    } else if Iteration(Iterations(masks, n)) == Iterations(masks, n) {
      FixpointStays(masks, n, r);
    } else {
      PartChunk(n, k);
      NextIteration(masks, n);
      IterationsShrink(masks, n, n + 1);
      IterationsShrink(masks, n + 1, r);
    }
  }

  lemma NextIteration(img: Image, k: nat)
    ensures Iterations(img, k + 1) == Iteration(Iterations(img, k))
  {
  }

  lemma PartChunk(n: nat, k: nat)
    requires k > 0 && n % k != 0
    ensures ChunkRounds(n, k) >= n + 1
  {
    ChunksNonNegative(n, k);
    var q := (n + k - 1) / k;
    if q * k == n {
      QuotientIs(n, k, q, 0);
    }
  }

  /** Every round before the last one deletes a pixel. */
  lemma {:induction false} RoundsDelete(masks: Image, n: nat)
    ensures Iteration(Iterations(masks, n)) == Iterations(masks, n) || |Iterations(masks, n)| + n <= |masks|
    decreases n
  {
    hide Iteration;
    if n > 0 {
      RoundsDelete(masks, n - 1);
      var a, b := Iterations(masks, n - 1), Iterations(masks, n);
      IterationsShrink(masks, n - 1, n);
      if a != b {
        ProperlySmaller(b, a);
      }
    }
  }

  lemma ProperlySmaller<T>(a: set<T>, b: set<T>)
    requires a < b
    ensures |a| < |b|
  {
    assert |b - a| == |b| - |a|;
    assert b - a != {};
  }

  /** As many rounds as there are pixels are always enough. */
  lemma StableAfterAllPixels(masks: Image, n: nat)
    requires |masks| <= n
    ensures Iteration(Iterations(masks, n)) == Iterations(masks, n)
  {
    hide Iteration, Iterations;
    RoundsDelete(masks, n);
    IterationShrinks(Iterations(masks, n));
    if |Iterations(masks, n)| + n <= |masks| {
      assert Iterations(masks, n) == {};
    }
  }

  /** Whole chunks give the result of max_iter rounds when K divides max_iter, or when max_iter is not
      below the number of pixels. */
  lemma ChunksAgree(masks: Image, maxIter: int, k: nat)
    requires k > 0 && (Rounds(maxIter) % k == 0 || |masks| <= Rounds(maxIter))
    ensures Thinned(masks, ChunkRounds(maxIter, k)) == Thinned(masks, Rounds(maxIter))
  {
    hide Iteration, Iterations, Corners;
    var n := Rounds(maxIter);
    ChunksStopThereIff(masks, n, k);
    if n % k != 0 {
      StableAfterAllPixels(masks, n);
    }
  }

  lemma WholeChunks(n: nat, k: nat)
    requires k > 0 && n % k == 0
    ensures (n + k - 1) / k * k == n
  {
    var j := n / k;
    assert n == j * k;
    assert (j - 1) * k == j * k - k;
    ChunksAre(n, k, j);
  }

  /** `zhang_suen_thinning`: what each driver returns, and that it is the same whichever is active as soon
      as max_iter reaches the number of pixels, or where no chunk is cut short. */
  method ZhangSuenThinning(masks: Image, maxIter: int, checkEvery: int, fused: bool, gr: Graph?)
    returns (r: Option<Image>)
    requires gr != null ==> gr.K > 0
    modifies gr
    ensures !fused ==> r == if maxIter > 0 && checkEvery == 0 then None else Some(Thinned(masks, Rounds(maxIter)))
    ensures fused && gr == null ==> r == if maxIter <= 0 || checkEvery == 0 then None else Some(Thinned(masks, maxIter))
    ensures fused && gr != null ==> r == Some(Thinned(masks, ChunkRounds(maxIter, gr.K)))
    ensures maxIter > 0 && checkEvery != 0 && (gr == null || maxIter % gr.K == 0 || |masks| <= maxIter) ==>
              r == Some(Thinned(masks, maxIter))
  {
    hide Iteration, Iterations, Corners, ChunkRounds;
    if fused {
      if gr != null {
        var out := ThinGraphed(gr, masks, maxIter);
        if maxIter > 0 && (maxIter % gr.K == 0 || |masks| <= maxIter) {
          ChunksAgree(masks, maxIter, gr.K);
        }
        return Some(out);
      }
      r := ThinFused(masks, maxIter, checkEvery);
    } else {
      r := ThinConv(masks, maxIter, checkEvery);
    }
  }
}
