/** thinning.py: one Zhang-Suen iteration and the corner pass, by lookup table and by bitwise arithmetic. */
module ZhangSuen {
  import opened Arithmetic

  /** Row r, column c of mask n of the batch. */
  datatype Pix = Pix(n: int, r: int, c: int)

  /** The pixels that are on. Outside the masks everything is off, as the zero padding has it. */
  type Image = set<Pix>

  /** Neighbours in the order N, NE, E, SE, S, SW, W, NW. */
  function Toward(p: Pix, k: int): Pix {
    var dr := if k == 0 || k == 1 || k == 7 then -1 else if k == 3 || k == 4 || k == 5 then 1 else 0;
    var dc := if k == 1 || k == 2 || k == 3 then 1 else if k == 5 || k == 6 || k == 7 then -1 else 0;
    Pix(p.n, p.r + dr, p.c + dc)
  }

  function On(img: Image, p: Pix): (v: int)
    ensures v == 0 || v == 1
  {
    if p in img then 1 else 0
  }

  function Neighbours(img: Image, p: Pix): (n: seq<int>)
    ensures |n| == 8 && forall k | 0 <= k < 8 :: n[k] == On(img, Toward(p, k))
  {
    [On(img, Toward(p, 0)), On(img, Toward(p, 1)), On(img, Toward(p, 2)), On(img, Toward(p, 3)),
     On(img, Toward(p, 4)), On(img, Toward(p, 5)), On(img, Toward(p, 6)), On(img, Toward(p, 7))]
  }

  predicate Bits(n: seq<int>) {
    |n| == 8 && forall k | 0 <= k < 8 :: n[k] == 0 || n[k] == 1
  }

  // ---- the bitwise form ----

  /** `&` on the values 0 and 1. */
  function And(a: int, b: int): int {
    if a == 1 && b == 1 then 1 else 0
  }

  function Sum(n: seq<int>): int
    requires |n| == 8
  {
    n[0] + n[1] + n[2] + n[3] + n[4] + n[5] + n[6] + n[7]
  }

  function Rises(n: seq<int>): int
    requires |n| == 8
  {
    And(1 - n[0], n[1]) + And(1 - n[1], n[2]) + And(1 - n[2], n[3]) + And(1 - n[3], n[4])
    + And(1 - n[4], n[5]) + And(1 - n[5], n[6]) + And(1 - n[6], n[7]) + And(1 - n[7], n[0])
  }

  predicate Ok(step: int, n: seq<int>)
    requires |n| == 8
  {
    if step == 0 then And(1 - And(And(n[0], n[2]), n[4]), 1 - And(And(n[2], n[4]), n[6])) == 1
    else And(1 - And(And(n[0], n[2]), n[6]), 1 - And(And(n[0], n[4]), n[6])) == 1
  }

  predicate Deletes(step: int, n: seq<int>)
    requires |n| == 8
  {
    2 <= Sum(n) <= 6 && Rises(n) == 1 && Ok(step, n)
  }

  function SubStep(step: int, img: Image): Image {
    set p | p in img && !Deletes(step, Neighbours(img, p))
  }

  function Iteration(img: Image): Image {
    SubStep(1, SubStep(0, img))
  }

  /** Exactly the two neighbours in directions a and b. */
  predicate IsCorner(a: int, b: int, n: seq<int>)
    requires |n| == 8 && 0 <= a < 8 && 0 <= b < 8
  {
    Sum(n) == 2 && n[a] == 1 && n[b] == 1
  }

  /** Orientation t of the corner pass: N+E, E+S, S+W, W+N. */
  function CornerStep(t: int, img: Image): Image
    requires 0 <= t < 4
  {
    set p | p in img && !IsCorner(2 * t, (2 * t + 2) % 8, Neighbours(img, p))
  }

  function FourCorners(img: Image): Image {
    CornerStep(3, CornerStep(2, CornerStep(1, CornerStep(0, img))))
  }

  function Corners(img: Image): Image {
    FourCorners(FourCorners(img))
  }

  function Iterations(img: Image, k: nat): Image {
    if k == 0 then img else Iteration(Iterations(img, k - 1))
  }

  // ---- the lookup tables ----

  function Pow2(i: nat): (r: nat)
    ensures r >= 1
  {
    if i == 0 then 1 else 2 * Pow2(i - 1)
  }

  function Bit(code: nat, i: nat): int {
    code / Pow2(i) % 2
  }

  function Decode(code: nat): (n: seq<int>)
    ensures |n| == 8 && forall i | 0 <= i < 8 :: n[i] == Bit(code, i)
  {
    [Bit(code, 0), Bit(code, 1), Bit(code, 2), Bit(code, 3), Bit(code, 4), Bit(code, 5), Bit(code, 6), Bit(code, 7)]
  }

  /** What the convolution computes: the neighbours as bits 0 to 7, the centre as bit 8. */
  function Code(centre: int, n: seq<int>): int
    requires |n| == 8
  {
    n[0] + 2 * n[1] + 4 * n[2] + 8 * n[3] + 16 * n[4] + 32 * n[5] + 64 * n[6] + 128 * n[7] + 256 * centre
  }

  predicate Keeps(step: int, code: nat) {
    Bit(code, 8) == 0 || !Deletes(step, Decode(code % 256))
  }

  /** The corner table: only the code of an on-pixel with exactly the target neighbours is deleted. */
  function Target(t: int): nat {
    if t == 0 then 5 else if t == 1 then 20 else if t == 2 then 80 else 65
  }

  method CountOnes(n: seq<int>) returns (b: int)
    requires |n| == 8
    ensures b == Sum(n)
  {
    b := 0;
    for i := 0 to 8
      invariant b == Partial(n, i)
    {
      b := b + n[i];
    }
    assert Partial(n, 2) == n[0] + n[1];
    assert Partial(n, 4) == Partial(n, 2) + n[2] + n[3];
    assert Partial(n, 6) == Partial(n, 4) + n[4] + n[5];
  }

  function Partial(n: seq<int>, i: nat): int
    requires |n| == 8 && i <= 8
  {
    if i == 0 then 0 else Partial(n, i - 1) + n[i - 1]
  }

  function PartialRises(n: seq<int>, i: nat): int
    requires |n| == 8 && i <= 8
  {
    if i == 0 then 0 else PartialRises(n, i - 1) + And(1 - n[i - 1], if i == 8 then n[0] else n[i])
  }

  method CountRises(n: seq<int>) returns (a: int)
    requires Bits(n)
    ensures a == Rises(n)
  {
    a := 0;
    for i := 0 to 8
      invariant a == PartialRises(n, i)
    {
      if n[i] == 0 && n[(i + 1) % 8] == 1 {
        a := a + 1;
      }
    }
    assert PartialRises(n, 2) == And(1 - n[0], n[1]) + And(1 - n[1], n[2]);
    assert PartialRises(n, 4) == PartialRises(n, 2) + And(1 - n[2], n[3]) + And(1 - n[3], n[4]);
    assert PartialRises(n, 6) == PartialRises(n, 4) + And(1 - n[4], n[5]) + And(1 - n[5], n[6]);
    assert PartialRises(n, 8) == PartialRises(n, 6) + And(1 - n[6], n[7]) + And(1 - n[7], n[0]);
  }

  /** The two tables of the sub-steps. */
  method BuildTables() returns (keep: array2<bool>)
    ensures keep.Length0 == 2 && keep.Length1 == 512
    ensures forall s, code | 0 <= s < 2 && 0 <= code < 512 :: keep[s, code] == Keeps(s, code)
    ensures fresh(keep)
  {
    hide Keeps, Deletes, Decode;
    keep := new bool[2, 512]((_, _) => true);
    for code := 0 to 512
      invariant forall s, c | 0 <= s < 2 && 0 <= c < 512 :: keep[s, c] == (if c < code then Keeps(s, c) else true)
    {
      var k0, k1 := BuildEntry(code);
      keep[0, code], keep[1, code] := k0, k1;
    }
  }

  method BuildEntry(code9: nat) returns (k0: bool, k1: bool)
    requires code9 < 512
    ensures k0 == Keeps(0, code9) && k1 == Keeps(1, code9)
  {
    k0, k1 := true, true;
    if Bit(code9, 8) == 0 {
      return;
    }
    var n := Decode(code9 % 256);
    var b := CountOnes(n);
    var a := CountRises(n);
    if 2 <= b <= 6 && a == 1 {
      if !(n[0] == 1 && n[2] == 1 && n[4] == 1) && !(n[2] == 1 && n[4] == 1 && n[6] == 1) {
        k0 := false;
      }
      if !(n[0] == 1 && n[2] == 1 && n[6] == 1) && !(n[0] == 1 && n[4] == 1 && n[6] == 1) {
        k1 := false;
      }
    }
  }

  method BuildCornerTables() returns (keep: array2<bool>)
    ensures keep.Length0 == 4 && keep.Length1 == 512
    ensures forall t, code | 0 <= t < 4 && 0 <= code < 512 :: keep[t, code] == (code != 256 + Target(t))
    ensures fresh(keep)
  {
    keep := new bool[4, 512]((_, _) => true);
    for t := 0 to 4
      invariant forall s, code | 0 <= s < 4 && 0 <= code < 512 :: keep[s, code] == (s >= t || code != 256 + Target(s))
    {
      keep[t, 256 + Target(t)] := false;
    }
  }

  // ---- the table and the bits agree ----

  lemma CodeSplits(low: int, bit: int, high: int, unit: int)
    requires unit > 0 && 0 <= low < unit && (bit == 0 || bit == 1) && high >= 0
    ensures (low + unit * (bit + 2 * high)) / unit % 2 == bit
  {
    var q := bit + 2 * high;
    assert low + unit * q == q * unit + low;
    QuotientIs(low + unit * q, unit, q, low);
  }

  lemma Powers()
    ensures Pow2(0) == 1 && Pow2(1) == 2 && Pow2(2) == 4 && Pow2(3) == 8 && Pow2(4) == 16
    ensures Pow2(5) == 32 && Pow2(6) == 64 && Pow2(7) == 128 && Pow2(8) == 256
  {
    assert Pow2(3) == 8;
    assert Pow2(6) == 64;
  }

  lemma BitIs(code: nat, i: nat, unit: int, low: int, bit: int, high: int)
    requires Pow2(i) == unit && 0 <= low < unit && (bit == 0 || bit == 1) && high >= 0
    requires code == low + unit * (bit + 2 * high)
    ensures Bit(code, i) == bit
  {
    CodeSplits(low, bit, high, unit);
  }

  lemma LowBits(n: seq<int>)
    requires Bits(n)
    ensures 0 <= Code(0, n) < 256
    ensures var code := Code(0, n);
            Bit(code, 0) == n[0] && Bit(code, 1) == n[1] && Bit(code, 2) == n[2] && Bit(code, 3) == n[3]
  {
    hide Bit, Pow2;
    Powers();
    var code := Code(0, n);
    BitIs(code, 0, 1, 0, n[0], n[1] + 2 * n[2] + 4 * n[3] + 8 * n[4] + 16 * n[5] + 32 * n[6] + 64 * n[7]);
    BitIs(code, 1, 2, n[0], n[1], n[2] + 2 * n[3] + 4 * n[4] + 8 * n[5] + 16 * n[6] + 32 * n[7]);
    BitIs(code, 2, 4, n[0] + 2 * n[1], n[2], n[3] + 2 * n[4] + 4 * n[5] + 8 * n[6] + 16 * n[7]);
    BitIs(code, 3, 8, n[0] + 2 * n[1] + 4 * n[2], n[3], n[4] + 2 * n[5] + 4 * n[6] + 8 * n[7]);
  }

  lemma HighBits(n: seq<int>)
    requires Bits(n) && Code(0, n) >= 0
    ensures var code := Code(0, n);
            Bit(code, 4) == n[4] && Bit(code, 5) == n[5] && Bit(code, 6) == n[6] && Bit(code, 7) == n[7]
  {
    hide Bit, Pow2;
    Powers();
    var code := Code(0, n);
    BitIs(code, 4, 16, n[0] + 2 * n[1] + 4 * n[2] + 8 * n[3], n[4], n[5] + 2 * n[6] + 4 * n[7]);
    BitIs(code, 5, 32, n[0] + 2 * n[1] + 4 * n[2] + 8 * n[3] + 16 * n[4], n[5], n[6] + 2 * n[7]);
    BitIs(code, 6, 64, n[0] + 2 * n[1] + 4 * n[2] + 8 * n[3] + 16 * n[4] + 32 * n[5], n[6], n[7]);
    BitIs(code, 7, 128, n[0] + 2 * n[1] + 4 * n[2] + 8 * n[3] + 16 * n[4] + 32 * n[5] + 64 * n[6], n[7], 0);
  }

  lemma CentreBit(centre: int, low: int)
    requires 0 <= low < 256 && (centre == 0 || centre == 1)
    ensures (low + 256 * centre) % 256 == low && Bit(low + 256 * centre, 8) == centre
  {
    hide Bit, Pow2;
    Powers();
    BitIs(low + 256 * centre, 8, 256, low, centre, 0);
  }

  /** Decoding the convolution's code gives back the neighbours and the centre. */
  lemma DecodeInvertsCode(centre: int, n: seq<int>)
    requires |n| == 8 && Bits(n) && (centre == 0 || centre == 1)
    ensures 0 <= Code(centre, n) < 512
    ensures Decode(Code(centre, n) % 256) == n && Bit(Code(centre, n), 8) == centre
  {
    hide Bit, Bits;
    LowBits(n);
    HighBits(n);
    CentreBit(centre, Code(0, n));
    assert Code(centre, n) == Code(0, n) + 256 * centre;
  }

  lemma NeighboursAreBits(img: Image, p: Pix)
    ensures Bits(Neighbours(img, p))
  {
  }

  predicate Entry(table: seq<bool>, code: int) {
    0 <= code < |table| && table[code]
  }

  /** One gather from a table decides every pixel, all at once. */
  function TableStep(table: seq<bool>, img: Image): Image {
    set p | p in img && Entry(table, Code(On(img, p), Neighbours(img, p)))
  }

  /** On every image the sub-step by table is the bitwise sub-step. */
  lemma TableIsBitwise(step: int, table: seq<bool>, img: Image)
    requires |table| == 512 && forall code | 0 <= code < 512 :: table[code] == Keeps(step, code)
    ensures TableStep(table, img) == SubStep(step, img)
  {
    hide Keeps, Deletes, Code, Neighbours;
    forall p | p in img
      ensures Entry(table, Code(On(img, p), Neighbours(img, p))) == !Deletes(step, Neighbours(img, p))
    {
      var n := Neighbours(img, p);
      NeighboursAreBits(img, p);
      DecodeInvertsCode(1, n);
      KeepsWhenOn(step, Code(1, n), n);
    }
  }

  lemma KeepsWhenOn(step: int, code: nat, n: seq<int>)
    requires |n| == 8 && Bit(code, 8) == 1 && Decode(code % 256) == n
    ensures Keeps(step, code) == !Deletes(step, n)
  {
    hide Deletes, Decode, Bit;
  }

  lemma CornerIsBits(t: int, n: seq<int>)
    requires Bits(n) && 0 <= t < 4
    ensures IsCorner(2 * t, (2 * t + 2) % 8, n) <==> n == CornerBits(t)
  {
    assert t == 0 || t == 1 || t == 2 || t == 3;
  }

  lemma TargetIsCode(t: int)
    requires 0 <= t < 4
    ensures |CornerBits(t)| == 8 && Bits(CornerBits(t)) && Code(1, CornerBits(t)) == 256 + Target(t)
  {
  }

  /** The code of a corner is that of exactly its two neighbours. */
  lemma CornerCode(t: int, n: seq<int>)
    requires |n| == 8 && Bits(n) && 0 <= t < 4
    ensures Code(1, n) == 256 + Target(t) <==> IsCorner(2 * t, (2 * t + 2) % 8, n)
  {
    hide Code, Decode, IsCorner, CornerBits, Bits, Bit;
    DecodeInvertsCode(1, n);
    TargetIsCode(t);
    DecodeInvertsCode(1, CornerBits(t));
    CornerIsBits(t, n);
  }

  function CornerBits(t: int): seq<int> {
    if t == 0 then [1, 0, 1, 0, 0, 0, 0, 0]
    else if t == 1 then [0, 0, 1, 0, 1, 0, 0, 0]
    else if t == 2 then [0, 0, 0, 0, 1, 0, 1, 0]
    else [1, 0, 0, 0, 0, 0, 1, 0]
  }

  /** On every image a corner pass by table is the bitwise one. */
  lemma CornerTableIsBitwise(t: int, table: seq<bool>, img: Image)
    requires 0 <= t < 4 && |table| == 512 && forall code | 0 <= code < 512 :: table[code] == (code != 256 + Target(t))
    ensures TableStep(table, img) == CornerStep(t, img)
  {
    hide IsCorner, Code, Neighbours, Target;
    forall p | p in img
      ensures Entry(table, Code(On(img, p), Neighbours(img, p))) ==
              !IsCorner(2 * t, (2 * t + 2) % 8, Neighbours(img, p))
    {
      NeighboursAreBits(img, p);
      DecodeInvertsCode(1, Neighbours(img, p));
      CornerCode(t, Neighbours(img, p));
    }
  }
}
