/** The rolling window of lane_mapper.cpp: absolute cells stored modulo the size of the window. */
module RingWindow {
  import opened Arithmetic

  datatype Cell = Cell(x: int, y: int)

  /** The remainder as C computes it: it has the sign of the dividend. */
  function CRemainder(a: int, n: int): int
    requires n > 0
  {
    if a >= 0 then a % n else -((-a) % n)
  }

  function PMod(a: int, n: int): (m: int)
    requires n > 0
    ensures 0 <= m < n
  {
    var m := CRemainder(a, n);
    if m < 0 then m + n else m
  }

  function Flat(w: int, r: int, c: int): int {
    r * w + c
  }

  /** The slot of an absolute cell. */
  function Idx(w: int, h: int, c: Cell): int
    requires w > 0 && h > 0
  {
    Flat(w, PMod(c.y, h), PMod(c.x, w))
  }

  /** The cells share a slot. */
  predicate Congruent(w: int, h: int, c: Cell, d: Cell)
    requires w > 0 && h > 0
  {
    PMod(c.x, w) == PMod(d.x, w) && PMod(c.y, h) == PMod(d.y, h)
  }

  predicate InWindow(w: int, h: int, o: Cell, c: Cell) {
    o.x <= c.x < o.x + w && o.y <= c.y < o.y + h
  }

  // ---- residues ----

  lemma PModIsMod(a: int, n: int)
    requires n > 0
    ensures PMod(a, n) == a % n
  {
    if a < 0 {
      var q, r := (-a) / n, (-a) % n;
      if r == 0 {
        QuotientIs(a, n, -q, 0);
      } else {
        assert (-q - 1) * n == -q * n - n;
        QuotientIs(a, n, -q - 1, n - r);
      }
    }
  }

  lemma ResidueShift(a: int, n: int)
    requires n > 0
    ensures PMod(a + n, n) == PMod(a, n)
  {
    PModIsMod(a, n);
    PModIsMod(a + n, n);
    assert (a / n + 1) * n == a / n * n + n;
    QuotientIs(a + n, n, a / n + 1, a % n);
  }

  lemma ResiduesDiffer(a: int, b: int, n: int)
    requires n > 0 && -n < a - b < n && a != b
    ensures PMod(a, n) != PMod(b, n)
  {
    hide PMod;
    PModIsMod(a, n);
    PModIsMod(b, n);
    assert (a / n - b / n) * n == a - b - a % n + b % n;
    Multiples(a / n - b / n, n);
  }

  // ---- slots ----

  lemma FlatInRange(w: int, h: int, r: int, c: int)
    requires 0 <= r < h && 0 <= c < w
    ensures 0 <= Flat(w, r, c) < w * h
  {
    assert r * w <= (h - 1) * w;
  }

  lemma FlatInjective(w: int, r: int, c: int, r': int, c': int)
    requires 0 <= c < w && 0 <= c' < w && Flat(w, r, c) == Flat(w, r', c')
    ensures r == r' && c == c'
  {
    QuotientIs(Flat(w, r, c), w, r, c);
    QuotientIs(Flat(w, r, c), w, r', c');
  }

  lemma IdxInRange(w: int, h: int, c: Cell)
    requires w > 0 && h > 0
    ensures 0 <= Idx(w, h, c) < w * h
  {
    FlatInRange(w, h, PMod(c.y, h), PMod(c.x, w));
  }

  lemma SameSlot(w: int, h: int, c: Cell, d: Cell)
    requires w > 0 && h > 0
    ensures Idx(w, h, c) == Idx(w, h, d) <==> Congruent(w, h, c, d)
  {
    hide PMod;
    if Idx(w, h, c) == Idx(w, h, d) {
      FlatInjective(w, PMod(c.y, h), PMod(c.x, w), PMod(d.y, h), PMod(d.x, w));
    }
  }

  /** Cells of one window never share a slot. */
  lemma IdxInjective(w: int, h: int, o: Cell, c: Cell, d: Cell)
    requires w > 0 && h > 0 && InWindow(w, h, o, c) && InWindow(w, h, o, d)
    ensures Idx(w, h, c) == Idx(w, h, d) <==> c == d
  {
    hide PMod;
    if Idx(w, h, c) == Idx(w, h, d) {
      FlatInjective(w, PMod(c.y, h), PMod(c.x, w), PMod(d.y, h), PMod(d.x, w));
      if c.x != d.x {
        ResiduesDiffer(c.x, d.x, w);
      }
      if c.y != d.y {
        ResiduesDiffer(c.y, d.y, h);
      }
    }
  }

  /** The cell of the window that is stored in slot i. */
  function CellAt(w: int, h: int, o: Cell, i: int): Cell
    requires w > 0 && h > 0
  {
    Cell(o.x + (i % w - o.x) % w, o.y + (i / w - o.y) % h)
  }

  lemma ResidueBack(o: int, r: int, n: int)
    requires n > 0 && 0 <= r < n
    ensures PMod(o + (r - o) % n, n) == r
  {
    var q := (r - o) / n;
    PModIsMod(o + (r - o) % n, n);
    assert (-q) * n == -(q * n);
    QuotientIs(o + (r - o) % n, n, -q, r);
  }

  lemma RowInRange(w: int, h: int, i: int)
    requires w > 0 && h > 0 && 0 <= i < w * h
    ensures 0 <= i / w < h
  {
    assert (i / w - h) * w == i - i % w - w * h;
    Multiples(i / w - h, w);
  }

  /** Every slot stores exactly one cell of the window. */
  lemma IdxOnto(w: int, h: int, o: Cell, i: int)
    requires w > 0 && h > 0 && 0 <= i < w * h
    ensures InWindow(w, h, o, CellAt(w, h, o, i)) && Idx(w, h, CellAt(w, h, o, i)) == i
    ensures forall c :: InWindow(w, h, o, c) && Idx(w, h, c) == i ==> c == CellAt(w, h, o, i)
  {
    hide PMod;
    RowInRange(w, h, i);
    ResidueBack(o.x, i % w, w);
    ResidueBack(o.y, i / w, h);
    assert Idx(w, h, CellAt(w, h, o, i)) == i / w * w + i % w == i;
    forall c | InWindow(w, h, o, c) && Idx(w, h, c) == i ensures c == CellAt(w, h, o, i) {
      IdxInjective(w, h, o, c, CellAt(w, h, o, i));
    }
  }

  /** One of the lines lo, lo + 1, .. below hi has residue r. */
  ghost predicate HasResidue(lo: int, hi: int, n: int, r: int)
    requires n > 0
  {
    exists k :: lo <= k < hi && PMod(k, n) == r
  }

  /** When the origin moves from a to b, the lines between the two origins have the residues of exactly
      the entering lines. */
  lemma ClearedResidues(a: int, b: int, n: int, x: int)
    requires n > 0 && -n < b - a < n && b <= x < b + n
    ensures HasResidue(Min(a, b), Max(a, b), n, PMod(x, n)) <==> !(a <= x < a + n)
  {
    hide PMod;
    if x >= a + n {
      ResidueShift(x - n, n);
      assert PMod(x - n, n) == PMod(x, n);
    } else if a <= x {
      forall k | Min(a, b) <= k < Max(a, b) ensures PMod(k, n) != PMod(x, n) {
        ResiduesDiffer(k, x, n);
      }
    }
  }

  // ---- lists of cells, row by row ----

  function RowCells(x0: int, x: int, y: int): seq<Cell>
    decreases x - x0
  {
    if x <= x0 then [] else RowCells(x0, x - 1, y) + [Cell(x - 1, y)]
  }

  function Rows(x0: int, x1: int, y0: int, y: int): seq<Cell>
    decreases y - y0
  {
    if y <= y0 then [] else Rows(x0, x1, y0, y - 1) + RowCells(x0, x1 + 1, y - 1)
  }

  predicate InRect(x0: int, x1: int, y0: int, y1: int, c: Cell) {
    x0 <= c.x <= x1 && y0 <= c.y <= y1
  }

  ghost predicate Distinct(cells: seq<Cell>) {
    forall i, j | 0 <= i < j < |cells| :: cells[i] != cells[j]
  }

  lemma {:induction false} RowHas(x0: int, x: int, y: int)
    ensures Distinct(RowCells(x0, x, y))
    ensures forall c :: c in RowCells(x0, x, y) <==> x0 <= c.x < x && c.y == y
    decreases x - x0
  {
    if x > x0 {
      RowHas(x0, x - 1, y);
      forall c: Cell | x0 <= c.x < x && c.y == y ensures c in RowCells(x0, x, y) {
        assert c.x == x - 1 ==> c == Cell(x - 1, y);
      }
    }
  }

  lemma {:induction false} RowsHave(x0: int, x1: int, y0: int, y: int)
    ensures Distinct(Rows(x0, x1, y0, y))
    ensures forall c :: c in Rows(x0, x1, y0, y) <==> InRect(x0, x1, y0, y - 1, c)
    decreases y - y0
  {
    if y > y0 {
      RowsHave(x0, x1, y0, y - 1);
      RowHas(x0, x1 + 1, y - 1);
      var a, b := Rows(x0, x1, y0, y - 1), RowCells(x0, x1 + 1, y - 1);
      DistinctAppend(a, b);
    }
  }

  lemma DistinctAppend(a: seq<Cell>, b: seq<Cell>)
    requires Distinct(a) && Distinct(b) && forall c | c in b :: c !in a
    ensures Distinct(a + b)
  {
    forall i, j | 0 <= i < j < |a + b| ensures (a + b)[i] != (a + b)[j] {
      if i < |a| <= j {
        assert b[j - |a|] in b;
      }
    }
  }
}
