/** darkbox.c, command -i: the circle loop. The cells it draws are characterised exactly. */
module Circle {
  import opened Bits
  import opened Line

  /** An offset (a, b) with a >= b >= 0 lies on the circle of radius r when it is the last cell of
      its diagonal whose squared distance is at most r^2 + 1. */
  predicate InOctant(r: int, a: int, b: int) {
    && 0 <= b <= a && a - b <= r
    && a * a + b * b <= r * r + 1 < (a + 1) * (a + 1) + (b + 1) * (b + 1)
  }

  /** The whole circle: the octant and its reflections. */
  predicate OnCircle(r: int, u: int, v: int) {
    var a, b := Abs(u), Abs(v);
    if a >= b then InOctant(r, a, b) else InOctant(r, b, a)
  }

  /** The circle is closed under the eight reflections about its centre. */
  lemma CircleIsSymmetric(r: int, u: int, v: int)
    ensures OnCircle(r, u, v) == OnCircle(r, -u, v) == OnCircle(r, u, -v) == OnCircle(r, v, u)
  {
    if Abs(u) == Abs(v) { assert Abs(u) == Abs(v); }
  }

  ghost predicate OnDiagonal(r: int, d: int, a: int, b: int) { InOctant(r, a, b) && a - b == d }

  /** Each diagonal a - b = d of the octant, from the middle one to that of the radius, holds exactly one
      cell; the others hold none. */
  lemma OneCellPerDiagonal(r: int, d: int)
    ensures 0 <= d <= r ==>
              exists a, b :: OnDiagonal(r, d, a, b) && forall a', b' :: OnDiagonal(r, d, a', b') ==> a' == a && b' == b
    ensures !(0 <= d <= r) ==> forall a, b :: !OnDiagonal(r, d, a, b)
  {
    if 0 <= d <= r {
      SquaresGrow(d, r);
      var a, b := LastOnDiagonal(r, d, 0);
      hide InOctant;
      assert OnDiagonal(r, d, a, b);
      forall a', b' | OnDiagonal(r, d, a', b') ensures a' == a && b' == b {
        SameDiagonal(r, a, b, a', b');
      }
    }
  }

  lemma SameDiagonal(r: int, a: int, b: int, a': int, b': int)
    requires InOctant(r, a, b) && InOctant(r, a', b') && a - b == a' - b'
    ensures a == a' && b == b'
  {
    if b < b' { SquaresGrow(a + 1, a'); SquaresGrow(b + 1, b'); }
    if b' < b { SquaresGrow(a' + 1, a); SquaresGrow(b' + 1, b); }
  }

  /** From a cell of the diagonal that is not too far out, go on to the last one. */
  lemma {:induction false} LastOnDiagonal(r: int, a: int, b: int) returns (a': int, b': int)
    requires 0 <= b <= a && a - b <= r && a * a + b * b <= r * r + 1
    ensures InOctant(r, a', b') && a' - b' == a - b
    decreases r * r + 1 - b
  {
    a', b' := a, b;
    if (a + 1) * (a + 1) + (b + 1) * (b + 1) <= r * r + 1 {
      SquareAtLeast(a);
      SquareAtLeast(b);
      a', b' := LastOnDiagonal(r, a + 1, b + 1);
    }
  }

  lemma SquareAtLeast(x: nat)
    ensures x <= x * x
  {
  }

  lemma SquaresGrow(x: int, y: int)
    requires 0 <= x <= y
    ensures x * x <= y * y
  {
    assert y * y - x * x == (y - x) * (y + x);
  }

  /** The error term: how far the next cell upward lies outside, in squared distance. */
  ghost predicate ErrorIs(r: int, rx: int, ry: int, err: int) {
    err == rx * rx + ry * ry + 2 * ry - r * r
  }

  /** At the loop head: (rx, ry) is on the circle, until the loop ends. */
  ghost predicate Tracing(r: int, rx: int, ry: int, err: int) {
    && 0 <= ry && rx - ry <= r && -1 <= rx - ry
    && ErrorIs(r, rx, ry, err)
    && rx * rx + ry * ry <= r * r + 1 < (rx + 1) * (rx + 1) + (ry + 1) * (ry + 1)
  }

  /** The eight cells plotted for one offset, in the order of the source. */
  function EightCells(x: int, y: int, rx: int, ry: int): (cells: seq<Cell>)
    ensures |cells| == 8
  {
    [Cell(x + rx, y + ry), Cell(x + ry, y + rx), Cell(x - ry, y + rx), Cell(x - rx, y + ry),
     Cell(x - rx, y - ry), Cell(x - ry, y - rx), Cell(x + ry, y - rx), Cell(x + rx, y - ry)]
  }

  lemma EightCellsAre(x: int, y: int, rx: int, ry: int, p: Cell)
    requires 0 <= ry <= rx
    ensures p in EightCells(x, y, rx, ry) <==>
              (Abs(p.x - x) == rx && Abs(p.y - y) == ry) || (Abs(p.x - x) == ry && Abs(p.y - y) == rx)
  {
  }

  lemma NextUp(r: int, rx: int, ry: int, err: int)
    requires Tracing(r, rx, ry, err) && rx >= ry && err <= 0
    ensures Tracing(r, rx, ry + 1, err + 2 * (ry + 1) + 1)
  {
  }

  lemma NextLeft(r: int, rx: int, ry: int, err: int)
    requires Tracing(r, rx, ry, err) && rx >= ry && err > 0
    ensures Tracing(r, rx - 1, ry, err - (2 * (rx - 1) + 1))
  {
  }

  /** How far (u, v) is from its diagonal; the loop draws these from r down to 0. */
  function Diagonal(u: int, v: int): int { Abs(Abs(u) - Abs(v)) }

  /** What has been drawn once every diagonal above d is done. */
  ghost predicate Drawn(r: int, d: int, u: int, v: int) { OnCircle(r, u, v) && Diagonal(u, v) > d }

  /** The eight cells of one round are exactly the circle's cells on its diagonal. */
  lemma RoundDraws(r: int, rx: int, ry: int, err: int, x: int, y: int, p: Cell)
    requires Tracing(r, rx, ry, err) && rx >= ry
    ensures p in EightCells(x, y, rx, ry) <==> OnCircle(r, p.x - x, p.y - y) && Diagonal(p.x - x, p.y - y) == rx - ry
  {
    EightCellsAre(x, y, rx, ry, p);
    hide EightCells;
    assert InOctant(r, rx, ry);
    var a: int, b: int := Abs(p.x - x), Abs(p.y - y);
    if OnCircle(r, p.x - x, p.y - y) && Diagonal(p.x - x, p.y - y) == rx - ry {
      if a >= b { SameDiagonal(r, a, b, rx, ry); } else { SameDiagonal(r, b, a, rx, ry); }
    }
  }

  /** One round of the loop: from the diagonals above rx - ry to those from rx - ry up. */
  lemma Extends(r: int, rx: int, ry: int, err: int, x: int, y: int, drawn: seq<Cell>)
    requires Tracing(r, rx, ry, err) && rx >= ry
    requires forall p: Cell :: p in drawn <==> Drawn(r, rx - ry, p.x - x, p.y - y)
    ensures forall p: Cell :: p in drawn + EightCells(x, y, rx, ry) <==> Drawn(r, rx - ry - 1, p.x - x, p.y - y)
  {
    hide EightCells, OnCircle, Tracing, Diagonal;
    forall p: Cell ensures p in drawn + EightCells(x, y, rx, ry) <==> Drawn(r, rx - ry - 1, p.x - x, p.y - y) {
      RoundDraws(r, rx, ry, err, x, y, p);
    }
  }

  lemma AtStart(r: int, drawn: seq<Cell>, x: int, y: int)
    requires r >= 0 && drawn == []
    ensures Tracing(r, r, 0, 0)
    ensures forall p: Cell :: p in drawn <==> Drawn(r, r, p.x - x, p.y - y)
  {
  }

  lemma AllDrawn(r: int, u: int, v: int)
    ensures Drawn(r, -1, u, v) == OnCircle(r, u, v)
  {
    hide OnCircle;
  }

  method PlotEight(c: Canvas, x: int, y: int, rx: int, ry: int)
    modifies c
    ensures c.cells == old(c.cells) + EightCells(c.originX + x, c.originY + y, rx, ry)
  {
    c.Plot(x + rx, y + ry);
    c.Plot(x + ry, y + rx);
    c.Plot(x - ry, y + rx);
    c.Plot(x - rx, y + ry);
    c.Plot(x - rx, y - ry);
    c.Plot(x - ry, y - rx);
    c.Plot(x + ry, y - rx);
    c.Plot(x + rx, y - ry);
  }

  /** -i: for r >= 0 the loop runs exactly r + 1 times, plots eight cells each time, and the set of
      plotted cells is exactly the circle; for r < 0 nothing is drawn. */
  method DrawCircle(c: Canvas, x: int, y: int, r: int)
    modifies c
    ensures |c.cells| == |old(c.cells)| + if r >= 0 then 8 * (r + 1) else 0
    ensures c.cells[..|old(c.cells)|] == old(c.cells)
    ensures r >= 0 ==> forall p: Cell ::
              p in c.cells[|old(c.cells)|..] <==> OnCircle(r, p.x - c.originX - x, p.y - c.originY - y)
  {
    hide EightCells, Tracing, Drawn, OnCircle;
    var rx, ry := r, 0;
    var err := 0;
    ghost var n := |c.cells|;
    ghost var cx, cy := c.originX + x, c.originY + y;
    ghost var drawn: seq<Cell> := [];
    if r >= 0 { AtStart(r, drawn, cx, cy); }
    while rx >= ry
      invariant rx - ry >= (if r >= 0 then -1 else r)
      invariant r < 0 ==> rx == r && ry == 0
      invariant |drawn| == 8 * (r - (rx - ry)) && c.cells == old(c.cells) + drawn
      invariant r >= 0 ==> Tracing(r, rx, ry, err)
      invariant r >= 0 ==> forall p: Cell :: p in drawn <==> Drawn(r, rx - ry, p.x - cx, p.y - cy)
      decreases rx - ry
    {
      PlotEight(c, x, y, rx, ry);
      Extends(r, rx, ry, err, cx, cy, drawn);
      drawn := drawn + EightCells(cx, cy, rx, ry);
      if err <= 0 {
        NextUp(r, rx, ry, err);
        ry := ry + 1;
        err := err + (2 * ry + 1);
      } else {
        NextLeft(r, rx, ry, err);
        rx := rx - 1;
        err := err - (2 * rx + 1);
      }
    }
    if r >= 0 {
      forall p: Cell ensures p in drawn <==> OnCircle(r, p.x - cx, p.y - cy) {
        AllDrawn(r, p.x - cx, p.y - cy);
      }
    }
    assert c.cells[n..] == drawn;
  }
}
