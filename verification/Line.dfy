/** darkbox.c, command -l: the integer line loop, against the rounded ideal line. */
module Line {
  import opened Bits

  datatype Cell = Cell(x: int, y: int)

  function Max(x: nat, y: nat): nat { if x > y then x else y }

  /** Where cells are drawn: the cursor is moved to the cell and a space is put there. */
  class Canvas {
    var cells: seq<Cell>
    const originX: int
    const originY: int

    constructor (originX: int, originY: int)
      ensures cells == [] && this.originX == originX && this.originY == originY
    {
      this.originX, this.originY := originX, originY;
      cells := [];
    }

    method Plot(x: int, y: int)
      modifies this
      ensures cells == old(cells) + [Cell(originX + x, originY + y)]
    {
      cells := cells + [Cell(originX + x, originY + y)];
    }
  }

  // ----- The ideal line, rounded

  /** How far the minor axis has moved after k steps of the major axis: k * minor / major rounded
      to the nearest integer (see MinorAtIsNearest). */
  function MinorAt(major: nat, minor: nat, k: nat): int
    requires major >= 1
  {
    -((major / 2 - minor * k) / major)
  }

  /** The only m for which the loop's error term stays within one major length. */
  lemma MinorAtIff(major: nat, minor: nat, k: nat, m: int)
    requires major >= 1
    ensures MinorAt(major, minor, k) == m <==> 0 <= major / 2 - minor * k + major * m < major
  {
    var n := major / 2 - minor * k;
    var q, r := n / major, n % major;
    DivModFacts(n, major);
    if 0 <= n + major * m < major {
      DivModUnique(n, major, q, r, -m, n + major * m);
    }
    assert major * -q == -(major * q);
  }

  /** Every cell of the line is within half a cell of the ideal one. */
  lemma MinorAtIsNearest(major: nat, minor: nat, k: nat)
    requires major >= 1
    ensures 2 * Abs(major * MinorAt(major, minor, k) - minor * k) <= major
  {
    MinorAtIff(major, minor, k, MinorAt(major, minor, k));
    hide MinorAt;
  }

  lemma MinorAtEnds(major: nat, minor: nat)
    requires major >= 1
    ensures MinorAt(major, minor, 0) == 0 && MinorAt(major, minor, major) == minor
  {
    assert minor * 0 == 0 && major * 0 == 0 && minor * major == major * minor;
    MinorAtIff(major, minor, 0, 0);
    MinorAtIff(major, minor, major, minor);
  }

  /** One step of the major axis moves the minor axis by zero or one. */
  lemma MinorAtStep(major: nat, minor: nat, k: nat)
    requires major >= 1 && minor <= major
    ensures MinorAt(major, minor, k + 1) == MinorAt(major, minor, k)
         || MinorAt(major, minor, k + 1) == MinorAt(major, minor, k) + 1
    ensures MinorAt(major, minor, k + 1) == MinorAt(major, minor, k) <==>
              major / 2 - minor * k + major * MinorAt(major, minor, k) >= minor
  {
    var m := MinorAt(major, minor, k);
    MinorAtIff(major, minor, k, m);
    MinorAtIff(major, minor, k + 1, m);
    MinorAtIff(major, minor, k + 1, m + 1);
    hide MinorAt;
    assert minor * (k + 1) == minor * k + minor && major * (m + 1) == major * m + major;
  }

  function Sign(a: int, b: int): int { if a < b then 1 else -1 }

  /** Cell k of the line from (x0, y0) to (x1, y1). */
  function LineCell(x0: int, y0: int, x1: int, y1: int, k: nat): Cell {
    var dx, dy := Abs(x1 - x0), Abs(y1 - y0);
    if dx > dy then Cell(x0 + Sign(x0, x1) * k, y0 + Sign(y0, y1) * MinorAt(dx, dy, k))
    else if dy > 0 then Cell(x0 + Sign(x0, x1) * MinorAt(dy, dx, k), y0 + Sign(y0, y1) * k)
    else Cell(x0, y0)
  }

  function LineLength(x0: int, y0: int, x1: int, y1: int): nat {
    Max(Abs(x1 - x0), Abs(y1 - y0)) + 1
  }

  // ----- What the line is like

  /** The line starts at A and ends at B. */
  lemma LineEnds(x0: int, y0: int, x1: int, y1: int)
    ensures LineCell(x0, y0, x1, y1, 0) == Cell(x0, y0)
    ensures LineCell(x0, y0, x1, y1, LineLength(x0, y0, x1, y1) - 1) == Cell(x1, y1)
  {
    hide MinorAt;
    var dx, dy := Abs(x1 - x0), Abs(y1 - y0);
    SignTimesAbs(x0, x1);
    SignTimesAbs(y0, y1);
    if dx > dy { MinorAtEnds(dx, dy); } else if dy > 0 { MinorAtEnds(dy, dx); }
  }

  lemma SignTimesAbs(a: int, b: int)
    ensures a + Sign(a, b) * Abs(b - a) == b
  {
  }

  /** Each cell is one of the eight neighbours of the next. */
  lemma LineIsConnected(x0: int, y0: int, x1: int, y1: int, k: nat)
    requires k + 1 < LineLength(x0, y0, x1, y1)
    ensures var p, q := LineCell(x0, y0, x1, y1, k), LineCell(x0, y0, x1, y1, k + 1);
            Max(Abs(q.x - p.x), Abs(q.y - p.y)) == 1
  {
    var dx, dy := Abs(x1 - x0), Abs(y1 - y0);
    if dx > dy { MinorAtStep(dx, dy, k); } else { MinorAtStep(dy, dx, k); }
    hide MinorAt;
  }

  /** No cell is drawn twice. */
  lemma LineCellsDistinct(x0: int, y0: int, x1: int, y1: int, j: nat, k: nat)
    requires j < k < LineLength(x0, y0, x1, y1)
    ensures LineCell(x0, y0, x1, y1, j) != LineCell(x0, y0, x1, y1, k)
  {
    hide MinorAt;
  }

  /** Every cell is within half a cell of the ideal line, along the minor axis. */
  lemma LineIsNearIdeal(x0: int, y0: int, x1: int, y1: int, k: nat)
    ensures var dx, dy := Abs(x1 - x0), Abs(y1 - y0);
            var c := LineCell(x0, y0, x1, y1, k);
            var x, y := Sign(x0, x1) * (c.x - x0), Sign(y0, y1) * (c.y - y0);
            2 * Abs(dx * y - dy * x) <= Max(dx, dy)
  {
    var dx, dy := Abs(x1 - x0), Abs(y1 - y0);
    if dx > dy {
      MinorAtIsNearest(dx, dy, k);
    } else if dy > 0 {
      MinorAtIsNearest(dy, dx, k);
      assert dy * MinorAt(dy, dx, k) - dx * k == -(dx * k - dy * MinorAt(dy, dx, k));
    }
    hide MinorAt;
  }

  // ----- The loop

  /** Half the longer side, negated when that is the vertical one, rounded toward zero. */
  function StartError(dx: nat, dy: nat): int { if dx > dy then dx / 2 else -(dy / 2) }

  /** After k cells: steps made along each axis, and the error term. */
  ghost predicate Stepped(dx: nat, dy: nat, k: nat, stepsX: int, stepsY: int, err: int) {
    && err == StartError(dx, dy) - dy * stepsX + dx * stepsY
    && if dx > dy then stepsX == k && stepsY == MinorAt(dx, dy, k)
       else if dy > 0 then stepsY == k && stepsX == MinorAt(dy, dx, k)
       else k == 0 && stepsX == 0 && stepsY == 0
  }

  /** The error stays below the longer side, so the loop always moves along it. */
  lemma ErrorBound(dx: nat, dy: nat, k: nat, stepsX: int, stepsY: int, err: int)
    requires Stepped(dx, dy, k, stepsX, stepsY, err)
    ensures if dx > dy then 0 <= err < dx else if dy > 0 then 0 - dy < err <= 0 else err == 0
  {
    if dx > dy {
      MinorAtIff(dx, dy, k, stepsY);
    } else if dy > 0 {
      MinorAtIff(dy, dx, k, stepsX);
    } else {
      assert dy * stepsX == 0 && dx * stepsY == 0;
    }
    hide MinorAt;
  }

  lemma OneStep(dx: nat, dy: nat, k: nat, stepsX: int, stepsY: int, err: int)
    requires Stepped(dx, dy, k, stepsX, stepsY, err) && dx + dy > 0
    ensures var mx, my := if err > 0 - dx then 1 else 0, if err < dy then 1 else 0;
            Stepped(dx, dy, k + 1, stepsX + mx, stepsY + my, err - mx * dy + my * dx)
  {
    hide MinorAt;
    ErrorBound(dx, dy, k, stepsX, stepsY, err);
    if dx > dy { MinorAtStep(dx, dy, k); } else { MinorAtStep(dy, dx, k); }
    assert dy * (stepsX + 1) == dy * stepsX + dy && dx * (stepsY + 1) == dx * stepsY + dx;
  }

  /** The line is complete exactly when the last cell has been reached. */
  lemma AtEnd(x0: int, y0: int, x1: int, y1: int, k: nat, stepsX: int, stepsY: int, err: int)
    requires Stepped(Abs(x1 - x0), Abs(y1 - y0), k, stepsX, stepsY, err)
    requires k < LineLength(x0, y0, x1, y1)
    ensures LineCell(x0, y0, x1, y1, k) == Cell(x0 + Sign(x0, x1) * stepsX, y0 + Sign(y0, y1) * stepsY)
    ensures LineCell(x0, y0, x1, y1, k) == Cell(x1, y1) <==> k + 1 == LineLength(x0, y0, x1, y1)
  {
    LineEnds(x0, y0, x1, y1);
    hide MinorAt;
  }

  /** -l: the cells drawn are exactly those of the rounded ideal line, in order. */
  method DrawLine(c: Canvas, x0: int, y0: int, x1: int, y1: int)
    modifies c
    ensures |c.cells| == |old(c.cells)| + LineLength(x0, y0, x1, y1)
    ensures c.cells[..|old(c.cells)|] == old(c.cells)
    ensures forall k :: 0 <= k < LineLength(x0, y0, x1, y1) ==>
              var p := LineCell(x0, y0, x1, y1, k);
              c.cells[|old(c.cells)| + k] == Cell(c.originX + p.x, c.originY + p.y)
  {
    hide MinorAt, LineCell, Stepped;
    var x, y := x0, y0;
    var dx: int, sx: int := Abs(x1 - x0), Sign(x0, x1);
    var dy: int, sy: int := Abs(y1 - y0), Sign(y0, y1);
    var err := StartError(dx, dy);
    ghost var n := |c.cells|;
    ghost var k: nat, stepsX: int, stepsY: int := 0, 0, 0;
    AtStart(dx, dy);
    while true
      invariant k < LineLength(x0, y0, x1, y1) && Stepped(dx, dy, k, stepsX, stepsY, err)
      invariant x == x0 + sx * stepsX && y == y0 + sy * stepsY
      invariant |c.cells| == n + k && c.cells[..n] == old(c.cells)
      invariant forall j :: 0 <= j < k ==>
                  var p := LineCell(x0, y0, x1, y1, j);
                  c.cells[n + j] == Cell(c.originX + p.x, c.originY + p.y)
      decreases LineLength(x0, y0, x1, y1) - k
    {
      AtEnd(x0, y0, x1, y1, k, stepsX, stepsY, err);
      c.Plot(x, y);
      if x == x1 && y == y1 {
        break;
      }
      NotAPoint(x0, y0, x1, y1, k);
      OneStep(dx, dy, k, stepsX, stepsY, err);
      k := k + 1;
      var e2 := err;
      if e2 > -dx {
        err := err - dy;
        x := x + sx;
        stepsX := stepsX + 1;
      }
      if e2 < dy {
        err := err + dx;
        y := y + sy;
        stepsY := stepsY + 1;
      }
    }
  }

  lemma AtStart(dx: nat, dy: nat)
    ensures Stepped(dx, dy, 0, 0, 0, StartError(dx, dy))
  {
    if dx > dy { MinorAtEnds(dx, dy); } else if dy > 0 { MinorAtEnds(dy, dx); }
    hide MinorAt;
  }

  lemma NotAPoint(x0: int, y0: int, x1: int, y1: int, k: nat)
    requires k + 1 < LineLength(x0, y0, x1, y1)
    ensures Abs(x1 - x0) + Abs(y1 - y0) > 0
  {
  }
}
