/**
 * `BoundaryTools`: grid geometry for boundary conditions. Grid cells are
 * integer (column, row) pairs, world points pairs of reals.
 */
module BoundaryTools {
  import opened Wrappers
  import opened JsNum
  import Sorting

  datatype Cell = Cell(x: int, y: int)
  datatype Point = Point(x: real, y: real)

  // ------------------------------------------------------------ Bresenham

  /** A line between two grid cells, with the step directions the algorithm uses. */
  datatype Line = Line(x0: int, y0: int, x1: int, y1: int) {
    function Dx(): int { Abs(x1 - x0) }
    function Dy(): int { Abs(y1 - y0) }
    /** The cell reached after `i` steps in x and `j` steps in y, each towards the end cell. */
    function At(i: nat, j: nat): Cell {
      Cell(if x0 < x1 then x0 + i else x0 - i, if y0 < y1 then y0 + j else y0 - j)
    }
  }

  /** The error term after `i` steps in x and `j` in y: `dx - dy` less `dy` per x step, plus `dx` per y step. */
  function ErrAt(a: Line, i: nat, j: nat): int {
    a.Dx() - a.Dy() - i * a.Dy() + j * a.Dx()
  }

  lemma MulNonPositive(a: nat, b: int)
    requires b <= 0
    ensures a * b <= 0
  {
  }

  lemma MulNonNegative(a: nat, b: nat)
    ensures a * b >= 0
  {
  }

  /**
   * Before the end cell the walk moves in at least one direction, and never
   * past the end cell in either.
   */
  lemma StepStaysOnLine(a: Line, i: nat, j: nat)
    requires i <= a.Dx() && j <= a.Dy() && !(i == a.Dx() && j == a.Dy())
    ensures var e := ErrAt(a, i, j);
      && (2 * e > -a.Dy() ==> i < a.Dx())
      && (2 * e < a.Dx() ==> j < a.Dy())
      && (2 * e > -a.Dy() || 2 * e < a.Dx())
  {
    var dx, dy := a.Dx(), a.Dy();
    if i == dx {
      MulNonPositive(dx, 1 + j - dy);
      assert ErrAt(a, i, j) == dx * (1 + j - dy) - dy;
    }
    if j == dy {
      MulNonNegative(dy, dx - i - 1);
      assert ErrAt(a, i, j) == dx + dy * (dx - i - 1);
    }
  }

  /** The cells the walk visits from step counts (i, j) to the end cell. */
  function WalkFrom(a: Line, i: nat, j: nat): (cells: seq<Cell>)
    requires i <= a.Dx() && j <= a.Dy()
    ensures |cells| >= 1 && cells[0] == a.At(i, j)
    decreases (a.Dx() - i) + (a.Dy() - j)
  {
    if i == a.Dx() && j == a.Dy() then [a.At(i, j)]
    else
      StepStaysOnLine(a, i, j);
      [a.At(i, j)] + WalkFrom(a, NextI(a, i, j), NextJ(a, i, j))
  }

  /** The x step count after one more step: x moves when `2 * err > -dy`. */
  function NextI(a: Line, i: nat, j: nat): nat {
    if 2 * ErrAt(a, i, j) > -a.Dy() then i + 1 else i
  }

  /** The y step count after one more step: y moves when `2 * err < dx`. */
  function NextJ(a: Line, i: nat, j: nat): nat {
    if 2 * ErrAt(a, i, j) < a.Dx() then j + 1 else j
  }

  /** The line between the rounded end points. */
  function RoundedLine(x0: real, y0: real, x1: real, y1: real): Line {
    Line(Round(x0), Round(y0), Round(x1), Round(y1))
  }

  /** The cells of Bresenham's line between the rounded end points. */
  function LineCells(x0: real, y0: real, x1: real, y1: real): seq<Cell> {
    WalkFrom(RoundedLine(x0, y0, x1, y1), 0, 0)
  }

  /** Two distinct cells that touch at a side or a corner. */
  predicate Neighbours(c: Cell, d: Cell) {
    c != d && Abs(c.x - d.x) <= 1 && Abs(c.y - d.y) <= 1
  }

  /** The cell lies in the bounding box of the line's end cells. */
  predicate InLineBox(a: Line, c: Cell) {
    Min(a.x0, a.x1) <= c.x <= Max(a.x0, a.x1) && Min(a.y0, a.y1) <= c.y <= Max(a.y0, a.y1)
  }

  /** How many steps from the start cell `c` lies, counted towards the end cell in each direction. */
  function Progress(a: Line, c: Cell): int {
    (if a.x0 < a.x1 then c.x - a.x0 else a.x0 - c.x) + (if a.y0 < a.y1 then c.y - a.y0 else a.y0 - c.y)
  }

  /** One step of the walk: its head, then the walk from the next step counts. */
  lemma WalkUnfold(a: Line, i: nat, j: nat)
    requires i <= a.Dx() && j <= a.Dy() && !(i == a.Dx() && j == a.Dy())
    ensures NextI(a, i, j) <= a.Dx() && NextJ(a, i, j) <= a.Dy()
    ensures NextI(a, i, j) + NextJ(a, i, j) > i + j
    ensures WalkFrom(a, i, j) == [a.At(i, j)] + WalkFrom(a, NextI(a, i, j), NextJ(a, i, j))
  {
    StepStaysOnLine(a, i, j);
  }

  lemma {:induction false} WalkEndsAtEnd(a: Line, i: nat, j: nat)
    requires i <= a.Dx() && j <= a.Dy()
    ensures var w := WalkFrom(a, i, j); w[|w| - 1] == Cell(a.x1, a.y1)
    decreases (a.Dx() - i) + (a.Dy() - j)
  {
    if !(i == a.Dx() && j == a.Dy()) {
      WalkUnfold(a, i, j);
      WalkEndsAtEnd(a, NextI(a, i, j), NextJ(a, i, j));
    }
  }

  lemma {:induction false} WalkConnected(a: Line, i: nat, j: nat)
    requires i <= a.Dx() && j <= a.Dy()
    ensures var w := WalkFrom(a, i, j); forall k :: 0 <= k < |w| - 1 ==> Neighbours(w[k], w[k + 1])
    decreases (a.Dx() - i) + (a.Dy() - j)
  {
    if !(i == a.Dx() && j == a.Dy()) {
      WalkUnfold(a, i, j);
      var w := WalkFrom(a, i, j);
      var rest := WalkFrom(a, NextI(a, i, j), NextJ(a, i, j));
      WalkConnected(a, NextI(a, i, j), NextJ(a, i, j));
      assert Neighbours(w[0], w[1]);
      forall k | 1 <= k < |w| - 1
        ensures Neighbours(w[k], w[k + 1])
      {
        assert w[k] == rest[k - 1] && w[k + 1] == rest[k];
      }
    }
  }

  lemma {:induction false} WalkInBox(a: Line, i: nat, j: nat)
    requires i <= a.Dx() && j <= a.Dy()
    ensures var w := WalkFrom(a, i, j); forall k :: 0 <= k < |w| ==> InLineBox(a, w[k])
    decreases (a.Dx() - i) + (a.Dy() - j)
  {
    if !(i == a.Dx() && j == a.Dy()) {
      WalkUnfold(a, i, j);
      var w := WalkFrom(a, i, j);
      var rest := WalkFrom(a, NextI(a, i, j), NextJ(a, i, j));
      WalkInBox(a, NextI(a, i, j), NextJ(a, i, j));
      forall k | 1 <= k < |w|
        ensures InLineBox(a, w[k])
      {
        assert w[k] == rest[k - 1];
      }
    }
  }

  lemma {:induction false} WalkAdvances(a: Line, i: nat, j: nat)
    requires i <= a.Dx() && j <= a.Dy()
    ensures var w := WalkFrom(a, i, j);
      && Progress(a, w[0]) == i + j
      && forall k :: 0 < k < |w| ==> Progress(a, w[k]) > i + j
    decreases (a.Dx() - i) + (a.Dy() - j)
  {
    if !(i == a.Dx() && j == a.Dy()) {
      WalkUnfold(a, i, j);
      var w := WalkFrom(a, i, j);
      var rest := WalkFrom(a, NextI(a, i, j), NextJ(a, i, j));
      WalkAdvances(a, NextI(a, i, j), NextJ(a, i, j));
      forall k | 1 <= k < |w|
        ensures Progress(a, w[k]) > i + j
      {
        assert w[k] == rest[k - 1];
        if k > 1 {
          assert Progress(a, rest[k - 1]) > NextI(a, i, j) + NextJ(a, i, j);
        }
      }
    }
  }

  lemma {:induction false} WalkDistinct(a: Line, i: nat, j: nat)
    requires i <= a.Dx() && j <= a.Dy()
    ensures var w := WalkFrom(a, i, j); forall k, m :: 0 <= k < m < |w| ==> w[k] != w[m]
    decreases (a.Dx() - i) + (a.Dy() - j)
  {
    if !(i == a.Dx() && j == a.Dy()) {
      WalkUnfold(a, i, j);
      var w := WalkFrom(a, i, j);
      var rest := WalkFrom(a, NextI(a, i, j), NextJ(a, i, j));
      WalkDistinct(a, NextI(a, i, j), NextJ(a, i, j));
      WalkAdvances(a, i, j);
      forall k, m | 0 <= k < m < |w|
        ensures w[k] != w[m]
      {
        if k > 0 {
          assert w[k] == rest[k - 1] && w[m] == rest[m - 1];
        } else {
          assert Progress(a, w[m]) > Progress(a, w[k]);
        }
      }
    }
  }

  /**
   * The line starts at the rounded start and ends at the rounded end, each
   * cell touches the next, no cell repeats, and every cell lies in the box
   * the two end cells span.
   */
  lemma LineCellsShape(x0: real, y0: real, x1: real, y1: real)
    ensures var cells := LineCells(x0, y0, x1, y1);
      && cells[0] == Cell(Round(x0), Round(y0))
      && cells[|cells| - 1] == Cell(Round(x1), Round(y1))
      && (forall k :: 0 <= k < |cells| - 1 ==> Neighbours(cells[k], cells[k + 1]))
      && (forall k, m :: 0 <= k < m < |cells| ==> cells[k] != cells[m])
      && (forall k :: 0 <= k < |cells| ==> InLineBox(RoundedLine(x0, y0, x1, y1), cells[k]))
  {
    var a := RoundedLine(x0, y0, x1, y1);
    WalkEndsAtEnd(a, 0, 0);
    WalkConnected(a, 0, 0);
    WalkDistinct(a, 0, 0);
    WalkInBox(a, 0, 0);
  }

  /** One step of the loop in `discretizeLine`: the new cell, the new error term and the rest of the walk. */
  lemma BresenhamStep(a: Line, i: nat, j: nat)
    requires i <= a.Dx() && j <= a.Dy() && !(i == a.Dx() && j == a.Dy())
    ensures var e2, i', j' := 2 * ErrAt(a, i, j), NextI(a, i, j), NextJ(a, i, j);
      && i' <= a.Dx() && j' <= a.Dy()
      && ErrAt(a, i', j') == ErrAt(a, i, j) - (if e2 > -a.Dy() then a.Dy() else 0) + (if e2 < a.Dx() then a.Dx() else 0)
      && a.At(i', j').x == a.At(i, j).x + (if e2 > -a.Dy() then (if a.x0 < a.x1 then 1 else -1) else 0)
      && a.At(i', j').y == a.At(i, j).y + (if e2 < a.Dx() then (if a.y0 < a.y1 then 1 else -1) else 0)
      && WalkFrom(a, i, j) == [a.At(i, j)] + WalkFrom(a, i', j')
  {
    StepStaysOnLine(a, i, j);
  }

  /** `discretizeLine`: Bresenham's line from (x0, y0) to (x1, y1), each rounded to a cell. */
  method DiscretizeLine(x0: real, y0: real, x1: real, y1: real) returns (cells: seq<Cell>)
    ensures cells == LineCells(x0, y0, x1, y1)
  {
    cells := Bresenham(RoundedLine(x0, y0, x1, y1));
  }

  /** The loop of `discretizeLine` on the rounded end cells. */
  method Bresenham(a: Line) returns (cells: seq<Cell>)
    ensures cells == WalkFrom(a, 0, 0)
  {
    var x, y := a.x0, a.y0;
    cells := [];
    var err := a.Dx() - a.Dy();
    // the steps taken so far in x and in y
    ghost var i: nat, j: nat := 0, 0;
    while true
      invariant i <= a.Dx() && j <= a.Dy()
      invariant Cell(x, y) == a.At(i, j) && err == ErrAt(a, i, j)
      invariant cells + WalkFrom(a, i, j) == WalkFrom(a, 0, 0)
      decreases (a.Dx() - i) + (a.Dy() - j)
    {
      if x == a.x1 && y == a.y1 {
        cells := cells + [Cell(x, y)];
        break;
      }
      BresenhamStep(a, i, j);
      cells := cells + [Cell(x, y)];
      x, y, err := BresenhamMove(a, i, j, x, y, err);
      i, j := NextI(a, i, j), NextJ(a, i, j);
    }
  }

  /** The body of the loop: x moves when `2 * err > -dy`, y when `2 * err < dx`, and the error term follows. */
  method BresenhamMove(a: Line, ghost i: nat, ghost j: nat, x: int, y: int, err: int) returns (x': int, y': int, err': int)
    requires i <= a.Dx() && j <= a.Dy() && !(i == a.Dx() && j == a.Dy())
    requires Cell(x, y) == a.At(i, j) && err == ErrAt(a, i, j)
    ensures Cell(x', y') == a.At(NextI(a, i, j), NextJ(a, i, j)) && err' == ErrAt(a, NextI(a, i, j), NextJ(a, i, j))
  {
    BresenhamStep(a, i, j);
    var dx: int, dy: int := Abs(a.x1 - a.x0), Abs(a.y1 - a.y0);
    var sx := if a.x0 < a.x1 then 1 else -1;
    var sy := if a.y0 < a.y1 then 1 else -1;
    x', y', err' := x, y, err;
    var e2 := 2 * err;
    if e2 > -dy {
      err' := err' - dy;
      x' := x' + sx;
    }
    if e2 < dx {
      err' := err' + dx;
      y' := y' + sy;
    }
  }

  // ------------------------------------------------------------- polyline

  /** The elements of `s` without repeats, each where it first occurs. */
  function Dedup(s: seq<Cell>): (d: seq<Cell>)
    ensures forall x :: x in d <==> x in s
    decreases |s|
  {
    if s == [] then []
    else
      var d := Dedup(s[..|s| - 1]);
      assert s == s[..|s| - 1] + [s[|s| - 1]];
      if s[|s| - 1] in d then d else d + [s[|s| - 1]]
  }

  /** The index of the first occurrence of `x` in `s`. */
  function FirstIndex(s: seq<Cell>, x: Cell): (k: nat)
    requires x in s
    ensures k < |s| && s[k] == x
  {
    if s[0] == x then 0 else 1 + FirstIndex(s[1..], x)
  }

  /** No earlier element is `x`. */
  lemma {:induction false} FirstIndexIsFirst(s: seq<Cell>, x: Cell, m: nat)
    requires x in s && m < FirstIndex(s, x)
    ensures s[m] != x
  {
    if m > 0 {
      FirstIndexIsFirst(s[1..], x, m - 1);
    }
  }

  lemma {:induction false} FirstIndexOfPrefix(s: seq<Cell>, y: Cell, x: Cell)
    requires x in s
    ensures FirstIndex(s + [y], x) == FirstIndex(s, x)
  {
    if s[0] != x {
      assert (s + [y])[1..] == s[1..] + [y];
      FirstIndexOfPrefix(s[1..], y, x);
    }
  }

  lemma {:induction false} FirstIndexOfNew(s: seq<Cell>, x: Cell)
    requires x !in s
    ensures FirstIndex(s + [x], x) == |s|
  {
    if s != [] {
      assert (s + [x])[1..] == s[1..] + [x];
      FirstIndexOfNew(s[1..], x);
    }
  }

  /** `d` lists its elements in the order of their first occurrence in `s`. */
  ghost predicate FirstSeenOrder(s: seq<Cell>, d: seq<Cell>)
    requires forall x :: x in d ==> x in s
  {
    forall k, m :: 0 <= k < m < |d| ==> FirstIndex(s, d[k]) < FirstIndex(s, d[m])
  }

  /** Appending one element keeps the first-seen order, whether or not it is new. */
  lemma DedupOrderedStep(init: seq<Cell>, x: Cell)
    requires FirstSeenOrder(init, Dedup(init))
    ensures FirstSeenOrder(init + [x], Dedup(init + [x]))
  {
    var s := init + [x];
    assert s[..|s| - 1] == init;
    forall y | y in init
      ensures FirstIndex(s, y) == FirstIndex(init, y)
    {
      FirstIndexOfPrefix(init, x, y);
    }
    if x !in init {
      assert Dedup(s) == Dedup(init) + [x];
      FirstIndexOfNew(init, x);
      OrderWithNew(init, Dedup(init), x);
    } else {
      assert Dedup(s) == Dedup(init);
      OrderWithOld(init, Dedup(init), x);
    }
  }

  /** A new element at the end comes after every earlier first occurrence. */
  lemma OrderWithNew(init: seq<Cell>, d0: seq<Cell>, x: Cell)
    requires forall y :: y in d0 <==> y in init
    requires x !in init
    requires FirstSeenOrder(init, d0)
    requires FirstIndex(init + [x], x) == |init|
    requires forall y | y in init :: FirstIndex(init + [x], y) == FirstIndex(init, y)
    ensures FirstSeenOrder(init + [x], d0 + [x])
  {
    var s, d := init + [x], d0 + [x];
    forall k, m | 0 <= k < m < |d|
      ensures FirstIndex(s, d[k]) < FirstIndex(s, d[m])
    {
      assert d[k] == d0[k] && d0[k] in d0;
      if m < |d0| {
        assert d[m] == d0[m] && d0[m] in d0;
      }
    }
  }

  /** A repeated element at the end changes no first occurrence. */
  lemma OrderWithOld(init: seq<Cell>, d0: seq<Cell>, x: Cell)
    requires forall y :: y in d0 <==> y in init
    requires FirstSeenOrder(init, d0)
    requires forall y | y in init :: FirstIndex(init + [x], y) == FirstIndex(init, y)
    ensures FirstSeenOrder(init + [x], d0)
  {
    var s := init + [x];
    forall k, m | 0 <= k < m < |d0|
      ensures FirstIndex(s, d0[k]) < FirstIndex(s, d0[m])
    {
      assert d0[k] in d0 && d0[m] in d0;
    }
  }

  /** `Dedup` keeps no repeat, and keeps the elements in the order of their first occurrence. */
  lemma {:induction false} DedupFacts(s: seq<Cell>)
    ensures var d := Dedup(s);
      && (forall k, m :: 0 <= k < m < |d| ==> d[k] != d[m])
      && FirstSeenOrder(s, d)
    decreases |s|
  {
    if s != [] {
      var init, x := s[..|s| - 1], s[|s| - 1];
      assert s == init + [x];
      DedupFacts(init);
      DedupOrderedStep(init, x);
    }
  }

  /** The number of segments of a polyline of `n` points. */
  function SegmentCount(n: nat): nat {
    if n == 0 then 0 else n - 1
  }

  /** The cells of segment `i`, its end points taken from world to grid coordinates. */
  function SegmentCells(polyline: seq<Point>, cellSize: real, xll: real, yll: real, i: nat): seq<Cell>
    requires cellSize != 0.0 && i + 1 < |polyline|
  {
    var p1, p2 := polyline[i], polyline[i + 1];
    LineCells((p1.x - xll) / cellSize, (p1.y - yll) / cellSize, (p2.x - xll) / cellSize, (p2.y - yll) / cellSize)
  }

  /** The cells of the first `n` segments one after another, repeats included. */
  function SegmentsCells(polyline: seq<Point>, cellSize: real, xll: real, yll: real, n: nat): seq<Cell>
    requires cellSize != 0.0 && n <= SegmentCount(|polyline|)
  {
    if n == 0 then [] else SegmentsCells(polyline, cellSize, xll, yll, n - 1) + SegmentCells(polyline, cellSize, xll, yll, n - 1)
  }

  /** The cells of all segments, each kept where it is first seen. */
  function PolylineCells(polyline: seq<Point>, cellSize: real, xll: real, yll: real): seq<Cell>
    requires cellSize != 0.0
  {
    Dedup(SegmentsCells(polyline, cellSize, xll, yll, SegmentCount(|polyline|)))
  }

  lemma {:induction false} SegmentsCellsMembers(polyline: seq<Point>, cellSize: real, xll: real, yll: real, n: nat, c: Cell)
    requires cellSize != 0.0 && n <= SegmentCount(|polyline|)
    ensures c in SegmentsCells(polyline, cellSize, xll, yll, n) <==>
      exists i :: 0 <= i < n && c in SegmentCells(polyline, cellSize, xll, yll, i)
  {
    if n > 0 {
      SegmentsCellsMembers(polyline, cellSize, xll, yll, n - 1, c);
    }
  }

  /** The polyline's cells repeat none, and keep the order in which the segments first reach them. */
  lemma PolylineCellsOrdered(polyline: seq<Point>, cellSize: real, xll: real, yll: real)
    requires cellSize != 0.0
    ensures var all := SegmentsCells(polyline, cellSize, xll, yll, SegmentCount(|polyline|));
      var cells := PolylineCells(polyline, cellSize, xll, yll);
      && (forall k, m :: 0 <= k < m < |cells| ==> cells[k] != cells[m])
      && FirstSeenOrder(all, cells)
  {
    var all := SegmentsCells(polyline, cellSize, xll, yll, SegmentCount(|polyline|));
    DedupFacts(all);
    assert PolylineCells(polyline, cellSize, xll, yll) == Dedup(all);
  }

  /** A cell is among the polyline's cells exactly when it is on the line of one of its segments. */
  lemma PolylineCellsCover(polyline: seq<Point>, cellSize: real, xll: real, yll: real, c: Cell)
    requires cellSize != 0.0
    ensures c in PolylineCells(polyline, cellSize, xll, yll) <==>
      exists i :: 0 <= i < SegmentCount(|polyline|) && c in SegmentCells(polyline, cellSize, xll, yll, i)
  {
    SegmentsCellsMembers(polyline, cellSize, xll, yll, SegmentCount(|polyline|), c);
  }

  /** `discretizePolyline`: the cells of every segment, each cell once, in first-seen order. */
  method DiscretizePolyline(polyline: seq<Point>, cellSize: real, xll: real, yll: real) returns (allCells: seq<Cell>)
    requires cellSize != 0.0
    ensures allCells == PolylineCells(polyline, cellSize, xll, yll)
  {
    allCells := [];
    var seen: set<Cell> := {};
    var i := 0;
    while i < |polyline| - 1
      invariant 0 <= i <= SegmentCount(|polyline|)
      invariant allCells == Dedup(SegmentsCells(polyline, cellSize, xll, yll, i))
      invariant forall c :: c in seen <==> c in allCells
    {
      var segmentCells := DiscretizeSegment(polyline, cellSize, xll, yll, i);
      allCells, seen := AddUnseen(allCells, seen, segmentCells, SegmentsCells(polyline, cellSize, xll, yll, i));
      i := i + 1;
    }
  }

  /** Segment `i` of `discretizePolyline`: its end points in grid coordinates, then the line between them. */
  method DiscretizeSegment(polyline: seq<Point>, cellSize: real, xll: real, yll: real, i: nat) returns (cells: seq<Cell>)
    requires cellSize != 0.0 && i + 1 < |polyline|
    ensures cells == SegmentCells(polyline, cellSize, xll, yll, i)
  {
    var p1 := polyline[i];
    var p2 := polyline[i + 1];
    var x0 := (p1.x - xll) / cellSize;
    var y0 := (p1.y - yll) / cellSize;
    var x1 := (p2.x - xll) / cellSize;
    var y1 := (p2.y - yll) / cellSize;
    cells := DiscretizeLine(x0, y0, x1, y1);
  }

  /** The inner loop of `discretizePolyline`: appends each cell of `cells` not yet in `seen`. */
  method AddUnseen(allCells: seq<Cell>, seen: set<Cell>, cells: seq<Cell>, ghost before: seq<Cell>)
    returns (allCells': seq<Cell>, seen': set<Cell>)
    requires allCells == Dedup(before)
    requires forall c :: c in seen <==> c in allCells
    ensures allCells' == Dedup(before + cells)
    ensures forall c :: c in seen' <==> c in allCells'
  {
    allCells', seen' := allCells, seen;
    assert before + cells[..0] == before;
    var k := 0;
    while k < |cells|
      invariant 0 <= k <= |cells|
      invariant allCells' == Dedup(before + cells[..k])
      invariant forall c :: c in seen' <==> c in allCells'
    {
      var cell := cells[k];
      assert before + cells[..k + 1] == (before + cells[..k]) + [cell];
      if cell !in seen' {
        seen' := seen' + {cell};
        allCells' := allCells' + [cell];
      }
      k := k + 1;
    }
    assert cells[..k] == cells;
  }

  // ------------------------------------------------------ point in polygon

  /** The index of the vertex before vertex `i`, the last one for the first. */
  function Prev(n: nat, i: nat): nat
    requires i < n
  {
    if i == 0 then n - 1 else i - 1
  }

  /** The edge from vertex `Prev(i)` to vertex `i` straddles the horizontal through `p` to the right of `p`. */
  predicate Crosses(p: Point, vs: seq<Point>, i: nat)
    requires i < |vs|
  {
    var vi, vj := vs[i], vs[Prev(|vs|, i)];
    ((vi.y > p.y) != (vj.y > p.y)) && p.x < XOnEdge(vi, vj, p.y)
  }

  /** The x where the line through `vi` and `vj` meets height `y`. */
  function XOnEdge(vi: Point, vj: Point, y: real): real
    requires vi.y != vj.y
  {
    (vj.x - vi.x) * (y - vi.y) / (vj.y - vi.y) + vi.x
  }

  /** How many of the first `n` edges the ray from `p` crosses. */
  function Crossings(p: Point, vs: seq<Point>, n: nat): nat
    requires n <= |vs|
  {
    if n == 0 then 0 else Crossings(p, vs, n - 1) + (if Crosses(p, vs, n - 1) then 1 else 0)
  }

  /** The ray-casting rule: `p` is inside when the ray crosses an odd number of edges. */
  predicate PointInPolygon(p: Point, vs: seq<Point>) {
    Crossings(p, vs, |vs|) % 2 == 1
  }

  /** `isPointInPolygon`: the parity flips once for every edge the ray crosses. */
  method IsPointInPolygon(point: Point, vs: seq<Point>) returns (inside: bool)
    ensures inside == PointInPolygon(point, vs)
  {
    inside := false;
    var i := 0;
    var j := |vs| - 1;
    while i < |vs|
      invariant 0 <= i <= |vs|
      invariant i < |vs| ==> j == Prev(|vs|, i)
      invariant inside == (Crossings(point, vs, i) % 2 == 1)
    {
      var vi, vj := vs[i], vs[j];
      var intersect := ((vi.y > point.y) != (vj.y > point.y))
        && point.x < XOnEdge(vi, vj, point.y);
      assert intersect == Crosses(point, vs, i);
      ParityFlips(Crossings(point, vs, i));
      if intersect {
        inside := !inside;
      }
      j := i;
      i := i + 1;
    }
  }

  /** One more crossing flips the parity. */
  lemma ParityFlips(c: nat)
    ensures ((c + 1) % 2 == 1) == !(c % 2 == 1)
  {
  }

  lemma {:induction false} NoStraddleNoCrossing(p: Point, vs: seq<Point>, n: nat)
    requires n <= |vs|
    requires (forall v :: v in vs ==> v.y > p.y) || (forall v :: v in vs ==> v.y <= p.y)
    ensures Crossings(p, vs, n) == 0
  {
    if n > 0 {
      NoStraddleNoCrossing(p, vs, n - 1);
      assert vs[n - 1] in vs && vs[Prev(|vs|, n - 1)] in vs;
    }
  }

  /**
   * A point above every vertex, or at or below every vertex, is outside;
   * so is every point for the empty vertex list.
   */
  lemma OutsideVerticalRange(p: Point, vs: seq<Point>)
    requires (forall v :: v in vs ==> v.y > p.y) || (forall v :: v in vs ==> v.y <= p.y)
    ensures !PointInPolygon(p, vs)
  {
    NoStraddleNoCrossing(p, vs, |vs|);
  }

  // ----------------------------------------------------- cells in polygon

  /** A bounding box in world coordinates. */
  datatype Box = Box(minX: real, minY: real, maxX: real, maxY: real)

  /** `p` lies in the box. */
  predicate InBox(b: Box, p: Point) {
    b.minX <= p.x <= b.maxX && b.minY <= p.y <= b.maxY
  }

  /** `b` is the smallest box holding every vertex: it holds them, and a vertex lies on each of its sides. */
  ghost predicate IsBoundingBox(b: Box, vs: seq<Point>) {
    && (forall v :: v in vs ==> InBox(b, v))
    && (exists v :: v in vs && v.x == b.minX)
    && (exists v :: v in vs && v.x == b.maxX)
    && (exists v :: v in vs && v.y == b.minY)
    && (exists v :: v in vs && v.y == b.maxY)
  }

  /** The bounding box of the vertices; none for no vertices. */
  method BoundingBox(vs: seq<Point>) returns (box: Option<Box>)
    ensures box.None? <==> vs == []
    ensures box.Some? ==> IsBoundingBox(box.value, vs)
  {
    if vs == [] {
      return None;
    }
    var b := Box(vs[0].x, vs[0].y, vs[0].x, vs[0].y);
    var k := 1;
    while k < |vs|
      invariant 1 <= k <= |vs|
      invariant forall m :: 0 <= m < k ==> InBox(b, vs[m])
      invariant exists m :: 0 <= m < k && vs[m].x == b.minX
      invariant exists m :: 0 <= m < k && vs[m].x == b.maxX
      invariant exists m :: 0 <= m < k && vs[m].y == b.minY
      invariant exists m :: 0 <= m < k && vs[m].y == b.maxY
    {
      var v := vs[k];
      if v.x < b.minX { b := b.(minX := v.x); }
      if v.y < b.minY { b := b.(minY := v.y); }
      if v.x > b.maxX { b := b.(maxX := v.x); }
      if v.y > b.maxY { b := b.(maxY := v.y); }
      k := k + 1;
    }
    assert forall m :: 0 <= m < |vs| ==> vs[m] in vs;
    return Some(b);
  }

  /** The column and row index range a world box covers. */
  datatype IndexRange = IndexRange(startCol: int, endCol: int, startRow: int, endRow: int)

  function RangeOf(b: Box, cellSize: real, xll: real, yll: real): IndexRange
    requires cellSize != 0.0
  {
    IndexRange(((b.minX - xll) / cellSize).Floor, ((b.maxX - xll) / cellSize).Floor,
               ((b.minY - yll) / cellSize).Floor, ((b.maxY - yll) / cellSize).Floor)
  }

  predicate InRange(r: IndexRange, c: Cell) {
    r.startCol <= c.x <= r.endCol && r.startRow <= c.y <= r.endRow
  }

  /** The centre of a cell in world coordinates. */
  function Center(c: Cell, cellSize: real, xll: real, yll: real): Point {
    Point(xll + c.x as real * cellSize + cellSize / 2.0, yll + c.y as real * cellSize + cellSize / 2.0)
  }

  /** `c` comes before `d` in row-major order. */
  predicate RowMajorBefore(c: Cell, d: Cell) {
    c.y < d.y || (c.y == d.y && c.x < d.x)
  }

  /** `c` lies in the range and its centre in the polygon. */
  predicate Selected(r: IndexRange, vs: seq<Point>, cellSize: real, xll: real, yll: real, c: Cell) {
    InRange(r, c) && PointInPolygon(Center(c, cellSize, xll, yll), vs)
  }

  /**
   * `getCellsInPolygon`: the cells of the box's index range whose centres lie
   * in the polygon, in row-major order. The box is `bounds` when given,
   * otherwise the polygon's own; a polygon without vertices and no bounds has no cells.
   */
  method GetCellsInPolygon(vs: seq<Point>, cellSize: real, xll: real, yll: real, bounds: Option<Box>)
    returns (cells: seq<Cell>)
    requires cellSize != 0.0
    ensures bounds.None? && vs == [] ==> cells == []
    ensures forall k, m :: 0 <= k < m < |cells| ==> RowMajorBefore(cells[k], cells[m])
    ensures bounds.Some? ==> forall c :: c in cells <==> Selected(RangeOf(bounds.value, cellSize, xll, yll), vs, cellSize, xll, yll, c)
    ensures bounds.None? && vs != [] ==> exists b ::
      && IsBoundingBox(b, vs)
      && (forall c :: c in cells <==> Selected(RangeOf(b, cellSize, xll, yll), vs, cellSize, xll, yll, c))
  {
    var box: Box;
    if bounds.Some? {
      box := bounds.value;
    } else {
      var own := BoundingBox(vs);
      if own.None? {
        return [];
      }
      box := own.value;
    }
    var range := RangeOf(box, cellSize, xll, yll);
    cells := [];
    var row := range.startRow;
    while row <= range.endRow
      invariant range.startRow <= row <= range.endRow + 1 || (row == range.startRow > range.endRow)
      invariant forall c :: c in cells <==> Selected(range, vs, cellSize, xll, yll, c) && c.y < row
      invariant forall k, m :: 0 <= k < m < |cells| ==> RowMajorBefore(cells[k], cells[m])
      invariant forall k :: 0 <= k < |cells| ==> cells[k].y < row
      decreases range.endRow + 1 - row
    {
      cells := ScanRow(vs, cellSize, xll, yll, range, row, cells);
      row := row + 1;
    }
  }

  /** The inner loop of `getCellsInPolygon`: appends the selected cells of row `row`. */
  method ScanRow(vs: seq<Point>, cellSize: real, xll: real, yll: real, range: IndexRange, row: int, cells: seq<Cell>)
    returns (cells': seq<Cell>)
    requires range.startRow <= row <= range.endRow
    requires forall k, m :: 0 <= k < m < |cells| ==> RowMajorBefore(cells[k], cells[m])
    requires forall k :: 0 <= k < |cells| ==> cells[k].y < row
    ensures forall c :: c in cells' <==> c in cells || (Selected(range, vs, cellSize, xll, yll, c) && c.y == row)
    ensures forall k, m :: 0 <= k < m < |cells'| ==> RowMajorBefore(cells'[k], cells'[m])
    ensures forall k :: 0 <= k < |cells'| ==> cells'[k].y <= row
  {
    cells' := cells;
    var col := range.startCol;
    while col <= range.endCol
      invariant range.startCol <= col <= range.endCol + 1 || (col == range.startCol > range.endCol)
      invariant forall c :: c in cells' <==> c in cells || (Selected(range, vs, cellSize, xll, yll, c) && c.y == row && c.x < col)
      invariant forall k, m :: 0 <= k < m < |cells'| ==> RowMajorBefore(cells'[k], cells'[m])
      invariant forall k :: 0 <= k < |cells'| ==> cells'[k].y < row || (cells'[k].y == row && cells'[k].x < col)
      decreases range.endCol + 1 - col
    {
      var inside := IsPointInPolygon(Center(Cell(col, row), cellSize, xll, yll), vs);
      if inside {
        cells' := cells' + [Cell(col, row)];
      }
      col := col + 1;
    }
  }

  // ----------------------------------------------------------- grid header

  datatype Point3 = Point3(x: real, y: real, z: real)

  /** The header of a regular grid through a point cloud; `xll`/`yll` are the centre of its first cell. */
  datatype GridHeader = GridHeader(ncols: int, nrows: int, xllcorner: real, yllcorner: real,
                                   cellsize: real, xll: real, yll: real)

  function Flatten(points: seq<Point3>): (ps: seq<Point>)
    ensures |ps| == |points|
    ensures forall i :: 0 <= i < |points| ==> ps[i] == Point(points[i].x, points[i].y)
  {
    seq(|points|, i requires 0 <= i < |points| => Point(points[i].x, points[i].y))
  }

  function Xs(points: seq<Point3>): (xs: seq<real>)
    ensures |xs| == |points|
    ensures forall i :: 0 <= i < |points| ==> xs[i] == points[i].x
  {
    seq(|points|, i requires 0 <= i < |points| => points[i].x)
  }

  function Identity(x: real): real {
    x
  }

  /** The difference between `xs[i]` and the element before it. */
  function Gap(xs: seq<real>, i: nat): real
    requires 1 <= i < |xs|
  {
    xs[i] - xs[i - 1]
  }

  /** `g` is the first gap above 0.001 between neighbours of `xs`, or 1 when there is none. */
  ghost predicate IsFirstGap(xs: seq<real>, g: real) {
    || (g == 1.0 && forall i :: 1 <= i < |xs| ==> Gap(xs, i) <= 0.001)
    || (exists i :: 1 <= i < |xs| && Gap(xs, i) > 0.001 && g == Gap(xs, i) &&
          forall m :: 1 <= m < i ==> Gap(xs, m) <= 0.001)
  }

  /** The cell size estimate: the first difference between neighbouring xs above 0.001, else 1. */
  method FirstGap(xs: seq<real>) returns (cellSize: real)
    ensures IsFirstGap(xs, cellSize)
    ensures cellSize == 1.0 || cellSize > 0.001
  {
    cellSize := 1.0;
    var i := 1;
    while i < |xs|
      invariant 1 <= i <= |xs| || (xs == [] && i == 1)
      invariant forall m :: 1 <= m < i ==> Gap(xs, m) <= 0.001
    {
      var diff := xs[i] - xs[i - 1];
      assert diff == Gap(xs, i);
      if diff > 0.001 {
        cellSize := diff;
        return;
      }
      i := i + 1;
    }
  }

  /** `Math.round(g * 1000) / 1000`. */
  function RoundToThousandths(g: real): real {
    (Round(g * 1000.0) as real) / 1000.0
  }

  lemma RoundedGapPositive(g: real)
    requires g == 1.0 || g > 0.001
    ensures RoundToThousandths(g) >= 0.001
  {
  }

  lemma DivMonotone(a: real, b: real, c: real)
    requires a <= b && c > 0.0
    ensures a / c <= b / c
  {
    assert (b - a) / c >= 0.0;
    assert b / c - a / c == (b - a) / c;
  }

  /** A point of the cloud lies in a cell of the grid; `min` and `max` are the cloud's extremes in that axis. */
  lemma PointInGrid(v: real, min: real, max: real, cellSize: real)
    requires min <= v <= max && cellSize > 0.0
    ensures 0 <= Round((v - min) / cellSize) < Round((max - min) / cellSize) + 1
  {
    DivMonotone(0.0, v - min, cellSize);
    DivMonotone(v - min, max - min, cellSize);
    RoundMonotone(0.0, (v - min) / cellSize);
    RoundMonotone((v - min) / cellSize, (max - min) / cellSize);
  }

  /**
   * The header's first cell is centred on the lowest x and y of the points,
   * its cell size is the first gap between their sorted xs rounded to
   * thousandths, every point lies in one of its cells, and the last column
   * and row are those of the points with the largest x and y.
   */
  ghost predicate HeaderFits(points: seq<Point3>, h: GridHeader) {
    && h.cellsize >= 0.001
    && (exists g :: IsFirstGap(Sorting.SortBy(Xs(points), Identity), g) && h.cellsize == RoundToThousandths(g))
    && h.ncols >= 1 && h.nrows >= 1
    && (forall p :: p in points ==> h.xll <= p.x && h.yll <= p.y)
    && (exists p :: p in points && p.x == h.xll)
    && (exists p :: p in points && p.y == h.yll)
    && h.xllcorner == h.xll - h.cellsize / 2.0 && h.yllcorner == h.yll - h.cellsize / 2.0
    && (forall p :: p in points ==> InHeaderGrid(h, p))
    && SpansLargest(points, h)
  }

  /** The last column and row are those of the points with the largest x and y. */
  ghost predicate SpansLargest(points: seq<Point3>, h: GridHeader)
    requires h.cellsize > 0.0
  {
    && (exists p :: p in points && (forall q :: q in points ==> q.x <= p.x) && h.ncols == Round((p.x - h.xll) / h.cellsize) + 1)
    && (exists p :: p in points && (forall q :: q in points ==> q.y <= p.y) && h.nrows == Round((p.y - h.yll) / h.cellsize) + 1)
  }

  /** Some point of the cloud has the box's largest x, and some the largest y. */
  lemma LargestOfBox(points: seq<Point3>, b: Box) returns (px: Point3, py: Point3)
    requires IsBoundingBox(b, Flatten(points))
    ensures px in points && px.x == b.maxX && py in points && py.y == b.maxY
    ensures forall q :: q in points ==> q.x <= b.maxX && q.y <= b.maxY
  {
    var ps := Flatten(points);
    var u :| u in ps && u.x == b.maxX;
    var z :| z in ps && z.y == b.maxY;
    var iu :| 0 <= iu < |ps| && ps[iu] == u;
    var iz :| 0 <= iz < |ps| && ps[iz] == z;
    px, py := points[iu], points[iz];
    forall q | q in points
      ensures q.x <= b.maxX && q.y <= b.maxY
    {
      var k :| 0 <= k < |points| && points[k] == q;
      assert InBox(b, ps[k]);
    }
  }

  /** The grid built from the bounding box reaches exactly to its largest x and y. */
  lemma SpansLargestOfBox(points: seq<Point3>, b: Box, h: GridHeader)
    requires IsBoundingBox(b, Flatten(points)) && h.cellsize > 0.0
    requires h.xll == b.minX && h.yll == b.minY
    requires h.ncols == Round((b.maxX - b.minX) / h.cellsize) + 1 && h.nrows == Round((b.maxY - b.minY) / h.cellsize) + 1
    ensures SpansLargest(points, h)
  {
    var px, py := LargestOfBox(points, b);
    assert px in points && (forall q :: q in points ==> q.x <= px.x) && h.ncols == Round((px.x - h.xll) / h.cellsize) + 1;
    assert py in points && (forall q :: q in points ==> q.y <= py.y) && h.nrows == Round((py.y - h.yll) / h.cellsize) + 1;
  }

  /** The point's nearest cell, counted from the first cell's centre, is one of the grid's. */
  predicate InHeaderGrid(h: GridHeader, p: Point3)
    requires h.cellsize > 0.0
  {
    && 0 <= Round((p.x - h.xll) / h.cellsize) < h.ncols
    && 0 <= Round((p.y - h.yll) / h.cellsize) < h.nrows
  }

  /**
   * `getGridHeader`: an error for an empty cloud; otherwise a grid whose
   * first cell is centred on the lowest x and y, whose cell size is the first
   * gap between the sorted xs rounded to thousandths, and which holds every point.
   */
  method GetGridHeader(points: seq<Point3>) returns (r: Result<GridHeader>)
    ensures r.Err? <==> points == []
    ensures points == [] ==> r == Err("Empty Point Cloud")
    ensures r.Ok? ==> HeaderFits(points, r.value)
  {
    if points == [] {
      return Err("Empty Point Cloud");
    }
    var box := BoundingBox(Flatten(points));
    var b := box.value;
    var xs := Sorting.SortBy(Xs(points), Identity);
    var cellSize := FirstGap(xs);
    ghost var g := cellSize;
    cellSize := RoundToThousandths(cellSize);
    var ncols := Round((b.maxX - b.minX) / cellSize) + 1;
    var nrows := Round((b.maxY - b.minY) / cellSize) + 1;
    var h := GridHeader(ncols, nrows, b.minX - cellSize / 2.0, b.minY - cellSize / 2.0, cellSize, b.minX, b.minY);
    HeaderOfBox(points, b, g, h);
    return Ok(h);
  }

  lemma PointsFitHeader(points: seq<Point3>, b: Box, h: GridHeader)
    requires IsBoundingBox(b, Flatten(points)) && h.cellsize > 0.0
    requires h.xll == b.minX && h.yll == b.minY
    requires h.ncols == Round((b.maxX - b.minX) / h.cellsize) + 1 && h.nrows == Round((b.maxY - b.minY) / h.cellsize) + 1
    ensures forall p :: p in points ==> h.xll <= p.x && h.yll <= p.y && InHeaderGrid(h, p)
  {
    var ps := Flatten(points);
    forall p | p in points
      ensures h.xll <= p.x && h.yll <= p.y && InHeaderGrid(h, p)
    {
      var i :| 0 <= i < |points| && points[i] == p;
      assert ps[i] in ps;
      PointInGrid(p.x, b.minX, b.maxX, h.cellsize);
      PointInGrid(p.y, b.minY, b.maxY, h.cellsize);
    }
  }

  /** The header built from the cloud's bounding box and first gap fits the cloud. */
  lemma HeaderOfBox(points: seq<Point3>, b: Box, g: real, h: GridHeader)
    requires IsBoundingBox(b, Flatten(points))
    requires IsFirstGap(Sorting.SortBy(Xs(points), Identity), g) && (g == 1.0 || g > 0.001)
    requires h.cellsize == RoundToThousandths(g)
    requires h == GridHeader(Round((b.maxX - b.minX) / h.cellsize) + 1, Round((b.maxY - b.minY) / h.cellsize) + 1,
                             b.minX - h.cellsize / 2.0, b.minY - h.cellsize / 2.0, h.cellsize, b.minX, b.minY)
    ensures HeaderFits(points, h)
  {
    var ps := Flatten(points);
    RoundedGapPositive(g);
    PointsFitHeader(points, b, h);
    var v :| v in ps && v.x == b.minX;
    var w :| w in ps && w.y == b.minY;
    var iv :| 0 <= iv < |ps| && ps[iv] == v;
    var iw :| 0 <= iw < |ps| && ps[iw] == w;
    assert points[iv] in points && points[iw] in points;
    assert InHeaderGrid(h, points[iv]);
    SpansLargestOfBox(points, b, h);
    assert h.ncols >= 1 && h.nrows >= 1;
    assert IsFirstGap(Sorting.SortBy(Xs(points), Identity), g) && h.cellsize == RoundToThousandths(g);
    assert h.xllcorner == h.xll - h.cellsize / 2.0 && h.yllcorner == h.yll - h.cellsize / 2.0;
  }

  // ---------------------------------------------------------- gap filling

  /** A typed-array read: out of range gives `undefined`, which fails every comparison. */
  function Lookup(data: seq<real>, idx: int): Option<real> {
    if 0 <= idx < |data| then Some(data[idx]) else None
  }

  /** A value counts as data when it lies above the no-data value by more than 0.1. */
  predicate IsData(v: Option<real>, noData: real) {
    v.Some? && v.value > noData + 0.1
  }

  /** A value is a gap when it lies at most 0.1 above the no-data value. */
  predicate IsGap(v: Option<real>, noData: real) {
    v.Some? && v.value <= noData + 0.1
  }

  /** The number of offsets (dy, dx) the neighbourhood scan visits, the centre included. */
  const Offsets: nat := 9

  /** The running sum and count of valid neighbour values. */
  datatype Stats = Stats(sum: real, count: nat)

  /**
   * The stats over the first `t` of the nine offsets (dy, dx) in -1..1, dy
   * outer and dx inner, the centre skipped: offset t is (t / 3 - 1, t % 3 - 1).
   */
  function NeighbourStats(data: seq<real>, ncols: nat, nrows: nat, row: int, col: int, noData: real, t: nat): Stats
    requires t <= 9
  {
    if t == 0 then Stats(0.0, 0)
    else AddData(NeighbourStats(data, ncols, nrows, row, col, noData, t - 1), NeighbourAt(data, ncols, nrows, row, col, t - 1), noData)
  }

  /** The value at offset `t`: none for the centre and for neighbours off the grid. */
  function NeighbourAt(data: seq<real>, ncols: nat, nrows: nat, row: int, col: int, t: nat): Option<real>
    requires t < 9
  {
    var dy, dx := t / 3 - 1, t % 3 - 1;
    var nr, nc := row + dy, col + dx;
    if dx == 0 && dy == 0 then None
    else if 0 <= nr < nrows && 0 <= nc < ncols then Lookup(data, nr * ncols + nc)
    else None
  }

  /** The stats with `v` added when it is data. */
  function AddData(st: Stats, v: Option<real>, noData: real): Stats {
    if IsData(v, noData) then Stats(st.sum + v.value, st.count + 1) else st
  }

  /** The cell (row, col) after filling: a gap with valid neighbours takes their mean, every other cell keeps its value. */
  function FilledCell(data: seq<real>, ncols: nat, nrows: nat, noData: real, row: nat, col: nat): real
    requires row * ncols + col < |data|
  {
    var v := data[row * ncols + col];
    var st := NeighbourStats(data, ncols, nrows, row, col, noData, Offsets);
    if v <= noData + 0.1 && st.count > 0 then st.sum / (st.count as real) else v
  }

  /** `count` values above `thr` sum to more than `count * thr`. */
  lemma {:induction false} StatsAboveThreshold(data: seq<real>, ncols: nat, nrows: nat, row: int, col: int, noData: real, t: nat)
    requires t <= 9
    ensures AboveThreshold(NeighbourStats(data, ncols, nrows, row, col, noData, t), noData)
  {
    if t > 0 {
      StatsAboveThreshold(data, ncols, nrows, row, col, noData, t - 1);
      var prev := NeighbourStats(data, ncols, nrows, row, col, noData, t - 1);
      AddDataKeepsBound(prev, NeighbourAt(data, ncols, nrows, row, col, t - 1), noData);
    }
  }

  /** The sum stays above `count * (noData + 0.1)`, strictly once something is counted. */
  ghost predicate AboveThreshold(st: Stats, noData: real) {
    && st.sum >= (st.count as real) * (noData + 0.1)
    && (st.count > 0 ==> st.sum > (st.count as real) * (noData + 0.1))
  }

  lemma AddDataKeepsBound(st: Stats, v: Option<real>, noData: real)
    requires AboveThreshold(st, noData)
    ensures AboveThreshold(AddData(st, v, noData), noData)
  {
    var thr := noData + 0.1;
    assert ((st.count + 1) as real) * thr == (st.count as real) * thr + thr;
  }

  lemma QuotientAbove(sum: real, n: real, thr: real)
    requires n > 0.0 && sum > n * thr
    ensures sum / n > thr
  {
    var q := sum / n;
    assert q * n == sum;
    assert (q - thr) * n == sum - n * thr;
  }

  /**
   * Filling keeps every cell that holds data, leaves a gap without valid
   * neighbours a gap, and turns a gap with valid neighbours into data.
   */
  lemma FilledCellFacts(data: seq<real>, ncols: nat, nrows: nat, noData: real, row: nat, col: nat)
    requires row * ncols + col < |data|
    ensures var v := data[row * ncols + col];
      var st := NeighbourStats(data, ncols, nrows, row, col, noData, Offsets);
      && (v > noData + 0.1 ==> FilledCell(data, ncols, nrows, noData, row, col) == v)
      && (st.count == 0 ==> FilledCell(data, ncols, nrows, noData, row, col) == v)
      && (v <= noData + 0.1 && st.count > 0 ==> FilledCell(data, ncols, nrows, noData, row, col) > noData + 0.1)
  {
    var st := NeighbourStats(data, ncols, nrows, row, col, noData, Offsets);
    StatsAboveThreshold(data, ncols, nrows, row, col, noData, Offsets);
    if st.count > 0 {
      QuotientAbove(st.sum, st.count as real, noData + 0.1);
    }
  }

  /** One more offset (dy, dx) of the stats, in the loops' own terms. */
  lemma StatsStep(data: seq<real>, ncols: nat, nrows: nat, row: int, col: int, noData: real, dy: int, dx: int)
    requires -1 <= dy <= 1 && -1 <= dx <= 1
    ensures var t := 3 * (dy + 1) + (dx + 1);
      var prev := NeighbourStats(data, ncols, nrows, row, col, noData, t);
      var nr, nc := row + dy, col + dx;
      NeighbourStats(data, ncols, nrows, row, col, noData, t + 1) ==
        AddData(prev, if dx == 0 && dy == 0 then None
                      else if 0 <= nr < nrows && 0 <= nc < ncols then Lookup(data, nr * ncols + nc)
                      else None, noData)
  {
    var t := 3 * (dy + 1) + (dx + 1);
    assert t / 3 - 1 == dy && t % 3 - 1 == dx;
  }

  /** The two inner loops of `interpolateGaps`: sum and count of the valid neighbours of (row, col). */
  method NeighbourMean(original: seq<real>, ncols: nat, nrows: nat, row: int, col: int, noData: real)
    returns (sum: real, count: nat)
    ensures Stats(sum, count) == NeighbourStats(original, ncols, nrows, row, col, noData, Offsets)
  {
    sum, count := 0.0, 0;
    // the offsets visited so far, in the loops' order
    ghost var t: nat := 0;
    var dy := -1;
    while dy <= 1
      invariant -1 <= dy <= 2 && t == 3 * (dy + 1)
      invariant Stats(sum, count) == NeighbourStats(original, ncols, nrows, row, col, noData, t)
    {
      var dx := -1;
      while dx <= 1
        invariant -1 <= dx <= 2 && t == 3 * (dy + 1) + (dx + 1)
        invariant Stats(sum, count) == NeighbourStats(original, ncols, nrows, row, col, noData, t)
      {
        sum, count := AddNeighbour(original, ncols, nrows, row, col, noData, dy, dx, sum, count);
        dx, t := dx + 1, t + 1;
      }
      dy := dy + 1;
    }
  }

  /** The body of the inner loop: the neighbour at offset (dy, dx), skipping the cell itself, counted if it holds data. */
  method AddNeighbour(original: seq<real>, ncols: nat, nrows: nat, row: int, col: int, noData: real,
                      dy: int, dx: int, sum: real, count: nat) returns (sum': real, count': nat)
    requires -1 <= dy <= 1 && -1 <= dx <= 1
    requires Stats(sum, count) == NeighbourStats(original, ncols, nrows, row, col, noData, 3 * (dy + 1) + (dx + 1))
    ensures Stats(sum', count') == NeighbourStats(original, ncols, nrows, row, col, noData, 3 * (dy + 1) + (dx + 1) + 1)
  {
    StatsStep(original, ncols, nrows, row, col, noData, dy, dx);
    sum', count' := sum, count;
    if dx == 0 && dy == 0 {
      return;
    }
    var nr := row + dy;
    var nc := col + dx;
    if nr >= 0 && nr < nrows && nc >= 0 && nc < ncols {
      var v := Lookup(original, nr * ncols + nc);
      if IsData(v, noData) {
        sum' := sum + v.value;
        count' := count + 1;
      }
    }
  }

  /** The index of (row, col) in a row-major grid of `ncols` columns. */
  function FlatIndex(row: nat, col: nat, ncols: nat): nat {
    row * ncols + col
  }

  lemma MulLe(a: nat, b: nat, n: nat)
    requires a <= b
    ensures a * n <= b * n
  {
    var d: nat := b - a;
    assert b * n == a * n + d * n;
  }

  /** Row-major order of cells is the order of their indices. */
  lemma IndexBefore(r: nat, c: nat, row: nat, col: nat, ncols: nat)
    requires c < ncols && col <= ncols
    requires r < row || (r == row && c < col)
    ensures FlatIndex(r, c, ncols) < FlatIndex(row, col, ncols)
  {
    if r < row {
      MulLe(r + 1, row, ncols);
      assert (r + 1) * ncols == r * ncols + ncols;
    }
  }

  /**
   * `interpolateGaps`: every gap with valid neighbours in the original grid
   * takes their mean, in place; neighbours are read from a copy, so filled
   * cells do not feed later ones. Cells beyond `ncols * nrows` are untouched.
   */
  method InterpolateGaps(gridData: array<real>, ncols: nat, nrows: nat, noDataValue: real)
    modifies gridData
    ensures forall row: nat, col: nat :: row < nrows && col < ncols && row * ncols + col < gridData.Length ==>
      gridData[FlatIndex(row, col, ncols)] == FilledCell(old(gridData[..]), ncols, nrows, noDataValue, row, col)
    ensures forall k :: ncols * nrows <= k < gridData.Length ==> gridData[k] == old(gridData[k])
  {
    var original := gridData[..];
    var row: nat := 0;
    while row < nrows
      invariant row <= nrows
      invariant RowsFilled(gridData[..], original, ncols, nrows, noDataValue, row)
      invariant forall k :: row * ncols <= k < gridData.Length ==> gridData[k] == original[k]
    {
      ghost var before := gridData[..];
      FillRow(gridData, original, ncols, nrows, noDataValue, row);
      RowStep(before, gridData[..], original, ncols, nrows, noDataValue, row);
      row := row + 1;
    }
  }

  /** The first `rows` rows of `g` hold the filled cells of `original`. */
  ghost predicate RowsFilled(g: seq<real>, original: seq<real>, ncols: nat, nrows: nat, noDataValue: real, rows: nat) {
    && |g| == |original|
    && forall r: nat, c: nat :: r < rows && c < ncols && r * ncols + c < |g| ==>
      g[FlatIndex(r, c, ncols)] == FilledCell(original, ncols, nrows, noDataValue, r, c)
  }

  /** Filling row `row` and nothing else extends the filled rows by one and leaves the later ones original. */
  lemma RowStep(before: seq<real>, after: seq<real>, original: seq<real>, ncols: nat, nrows: nat, noDataValue: real, row: nat)
    requires |before| == |after| == |original|
    requires RowsFilled(before, original, ncols, nrows, noDataValue, row)
    requires forall k :: row * ncols <= k < |before| ==> before[k] == original[k]
    requires forall c: nat :: c < ncols && row * ncols + c < |after| ==>
      after[FlatIndex(row, c, ncols)] == FilledCell(original, ncols, nrows, noDataValue, row, c)
    requires forall k :: 0 <= k < |after| && (k < row * ncols || row * ncols + ncols <= k) ==> after[k] == before[k]
    ensures RowsFilled(after, original, ncols, nrows, noDataValue, row + 1)
    ensures forall k :: (row + 1) * ncols <= k < |after| ==> after[k] == original[k]
  {
    forall r: nat, c: nat | r < row + 1 && c < ncols && r * ncols + c < |after|
      ensures after[FlatIndex(r, c, ncols)] == FilledCell(original, ncols, nrows, noDataValue, r, c)
    {
      if r < row {
        IndexBefore(r, c, row, 0, ncols);
        assert after[FlatIndex(r, c, ncols)] == before[FlatIndex(r, c, ncols)];
      }
    }
    assert row * ncols + ncols == (row + 1) * ncols;
  }

  /** One row of `interpolateGaps`: its gaps filled from `original`, every cell outside the row untouched. */
  method FillRow(gridData: array<real>, original: seq<real>, ncols: nat, nrows: nat, noDataValue: real, row: nat)
    requires |original| == gridData.Length
    requires forall k :: row * ncols <= k < gridData.Length ==> gridData[k] == original[k]
    modifies gridData
    ensures forall c: nat :: c < ncols && row * ncols + c < gridData.Length ==>
      gridData[FlatIndex(row, c, ncols)] == FilledCell(original, ncols, nrows, noDataValue, row, c)
    ensures forall k :: 0 <= k < gridData.Length && (k < row * ncols || row * ncols + ncols <= k) ==> gridData[k] == old(gridData[k])
  {
    var base := row * ncols;
    ghost var start := gridData[..];
    var col: nat := 0;
    while col < ncols
      invariant col <= ncols
      invariant ColsFilled(gridData[..], original, ncols, nrows, noDataValue, row, col)
      invariant forall k :: 0 <= k < gridData.Length && (k < base || base + col <= k) ==> gridData[k] == start[k]
    {
      ghost var before := gridData[..];
      FillCell(gridData, original, ncols, nrows, noDataValue, row, col);
      ColStep(before, gridData[..], original, ncols, nrows, noDataValue, row, col, start);
      col := col + 1;
    }
  }

  /** The first `cols` cells of row `row` of `g` hold the filled cells of `original`. */
  ghost predicate ColsFilled(g: seq<real>, original: seq<real>, ncols: nat, nrows: nat, noDataValue: real, row: nat, cols: nat) {
    && |g| == |original|
    && forall c: nat :: c < cols && row * ncols + c < |g| ==>
      g[row * ncols + c] == FilledCell(original, ncols, nrows, noDataValue, row, c)
  }

  /** Filling cell `col` and nothing else extends the filled part of the row by one. */
  lemma ColStep(before: seq<real>, after: seq<real>, original: seq<real>, ncols: nat, nrows: nat, noDataValue: real,
                row: nat, col: nat, start: seq<real>)
    requires |before| == |after| == |original| == |start|
    requires ColsFilled(before, original, ncols, nrows, noDataValue, row, col)
    requires forall k :: 0 <= k < |before| && (k < row * ncols || row * ncols + col <= k) ==> before[k] == start[k]
    requires row * ncols + col < |after| ==> after[row * ncols + col] == FilledCell(original, ncols, nrows, noDataValue, row, col)
    requires forall k :: 0 <= k < |after| && k != row * ncols + col ==> after[k] == before[k]
    ensures ColsFilled(after, original, ncols, nrows, noDataValue, row, col + 1)
    ensures forall k :: 0 <= k < |after| && (k < row * ncols || row * ncols + col + 1 <= k) ==> after[k] == start[k]
  {
    var idx := row * ncols + col;
    forall c: nat | c < col + 1 && row * ncols + c < |after|
      ensures after[row * ncols + c] == FilledCell(original, ncols, nrows, noDataValue, row, c)
    {
      if c < col {
        assert row * ncols + c != idx;
      }
    }
  }

  /** One cell of `interpolateGaps`: a gap with valid neighbours in `original` takes their mean. */
  method FillCell(gridData: array<real>, original: seq<real>, ncols: nat, nrows: nat, noDataValue: real, row: nat, col: nat)
    requires |original| == gridData.Length
    requires row * ncols + col < gridData.Length ==> gridData[row * ncols + col] == original[row * ncols + col]
    modifies gridData
    ensures row * ncols + col < gridData.Length ==>
      gridData[row * ncols + col] == FilledCell(original, ncols, nrows, noDataValue, row, col)
    ensures forall k :: 0 <= k < gridData.Length && k != row * ncols + col ==> gridData[k] == old(gridData[k])
  {
    var idx := FlatIndex(row, col, ncols);
    var v := Lookup(original, idx);
    if IsGap(v, noDataValue) {
      var sum, count := NeighbourMean(original, ncols, nrows, row, col, noDataValue);
      if count > 0 {
        gridData[idx] := sum / (count as real);
      }
    }
  }

  // ---------------------------------------------------- nearest valid cell

  /** The value `findNearestValidCell` treats as the no-data threshold. */
  const ValidThreshold := -9990.0

  predicate InGrid(c: int, r: int, ncols: nat, nrows: nat) {
    0 <= c < ncols && 0 <= r < nrows
  }

  /** The row-major index the source computes for (c, r), whether or not the cell is on the grid. */
  function RawIndex(c: int, r: int, ncols: nat): int {
    r * ncols + c
  }

  /** The typed-array read at the raw index of (c, r) holds a value above the threshold. */
  predicate ValidAt(data: seq<real>, ncols: nat, c: int, r: int) {
    var v := Lookup(data, RawIndex(c, r, ncols));
    v.Some? && v.value > ValidThreshold
  }

  /** A cell the ring search accepts: on the grid and valid. */
  predicate Accepted(data: seq<real>, ncols: nat, nrows: nat, c: int, r: int) {
    InGrid(c, r, ncols, nrows) && ValidAt(data, ncols, c, r)
  }

  /** The Chebyshev norm of the offset (i, j): the ring it lies on. */
  function Ring(i: int, j: int): nat {
    if Abs(i) < Abs(j) then Abs(j) else Abs(i)
  }

  /** The ring search visits offset (i, j) before (i2, j2): an inner ring first, then by i, then by j. */
  predicate ScannedBefore(i: int, j: int, i2: int, j2: int) {
    Ring(i, j) < Ring(i2, j2) || (Ring(i, j) == Ring(i2, j2) && (i < i2 || (i == i2 && j < j2)))
  }

  /**
   * The outcome of the ring search around (sc, sr) up to ring `maxRadius`:
   * either the first accepted cell in visiting order, or none when no cell
   * of rings 1 to `maxRadius` is accepted.
   */
  ghost predicate FirstInRings(data: seq<real>, ncols: nat, nrows: nat, sc: int, sr: int, maxRadius: int, found: Option<Cell>) {
    match found
    case Some(cell) =>
      var i, j := cell.x - sc, cell.y - sr;
      && Accepted(data, ncols, nrows, cell.x, cell.y)
      && 1 <= Ring(i, j) <= maxRadius
      && forall i2, j2 :: 1 <= Ring(i2, j2) && ScannedBefore(i2, j2, i, j) ==> !Accepted(data, ncols, nrows, sc + i2, sr + j2)
    case None =>
      forall i, j :: 1 <= Ring(i, j) <= maxRadius ==> !Accepted(data, ncols, nrows, sc + i, sr + j)
  }

  /** The loop over j of ring `r` at column offset `i`: the first accepted cell of that part of the ring, by j. */
  method SearchRingColumn(data: seq<real>, ncols: nat, nrows: nat, sc: int, sr: int, r: nat, i: int) returns (found: Option<Cell>)
    requires Abs(i) <= r
    ensures match found
      case Some(cell) =>
        && cell.x == sc + i && Ring(i, cell.y - sr) == r
        && Accepted(data, ncols, nrows, cell.x, cell.y)
        && forall j2 :: Ring(i, j2) == r && j2 < cell.y - sr ==> !Accepted(data, ncols, nrows, sc + i, sr + j2)
      case None => forall j2 :: Ring(i, j2) == r ==> !Accepted(data, ncols, nrows, sc + i, sr + j2)
  {
    var j: int := -(r as int);
    while j <= r
      invariant -(r as int) <= j <= r + 1
      invariant forall j2 :: Ring(i, j2) == r && j2 < j ==> !Accepted(data, ncols, nrows, sc + i, sr + j2)
    {
      if Abs(i) != r && Abs(j) != r {
        j := j + 1;
        continue;
      }
      var c := sc + i;
      var ro := sr + j;
      if c >= 0 && c < ncols && ro >= 0 && ro < nrows {
        if ValidAt(data, ncols, c, ro) {
          return Some(Cell(c, ro));
        }
      }
      j := j + 1;
    }
    found := None;
  }

  /** The loop over i of ring `r`: the first accepted cell of the ring in visiting order. */
  method SearchRing(data: seq<real>, ncols: nat, nrows: nat, sc: int, sr: int, r: nat) returns (found: Option<Cell>)
    ensures match found
      case Some(cell) =>
        && Ring(cell.x - sc, cell.y - sr) == r
        && Accepted(data, ncols, nrows, cell.x, cell.y)
        && forall i2, j2 :: Ring(i2, j2) == r && ScannedBefore(i2, j2, cell.x - sc, cell.y - sr) ==> !Accepted(data, ncols, nrows, sc + i2, sr + j2)
      case None => forall i2, j2 :: Ring(i2, j2) == r ==> !Accepted(data, ncols, nrows, sc + i2, sr + j2)
  {
    var i: int := -(r as int);
    while i <= r
      invariant -(r as int) <= i <= r + 1
      invariant forall i2, j2 :: Ring(i2, j2) == r && i2 < i ==> !Accepted(data, ncols, nrows, sc + i2, sr + j2)
    {
      found := SearchRingColumn(data, ncols, nrows, sc, sr, r, i);
      if found.Some? {
        return;
      }
      i := i + 1;
    }
    found := None;
  }

  /** The ring loops of `findNearestValidCell`: rings 1 to `maxRadius`, perimeter cells only. */
  method SearchRings(data: seq<real>, ncols: nat, nrows: nat, sc: int, sr: int, maxRadius: int) returns (found: Option<Cell>)
    ensures FirstInRings(data, ncols, nrows, sc, sr, maxRadius, found)
  {
    var r := 1;
    while r <= maxRadius
      invariant 1 <= r && (r <= maxRadius + 1 || r == 1)
      invariant forall i, j :: 1 <= Ring(i, j) < r ==> !Accepted(data, ncols, nrows, sc + i, sr + j)
    {
      found := SearchRing(data, ncols, nrows, sc, sr, r);
      if found.Some? {
        return;
      }
      r := r + 1;
    }
    found := None;
  }

  /**
   * `findNearestValidCell` as written: the centre is read at its raw index
   * without a bounds check, so an off-grid start whose raw index lands on a
   * valid cell elsewhere is returned as it is.
   */
  method FindNearestValidCellAsWritten(startCol: int, startRow: int, data: seq<real>, ncols: nat, nrows: nat, maxRadius: int)
    returns (found: Option<Cell>)
    ensures ValidAt(data, ncols, startCol, startRow) ==> found == Some(Cell(startCol, startRow))
    ensures !ValidAt(data, ncols, startCol, startRow) ==> FirstInRings(data, ncols, nrows, startCol, startRow, maxRadius, found)
  {
    if ValidAt(data, ncols, startCol, startRow) {
      return Some(Cell(startCol, startRow));
    }
    found := SearchRings(data, ncols, nrows, startCol, startRow, maxRadius);
  }

  /**
   * The start (-1, 1) of a 2 x 2 grid of zeros is off the grid, yet its raw
   * index 1 holds a valid value, so the unchecked centre test accepts it.
   */
  lemma OffGridCentreAccepted()
    ensures !InGrid(-1, 1, 2, 2)
    ensures ValidAt([0.0, 0.0, 0.0, 0.0], 2, -1, 1)
  {
  }

  /**
   * `findNearestValidCell` with the centre bounds-checked like every ring
   * cell: the result is the start itself when that is accepted, otherwise the
   * first accepted cell of rings 1 to `maxRadius`; no accepted cell is nearer
   * in Chebyshev distance, and none means no cell within the radius is accepted.
   */
  method FindNearestValidCell(startCol: int, startRow: int, data: seq<real>, ncols: nat, nrows: nat, maxRadius: int)
    returns (found: Option<Cell>)
    ensures Accepted(data, ncols, nrows, startCol, startRow) ==> found == Some(Cell(startCol, startRow))
    ensures !Accepted(data, ncols, nrows, startCol, startRow) ==> FirstInRings(data, ncols, nrows, startCol, startRow, maxRadius, found)
    ensures found.Some? ==>
      && Accepted(data, ncols, nrows, found.value.x, found.value.y)
      && (Ring(found.value.x - startCol, found.value.y - startRow) == 0 || Ring(found.value.x - startCol, found.value.y - startRow) <= maxRadius)
      && forall i, j :: Ring(i, j) < Ring(found.value.x - startCol, found.value.y - startRow) ==> !Accepted(data, ncols, nrows, startCol + i, startRow + j)
    ensures found.None? ==> forall i, j :: Ring(i, j) <= maxRadius ==> !Accepted(data, ncols, nrows, startCol + i, startRow + j)
  {
    if InGrid(startCol, startRow, ncols, nrows) && ValidAt(data, ncols, startCol, startRow) {
      return Some(Cell(startCol, startRow));
    }
    found := SearchRings(data, ncols, nrows, startCol, startRow, maxRadius);
    forall i, j | Ring(i, j) == 0
      ensures !Accepted(data, ncols, nrows, startCol + i, startRow + j)
    {
      assert i == 0 && j == 0;
    }
    if found.Some? {
      var di, dj := found.value.x - startCol, found.value.y - startRow;
      forall i, j | 1 <= Ring(i, j) < Ring(di, dj)
        ensures ScannedBefore(i, j, di, dj)
      {
      }
    }
  }
}
