/**
 * The rasteriser of the 2D flood model: a terrain grid from XYZ text, the
 * ESRI ASCII text of a grid, and the baking of buildings into a copy of a
 * terrain raster. Float32 rasters are arrays of reals.
 */
module Rasterizer {
  import opened Wrappers
  import opened JsNum
  import opened JsText
  import opened BoundaryTools

  /** The no-data value a new terrain grid is filled with. */
  const NoData := -9999.0
  /** Cells at or below this value are treated as no-data and never raised. */
  const BurnFloor := -9000.0
  /** The height of a building without a (truthy) height property. */
  const DefaultHeight := 10.0

  // -------------------------------------------------------- XYZ to grid

  /** The lines of the XYZ text: the trimmed text split at line feeds. */
  function XyzLines(xyz: string): seq<string> {
    Split(Trim(xyz), '\n')
  }

  /** Lines 21-28: a line with at least three words gives the point of its first three. */
  function PointOfLine(line: string): Option<Point3> {
    var parts := Words(Trim(line));
    if |parts| >= 3 then PointOfWords(ParseFloat(parts[0]), ParseFloat(parts[1]), ParseFloat(parts[2])) else None
  }

  function PointOfWords(x: Num, y: Num, z: Num): Option<Point3> {
    if x.Real? && y.Real? && z.Real? then Some(Point3(x.value, y.value, z.value)) else None
  }

  /** The present values, in order. */
  function Somes<T>(xs: seq<Option<T>>): seq<T>
    decreases |xs|
  {
    if xs == [] then []
    else if xs[|xs| - 1].Some? then Somes(xs[..|xs| - 1]) + [xs[|xs| - 1].value]
    else Somes(xs[..|xs| - 1])
  }

  /** There are no more values than options, and a value is there exactly when some option holds it. */
  lemma {:induction false} SomesFacts<T>(xs: seq<Option<T>>, v: T)
    ensures |Somes(xs)| <= |xs|
    ensures v in Somes(xs) <==> exists k :: 0 <= k < |xs| && xs[k] == Some(v)
    decreases |xs|
  {
    if xs != [] {
      var init := xs[..|xs| - 1];
      SomesFacts(init, v);
      if exists k :: 0 <= k < |xs| && xs[k] == Some(v) {
        var k :| 0 <= k < |xs| && xs[k] == Some(v);
        if k < |init| {
          assert init[k] == xs[k];
        }
      }
      if v in Somes(init) {
        var k :| 0 <= k < |init| && init[k] == Some(v);
        assert xs[k] == init[k];
      }
    }
  }

  function LinePoints(lines: seq<string>): (ps: seq<Option<Point3>>)
    ensures |ps| == |lines|
  {
    seq(|lines|, k requires 0 <= k < |lines| => PointOfLine(lines[k]))
  }

  /** The points of the lines, in line order. */
  function PointsOf(lines: seq<string>): seq<Point3> {
    Somes(LinePoints(lines))
  }

  /** A point is taken exactly from the lines that give it, and there are no more points than lines. */
  lemma PointsOfFacts(lines: seq<string>, p: Point3)
    ensures |PointsOf(lines)| <= |lines|
    ensures p in PointsOf(lines) <==> exists k :: 0 <= k < |lines| && PointOfLine(lines[k]) == Some(p)
  {
    var ps := LinePoints(lines);
    SomesFacts(ps, p);
    assert forall k :: 0 <= k < |lines| ==> ps[k] == PointOfLine(lines[k]);
  }

  lemma SomesStep<T>(xs: seq<Option<T>>, i: nat)
    requires i < |xs|
    ensures Somes(xs[..i + 1]) == Somes(xs[..i]) + if xs[i].Some? then [xs[i].value] else []
  {
    assert xs[..i + 1][..i] == xs[..i];
  }

  /** Lines 21-28 for one line. */
  method AddPoint(points: seq<Point3>, line: string) returns (points': seq<Point3>)
    ensures var p := PointOfLine(line); points' == points + if p.Some? then [p.value] else []
  {
    var p := PointOfLine(line);
    points' := points;
    if p.Some? {
      points' := points + [p.value];
    }
  }

  /** Lines 18-29: the point list of the XYZ text. */
  method ParsePoints(lines: seq<string>) returns (points: seq<Point3>)
    ensures points == PointsOf(lines)
  {
    ghost var ps := LinePoints(lines);
    points := [];
    var i := 0;
    while i < |lines|
      invariant 0 <= i <= |lines|
      invariant points == Somes(ps[..i])
    {
      SomesStep(ps, i);
      points := AddPoint(points, lines[i]);
      i := i + 1;
    }
    assert ps[..i] == ps;
  }

  /** The column of world x, counted from the first cell's centre. */
  function ColAt(h: GridHeader, x: real): int
    requires h.cellsize > 0.0
  {
    Round((x - h.xll) / h.cellsize)
  }

  /** The row of world y, counted from the top: row 0 is the northmost. */
  function RowAt(h: GridHeader, y: real): int
    requires h.cellsize > 0.0
  {
    (h.nrows - 1) - Round((y - h.yll) / h.cellsize)
  }

  predicate OnGrid(h: GridHeader, c: int, r: int) {
    0 <= c < h.ncols && 0 <= r < h.nrows
  }

  lemma FlatBelow(r: int, c: int, ncols: int, nrows: int)
    requires 0 <= c < ncols && 0 <= r < nrows
    ensures 0 <= r * ncols + c < ncols * nrows
  {
    assert r * ncols <= (nrows - 1) * ncols;
  }

  /** Point `p` lands in cell `k` of the row-major grid. */
  predicate Lands(h: GridHeader, p: Point3, k: int)
    requires h.cellsize > 0.0
  {
    OnGrid(h, ColAt(h, p.x), RowAt(h, p.y)) && RowAt(h, p.y) * h.ncols + ColAt(h, p.x) == k
  }

  /** Lines 36-47: the grid filled with no-data, then each point's z written to its cell, in order. */
  function Filled(points: seq<Point3>, h: GridHeader): (d: seq<real>)
    requires h.cellsize > 0.0 && h.ncols >= 0 && h.nrows >= 0
    ensures |d| == h.ncols * h.nrows
    decreases |points|
  {
    if points == [] then seq(h.ncols * h.nrows, _ => NoData)
    else Placed(Filled(points[..|points| - 1], h), h, points[|points| - 1])
  }

  /** Lines 40-46: point `p`'s z written to its cell, if that cell is on the grid. */
  function Placed(d: seq<real>, h: GridHeader, p: Point3): (d': seq<real>)
    requires h.cellsize > 0.0 && h.ncols >= 0 && h.nrows >= 0 && |d| == h.ncols * h.nrows
    ensures |d'| == |d|
  {
    var c, r := ColAt(h, p.x), RowAt(h, p.y);
    if OnGrid(h, c, r) then FlatBelow(r, c, h.ncols, h.nrows); d[r * h.ncols + c := p.z] else d
  }

  /**
   * A cell no point lands in keeps the no-data value; otherwise it holds the
   * z of the last point landing in it. Points off the grid change nothing.
   */
  lemma {:induction false} FilledFacts(points: seq<Point3>, h: GridHeader, k: int)
    requires h.cellsize > 0.0 && h.ncols >= 0 && h.nrows >= 0
    requires 0 <= k < h.ncols * h.nrows
    ensures (forall j :: 0 <= j < |points| ==> !Lands(h, points[j], k)) ==> Filled(points, h)[k] == NoData
    ensures forall j :: (0 <= j < |points| && Lands(h, points[j], k)
      && (forall m :: j < m < |points| ==> !Lands(h, points[m], k))) ==> Filled(points, h)[k] == points[j].z
    decreases |points|
  {
    if points != [] {
      var init := points[..|points| - 1];
      FilledFacts(init, h, k);
      assert forall j :: 0 <= j < |init| ==> init[j] == points[j];
    }
  }

  lemma FilledStep(points: seq<Point3>, i: nat, h: GridHeader)
    requires h.cellsize > 0.0 && h.ncols >= 0 && h.nrows >= 0 && i < |points|
    ensures Filled(points[..i + 1], h) == Placed(Filled(points[..i], h), h, points[i])
  {
    assert points[..i + 1][..i] == points[..i];
  }

  /** A terrain grid: its header and its raster. */
  datatype Dem = Dem(header: GridHeader, data: array<real>)

  /** Lines 32-47: the points written into a grid of no-data values. */
  method FillGrid(points: seq<Point3>, h: GridHeader) returns (data: array<real>)
    requires h.cellsize > 0.0 && h.ncols >= 0 && h.nrows >= 0
    ensures fresh(data) && data[..] == Filled(points, h)
  {
    data := new real[h.ncols * h.nrows](_ => NoData);
    assert data[..] == Filled(points[..0], h);
    for i := 0 to |points|
      invariant data[..] == Filled(points[..i], h)
    {
      FilledStep(points, i, h);
      PlacePoint(data, h, points[i]);
    }
    assert points[..|points|] == points;
  }

  /** The body of the loop in `createDemFromXYZ`: one point's z into its cell. */
  method PlacePoint(data: array<real>, h: GridHeader, p: Point3)
    requires h.cellsize > 0.0 && h.ncols >= 0 && h.nrows >= 0 && data.Length == h.ncols * h.nrows
    modifies data
    ensures data[..] == Placed(old(data[..]), h, p)
  {
    var col := ColAt(h, p.x);
    var row := RowAt(h, p.y);
    if col >= 0 && col < h.ncols && row >= 0 && row < h.nrows {
      FlatBelow(row, col, h.ncols, h.nrows);
      data[row * h.ncols + col] := p.z;
    }
  }

  /**
   * `createDemFromXYZ`: an error for empty text or a text without points;
   * otherwise the grid through the points, filled from them and then with
   * its gaps interpolated.
   */
  method CreateDemFromXyz(xyz: string) returns (r: Result<Dem>)
    ensures xyz == [] ==> r == Err("No XYZ data provided")
    ensures xyz != [] && PointsOf(XyzLines(xyz)) == [] ==> r == Err("Empty Point Cloud")
    ensures r.Ok? <==> xyz != [] && PointsOf(XyzLines(xyz)) != []
    ensures r.Ok? ==> var h := r.value.header;
      && HeaderFits(PointsOf(XyzLines(xyz)), h)
      && fresh(r.value.data) && r.value.data.Length == h.ncols * h.nrows
      && forall row: nat, col: nat :: row < h.nrows && col < h.ncols && row * h.ncols + col < r.value.data.Length ==>
        r.value.data[FlatIndex(row, col, h.ncols)] == FilledCell(Filled(PointsOf(XyzLines(xyz)), h), h.ncols, h.nrows, NoData, row, col)
  {
    if xyz == [] {
      return Err("No XYZ data provided");
    }
    var points := ParsePoints(XyzLines(xyz));
    var header := GetGridHeader(points);
    if header.Err? {
      return Err(header.message);
    }
    var h := header.value;
    var data := FillGrid(points, h);
    InterpolateGaps(data, h.ncols, h.nrows, NoData);
    return Ok(Dem(h, data));
  }

  // ------------------------------------------------------- grid to ASC

  /** `data.subarray(start, end)` for indices that are not negative. */
  function Subarray(data: seq<real>, start: nat, end: nat): (s: seq<real>)
    ensures |s| <= |data|
  {
    var from := if start < |data| then start else |data|;
    var to := if end < |data| then end else |data|;
    if from <= to then data[from..to] else []
  }

  /** `values.join(' ')`, each value shown by `show`. */
  function RowText(values: seq<real>, show: real -> string): string {
    if values == [] then []
    else Join(seq(|values|, k requires 0 <= k < |values| => show(values[k])), ' ')
  }

  /** Lines 61-66: the six header lines. */
  function HeaderLines(h: GridHeader): (lines: seq<string>)
    ensures |lines| == 6
  {
    HeaderLinesOf(IntToString(h.ncols), IntToString(h.nrows), ToFixed(h.xllcorner, 4),
                  ToFixed(h.yllcorner, 4), ToFixed(h.cellsize, 4))
  }

  /** The header lines for the texts of the five numbers. */
  function HeaderLinesOf(ncols: string, nrows: string, xll: string, yll: string, cellsize: string): (lines: seq<string>)
    ensures |lines| == 6
  {
    [ "ncols         " + ncols,
      "nrows         " + nrows,
      "xllcorner     " + xll,
      "yllcorner     " + yll,
      "cellsize      " + cellsize,
      "NODATA_value  -9999" ]
  }

  /** Lines 68-73: one line per row, the row's values from the raster. */
  function RowLines(data: seq<real>, h: GridHeader, show: real -> string): (lines: seq<string>)
    requires h.ncols >= 0 && h.nrows >= 0
    ensures |lines| == h.nrows
  {
    seq(h.nrows, i requires 0 <= i < h.nrows => RowLine(data, h.ncols, i, show))
  }

  /** Row `i`'s line: the `ncols` values from index `i * ncols` on. */
  function RowLine(data: seq<real>, ncols: nat, i: nat, show: real -> string): string {
    RowText(Subarray(data, i * ncols, i * ncols + ncols), show)
  }

  /** The ESRI ASCII text of the grid: each header and row line followed by a line feed. */
  function AscText(data: seq<real>, h: GridHeader, show: real -> string): string
    requires h.ncols >= 0 && h.nrows >= 0
  {
    Terminated(HeaderLines(h) + RowLines(data, h, show), '\n')
  }

  /** `gridToASC`: the header lines, then the rows, each line ended by a line feed. */
  method GridToAsc(data: array<real>, h: GridHeader, show: real -> string) returns (content: string)
    requires h.ncols >= 0 && h.nrows >= 0
    ensures content == AscText(data[..], h, show)
  {
    var header := HeaderLines(h);
    content := Terminated(header, '\n');
    var body := RowsText(data[..], h, show);
    content := content + body;
    TerminatedConcat(header, RowLines(data[..], h, show), '\n');
  }

  /** Lines 68-73: each row's values joined by spaces, and a line feed after each row. */
  method RowsText(data: seq<real>, h: GridHeader, show: real -> string) returns (body: string)
    requires h.ncols >= 0 && h.nrows >= 0
    ensures body == Terminated(RowLines(data, h, show), '\n')
  {
    ghost var rows := RowLines(data, h, show);
    body := [];
    for i := 0 to h.nrows
      invariant body == Terminated(rows[..i], '\n')
    {
      var line := RowLine(data, h.ncols, i, show);
      TerminatedAppend(rows[..i], line, '\n');
      assert rows[..i + 1] == rows[..i] + [line];
      body := body + line + "\n";
    }
    assert rows[..h.nrows] == rows;
  }

  predicate NoLineFeed(s: string) {
    forall k :: 0 <= k < |s| ==> s[k] != '\n'
  }

  lemma NumeralHasNoLineFeed(prefix: string, s: string)
    requires NoLineFeed(prefix) && Numeral(s)
    ensures NoLineFeed(prefix + s)
  {
    forall k | 0 <= k < |prefix + s|
      ensures (prefix + s)[k] != '\n'
    {
      if k >= |prefix| {
        assert (prefix + s)[k] == s[k - |prefix|];
      }
    }
  }

  lemma HeaderLinesHaveNoLineFeed(h: GridHeader)
    ensures forall i :: 0 <= i < 6 ==> NoLineFeed(HeaderLines(h)[i])
  {
    NumeralTexts(h.xllcorner, 4, h.ncols);
    NumeralTexts(h.yllcorner, 4, h.nrows);
    NumeralTexts(h.cellsize, 4, 0);
    HeaderTextHasNoLineFeed(IntToString(h.ncols), IntToString(h.nrows), ToFixed(h.xllcorner, 4),
                            ToFixed(h.yllcorner, 4), ToFixed(h.cellsize, 4));
  }

  lemma HeaderTextHasNoLineFeed(ncols: string, nrows: string, xll: string, yll: string, cellsize: string)
    requires Numeral(ncols) && Numeral(nrows) && Numeral(xll) && Numeral(yll) && Numeral(cellsize)
    ensures forall i :: 0 <= i < 6 ==> NoLineFeed(HeaderLinesOf(ncols, nrows, xll, yll, cellsize)[i])
  {
    NumeralHasNoLineFeed("ncols         ", ncols);
    NumeralHasNoLineFeed("nrows         ", nrows);
    NumeralHasNoLineFeed("xllcorner     ", xll);
    NumeralHasNoLineFeed("yllcorner     ", yll);
    NumeralHasNoLineFeed("cellsize      ", cellsize);
  }

  lemma RowTextHasNoLineFeed(values: seq<real>, show: real -> string)
    requires forall v :: NoLineFeed(show(v))
    ensures NoLineFeed(RowText(values, show))
  {
    if values != [] {
      var parts := seq(|values|, k requires 0 <= k < |values| => show(values[k]));
      forall i | 0 <= i < |parts|
        ensures NoLineFeed(parts[i])
      {
        var v := values[i];
        assert parts[i] == show(v);
        assert NoLineFeed(show(v));
      }
      JoinAvoids(parts, ' ', '\n');
    }
  }

  lemma RowLinesHaveNoLineFeed(data: seq<real>, h: GridHeader, show: real -> string)
    requires h.ncols >= 0 && h.nrows >= 0
    requires forall v :: NoLineFeed(show(v))
    ensures forall i :: 0 <= i < h.nrows ==> NoLineFeed(RowLines(data, h, show)[i])
  {
    forall i | 0 <= i < h.nrows
      ensures NoLineFeed(RowLines(data, h, show)[i])
    {
      RowTextHasNoLineFeed(Subarray(data, i * h.ncols, i * h.ncols + h.ncols), show);
      assert RowLines(data, h, show)[i] == RowLine(data, h.ncols, i, show);
    }
  }

  /**
   * The text has six header lines, then exactly `nrows` data lines, one per
   * row, and nothing after the last line feed, as long as no shown value
   * holds a line feed.
   */
  lemma AscTextLines(data: seq<real>, h: GridHeader, show: real -> string)
    requires h.ncols >= 0 && h.nrows >= 0
    requires forall v :: NoLineFeed(show(v))
    ensures Split(AscText(data, h, show), '\n') == HeaderLines(h) + RowLines(data, h, show) + [[]]
    ensures |Split(AscText(data, h, show), '\n')| == 6 + h.nrows + 1
  {
    var header, rows := HeaderLines(h), RowLines(data, h, show);
    HeaderLinesHaveNoLineFeed(h);
    RowLinesHaveNoLineFeed(data, h, show);
    ConcatHasNoLineFeed(header, rows);
    SplitTerminated(header + rows, '\n');
  }

  lemma ConcatHasNoLineFeed(a: seq<string>, b: seq<string>)
    requires forall i :: 0 <= i < |a| ==> NoLineFeed(a[i])
    requires forall i :: 0 <= i < |b| ==> NoLineFeed(b[i])
    ensures forall i :: 0 <= i < |a + b| ==> NoLineFeed((a + b)[i])
  {
    forall i | 0 <= i < |a + b|
      ensures NoLineFeed((a + b)[i])
    {
      if i >= |a| {
        assert (a + b)[i] == b[i - |a|];
      }
    }
  }

  // ----------------------------------------------------- baking buildings

  datatype Geometry = Geometry(kind: string, coordinates: seq<seq<Point>>)

  /** A terrain modification: its type, its geometry if any, and its height property if set. */
  datatype Modification = Modification(kind: string, geometry: Option<Geometry>, height: Option<real>)

  /** Lines 102 and 125: a building with a polygon geometry that has an outer ring. */
  predicate Burns(m: Modification) {
    && m.kind == "BUILDING"
    && m.geometry.Some? && m.geometry.value.kind == "Polygon"
    && |m.geometry.value.coordinates| > 0
  }

  /** The outer ring of the building's polygon. */
  function Outline(m: Modification): seq<Point>
    requires Burns(m)
  {
    m.geometry.value.coordinates[0]
  }

  /** Line 128: the height property, or 10 when it is missing or 0. */
  function HeightOf(m: Modification): real {
    if m.height.None? || m.height.value == 0.0 then DefaultHeight else m.height.value
  }

  /** Lines 139-140: the grid cell of a vertex. */
  function VertexCol(g: GridHeader, p: Point): int
    requires g.cellsize > 0.0
  {
    Round((p.x - g.xll) / g.cellsize)
  }

  function VertexRow(g: GridHeader, p: Point): int
    requires g.cellsize > 0.0
  {
    (g.nrows - 1) - Round((p.y - g.yll) / g.cellsize)
  }

  function Cols(g: GridHeader, ring: seq<Point>): (cs: seq<int>)
    requires g.cellsize > 0.0
    ensures |cs| == |ring|
  {
    seq(|ring|, i requires 0 <= i < |ring| => VertexCol(g, ring[i]))
  }

  function Rows(g: GridHeader, ring: seq<Point>): (rs: seq<int>)
    requires g.cellsize > 0.0
    ensures |rs| == |ring|
  {
    seq(|ring|, i requires 0 <= i < |ring| => VertexRow(g, ring[i]))
  }

  /** The running minimum of lines 142 and 144, starting from `init`. */
  function Lowest(init: int, xs: seq<int>): int
    decreases |xs|
  {
    if xs == [] then init else Min(Lowest(init, xs[..|xs| - 1]), xs[|xs| - 1])
  }

  /** The running maximum of lines 143 and 145, starting from `init`. */
  function Highest(init: int, xs: seq<int>): int
    decreases |xs|
  {
    if xs == [] then init else Max(Highest(init, xs[..|xs| - 1]), xs[|xs| - 1])
  }

  /** The minimum is below the start and every element, and is the start or one of them. */
  lemma {:induction false} LowestFacts(init: int, xs: seq<int>)
    ensures Lowest(init, xs) <= init && forall i :: 0 <= i < |xs| ==> Lowest(init, xs) <= xs[i]
    ensures Lowest(init, xs) == init || exists i :: 0 <= i < |xs| && Lowest(init, xs) == xs[i]
    decreases |xs|
  {
    if xs != [] {
      var init' := xs[..|xs| - 1];
      LowestFacts(init, init');
      assert forall i :: 0 <= i < |init'| ==> init'[i] == xs[i];
    }
  }

  lemma {:induction false} HighestFacts(init: int, xs: seq<int>)
    ensures Highest(init, xs) >= init && forall i :: 0 <= i < |xs| ==> Highest(init, xs) >= xs[i]
    ensures Highest(init, xs) == init || exists i :: 0 <= i < |xs| && Highest(init, xs) == xs[i]
    decreases |xs|
  {
    if xs != [] {
      var init' := xs[..|xs| - 1];
      HighestFacts(init, init');
      assert forall i :: 0 <= i < |init'| ==> init'[i] == xs[i];
    }
  }

  /** An inclusive range of columns and rows. */
  datatype CellBox = CellBox(minC: int, maxC: int, minR: int, maxR: int)

  /** Lines 131-152: the vertices' cell range, clamped to the grid. */
  function BoxOf(g: GridHeader, ring: seq<Point>): CellBox
    requires g.cellsize > 0.0
  {
    CellBox(Max(0, Lowest(g.ncols, Cols(g, ring))), Min(g.ncols - 1, Highest(0, Cols(g, ring))),
            Max(0, Lowest(g.nrows, Rows(g, ring))), Min(g.nrows - 1, Highest(0, Rows(g, ring))))
  }

  /** Lines 98-99: the world position of a cell's reference point. */
  function CellPoint(g: GridHeader, c: int, r: int): Point {
    Point(g.xll + (c as real) * g.cellsize, g.yll + (((g.nrows - 1) - r) as real) * g.cellsize)
  }

  function RowOfIndex(k: int, ncols: int): int
    requires ncols > 0
  {
    k / ncols
  }

  function ColOfIndex(k: int, ncols: int): int
    requires ncols > 0
  {
    k % ncols
  }

  /** An index is its row times the width plus its column, with the column below the width. */
  lemma IndexParts(k: int, ncols: int)
    requires ncols > 0
    ensures k == RowOfIndex(k, ncols) * ncols + ColOfIndex(k, ncols) && 0 <= ColOfIndex(k, ncols) < ncols
  {
  }

  lemma FlatIndexParts(r: int, c: int, ncols: int)
    requires ncols > 0 && 0 <= c < ncols
    ensures RowOfIndex(r * ncols + c, ncols) == r && ColOfIndex(r * ncols + c, ncols) == c
  {
    var k := r * ncols + c;
    var q, m := RowOfIndex(k, ncols), ColOfIndex(k, ncols);
    IndexParts(k, ncols);
    SameRow(q, m, r, c, ncols);
  }

  lemma SameRow(q: int, m: int, r: int, c: int, n: int)
    requires n > 0 && 0 <= m < n && 0 <= c < n && q * n + m == r * n + c
    ensures q == r && m == c
  {
    if q > r {
      MulAtLeast(q - r, n);
    } else if q < r {
      MulAtLeast(r - q, n);
    }
  }

  lemma MulAtLeast(a: int, n: int)
    requires a >= 1 && n > 0
    ensures a * n >= n
  {
  }

  /**
   * Lines 155-175: cell `k` of raster `s` is raised: its column and row lie
   * in the clamped box, its reference point lies in the ring, and its value
   * is above the no-data floor.
   */
  predicate Raised(g: GridHeader, b: CellBox, ring: seq<Point>, s: seq<real>, k: int)
    requires g.ncols > 0 && 0 <= k < |s|
  {
    var r, c := RowOfIndex(k, g.ncols), ColOfIndex(k, g.ncols);
    && b.minR <= r <= b.maxR && b.minC <= c <= b.maxC
    && PointInPolygon(CellPoint(g, c, r), ring)
    && s[k] > BurnFloor
  }

  /** `applyBuilding` on raster `s`: every raised cell gains the building's height, the others keep their value. */
  function Building(s: seq<real>, g: GridHeader, m: Modification): (t: seq<real>)
    requires g.cellsize > 0.0
    ensures |t| == |s|
  {
    if !Burns(m) || g.ncols <= 0 then s
    else
      var b := BoxOf(g, Outline(m));
      seq(|s|, k requires 0 <= k < |s| => if Raised(g, b, Outline(m), s, k) then s[k] + HeightOf(m) else s[k])
  }

  /**
   * A building changes a cell only when the cell lies on the grid, no
   * further left or up than the leftmost and topmost vertex cell, no further
   * right or down than the rightmost and lowest one (or in column or row 0),
   * its reference point lies in the outline and its value is above the
   * no-data floor; the cell then gains the height.
   */
  lemma BuildingChanges(s: seq<real>, g: GridHeader, m: Modification, k: int)
    requires g.cellsize > 0.0 && 0 <= k < |s|
    ensures Building(s, g, m)[k] != s[k] ==> (
      && Burns(m) && g.ncols > 0
      && Building(s, g, m)[k] == s[k] + HeightOf(m) && s[k] > BurnFloor
      && var r, c, ring := RowOfIndex(k, g.ncols), ColOfIndex(k, g.ncols), Outline(m);
      && OnGrid(g, c, r)
      && PointInPolygon(CellPoint(g, c, r), ring)
      && (exists i :: 0 <= i < |ring| && VertexCol(g, ring[i]) <= c)
      && (exists i :: 0 <= i < |ring| && VertexRow(g, ring[i]) <= r)
      && (c == 0 || exists i :: 0 <= i < |ring| && VertexCol(g, ring[i]) >= c)
      && (r == 0 || exists i :: 0 <= i < |ring| && VertexRow(g, ring[i]) >= r))
  {
    if Building(s, g, m)[k] != s[k] {
      var ring := Outline(m);
      var cs, rs := Cols(g, ring), Rows(g, ring);
      LowestFacts(g.ncols, cs);
      LowestFacts(g.nrows, rs);
      HighestFacts(0, cs);
      HighestFacts(0, rs);
    }
  }

  /** Lines 84-107: the buildings among the modifications applied in order; the others are skipped. */
  function Baked(s: seq<real>, g: GridHeader, mods: seq<Modification>): (t: seq<real>)
    requires g.cellsize > 0.0
    ensures |t| == |s|
    decreases |mods|
  {
    if mods == [] then s else Building(Baked(s, g, mods[..|mods| - 1]), g, mods[|mods| - 1])
  }

  /** The modifications that burn a building, in order. */
  function Buildings(mods: seq<Modification>): (bs: seq<Modification>)
    ensures forall i :: 0 <= i < |bs| ==> Burns(bs[i])
    decreases |mods|
  {
    if mods == [] then []
    else if Burns(mods[|mods| - 1]) then Buildings(mods[..|mods| - 1]) + [mods[|mods| - 1]]
    else Buildings(mods[..|mods| - 1])
  }

  /** Only buildings with a polygon outline matter: baking just those gives the same raster. */
  lemma {:induction false} BakedOnlyBuildings(s: seq<real>, g: GridHeader, mods: seq<Modification>)
    requires g.cellsize > 0.0
    ensures Baked(s, g, mods) == Baked(s, g, Buildings(mods))
    decreases |mods|
  {
    if mods != [] {
      var init, m := mods[..|mods| - 1], mods[|mods| - 1];
      BakedOnlyBuildings(s, g, init);
      if Burns(m) {
        var bs := Buildings(init) + [m];
        assert bs[..|bs| - 1] == Buildings(init);
      }
    }
  }

  /** Lines 131-146: the running extremes of the vertex cells. */
  method VertexBounds(g: GridHeader, ring: seq<Point>) returns (minC: int, maxC: int, minR: int, maxR: int)
    requires g.cellsize > 0.0
    ensures minC == Lowest(g.ncols, Cols(g, ring)) && maxC == Highest(0, Cols(g, ring))
    ensures minR == Lowest(g.nrows, Rows(g, ring)) && maxR == Highest(0, Rows(g, ring))
  {
    minC, maxC, minR, maxR := g.ncols, 0, g.nrows, 0;
    var cs, rs := Cols(g, ring), Rows(g, ring);
    var i := 0;
    while i < |ring|
      invariant 0 <= i <= |ring|
      invariant minC == Lowest(g.ncols, cs[..i]) && maxC == Highest(0, cs[..i])
      invariant minR == Lowest(g.nrows, rs[..i]) && maxR == Highest(0, rs[..i])
    {
      assert cs[..i + 1][..i] == cs[..i] && rs[..i + 1][..i] == rs[..i];
      var c := Round((ring[i].x - g.xll) / g.cellsize);
      var r := (g.nrows - 1) - Round((ring[i].y - g.yll) / g.cellsize);
      assert c == cs[i] && r == rs[i];
      if c < minC { minC := c; }
      if c > maxC { maxC := c; }
      if r < minR { minR := r; }
      if r > maxR { maxR := r; }
      i := i + 1;
    }
    assert cs[..i] == cs && rs[..i] == rs;
  }

  /** Cell `k` is in a row before `row`, or in `row` before column `col`. */
  predicate VisitedBefore(k: int, ncols: int, row: int, col: int)
    requires ncols > 0
  {
    RowOfIndex(k, ncols) < row || (RowOfIndex(k, ncols) == row && ColOfIndex(k, ncols) < col)
  }

  /** The raster after the cells visited before (`row`, `col`) were processed. */
  ghost predicate BurntUpTo(raster: seq<real>, orig: seq<real>, g: GridHeader, b: CellBox, ring: seq<Point>,
                            height: real, row: int, col: int)
    requires g.ncols > 0 && |raster| == |orig|
  {
    forall k :: 0 <= k < |raster| ==>
      raster[k] == if VisitedBefore(k, g.ncols, row, col) && Raised(g, b, ring, orig, k) then orig[k] + height else orig[k]
  }

  /** Moving past cell (`row`, `col`) changes the visited set only at that cell. */
  lemma VisitStep(k: int, ncols: int, row: int, col: int)
    requires ncols > 0 && 0 <= col < ncols && k != row * ncols + col
    ensures VisitedBefore(k, ncols, row, col + 1) <==> VisitedBefore(k, ncols, row, col)
  {
    IndexParts(k, ncols);
  }

  /** Before the box's first column, and after its last, a row holds no raised cell. */
  lemma RowEdges(raster: seq<real>, orig: seq<real>, g: GridHeader, b: CellBox, ring: seq<Point>,
                 height: real, row: int, col: int)
    requires g.ncols > 0 && |raster| == |orig|
    requires col > b.maxC
    requires BurntUpTo(raster, orig, g, b, ring, height, row, col)
    ensures BurntUpTo(raster, orig, g, b, ring, height, row + 1, b.minC)
  {
    forall k | 0 <= k < |raster|
      ensures raster[k] == if VisitedBefore(k, g.ncols, row + 1, b.minC) && Raised(g, b, ring, orig, k) then orig[k] + height else orig[k]
    {
      if Raised(g, b, ring, orig, k) {
        assert VisitedBefore(k, g.ncols, row + 1, b.minC) <==> VisitedBefore(k, g.ncols, row, col);
      }
    }
  }

  /** Lines 158-174: one row of the box. */
  method BurnRow(raster: array<real>, g: GridHeader, b: CellBox, ring: seq<Point>, height: real, row: int,
                 ghost orig: seq<real>)
    modifies raster
    requires g.ncols > 0 && raster.Length == |orig| && 0 <= b.minC && b.maxC < g.ncols
    requires 0 <= b.minR <= row <= b.maxR
    requires BurntUpTo(raster[..], orig, g, b, ring, height, row, b.minC)
    ensures BurntUpTo(raster[..], orig, g, b, ring, height, row + 1, b.minC)
  {
    var c := b.minC;
    while c <= b.maxC
      invariant b.minC <= c <= if b.minC <= b.maxC then b.maxC + 1 else b.minC
      invariant BurntUpTo(raster[..], orig, g, b, ring, height, row, c)
    {
      var cx := g.xll + (c as real) * g.cellsize;
      var cy := g.yll + (((g.nrows - 1) - row) as real) * g.cellsize;
      var inside := IsPointInPolygon(Point(cx, cy), ring);
      var idx := row * g.ncols + c;
      FlatIndexParts(row, c, g.ncols);
      assert CellPoint(g, c, row) == Point(cx, cy);
      ghost var before := raster[..];
      if inside && idx < raster.Length && raster[idx] > BurnFloor {
        assert raster[idx] == orig[idx];
        raster[idx] := raster[idx] + height;
      }
      forall k | 0 <= k < raster.Length
        ensures raster[k] == if VisitedBefore(k, g.ncols, row, c + 1) && Raised(g, b, ring, orig, k) then orig[k] + height else orig[k]
      {
        if k != idx {
          VisitStep(k, g.ncols, row, c);
          assert raster[k] == before[k];
        }
      }
      c := c + 1;
    }
    RowEdges(raster[..], orig, g, b, ring, height, row, c);
  }

  /** Before the box's first row nothing is raised, and past its last row everything raised has been. */
  lemma RowsStart(orig: seq<real>, g: GridHeader, b: CellBox, ring: seq<Point>, height: real)
    requires g.ncols > 0
    ensures BurntUpTo(orig, orig, g, b, ring, height, b.minR, b.minC)
  {
  }

  lemma RowsEnd(raster: seq<real>, orig: seq<real>, g: GridHeader, b: CellBox, ring: seq<Point>, height: real, row: int)
    requires g.ncols > 0 && |raster| == |orig| && row > b.maxR
    requires BurntUpTo(raster, orig, g, b, ring, height, row, b.minC)
    ensures forall k :: 0 <= k < |raster| ==> raster[k] == if Raised(g, b, ring, orig, k) then orig[k] + height else orig[k]
  {
  }

  /** `applyBuilding` on the raster, in place. */
  method ApplyBuilding(raster: array<real>, g: GridHeader, m: Modification)
    modifies raster
    requires g.cellsize > 0.0
    ensures raster[..] == Building(old(raster[..]), g, m)
  {
    if !Burns(m) {
      return;
    }
    var ring := m.geometry.value.coordinates[0];
    var height := if m.height.None? || m.height.value == 0.0 then DefaultHeight else m.height.value;
    var minC, maxC, minR, maxR := VertexBounds(g, ring);
    minC := Max(0, minC);
    maxC := Min(g.ncols - 1, maxC);
    minR := Max(0, minR);
    maxR := Min(g.nrows - 1, maxR);
    if g.ncols <= 0 {
      return;
    }
    var b := CellBox(minC, maxC, minR, maxR);
    assert b == BoxOf(g, ring);
    ghost var orig := raster[..];
    RowsStart(orig, g, b, ring, height);
    var r := minR;
    while r <= maxR
      invariant minR <= r <= if minR <= maxR then maxR + 1 else minR
      invariant BurntUpTo(raster[..], orig, g, b, ring, height, r, minC)
    {
      BurnRow(raster, g, b, ring, height, r, orig);
      r := r + 1;
    }
    RowsEnd(raster[..], orig, g, b, ring, height, r);
    assert raster[..] == Building(orig, g, m);
  }

  /**
   * `bakeTerrain`: a new raster of the base's length holding the base with
   * the buildings burnt in, in order; the base is left as it was.
   */
  method BakeTerrain(base: array<real>, g: GridHeader, mods: seq<Modification>) returns (raster: array<real>)
    requires g.cellsize > 0.0
    ensures fresh(raster) && raster.Length == base.Length
    ensures raster[..] == Baked(base[..], g, mods)
    ensures mods == [] ==> raster[..] == base[..]
  {
    raster := new real[base.Length](k requires 0 <= k < base.Length reads base => base[k]);
    assert raster[..] == base[..];
    if mods == [] {
      return;
    }
    var i := 0;
    while i < |mods|
      invariant 0 <= i <= |mods|
      invariant raster[..] == Baked(base[..], g, mods[..i])
      modifies raster
    {
      assert mods[..i + 1][..i] == mods[..i];
      if mods[i].kind == "BUILDING" {
        ApplyBuilding(raster, g, mods[i]);
      } else {
        assert !Burns(mods[i]);
      }
      i := i + 1;
    }
    assert mods[..i] == mods;
  }
}
