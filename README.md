# quagg_page_public core, modelled in Dafny

This project models the computational core of the flood and sewer planning
web application: the C++ driver of the LISFLOOD-FP engine and the JavaScript
components around it that rasterise, parse, classify and store. It also proves
properties of that model. Each source file is one Dafny module. The model is
written in the source's own form. Loops that change variables are methods with
invariants, proved against specification functions. Stores that change their
fields are classes. Pure lookups and folds are functions, with lemmas about them.

- `LisfloodDriver` (`lib_bmi.cpp`): `run_lisflood` builds a two-entry
  mutable argv ("lisflood" and the path, each a fresh, NUL-terminated
  character array), calls the engine's `init`, finalises at once when it
  fails, and otherwise prepares the solver and steps while
  `t < Sim_Time`, printing a heartbeat every 100 steps. The engine is
  an object whose behaviour is data: the code `init` returns, and the
  clock readings after each step. A ghost phase and a ghost call log turn
  the lifecycle (final exactly once, preparation only after a successful
  init and before any step) into contracts.
- `BoundaryTools`, `Rasterizer`: Bresenham line cells, polyline cells
  without repeats in first-seen order, cells of a polygon (ray casting), the
  grid header of a point cloud, gap interpolation in place, the spiral search
  for the nearest valid cell, the DEM built from XYZ text, the ASC text of a
  grid, and buildings burnt into a copy of a raster. The Rasterizer's own
  copy of `isPointInPolygon` (`Rasterizer.js:181-191`) is the same algorithm
  as BoundaryTools' and uses the same model.
- `OutputProcessor`: the ASC byte crawler behind `parseAsync` and
  `parseHeader`, the header scan that ends after the sixth newline, and
  the statistics (min, max, negative depth).
- `SwmmOut`: the SWMM binary output reader, as a class whose offset
  the read methods advance. It covers the header and its magic number, the
  ids, the scan for the system-variable signature, inferred variable counts,
  the trailer jump, the bounded step loop and the time post-processing. It
  also covers the report table scanner and the link flow summary.
- `RainModel`: block rain, and the Euler type II model rain. Intensities
  are interpolated from the duration table, blocks are sorted by height and
  placed around the peak slot `floor(steps * 0.3)`.
- `IsybauStore`, `EmailStore`, `HydraulicStore`: stores as classes.
  - IsybauStore has an undo/redo history bounded to 20 snapshots, cascading
    node removal, edge addition and area removal.
  - EmailStore has read and unread counters, folder selection, replies and
    deletion.
  - HydraulicStore has hydrographs ("Ganglinien") and their assignments to
    geo objects.
- `Mappings`, `KostraHelper`, `Hydrology`, `SwmmBuilder`:
  - runoff coefficients, roughness, code mappings and Horton parameters;
  - CRS detection from a coordinate pair;
  - time of concentration, SCS runoff, flood-wave routing, retention volume
    and the factorial;
  - node classification with its outfall fallback, unique subcatchment names
    and area splitting, and the conduit and cross-section rules of `addLinks`.
- Shared modules:
  - `JsNum` models `parseFloat`, `Math.round`, `toFixed` and `padEnd`.
  - `JsText` models `trim` and `split(/\s+/)`.
  - `Sorting` is a stable sort by key, standing in for `Array.prototype.sort`
    with a comparator.
  - `Bytes` is the byte type and text decoding.
  - `Wrappers` holds `Option` and `Result`.

JavaScript numbers are modelled as mathematical reals. Where the source tests
`isNaN`, NaN is an explicit case. Thrown errors and `null` results are
`Result`/`Option` values. Clocks, `crypto.randomUUID()`, `Date.now()`,
`Math.random()`, `Math.sqrt` and the IEEE float decoders are parameters of
the operations that use them.

## Model

The table lists every member whose contract states something about the
source. A lemma's row names the definition it is about; those definitions,
which carry no contract of their own, are listed with their source lines
under "## Definitions".

| member | source | states |
|---|---|---|
| LisfloodDriver.StepsFrom | client/src/features/flood-2D/solverHydro/src/lisflood-fp-bmi-v5.9/lib_bmi.cpp:48-59 | the loop ends at the first clock reading that fails `t < Sim_Time`, and that reading is the step count; every earlier reading passes the test; `None` means every reading from `k` on, to the end of the script, still passes it |
| LisfloodDriver.StepsTaken | client/src/features/flood-2D/solverHydro/src/lisflood-fp-bmi-v5.9/lib_bmi.cpp:48-59 | the steps taken (the step count of a finished run, the whole script otherwise) never exceed the script |
| LisfloodDriver.FinishesIff | client/src/features/flood-2D/solverHydro/src/lisflood-fp-bmi-v5.9/lib_bmi.cpp:48 | `StepCount` is present exactly when some reading of the prepared clock or of the script fails the loop condition (both directions) |
| LisfloodDriver.Steps | client/src/features/flood-2D/solverHydro/src/lisflood-fp-bmi-v5.9/lib_bmi.cpp:48-51 | `n` loop rounds are exactly `n` calls of `iterateq_step` |
| LisfloodDriver.RunLogProtocol | client/src/features/flood-2D/solverHydro/src/lisflood-fp-bmi-v5.9/lib_bmi.cpp:32-70 | about `RunLog`: whatever `init` returns, `init` is called once and first; `final` is called once and last after a failed `init` or a finished loop, and not at all while the loop has not ended; `init_iterateq` once only after success; steps only after success and after the preparation |
| LisfloodDriver.CountSteps | client/src/features/flood-2D/solverHydro/src/lisflood-fp-bmi-v5.9/lib_bmi.cpp:48-51 | about `Steps`: `n` loop rounds hold `n` step calls and no call of any other kind |
| LisfloodDriver.CountSuccessLog | client/src/features/flood-2D/solverHydro/src/lisflood-fp-bmi-v5.9/lib_bmi.cpp:32-70 | about `RunLog`: on a successful `init` the run makes one call each of `init` and `init_iterateq`, `n` step calls, and one `final` call exactly when the loop ended |
| LisfloodDriver.HeartbeatsAreMultiples | client/src/features/flood-2D/solverHydro/src/lisflood-fp-bmi-v5.9/lib_bmi.cpp:53-58 | about `Heartbeats`: `n` steps print `n / 100` heartbeats; the k-th reports step `100 (k + 1)` with the clock read right after that step |
| LisfloodDriver.HeartbeatIff | client/src/features/flood-2D/solverHydro/src/lisflood-fp-bmi-v5.9/lib_bmi.cpp:53-58 | about `Heartbeats`: step `iter` prints a heartbeat exactly when it was run and `iter % 100 == 0` (both directions) |
| LisfloodDriver.StepsRunWholeScript | client/src/features/flood-2D/solverHydro/src/lisflood-fp-bmi-v5.9/lib_bmi.cpp:48 | about `StepsFrom`: when only the last clock reading fails the loop condition, the loop runs every step of the script |
| LisfloodDriver.NoStepsWhenAlreadyDone | client/src/features/flood-2D/solverHydro/src/lisflood-fp-bmi-v5.9/lib_bmi.cpp:48 | about `StepCount`: a prepared clock already at or past the target runs no step and prints no heartbeat |
| LisfloodDriver.StalledClockNeverFinishes | client/src/features/flood-2D/solverHydro/src/lisflood-fp-bmi-v5.9/lib_bmi.cpp:48-51 | about `StepCount`: a clock short of its target whose steps never advance it does not end the loop; the driver takes every step it is given |
| LisfloodDriver.RecedingTargetNeverFinishes | client/src/features/flood-2D/solverHydro/src/lisflood-fp-bmi-v5.9/lib_bmi.cpp:48-51 | about `StepCount`: when every reading after a step is still short of its (possibly moving) target, the loop does not end |
| LisfloodDriver.UniformStepsOfTwoAndAHalf | client/src/features/flood-2D/solverHydro/src/lisflood-fp-bmi-v5.9/lib_bmi.cpp:47-58 | about `StepCount` and `Heartbeats`: a clock from 0 s to 250 s in steps of 2.5 s runs 100 steps and prints exactly one heartbeat, for step 100 at 250 s |
| LisfloodDriver.ArgvContents | client/src/features/flood-2D/solverHydro/src/lisflood-fp-bmi-v5.9/lib_bmi.cpp:26-29 | the argument vector yields one string per entry |
| LisfloodDriver.ArgvContentsPair | client/src/features/flood-2D/solverHydro/src/lisflood-fp-bmi-v5.9/lib_bmi.cpp:26-29 | about `ArgvContents`: a two-entry vector yields the two NUL-terminated strings, in order |
| LisfloodDriver.Engine.constructor | client/src/features/flood-2D/solverHydro/src/lisflood-fp-bmi-v5.9/lib_bmi.cpp:13-14 | a fresh engine, with any init code, start clock and step script, has an empty call log, no steps done and the given behaviour |
| LisfloodDriver.Engine.Init | client/src/features/flood-2D/solverHydro/src/lisflood-fp-bmi-v5.9/lib_bmi.cpp:32 | `init` returns the engine's code, records the argument strings it was given and moves to initialised or failed |
| LisfloodDriver.Engine.InitIterateq | client/src/features/flood-2D/solverHydro/src/lisflood-fp-bmi-v5.9/lib_bmi.cpp:42 | after a successful `init`, preparation sets the clock to its start time, target and step |
| LisfloodDriver.Engine.IterateqStep | client/src/features/flood-2D/solverHydro/src/lisflood-fp-bmi-v5.9/lib_bmi.cpp:51 | one step logs one call and moves the clock record to the engine's next reading; the clock is never assumed to advance |
| LisfloodDriver.Engine.Final | client/src/features/flood-2D/solverHydro/src/lisflood-fp-bmi-v5.9/lib_bmi.cpp:34-38 | `final` is allowed after a failed `init` or after preparation, only once, and logs one call |
| LisfloodDriver.BuildArgv | client/src/features/flood-2D/solverHydro/src/lisflood-fp-bmi-v5.9/lib_bmi.cpp:22-29 | two fresh, distinct, writable buffers that hold "lisflood" and the parameter path, each NUL-terminated |
| LisfloodDriver.Iterate | client/src/features/flood-2D/solverHydro/src/lisflood-fp-bmi-v5.9/lib_bmi.cpp:47-59 | the loop ends exactly when `StepCount` is present (both directions), with the clock at or past the target; otherwise the script runs out with the clock short of it; either way it takes `StepsTaken` steps, logs only step calls and prints exactly the heartbeats of those steps |
| LisfloodDriver.RunLisflood | client/src/features/flood-2D/solverHydro/src/lisflood-fp-bmi-v5.9/lib_bmi.cpp:18-73 | the return code is `init`'s; the run finishes exactly when `init` failed or the loop ended, and only then is the engine finalised; the call log and the printed lines are those of `RunLog`/`RunOutput` for `StepsTaken` steps; a finished successful run ends with the clock at or past the target |
| BoundaryTools.StepStaysOnLine | client/src/features/flood-2D/middleware/BoundaryTools.js:33-42 | before the end cell the walk moves in x or y or both, and never past the end cell in either |
| BoundaryTools.WalkFrom | client/src/features/flood-2D/middleware/BoundaryTools.js:30-43 | the walk is never empty and starts at the current cell |
| BoundaryTools.WalkUnfold | client/src/features/flood-2D/middleware/BoundaryTools.js:30-43 | one step moves forward within the line's range, and the walk is the current cell followed by the walk from the next |
| BoundaryTools.WalkEndsAtEnd | client/src/features/flood-2D/middleware/BoundaryTools.js:33 | the walk ends at the end cell |
| BoundaryTools.WalkConnected | client/src/features/flood-2D/middleware/BoundaryTools.js:34-42 | each cell of the walk touches the next (8-neighbourhood) |
| BoundaryTools.WalkInBox | client/src/features/flood-2D/middleware/BoundaryTools.js:24-42 | every cell of the walk lies in the box the two end cells span |
| BoundaryTools.WalkAdvances | client/src/features/flood-2D/middleware/BoundaryTools.js:34-42 | the steps taken grow strictly along the walk |
| BoundaryTools.WalkDistinct | client/src/features/flood-2D/middleware/BoundaryTools.js:30-43 | no cell of the walk repeats |
| BoundaryTools.LineCellsShape | client/src/features/flood-2D/middleware/BoundaryTools.js:16-45 | the line starts at the rounded start, ends at the rounded end, is connected, repeats no cell and stays in the end cells' box |
| BoundaryTools.BresenhamStep | client/src/features/flood-2D/middleware/BoundaryTools.js:34-42 | one pass of the loop: x moves when `2 * err > -dy`, y when `2 * err < dx`, the error term follows, and the rest of the walk starts from there |
| BoundaryTools.DiscretizeLine | client/src/features/flood-2D/middleware/BoundaryTools.js:16-45 | the cells are exactly the line's walk between the rounded end points |
| BoundaryTools.Bresenham | client/src/features/flood-2D/middleware/BoundaryTools.js:23-44 | the loop gives exactly the walk from the first step |
| BoundaryTools.BresenhamMove | client/src/features/flood-2D/middleware/BoundaryTools.js:34-42 | the body of the loop gives the next cell of the walk and its error term |
| BoundaryTools.Dedup | client/src/features/flood-2D/middleware/BoundaryTools.js:140-146 | an element is kept exactly when it occurs |
| BoundaryTools.FirstIndex | client/src/features/flood-2D/middleware/BoundaryTools.js:142 | the index holds the element |
| BoundaryTools.FirstIndexIsFirst | client/src/features/flood-2D/middleware/BoundaryTools.js:142 | no earlier element is the one searched |
| BoundaryTools.FirstIndexOfPrefix | client/src/features/flood-2D/middleware/BoundaryTools.js:142 | appending an element keeps the first occurrence of an element already present |
| BoundaryTools.FirstIndexOfNew | client/src/features/flood-2D/middleware/BoundaryTools.js:142 | a new element first occurs where it is appended |
| BoundaryTools.DedupOrderedStep | client/src/features/flood-2D/middleware/BoundaryTools.js:140-146 | one more element keeps the kept elements in first-seen order |
| BoundaryTools.OrderWithNew | client/src/features/flood-2D/middleware/BoundaryTools.js:142-144 | a new element comes after every earlier first occurrence |
| BoundaryTools.OrderWithOld | client/src/features/flood-2D/middleware/BoundaryTools.js:142 | a repeated element changes no first occurrence |
| BoundaryTools.DedupFacts | client/src/features/flood-2D/middleware/BoundaryTools.js:140-146 | the kept elements repeat none and keep the order of their first occurrence |
| BoundaryTools.SegmentsCellsMembers | client/src/features/flood-2D/middleware/BoundaryTools.js:128-147 | a cell is among the first segments' cells exactly when one of these segments' lines holds it |
| BoundaryTools.PolylineCellsOrdered | client/src/features/flood-2D/middleware/BoundaryTools.js:124-149 | the polyline's cells repeat none and keep the order in which the segments first reach them |
| BoundaryTools.PolylineCellsCover | client/src/features/flood-2D/middleware/BoundaryTools.js:124-149 | a cell is among the polyline's cells exactly when some segment's line holds it |
| BoundaryTools.DiscretizePolyline | client/src/features/flood-2D/middleware/BoundaryTools.js:124-149 | the loops give exactly the segments' cells, each once, in first-seen order |
| BoundaryTools.DiscretizeSegment | client/src/features/flood-2D/middleware/BoundaryTools.js:129-138 | segment i's line between its end points in grid coordinates |
| BoundaryTools.AddUnseen | client/src/features/flood-2D/middleware/BoundaryTools.js:140-146 | appending the unseen cells of one segment extends the deduplicated list and keeps `seen` equal to its elements |
| BoundaryTools.IsPointInPolygon | client/src/features/flood-2D/middleware/BoundaryTools.js:102-114 | inside exactly when an odd number of edges cross the ray from the point |
| BoundaryTools.NoStraddleNoCrossing | client/src/features/flood-2D/middleware/BoundaryTools.js:109-110 | when no edge straddles the point's height no edge crosses the ray |
| BoundaryTools.OutsideVerticalRange | client/src/features/flood-2D/middleware/BoundaryTools.js:102-114 | a point above every vertex, or at or below every vertex, or with no vertices, is outside |
| BoundaryTools.BoundingBox | client/src/features/flood-2D/middleware/BoundaryTools.js:61-71 | none for no vertices; otherwise the least box holding every vertex, each side touching one |
| BoundaryTools.GetCellsInPolygon | client/src/features/flood-2D/middleware/BoundaryTools.js:57-94 | the cells of the box's index range whose centres lie inside, in row-major order; the box is `bounds` when given, else the vertices' bounding box; nothing for no vertices and no bounds |
| BoundaryTools.ScanRow | client/src/features/flood-2D/middleware/BoundaryTools.js:82-90 | one row adds exactly its selected cells, keeping row-major order |
| BoundaryTools.Flatten | client/src/features/flood-2D/middleware/BoundaryTools.js:160-166 | the points without their heights, in order |
| BoundaryTools.Xs | client/src/features/flood-2D/middleware/BoundaryTools.js:169 | the points' x values, in order |
| BoundaryTools.FirstGap | client/src/features/flood-2D/middleware/BoundaryTools.js:170-177 | the first gap above 0.001 between neighbouring sorted xs, else 1 |
| BoundaryTools.RoundedGapPositive | client/src/features/flood-2D/middleware/BoundaryTools.js:178 | a gap above 0.001 or 1 stays at least 0.001 rounded to thousandths |
| BoundaryTools.PointInGrid | client/src/features/flood-2D/middleware/BoundaryTools.js:180-181 | a point between the extremes falls into one of the rounded cell counts |
| BoundaryTools.GetGridHeader | client/src/features/flood-2D/middleware/BoundaryTools.js:157-192 | an error exactly for an empty cloud; otherwise the first cell is centred on the lowest x and y, the cell size is the rounded first gap, the corners lie half a cell lower, every point lies in a cell, and `ncols` and `nrows` are exactly the rounded offsets of the largest x and y plus one |
| BoundaryTools.PointsFitHeader | client/src/features/flood-2D/middleware/BoundaryTools.js:180-191 | every point lies in a cell of the header built from the bounding box |
| BoundaryTools.HeaderOfBox | client/src/features/flood-2D/middleware/BoundaryTools.js:160-191 | about `HeaderFits`: the header built from the bounding box and the first gap fits the cloud, its size included |
| BoundaryTools.LargestOfBox | client/src/features/flood-2D/middleware/BoundaryTools.js:160-165 | some point has the box's largest x and some its largest y, and no point lies beyond them |
| BoundaryTools.SpansLargestOfBox | client/src/features/flood-2D/middleware/BoundaryTools.js:180-181 | about `SpansLargest`: `Math.round((max - min) / cellSize) + 1` columns and rows reach exactly the points with the largest x and y |
| BoundaryTools.StatsAboveThreshold | client/src/features/flood-2D/middleware/BoundaryTools.js:215-221 | the valid neighbours' sum exceeds their count times the threshold |
| BoundaryTools.AddDataKeepsBound | client/src/features/flood-2D/middleware/BoundaryTools.js:217-220 | adding one valid value keeps the sum above the count times the threshold |
| BoundaryTools.FilledCellFacts | client/src/features/flood-2D/middleware/BoundaryTools.js:204-227 | a cell holding data keeps it, a gap without valid neighbours stays, and a gap with valid neighbours becomes data |
| BoundaryTools.StatsStep | client/src/features/flood-2D/middleware/BoundaryTools.js:208-223 | one more offset adds the neighbour there unless it is the cell itself or off the grid |
| BoundaryTools.NeighbourMean | client/src/features/flood-2D/middleware/BoundaryTools.js:205-223 | the sum and count of the valid neighbours of the cell in the original grid |
| BoundaryTools.AddNeighbour | client/src/features/flood-2D/middleware/BoundaryTools.js:210-221 | the body of the inner loop adds the neighbour at its offset |
| BoundaryTools.IndexBefore | client/src/features/flood-2D/middleware/BoundaryTools.js:203 | row-major order of cells is the order of their indices |
| BoundaryTools.InterpolateGaps | client/src/features/flood-2D/middleware/BoundaryTools.js:198-231 | every grid cell becomes its filled value computed from the original, in place; the values past the grid are untouched |
| BoundaryTools.RowStep | client/src/features/flood-2D/middleware/BoundaryTools.js:201-230 | filling one more row extends the filled rows by one and leaves the later ones original |
| BoundaryTools.FillRow | client/src/features/flood-2D/middleware/BoundaryTools.js:202-229 | one row's cells become their filled values and every cell outside the row stays |
| BoundaryTools.ColStep | client/src/features/flood-2D/middleware/BoundaryTools.js:202-229 | filling one more cell extends the filled part of the row by one |
| BoundaryTools.FillCell | client/src/features/flood-2D/middleware/BoundaryTools.js:203-228 | one cell becomes its filled value and no other cell changes |
| BoundaryTools.SearchRingColumn | client/src/features/flood-2D/middleware/BoundaryTools.js:255-268 | the first accepted cell of ring r at one column offset, by row offset, or none |
| BoundaryTools.SearchRing | client/src/features/flood-2D/middleware/BoundaryTools.js:254-269 | the first accepted cell of ring r in visiting order, or none in the ring |
| BoundaryTools.SearchRings | client/src/features/flood-2D/middleware/BoundaryTools.js:253-271 | the first accepted cell of the rings 1 to maxRadius in visiting order, or none in them |
| BoundaryTools.FindNearestValidCellAsWritten | client/src/features/flood-2D/middleware/BoundaryTools.js:242-272 | the start when its raw index holds a valid value, whether on the grid or not; else the first accepted ring cell |
| BoundaryTools.OffGridCentreAccepted | client/src/features/flood-2D/middleware/BoundaryTools.js:246-250 | the start (-1, 1) of a 2 x 2 grid is off the grid, yet its raw index holds a valid value |
| BoundaryTools.FindNearestValidCell | client/src/features/flood-2D/middleware/BoundaryTools.js:242-272 | the start when accepted, else the first accepted ring cell up to maxRadius; no accepted cell lies in a nearer ring, and none means no ring up to maxRadius holds one |
| Rasterizer.SomesFacts | client/src/features/flood-2D/middleware/Rasterizer.js:20-29 | there are no more points than lines, and a point is kept exactly when some line gives it |
| Rasterizer.LinePoints | client/src/features/flood-2D/middleware/Rasterizer.js:20-29 | one parse outcome per line |
| Rasterizer.PointsOfFacts | client/src/features/flood-2D/middleware/Rasterizer.js:18-29 | a point is in the list exactly when some line of the trimmed text gives it, and there are no more points than lines |
| Rasterizer.SomesStep | client/src/features/flood-2D/middleware/Rasterizer.js:22-28 | one more parse outcome adds its point exactly when it is present, that is when its line gave a point |
| Rasterizer.AddPoint | client/src/features/flood-2D/middleware/Rasterizer.js:21-28 | one line adds its point when it gives one, and nothing otherwise |
| Rasterizer.ParsePoints | client/src/features/flood-2D/middleware/Rasterizer.js:18-29 | the loop gives exactly the points of the lines, in line order |
| Rasterizer.FlatBelow | client/src/features/flood-2D/middleware/Rasterizer.js:43-44 | an on-grid cell's index lies inside the raster |
| Rasterizer.Filled | client/src/features/flood-2D/middleware/Rasterizer.js:36-47 | the filled raster has `ncols * nrows` cells |
| Rasterizer.Placed | client/src/features/flood-2D/middleware/Rasterizer.js:39-46 | writing one point keeps the raster's length |
| Rasterizer.FilledFacts | client/src/features/flood-2D/middleware/Rasterizer.js:36-47 | a cell no point lands in keeps -9999; otherwise it holds the z of the last point landing in it |
| Rasterizer.FilledStep | client/src/features/flood-2D/middleware/Rasterizer.js:38-47 | one more point is written on top of the raster of the points before it |
| Rasterizer.FillGrid | client/src/features/flood-2D/middleware/Rasterizer.js:36-47 | the loop gives a fresh raster equal to `Filled` |
| Rasterizer.PlacePoint | client/src/features/flood-2D/middleware/Rasterizer.js:39-46 | writing one point in place gives `Placed` of the old raster |
| Rasterizer.CreateDemFromXyz | client/src/features/flood-2D/middleware/Rasterizer.js:14-53 | an error for empty text or for a text without points, and a grid otherwise; its header fits the points, with `ncols` and `nrows` fixed by the largest x and y, and each cell is the filled cell after gap interpolation |
| Rasterizer.Subarray | client/src/features/flood-2D/middleware/Rasterizer.js:71 | `subarray` never holds more values than the raster |
| Rasterizer.HeaderLines | client/src/features/flood-2D/middleware/Rasterizer.js:61-66 | six header lines |
| Rasterizer.HeaderLinesOf | client/src/features/flood-2D/middleware/Rasterizer.js:61-66 | six header lines for the texts of the five numbers |
| Rasterizer.RowLines | client/src/features/flood-2D/middleware/Rasterizer.js:68-73 | one line per row |
| Rasterizer.GridToAsc | client/src/features/flood-2D/middleware/Rasterizer.js:59-75 | the text is the six header lines and the row lines, each followed by a line feed |
| Rasterizer.RowsText | client/src/features/flood-2D/middleware/Rasterizer.js:68-73 | the loop gives each row's values joined by spaces, each row followed by a line feed |
| Rasterizer.NumeralHasNoLineFeed | client/src/features/flood-2D/middleware/Rasterizer.js:61-65 | a numeral after a label adds no line feed |
| Rasterizer.HeaderLinesHaveNoLineFeed | client/src/features/flood-2D/middleware/Rasterizer.js:61-66 | no header line holds a line feed |
| Rasterizer.HeaderTextHasNoLineFeed | client/src/features/flood-2D/middleware/Rasterizer.js:61-66 | header lines built from numerals hold no line feed |
| Rasterizer.RowTextHasNoLineFeed | client/src/features/flood-2D/middleware/Rasterizer.js:72 | a row line holds no line feed when no shown value does |
| Rasterizer.RowLinesHaveNoLineFeed | client/src/features/flood-2D/middleware/Rasterizer.js:68-73 | no row line holds a line feed when no shown value does |
| Rasterizer.AscTextLines | client/src/features/flood-2D/middleware/Rasterizer.js:59-75 | splitting the text at line feeds gives exactly the six header lines, then the `nrows` row lines, then one empty piece |
| Rasterizer.ConcatHasNoLineFeed | client/src/features/flood-2D/middleware/Rasterizer.js:59-75 | two runs of lines without line feeds make one such run |
| Rasterizer.Cols | client/src/features/flood-2D/middleware/Rasterizer.js:139 | one column per vertex |
| Rasterizer.Rows | client/src/features/flood-2D/middleware/Rasterizer.js:140 | one row per vertex |
| Rasterizer.LowestFacts | client/src/features/flood-2D/middleware/Rasterizer.js:131-146 | the running minimum is at most the start and every element, and is the start or one of them |
| Rasterizer.HighestFacts | client/src/features/flood-2D/middleware/Rasterizer.js:131-146 | the running maximum is at least the start and every element, and is the start or one of them |
| Rasterizer.IndexParts | client/src/features/flood-2D/middleware/Rasterizer.js:163 | an index is its row times the width plus its column, with the column below the width |
| Rasterizer.FlatIndexParts | client/src/features/flood-2D/middleware/Rasterizer.js:163 | the row and column of `r * ncols + c` are r and c |
| Rasterizer.SameRow | client/src/features/flood-2D/middleware/Rasterizer.js:163 | two cells with the same index have the same row and column |
| Rasterizer.Building | client/src/features/flood-2D/middleware/Rasterizer.js:119-176 | `applyBuilding` keeps the raster's length |
| Rasterizer.BuildingChanges | client/src/features/flood-2D/middleware/Rasterizer.js:119-176 | a building changes a cell only when it has a polygon outline, the cell is on the grid, within the vertices' box, inside the outline and above -9000; the cell then gains the height |
| Rasterizer.Baked | client/src/features/flood-2D/middleware/Rasterizer.js:84-108 | baking keeps the raster's length |
| Rasterizer.Buildings | client/src/features/flood-2D/middleware/Rasterizer.js:101-105 | the kept modifications all burn a building |
| Rasterizer.BakedOnlyBuildings | client/src/features/flood-2D/middleware/Rasterizer.js:101-105 | baking only the buildings with a polygon outline gives the same raster |
| Rasterizer.VertexBounds | client/src/features/flood-2D/middleware/Rasterizer.js:131-146 | the loop computes the running extremes of the vertex columns and rows, starting from ncols, 0, nrows and 0 |
| Rasterizer.VisitStep | client/src/features/flood-2D/middleware/Rasterizer.js:155-158 | moving past one cell changes the visited set only at that cell |
| Rasterizer.RowEdges | client/src/features/flood-2D/middleware/Rasterizer.js:158 | past the box's last column the rest of the row, and the next row up to the first column, hold no raised cell |
| Rasterizer.BurnRow | client/src/features/flood-2D/middleware/Rasterizer.js:158-174 | one row of the box raises exactly its raised cells by the height |
| Rasterizer.RowsStart | client/src/features/flood-2D/middleware/Rasterizer.js:155 | before the box's first row nothing has been raised |
| Rasterizer.RowsEnd | client/src/features/flood-2D/middleware/Rasterizer.js:155-175 | past the box's last row every raised cell has gained the height and every other cell is unchanged |
| Rasterizer.ApplyBuilding | client/src/features/flood-2D/middleware/Rasterizer.js:119-176 | the raster becomes `Building` of the old one, in place |
| Rasterizer.BakeTerrain | client/src/features/flood-2D/middleware/Rasterizer.js:84-108 | a fresh raster of the base's length holding the base with the buildings burnt in, in order; without modifications a copy of the base |
| OutputProcessor.HeaderEndFrom | client/src/features/flood-2D/middleware/OutputProcessor.js:22-27 | the scan from position i ends between i and the end of the buffer |
| OutputProcessor.HeaderEnd | client/src/features/flood-2D/middleware/OutputProcessor.js:19-27 | the header length never exceeds the buffer |
| OutputProcessor.HeaderEndFromFacts | client/src/features/flood-2D/middleware/OutputProcessor.js:22-27 | continuing the scan with the newlines counted so far ends at the end of the buffer when fewer than six newlines remain, else just after the sixth |
| OutputProcessor.NewlinesOfPrefix | client/src/features/flood-2D/middleware/OutputProcessor.js:22-27 | a prefix has no more newlines than the whole buffer |
| OutputProcessor.HeaderEndFacts | client/src/features/flood-2D/middleware/OutputProcessor.js:19-29 | with fewer than six newlines the header takes all bytes; otherwise it ends just after the sixth newline |
| OutputProcessor.ScanHeader | client/src/features/flood-2D/middleware/OutputProcessor.js:19-27 | the loop stops at `HeaderEnd`, and it counted fewer than six lines exactly when the buffer has fewer than six newlines |
| OutputProcessor.ParseHeader | client/src/features/flood-2D/middleware/OutputProcessor.js:110-122 | a header exactly when the entries of the lines give a truthy `ncols` and `nrows`, and then those entries |
| OutputProcessor.WordsOfWord | client/src/features/flood-2D/middleware/OutputProcessor.js:116 | a word without white space splits into itself |
| OutputProcessor.WordsOfPair | client/src/features/flood-2D/middleware/OutputProcessor.js:116 | two words joined by a space split into those two words |
| OutputProcessor.TrimOfUnpadded | client/src/features/flood-2D/middleware/OutputProcessor.js:114 | a line without white space at either end trims to itself |
| OutputProcessor.HeaderLineSetsEntry | client/src/features/flood-2D/middleware/OutputProcessor.js:113-119 | a line `key n` sets the lower-cased key to the number n |
| OutputProcessor.HeaderLineOfWordAndValue | client/src/features/flood-2D/middleware/OutputProcessor.js:113-119 | a line `key digits` sets the lower-cased key to the parse of the digits |
| OutputProcessor.HeaderLineOfPair | client/src/features/flood-2D/middleware/OutputProcessor.js:113-119 | a trimmed line of two words sets the lower-cased first word to the parse of the second |
| OutputProcessor.PendingOfRun | client/src/features/flood-2D/middleware/OutputProcessor.js:59-61 | a run of number bytes is one token still being built, with nothing completed |
| OutputProcessor.CompletedAfterSeparator | client/src/features/flood-2D/middleware/OutputProcessor.js:62-82 | a separator completes the pending token; what follows starts afresh |
| OutputProcessor.TokensSplitAtSeparator | client/src/features/flood-2D/middleware/OutputProcessor.js:54-96 | the tokens of two pieces joined by a separator are those of the first followed by those of the second |
| OutputProcessor.StoredValues | client/src/features/flood-2D/middleware/OutputProcessor.js:66-78 | each token is stored as its parse, or as 0 when it is the no-data value |
| OutputProcessor.CountedValuesFacts | client/src/features/flood-2D/middleware/OutputProcessor.js:69-76 | exactly the tokens that are not no-data contribute to the statistics, with their parsed values |
| OutputProcessor.CountedValuesSound | client/src/features/flood-2D/middleware/OutputProcessor.js:69-76 | every value in the statistics is the parse of some token and is not no-data |
| OutputProcessor.CountedValuesComplete | client/src/features/flood-2D/middleware/OutputProcessor.js:69-76 | every token that is not no-data contributes its parsed value |
| OutputProcessor.MinOf | client/src/features/flood-2D/middleware/OutputProcessor.js:73 | the smallest value, which is one of them; none for no values |
| OutputProcessor.MaxOf | client/src/features/flood-2D/middleware/OutputProcessor.js:74 | the largest value, which is one of them; none for no values |
| OutputProcessor.Cap | client/src/features/flood-2D/middleware/OutputProcessor.js:65 | the number of indices below the cell count: the smallest n with n >= total |
| OutputProcessor.CapBounds | client/src/features/flood-2D/middleware/OutputProcessor.js:65 | `valIndex < totalCells` holds exactly for indices below `Cap(totalCells)` (both directions) |
| OutputProcessor.Take | client/src/features/flood-2D/middleware/OutputProcessor.js:65 | the first n tokens, or all when there are fewer |
| OutputProcessor.Padded | client/src/features/flood-2D/middleware/OutputProcessor.js:38-78 | the values written in order into a zero-filled array of the given length, the rest 0 |
| OutputProcessor.GridDataFacts | client/src/features/flood-2D/middleware/OutputProcessor.js:37-96 | the first tokens, up to the cell count, are stored in file order with no-data as 0; the cells past them stay 0 |
| OutputProcessor.NoDataStoredAsZero | client/src/features/flood-2D/middleware/OutputProcessor.js:69-70 | a no-data token is stored as 0 and does not count for the statistics |
| OutputProcessor.GridExtremesFacts | client/src/features/flood-2D/middleware/OutputProcessor.js:69-98 | min and max bound every counted value, and both are 0 when no value counts |
| OutputProcessor.GridNegativeDepthFacts | client/src/features/flood-2D/middleware/OutputProcessor.js:75-93 | the negative-depth flag is set exactly when some counted value is below -0.1 (both directions) |
| OutputProcessor.TakeStep | client/src/features/flood-2D/middleware/OutputProcessor.js:65 | one more token is read exactly while fewer than the cap have been read |
| OutputProcessor.CountedStep | client/src/features/flood-2D/middleware/OutputProcessor.js:69-76 | one more token adds its value to the statistics exactly when it counts |
| OutputProcessor.StoredStep | client/src/features/flood-2D/middleware/OutputProcessor.js:66-78 | one more token adds its stored value |
| OutputProcessor.MinStep | client/src/features/flood-2D/middleware/OutputProcessor.js:73 | `if (val < min) min = val` keeps the minimum of the values so far |
| OutputProcessor.MaxStep | client/src/features/flood-2D/middleware/OutputProcessor.js:74 | `if (val > max) max = val` keeps the maximum of the values so far |
| OutputProcessor.PaddedStep | client/src/features/flood-2D/middleware/OutputProcessor.js:78 | writing the next value at `valIndex` while there is room keeps the array equal to the padded values |
| OutputProcessor.ScanStep | client/src/features/flood-2D/middleware/OutputProcessor.js:57-82 | a number byte extends the pending token; a separator completes a non-empty pending token |
| OutputProcessor.Record | client/src/features/flood-2D/middleware/OutputProcessor.js:64-82 | one token is parsed, stored at `valIndex` and folded into min, max and the negative flag, keeping the crawl state for one more token |
| OutputProcessor.AnyBelowStep | client/src/features/flood-2D/middleware/OutputProcessor.js:75 | one more value sets the flag exactly when it or an earlier one is below the threshold |
| OutputProcessor.CrawlByte | client/src/features/flood-2D/middleware/OutputProcessor.js:55-83 | one body byte keeps the crawl state equal to the specification of the bytes seen so far |
| OutputProcessor.CrawlStart | client/src/features/flood-2D/middleware/OutputProcessor.js:45-50 | a zero-filled array with nothing read is the crawl state of no bytes |
| OutputProcessor.CrawlBody | client/src/features/flood-2D/middleware/OutputProcessor.js:54-96 | the crawl reads exactly the first tokens of the body up to the cell count, stores and folds them |
| OutputProcessor.CrawlBytes | client/src/features/flood-2D/middleware/OutputProcessor.js:54-84 | the loop over the body bytes leaves the crawl state of the whole body |
| OutputProcessor.CrawlTail | client/src/features/flood-2D/middleware/OutputProcessor.js:86-96 | a number that runs up to the end of the buffer is read too, while there is room |
| OutputProcessor.ParseBody | client/src/features/flood-2D/middleware/OutputProcessor.js:37-107 | a RangeError for a negative cell count, else the grid of the specification: header, stored data, min and max or 0 and 0, negative flag |
| OutputProcessor.ParseAsync | client/src/features/flood-2D/middleware/OutputProcessor.js:14-108 | "Empty Buffer" for an empty buffer, "Invalid Header: < 6 lines" for fewer than six newlines, "Invalid Header Content" without a grid size, else the body's outcome |
| SwmmOut.Int32At | client/src/features/isybau/utils/SwmmOutParser.js:12-16 | a value exactly when the four bytes lie inside the view, and then a signed 32-bit one |
| SwmmOut.EncodeInt32 | client/src/features/isybau/utils/SwmmOutParser.js:12-16 | four bytes |
| SwmmOut.Int32RoundTrip | client/src/features/isybau/utils/SwmmOutParser.js:12-16 | reading a little-endian 32-bit value back gives what was written, wherever it stands |
| SwmmOut.DecodeEncoded | client/src/features/isybau/utils/SwmmOutParser.js:12-16 | the four encoded bytes decode to the value |
| SwmmOut.Float32At | client/src/features/isybau/utils/SwmmOutParser.js:18-22 | a value exactly when the four bytes lie inside the view |
| SwmmOut.Float64At | client/src/features/isybau/utils/SwmmOutParser.js:24-28 | a value exactly when the eight bytes lie inside the view |
| SwmmOut.HeaderAt | client/src/features/isybau/utils/SwmmOutParser.js:40-51 | the header is read exactly when the file holds 28 bytes starting with the magic number; a wrong magic number is refused |
| SwmmOut.BadMagicRefused | client/src/features/isybau/utils/SwmmOutParser.js:41-44 | a file not starting with the magic number is refused, whatever follows |
| SwmmOut.IdAt | client/src/features/isybau/utils/SwmmOutParser.js:65-70 | an id ends its length's bytes after the length field, inside the view |
| SwmmOut.IdsAt | client/src/features/isybau/utils/SwmmOutParser.js:72-82 | n ids, none for a count below 1 |
| SwmmOut.PrependIdsStep | client/src/features/isybau/utils/SwmmOutParser.js:72-82 | reading one more id moves it from the outcome into the ids read |
| SwmmOut.NamesAt | client/src/features/isybau/utils/SwmmOutParser.js:72-82 | as many subcatchment, node and link ids as the header counts (none for a negative count) |
| SwmmOut.SignatureFrom | client/src/features/isybau/utils/SwmmOutParser.js:112-134 | the first position from p on, below the scan limit, holding 15 then the codes 0 to 14; none when no such position exists |
| SwmmOut.SanitizedFacts | client/src/features/isybau/utils/SwmmOutParser.js:184-187 | accepted counts are kept; negative counts or more than 50 subcatchment variables give 1 each |
| SwmmOut.ResultsStart | client/src/features/isybau/utils/SwmmOutParser.js:208-227 | the reading position stays, or moves forward to a position inside the file |
| SwmmOut.PrependNothing | client/src/features/isybau/utils/SwmmOutParser.js:230-232 | no step read yet leaves the outcome as it is |
| SwmmOut.PrependStepsStep | client/src/features/isybau/utils/SwmmOutParser.js:248-319 | reading one more step moves it from the outcome into the steps read |
| SwmmOut.StepsStop | client/src/features/isybau/utils/SwmmOutParser.js:248-252 | when the loop condition fails or a step does not fit, no more steps are read |
| SwmmOut.StepsFail | client/src/features/isybau/utils/SwmmOutParser.js:248-319 | a step that cannot be read makes the whole read fail with its error |
| SwmmOut.StepsBounded | client/src/features/isybau/utils/SwmmOutParser.js:234-248 | no more than 50000 steps in all |
| SwmmOut.WithTimes | client/src/features/isybau/utils/SwmmOutParser.js:321-328 | one step per step |
| SwmmOut.WithTimesFacts | client/src/features/isybau/utils/SwmmOutParser.js:321-328 | the first step is at time 0, a later date gives a later time, and nothing but the time changes |
| SwmmOut.ResultsAfterNames | client/src/features/isybau/utils/SwmmOutParser.js:102-330 | at most 50000 steps come back and the first is at time 0 |
| SwmmOut.TimedFacts | client/src/features/isybau/utils/SwmmOutParser.js:321-331 | the post-processed steps keep the bound and start at time 0 |
| SwmmOut.ParsedFacts | client/src/features/isybau/utils/SwmmOutParser.js:39-331 | a wrong magic number is refused; otherwise at most 50000 steps come back and the first is at time 0 |
| SwmmOut.InferredCountsNonNegative | client/src/features/isybau/utils/SwmmOutParser.js:141-197 | the inferred variable counts are never negative and at most 50 for subcatchments |
| SwmmOut.TableStepShape | client/src/features/isybau/utils/SwmmOutParser.js:461-464 | a row handed on has more than two parts, none empty or holding white space |
| SwmmOut.ShapedWords | client/src/features/isybau/utils/SwmmOutParser.js:461-464 | more than two words of a trimmed line make an accepted row |
| SwmmOut.StepYieldsWords | client/src/features/isybau/utils/SwmmOutParser.js:440-464 | one line yields nothing, or the words of the trimmed line when there are more than two |
| SwmmOut.TableRowsShape | client/src/features/isybau/utils/SwmmOutParser.js:434-467 | every row has more than two parts, none empty or holding white space |
| SwmmOut.StepOutsideWithoutHeader | client/src/features/isybau/utils/SwmmOutParser.js:442-446 | outside a table a line not matching the header changes nothing |
| SwmmOut.NoHeaderNoRows | client/src/features/isybau/utils/SwmmOutParser.js:434-467 | without a header line nothing is read |
| SwmmOut.StepSeparators | client/src/features/isybau/utils/SwmmOutParser.js:448-451 | one line adds at most one separator |
| SwmmOut.RowsNeedTwoSeparators | client/src/features/isybau/utils/SwmmOutParser.js:448-452 | a row is only read after two separator lines |
| SwmmOut.OutsideStaysOutside | client/src/features/isybau/utils/SwmmOutParser.js:442-446 | outside a table, lines without a header change nothing |
| SwmmOut.StepAtTerminator | client/src/features/isybau/utils/SwmmOutParser.js:453-460 | a blank line, a line starting with `***` or `Analysis begun` leaves the table |
| SwmmOut.TableEndsAtTerminator | client/src/features/isybau/utils/SwmmOutParser.js:453-460 | after the separators a terminator ends the table: later lines give no row until a header comes back |
| SwmmOut.LinkSummaryFacts | client/src/features/isybau/utils/SwmmOutParser.js:533-570 | a summary exactly for a numeric flow, in litres per second; the utilisation is the depth ratio's percentage, else the flow ratio's, else 0, capped at 100; the capacity times the flow ratio is the flow, or 0 for a tiny or missing ratio |
| SwmmOut.CollectFacts | client/src/features/isybau/utils/SwmmOutParser.js:535-537 | a link is present exactly when some row has a value for it, and holds its last row's value |
| SwmmOut.CollectStep | client/src/features/isybau/utils/SwmmOutParser.js:535-537 | one more row updates the map of the earlier rows when it has a value |
| SwmmOut.CollectHas | client/src/features/isybau/utils/SwmmOutParser.js:535-537 | a link is present exactly when some row has a value for it |
| SwmmOut.CollectLast | client/src/features/isybau/utils/SwmmOutParser.js:535-537 | a present link holds its last row's value |
| SwmmOut.TableRowsLong | client/src/features/isybau/utils/SwmmOutParser.js:461-464 | every row of a report's table has more than two parts |
| SwmmOut.RowKeys | client/src/features/isybau/utils/SwmmOutParser.js:517 | the link name of each row |
| SwmmOut.RowFlows | client/src/features/isybau/utils/SwmmOutParser.js:533-570 | the summary of each row |
| SwmmOut.LinkFlowsFacts | client/src/features/isybau/utils/SwmmOutParser.js:516-573 | a link is in the summary exactly when one of its rows has a numeric flow, and holds the summary of its last such row |
| SwmmOut.SwmmOutParser.constructor | client/src/features/isybau/utils/SwmmOutParser.js:6-10 | the view is the buffer and the offset is 0 |
| SwmmOut.SwmmOutParser.ReadInt32 | client/src/features/isybau/utils/SwmmOutParser.js:12-16 | the value at the offset, which moves by 4; a read past the end is a RangeError and moves nothing |
| SwmmOut.SwmmOutParser.ReadFloat32 | client/src/features/isybau/utils/SwmmOutParser.js:18-22 | the value at the offset, which moves by 4; a read past the end is a RangeError and moves nothing |
| SwmmOut.SwmmOutParser.ReadDouble | client/src/features/isybau/utils/SwmmOutParser.js:24-28 | the value at the offset, which moves by 8; a read past the end is a RangeError and moves nothing |
| SwmmOut.SwmmOutParser.ReadId | client/src/features/isybau/utils/SwmmOutParser.js:65-70 | the id at the offset, and the offset moves past it |
| SwmmOut.SwmmOutParser.ReadIds | client/src/features/isybau/utils/SwmmOutParser.js:72-82 | n ids from the offset, and the offset moves past them |
| SwmmOut.SwmmOutParser.MatchesSignature | client/src/features/isybau/utils/SwmmOutParser.js:117-129 | whether the position holds the signature |
| SwmmOut.SwmmOutParser.ScanSignature | client/src/features/isybau/utils/SwmmOutParser.js:110-134 | the first signature position from 28 below the scan limit, or -1 when there is none |
| SwmmOut.SwmmOutParser.InferCounts | client/src/features/isybau/utils/SwmmOutParser.js:141-197 | the counts inferred from the codes block, or 1 each without one |
| SwmmOut.SwmmOutParser.SeekResults | client/src/features/isybau/utils/SwmmOutParser.js:208-227 | the offset becomes the start of the results |
| SwmmOut.SwmmOutParser.ReadReadings | client/src/features/isybau/utils/SwmmOutParser.js:267-312 | the readings of n objects from the offset, which moves past them |
| SwmmOut.SwmmOutParser.ReadStep | client/src/features/isybau/utils/SwmmOutParser.js:254-318 | one step from the offset, which moves past it |
| SwmmOut.SwmmOutParser.ReadSteps | client/src/features/isybau/utils/SwmmOutParser.js:230-319 | the loop gives the steps read from the offset until it stops |
| SwmmOut.SwmmOutParser.NextStep | client/src/features/isybau/utils/SwmmOutParser.js:248-319 | one round either stops with the steps read, or adds a step while fewer than 50000 are read |
| SwmmOut.SwmmOutParser.PostProcessTimes | client/src/features/isybau/utils/SwmmOutParser.js:321-328 | each step's time becomes the seconds since the first step's date |
| SwmmOut.SwmmOutParser.ScanLine | client/src/features/isybau/utils/SwmmOutParser.js:440-464 | the loop body for one line is one table step |
| SwmmOut.SwmmOutParser.ParseTable | client/src/features/isybau/utils/SwmmOutParser.js:434-467 | the rows of the tables whose header line matches |
| SwmmOut.SwmmOutParser.ParseLinkFlows | client/src/features/isybau/utils/SwmmOutParser.js:516-573 | the link flow summary of the rows under a link or conduit flow header |
| SwmmOut.SwmmOutParser.ReadHeader | client/src/features/isybau/utils/SwmmOutParser.js:40-51 | the header at 0, with the offset past it |
| SwmmOut.SwmmOutParser.ReadNames | client/src/features/isybau/utils/SwmmOutParser.js:72-82 | the ids of every object kind, with the offset past them |
| SwmmOut.SwmmOutParser.ReadResults | client/src/features/isybau/utils/SwmmOutParser.js:102-330 | everything after the ids, as specified |
| SwmmOut.SwmmOutParser.ReadTimed | client/src/features/isybau/utils/SwmmOutParser.js:230-331 | the steps from the offset, their times post-processed |
| SwmmOut.SwmmOutParser.Parse | client/src/features/isybau/utils/SwmmOutParser.js:39-331 | the whole parse, whose properties are those of `ParsedFacts` |
| RainModel.StepCountCoversDuration | client/src/features/flood-2D/utils/RainModelService.js:9 | for a positive duration, `ceil(duration / interval)` steps cover it and one step fewer would not |
| RainModel.CalculateBlockRain | client/src/features/flood-2D/utils/RainModelService.js:8-18 | `ceil(duration / interval)` entries (none when that is not positive, and none for a zero interval, whose count is NaN or -Infinity), entry i at time `i * interval` with the given intensity |
| RainModel.NegativeIntervalHasNoSteps | client/src/features/flood-2D/utils/RainModelService.js:9 | about `StepCount`: a negative interval against a duration of 0 or more gives no step, so both series are empty or a RangeError |
| RainModel.WholeIntervalsAreExactSteps | client/src/features/flood-2D/utils/RainModelService.js:8-9 | about `StepCount`: a duration of a whole number `n` of intervals is exactly `n` steps, with no extra partial step; at the default interval of 5 minutes an hour is 12 steps |
| RainModel.SetMinimum | client/src/features/flood-2D/utils/RainModelService.js:34 | every non-empty finite set of durations has a least element |
| RainModel.AvailableDurations | client/src/features/flood-2D/utils/RainModelService.js:31-34 | the row's durations, strictly ascending, each exactly once |
| RainModel.ScanBounds | client/src/features/flood-2D/utils/RainModelService.js:40-46 | a lower bound found lies at or below d and an upper bound above it, both among the durations |
| RainModel.GetI | client/src/features/flood-2D/utils/RainModelService.js:36-59 | the loop gives the intensity of the table, interpolated or clamped |
| RainModel.ScanFindsNeighbours | client/src/features/flood-2D/utils/RainModelService.js:43-46 | on ascending durations `lower` is the greatest duration at or below d and `upper` the least above it, each found exactly when one exists |
| RainModel.ScanFindsLower | client/src/features/flood-2D/utils/RainModelService.js:44 | the lower bound is the greatest duration at or below d, found exactly when one exists |
| RainModel.ScanFindsUpper | client/src/features/flood-2D/utils/RainModelService.js:45 | the upper bound is the least duration above d, found exactly when one exists |
| RainModel.ExactDurationGivesTableValue | client/src/features/flood-2D/utils/RainModelService.js:37-38 | a duration of the table gives the table's intensity |
| RainModel.EmptyRowGivesZero | client/src/features/flood-2D/utils/RainModelService.js:58 | an empty row gives 0 |
| RainModel.InterpolationBetweenNeighbours | client/src/features/flood-2D/utils/RainModelService.js:48-51 | between two durations of the table the intensity lies between theirs |
| RainModel.LerpBetween | client/src/features/flood-2D/utils/RainModelService.js:51 | linear interpolation between two neighbours stays between their values |
| RainModel.StepBetween | client/src/features/flood-2D/utils/RainModelService.js:51 | a fraction in [0, 1] of the way between two values stays between them |
| RainModel.ClampedOutsideRange | client/src/features/flood-2D/utils/RainModelService.js:52-56 | below the shortest duration the intensity is its value, above the longest that one's |
| RainModel.AscendingEnds | client/src/features/flood-2D/utils/RainModelService.js:31-34 | in ascending durations the first is the least and the last the greatest |
| RainModel.BlockAt | client/src/features/flood-2D/utils/RainModelService.js:62-76 | a block's height is never negative and its intensity is its height over `interval * 0.006` |
| RainModel.Blocks | client/src/features/flood-2D/utils/RainModelService.js:61-77 | one block per step, block k from the depths at durations k and k-1 steps |
| RainModel.PeakIndex | client/src/features/flood-2D/utils/RainModelService.js:82 | the peak slot `floor(steps * 0.3)` lies in the series |
| RainModel.PlacementAfter | client/src/features/flood-2D/utils/RainModelService.js:84-100 | the placement records one slot per block placed |
| RainModel.ExtendLeft | client/src/features/flood-2D/utils/RainModelService.js:90-92 | a block in the free slot on the left keeps the placement invariant |
| RainModel.ExtendLeftFrame | client/src/features/flood-2D/utils/RainModelService.js:90-92 | a block in the free slot on the left keeps the filled slots a contiguous range around the peak, each used once |
| RainModel.ExtendLeftOutward | client/src/features/flood-2D/utils/RainModelService.js:90-92 | a block on the left lands further out than every earlier one on that side |
| RainModel.ExtendRight | client/src/features/flood-2D/utils/RainModelService.js:93-95 | a block in the free slot on the right keeps the placement invariant |
| RainModel.ExtendRightFrame | client/src/features/flood-2D/utils/RainModelService.js:93-95 | a block in the free slot on the right keeps the filled slots a contiguous range around the peak, each used once |
| RainModel.ExtendRightOutward | client/src/features/flood-2D/utils/RainModelService.js:93-95 | a block on the right lands further out than every earlier one on that side |
| RainModel.PlacementStart | client/src/features/flood-2D/utils/RainModelService.js:84-87 | the largest block alone at the peak satisfies the invariant |
| RainModel.PlacementNext | client/src/features/flood-2D/utils/RainModelService.js:89-100 | placing the next block keeps the invariant while slots are free |
| RainModel.PlacementKeepsInvariant | client/src/features/flood-2D/utils/RainModelService.js:84-100 | every placement of up to `steps` blocks satisfies the invariant |
| RainModel.PlacementIsBijection | client/src/features/flood-2D/utils/RainModelService.js:81-100 | with as many blocks as slots every slot receives exactly one block and the first sits at the peak |
| RainModel.ArrangedAfter | client/src/features/flood-2D/utils/RainModelService.js:81-100 | the arranged series has `steps` slots |
| RainModel.ArrangedHoldsPlacedBlocks | client/src/features/flood-2D/utils/RainModelService.js:84-100 | each placed block sits in its slot |
| RainModel.SlotsInRange | client/src/features/flood-2D/utils/RainModelService.js:84-100 | the slots used lie in the series and the last one is new |
| RainModel.Arrange | client/src/features/flood-2D/utils/RainModelService.js:81-100 | a fresh array holding the blocks arranged around the peak |
| RainModel.PlaceNext | client/src/features/flood-2D/utils/RainModelService.js:90-99 | one pass of the placement loop moves to the next placement and writes the block into its slot |
| RainModel.ToSeries | client/src/features/flood-2D/utils/RainModelService.js:102-106 | entry idx at time `idx * interval`, with the slot's intensity and height, zeros for an empty slot |
| RainModel.EulerSeries | client/src/features/flood-2D/utils/RainModelService.js:61-106 | the series of the blocks sorted by falling height and arranged around the peak |
| RainModel.CalculateEulerType2AsWritten | client/src/features/flood-2D/utils/RainModelService.js:27-107 | a RangeError for a zero interval or a negative step count, and only then; for zero steps one entry, since the missing largest block is written to slot 0 |
| RainModel.CalculateEulerType2 | client/src/features/flood-2D/utils/RainModelService.js:27-107 | a RangeError exactly for a zero interval or a negative step count, no entries for zero steps, otherwise the blocks of the table's durations sorted by falling height and arranged around the peak, entry i at time `i * interval` |
| RainModel.ZeroDurationCounterexample | client/src/features/flood-2D/utils/RainModelService.js:28-84 | duration 0 gives zero steps, yet the series as written has one entry |
| RainModel.NearerPeakIsHigher | client/src/features/flood-2D/utils/RainModelService.js:79-100 | of two slots, the peak or the one nearer the peak on the same side holds the higher block |
| RainModel.ArrangedIsUnimodal | client/src/features/flood-2D/utils/RainModelService.js:79-106 | the peak holds the highest block and heights never rise moving away from it |
| RainModel.PeakIsHighest | client/src/features/flood-2D/utils/RainModelService.js:79-100 | no slot holds more than the peak |
| RainModel.RisesToPeak | client/src/features/flood-2D/utils/RainModelService.js:79-100 | heights never fall on the way up to the peak |
| RainModel.FallsAfterPeak | client/src/features/flood-2D/utils/RainModelService.js:79-100 | heights never rise after the peak |
| IsybauStore.Pushed | client/src/features/isybau/store/index.js:230-234 | the pushed snapshot is the new top; below the bound nothing is dropped, at the bound the oldest entry goes and the length stays |
| IsybauStore.SaveFacts | client/src/features/isybau/store/index.js:224-236 | saving keeps the document, puts it on top of the undo stack, clears the redo stack and keeps the bound of 20 |
| IsybauStore.SaveDropsOnlyOldest | client/src/features/isybau/store/index.js:230-234 | below the bound the undo stack grows by the document; at the bound its oldest entry is dropped |
| IsybauStore.EmptyStacksAreNoOps | client/src/features/isybau/store/index.js:238-254 | undo with an empty undo stack and redo with an empty redo stack change nothing |
| IsybauStore.UndoRedoMoveOneEntry | client/src/features/isybau/store/index.js:238-266 | undo moves one entry from the undo stack to the redo stack, redo the other way; both keep the bound |
| IsybauStore.RedoUndoesUndo | client/src/features/isybau/store/index.js:238-266 | redo after undo, and undo after redo, restore the document and both stacks |
| IsybauStore.Detached | client/src/features/isybau/store/index.js:316-320 | exactly the edges neither starting nor ending at the node remain, unchanged |
| IsybauStore.FindIndex | client/src/features/isybau/store/index.js:334 | the first position of an area with this id, or -1 when none has it |
| IsybauStore.CountIdAppend | client/src/features/isybau/store/index.js:334-336 | the areas with an id in two lists add up |
| IsybauStore.CountIdZero | client/src/features/isybau/store/index.js:334-336 | a list without the id has no area with it |
| IsybauStore.WithoutFirstFacts | client/src/features/isybau/store/index.js:332-338 | an unknown id keeps the areas; otherwise exactly one area with the id goes, the first, and the others stay |
| IsybauStore.Store.constructor | client/src/features/isybau/store/index.js:9-53 | an empty document, no inspections, the editor in view mode with nothing selected, no results and empty history |
| IsybauStore.Store.Clear | client/src/features/isybau/store/index.js:213-221 | the document, inspections, selected id and results are emptied; the history, the editor mode and the selected kind are kept |
| IsybauStore.Store.SaveHistory | client/src/features/isybau/store/index.js:224-236 | the new history is `Saved` of the old one, nothing else changes |
| IsybauStore.Store.RestoreSnapshot | client/src/features/isybau/store/index.js:268-283 | the document becomes the snapshot's, the history stays |
| IsybauStore.Store.Undo | client/src/features/isybau/store/index.js:238-251 | the new history is `Undone` of the old one |
| IsybauStore.Store.Redo | client/src/features/isybau/store/index.js:253-266 | the new history is `Redone` of the old one |
| IsybauStore.Store.RemoveNode | client/src/features/isybau/store/index.js:311-322 | the history is saved; a known node goes with every edge touching it, an unknown id changes no node or edge |
| IsybauStore.Store.AddEdge | client/src/features/isybau/store/index.js:364-399 | the history is saved; no edge and no change when an endpoint is missing, otherwise the edge between the two nodes under the given or the clock's id |
| IsybauStore.Store.RemoveArea | client/src/features/isybau/store/index.js:332-338 | the history is saved and the first area with the id is removed |
| IsybauStore.SelectionRemovalFacts | client/src/features/isybau/store/index.js:341-356 | about `SelectionTarget` and `RemovedBy`: nothing is removed exactly when no (truthy) id is selected; a removed node, edge or area is gone afterwards while the other collections keep what does not hang on it; without a known kind a node id means the node and otherwise an edge id the edge (both directions) |
| IsybauStore.Store.RemoveEdge | client/src/features/isybau/store/index.js:324-329 | the history is saved, then the edge is gone and the nodes, areas and everything else stay |
| IsybauStore.Store.ClearSelection | client/src/features/isybau/store/index.js:358-362 | no selected id or kind, the mode back to view, the document and history unchanged |
| IsybauStore.Store.RemoveSelection | client/src/features/isybau/store/index.js:341-356 | without a selected id nothing changes; otherwise one history entry is saved, the document becomes `RemovedBy` of the selection's target and the selection is cleared |
| EmailStore.FindBy | client/src/features/email/stores/useEmailStore.js:234 | `findIndex` by a key: -1 when no element has the key, else the first position holding it; `FindEmail` (by id) and `FindFolder` (by folder id, for `find` at line 204) are its instances |
| EmailStore.FindBySameKeys | client/src/features/email/stores/useEmailStore.js:200 | about `FindBy`: two sequences with the same keys in the same places find the same position, so a change that keeps the ids keeps every lookup |
| EmailStore.UnreadCountCountsUnread | client/src/features/email/stores/useEmailStore.js:179-181 | `unreadCount` is the number of positions whose e-mail is not read |
| EmailStore.UnreadAppend | client/src/features/email/stores/useEmailStore.js:179-181 | the unread count of two runs of e-mails is the sum of their counts |
| EmailStore.UnreadUpdate | client/src/features/email/stores/useEmailStore.js:199-202 | replacing one e-mail changes the unread count by exactly the change of its read flag |
| EmailStore.MarkReadIdempotent | client/src/features/email/stores/useEmailStore.js:199-209 | marking an e-mail read twice is the same as marking it once |
| EmailStore.MarkReadFacts | client/src/features/email/stores/useEmailStore.js:199-209 | only an unread e-mail with the id changes, and only its read flag; the unread count drops by exactly one then; only its folder's counter moves, by one and only when positive; counters never go negative |
| EmailStore.ReplyIdsDistinct | client/src/features/email/stores/useEmailStore.js:215 | the message ids `t<id>-<n>` of one e-mail differ for different thread lengths |
| EmailStore.RepliedFacts | client/src/features/email/stores/useEmailStore.js:211-228 | about `Replied`: a reply to a known e-mail appends one message from "Sie" with the next thread id, the content and the first clock reading, and re-dates the e-mail with the second reading unless it is in "sent"; folder and read flag stay; nothing else changes; an unknown id changes nothing |
| EmailStore.DeletedFacts | client/src/features/email/stores/useEmailStore.js:233-239 | an unknown id changes nothing; otherwise exactly the first e-mail with the id is spliced out, the rest keep their order, and the unread count drops by one when it was unread |
| EmailStore.SplicedFacts | client/src/features/email/stores/useEmailStore.js:236 | splicing out one position removes exactly that e-mail (multiset) and its unread mark |
| EmailStore.InFolder | client/src/features/email/stores/useEmailStore.js:174-175 | the filter keeps exactly the e-mails of the folder |
| EmailStore.FolderEmailsFacts | client/src/features/email/stores/useEmailStore.js:173-177 | `currentFolderEmails` holds exactly the folder's e-mails, as a permutation of the filter, newest first |
| EmailStore.SelectedEmailData | client/src/features/email/stores/useEmailStore.js:183-186 | an e-mail exactly when a non-zero id is selected and some e-mail has it, and then the first such e-mail |
| EmailStore.Store.constructor | client/src/features/email/stores/useEmailStore.js:6-170 | the given folders and e-mails, the inbox selected, no e-mail selected, the composer closed |
| EmailStore.Store.SelectFolder | client/src/features/email/stores/useEmailStore.js:189-192 | the folder is selected and the e-mail selection cleared; nothing else changes |
| EmailStore.Store.MarkAsRead | client/src/features/email/stores/useEmailStore.js:199-209 | the mailbox becomes `MarkRead` of the old one; the counters stay non-negative; nothing else changes |
| EmailStore.Store.SelectEmail | client/src/features/email/stores/useEmailStore.js:194-197 | the id is selected and the e-mail marked read |
| EmailStore.Store.SendReply | client/src/features/email/stores/useEmailStore.js:211-231 | with the two `new Date()` readings as parameters, the mailbox becomes `Replied` of the old one, and the composer is closed with no reply target, also for an unknown id |
| EmailStore.Store.DeleteEmail | client/src/features/email/stores/useEmailStore.js:233-239 | the e-mails become `Deleted` of the old ones; the selection is cleared only when something was deleted; the folders stay |
| EmailStore.Store.OpenComposer | client/src/features/email/stores/useEmailStore.js:241-244 | the composer opens with the given reply target or none |
| EmailStore.Store.CloseComposer | client/src/features/email/stores/useEmailStore.js:246-249 | the composer closes with no reply target |
| HydraulicStore.KindOrDefault | client/src/features/flood-2D/stores/useHydraulicStore.js:39 | a missing or empty type gives "Zufluss", any other type is kept |
| HydraulicStore.Unassigned | client/src/features/flood-2D/stores/useHydraulicStore.js:49-54 | exactly the objects not assigned to `id` remain, each with its old hydrograph |
| HydraulicStore.AssignedFacts | client/src/features/flood-2D/stores/useHydraulicStore.js:78-84 | after assigning, the objects are the old ones plus the listed ones; every listed object points to the target; every other object keeps its hydrograph |
| HydraulicStore.AssignedCounts | client/src/features/flood-2D/stores/useHydraulicStore.js:78-92 | the target's assignment set grows by exactly the listed objects, and any other hydrograph's set loses exactly those |
| HydraulicStore.UnassignedCounts | client/src/features/flood-2D/stores/useHydraulicStore.js:49-54 | after the removal no object points to `id`, and the assignment set of every other hydrograph is unchanged |
| HydraulicStore.DropAssignments | client/src/features/flood-2D/stores/useHydraulicStore.js:50-54 | the loop over the objects leaves exactly `Unassigned(assignments, id)` |
| HydraulicStore.Store.constructor | client/src/features/flood-2D/stores/useHydraulicStore.js:9-31 | no hydrographs, no assignments, none active, no rain series, grid or location and the initial rain configuration; every assignment names an existing hydrograph |
| HydraulicStore.Store.CreateGanglinie | client/src/features/flood-2D/stores/useHydraulicStore.js:34-43 | returns the given id and stores a new hydrograph under it, flat at 0 from 0 s to 3600 s; the consistency invariant is kept |
| HydraulicStore.Store.DeleteGanglinie | client/src/features/flood-2D/stores/useHydraulicStore.js:45-59 | the hydrograph, every assignment to it and its activation go; nothing else changes; the invariant is kept |
| HydraulicStore.Store.UpdateGanglinieData | client/src/features/flood-2D/stores/useHydraulicStore.js:61-65 | only an existing hydrograph gets the new samples; name, type and everything else stay |
| HydraulicStore.Store.SetActiveGanglinie | client/src/features/flood-2D/stores/useHydraulicStore.js:67-71 | the active id becomes the given one when it exists or is null, and is otherwise unchanged |
| HydraulicStore.Store.AssignToObjects | client/src/features/flood-2D/stores/useHydraulicStore.js:78-84 | an unknown hydrograph changes nothing; else each listed object, in order, points to it; the invariant is kept |
| HydraulicStore.Store.GetAssignmentsByGanglinie | client/src/features/flood-2D/stores/useHydraulicStore.js:86-92 | the count is the number of objects assigned to `id` |
| HydraulicStore.Merged | client/src/features/flood-2D/stores/useHydraulicStore.js:102 | `{ ...config, ...update }`: each key the update has takes the update's value, every other key keeps the configuration's |
| HydraulicStore.MergedIdempotent | client/src/features/flood-2D/stores/useHydraulicStore.js:102 | about `Merged`: merging the same update twice is merging it once, and an update with no keys changes nothing |
| HydraulicStore.Store.SetKostraGrid | client/src/features/flood-2D/stores/useHydraulicStore.js:94-97 | the grid and its location are replaced; the rain series, configuration and hydrographs stay |
| HydraulicStore.Store.SetRainData | client/src/features/flood-2D/stores/useHydraulicStore.js:99-104 | the series is replaced, and a given configuration is merged into the old one (`Merged`) while a missing one keeps it; nothing else changes |
| Mappings.GetMapping | client/src/features/isyifc/utils/mappings.js:146-156 | a known category with the code gives the table's label; a known category without it, or an unknown category, gives the code itself |
| Mappings.UnknownCategoryShowsCode | client/src/features/isyifc/utils/mappings.js:155 | an unknown category shows every code as itself |
| Mappings.FirstIncludedKey | client/src/features/isyifc/utils/mappings.js:170-172 | the first key from position k that the material contains, with no earlier key contained; none when no key from k is contained |
| Mappings.GetRoughness | client/src/features/isyifc/utils/mappings.js:158-175 | a missing or empty material gives the "Unbekannt" value; otherwise the UI table, then the ISYBAU codes, then the fuzzy search, and 70 ("Unbekannt") for a material that contains no UI key; every result is a value of one of the two tables |
| Mappings.FuzzyKeysSortedByLength | client/src/features/isyifc/utils/mappings.js:169 | the search keys are exactly the UI table's keys, longest first |
| Mappings.RoughnessPrefersLongestKey | client/src/features/isyifc/utils/mappings.js:167-172 | a material that reaches the fuzzy search and contains a UI key gets the value of the first contained key in the search order: no longer UI key is contained, and of contained keys of equal length the earlier in the stable sort wins |
| Mappings.FuzzyRoughness | client/src/features/isyifc/utils/mappings.js:167-172 | a material in neither table that contains a UI key gets the value of the first key the search finds |
| Mappings.EqualLengthKeysTakeTheEarlier | client/src/features/isyifc/utils/mappings.js:169-171 | "KunststoffVerkrautet" contains two keys of length 10 and gets the roughness of "Kunststoff", the earlier one |
| Mappings.FirstKeyIsLongest | client/src/features/isyifc/utils/mappings.js:169-171 | the first key the search finds is one of the longest keys the material contains |
| Mappings.GetHortonParams | client/src/features/isyifc/utils/mappings.js:179-214 | functions 1, 2 and 3 have their own parameter sets; 4 and everything else get the default set |
| Mappings.HortonParamsOrdered | client/src/features/isyifc/utils/mappings.js:179-214 | every parameter set has 0 < min rate < max rate and positive decay and drying time |
| Mappings.GetRunoffCoeff | client/src/features/isyifc/utils/mappings.js:216-256 | roofs 0.9 up to slope class 2, else 1.0; green areas 0.1 up to class 1, else 0.3; traffic 0.9; functions 4 and 5 give 0.5; otherwise the surface property's value or 0.5; always within [0.05, 1] |
| Mappings.RunoffMonotoneInSlope | client/src/features/isyifc/utils/mappings.js:220-233 | a steeper slope class never lowers the runoff coefficient |
| Mappings.RunoffFunctionOverridesProperty | client/src/features/isyifc/utils/mappings.js:217-250 | for a known function the surface property plays no part |
| KostraHelper.GaussKrueger | client/src/features/flood-2D/utils/KostraHelper.js:69-75 | zone 2 to 5 maps to the ten-character code EPSG:31466 to EPSG:31469, whose last digit follows the zone |
| KostraHelper.DetectCrs | client/src/features/flood-2D/utils/KostraHelper.js:61-87 | a pair within longitude and latitude range is EPSG:4326, and every result is one of the six codes the function returns |
| KostraHelper.GaussKruegerZoneIsLeadingDigit | client/src/features/flood-2D/utils/KostraHelper.js:67-75 | outside the geographic range, an easting strictly inside a zone's million-band gives that zone's code, and the zone is the easting's leading digit |
| KostraHelper.Wgs84Iff | client/src/features/flood-2D/utils/KostraHelper.js:62-65 | EPSG:4326 is returned exactly when both coordinates are within range (both directions) |
| KostraHelper.EverythingElseIsUtm32 | client/src/features/flood-2D/utils/KostraHelper.js:77-86 | anything neither geographic nor strictly inside a Gauss-Krueger band, band edges included, is EPSG:25832 |
| Hydrology.CalculateTc | client/src/features/flood-wave/utils/HydrologyCalculator.js:16-22 | 0 when the flow length is 0 or the height difference is not positive; otherwise the Kirpich power of `0.868 L^3 / deltaH` |
| Hydrology.CalculateScsRunoff | client/src/features/flood-wave/utils/HydrologyCalculator.js:31-48 | the whole rainfall for CN >= 100; 0 for CN <= 0; 0 when the rainfall does not exceed the initial abstraction 0.2 S |
| Hydrology.RetentionPositive | client/src/features/flood-wave/utils/HydrologyCalculator.js:37 | S = 25400 / CN - 254 is positive for 0 < CN < 100 |
| Hydrology.ScsRunoffBounded | client/src/features/flood-wave/utils/HydrologyCalculator.js:43-47 | for 0 < CN < 100 the effective rainfall is non-negative, is 0 or below the rainfall less the initial abstraction, and never exceeds a non-negative rainfall |
| Hydrology.ExcessBelowRainfall | client/src/features/flood-wave/utils/HydrologyCalculator.js:46 | the runoff term `x^2 / (x + S)` lies in [0, x) |
| Hydrology.QuotientMonotone | client/src/features/flood-wave/utils/HydrologyCalculator.js:46 | the runoff term `x^2 / (x + S)` grows with x |
| Hydrology.ScsRunoffMonotone | client/src/features/flood-wave/utils/HydrologyCalculator.js:31-48 | more rainfall never gives less effective rainfall, for any positive curve number |
| Hydrology.Route | client/src/features/flood-wave/utils/HydrologyCalculator.js:127-137 | one time step through the first j reservoirs gives j new storages and the last outflow |
| Hydrology.StorageAfter | client/src/features/flood-wave/utils/HydrologyCalculator.js:100-137 | the storages of the n reservoirs after some rain steps, starting empty |
| Hydrology.CalculateFloodWave | client/src/features/flood-wave/utils/HydrologyCalculator.js:93-146 | one point per rain step; point i has time `i dt` and the cascade's outflow after routing rain step i through all reservoirs |
| Hydrology.FloodStep | client/src/features/flood-wave/utils/HydrologyCalculator.js:110-137 | rain step i turns the storages after i steps into those after i + 1 steps, and its outflow is the routed outflow |
| Hydrology.RouteInPlace | client/src/features/flood-wave/utils/HydrologyCalculator.js:127-137 | the inner loop updates the storage array to the routed storages and returns the last reservoir's outflow |
| Hydrology.RouteNonNegative | client/src/features/flood-wave/utils/HydrologyCalculator.js:127-137 | non-negative storages and inflow with a decay in [0, 1] stay non-negative, and so does the outflow |
| Hydrology.StorageNonNegative | client/src/features/flood-wave/utils/HydrologyCalculator.js:110-137 | non-negative rain on a non-negative area keeps every reservoir's storage non-negative |
| Hydrology.FloodWaveNonNegative | client/src/features/flood-wave/utils/HydrologyCalculator.js:110-143 | non-negative rain on a non-negative area never gives a negative discharge |
| Hydrology.NoReservoirPassesInflow | client/src/features/flood-wave/utils/HydrologyCalculator.js:124-141 | with no reservoir the discharge is the inflow itself |
| Hydrology.Accumulate | client/src/features/flood-wave/utils/HydrologyCalculator.js:168-171 | the running volume is never negative |
| Hydrology.RetentionAfter | client/src/features/flood-wave/utils/HydrologyCalculator.js:158-173 | the running volume is non-negative and never above the largest volume |
| Hydrology.CalculateRetentionVolume | client/src/features/flood-wave/utils/HydrologyCalculator.js:157-175 | the loop returns the largest running volume of the specification, which is non-negative |
| Hydrology.RetentionStep | client/src/features/flood-wave/utils/HydrologyCalculator.js:168-172 | one more sample adds its excess volume, clamps at 0 and raises the largest volume when the running one passes it |
| Hydrology.RetentionIsLargestRunningVolume | client/src/features/flood-wave/utils/HydrologyCalculator.js:158-174 | no prefix of the hydrograph holds more than the result, and the result is 0 or the running volume of some prefix |
| Hydrology.NoExcessNoRetention | client/src/features/flood-wave/utils/HydrologyCalculator.js:168-171 | when no discharge exceeds the allowed one, the retention volume is 0 |
| Hydrology.Factorial | client/src/features/flood-wave/utils/HydrologyCalculator.js:177-183 | -1 for a negative argument, 1 for 0, and for a positive integer at least the argument itself (so at least 1) |
| Hydrology.FactorialIsMultiple | client/src/features/flood-wave/utils/HydrologyCalculator.js:177-183 | n! is a multiple of every d from 1 to n |
| SwmmBuilder.SafeFloatFacts | client/src/features/isybau/core/services/SwmmBuilder.js:192-196 | a missing, empty or NaN value gives the default, a number itself, a text the number `parseFloat` reads from it |
| SwmmBuilder.PadFacts | client/src/features/isybau/core/services/SwmmBuilder.js:569-577 | a missing value is a zero padded to 10; a number is its three-decimal text padded to 10; other values their text padded to 16 |
| SwmmBuilder.KindSteps | client/src/features/isybau/core/services/SwmmBuilder.js:203-225 | one more node extends the list of its own kind and no other |
| SwmmBuilder.OfKindMembers | client/src/features/isybau/core/services/SwmmBuilder.js:203-225 | a node is in the list of its own kind and in no other |
| SwmmBuilder.OfKindPartition | client/src/features/isybau/core/services/SwmmBuilder.js:203-225 | the three lists together hold every node exactly as often as the input |
| SwmmBuilder.ClassifyPartition | client/src/features/isybau/core/services/SwmmBuilder.js:203-234 | after the fallback every node is still in exactly one list, and the storage list is unchanged |
| SwmmBuilder.ClassifyFallback | client/src/features/isybau/core/services/SwmmBuilder.js:228-234 | the fallback happens exactly when there is no outfall and some junction; it moves the first lowest junction to the outfalls and warns |
| SwmmBuilder.ClassifyHasOutfall | client/src/features/isybau/core/services/SwmmBuilder.js:203-234 | there is no outfall exactly when every node is storage |
| SwmmBuilder.ClassifiedFacts | client/src/features/isybau/core/services/SwmmBuilder.js:198-234 | storage holds the nodes of positive volume; without the fallback the outfalls are the marked nodes; with it the single outfall is the lowest junction, named in the warning |
| SwmmBuilder.SuffixedInjective | client/src/features/isybau/core/services/SwmmBuilder.js:128-129 | different counters give different names |
| SwmmBuilder.TriedStep | client/src/features/isybau/core/services/SwmmBuilder.js:128 | rejecting a used candidate leaves fewer used names to meet, so the search ends |
| SwmmBuilder.FreeSuffix | client/src/features/isybau/core/services/SwmmBuilder.js:127-128 | the first counter from k on whose suffixed name is free |
| SwmmBuilder.UniqueName | client/src/features/isybau/core/services/SwmmBuilder.js:125-130 | the name is not yet used; a free name stays as it is, a used one gets the smallest free counter suffix |
| SwmmBuilder.SplitSizesSum | client/src/features/isybau/core/services/SwmmBuilder.js:177-179 | the two parts of a split area add up to its size and are not negative for a ratio between 0 and 100 |
| SwmmBuilder.FirstSplitArea | client/src/features/isybau/core/services/SwmmBuilder.js:124-184 | splitting area A first names its parts A and A_2 and records only A as used |
| SwmmBuilder.FirstAreaStep | client/src/features/isybau/core/services/SwmmBuilder.js:124-184 | the first area A alone marks only A as used |
| SwmmBuilder.FirstAreaEntries | client/src/features/isybau/core/services/SwmmBuilder.js:177-181 | a split area has two entries, the second named A_2 |
| SwmmBuilder.SplitNameCollision | client/src/features/isybau/core/services/SwmmBuilder.js:122-184 | an area A split in two followed by an area A_2 gives two subcatchments named A_2 |
| SwmmBuilder.SubcatchmentsStep | client/src/features/isybau/core/services/SwmmBuilder.js:124-185 | one more area adds its own step to the subcatchments of the earlier ones |
| SwmmBuilder.AreaStepKeepsNamesDistinct | client/src/features/isybau/core/services/SwmmBuilder.js:124-185 | one area's entries keep all names distinct |
| SwmmBuilder.AppendKeepsNamesDistinct | client/src/features/isybau/core/services/SwmmBuilder.js:131 | fresh, distinct, recorded names keep all names distinct |
| SwmmBuilder.EntryNames | client/src/features/isybau/core/services/SwmmBuilder.js:177-184 | an area's entries carry its name, and the second name when it is split |
| SwmmBuilder.SubcatchmentNamesUnique | client/src/features/isybau/core/services/SwmmBuilder.js:122-185 | no two subcatchments share a name |
| SwmmBuilder.SubcatchmentCount | client/src/features/isybau/core/services/SwmmBuilder.js:124-185 | one subcatchment per area, two for a split one; at most one slope warning per area |
| SwmmBuilder.NodeById | client/src/features/isybau/core/services/SwmmBuilder.js:409-413 | the node found has this id, and none is found exactly when no node has it |
| SwmmBuilder.ManningFacts | client/src/features/isybau/core/services/SwmmBuilder.js:444-454 | Manning's n lies in (0, 1]: 0.011 for no value, the reciprocal of a Strickler value above 1, the value itself otherwise |
| SwmmBuilder.OffsetFacts | client/src/features/isybau/core/services/SwmmBuilder.js:459-470 | an offset is never negative, and is the height above the node's invert when one is given |
| SwmmBuilder.LinkLengthFacts | client/src/features/isybau/core/services/SwmmBuilder.js:420-440 | a conduit is longer than 0.001, its given length kept exactly when that is above 0.001, and a replaced length comes with a warning |
| SwmmBuilder.ShapeWidths | client/src/features/isybau/core/services/SwmmBuilder.js:523 | rectangles, trapezoids and arches need a width, circles and eggs do not |
| SwmmBuilder.SectionFacts | client/src/features/isybau/core/services/SwmmBuilder.js:475-527 | the height exceeds 0.001 and so does a needed width; the shape is one of six; a trapezoid has equal side slopes; one warning per replaced dimension |
| SwmmBuilder.LinkOfFacts | client/src/features/isybau/core/services/SwmmBuilder.js:411-529 | an edge is skipped with its warning exactly when a node is missing; a conduit joins the edge's nodes with a length above 0.001, Manning's n in (0, 1] and offsets not negative |
| SwmmBuilder.Outcomes | client/src/features/isybau/core/services/SwmmBuilder.js:411-530 | one outcome per edge, in order |
| SwmmBuilder.SkippedEdgesWarned | client/src/features/isybau/core/services/SwmmBuilder.js:415-418 | each skipped edge adds its own warning |
| SwmmBuilder.SkippedIndicesStep | client/src/features/isybau/core/services/SwmmBuilder.js:415-418 | one more outcome adds one skipped index when it is skipped |
| SwmmBuilder.GatherWarningsStep | client/src/features/isybau/core/services/SwmmBuilder.js:415-418 | one more skipped outcome adds at least one warning |
| SwmmBuilder.AllSkippedNoLines | client/src/features/isybau/core/services/SwmmBuilder.js:405-534 | when every edge is skipped no conduit and no cross-section line is written |
| SwmmBuilder.Builder.constructor | client/src/features/isybau/core/services/SwmmBuilder.js:7-19 | no sections and no warnings |
| SwmmBuilder.Builder.ClassifyNodes | client/src/features/isybau/core/services/SwmmBuilder.js:198-234 | the three lists are the classification, and the fallback warning is appended when there is one |
| SwmmBuilder.Builder.SplitByKind | client/src/features/isybau/core/services/SwmmBuilder.js:203-225 | the loop gives each kind's nodes in input order |
| SwmmBuilder.Builder.FreeName | client/src/features/isybau/core/services/SwmmBuilder.js:126-130 | the loop gives the unique name for the used set (the corrected naming of the third Findings row: for a split area A followed by an area A_2 the source names the three subcatchments A, A_2, A_2 and these members A, A_2, A_2_1) |
| SwmmBuilder.Builder.NameArea | client/src/features/isybau/core/services/SwmmBuilder.js:125-184 | one area's names, entries and warnings (the corrected naming of the third Findings row: for a split area A followed by an area A_2 the source names the three subcatchments A, A_2, A_2 and these members A, A_2, A_2_1) |
| SwmmBuilder.Builder.AddSubcatchments | client/src/features/isybau/core/services/SwmmBuilder.js:114-185 | the subcatchments with unique names, in area order, and their slope warnings appended (the corrected naming of the third Findings row: for a split area A followed by an area A_2 the source names the three subcatchments A, A_2, A_2 and these members A, A_2, A_2_1) |
| SwmmBuilder.Builder.NameAreas | client/src/features/isybau/core/services/SwmmBuilder.js:124-185 | the loop over the areas gives the naming of all of them (the corrected naming of the third Findings row: for a split area A followed by an area A_2 the source names the three subcatchments A, A_2, A_2 and these members A, A_2, A_2_1) |
| SwmmBuilder.Builder.AddLinks | client/src/features/isybau/core/services/SwmmBuilder.js:405-534 | the conduit and cross-section sections of the edges are appended, with every warning of the edges |
| JsNum.Round | client/src/features/flood-2D/middleware/BoundaryTools.js:18-21 | `Math.round` gives the integer within half a unit, halves going up |
| JsNum.RoundMonotone | client/src/features/flood-2D/middleware/BoundaryTools.js:178-181 | rounding never reverses the order of two numbers |
| JsNum.LeadingDigits | client/src/features/flood-2D/middleware/OutputProcessor.js:118 | the longest prefix made of decimal digits: the next character, if any, is not a digit |
| JsNum.DigitChar | client/src/features/isybau/core/services/SwmmBuilder.js:580 | the digit character of a value below ten reads back as that value |
| JsNum.NatToString | client/src/features/isybau/core/services/SwmmBuilder.js:580 | `String(n)` of a non-negative integer is a non-empty run of digits that reads back as `n` |
| JsNum.IntToString | client/src/features/isybau/core/services/SwmmBuilder.js:576 | `String(i)` of an integer is digits, with a minus sign only in front |
| JsNum.PadStart | client/src/features/isybau/core/services/SwmmBuilder.js:580 | `padStart(n, c)` gives at least `n` characters, the string at the end and only `c` in front |
| JsNum.PadEnd | client/src/features/isybau/core/services/SwmmBuilder.js:570-576 | `padEnd(n)` gives at least `n` characters, the string in front and only spaces after it |
| JsNum.NatToStringLength | client/src/features/isybau/core/services/SwmmBuilder.js:580 | a number below ten to the `d` has at most `d` digits |
| JsNum.ZerosInFront | client/src/features/isybau/core/services/SwmmBuilder.js:580 | zeros in front of a digit string do not change its value |
| JsNum.ToFixedFacts | client/src/features/isybau/core/services/SwmmBuilder.js:573 | `toFixed(d)` is an optional minus, the whole part, a point and exactly `d` digits, which read back as the rounded, scaled magnitude; the text is a numeral |
| JsNum.ToFixedDigits | client/src/features/isybau/core/services/SwmmBuilder.js:573 | the whole part and the `d` decimals of `toFixed` are digits that read back as the rounded, scaled magnitude |
| JsNum.NumeralTexts | client/src/features/isybau/core/services/SwmmBuilder.js:570-576 | the texts of `toFixed` and of integers hold only numeral characters |
| JsNum.FixedParts | client/src/features/isybau/core/services/SwmmBuilder.js:573 | the whole part reads as the quotient by ten to the `d`, the decimals as the remainder, padded to `d` digits |
| JsNum.PaddedDecimals | client/src/features/isybau/core/services/SwmmBuilder.js:573 | the remainder padded with zeros to `d` digits has exactly `d` digits and keeps its value |
| JsNum.FracPart | client/src/features/flood-2D/middleware/OutputProcessor.js:118 | the digits after the point that follows the integer part |
| JsNum.LeadingDigitsOfDigits | client/src/features/flood-2D/middleware/OutputProcessor.js:118 | the leading digits of digits followed by a non-digit are exactly those digits |
| JsNum.ParseFloatOfNat | client/src/features/flood-2D/middleware/OutputProcessor.js:118 | `parseFloat` reads back the decimal form of a natural number, whatever follows it, unless that could continue the literal |
| JsNum.ParseFloatOfDigit | client/src/features/flood-2D/middleware/OutputProcessor.js:118 | a text starting with a digit is read as an unsigned literal |
| JsNum.ParseFloatNeedsDigit | client/src/features/flood-2D/middleware/OutputProcessor.js:118 | without a digit, point, sign or white space at the start, `parseFloat` gives NaN |
| JsNum.ParseFloatMinus | client/src/features/flood-2D/middleware/OutputProcessor.js:118 | a minus sign in front negates the value |
| JsText.TrimStart | client/src/features/isybau/utils/SwmmOutParser.js:440 | what remains is a suffix; everything removed is white space; it does not start with white space |
| JsText.TrimEnd | client/src/features/isybau/utils/SwmmOutParser.js:440 | what remains is a prefix; everything removed is white space; it does not end with white space |
| JsText.TrimFacts | client/src/features/isybau/utils/SwmmOutParser.js:440 | a trimmed string neither starts nor ends with white space, and is empty exactly when the input was all white space (both directions) |
| JsText.Split | client/src/features/isybau/utils/SwmmOutParser.js:435 | `split(sep)` gives at least one piece, and no piece holds the separator |
| JsText.JoinSplit | client/src/features/isybau/utils/SwmmOutParser.js:435 | joining the pieces with the separator gives the string back |
| JsText.SplitWithoutSeparator | client/src/features/isybau/utils/SwmmOutParser.js:435 | a string without the separator splits into itself alone |
| JsText.SplitAppend | client/src/features/isybau/utils/SwmmOutParser.js:435 | a separator between two strings splits exactly there |
| JsText.TerminatedAppend | client/src/features/flood-2D/middleware/Rasterizer.js:18 | appending one terminated line to a text adds that line and its separator |
| JsText.TerminatedConcat | client/src/features/flood-2D/middleware/Rasterizer.js:18 | the text of two runs of terminated lines is the two texts one after the other |
| JsText.SplitTerminated | client/src/features/flood-2D/middleware/Rasterizer.js:18 | splitting a text of terminated lines gives the lines back, then one empty piece |
| JsText.JoinAvoids | client/src/features/flood-2D/middleware/Rasterizer.js:18 | a character other than the separator occurs in a join only if it occurs in a part |
| JsText.Words | client/src/features/isybau/utils/SwmmOutParser.js:461 | `split(/\s+/)` gives at least one piece, and no piece holds white space |
| JsText.WordsAfterFirstNonEmpty | client/src/features/flood-2D/middleware/Rasterizer.js:21 | in a string that does not end in white space, every piece after the first is non-empty |
| JsText.WordsStartsWithWord | client/src/features/flood-2D/middleware/Rasterizer.js:21 | a string that starts with a non-space character has a non-empty first piece that starts with that character |
| JsText.WordsOfTrimmed | client/src/features/flood-2D/middleware/OutputProcessor.js:114-116 | a trimmed, non-empty line splits into non-empty words only |
| JsText.ToLower | client/src/features/flood-2D/middleware/OutputProcessor.js:118 | `toLowerCase` keeps the length and lowers each ASCII letter in place; other letters are kept, where `toLowerCase` folds them too |
| Sorting.Insert | client/src/features/email/stores/useEmailStore.js:176 | insertion keeps every element and adds exactly `x` (multiset), one longer |
| Sorting.SortBy | client/src/features/email/stores/useEmailStore.js:176 | the sorted sequence is a permutation of its input, of the same length |
| Sorting.InsertAbove | client/src/features/flood-2D/utils/RainModelService.js:79 | inserting an element at or above a lower bound keeps the bound for every element |
| Sorting.InsertSorted | client/src/features/flood-2D/utils/RainModelService.js:79 | inserting into an ascending sequence keeps it ascending |
| Sorting.SortBySorted | client/src/features/isybau/core/services/SwmmBuilder.js:230 | `sort` with a key-difference comparator gives an ascending permutation of its input |
| Sorting.InsertKeepsKeyOrder | client/src/features/isybau/core/services/SwmmBuilder.js:230 | about `WithKey`: an inserted element comes first among the elements of its own key, and the others of that key keep their order |
| Sorting.SortByIsStable | client/src/features/isybau/core/services/SwmmBuilder.js:230 | about `WithKey`: the sort is stable, so for every key the elements with that key are in their input order |
| Sorting.FirstMinimum | client/src/features/isybau/core/services/SwmmBuilder.js:230-231 | the index of an element with the smallest key, with every earlier element's key strictly larger |
| Sorting.SortByHeadIsFirstMinimum | client/src/features/isybau/core/services/SwmmBuilder.js:230-231 | the first element after the stable sort is the first input element with the smallest key |
| Bytes.Decode | client/src/features/flood-2D/middleware/OutputProcessor.js:32 | one character per byte, in order, each the byte's `ToChar` |
| Bytes.ToChar | client/src/features/isybau/utils/SwmmOutParser.js:69 | an ASCII byte is the character with its code, and any other byte the replacement character U+FFFD |
| Bytes.DecodeAscii | client/src/features/flood-2D/middleware/OutputProcessor.js:32 | about `Decode`: a decoded character has its byte's code exactly when the byte is ASCII (both directions) |

## Definitions

The definitions the contracts above are stated in terms of. Small helpers (absolute values, index arithmetic, the frames of a class) are left out of this list.

| definition | source | defines |
|---|---|---|
| LisfloodDriver.ClockAfter | client/src/features/flood-2D/solverHydro/src/lisflood-fp-bmi-v5.9/lib_bmi.cpp:42-51 | the clock record after `k` steps: the one `init_iterateq` prepares, then the engine's readings after each `iterateq_step` |
| LisfloodDriver.Done | client/src/features/flood-2D/solverHydro/src/lisflood-fp-bmi-v5.9/lib_bmi.cpp:48 | the loop condition `t < Sim_Time` fails |
| LisfloodDriver.StepCount | client/src/features/flood-2D/solverHydro/src/lisflood-fp-bmi-v5.9/lib_bmi.cpp:47-59 | the number of loop rounds of a whole run, if the loop ends |
| LisfloodDriver.ArgvText | client/src/features/flood-2D/solverHydro/src/lisflood-fp-bmi-v5.9/lib_bmi.cpp:22-29 | the two argument strings "lisflood" and the parameter path |
| LisfloodDriver.RunLog | client/src/features/flood-2D/solverHydro/src/lisflood-fp-bmi-v5.9/lib_bmi.cpp:32-70 | the engine calls of a run: `init`, then `final` on failure, or `init_iterateq`, `n` steps and `final` once the loop ended |
| LisfloodDriver.Heartbeats | client/src/features/flood-2D/solverHydro/src/lisflood-fp-bmi-v5.9/lib_bmi.cpp:53-58 | the status lines of every 100th of the first `n` steps, each with the clock read after it |
| LisfloodDriver.RunOutput | client/src/features/flood-2D/solverHydro/src/lisflood-fp-bmi-v5.9/lib_bmi.cpp:19-58 | the printed lines: mode banner, parameter file, then the failure line or the loop start and the heartbeats |
| LisfloodDriver.CString | client/src/features/flood-2D/solverHydro/src/lisflood-fp-bmi-v5.9/lib_bmi.cpp:26-28 | the text a `char*` buffer holds up to its terminating NUL |
| BoundaryTools.At | client/src/features/flood-2D/middleware/BoundaryTools.js:26-42 | the cell after `i` x steps and `j` y steps from the start, towards the end cell |
| BoundaryTools.ErrAt | client/src/features/flood-2D/middleware/BoundaryTools.js:28-42 | Bresenham's error term after `i` x steps and `j` y steps |
| BoundaryTools.NextI | client/src/features/flood-2D/middleware/BoundaryTools.js:34-38 | the x step rule `2 err > -dy` |
| BoundaryTools.NextJ | client/src/features/flood-2D/middleware/BoundaryTools.js:34-42 | the y step rule `2 err < dx` |
| BoundaryTools.RoundedLine | client/src/features/flood-2D/middleware/BoundaryTools.js:18-21 | the line between the rounded end points |
| BoundaryTools.LineCells | client/src/features/flood-2D/middleware/BoundaryTools.js:16-45 | `discretizeLine`: the cells of the walk from the start cell to the end cell |
| BoundaryTools.SegmentCells | client/src/features/flood-2D/middleware/BoundaryTools.js:128-138 | the cells of segment `i` of a polyline, its ends taken to grid coordinates |
| BoundaryTools.SegmentsCells | client/src/features/flood-2D/middleware/BoundaryTools.js:128-147 | the cells of the first `n` segments in order, repeats included |
| BoundaryTools.PolylineCells | client/src/features/flood-2D/middleware/BoundaryTools.js:124-149 | `discretizePolyline`: those cells, each kept at its first occurrence |
| BoundaryTools.FirstSeenOrder | client/src/features/flood-2D/middleware/BoundaryTools.js:140-146 | a list holds the distinct elements of another, in the order they first occur |
| BoundaryTools.Prev | client/src/features/flood-2D/middleware/BoundaryTools.js:105 | the vertex before vertex `i`, cyclically (`j = i++`) |
| BoundaryTools.Crosses | client/src/features/flood-2D/middleware/BoundaryTools.js:109-110 | the edge into vertex `i` straddles the point's height and meets it to the right of the point |
| BoundaryTools.XOnEdge | client/src/features/flood-2D/middleware/BoundaryTools.js:110 | the x at which the edge meets the point's height |
| BoundaryTools.Crossings | client/src/features/flood-2D/middleware/BoundaryTools.js:105-112 | the number of the first `n` edges the ray crosses |
| BoundaryTools.PointInPolygon | client/src/features/flood-2D/middleware/BoundaryTools.js:102-114 | `isPointInPolygon`: an odd number of crossings |
| BoundaryTools.IsBoundingBox | client/src/features/flood-2D/middleware/BoundaryTools.js:60-72 | the smallest box holding every vertex |
| BoundaryTools.RangeOf | client/src/features/flood-2D/middleware/BoundaryTools.js:74-78 | the cell range of a box |
| BoundaryTools.Center | client/src/features/flood-2D/middleware/BoundaryTools.js:83-85 | the world centre of a cell |
| BoundaryTools.Selected | client/src/features/flood-2D/middleware/BoundaryTools.js:81-90 | a cell of the range whose centre lies in the polygon |
| BoundaryTools.RowMajorBefore | client/src/features/flood-2D/middleware/BoundaryTools.js:81-82 | the order in which the loops visit cells: by row, then by column |
| BoundaryTools.Gap | client/src/features/flood-2D/middleware/BoundaryTools.js:172 | the difference of neighbouring sorted x values |
| BoundaryTools.IsFirstGap | client/src/features/flood-2D/middleware/BoundaryTools.js:169-177 | the first gap above 0.001 between sorted x values, or 1 when there is none |
| BoundaryTools.RoundToThousandths | client/src/features/flood-2D/middleware/BoundaryTools.js:178 | `Math.round(g * 1000) / 1000` |
| BoundaryTools.HeaderFits | client/src/features/flood-2D/middleware/BoundaryTools.js:157-192 | `getGridHeader`: a header whose first cell is centred on the lowest x and y, whose cell size is the first gap rounded to thousandths, in one of whose cells every point lies, and whose size is `SpansLargest` |
| BoundaryTools.SpansLargest | client/src/features/flood-2D/middleware/BoundaryTools.js:180-181 | the last column and row are those of the points with the largest x and y |
| BoundaryTools.IsData | client/src/features/flood-2D/middleware/BoundaryTools.js:217 | a value above the no-data value by more than 0.1 |
| BoundaryTools.IsGap | client/src/features/flood-2D/middleware/BoundaryTools.js:204 | a value at most 0.1 above the no-data value |
| BoundaryTools.NeighbourAt | client/src/features/flood-2D/middleware/BoundaryTools.js:208-216 | the value of one of the eight neighbours, none off the grid |
| BoundaryTools.NeighbourStats | client/src/features/flood-2D/middleware/BoundaryTools.js:205-223 | the sum and count of the data neighbours |
| BoundaryTools.FilledCell | client/src/features/flood-2D/middleware/BoundaryTools.js:203-227 | a gap with data neighbours becomes their mean; every other cell keeps its value |
| BoundaryTools.RowsFilled | client/src/features/flood-2D/middleware/BoundaryTools.js:201-230 | the first `rows` rows of the grid hold the filled cells of the original |
| BoundaryTools.RawIndex | client/src/features/flood-2D/middleware/BoundaryTools.js:247-263 | the row-major index `row * ncols + col` |
| BoundaryTools.Accepted | client/src/features/flood-2D/middleware/BoundaryTools.js:262-264 | a cell on the grid whose value lies above -9990 |
| BoundaryTools.Ring | client/src/features/flood-2D/middleware/BoundaryTools.js:253-257 | the ring of an offset, its Chebyshev norm |
| BoundaryTools.ScannedBefore | client/src/features/flood-2D/middleware/BoundaryTools.js:253-257 | the order of the ring search: inner rings first, then by column offset, then by row offset |
| BoundaryTools.FirstInRings | client/src/features/flood-2D/middleware/BoundaryTools.js:242-271 | the first accepted cell in that order up to `maxRadius`, or none |
| Rasterizer.XyzLines | client/src/features/flood-2D/middleware/Rasterizer.js:18 | the lines of the trimmed XYZ text |
| Rasterizer.PointOfLine | client/src/features/flood-2D/middleware/Rasterizer.js:21-28 | the point of a line's first three words, for a line of at least three |
| Rasterizer.PointsOf | client/src/features/flood-2D/middleware/Rasterizer.js:20-29 | the points of the lines, in line order |
| Rasterizer.ColAt | client/src/features/flood-2D/middleware/Rasterizer.js:39 | the column of a world x, counted from the first cell's centre |
| Rasterizer.RowAt | client/src/features/flood-2D/middleware/Rasterizer.js:41 | the row of a world y, counted from the top |
| Rasterizer.Lands | client/src/features/flood-2D/middleware/Rasterizer.js:39-44 | a point lands in cell `k` of the row-major grid |
| Rasterizer.RowText | client/src/features/flood-2D/middleware/Rasterizer.js:72 | `values.join(' ')` with each value shown by `show` |
| Rasterizer.RowLine | client/src/features/flood-2D/middleware/Rasterizer.js:69-72 | row `i`'s line: the `ncols` values from `i * ncols` on |
| Rasterizer.AscText | client/src/features/flood-2D/middleware/Rasterizer.js:59-75 | the whole ESRI ASCII text, each line ended by a line feed |
| Rasterizer.Burns | client/src/features/flood-2D/middleware/Rasterizer.js:102-125 | a building modification with a polygon that has an outer ring |
| Rasterizer.Outline | client/src/features/flood-2D/middleware/Rasterizer.js:127 | the outer ring of the building's polygon |
| Rasterizer.HeightOf | client/src/features/flood-2D/middleware/Rasterizer.js:128 | the height property, or 10 when it is missing or 0 |
| Rasterizer.VertexCol | client/src/features/flood-2D/middleware/Rasterizer.js:139 | the grid column of a vertex |
| Rasterizer.VertexRow | client/src/features/flood-2D/middleware/Rasterizer.js:140 | the grid row of a vertex |
| Rasterizer.Lowest | client/src/features/flood-2D/middleware/Rasterizer.js:131-146 | the running minimum of the vertex cells |
| Rasterizer.Highest | client/src/features/flood-2D/middleware/Rasterizer.js:131-146 | the running maximum of the vertex cells |
| Rasterizer.BoxOf | client/src/features/flood-2D/middleware/Rasterizer.js:131-152 | the vertices' cell range, clamped to the grid |
| Rasterizer.CellPoint | client/src/features/flood-2D/middleware/Rasterizer.js:98-99 | the world position of a cell's reference point |
| Rasterizer.Raised | client/src/features/flood-2D/middleware/Rasterizer.js:155-175 | cell `k` is raised: it lies in the box, its reference point in the polygon, and its value above -9000 |
| Rasterizer.BurntUpTo | client/src/features/flood-2D/middleware/Rasterizer.js:155-175 | the raster after the cells visited before (`row`, `col`) were processed |
| OutputProcessor.Newlines | client/src/features/flood-2D/middleware/OutputProcessor.js:22-27 | the number of line feed bytes |
| OutputProcessor.EndsAfterSixthNewline | client/src/features/flood-2D/middleware/OutputProcessor.js:19-29 | the header ends right after the sixth line feed |
| OutputProcessor.HeaderLine | client/src/features/flood-2D/middleware/OutputProcessor.js:114-119 | one header line: a non-blank line of two or more words sets its lower-cased first word to the number of its second |
| OutputProcessor.HeaderLines | client/src/features/flood-2D/middleware/OutputProcessor.js:110-120 | `parseHeader`'s map, a later line with the same key winning |
| OutputProcessor.HasGridSize | client/src/features/flood-2D/middleware/OutputProcessor.js:121 | `ncols` and `nrows` both truthy |
| OutputProcessor.IsNumberByte | client/src/features/flood-2D/middleware/OutputProcessor.js:59 | the bytes a number can hold: digits, `.`, `-`, `+`, `e`, `E` |
| OutputProcessor.Pending | client/src/features/flood-2D/middleware/OutputProcessor.js:57-61 | the run of number bytes still being built at the end |
| OutputProcessor.Completed | client/src/features/flood-2D/middleware/OutputProcessor.js:54-84 | the runs of number bytes a separator has closed, in order |
| OutputProcessor.Tokens | client/src/features/flood-2D/middleware/OutputProcessor.js:54-96 | all runs, the trailing one included |
| OutputProcessor.Stored | client/src/features/flood-2D/middleware/OutputProcessor.js:69-89 | the value stored for a token: 0 in place of no-data |
| OutputProcessor.Counts | client/src/features/flood-2D/middleware/OutputProcessor.js:71-76 | a value that enters the statistics: a number that is not no-data |
| OutputProcessor.CountedValues | client/src/features/flood-2D/middleware/OutputProcessor.js:71-76 | the values of the tokens that enter the statistics, in order |
| OutputProcessor.NoDataOf | client/src/features/flood-2D/middleware/OutputProcessor.js:39 | `header.nodata_value`, or -9999 when the header has none |
| OutputProcessor.ArrayLength | client/src/features/flood-2D/middleware/OutputProcessor.js:38 | the length `new Float32Array(total)` gets, or a RangeError for a negative count |
| OutputProcessor.CellCount | client/src/features/flood-2D/middleware/OutputProcessor.js:37 | `header.ncols * header.nrows` |
| OutputProcessor.GridOf | client/src/features/flood-2D/middleware/OutputProcessor.js:37-107 | the grid, extremes and negative-depth flag the body bytes give under the header |
| OutputProcessor.BodyOutcome | client/src/features/flood-2D/middleware/OutputProcessor.js:37-107 | a RangeError for a negative cell count, else that grid |
| OutputProcessor.CrawlState | client/src/features/flood-2D/middleware/OutputProcessor.js:45-96 | the crawler's stored values, extremes and flag after the tokens read so far |
| OutputProcessor.CrawledUpTo | client/src/features/flood-2D/middleware/OutputProcessor.js:54-84 | what the crawler holds after a prefix of the body: the pending number, the tokens read and the statistics |
| SwmmOut.UInt32LE | client/src/features/isybau/utils/SwmmOutParser.js:13 | the unsigned value of four little-endian bytes |
| SwmmOut.ToInt32 | client/src/features/isybau/utils/SwmmOutParser.js:13 | `getInt32`: that value in two's complement |
| SwmmOut.SlotAt | client/src/features/isybau/utils/SwmmOutParser.js:124 | the `k`-th integer after a position |
| SwmmOut.SignatureAt | client/src/features/isybau/utils/SwmmOutParser.js:119-126 | the block of system variable codes: 15 followed by the codes 0 to 14 |
| SwmmOut.ScanLimit | client/src/features/isybau/utils/SwmmOutParser.js:114 | `Math.min(byteLength - 100, 5000)` |
| SwmmOut.FirstSignature | client/src/features/isybau/utils/SwmmOutParser.js:112-134 | the first position of that block the scan finds, after the 28-byte opening record |
| SwmmOut.InferredCounts | client/src/features/isybau/utils/SwmmOutParser.js:160-178 | the variable counts read backwards from the codes block |
| SwmmOut.Sanitized | client/src/features/isybau/utils/SwmmOutParser.js:184-188 | counts taken as a false match and reset to 1 when negative or above 50 subcatchment variables |
| SwmmOut.BytesPerStep | client/src/features/isybau/utils/SwmmOutParser.js:199-204 | the size of one step record: the date, one float per variable and object, the system variables |
| SwmmOut.ReadingAt | client/src/features/isybau/utils/SwmmOutParser.js:272-302 | the variables read from one object's record |
| SwmmOut.ReadingsFrom | client/src/features/isybau/utils/SwmmOutParser.js:266-305 | the records of a run of objects, a later id overriding an earlier one |
| SwmmOut.StepAt | client/src/features/isybau/utils/SwmmOutParser.js:254-318 | one step read at an offset |
| SwmmOut.MoreSteps | client/src/features/isybau/utils/SwmmOutParser.js:248 | the condition of the step loop |
| SwmmOut.StepsFrom | client/src/features/isybau/utils/SwmmOutParser.js:248-319 | the steps read while 16 bytes remain, fewer than 50000 were read and a whole step record remains |
| SwmmOut.Timed | client/src/features/isybau/utils/SwmmOutParser.js:322-328 | the steps with their times measured from the first date, in seconds |
| SwmmOut.Parsed | client/src/features/isybau/utils/SwmmOutParser.js:39-331 | `parse`: magic number, counts, ids, the section search, the steps |
| SwmmOut.HeaderMatches | client/src/features/isybau/utils/SwmmOutParser.js:443 | the header test of a plain pattern with alternatives |
| SwmmOut.EndsTable | client/src/features/isybau/utils/SwmmOutParser.js:453-460 | a blank line, a `***` banner or the `Analysis begun` line ends a table |
| SwmmOut.TableStep | client/src/features/isybau/utils/SwmmOutParser.js:440-464 | one line of the report: the row it passes to the callback, if any |
| SwmmOut.TableScan | client/src/features/isybau/utils/SwmmOutParser.js:439-466 | the scan state after some lines, and the rows they yielded |
| SwmmOut.TableRows | client/src/features/isybau/utils/SwmmOutParser.js:434-467 | `parseTable`: the rows passed to the callback |
| SwmmOut.RowShaped | client/src/features/isybau/utils/SwmmOutParser.js:461-463 | a row: more than two parts, none empty or holding white space |
| SwmmOut.Separators | client/src/features/isybau/utils/SwmmOutParser.js:448 | the lines that start, trimmed, with `---` |
| SwmmOut.ZeroIfNaN | client/src/features/isybau/utils/SwmmOutParser.js:538-542 | `isNaN(x) ? 0 : x` |
| SwmmOut.CappedPercent | client/src/features/isybau/utils/SwmmOutParser.js:557-558 | a ratio as a percentage, capped at 100 |
| SwmmOut.LinkSummaryOf | client/src/features/isybau/utils/SwmmOutParser.js:535-571 | a link's flow, velocity, ratios, capacity and utilisation |
| SwmmOut.LinkFlowRow | client/src/features/isybau/utils/SwmmOutParser.js:529-533 | the parsed columns of a link flow row |
| SwmmOut.Collect | client/src/features/isybau/utils/SwmmOutParser.js:516-573 | the entries of the rows with a value, a later id overriding an earlier one |
| SwmmOut.LinkFlows | client/src/features/isybau/utils/SwmmOutParser.js:516-573 | the links of the rows, each with the summary of its last row that has a numeric flow |
| RainModel.StepCount | client/src/features/flood-2D/utils/RainModelService.js:9 | `Math.ceil(duration / interval)` for a non-zero interval |
| RainModel.StrictlyAscending | client/src/features/flood-2D/utils/RainModelService.js:31-34 | the available durations, sorted without repeats |
| RainModel.Intensity | client/src/features/flood-2D/utils/RainModelService.js:36-59 | `getI`: the row's own entry, else the interpolation between the scan's neighbours, else the nearest one, else 0 |
| RainModel.Lerp | client/src/features/flood-2D/utils/RainModelService.js:51 | the linear interpolation between the lower and upper durations |
| RainModel.Depth | client/src/features/flood-2D/utils/RainModelService.js:68-69 | the rain depth `I * d * 0.006` |
| RainModel.NegHeight | client/src/features/flood-2D/utils/RainModelService.js:79 | the comparator `(a, b) => b.height - a.height`, heights largest first |
| RainModel.PlacementFrame | client/src/features/flood-2D/utils/RainModelService.js:84-100 | the slots filled so far are the range between the two free slots, each used once |
| RainModel.PlacementOutward | client/src/features/flood-2D/utils/RainModelService.js:86-100 | each later block on a side lands further from the peak than the earlier ones there |
| RainModel.PlacementInvariant | client/src/features/flood-2D/utils/RainModelService.js:84-100 | both of these together |
| IsybauStore.Bounded | client/src/features/isybau/store/index.js:224-266 | the two history stacks hold at most `maxSize` (20) snapshots together |
| IsybauStore.Saved | client/src/features/isybau/store/index.js:224-236 | `saveHistory`: the document pushed on the undo stack, the oldest dropped past 20, the redo stack cleared |
| IsybauStore.Undone | client/src/features/isybau/store/index.js:238-251 | `undo`: the current document goes to redo and the top of undo becomes current |
| IsybauStore.Redone | client/src/features/isybau/store/index.js:253-266 | `redo`: the mirror image of `undo` |
| IsybauStore.Touches | client/src/features/isybau/store/index.js:317 | the edge starts or ends at the node |
| IsybauStore.WithoutFirst | client/src/features/isybau/store/index.js:333-337 | the areas with the first one of the id spliced out |
| IsybauStore.SelectionTarget | client/src/features/isybau/store/index.js:341-356 | what `removeSelection` removes: nothing without a truthy id, else by the selected kind, else a node, an edge or an area by lookup |
| IsybauStore.RemovedBy | client/src/features/isybau/store/index.js:311-337 | the document after `removeNode`, `removeEdge` or `removeArea` of that target |
| EmailStore.CountersValid | client/src/features/email/stores/useEmailStore.js:6-13 | no folder's unread counter is negative |
| EmailStore.FindEmail | client/src/features/email/stores/useEmailStore.js:234 | `emails.findIndex(e => e.id === id)`, as `FindBy` on the ids |
| EmailStore.FindFolder | client/src/features/email/stores/useEmailStore.js:204 | `folders.find(f => f.id === id)`, as `FindBy` on the folder ids |
| EmailStore.Unread | client/src/features/email/stores/useEmailStore.js:180 | `emails.filter(e => !e.read)` |
| EmailStore.UnreadCount | client/src/features/email/stores/useEmailStore.js:179-181 | `unreadCount` |
| EmailStore.MarkRead | client/src/features/email/stores/useEmailStore.js:199-209 | `markAsRead` on the mailbox: an unread e-mail becomes read and its folder's positive counter drops by one |
| EmailStore.ReplyId | client/src/features/email/stores/useEmailStore.js:215 | the id `t<id>-<n>` of a thread's `n`-th message |
| EmailStore.Replied | client/src/features/email/stores/useEmailStore.js:211-228 | `sendReply` on the mailbox, with the two clock readings |
| EmailStore.Deleted | client/src/features/email/stores/useEmailStore.js:233-239 | the e-mails with the first one of the id spliced out |
| EmailStore.Newest | client/src/features/email/stores/useEmailStore.js:176 | the sort key of `b.date - a.date`, newest first |
| EmailStore.FolderEmails | client/src/features/email/stores/useEmailStore.js:173-177 | `currentFolderEmails`: the selected folder's e-mails, newest first |
| HydraulicStore.NewGanglinie | client/src/features/flood-2D/stores/useHydraulicStore.js:36-41 | a new hydrograph, flat at zero for one hour, with type `Zufluss` by default |
| HydraulicStore.AssignedTo | client/src/features/flood-2D/stores/useHydraulicStore.js:86-92 | the geo objects assigned to a hydrograph |
| HydraulicStore.Assigned | client/src/features/flood-2D/stores/useHydraulicStore.js:80-82 | every listed geo object, in order, assigned to the target |
| HydraulicStore.Consistent | client/src/features/flood-2D/stores/useHydraulicStore.js:45-84 | every assignment and the active id name existing hydrographs |
| HydraulicStore.Store.Rain | client/src/features/flood-2D/stores/useHydraulicStore.js:14-28 | the rain input: series, KOSTRA grid, location and configuration |
| Hydrology.Retention | client/src/features/flood-wave/utils/HydrologyCalculator.js:37 | the potential maximum retention `S = 25400 / CN - 254` |
| Hydrology.Excess | client/src/features/flood-wave/utils/HydrologyCalculator.js:41-46 | the SCS runoff `(P - Ia)^2 / (P - Ia + S)` above the initial abstraction `0.2 S` |
| Hydrology.Inflow | client/src/features/flood-wave/utils/HydrologyCalculator.js:113-117 | the inflow (m^3/s) of a step's rain depth on the area |
| Hydrology.Fill | client/src/features/flood-wave/utils/HydrologyCalculator.js:128-133 | a linear reservoir's storage after a step of constant inflow |
| Hydrology.OutflowAt | client/src/features/flood-wave/utils/HydrologyCalculator.js:110-142 | the cascade's outflow at the end of rain step `i` |
| Hydrology.Cofactor | client/src/features/flood-wave/utils/HydrologyCalculator.js:177-183 | the product of 1 to n with one factor left out |
| SwmmBuilder.SafeFloat | client/src/features/isybau/core/services/SwmmBuilder.js:192-196 | `safeFloat`: the parsed number, or the default for a missing, empty or non-numeric value |
| SwmmBuilder.Pad | client/src/features/isybau/core/services/SwmmBuilder.js:569-577 | `pad`: "0" for a missing value, a number to three decimals padded to 10, any other value padded to 16 |
| SwmmBuilder.MarkedOutfall | client/src/features/isybau/core/services/SwmmBuilder.js:214-217 | the marks that make a node an outfall |
| SwmmBuilder.KindOf | client/src/features/isybau/core/services/SwmmBuilder.js:208-224 | a positive volume makes storage, an outfall mark an outfall, anything else a junction |
| SwmmBuilder.OfKind | client/src/features/isybau/core/services/SwmmBuilder.js:203-225 | the nodes of one kind, in input order |
| SwmmBuilder.Elevation | client/src/features/isybau/core/services/SwmmBuilder.js:230 | the sort key of `(a, b) => a.z - b.z` |
| SwmmBuilder.Classify | client/src/features/isybau/core/services/SwmmBuilder.js:198-234 | the nodes by kind; without an outfall but with junctions the lowest junction becomes the outfall, with a warning |
| SwmmBuilder.Classified | client/src/features/isybau/core/services/SwmmBuilder.js:198-234 | `classifyAndAddNodes`'s classification: `Classify` by `KindOf` and elevation |
| SwmmBuilder.Suffixed | client/src/features/isybau/core/services/SwmmBuilder.js:128-129 | the candidate name `${name}_${counter}` |
| SwmmBuilder.BaseName | client/src/features/isybau/core/services/SwmmBuilder.js:125 | the area's id, or `Area_` with the random characters |
| SwmmBuilder.SlopeOf | client/src/features/isybau/core/services/SwmmBuilder.js:139-146 | the slope class's percentage, or none for any other class |
| SwmmBuilder.HasSplit | client/src/features/isybau/core/services/SwmmBuilder.js:149 | a non-blank second outlet node splits the area |
| SwmmBuilder.Outlet | client/src/features/isybau/core/services/SwmmBuilder.js:161 | the outlet node, or `FK003` |
| SwmmBuilder.SplitSizes | client/src/features/isybau/core/services/SwmmBuilder.js:177-179 | the two parts of a split area by the split percentage |
| SwmmBuilder.AreaEntries | client/src/features/isybau/core/services/SwmmBuilder.js:133-184 | the one or two subcatchments of an area |
| SwmmBuilder.AreaStepAsWritten | client/src/features/isybau/core/services/SwmmBuilder.js:124-184 | one area of the loop as written: only the first name is made unique and remembered |
| SwmmBuilder.SubcatchmentsAsWritten | client/src/features/isybau/core/services/SwmmBuilder.js:114-185 | the naming of all areas as written |
| SwmmBuilder.AreaStep | client/src/features/isybau/core/services/SwmmBuilder.js:124-184 | one area with both names made unique and remembered (the corrected naming) |
| SwmmBuilder.Subcatchments | client/src/features/isybau/core/services/SwmmBuilder.js:114-185 | the corrected naming of all areas |
| SwmmBuilder.NamesDistinct | client/src/features/isybau/core/services/SwmmBuilder.js:122-131 | no two subcatchments share a name, and each is among the used names |
| SwmmBuilder.Manning | client/src/features/isybau/core/services/SwmmBuilder.js:444-454 | Manning's n: 0.011 without a value, `1 / kst` above 1, the value itself otherwise |
| SwmmBuilder.Offset | client/src/features/isybau/core/services/SwmmBuilder.js:466-470 | the invert's height above the node, never negative, 0 without an invert |
| SwmmBuilder.LinkLength | client/src/features/isybau/core/services/SwmmBuilder.js:420-440 | the edge's length, else the distance of its nodes, else 10 m |
| SwmmBuilder.NeedsWidth | client/src/features/isybau/core/services/SwmmBuilder.js:523 | the shapes that need a width |
| SwmmBuilder.RawSection | client/src/features/isybau/core/services/SwmmBuilder.js:475-515 | the cross section the profile names, before the defaults |
| SwmmBuilder.Section | client/src/features/isybau/core/services/SwmmBuilder.js:518-527 | a height up to 0.001 becomes 1, and so does the width of a shape that needs one |
| SwmmBuilder.LinkOf | client/src/features/isybau/core/services/SwmmBuilder.js:411-529 | one edge: skipped with a warning when a node is missing, else its conduit and cross-section lines and warnings |
| SwmmBuilder.ConduitLine | client/src/features/isybau/core/services/SwmmBuilder.js:472 | the conduit line |
| SwmmBuilder.XSectionLine | client/src/features/isybau/core/services/SwmmBuilder.js:529 | the cross-section line |
| SwmmBuilder.Gather | client/src/features/isybau/core/services/SwmmBuilder.js:411-533 | the lines and warnings of the edges, accumulated in order |
| SwmmBuilder.LinksOf | client/src/features/isybau/core/services/SwmmBuilder.js:405-534 | `addLinks`: `Gather` over the edges' outcomes |
| SwmmBuilder.FallbackWarning | client/src/features/isybau/core/services/SwmmBuilder.js:233 | the warning that the lowest junction was made the outfall |
| SwmmBuilder.SlopeWarning | client/src/features/isybau/core/services/SwmmBuilder.js:145 | the warning that an area's slope class was missing and set to 0.5 % |
| SwmmBuilder.MissingNodesWarning | client/src/features/isybau/core/services/SwmmBuilder.js:416 | the warning that an edge was skipped for a missing node |
| SwmmBuilder.RoughnessWarnings | client/src/features/isybau/core/services/SwmmBuilder.js:449 | the warning that a conduit's roughness was missing and set to 0.011, when it was |
| JsNum.Truthy | client/src/features/flood-2D/middleware/OutputProcessor.js:121 | a number is truthy unless it is 0 or NaN |
| JsNum.DigitsValue | client/src/features/flood-2D/middleware/OutputProcessor.js:118 | the value of a string of decimal digits |
| JsNum.FixedUnits | client/src/features/isybau/core/services/SwmmBuilder.js:573 | the integer `x.toFixed(d)` shows: the magnitude times ten to the `d`, rounded half up |
| JsNum.ToFixed | client/src/features/isybau/core/services/SwmmBuilder.js:573 | `x.toFixed(d)` below 10^21: a minus sign for a negative value, the whole part, the point and `d` decimals |
| JsNum.FixedText | client/src/features/isybau/core/services/SwmmBuilder.js:573 | the text of `n` units of ten to the `-d` |
| JsNum.Exponent | client/src/features/flood-2D/middleware/OutputProcessor.js:118 | the exponent part of a decimal literal, or 0 |
| JsNum.Mantissa | client/src/features/flood-2D/middleware/OutputProcessor.js:118 | the value of the digits before and after the point |
| JsNum.ParseUnsigned | client/src/features/flood-2D/middleware/OutputProcessor.js:118 | the unsigned decimal literal at the start of a text: digits, optionally a point and digits, optionally an exponent |
| JsNum.LiteralValue | client/src/features/flood-2D/middleware/OutputProcessor.js:118 | the value of that literal |
| JsNum.ParseFloat | client/src/features/flood-2D/middleware/OutputProcessor.js:66 | `parseFloat`: leading white space skipped, an optional sign, then the longest decimal literal, or NaN |
| JsText.IsSpace | client/src/features/flood-2D/middleware/Rasterizer.js:21 | the characters `\s` and `trim` treat as white space |
| JsText.Trim | client/src/features/flood-2D/middleware/Rasterizer.js:18 | `trim` |
| JsText.Join | client/src/features/flood-2D/middleware/Rasterizer.js:72 | `parts.join(sep)` |
| JsText.Terminated | client/src/features/flood-2D/middleware/Rasterizer.js:60-73 | lines each followed by the separator, as built by `+= line + sep` |
| JsText.Contains | client/src/features/isybau/utils/SwmmOutParser.js:443 | a plain pattern's regular expression test: the text contains it |
| Mappings.CategoryTable | client/src/features/isyifc/utils/mappings.js:146-155 | the label table of each category `getMapping` knows |
| Mappings.Includes | client/src/features/isyifc/utils/mappings.js:171 | `material.includes(key)`: the key occurs as a contiguous piece |
| KostraHelper.InBand | client/src/features/flood-2D/utils/KostraHelper.js:67-75 | an easting strictly inside the million-band of a Gauss-Krueger zone |
| Sorting.WithKey | client/src/features/isybau/core/services/SwmmBuilder.js:230 | the elements of a sequence with one key, in their order |
| Sorting.SortedBy | client/src/features/isybau/core/services/SwmmBuilder.js:230 | ascending order of a key, as a comparator `a.k - b.k` sorts |


## Left out

- The IEEE float decoders (`DataView.getFloat32`, `getFloat64`) are parameters of the SWMM reader and of the ASC crawler, not bit-level definitions.
- Numbers are reals, not IEEE doubles or `Float32`. Rounding error, overflow to `Infinity` and signed zero are not modelled.
- `toFixed` is modelled only below 10^21. Above that JavaScript switches to exponent notation, which is not modelled.
- The string literal `"Infinity"` accepted by `parseFloat` is not modelled. Such a token parses as NaN.
- Bytes.Decode: each byte of 128 or more becomes U+FFFD. Multi-byte UTF-8 sequences are not decoded into their characters, so non-ASCII text (station names with umlauts, say) is not modelled.
- The binary reader assumes a `byteOffset` of 0 in the underlying buffer.
- Console logging, progress callbacks, `setTimeout` yields and UI messages are left out. The LISFLOOD heartbeat at every 100th step is part of the modelled output as a `Heartbeat` record of the step and the clock; only its `printf` formatting is not modelled.
- Clocks (`Date.now()`), `crypto.randomUUID()` and `Math.random()` are parameters supplied by the caller, and so are random area names and timestamps in the stores.
- `Math.sqrt`, `Math.pow` and `Math.exp` are parameters where the result is irrational. Where possible they are exact values.
- Rasterizer.ColAt: requires `cellsize > 0`, which the source assumes without checking. The same holds for the other Rasterizer grid-index functions.
- BoundaryTools.DiscretizePolyline: requires `cellSize != 0`, which the source assumes without checking. The same holds for BoundaryTools.GetCellsInPolygon.
- Rasterizer.GridToAsc: requires non-negative `ncols` and `nrows`, which the source derives from its own header.
- Rasterizer.ParsePoints: a line with three or more words, one of the first three of which `parseFloat` reads as NaN, is dropped, where the source keeps a point with NaN coordinates. So a text of only such lines gives "Empty Point Cloud" where the source goes on to compute a NaN header, and a point with a NaN `z` leaves its cell at no-data where the source stores NaN.
- SwmmBuilder.ClassifiedFacts: the fallback outfall is the first junction with the least `SafeFloat(z, 0)`, so a NaN, missing or non-numeric `z` sorts as 0 (and a text like "12abc" as 12). The source sorts with `(a, b) => a.z - b.z`, which returns NaN for such a `z`; `sort` reads that as "equal", so the order, and with it the chosen outfall, is implementation-defined (junctions with z = 5, NaN, -1 may keep their order and make the z = 5 node the outfall, where the model picks the z = -1 node). The same holds for SwmmBuilder.ClassifyFallback and SwmmBuilder.Builder.ClassifyNodes.
- SwmmOut: `parseReport`'s callbacks other than the link flow table, `extractStat` and `calculateCapacity` are not modelled.
- IsybauStore: the JSON round trip of `JSON.parse(JSON.stringify(state))` is modelled by storing snapshots as values. Aliasing between live state and history is not modelled. The store's `Map`s become Dafny maps, which keep no insertion order, so the order in which the source iterates them is not modelled.
- IsybauStore.AddEdge: of `properties`, only an optional `id` is modelled. A spread that overrides `fromNodeId`/`toNodeId` and the computed edge length are not modelled.
- EmailStore: the demo seed emails are constructor parameters, not the literal fixtures.
- EmailStore.Store.SendReply: the reply is not moved to the sent folder. The comment next to `reply` says it is, but the code does not move it, and the model follows the code; EmailStore.RepliedFacts states the same.
- EmailStore.DeleteEmail: folder counts are not adjusted, as in the source.
- Mappings: `generateRoughnessMap` (a canvas image) is not modelled.
- Hydrology: `calculateUnitHydrograph` is not modelled. It builds a floating-point curve from `Math.pow` and `Math.exp` with no discrete logic of its own.
- Hydrology.CalculateFloodWave: requires `k != 0` and `dt != 0`. The source divides by both without a check.
- SwmmBuilder: the section text of junctions, outfalls, storage, coordinates, subcatchments, DWF, timeseries, title, options and raingages is not modelled. Only the decisions behind them are: classification, naming, splitting and the conduit and xsection rules.
- SwmmBuilder: `formatDate` is not modelled.
- SwmmBuilder.Subcatchment: the imperviousness, width and Horton columns are not fields of the model.
- LisfloodDriver.Engine.constructor: the engine's clock readings after each step are a finite script given up front. When the script runs out with the clock still short of its target, the model reports an unfinished run (no `final` call) at that point, where the source would go on calling `iterateq_step`, possibly forever. The same holds for LisfloodDriver.Iterate and LisfloodDriver.RunLisflood.
- LisfloodDriver.Iterate: the counter `iter` is a C `int`; its overflow after 2^31 - 1 steps is not modelled.
- LisfloodDriver.RunLisflood: requires a path without a `'\0'` character. In C the argument ends at its first NUL, so such a path cannot be passed. The same holds for LisfloodDriver.BuildArgv.
- RainModel.GetI: a KOSTRA row is a map from duration to intensity, so its property keys are taken to be the durations' canonical number strings. A key such as "05", which `Number` reads as 5 (RainModelService.js:31-34) but which `kostraRow[5]` does not find, is not modelled.
- RainModel.CalculateBlockRain: requires `interval != 0` or `duration <= 0`. With interval 0 and a positive duration the source's step count is `Infinity` and its loop never returns. A zero interval with a duration of 0 or less gives NaN or `-Infinity` steps there, and the empty series here.
- RainModel.CalculateEulerType2: requires `interval != 0` or `duration <= 0`, for the same never-ending loop. With a zero interval and a duration of 0 or less the model returns the RangeError that `new Array(NaN)` or `new Array(-Infinity)` throws. The same holds for RainModel.CalculateEulerType2AsWritten.
- Hydrology.Factorial: modelled on integers only. For a fractional `num` the source recurses past 0 to a negative argument, whose -1 makes the result minus the product `num (num - 1) ...` down to that argument; this case is not modelled, and neither is floating-point overflow of large factorials to `Infinity`.
- JsText.ToLower: folds the ASCII letters only. `toLowerCase` also folds other letters (umlauts and the rest of Unicode), which is not modelled.
- Rasterizer.GridToAsc: each cell value is shown by `show`, a parameter standing for JavaScript's `Number` `toString` of a `Float32Array` element. Its digits are not defined in the model.
- Concurrency, React rendering, map drawing and file I/O are not modelled.

## Findings

| source | as written | input that shows it | evidently intended | confidence | as-written member | corrected member |
|---|---|---|---|---|---|---|
| client/src/features/flood-2D/middleware/BoundaryTools.js:246-250 | the start cell is read at its raw index `row * ncols + col` without the bounds check the ring cells get | start column -1, row 1 in a 2 x 2 grid of zeros: raw index 1 is valid, so the off-grid cell (-1, 1) is returned | an off-grid start is never a result; the search moves to the rings | not executed | BoundaryTools.OffGridCentreAccepted | BoundaryTools.FindNearestValidCell |
| client/src/features/flood-2D/utils/RainModelService.js:28-84 | for zero steps the largest (missing) block is still written to slot 0 and grows the empty array | duration 0 with interval 5: zero steps, yet a one-entry series | zero steps give an empty series | not executed | RainModel.ZeroDurationCounterexample | RainModel.CalculateEulerType2 |
| client/src/features/isybau/core/services/SwmmBuilder.js:122-184 | the second part of a split area is named `name_2`, which is neither checked against nor added to the used names | area A with a second node, then area A_2: two subcatchments are named A_2 | every subcatchment name is unique | not executed | SwmmBuilder.SplitNameCollision | SwmmBuilder.SubcatchmentNamesUnique |
