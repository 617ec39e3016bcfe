# Population queries over a prefix-sum raster

This project models the aggregation engine of a population-query server.
The engine has four parts:

- **The raster.** A 2 × 4 mosaic of population tiles. Each row is turned
  into a running sum (`DataManipulator.process`).
- **Range reads.** Any run of one raster row is summed as the difference
  of two prefix cells (`DataAccessor.query`).
- **Geometry.** Integer convex-hull and point-location code builds a
  polygon from a request's points (`calc_convex`, `point_in_convex`,
  `point_in_convex_linear`). A scanline then sums the raster over the
  polygon (`calc_whole_convex`).
- **The handlers.** `total` answers one region. `grid` answers a grid of
  square cells over the region's bounding box, and keeps a per-request
  cache of corner tests.

Conventions follow the source:

- A `Point2D` has `x` as the raster row and `y` as the column.
- The raster holds 21600 × 43200 cells.
- The tile edge is `Projection.Constant` (10800).

Modules, one file each:

- `wrappers.dfy`: `Option` and `Result`. `Err` carries the message of the
  exception the source raises.
- `projection.dfy`: `Point2D`, `Point3D`, `from_portion`, `from_rad`,
  `project`, `__hash__` and `__sub__`, over exact reals.
- `data_manip.dfy`: the `DataManipulator` class and the steps of
  `process`.
  - Each step is an `array2` loop: tile copy, sentinel replacement,
    row-wise cumulative sum, and the total over the last column.
  - The tile edge is a parameter. The functions `Cleaned`, `RowPrefix`,
    `RangeSum` and `Total` state what each step computes.
- `accessor.dfy`: `query` and `query_all_sum`, with numpy's indexing
  rules: negative indices wrap once, anything beyond raises
  `IndexError`.
- `hull.dfy`: `cross` and the in-place sort by (x, y).
  - `calc_convex` is the lower and upper chain loops over an index stack
    and a `used` array.
  - The loops are proved equal to a recursive specification,
    `ChainIndices`. The shape of the ring is proved about that
    specification.
- `locate.dfy`: `point_in_convex_linear`, and the binary search of
  `point_in_convex`.
- `scanline.dfy`: the `MinMax` and `MinMaxDict` classes, and the edge
  walk and summing loop of `calc_whole_convex`.
  - Dict insertion order is kept, because the summing loop visits keys in
    that order and stops at the first error.
- `server.dfy`: the synchronous bodies of `total_handler` and
  `grid_handler`, including the corner cache and its early exit.
  - A ghost log `calls` gets one entry each time `point_in_convex` runs.
  - `CellTested`, `ColumnTested` and `GridTested` are the corners the
    corner loops test in one cell, in a column prefix and in a grid prefix.

Where the code and the design description of the system disagree, the
model follows the code:

- **Start after end.** `query` with a start column after the end column
  returns the negated sum of the columns in between, not 0
  (`Accessor.QueryIsRangeSum`).
- **Clamp.** An end column past the raster is clamped to 43109, not to
  the last column 43199 (see Findings).
- **Grid cell size.** A grid cell of width `w` at (x, y) sums rows
  x..x+w over columns y..y+w, both ends included. For a 10 × 10 square
  that is 11 × 11 = 121 raster cells, not 100
  (`Server.SquareIntervals`).
- **Wrap edge.** The linear containment test checks the edges i → i+1
  for i < len − 1 only, never the wrap edge. The same holds for the edge
  walk of `calc_whole_convex`.
  - This is harmless for the closed rings `calc_convex` returns: they
    repeat their first point at the end, so the ring's last edge is the
    wrap edge (`Scanline.ClosingPointAddsWrapEdge`, `Hull.HullRing`).

## Model

| member | source | states |
|---|---|---|
| Projection.HashInjective | src/projection/projection.py:27-28 | for points on the raster, `x * 43200 + y` is equal for two points exactly when the points are equal, and lies in [0, 21600 * 43200) |
| Projection.SubComponentwise | src/projection/projection.py:56-57 | the difference is zero exactly for equal points; adding the subtrahend back gives the minuend |
| Projection.FromPortion | src/projection/projection.py:30-54 | accepted exactly when x ∈ [-2, 2] and y ∈ [-1, 1]; each rejection carries its ValueError message, x checked first; every accepted result is a raster cell |
| Projection.FromPortionExamples | src/projection/projection_test.py:37-48 | (0, 0) ↦ (10800, 21600), (1, 1) ↦ (0, 32400), (-1, -1) ↦ (21599, 10800) |
| Projection.FromPortionMonotone | src/projection/projection.py:47-49 | after the swap the row depends only on the latitude portion and falls as it rises; the column depends only on the longitude portion and rises with it |
| Projection.FromRad | src/projection/projection.py:72-89 | accepted exactly inside [-π, π] × [-π/2, π/2], with the inputs stored unchanged; each rejection carries its ValueError message, the longitude checked first |
| Projection.FromRadExamples | src/projection/projection_test.py:7-18 | the origin and the two extreme corners are accepted unchanged |
| Projection.ProjectAccepted | src/projection/projection.py:161-165 | `project` of any point `from_rad` accepts succeeds and lands on the raster |
| DataManip.LayoutBase | src/data_manip/data_manip.py:29-38 | layout entry i is block (i div 4, i mod 4), offset by that many tile edges |
| DataManip.BlocksPartition | src/data_manip/data_manip.py:29-39 | the 8 blocks cover the 2 × 4 tile raster, and each cell lies in exactly one of them |
| DataManip.CopyTile | src/data_manip/data_manip.py:39 | the slice assignment writes the tile into its block and leaves every other cell as it was |
| DataManip.AssembleStep | src/data_manip/data_manip.py:35-39 | after tile i is placed, cells of its block hold that tile and all others keep their earlier value |
| DataManip.Assemble | src/data_manip/data_manip.py:34-39 | a fresh zeroed 2s × 4s array in which every cell holds the value of the tile whose block contains it |
| DataManip.ReplaceSentinel | src/data_manip/data_manip.py:48-50 | every -9999 becomes 0 and every other cell is unchanged |
| DataManip.CumSumRows | src/data_manip/data_manip.py:51 | each cell becomes the sum of the cleaned cells of its row up to and including its column |
| DataManip.PrefixStep | src/data_manip/data_manip.py:51 | two neighbouring prefix cells differ by the cleaned cell between them |
| DataManip.PrefixDifference | src/data_manip/data_manip.py:51 | prefix(hi + 1) − prefix(lo) is the sum of the cleaned cells lo..hi |
| DataManip.PrefixMonotone | src/data_manip/data_manip.py:51 | with no negative data, a prefix never decreases along a row |
| DataManip.CleanedNonNegative | src/data_manip/data_manip.py:48-50 | with no negative data, every cleaned cell is at least 0 |
| DataManip.RangeSumNonNegative | src/data_manip/data_manip.py:48-51 | with no negative data, every range sum is at least 0 |
| DataManip.TotalRowsMonotone | src/data_manip/data_manip.py:53-55 | with no negative data, the running total over rows never decreases |
| DataManip.SumLastColumn | src/data_manip/data_manip.py:53-55 | the sum of the last cell of every row is the sum of all cleaned cells |
| DataManip.DataManipulator.constructor | src/data_manip/data_manip.py:15-17 | no raw tiles and no processed array |
| DataManip.DataManipulator.LoadRaw | src/data_manip/data_manip.py:19-26 | appends the loaded tiles in order; the processed array is untouched |
| DataManip.DataManipulator.Process | src/data_manip/data_manip.py:28-56 | the processed array is fresh, of the raster's shape, holds the row prefix sums of the cleaned mosaic; `raw` is emptied; `s` is the total of the cleaned mosaic |
| Accessor.NpIndex | src/server/algo.py:136-139 | a numpy index is accepted exactly in [-n, n); a negative one counts from the end |
| Accessor.QueryWith | src/server/algo.py:130-141 | rows from 21600 on give 0; an IndexError happens exactly when the row is below -21600, the read end is below -43200, or start − 1 is out of range for a nonzero start |
| Accessor.Query | src/server/algo.py:130-141 | rows from 21600 on give 0; a row in [0, 21600) with start in [0, 43200] and end ≥ 0 never raises |
| Accessor.QueryReadsPrefixes | src/server/algo.py:136-140 | the answer is the prefix cell at the (clamped) end minus the prefix cell before the start |
| Accessor.QueryIsRangeSum | src/server/algo.py:130-141 | on the processed raster, the raw sum of columns start..end (end clamped); when start is past end, the negated sum of the columns in between |
| Accessor.QueryAsWritten | src/server/algo.py:133-134 | an end inside the row sums up to it; an end past the row sums only up to column 43109 |
| Accessor.QueryClampLosesTail | src/server/algo.py:133-134 | the clamped answer misses exactly the columns 43110..43199 |
| Accessor.QueryIntended | src/server/algo.py:130-141 | the query with the clamp to the last column: rows from 21600 on give 0, and in-range requests never fail |
| Accessor.QueryIntendedToRowEnd | src/server/algo.py:133-134 | with the clamp to the last column, an overflowing end sums through the end of the row |
| Accessor.QueryAllSum | src/server/algo.py:127-128 | what it reads: the prefix of row 21509 through column 43109 |
| Accessor.QueryAllSumMissesRows | src/server/algo.py:127-128 | with no negative data, any positive cell outside that prefix (in another row, or in row 21509 past column 43109) makes the answer less than the raster total |
| Accessor.QueryAllSumIntended | src/data_manip/data_manip.py:53-55 | the sum of the last column is the raster total |
| Accessor.LastColumnRows | src/data_manip/data_manip.py:53-55 | the sum of the last column over the first k rows is the total of those rows |
| Accessor.LastColumnTotal | src/data_manip/data_manip.py:53-55 | the sum of the whole last column is the raster total |
| Hull.CrossAntisymmetric | src/server/algo.py:39-47 | cross(a, b) = −cross(b, a) and cross(a, a) = 0 |
| Hull.Insert | src/server/algo.py:58 | inserting into a sorted list stays sorted and adds exactly that point |
| Hull.SortPoints | src/server/algo.py:58 | a sorted permutation of the points under (x, y) |
| Hull.SortedUnique | src/server/algo.py:58 | two sorted permutations of the same points are equal, so any sort gives `SortPoints` |
| Hull.SiftDown | src/server/algo.py:58 | after inserting element i, a[..i+1] is sorted and the contents are a permutation |
| Hull.Sort | src/server/algo.py:58 | sorts the array in place by (x, y), as a permutation |
| Hull.SortInPlace | src/server/algo.py:58 | the array becomes `SortPoints` of its old contents |
| Hull.PopWhile | src/server/algo.py:66-69 | pops leave a prefix of the stack and never go below the floor; when they stop above the floor, the last two entries make a strict left turn with the new point |
| Hull.PopStack | src/server/algo.py:66-81 | the pop loop computes `PopWhile` and clears `used` for each popped index |
| Hull.LowerChainShape | src/server/algo.py:64-71 | the lower chain runs from index 0 to n − 1, strictly increasing, with a strict left turn at every triple |
| Hull.LowerLoop | src/server/algo.py:59-71 | the first loop builds exactly the lower chain; `used[i]` holds exactly for the indices i ≠ 0 on the stack |
| Hull.UsedAt | src/server/algo.py:62-76 | `used[k]` holds exactly when k ≠ 0 is on the stack, so index 0 is never skipped |
| Hull.UpperLoop | src/server/algo.py:73-83 | the second loop, skipping used indices, builds exactly the upper chain of the specification |
| Hull.ChainShape | src/server/algo.py:61-85 | the result extends the lower chain with strict left turns above the base; for n ≥ 2 it has at least 3 entries and starts and ends at index 0 |
| Hull.Chain | src/server/algo.py:59-85 | the stack loops over a sorted list produce exactly the specified ring |
| Hull.CalcConvex | src/server/algo.py:50-85 | sorts its argument in place and returns the hull of the old contents |
| Hull.HullRing | src/server/algo.py:58-85 | every hull point is an input point; one point gives itself; n ≥ 2 points give a closed ring of at least 3 that starts and ends at the least point |
| Locate.PointInConvexLinear | src/server/algo.py:88-99 | false exactly when some edge i → i+1 with i < len − 1 has a negative cross product |
| Locate.LinearEdgesDoNotWrap | src/server/algo.py:96-97 | for i < len − 1 the index (i + 1) mod len is i + 1, so the wrap edge is never checked |
| Locate.Search | src/server/algo.py:110-117 | the search interval only shrinks, ends with rb = lb + 1 once it had room, and keeps the fan bounds |
| Locate.SearchSector | src/server/algo.py:110-119 | for len ≥ 2 the search ends with 0 ≤ lb, rb = lb + 1 ≤ len − 1 and the answer is the final cross test |
| Locate.PointInConvex | src/server/algo.py:102-119 | the loop computes the binary search and returns its final cross test |
| Scanline.SeqMinMax | src/server/algo.py:9-19 | the least and greatest values seen are among them and bound all of them |
| Scanline.MinMax.constructor | src/server/algo.py:10-12 | the interval of a single value |
| Scanline.MinMax.Update | src/server/algo.py:14-16 | one more value seen |
| Scanline.MinMax.Get | src/server/algo.py:18-19 | (min, max) of all values seen, min ≤ max |
| Scanline.ValuesForSpec | src/server/algo.py:26-30 | a value is recorded for a key exactly when some update gave that pair |
| Scanline.KeyOrderSpec | src/server/algo.py:26-33 | the keys are distinct and are exactly the updated keys |
| Scanline.MinMaxDict.constructor | src/server/algo.py:23-24 | an empty map |
| Scanline.MinMaxDict.Update | src/server/algo.py:26-30 | records the pair, adds the key, and leaves every other key's interval unchanged |
| Scanline.MinMaxDict.Get | src/server/algo.py:35-36 | present exactly for updated keys, and then the (min, max) of that key's values |
| Scanline.MinMaxDict.Keys | src/server/algo.py:32-33 | distinct, exactly the updated keys, in first-insertion order |
| Scanline.TruncDivBounds | src/server/algo.py:164 | `int()` of a value between lo and hi stays between lo and hi |
| Scanline.SlopeValueInBox | src/server/algo.py:161-165 | every sloped sample lies between the edge's least and greatest y |
| Scanline.EdgeSamplesInBox | src/server/algo.py:150-165 | every sample of an edge lies in its bounding box, and every row between its ends is sampled |
| Scanline.RecordRow | src/server/algo.py:154-156 | records (x, y1) for x1..x2 in order |
| Scanline.RecordColumn | src/server/algo.py:157-159 | records (x1, y) for y1..y2 in order |
| Scanline.RecordSlope | src/server/algo.py:160-165 | records (x, int(k·x + b)) for x1..x2 in order |
| Scanline.RecordEdge | src/server/algo.py:148-165 | records exactly the samples of one edge |
| Scanline.EdgesUpToNext | src/server/algo.py:147 | each further edge appends its samples |
| Scanline.ClosingPointAddsWrapEdge | src/server/algo.py:147 | repeating the first point at the end adds exactly the wrap edge |
| Scanline.BoundaryCoversEdges | src/server/algo.py:147-165 | every row an edge i → i+1 with i < len − 1 crosses is a key of the map |
| Scanline.EdgesInRaster | src/server/algo.py:147-165 | with every hull point on the raster, every sample is a raster cell |
| Scanline.SumIntervals | src/server/algo.py:167-171 | the summing loop gives the first query error or the sum of the queries, keys in insertion order |
| Scanline.FoldIsSumQueries | src/server/algo.py:167-171 | the loop's fold equals the specified sum over the keys |
| Scanline.ErrorPersists | src/server/algo.py:167-171 | once a query raises, the aggregate is that error |
| Scanline.CalcWholeConvex | src/server/algo.py:144-171 | the whole procedure: edge walk into the interval map, then the summing loop |
| Scanline.IntervalInRaster | src/server/algo.py:169 | the interval of a key lies in [0, 43200) when all samples do |
| Scanline.SumQueriesInRaster | src/server/algo.py:167-171 | on the processed raster with samples inside it, the aggregate never fails and is the sum of the raw range sums per key |
| Scanline.CoveredSumNonNegative | src/server/algo.py:167-171 | with no negative data, that sum is at least 0 |
| Scanline.WholeConvexInRaster | src/server/algo.py:144-171 | for a polygon on the raster, the population is the sum of the range sums [min y, max y] over every sampled row, and is at least 0 with no negative data |
| Scanline.DescendingEdgeLeavesEdge | src/server/algo.py:150-165 | for a descending edge the first sample is (least x, least y), the upper endpoint's row and the lower endpoint's column; its cross product with the edge is at least the edge's row span, which no point within one column of the edge reaches |
| Scanline.DescendingEdgeExample | src/server/algo.py:150-165 | the edge (0, 10) → (10, 0) is sampled starting at (0, 0), where the edge is at (0, 10) |
| Scanline.NonDescendingEdgesAgree | src/server/algo.py:150-165 | on edges that do not descend, the code's samples are those of the corrected interpolation |
| Scanline.SlopeValueNearLine | src/server/algo.py:161-164 | each interpolated sample is less than one column from the line through the edge's ends at that row |
| Scanline.EdgeSamplesIntendedOnEdge | src/server/algo.py:150-165 | the corrected interpolation starts and ends at the edge's two endpoints |
| Server.TotalHandler | src/server/server.py:23-48 | an error for fewer than 3 points; otherwise the hull and its population, or the query's error message |
| Server.TotalInRaster | src/server/server.py:28-42 | for points on the raster, the answer is a closed ring of input points with the summed population, at least 0 with no negative data |
| Server.StepCount | src/server/server.py:71-73 | lo + n·w is visited by `range(lo, hi + 1, w)` exactly for n below the step count |
| Server.StepsClosedForm | src/server/server.py:71-73 | a non-empty range has (hi − lo) div w + 1 steps |
| Server.SquareHull | src/server/server.py:74-94 | `calc_convex` of a cell's four corners is the closed square from its lowest corner, counter-clockwise |
| Server.SquareIntervals | src/server/server.py:94-99 | the cell's rows are exactly x..x+w, each summed over the columns y..y+w |
| Server.AnyFromSpec | src/server/server.py:79-88 | the corner loop from k on finds a corner exactly when some corner from k on is inside |
| Server.TestedFromStops | src/server/server.py:86-88 | the loop stops at the first inside corner, or after the last one |
| Server.TestedFromSkips | src/server/server.py:79-88 | every corner checked before the stopping one is outside |
| Server.TestCorner | src/server/server.py:81-86 | answers `point_in_convex` for one corner; the cache stays sound and gains exactly that corner; the log gains one entry at most, and none on a cache hit |
| Server.CellInside | src/server/server.py:79-88 | true exactly when some corner is inside; the cache gains exactly the corners checked up to the first inside one; the log only grows |
| Server.SquarePopulation | src/server/server.py:93-99 | the population of a cell is `calc_whole_convex` of its square ring |
| Server.Cell | src/server/server.py:74-100 | −1 when no corner is inside, else the population of the cell's square; the cache gains exactly the cell's tested corners; the log only grows |
| Server.CellMarksOutside | src/server/server.py:89-100 | on the processed raster with no negative data, a cell is −1 exactly when no corner is inside |
| Server.CollectSpec | src/server/server.py:71-110 | the collected grid exists exactly when every cell succeeded, and then lists their values in order |
| Server.GridRow | src/server/server.py:73-100 | one column of the grid: the cells y = minY, minY + w, … up to maxY in order, or the first error; the cache gains exactly the column's tested corners when the column completes, and only some of them on an error; the log only grows |
| Server.ColumnTestedSpec | src/server/server.py:73-88 | a point is tested in the first k cells of a column exactly when it is a tested corner of one of those cells |
| Server.GridTestedSound | src/server/server.py:71-88 | every point tested in the first k columns is a tested corner of one of their cells |
| Server.GridTestedComplete | src/server/server.py:71-88 | every tested corner of a cell in the first k columns is tested in them |
| Server.GridRows | src/server/server.py:69-100 | the grid of all cells in order, or the first error; the log of `point_in_convex` calls has no repeats and lists only tested corners of the grid's cells, and all of them when the grid completes |
| Server.GridSpec | src/server/server.py:50-110 | never a total payload; an error for fewer than 3 points, then for width < 1; a grid only for valid input |
| Server.GridColumns | src/server/server.py:62-100 | the grid has (max x − min x) div w + 1 entries over the input points' box, the i-th being the collected cells of x = min x + i·w |
| Server.ColumnCells | src/server/server.py:73-100 | each entry has (max y − min y) div w + 1 cells, the j-th being the cell at y = min y + j·w |
| Server.GridHandler | src/server/server.py:50-110 | the handler computes `GridSpec`; `point_in_convex` runs on no point twice, only on corners the corner loops test, and on every one of them when a grid is returned; no call for a rejected request |

## Left out

- File I/O: `np.loadtxt` in `load_raw`, `save`/`load` and the server's loading at start-up. `LoadRaw` takes the tiles as a parameter, and the accessor takes the processed array as a parameter.
- float32 values and their rounding: raster cells are integers. The sloped-edge row `int(k * x + b)` is computed with an exact rational slope and truncation toward zero; the source uses a float slope, which can round a sample one column off.
- DataManip.DataManipulator.Process: the tile edge is a constructor parameter instead of the literal 10800. Only the accessor fixes the raster at 21600 × 43200. `Process` requires `WellFormed`: at most eight tiles, each a tile-edge square. On a ninth tile the source raises IndexError at `layout[i]` (data_manip.py:35-36, for example after two `load_raw()` calls), and on a tile of another shape numpy raises ValueError at the slice assignment. The model does not cover these error paths. The only caller loads eight tiles of that shape once.
- The Mollweide projection (`project_`, Newton and bisection on sin/cos), `inv_project`, `from_deg` and `Point3D.__str__`: trigonometric floating point. `Pi` is the exact value of the double `math.pi`.
- The Sanic application, routing, JSON parsing of the request, `run_in_executor`, logging and the ping route. Handlers receive the parsed points and width.
- Python's `str(e)` for an IndexError the handlers catch: it is modelled by the fixed message "index out of bounds".
- The client (tkinter, matplotlib, aiohttp), the CLI, configuration and utility modules.
- Hull.CalcConvex: on an empty list the source raises IndexError when the result reads `p[0]`; the model requires at least one point, and both handlers reject fewer than 3 points before calling it.
- Scanline.MinMaxDict.Get: a missing key raises KeyError in the source; the model returns `None`.
- Projection.FromPortion, Projection.FromRad, Projection.Project: the source computes in float64; the model computes over exact reals. It does not capture the rounding of the scaling in `from_portion` or of the divisions by π in `project`, so a value within rounding of a range bound or a cell boundary can land differently.
- DataManip.DataManipulator.Process: the source deletes `_data_raw` (data_manip.py:41), so a second `process()` or a later `load_raw()` raises AttributeError. The model empties `raw` instead, and then a second `Process` or a `LoadRaw` goes on without that error.
- Server.GridRows, Server.GridHandler: when a cell's sum fails, the log is bounded by the tested corners of the whole grid, not pinned to the cells visited before the failure.
- Locate.PointInConvex is not proved equal to the linear test; it promises only its final cross test.
- The `used` array of `calc_convex` is an `array<bool>`; the growing index stack is a `seq` local.

## Findings

| source | as written | input that shows it | evidently intended | confidence | as-written member | corrected member |
|---|---|---|---|---|---|---|
| src/server/algo.py:133-134 | an end column ≥ 43200 is clamped to 43109 | any row and start ≤ 43110 with end ≥ 43200: the columns 43110..43199 are not summed | clamp to the last column, 43199 | high, not executed | Accessor.QueryClampLosesTail | Accessor.QueryIntendedToRowEnd |
| src/server/algo.py:127-128 | the total reads the single cell [21509, 43109] | a raster with no negative data and a positive cell outside row 21509's first 43110 columns, such as (0, 0): the answer is less than the raster total | the sum of the last column over all rows, as `process` logs | high, not executed | Accessor.QueryAllSumMissesRows | Accessor.LastColumnTotal |
| src/server/algo.py:150-165 | a sloped edge is interpolated from (min x, min y) to (max x, max y) | the edge (0, 10) → (10, 0) is sampled at (0, 0) … (10, 10), its other diagonal | interpolate between the edge's own endpoints | medium, not executed | Scanline.DescendingEdgeExample | Scanline.EdgeSamplesIntendedOnEdge |
