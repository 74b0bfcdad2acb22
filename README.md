# designAR core, modelled in Dafny

designAR is a macOS drawing app for architectural sketches. This project
models and proves four pieces of its logic:

- **Contour tracer** (`image_tracer.dfy`, module `ImageTracer`). It takes an
  edge-filtered intensity raster (four bytes per pixel, channel 0 read at
  `(y * width + x) * 4`). It scans the raster row by row at stride
  `Int(simplification)`. From every unvisited pixel on the stride lattice that is brighter than
  128 it runs an 8-connected breadth-first flood fill. The fill uses a persistent
  `visited` grid (an `array2<bool>`), a FIFO queue, a fixed neighbour order
  and a 1000-point cap. It then thins each contour with the one-pass greedy
  path simplifier. Contours with more than three simplified points become
  black pencil paths of width 2.
- **Line post-processing** (`vision_tracer.dfy`, module `VisionTracer`, with
  the generic clustering in `greedy.dfy`, module `Greedy`). This covers:
  - edge-pixel sampling at stride 2 with the threshold 100;
  - Hough voting over 180 angle steps and the vote threshold of 20;
  - the distance between two lines;
  - merging two lines;
  - the greedy single-pass merge of nearby lines;
  - the length/confidence filter of `optimizeLines`;
  - the normalized-to-image coordinate conversion;
  - the five-point rectangle path.
- **OBJ and Grasshopper export** (`model3d.dfy`, module `Model3DGenerator`).
  - Every path becomes a bottom ring of vertices at z = 0 and a top ring at
    z = extrusion, then n wrap-around quad side faces, an ascending bottom
    cap and a descending top cap. All indices are global and 1-based, and
    they advance by 2n per path.
  - The OBJ text is modelled as a sequence of records (comment, vertex,
    face, blank line).
  - The Grasshopper export is modelled as its exact JSON text, given a
    function that renders a coordinate.
- **Drawing document** (`drawing_tool.dfy`, module `Drawing`). It covers the
  tool enumeration with its icons, id-only path equality, and the
  `DrawingViewModel` class. The class has its `paths` list, the in-progress
  `currentPath`, the `wallThickness → lineWidth` coupling and its edit
  operations.

`common.dfy` (`Common`) and `geometry.dfy` (`Geometry`) hold shared values:
points, the raster, squared distance, subsequence embedding and decimal
numerals.

Every `sqrt` comparison of the source is stated on squares:

- `length > 10` becomes `dx² + dy² > 100`;
- `distance < 20` becomes a squared distance `< 400`.

Coordinates (`CGFloat`, `Double`) are modelled as `real`.

Loops stay loops. Where a loop body carries a long invariant, the body is a
method of its own that the loop calls:

- `FillStep` and `CollectPixel` for the flood fill;
- `ScanNext`, `ScanRow` and `ScanLattice` for the scan;
- `KeepNext` for the line filter;
- `AppendEntries`, `AppendEntry` and `AppendPoints` for the Grasshopper text.

The flood fill is proved equal to `FillFrom`, a recursive breadth-first
reference that pops the queue head, skips or collects it, queues the open
neighbours behind the rest of the queue and stops at 1000 points. So the
order of the collected points, which decides what the simplifier keeps, is
fixed. Its guarantees (connected, distinct, bright, complete below the cap)
are proved about the reference.

The scan also returns, as a ghost result, the regions it traced in scan
order. Its paths are a function of those regions (`ContourPaths`). The
invariant `Scanned` says each region is the reference fill from its first
pixel over the earlier regions, and starts at the first bright lattice pixel
those left. With coverage of every bright lattice pixel this fixes the
regions: `ScanDeterminate` proves that two region sequences with both
properties are equal.

## Model

| member | source | states |
|---|---|---|
| ImageTracer.SimplifyPath | designAR/ImageTracer.swift:136-160 | The loop computes the simplification function. An input of fewer than 3 points comes back unchanged. Otherwise the result keeps the input's first and last point, is never longer, and has only input points. |
| ImageTracer.SimplifyProperties | designAR/ImageTracer.swift:136-160 | The simplified path is an index-subsequence of the input with the same first and last point. Every point after the first is farther than the tolerance from its predecessor, except a forced final point. |
| ImageTracer.KeptEmbeds | designAR/ImageTracer.swift:139-153 | The points the loop keeps form a subsequence of the input that starts at its first point. |
| ImageTracer.KeptSpacing | designAR/ImageTracer.swift:144-152 | Each point the loop keeps lies more than the tolerance from the previously kept point. |
| ImageTracer.DirectionsAreNeighbours | designAR/ImageTracer.swift:102 | A pixel's offset to another is one of the eight directions exactly when the two pixels are 8-neighbours. |
| ImageTracer.Expansion | designAR/ImageTracer.swift:123-129 | Every neighbour queued from a pixel is in bounds, unvisited and reached by one of the given offsets. There are never more than the offsets. |
| ImageTracer.ExpansionPrefix | designAR/ImageTracer.swift:123-128 | One more offset adds its neighbour to the end of the queue exactly when that neighbour is in bounds and unvisited, and adds nothing otherwise. |
| ImageTracer.EnqueueNeighbours | designAR/ImageTracer.swift:123-129 | The queue grows by exactly the in-bounds, unvisited neighbours, taken in the fixed direction order, so by at most 8. |
| ImageTracer.OpenNeighbours | designAR/ImageTracer.swift:123-129 | Every neighbour listed is in bounds, neither visited before the fill nor collected, and reached by one of the offsets. |
| ImageTracer.OpenNeighboursComplete | designAR/ImageTracer.swift:123-129 | Every in-bounds, open neighbour reached by one of the offsets is listed, so the listing misses none. |
| ImageTracer.ExpansionIsOpen | designAR/ImageTracer.swift:123-129 | While `visited` is set exactly at the cells visited before the fill and the collected points, the neighbours the loop queues from the grid are the open neighbours. |
| ImageTracer.NeighbourQueued | designAR/ImageTracer.swift:123-128 | An in-bounds, open 8-neighbour of the pixel is always queued. |
| ImageTracer.NeighboursAllQueued | designAR/ImageTracer.swift:115-128 | Every in-bounds 8-neighbour that was neither visited before the fill nor collected is queued. |
| ImageTracer.FloodFill | designAR/ImageTracer.swift:99-131 | The loop collects exactly `FillFrom`: the breadth-first fill that pops the queue head first, skips a cell out of bounds, already visited or dark, collects an "on" cell and queues its in-bounds unvisited neighbours behind the queue in the fixed direction order, and stops at an empty queue or 1000 points. `visited` becomes true exactly at the collected points and changes nowhere else. Through BreadthFirstResult the points are distinct, bright, unvisited before, 8-connected to the start (which comes first when eligible; otherwise nothing is collected), and complete below the cap. |
| ImageTracer.BreadthFirstResult | designAR/ImageTracer.swift:99-131 | From any state that keeps the fill invariant, the reference fill collects at most 1000 distinct, bright points unvisited before, 8-connected, with an eligible start first (and nothing for another start), and complete below the cap. |
| ImageTracer.FillStart | designAR/ImageTracer.swift:99-100 | The fill invariant holds for no points and a queue holding only the start. |
| ImageTracer.FillEnd | designAR/ImageTracer.swift:105-131 | When the queue is empty or 1000 points are collected, the invariant gives every guarantee of the fill. |
| ImageTracer.FillStep | designAR/ImageTracer.swift:105-130 | One pass pops the queue head. An in-bounds, unvisited, "on" head is appended to the points and its open neighbours are queued behind the rest of the queue, in direction order. Any other head is dropped and nothing else changes. So the reference fill of the new state equals that of the old. |
| ImageTracer.CollectPixel | designAR/ImageTracer.swift:114-129 | Collecting a bright, unvisited pixel marks it, appends it to the points, and queues exactly its in-bounds, open neighbours behind the rest of the queue, in direction order. |
| ImageTracer.SkipHead | designAR/ImageTracer.swift:106-109 | Dropping a head that is out of bounds, already visited or dark keeps the invariant, since no neighbour relation is lost. |
| ImageTracer.CollectHead | designAR/ImageTracer.swift:114-129 | Collecting the head and queueing its neighbours keeps all four parts of the invariant. |
| ImageTracer.HeadReached | designAR/ImageTracer.swift:100-106 | The head of the queue is the start pixel while nothing is collected, and a neighbour of a collected point afterwards. |
| ImageTracer.CollectPoints | designAR/ImageTracer.swift:114-121 | The points stay distinct, bright and unvisited before the fill, and the first point stays the start pixel. |
| ImageTracer.CollectReaches | designAR/ImageTracer.swift:123-128 | After the head is collected, every queued cell is still an 8-neighbour of a collected point. |
| ImageTracer.CollectFrontier | designAR/ImageTracer.swift:123-128 | Every in-bounds neighbour of a collected point stays accounted for: visited before, collected, queued or dark. |
| ImageTracer.GrowConnected | designAR/ImageTracer.swift:114-128 | A newly collected point is next to an earlier one, so the points stay 8-connected. |
| ImageTracer.ReachedGrows | designAR/ImageTracer.swift:118-119 | A cell next to a collected point stays so when more points are collected. |
| ImageTracer.TraceContour | designAR/ImageTracer.swift:90-134 | The raw points are the reference fill from the start over the cells visited before, with every guarantee of FloodFill. The contour is those points simplified with tolerance 2.0. |
| ImageTracer.Truncate | designAR/ImageTracer.swift:56-57 | `Int(Double)` gives the integer next to the value on the side of zero, less than one away. The sign is kept, and a non-negative value gives its floor. |
| ImageTracer.AppendContour | designAR/ImageTracer.swift:74-81 | Appending a bright contour of 4 to 1000 points keeps the emitted paths well formed. The contour must start at the scanned lattice pixel, after every earlier path's start, and share no point with the earlier paths. |
| ImageTracer.EmittedOrigins | designAR/ImageTracer.swift:74-82 | Path i is the black pencil path with the i-th UUID made from one contour. That contour has more than three points, and the paths' contours come in trace order. |
| ImageTracer.OriginsComplete | designAR/ImageTracer.swift:74-82 | Every contour of more than three points becomes a path. With EmittedOrigins: exactly those contours become paths. |
| ImageTracer.ContourPathsRecord | designAR/ImageTracer.swift:63-82 | Tracing one more region appends its path, if kept, and leaves the earlier paths as they were. |
| ImageTracer.InSomeRecord | designAR/ImageTracer.swift:64-72 | A pixel lies in the regions traced so far exactly when it lay in the earlier regions or in the new trace. |
| ImageTracer.TracedCells | designAR/ImageTracer.swift:53-85 | A grid cell is among the traced cells exactly when some traced region holds it. |
| ImageTracer.VisitedAreTraced | designAR/ImageTracer.swift:53-85 | While `visited` is set exactly at the traced points, the visited cells are the traced cells. |
| ImageTracer.ScanAdvance | designAR/ImageTracer.swift:58-83 | Recording the fill from a lattice pixel keeps the scan invariant: regions connected, disjoint, in row-major order of their lattice start pixels, closed below the cap, each the reference fill from its first pixel over the earlier regions, and each starting at the first bright lattice pixel the earlier regions left. `visited` marks exactly the traced pixels, and a bright scanned pixel is traced. |
| ImageTracer.RecordRegion | designAR/ImageTracer.swift:64-72 | A new trace is a region that shares no pixel with the earlier regions and starts after them. |
| ImageTracer.RecordClosed | designAR/ImageTracer.swift:105-131 | After a new trace, every region below the cap has all its bright neighbours inside itself or an earlier region. |
| ImageTracer.RecordOrder | designAR/ImageTracer.swift:56-83 | Recording the fill from a lattice pixel, once every bright lattice pixel before it is traced, keeps each region equal to the fill from its first pixel over the earlier regions, starting at the first bright lattice pixel those left. |
| ImageTracer.RegionPath | designAR/ImageTracer.swift:74-81 | A region's kept path starts at the region's lattice pixel and has at most 1000 points. All its points are bright, visited pixels of the region. |
| ImageTracer.TracedPaths | designAR/ImageTracer.swift:56-87 | The paths made from the traced regions are well formed and lie on visited pixels. They start before any point that every region starts before. |
| ImageTracer.CoverStep | designAR/ImageTracer.swift:57-84 | After the scan visits (x, y), every bright lattice pixel up to the next lattice column of the row is traced. |
| ImageTracer.CoverRow | designAR/ImageTracer.swift:56-85 | After a whole row, every bright lattice pixel before the next lattice row is traced. |
| ImageTracer.ScanPixel | designAR/ImageTracer.swift:58-83 | The region traced is the reference fill from (x, y), empty when the pixel is visited or dark, in which case nothing changes. Otherwise the paths grow by its simplified contour when that has more than three points. The paths stay well formed, marked and ordered before the next lattice pixel. |
| ImageTracer.SkipPixel | designAR/ImageTracer.swift:58-63 | The reference fill from a visited or dark pixel is empty, and it adds no path. |
| ImageTracer.NewContour | designAR/ImageTracer.swift:64-82 | The contour traced from the scanned pixel, if kept, extends the well-formed, marked paths and starts before the next lattice pixel. |
| ImageTracer.KeptMarked | designAR/ImageTracer.swift:64-81 | Every point of the paths is a visited pixel, and no earlier path shares a point with the new fill. |
| ImageTracer.KeptWellFormed | designAR/ImageTracer.swift:74-81 | A kept contour of the fill keeps the paths well formed. |
| ImageTracer.KeptBefore | designAR/ImageTracer.swift:57-81 | All paths, including a newly kept one, start before the next lattice pixel of the row. |
| ImageTracer.ScanStep | designAR/ImageTracer.swift:57-84 | One scanned pixel advances the scan state by one stride: paths, regions, coverage and marks. |
| ImageTracer.ScanRowEnd | designAR/ImageTracer.swift:56-85 | A row scanned past its end leaves the scan state of the next lattice row. |
| ImageTracer.ScanNext | designAR/ImageTracer.swift:57-84 | One pass of the inner loop traces exactly the reference fill from (x, y) over the pixels traced before, records it when non-empty, adds its path when kept, and moves the scan state one stride to the right. |
| ImageTracer.ScanRow | designAR/ImageTracer.swift:57-84 | The inner loop only appends regions, and it leaves the scan state of the next lattice row: every bright lattice pixel of the row is traced, and the invariant, which fixes each region as the fill from the first bright lattice pixel left untraced, holds. |
| ImageTracer.ScanLattice | designAR/ImageTracer.swift:53-87 | The nested loops over a fresh `visited` grid produce regions that keep the scan invariant and cover every bright lattice pixel. By ScanDeterminate those regions are the only ones that do. The paths are those made from the regions and are well formed. |
| ImageTracer.ScanStart | designAR/ImageTracer.swift:53-56 | A fresh, all-false `visited` grid with no regions and no paths is a valid scan state before the first lattice pixel. |
| ImageTracer.ScanDone | designAR/ImageTracer.swift:56-87 | Past the last row, every bright lattice pixel is traced and the paths are well formed. |
| ImageTracer.NextStartUncovered | designAR/ImageTracer.swift:56-63 | The first pixel of each region is a bright lattice pixel that no earlier region holds. |
| ImageTracer.SameRegion | designAR/ImageTracer.swift:56-72 | Two scans that agree on their first t regions agree on region t as well: both start at the first bright lattice pixel left, and both are the fill from there. |
| ImageTracer.SamePrefix | designAR/ImageTracer.swift:56-85 | Two scans agree on as many regions as both have. |
| ImageTracer.PrefixLength | designAR/ImageTracer.swift:56-85 | Two covering scans that agree on their common prefix have the same number of regions. |
| ImageTracer.ScanDeterminate | designAR/ImageTracer.swift:56-85 | Any two region sequences that keep the scan invariant and cover every bright lattice pixel are equal, so the regions the scan traces are fixed by the raster and the stride. |
| ImageTracer.ExtractContours | designAR/ImageTracer.swift:36-88 | The paths are the contours of the traced regions with more than three simplified points, in trace order, numbered by `mint`. Each is a black pencil path of width 2 with 4 to 1000 bright points starting on the stride lattice. No pixel is in two paths, and paths follow the row-major order of their start pixels. For a positive stride the regions keep the scan invariant and cover every bright lattice pixel, which by ScanDeterminate fixes them uniquely. A negative stride emits nothing. |
| VisionTracer.DetectedLine.SquaredLength | designAR/VisionTracer.swift:12-16 | The squared length is non-negative and is zero for a line whose endpoints coincide. |
| VisionTracer.SampleEdgePoints | designAR/VisionTracer.swift:153-163 | The nested sampling loops compute the row-major sample list of the whole raster. |
| VisionTracer.SampleRow | designAR/VisionTracer.swift:155-162 | One pass of the inner loop appends exactly the samples of that row. |
| VisionTracer.OddRowEmpty | designAR/VisionTracer.swift:155 | Rows off the stride-2 lattice contribute no samples. |
| VisionTracer.RowSamplesProperties | designAR/VisionTracer.swift:155-162 | The samples of one row are sound, sorted by x, and complete for that row. |
| VisionTracer.SamplesProperties | designAR/VisionTracer.swift:153-163 | The samples of the first rows are sound, row-major sorted, and include every edge pixel of those rows. |
| VisionTracer.EdgeSamplesExact | designAR/VisionTracer.swift:153-163 | The samples are exactly the stride-2 pixels whose channel-0 byte exceeds 100: only those, each of them, in row-major order. |
| VisionTracer.PointBallotsExact | designAR/VisionTracer.swift:183-190 | A point casts one vote per angle step, one in cell (angle, ρ(point, angle)) for each angle, and none elsewhere. |
| VisionTracer.BallotsTotal | designAR/VisionTracer.swift:183-191 | The total number of votes equals the number of points times 180. Every voted cell has an angle in 0..179. |
| VisionTracer.AccumulateVotes | designAR/VisionTracer.swift:181-191 | The accumulator holds, for each cell, exactly the number of ballots cast for it. |
| VisionTracer.CastVotes | designAR/VisionTracer.swift:184-190 | The inner loop adds exactly one point's ballots to the accumulator. |
| VisionTracer.VoteStep | designAR/VisionTracer.swift:187-189 | Incrementing one cell adds exactly the ballot of one more angle step. |
| VisionTracer.LineFor | designAR/VisionTracer.swift:197-224 | A line produced from a cell has confidence votes/20, which exceeds 1 when the cell passed the threshold. Its angle lies in [0, π). |
| VisionTracer.AngleInRange | designAR/VisionTracer.swift:178-198 | Angle step a of 0..179 gives an angle in [0, π). |
| VisionTracer.ThresholdCells | designAR/VisionTracer.swift:193-224 | The lines come from exactly the cells with more than 20 votes, each cell once. |
| VisionTracer.HoughLineTransform | designAR/VisionTracer.swift:175-230 | One line is produced for exactly the cells with more than 20 ballots, each cell once. Each line's confidence is votes/20 > 1 and its angle is in [0, π). |
| VisionTracer.SqDistanceBetweenLines | designAR/VisionTracer.swift:325-350 | The result is one of the four endpoint-pair squared distances and is no larger than any of them, so it is their minimum. |
| VisionTracer.DistanceBetweenLinesSymmetric | designAR/VisionTracer.swift:325-332 | The distance between lines does not depend on the order of its arguments. |
| VisionTracer.FirstLeastX | designAR/VisionTracer.swift:335-339 | The index picked has the least x, and it is the first index with that x. |
| VisionTracer.LastGreatestX | designAR/VisionTracer.swift:335-340 | The index picked has the greatest x, and it is the last index with that x. |
| VisionTracer.MergeTwoLines | designAR/VisionTracer.swift:334-344 | Both endpoints of the merged line come from the four inputs. Its start has the least x and its end the greatest. Its confidence and angle are the averages of the two lines'. |
| VisionTracer.MergeNearbyLines | designAR/VisionTracer.swift:293-323 | The output is the greedy clustering: each input index is consumed by exactly one group, and groups start at increasing seeds. A later unconsumed line joins exactly when it is near the line accumulated so far (angle within 0.1 of parallel, distance < 20). Each output is the fold of its group. |
| Greedy.GrowGroup | designAR/VisionTracer.swift:300-318 | The inner loop builds one group from its seed by the absorption rule and records each absorbed index's slot. |
| Greedy.MergeShrinks | designAR/VisionTracer.swift:293-323 | The merge never outputs more lines than it was given. |
| Greedy.AscendingBounded | designAR/VisionTracer.swift:293-323 | Strictly increasing seeds below n number at most n. |
| Greedy.LoneSeedUnchanged | designAR/VisionTracer.swift:304-318 | A group holding only its seed outputs that input unchanged. |
| Greedy.GreedyGroupAbsorb | designAR/VisionTracer.swift:308-315 | Absorbing the next near, unconsumed line extends a group's absorption rule by one index. |
| Greedy.GreedyGroupSkip | designAR/VisionTracer.swift:307-316 | Skipping a line that is consumed or not near extends the rule by one index. |
| VisionTracer.KeptIndices | designAR/VisionTracer.swift:278-288 | The kept positions are increasing and in range. |
| VisionTracer.KeptIndicesExact | designAR/VisionTracer.swift:278-288 | A position is kept exactly when its line is longer than 10 and more confident than 0.5. |
| VisionTracer.KeepLines | designAR/VisionTracer.swift:278-288 | The filter loop emits, in order, one two-point line path per kept line. |
| VisionTracer.KeepNext | designAR/VisionTracer.swift:278-288 | One pass of the filter loop appends the line's path exactly when the line is longer than 10 and more confident than 0.5, and keeps the loop state. |
| VisionTracer.OptimizeLines | designAR/VisionTracer.swift:273-291 | The lines are merged greedily, then exactly the merged lines with length > 10 and confidence > 0.5 become line paths [start, end], in order. There are never more paths than inputs. |
| VisionTracer.ConvertNormalizedRoundTrip | designAR/VisionTracer.swift:367-372 | For a non-degenerate image size, converting to image coordinates and normalizing back are inverse to each other both ways. |
| VisionTracer.ConvertNormalizedPoint | designAR/VisionTracer.swift:367-372 | The corners of the unit square go to the image corners, with y flipped: (0, 0) to the bottom-left (0, h), (1, 1) to the top-right (w, 0). |
| VisionTracer.ConvertKeepsOrderX | designAR/VisionTracer.swift:367-372 | For a positive width, converting keeps the left-to-right order of points, both ways. |
| VisionTracer.ConvertFlipsOrderY | designAR/VisionTracer.swift:367-372 | For a positive height, converting reverses the vertical order, both ways: higher in the normalized frame means nearer the top of the image. |
| VisionTracer.ConvertInImage | designAR/VisionTracer.swift:367-372 | A point of the unit square converts to a point of the image rectangle [0, w] × [0, h]. |
| VisionTracer.RectanglePath | designAR/VisionTracer.swift:250-263 | A rectangle becomes a closed blue path of five points whose first point is repeated last. |
| Model3DGenerator.Convert2DTo3DLifts | designAR/Model3DGenerator.swift:135-139 | Lifting to 3D keeps every point's x and y, in order, at z = 0. |
| Model3DGenerator.ExportToRhino | designAR/Model3DGenerator.swift:54-99 | The OBJ loops emit exactly the reference document: the header, then per path its comment, rings, faces and blank line, with the vertex counter advanced by 2n. |
| Model3DGenerator.EmitPath | designAR/Model3DGenerator.swift:61-98 | One pass of the path loop appends that path's records. |
| Model3DGenerator.EmitRings | designAR/Model3DGenerator.swift:63-72 | The two vertex loops append the bottom ring and then the top ring. |
| Model3DGenerator.EmitFaces | designAR/Model3DGenerator.swift:76-95 | The face loops append the n side faces, then the bottom cap and the top cap. |
| Model3DGenerator.PathVertices | designAR/Model3DGenerator.swift:63-72 | A path of n points yields 2n vertex records: its points at z = 0, then the same points at z = extrusion, in the same order. |
| Model3DGenerator.RecordsVertices | designAR/Model3DGenerator.swift:60-98 | The vertices of the first m paths' records are their rings, concatenated in path order. |
| Model3DGenerator.DocumentVertices | designAR/Model3DGenerator.swift:54-99 | The vertex lines of the whole document are the rings of all paths in order. |
| Model3DGenerator.FirstVertexIndexAdvances | designAR/Model3DGenerator.swift:58-97 | The counter advances by 2n over path k, so no later path reuses an index of path k. |
| Model3DGenerator.VertexNumbering | designAR/Model3DGenerator.swift:58-97 | Point i of path k is vertex number v + i at z = 0 and v + n + i at z = extrusion, where v is 1 plus twice the points of earlier paths. |
| Model3DGenerator.FaceIndicesOwn | designAR/Model3DGenerator.swift:76-95 | Every index in a path's faces lies in [v, v + 2n). |
| Model3DGenerator.FaceIndicesInRange | designAR/Model3DGenerator.swift:76-97 | Every face index lies in 1..the total number of vertices. |
| Model3DGenerator.PathRingsNamed | designAR/Model3DGenerator.swift:58-97 | The global indices v + i and v + n + i name path k's bottom and top copies of point i. |
| Model3DGenerator.SideFacesResolve | designAR/Model3DGenerator.swift:76-83 | There are n side faces. Face i joins bottom i, bottom (i+1) mod n, top (i+1) mod n and top i. |
| Model3DGenerator.BottomCapResolves | designAR/Model3DGenerator.swift:85-89 | The bottom cap lists the bottom ring in ascending order. |
| Model3DGenerator.TopCapResolves | designAR/Model3DGenerator.swift:91-95 | The top cap lists the top ring in reverse order. |
| Model3DGenerator.EmptyPathRecords | designAR/Model3DGenerator.swift:60-99 | A path with no points is not skipped: it still gets its comment, two empty cap faces and a blank line. |
| Model3DGenerator.GenerateGrasshopperData | designAR/Model3DGenerator.swift:141-174 | The loops write exactly the reference JSON text: header, one object per path (id, points at z = 0.0, closed false), footer. |
| Model3DGenerator.AppendEntries | designAR/Model3DGenerator.swift:147-167 | The outer loop writes the listing of all path objects: each object, then a comma unless it is the last, then a newline. |
| Model3DGenerator.AppendEntry | designAR/Model3DGenerator.swift:147-167 | One pass of the outer loop writes one path object, a comma unless it is the last, and a newline. |
| Model3DGenerator.AppendPathObject | designAR/Model3DGenerator.swift:148-162 | One path object is written as its reference text. |
| Model3DGenerator.AppendPoints | designAR/Model3DGenerator.swift:152-158 | The inner loop writes the point listing of the path. |
| Model3DGenerator.ListingIsJoin | designAR/Model3DGenerator.swift:152-166 | The listings the loops write are the entries joined by ",\n" with a single trailing newline: commas between consecutive entries and none after the last. |
| Model3DGenerator.IdIsPosition | designAR/Model3DGenerator.swift:149 | The id written for path object k reads back as k. |
| Common.DecimalRoundTrip | designAR/Model3DGenerator.swift:149 | Decimal rendering of a natural number reads back as that number. |
| Drawing.IconsDistinct | designAR/DrawingTool.swift:3-24 | The enumeration has exactly 8 tools, all listed once. Distinct tools have distinct icons and distinct raw values. |
| Drawing.SamePathIsIdIdentity | designAR/DrawingTool.swift:34-36 | Path equality is reflexive and symmetric, and holds exactly when the ids are equal, whatever the points, colour, width or tool. |
| Drawing.StoreyCount | designAR/DrawingTool.swift:56 | The storey count is at least 1 and at least the floor count. It equals the floor count when that is positive and is 1 otherwise, so it is always one of the two. |
| Drawing.DrawingViewModel.TotalExtrusionHeight | designAR/DrawingTool.swift:55-57 | The height is the wall height times the floor count, and a floor count of 0 or less counts as 1. |
| Drawing.DrawingViewModel.constructor | designAR/DrawingTool.swift:39-61 | A new document has no paths and no current path, the stated defaults, and lineWidth equal to wallThickness. |
| Drawing.DrawingViewModel.SetWallThickness | designAR/DrawingTool.swift:46-50 | Setting the wall thickness sets lineWidth to the same value and changes nothing else. |
| Drawing.DrawingViewModel.StartDrawing | designAR/DrawingTool.swift:63-70 | The current path becomes a one-point path with the current colour, width and tool, replacing any stroke in progress. Nothing else changes. |
| Drawing.DrawingViewModel.ContinueDrawing | designAR/DrawingTool.swift:72-74 | The point is appended to the current path if there is one. Otherwise nothing happens. |
| Drawing.DrawingViewModel.EndDrawing | designAR/DrawingTool.swift:76-81 | The current path is appended to paths and cleared. Without one nothing happens. |
| Drawing.DrawingViewModel.ClearCanvas | designAR/DrawingTool.swift:83-85 | The path list becomes empty. Nothing else changes. |
| Drawing.DrawingViewModel.Undo | designAR/DrawingTool.swift:87-91 | Only the last path is removed. On an empty list nothing happens. |
| Drawing.DrawStrokeThenUndo | designAR/DrawingTool.swift:63-91 | Drawing a whole stroke and undoing it restores the path list and leaves no stroke in progress. |

## Left out

- CoreImage edge filters, `detectEdges` and the `traceImage` entry points are foreign library calls. The model takes the filtered raster as an input.
- Apple Vision contour and rectangle detection is an ML framework. Only the rectangle path built from the four corners is modelled.
- Background dispatch, progress updates and `@Published` hand-offs are concurrency and UI concerns.
- Writing the OBJ file and its README to disk is I/O. So is `loadReferenceImage`, and SceneKit geometry and preview is not modelled either.
- SwiftUI views and window glue are not modelled.
- Swift's `Double`-to-text formatting is not modelled:
  - OBJ vertices are records carrying the coordinates;
  - the JSON text takes a parameter `fmt` that renders a coordinate.
- Floating-point rounding is not modelled. Coordinates, confidences and angles are exact `real`s, and π is the exact value of Swift's `Double.pi`.
- The Hough trigonometry is a parameter, not a formula:
  - ρ = x·cosθ + y·sinθ and its rounding are the parameter `rho`;
  - the endpoint reconstruction is the parameter `place`;
  - the angle loop runs over the 180 steps of π/180.
- VisionTracer.PointBallots: files the vote of angle step i under angle bucket i. The program's bucket is the truncated quotient `Int(angle / angleStep)` (VisionTracer.swift:187) in binary64 arithmetic. With the angle taken as i·angleStep, that quotient falls just below i at steps 15, 30, 60, 61, 120 and 122. The program therefore never fills buckets 15, 30, 61, 120 and 122, and it fills buckets 14, 29, 59, 119 and 121 twice per point. The model does not reproduce this rounding, so its per-cell counts differ from the program's in those columns.
- Swift's nested accumulator dictionary is modelled as one flat map from (angle, ρ) cells to votes.
- VisionTracer.HoughLineTransform: its iteration order over the dictionary is arbitrary. The model visits cells in some order and states only which cells appear, not their order.
- VisionTracer.FirstLeastX and VisionTracer.LastGreatestX resolve ties in x as a stable sort would. `sorted(by:)` is not documented as stable, so a tie may pick another endpoint with the same x.
- Greedy.GrowGroup: the merge is modelled generically over its merge and nearness functions. `VisionTracer` instantiates them with `MergeTwoLines` and `Mergeable`.
- The `used` set, groups and owner map of the merge are ghost bookkeeping. Only `merged` is a result of the source.
- Integer overflow of `Int` is not modelled, for example in the vertex counter or in pixel offsets.
- Image memory is a `Raster` value with at least `width * height * 4` bytes, read with a row length of exactly `width * 4` as the source does. A wider `bytesPerRow` is not modelled.
- ImageTracer.ExtractContours requires a non-zero stride. `stride(by: 0)` traps at run time in Swift.
- UUIDs come from the parameter `mint`. The model states that each path gets the mint value of its position, not that UUIDs are unique.
- The `pointSet` test before a point is appended (ImageTracer.swift:118) always passes, since a pixel is collected only while unvisited. `CollectPixel` keeps the test; the reference fill `FillFrom` appends unconditionally.
- `convert2DTo3D`'s unused `extrusion` parameter is dropped.
- Drawing.DrawingViewModel: `referenceImage` (an `NSImage`) and the colour values are not modelled beyond a `Color` enumeration.
