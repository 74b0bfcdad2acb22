/** The classic tracer: scan an edge raster, flood-fill each bright region
    into a contour of pixel points, thin the contour with a one-pass greedy
    simplifier, and keep the contours long enough to draw.

    The raster comes from the edge filters (grayscale, then edges), which
    are not part of this model. */
module ImageTracer {
  import opened Common
  import opened Geometry
  import opened Drawing

  /** A pixel is "on" when channel 0 exceeds this. */
  const OnThreshold: int := 128
  /** The raw contour of one flood fill holds at most this many points. */
  const MaxContourPoints: nat := 1000
  /** Tolerance the tracer passes to the simplifier. */
  const ContourTolerance: real := 2.0
  /** 8-connected neighbour offsets, in the order they are enqueued. */
  const Directions: seq<(int, int)> := [(-1, 0), (1, 0), (0, -1), (0, 1), (-1, -1), (1, 1), (-1, 1), (1, -1)]

  // =====================================================================
  // Path simplifier

  /** `sqrt(dx² + dy²) > tol`, stated without the square root. */
  predicate Farther(p: Point, q: Point, tol: real) {
    tol < 0.0 || SqDist(p, q) > tol * tol
  }

  /** The points the greedy pass has emitted after reading all of `pts`:
      the first point, then every point farther than `tol` from the point
      emitted before it. */
  function Kept(pts: seq<Point>, tol: real): (k: seq<Point>)
    requires |pts| >= 1
    ensures 1 <= |k| <= |pts| && k[0] == pts[0]
    decreases |pts|
  {
    if |pts| == 1 then [pts[0]]
    else
      var k := Kept(DropLast(pts), tol);
      if Farther(Last(k), Last(pts), tol) then k + [Last(pts)] else k
  }

  /** The simplified path: fewer than three points are returned as they
      are; otherwise the greedy pass, with the input's last point appended
      when it differs from the last point emitted. */
  function Simplify(pts: seq<Point>, tol: real): seq<Point> {
    if |pts| < 3 then pts
    else
      var k := Kept(pts, tol);
      if Last(pts) != Last(k) then k + [Last(pts)] else k
  }

  lemma {:induction false} KeptEmbeds(pts: seq<Point>, tol: real)
    requires |pts| >= 1
    ensures Embeds(Kept(pts, tol), pts)
    decreases |pts|
  {
    if |pts| == 1 {
      EmbedsReflexive(pts);
    } else {
      var k := Kept(DropLast(pts), tol);
      KeptEmbeds(DropLast(pts), tol);
      assert pts == DropLast(pts) + [Last(pts)];
      if Farther(Last(k), Last(pts), tol) {
        EmbedsSnoc(k, DropLast(pts), Last(pts));
      } else {
        EmbedsExtend(k, DropLast(pts), Last(pts));
      }
    }
  }

  /** Each point lies farther than `tol` from the point before it. */
  predicate Spaced(k: seq<Point>, tol: real) {
    forall j :: 0 < j < |k| ==> Farther(k[j - 1], k[j], tol)
  }

  lemma {:induction false} KeptSpacing(pts: seq<Point>, tol: real)
    requires |pts| >= 1
    ensures Spaced(Kept(pts, tol), tol)
    decreases |pts|
  {
    if |pts| > 1 {
      var k' := Kept(DropLast(pts), tol);
      KeptSpacing(DropLast(pts), tol);
      if Farther(Last(k'), Last(pts), tol) {
        var k := k' + [Last(pts)];
        forall j | 0 < j < |k|
          ensures Farther(k[j - 1], k[j], tol)
        {
          if j < |k'| {
            assert k[j - 1] == k'[j - 1] && k[j] == k'[j];
          } else {
            assert k[j - 1] == Last(k') && k[j] == Last(pts);
          }
        }
      }
    }
  }

  /** The simplified path keeps the input's endpoints, is a subsequence of
      the input (so it is never longer), and each of its points lies farther
      than the tolerance from the one before, except a forced final point. */
  lemma SimplifyProperties(pts: seq<Point>, tol: real)
    ensures var r := Simplify(pts, tol);
      && (|pts| < 3 ==> r == pts)
      && (|pts| >= 1 ==> |r| >= 1 && r[0] == pts[0] && Last(r) == Last(pts))
      && Embeds(r, pts) && |r| <= |pts|
      && (forall x :: x in r ==> x in pts)
      && (forall j :: 0 < j < |r| ==> Farther(r[j - 1], r[j], tol) || (j == |r| - 1 && r[j] == Last(pts)))
  {
    var r := Simplify(pts, tol);
    if |pts| < 3 {
      EmbedsReflexive(pts);
    } else {
      var k := Kept(pts, tol);
      KeptSpacing(pts, tol);
      if Last(pts) != Last(k) {
        // the last point was not kept, so the pass over the other points gave `k`
        assert k == Kept(DropLast(pts), tol);
        KeptEmbeds(DropLast(pts), tol);
        EmbedsSnoc(k, DropLast(pts), Last(pts));
        assert pts == DropLast(pts) + [Last(pts)];
        forall j | 0 < j < |r| - 1
          ensures Farther(r[j - 1], r[j], tol)
        {
          assert r[j - 1] == k[j - 1] && r[j] == k[j];
        }
      } else {
        KeptEmbeds(pts, tol);
      }
    }
    EmbedsBounds(r, pts);
  }

  /** `simplifyPath(points:tolerance:)`. */
  method SimplifyPath(points: seq<Point>, tolerance: real) returns (simplified: seq<Point>)
    ensures simplified == Simplify(points, tolerance)
    ensures |points| < 3 ==> simplified == points
    ensures |points| >= 1 ==> |simplified| >= 1 && simplified[0] == points[0] && Last(simplified) == Last(points)
    ensures |simplified| <= |points| && forall x :: x in simplified ==> x in points
  {
    SimplifyProperties(points, tolerance);
    if |points| < 3 {
      return points;
    }
    simplified := [points[0]];
    var lastPoint := points[0];
    for i := 1 to |points|
      invariant simplified == Kept(points[..i], tolerance)
      invariant lastPoint == Last(simplified)
    {
      var currentPoint := points[i];
      assert DropLast(points[..i + 1]) == points[..i];
      if Farther(lastPoint, currentPoint, tolerance) {
        simplified := simplified + [currentPoint];
        lastPoint := currentPoint;
      }
    }
    assert points[..|points|] == points;
    var last := Last(points);
    if last != lastPoint {
      simplified := simplified + [last];
    }
  }

  // =====================================================================
  // Flood fill

  /** `p` is an "on" pixel of the raster. */
  predicate Bright(img: Raster, p: Point)
    requires img.Valid()
  {
    OnGrid(p, img.width, img.height) && img.IntensityAt(p) > OnThreshold
  }

  /** `p` is a pixel of the grid and `visited` is set there. */
  predicate Marked(visited: array2<bool>, p: Point)
    reads visited
  {
    OnGrid(p, visited.Length1, visited.Length0) && visited[p.y.Floor, p.x.Floor]
  }

  /** Two pixel points are 8-neighbours: distinct, and at most one pixel
      apart along each axis. */
  predicate Adjacent(p: Point, q: Point) {
    p != q && -1.0 <= q.x - p.x <= 1.0 && -1.0 <= q.y - p.y <= 1.0
  }

  /** The offsets of `Directions` reach exactly the 8-neighbours of a pixel. */
  lemma DirectionsAreNeighbours(x: int, y: int, nx: int, ny: int)
    ensures (nx - x, ny - y) in Directions <==> Adjacent(PixelPoint(x, y), PixelPoint(nx, ny))
  {
    var d := (nx - x, ny - y);
    if Adjacent(PixelPoint(x, y), PixelPoint(nx, ny)) {
      assert -1 <= d.0 <= 1 && -1 <= d.1 <= 1 && d != (0, 0);
      assert d == Directions[0] || d == Directions[1] || d == Directions[2] || d == Directions[3]
        || d == Directions[4] || d == Directions[5] || d == Directions[6] || d == Directions[7];
    }
  }

  /** Every point after the first is an 8-neighbour of an earlier one: the
      points form one 8-connected region grown from the first. */
  ghost predicate Connected(points: seq<Point>) {
    forall i :: 0 < i < |points| ==> LinksBack(points, i)
  }

  /** Point `i` is an 8-neighbour of a point before it. */
  ghost predicate LinksBack(points: seq<Point>, i: int)
    requires 0 <= i < |points|
  {
    exists j :: 0 <= j < i && Adjacent(points[j], points[i])
  }

  /** The pixel `q` is an 8-neighbour of one of `points`. */
  ghost predicate Reached(points: seq<Point>, q: (int, int)) {
    exists j :: 0 <= j < |points| && Adjacent(points[j], PixelPoint(q.0, q.1))
  }

  /** The cells of the grid that are visited, as (x, y) pairs. */
  ghost function VisitedCells(visited: array2<bool>): (cells: set<(int, int)>)
    reads visited
    ensures forall y, x :: 0 <= y < visited.Length0 && 0 <= x < visited.Length1 ==> (visited[y, x] <==> (x, y) in cells)
  {
    set y, x | 0 <= y < visited.Length0 && 0 <= x < visited.Length1 && visited[y, x] :: (x, y)
  }

  /** The start pixel can seed a region: in bounds, not visited before the
      fill (`initial` holds the cells visited then) and "on". */
  predicate Eligible(img: Raster, initial: set<(int, int)>, startX: int, startY: int)
    requires img.Valid()
  {
    img.InBounds(startX, startY) && (startX, startY) !in initial && img.Intensity(startX, startY) > OnThreshold
  }

  /** What a flood fill from (startX, startY) collects, given the cells
      `initial` visited before it:
      - at most 1000 points, each once, each an "on" pixel not visited before;
      - an eligible start (in bounds, unvisited, "on") is the first point,
        and a fill from any other start collects nothing;
      - the points are 8-connected to the start;
      - below the cap the region is complete: every "on" 8-neighbour of a
        collected point was collected or had been visited before. */
  ghost predicate FillResult(img: Raster, initial: set<(int, int)>, startX: int, startY: int, points: seq<Point>)
    requires img.Valid()
  {
    && |points| <= MaxContourPoints
    && (forall i, j :: 0 <= i < j < |points| ==> points[i] != points[j])
    && (forall p :: p in points ==> Bright(img, p) && (p.x.Floor, p.y.Floor) !in initial)
    && (if Eligible(img, initial, startX, startY)
        then |points| >= 1 && points[0] == PixelPoint(startX, startY)
        else points == [])
    && Connected(points)
    && (|points| < MaxContourPoints ==>
          forall j, nx, ny :: (0 <= j < |points| && img.InBounds(nx, ny) && Adjacent(points[j], PixelPoint(nx, ny))
            && img.Intensity(nx, ny) > OnThreshold) ==> (nx, ny) in initial || PixelPoint(nx, ny) in points)
  }

  /** What a flood fill leaves: its result, and `visited` changed from false
      to true exactly at the collected points. */
  ghost predicate FloodFilled(img: Raster, visited: array2<bool>, initial: set<(int, int)>, startX: int, startY: int, points: seq<Point>)
    requires img.Valid()
    requires visited.Length0 == img.height && visited.Length1 == img.width
    reads visited
  {
    && FillResult(img, initial, startX, startY, points)
    && (forall y, x :: 0 <= y < img.height && 0 <= x < img.width ==>
          visited[y, x] == ((x, y) in initial || PixelPoint(x, y) in points))
  }

  /** The neighbours of (x, y) reached by the offsets `dirs` that are inside
      the grid and not yet visited, in the order of `dirs`: each such
      neighbour, and nothing else. */
  function Expansion(visited: array2<bool>, x: int, y: int, dirs: seq<(int, int)>): (r: seq<(int, int)>)
    reads visited
    ensures |r| <= |dirs|
    ensures forall q :: q in r ==>
      0 <= q.0 < visited.Length1 && 0 <= q.1 < visited.Length0 && !visited[q.1, q.0] && (q.0 - x, q.1 - y) in dirs
    decreases |dirs|
  {
    if dirs == [] then []
    else
      var (dx, dy) := Last(dirs);
      var nx, ny := x + dx, y + dy;
      var rest := Expansion(visited, x, y, DropLast(dirs));
      if 0 <= nx < visited.Length1 && 0 <= ny < visited.Length0 && !visited[ny, nx] then rest + [(nx, ny)] else rest
  }

  /** A cell the fill may still collect: not visited before the fill and
      not collected yet. */
  ghost predicate Open(initial: set<(int, int)>, points: seq<Point>, c: (int, int)) {
    c !in initial && PixelPoint(c.0, c.1) !in points
  }

  /** The neighbours of (x, y) reached by the offsets `dirs` that are inside
      the raster and open, in the order of `dirs`: what the neighbour loop
      queues when `visited` holds the cells of `initial` and of `points`. */
  ghost function OpenNeighbours(img: Raster, initial: set<(int, int)>, points: seq<Point>, x: int, y: int, dirs: seq<(int, int)>)
    : (r: seq<(int, int)>)
    ensures forall c :: c in r ==> img.InBounds(c.0, c.1) && Open(initial, points, c) && (c.0 - x, c.1 - y) in dirs
    decreases |dirs|
  {
    if dirs == [] then []
    else
      var (dx, dy) := Last(dirs);
      var c := (x + dx, y + dy);
      var rest := OpenNeighbours(img, initial, points, x, y, DropLast(dirs));
      if img.InBounds(c.0, c.1) && Open(initial, points, c) then rest + [c] else rest
  }

  /** Every open neighbour inside the raster reached by an offset of `dirs`
      is queued. */
  lemma {:induction false} OpenNeighboursComplete(img: Raster, initial: set<(int, int)>, points: seq<Point>, x: int, y: int,
                                                  dirs: seq<(int, int)>, d: (int, int))
    requires d in dirs && img.InBounds(x + d.0, y + d.1) && Open(initial, points, (x + d.0, y + d.1))
    ensures (x + d.0, y + d.1) in OpenNeighbours(img, initial, points, x, y, dirs)
    decreases |dirs|
  {
    assert dirs == DropLast(dirs) + [Last(dirs)];
    if d != Last(dirs) {
      OpenNeighboursComplete(img, initial, points, x, y, DropLast(dirs), d);
    }
  }

  /** Once `visited` is set exactly at the cells of `initial` and of
      `points`, the expansion read from the grid is the open neighbours. */
  lemma {:induction false} ExpansionIsOpen(img: Raster, visited: array2<bool>, initial: set<(int, int)>, points: seq<Point>,
                                           x: int, y: int, dirs: seq<(int, int)>)
    requires img.Valid()
    requires visited.Length0 == img.height && visited.Length1 == img.width
    requires forall y', x' :: 0 <= y' < img.height && 0 <= x' < img.width ==>
      visited[y', x'] == ((x', y') in initial || PixelPoint(x', y') in points)
    ensures Expansion(visited, x, y, dirs) == OpenNeighbours(img, initial, points, x, y, dirs)
    decreases |dirs|
  {
    if dirs != [] {
      ExpansionIsOpen(img, visited, initial, points, x, y, DropLast(dirs));
    }
  }

  /** The expansion over one more offset gains that offset's neighbour
      exactly when it is inside the grid and unvisited. */
  lemma ExpansionPrefix(visited: array2<bool>, x: int, y: int, dirs: seq<(int, int)>, k: int, nx: int, ny: int)
    requires 0 <= k < |dirs| && nx == x + dirs[k].0 && ny == y + dirs[k].1
    ensures 0 <= nx < visited.Length1 && 0 <= ny < visited.Length0 && !visited[ny, nx] ==>
      Expansion(visited, x, y, dirs[..k + 1]) == Expansion(visited, x, y, dirs[..k]) + [(nx, ny)]
    ensures !(0 <= nx < visited.Length1 && 0 <= ny < visited.Length0 && !visited[ny, nx]) ==>
      Expansion(visited, x, y, dirs[..k + 1]) == Expansion(visited, x, y, dirs[..k])
  {
    assert DropLast(dirs[..k + 1]) == dirs[..k];
  }

  /** The neighbour loop of the flood fill: appends the in-bounds,
      not-yet-visited 8-neighbours of (x, y) to the queue, in the fixed order. */
  method EnqueueNeighbours(visited: array2<bool>, x: int, y: int, queue: seq<(int, int)>) returns (queue': seq<(int, int)>)
    ensures queue' == queue + Expansion(visited, x, y, Directions)
    ensures |queue'| <= |queue| + 8
  {
    queue' := queue;
    for d := 0 to |Directions|
      invariant queue' == queue + Expansion(visited, x, y, Directions[..d])
    {
      var (dx, dy) := Directions[d];
      var newX, newY := x + dx, y + dy;
      ExpansionPrefix(visited, x, y, Directions, d, newX, newY);
      if 0 <= newX < visited.Length1 && 0 <= newY < visited.Length0 && !visited[newY, newX] {
        Assoc(queue, Expansion(visited, x, y, Directions[..d]), [(newX, newY)]);
        queue' := queue' + [(newX, newY)];
      }
    }
    assert Directions[..|Directions|] == Directions;
  }


  /** Every queued cell is the start (before anything is collected) or an
      8-neighbour of a collected point. */
  ghost predicate QueueReached(startX: int, startY: int, points: seq<Point>, queue: seq<(int, int)>) {
    forall k :: 0 <= k < |queue| ==> (points == [] && queue[k] == (startX, startY)) || Reached(points, queue[k])
  }

  /** Every in-bounds 8-neighbour of a collected point was visited before
      the fill, is collected, is queued, or is "off". */
  ghost predicate Frontier(img: Raster, initial: set<(int, int)>, points: seq<Point>, queue: seq<(int, int)>)
    requires img.Valid()
  {
    forall j, nx, ny :: 0 <= j < |points| && img.InBounds(nx, ny) && Adjacent(points[j], PixelPoint(nx, ny)) ==>
      (nx, ny) in initial || PixelPoint(nx, ny) in points || (nx, ny) in queue || img.Intensity(nx, ny) <= OnThreshold
  }

  /** The loop invariant of the flood fill, over the cells visited before it
      (`initial`), the points collected and the queue: the points are
      distinct "on" pixels not visited before, grown 8-connected from an
      eligible start, and the queue and frontier are as above. */
  ghost predicate FillInvariant(img: Raster, initial: set<(int, int)>, startX: int, startY: int, points: seq<Point>, queue: seq<(int, int)>)
    requires img.Valid()
  {
    && FillPoints(img, initial, startX, startY, points, queue)
    && Connected(points)
    && QueueReached(startX, startY, points, queue)
    && Frontier(img, initial, points, queue)
  }

  /** The points part of the fill invariant: distinct "on" pixels not
      visited before, starting at the start pixel when it is eligible, and
      none when it is not. */
  ghost predicate FillPoints(img: Raster, initial: set<(int, int)>, startX: int, startY: int, points: seq<Point>, queue: seq<(int, int)>)
    requires img.Valid()
  {
    && (forall p :: p in points ==> Bright(img, p) && (p.x.Floor, p.y.Floor) !in initial)
    && (forall i, j :: 0 <= i < j < |points| ==> points[i] != points[j])
    && (Eligible(img, initial, startX, startY) ==>
          (points == [] && queue == [(startX, startY)]) || (points != [] && points[0] == PixelPoint(startX, startY)))
    && (!Eligible(img, initial, startX, startY) ==> points == [])
  }

  /** Dropping a queued cell that is out of bounds, already visited or "off"
      keeps the invariant. */
  lemma SkipHead(img: Raster, initial: set<(int, int)>, startX: int, startY: int, points: seq<Point>, q: (int, int), rest: seq<(int, int)>)
    requires img.Valid()
    requires FillInvariant(img, initial, startX, startY, points, [q] + rest)
    requires !img.InBounds(q.0, q.1) || q in initial || PixelPoint(q.0, q.1) in points || img.Intensity(q.0, q.1) <= OnThreshold
    ensures FillInvariant(img, initial, startX, startY, points, rest)
  {
    var queue := [q] + rest;
    assert queue[0] == q;
    assert queue == [(startX, startY)] ==> q == (startX, startY);
    forall k | 0 <= k < |rest|
      ensures (points == [] && rest[k] == (startX, startY)) || Reached(points, rest[k])
    {
      assert rest[k] == queue[k + 1];
    }
    forall j, nx, ny | 0 <= j < |points| && img.InBounds(nx, ny) && Adjacent(points[j], PixelPoint(nx, ny))
      ensures (nx, ny) in initial || PixelPoint(nx, ny) in points || (nx, ny) in rest || img.Intensity(nx, ny) <= OnThreshold
    {
      assert (nx, ny) in queue ==> (nx, ny) == q || (nx, ny) in rest;
    }
  }

  /** Every in-bounds 8-neighbour of `q` that was not visited before the
      fill and is not collected is in `added`. */
  ghost predicate NeighboursQueued(img: Raster, initial: set<(int, int)>, q: (int, int), points: seq<Point>, added: seq<(int, int)>)
    requires img.Valid()
  {
    forall nx, ny ::
      (img.InBounds(nx, ny) && Adjacent(PixelPoint(q.0, q.1), PixelPoint(nx, ny))
       && (nx, ny) !in initial && PixelPoint(nx, ny) !in points) ==> (nx, ny) in added
  }

  /** Collecting the "on", unvisited head `q` of the queue and queueing its
      unvisited neighbours (`added`) keeps the invariant. */
  lemma CollectHead(img: Raster, initial: set<(int, int)>, startX: int, startY: int, points: seq<Point>, x: int, y: int,
                    rest: seq<(int, int)>, added: seq<(int, int)>, points': seq<Point>, queue': seq<(int, int)>)
    requires img.Valid()
    requires FillInvariant(img, initial, startX, startY, points, [(x, y)] + rest)
    requires img.InBounds(x, y) && (x, y) !in initial && PixelPoint(x, y) !in points && img.Intensity(x, y) > OnThreshold
    requires forall f :: f in added ==> (f.0 - x, f.1 - y) in Directions
    requires points' == points + [PixelPoint(x, y)] && queue' == rest + added
    requires NeighboursQueued(img, initial, (x, y), points', added)
    ensures FillInvariant(img, initial, startX, startY, points', queue')
  {
    var p, q := PixelPoint(x, y), (x, y);
    HeadReached(startX, startY, points, q, rest);
    CollectPoints(img, initial, startX, startY, points, x, y, rest, points', queue');
    GrowConnected(points, p, q, startX, startY);
    CollectReaches(startX, startY, points, q, rest, added);
    CollectFrontier(img, initial, points, q, rest, added);
  }

  /** The head of the queue is the start while nothing is collected, and a
      neighbour of a collected point after that. */
  lemma HeadReached(startX: int, startY: int, points: seq<Point>, q: (int, int), rest: seq<(int, int)>)
    requires QueueReached(startX, startY, points, [q] + rest)
    ensures points == [] ==> q == (startX, startY)
    ensures (points == [] && q == (startX, startY)) || Reached(points, q)
  {
    assert ([q] + rest)[0] == q;
  }

  /** Collecting the head pixel, the start itself when nothing is collected
      yet, keeps the points part of the invariant. */
  lemma CollectPoints(img: Raster, initial: set<(int, int)>, startX: int, startY: int, points: seq<Point>, x: int, y: int,
                      rest: seq<(int, int)>, points': seq<Point>, queue': seq<(int, int)>)
    requires img.Valid()
    requires FillPoints(img, initial, startX, startY, points, [(x, y)] + rest)
    requires img.InBounds(x, y) && (x, y) !in initial && PixelPoint(x, y) !in points && img.Intensity(x, y) > OnThreshold
    requires points == [] ==> (x, y) == (startX, startY)
    requires points' == points + [PixelPoint(x, y)]
    ensures FillPoints(img, initial, startX, startY, points', queue')
  {
    var p := PixelPoint(x, y);
    assert p.x.Floor == x && p.y.Floor == y;
    forall r | r in points'
      ensures Bright(img, r) && (r.x.Floor, r.y.Floor) !in initial
    {
      if r != p {
        assert r in points;
      }
    }
    forall i, j | 0 <= i < j < |points'|
      ensures points'[i] != points'[j]
    {
      assert points'[i] == points[i];
      if j < |points| {
        assert points'[j] == points[j];
      }
    }
    if points != [] {
      assert points'[0] == points[0];
    }
  }

  lemma CollectReaches(startX: int, startY: int, points: seq<Point>, q: (int, int), rest: seq<(int, int)>, added: seq<(int, int)>)
    requires QueueReached(startX, startY, points, [q] + rest)
    requires points == [] ==> [q] + rest == [(startX, startY)]
    requires forall f :: f in added ==> (f.0 - q.0, f.1 - q.1) in Directions
    ensures QueueReached(startX, startY, points + [PixelPoint(q.0, q.1)], rest + added)
  {
    var p := PixelPoint(q.0, q.1);
    var points', queue, queue' := points + [p], [q] + rest, rest + added;
    forall k | 0 <= k < |queue'|
      ensures Reached(points', queue'[k])
    {
      if k < |rest| {
        assert queue'[k] == queue[k + 1];
        ReachedGrows(points, p, queue[k + 1]);
      } else {
        var f := queue'[k];
        assert f in added;
        DirectionsAreNeighbours(q.0, q.1, f.0, f.1);
        assert points'[|points|] == p;
      }
    }
  }

  lemma CollectFrontier(img: Raster, initial: set<(int, int)>, points: seq<Point>, q: (int, int), rest: seq<(int, int)>, added: seq<(int, int)>)
    requires img.Valid()
    requires Frontier(img, initial, points, [q] + rest)
    requires NeighboursQueued(img, initial, q, points + [PixelPoint(q.0, q.1)], added)
    ensures Frontier(img, initial, points + [PixelPoint(q.0, q.1)], rest + added)
  {
    var p := PixelPoint(q.0, q.1);
    var points', queue' := points + [p], rest + added;
    forall j, nx, ny | 0 <= j < |points'| && img.InBounds(nx, ny) && Adjacent(points'[j], PixelPoint(nx, ny))
      ensures (nx, ny) in initial || PixelPoint(nx, ny) in points' || (nx, ny) in queue' || img.Intensity(nx, ny) <= OnThreshold
    {
      if j == |points| {
        assert points'[j] == p;
      } else {
        assert points'[j] == points[j];
        assert (nx, ny) in [q] + rest ==> (nx, ny) == q || (nx, ny) in rest;
      }
    }
  }

  // ---------------------------------------------------------------------
  // The fill as a function

  /** The fill as the program runs it, from the points collected so far and
      the queue: take the head of the queue; skip it when it is outside the
      raster, visited or "off"; otherwise collect it and queue its open
      neighbours in the order of `Directions`. Stop when the queue is empty
      or 1000 points are held. */
  ghost function BreadthFirst(img: Raster, initial: set<(int, int)>, points: seq<Point>, queue: seq<(int, int)>): seq<Point>
    requires img.Valid()
    decreases MaxContourPoints - |points|, |queue|
  {
    if queue == [] || |points| >= MaxContourPoints then points
    else
      var (x, y) := queue[0];
      if img.InBounds(x, y) && Open(initial, points, (x, y)) && img.Intensity(x, y) > OnThreshold then
        var points' := points + [PixelPoint(x, y)];
        BreadthFirst(img, initial, points', queue[1..] + OpenNeighbours(img, initial, points', x, y, Directions))
      else
        BreadthFirst(img, initial, points, queue[1..])
  }

  /** The points the fill from (startX, startY) collects, in the order it
      collects them. */
  ghost function FillFrom(img: Raster, initial: set<(int, int)>, startX: int, startY: int): seq<Point>
    requires img.Valid()
  {
    BreadthFirst(img, initial, [], [(startX, startY)])
  }

  /** What the fill collects from a state that keeps the fill invariant is a
      flood fill's result. */
  lemma {:induction false} BreadthFirstResult(img: Raster, initial: set<(int, int)>, startX: int, startY: int,
                                              points: seq<Point>, queue: seq<(int, int)>)
    requires img.Valid()
    requires |points| <= MaxContourPoints && FillInvariant(img, initial, startX, startY, points, queue)
    ensures FillResult(img, initial, startX, startY, BreadthFirst(img, initial, points, queue))
    decreases MaxContourPoints - |points|, |queue|
  {
    if queue == [] || |points| >= MaxContourPoints {
      FillEnd(img, initial, startX, startY, points, queue);
    } else {
      var (x, y) := queue[0];
      var rest := queue[1..];
      assert queue == [(x, y)] + rest;
      if img.InBounds(x, y) && Open(initial, points, (x, y)) && img.Intensity(x, y) > OnThreshold {
        var points' := points + [PixelPoint(x, y)];
        var added := OpenNeighbours(img, initial, points', x, y, Directions);
        NeighboursAllQueued(img, initial, x, y, points');
        CollectHead(img, initial, startX, startY, points, x, y, rest, added, points', rest + added);
        BreadthFirstResult(img, initial, startX, startY, points', rest + added);
      } else {
        SkipHead(img, initial, startX, startY, points, (x, y), rest);
        BreadthFirstResult(img, initial, startX, startY, points, rest);
      }
    }
  }

  /** The fill invariant holds before the first pass. */
  lemma FillStart(img: Raster, initial: set<(int, int)>, startX: int, startY: int)
    requires img.Valid()
    ensures FillInvariant(img, initial, startX, startY, [], [(startX, startY)])
  {
  }

  /** When the queue is empty or the cap is reached, the invariant gives the
      fill's result. */
  lemma FillEnd(img: Raster, initial: set<(int, int)>, startX: int, startY: int, points: seq<Point>, queue: seq<(int, int)>)
    requires img.Valid()
    requires |points| <= MaxContourPoints && FillInvariant(img, initial, startX, startY, points, queue)
    requires queue == [] || |points| >= MaxContourPoints
    ensures FillResult(img, initial, startX, startY, points)
  {
  }

  /** Every in-bounds, open 8-neighbour of (x, y) is queued. */
  lemma NeighboursAllQueued(img: Raster, initial: set<(int, int)>, x: int, y: int, points: seq<Point>)
    requires img.Valid()
    ensures NeighboursQueued(img, initial, (x, y), points, OpenNeighbours(img, initial, points, x, y, Directions))
  {
    forall nx, ny | img.InBounds(nx, ny) && Adjacent(PixelPoint(x, y), PixelPoint(nx, ny))
      && (nx, ny) !in initial && PixelPoint(nx, ny) !in points
      ensures (nx, ny) in OpenNeighbours(img, initial, points, x, y, Directions)
    {
      NeighbourQueued(img, initial, points, x, y, nx, ny);
    }
  }

  /** An in-bounds, open 8-neighbour of (x, y) is queued. */
  lemma NeighbourQueued(img: Raster, initial: set<(int, int)>, points: seq<Point>, x: int, y: int, nx: int, ny: int)
    requires img.InBounds(nx, ny) && Open(initial, points, (nx, ny))
    requires Adjacent(PixelPoint(x, y), PixelPoint(nx, ny))
    ensures (nx, ny) in OpenNeighbours(img, initial, points, x, y, Directions)
  {
    DirectionsAreNeighbours(x, y, nx, ny);
    var d := (nx - x, ny - y);
    assert d in Directions && (x + d.0, y + d.1) == (nx, ny);
    OpenNeighboursComplete(img, initial, points, x, y, Directions, d);
  }

  // ---------------------------------------------------------------------
  // The fill loop

  /** What the fill loop keeps of its state: at most 1000 points, `pointSet`
      mirroring `points`, and `visited` set exactly at the cells visited
      before the fill and at the collected points. */
  ghost predicate FillState(img: Raster, visited: array2<bool>, initial: set<(int, int)>, points: seq<Point>, pointSet: set<Point>)
    requires img.Valid()
    requires visited.Length0 == img.height && visited.Length1 == img.width
    reads visited
  {
    && |points| <= MaxContourPoints
    && (forall p :: p in pointSet <==> p in points)
    && (forall y, x :: 0 <= y < img.height && 0 <= x < img.width ==>
          visited[y, x] == ((x, y) in initial || PixelPoint(x, y) in points))
  }

  /** The "on" branch of the fill loop: mark the unvisited pixel (x, y),
      collect it and queue its unvisited neighbours behind `rest`. */
  method CollectPixel(img: Raster, visited: array2<bool>, ghost initial: set<(int, int)>,
                      points: seq<Point>, pointSet: set<Point>, x: int, y: int, rest: seq<(int, int)>)
    returns (points': seq<Point>, pointSet': set<Point>, queue': seq<(int, int)>)
    requires img.Valid()
    requires visited.Length0 == img.height && visited.Length1 == img.width
    requires |points| < MaxContourPoints && FillState(img, visited, initial, points, pointSet)
    requires img.InBounds(x, y) && !visited[y, x] && img.Intensity(x, y) > OnThreshold
    modifies visited
    ensures FillState(img, visited, initial, points', pointSet')
    ensures points' == points + [PixelPoint(x, y)]
    ensures queue' == rest + OpenNeighbours(img, initial, points', x, y, Directions)
  {
    var p := PixelPoint(x, y);
    assert (x, y) !in initial && p !in points && p !in pointSet;
    visited[y, x] := true;
    points', pointSet' := points, pointSet;
    if p !in pointSet {
      points', pointSet' := points + [p], pointSet + {p};
    }
    forall y', x' | 0 <= y' < img.height && 0 <= x' < img.width
      ensures visited[y', x'] == ((x', y') in initial || PixelPoint(x', y') in points')
    {
      if x' != x || y' != y {
        assert PixelPoint(x', y') != p;
      }
    }
    queue' := EnqueueNeighbours(visited, x, y, rest);
    ExpansionIsOpen(img, visited, initial, points', x, y, Directions);
  }

  /** One pass of the fill loop: pop the head of the queue; skip it when it
      is out of bounds or visited; when it is "on", mark and collect it and
      queue its unvisited neighbours. This is one step of `BreadthFirst`. */
  method FillStep(img: Raster, visited: array2<bool>, ghost initial: set<(int, int)>,
                  points: seq<Point>, pointSet: set<Point>, queue: seq<(int, int)>)
    returns (points': seq<Point>, pointSet': set<Point>, queue': seq<(int, int)>)
    requires img.Valid()
    requires visited.Length0 == img.height && visited.Length1 == img.width
    requires queue != [] && |points| < MaxContourPoints
    requires FillState(img, visited, initial, points, pointSet)
    modifies visited
    ensures FillState(img, visited, initial, points', pointSet')
    ensures var (x, y) := queue[0];
      if img.InBounds(x, y) && Open(initial, points, (x, y)) && img.Intensity(x, y) > OnThreshold
      then points' == points + [PixelPoint(x, y)] && queue' == queue[1..] + OpenNeighbours(img, initial, points', x, y, Directions)
      else points' == points && queue' == queue[1..]
    ensures BreadthFirst(img, initial, points', queue') == BreadthFirst(img, initial, points, queue)
  {
    var (x, y) := queue[0];
    points', pointSet', queue' := points, pointSet, queue[1..];
    if x < 0 || x >= img.width || y < 0 || y >= img.height {
      return;
    }
    if visited[y, x] {
      return;
    }
    var intensity := img.Intensity(x, y);
    if intensity > OnThreshold {
      points', pointSet', queue' := CollectPixel(img, visited, initial, points, pointSet, x, y, queue');
    }
  }

  /** The breadth-first loop of `traceContour`: from (startX, startY), collect
      the 8-connected "on" pixels not yet visited, in discovery order, marking
      each; stop when the queue is empty or 1000 points are collected. */
  method FloodFill(img: Raster, startX: int, startY: int, visited: array2<bool>) returns (points: seq<Point>)
    requires img.Valid()
    requires visited.Length0 == img.height && visited.Length1 == img.width
    modifies visited
    ensures points == FillFrom(img, old(VisitedCells(visited)), startX, startY)
    ensures FloodFilled(img, visited, old(VisitedCells(visited)), startX, startY, points)
  {
    ghost var initial := VisitedCells(visited);
    points := [];
    var queue: seq<(int, int)> := [(startX, startY)];
    var pointSet: set<Point> := {};

    while queue != [] && |points| < MaxContourPoints
      invariant FillState(img, visited, initial, points, pointSet)
      invariant BreadthFirst(img, initial, points, queue) == FillFrom(img, initial, startX, startY)
      decreases MaxContourPoints - |points|, |queue|
    {
      points, pointSet, queue := FillStep(img, visited, initial, points, pointSet, queue);
    }
    // the loop stops with an empty queue or with 1000 points
    assert BreadthFirst(img, initial, points, queue) == points;
    FillStart(img, initial, startX, startY);
    BreadthFirstResult(img, initial, startX, startY, [], [(startX, startY)]);
  }

  /** Adding a point found in the queue keeps the collected points connected. */
  lemma GrowConnected(points: seq<Point>, p: Point, q: (int, int), startX: int, startY: int)
    requires Connected(points) && p == PixelPoint(q.0, q.1)
    requires (points == [] && q == (startX, startY)) || Reached(points, q)
    ensures Connected(points + [p])
  {
    var points' := points + [p];
    forall i | 0 < i < |points'|
      ensures LinksBack(points', i)
    {
      if i < |points| {
        assert LinksBack(points, i);
        var j :| 0 <= j < i && Adjacent(points[j], points[i]);
        assert points'[j] == points[j] && points'[i] == points[i];
        assert Adjacent(points'[j], points'[i]);
      } else {
        assert points'[i] == p;
        var j :| 0 <= j < |points| && Adjacent(points[j], PixelPoint(q.0, q.1));
        assert points'[j] == points[j];
        assert Adjacent(points'[j], points'[i]);
      }
    }
  }

  lemma ReachedGrows(points: seq<Point>, p: Point, q: (int, int))
    requires Reached(points, q)
    ensures Reached(points + [p], q)
  {
    var j :| 0 <= j < |points| && Adjacent(points[j], PixelPoint(q.0, q.1));
    assert (points + [p])[j] == points[j];
  }

  /** `traceContour`: the flood fill from the start pixel, simplified with
      tolerance 2.0. `raw` is the unsimplified contour. */
  method TraceContour(img: Raster, startX: int, startY: int, visited: array2<bool>) returns (contour: seq<Point>, ghost raw: seq<Point>)
    requires img.Valid()
    requires visited.Length0 == img.height && visited.Length1 == img.width
    modifies visited
    ensures raw == FillFrom(img, old(VisitedCells(visited)), startX, startY)
    ensures FloodFilled(img, visited, old(VisitedCells(visited)), startX, startY, raw)
    ensures contour == Simplify(raw, ContourTolerance)
  {
    var points := FloodFill(img, startX, startY, visited);
    raw := points;
    contour := SimplifyPath(points, ContourTolerance);
  }

  // =====================================================================
  // Scan

  /** Swift's `Int(_: Double)`: truncation toward zero. */
  function Truncate(r: real): (n: int)
    ensures r >= 0.0 ==> 0 <= n && n as real <= r < n as real + 1.0
    ensures r < 0.0 ==> n <= 0 && n as real - 1.0 < r <= n as real
  {
    if r >= 0.0 then r.Floor else -((-r).Floor)
  }

  /** The pencil polyline the tracer makes of a contour. */
  function ContourPath(id: Uuid, contour: seq<Point>): DrawingPath {
    DrawingPath(id, contour, Black, 2.0, Pencil)
  }

  /** No point lies in both sequences. */
  predicate Disjoint(a: seq<Point>, b: seq<Point>) {
    forall p :: p in a ==> p !in b
  }

  /** `p` is a pixel point on the scan lattice of stride `step`. */
  predicate OnLattice(p: Point, step: int)
    requires step > 0
  {
    OnStride(p.x.Floor, step) && OnStride(p.y.Floor, step)
  }

  /** What the scan keeps true of the paths emitted so far: each is a
      pencil contour of 4..1000 "on" pixels starting on the scan lattice, no
      two paths share a point, and paths are ordered by their first point,
      row-major. */
  predicate WellFormedPaths(img: Raster, paths: seq<DrawingPath>, mint: nat -> Uuid, step: int)
    requires img.Valid() && step > 0
  {
    && (forall i :: 0 <= i < |paths| ==> paths[i] == ContourPath(mint(i), paths[i].points))
    && (forall i :: 0 <= i < |paths| ==> 3 < |paths[i].points| <= MaxContourPoints && OnLattice(paths[i].points[0], step))
    && (forall i, p :: 0 <= i < |paths| && p in paths[i].points ==> Bright(img, p))
    && (forall i, j :: 0 <= i < j < |paths| ==> Disjoint(paths[i].points, paths[j].points))
    && (forall i, j :: 0 <= i < j < |paths| ==> RowMajorBefore(paths[i].points[0], paths[j].points[0]))
  }

  /** Every point of every emitted path is a visited pixel. */
  predicate AllMarked(visited: array2<bool>, paths: seq<DrawingPath>)
    reads visited
  {
    forall i, p :: 0 <= i < |paths| && p in paths[i].points ==> Marked(visited, p)
  }

  /** Appending a new contour that starts after every earlier path and
      shares no point with them keeps the paths well formed. */
  lemma AppendContour(img: Raster, paths: seq<DrawingPath>, mint: nat -> Uuid, step: int, contour: seq<Point>, x: int, y: int)
    requires img.Valid() && step > 0 && OnStride(x, step) && OnStride(y, step)
    requires WellFormedPaths(img, paths, mint, step)
    requires forall i :: 0 <= i < |paths| ==> RowMajorBefore(paths[i].points[0], PixelPoint(x, y))
    requires 3 < |contour| <= MaxContourPoints && contour[0] == PixelPoint(x, y)
    requires forall p :: p in contour ==> Bright(img, p)
    requires forall i :: 0 <= i < |paths| ==> Disjoint(paths[i].points, contour)
    ensures WellFormedPaths(img, paths + [ContourPath(mint(|paths|), contour)], mint, step)
  {
    assert PixelPoint(x, y).x.Floor == x && PixelPoint(x, y).y.Floor == y;
  }

  // ---------------------------------------------------------------------
  // What the scan has traced

  /** The paths kept for one traced region, appended to `paths`: the region
      simplified with tolerance 2.0, kept when more than three points remain. */
  function AddContour(paths: seq<DrawingPath>, raw: seq<Point>, mint: nat -> Uuid): seq<DrawingPath> {
    KeepContour(paths, Simplify(raw, ContourTolerance), mint)
  }

  /** `paths` with `contour` appended as the next path when it has more
      than three points. */
  function KeepContour(paths: seq<DrawingPath>, contour: seq<Point>, mint: nat -> Uuid): seq<DrawingPath> {
    if |contour| > 3 then paths + [ContourPath(mint(|paths|), contour)] else paths
  }

  /** The paths the scan emits for the regions it traced, in order: each
      region simplified, and kept when more than three points remain. */
  function ContourPaths(traced: seq<seq<Point>>, mint: nat -> Uuid): seq<DrawingPath> {
    Emitted(SimplifiedAll(traced), mint)
  }

  /** Each traced region simplified with tolerance 2.0. */
  function SimplifiedAll(traced: seq<seq<Point>>): (contours: seq<seq<Point>>)
    ensures |contours| == |traced|
  {
    seq(|traced|, t requires 0 <= t < |traced| => Simplify(traced[t], ContourTolerance))
  }

  /** The contours kept as paths, in order, numbered as they are kept. */
  function Emitted(contours: seq<seq<Point>>, mint: nat -> Uuid): seq<DrawingPath>
    decreases |contours|
  {
    if contours == [] then [] else KeepContour(Emitted(DropLast(contours), mint), Last(contours), mint)
  }

  /** For each emitted path, the index of the contour it was made from. */
  ghost function Origins(contours: seq<seq<Point>>): seq<int>
    decreases |contours|
  {
    if contours == [] then []
    else
      var o := Origins(DropLast(contours));
      if |Last(contours)| > 3 then o + [|contours| - 1] else o
  }

  /** Path i is contour `Origins(contours)[i]`, which has more than three
      points, and the origins increase strictly. */
  lemma {:induction false} EmittedOrigins(contours: seq<seq<Point>>, mint: nat -> Uuid)
    ensures |Origins(contours)| == |Emitted(contours, mint)|
    ensures forall i :: 0 <= i < |Origins(contours)| ==>
      && 0 <= Origins(contours)[i] < |contours|
      && 3 < |contours[Origins(contours)[i]]|
      && Emitted(contours, mint)[i] == ContourPath(mint(i), contours[Origins(contours)[i]])
    ensures forall i, j :: 0 <= i < j < |Origins(contours)| ==> Origins(contours)[i] < Origins(contours)[j]
    decreases |contours|
  {
    if contours != [] {
      var pre, c := DropLast(contours), Last(contours);
      EmittedOrigins(pre, mint);
      var paths, o := Emitted(pre, mint), Origins(pre);
      if |c| > 3 {
        var paths', o' := paths + [ContourPath(mint(|paths|), c)], o + [|pre|];
        assert Emitted(contours, mint) == paths' && Origins(contours) == o';
        forall i | 0 <= i < |o'|
          ensures 0 <= o'[i] < |contours| && 3 < |contours[o'[i]]| && paths'[i] == ContourPath(mint(i), contours[o'[i]])
        {
          if i < |o| {
            assert o'[i] == o[i] && paths'[i] == paths[i] && contours[o[i]] == pre[o[i]];
          } else {
            assert o'[i] == |pre| && contours[|pre|] == c;
          }
        }
        forall i, j | 0 <= i < j < |o'|
          ensures o'[i] < o'[j]
        {
          assert o'[i] == o[i];
          if j < |o| {
            assert o'[j] == o[j];
          }
        }
      } else {
        assert Emitted(contours, mint) == paths && Origins(contours) == o;
        forall i | 0 <= i < |o|
          ensures contours[o[i]] == pre[o[i]]
        {
        }
      }
    }
  }

  /** Every contour of more than three points is the origin of a path: the
      scan keeps exactly those contours. */
  lemma {:induction false} OriginsComplete(contours: seq<seq<Point>>, t: int)
    requires 0 <= t < |contours| && 3 < |contours[t]|
    ensures t in Origins(contours)
    decreases |contours|
  {
    var pre := DropLast(contours);
    if t < |pre| {
      OriginsComplete(pre, t);
    }
  }

  /** The traced regions after one more trace: the trace is recorded when it
      collected anything. */
  function Record(traced: seq<seq<Point>>, raw: seq<Point>): seq<seq<Point>> {
    if raw == [] then traced else traced + [raw]
  }

  /** Recording a trace keeps every earlier prefix of the regions. */
  lemma RecordExtends(start: seq<seq<Point>>, traced: seq<seq<Point>>, raw: seq<Point>)
    requires start <= traced
    ensures start <= Record(traced, raw)
  {
  }

  /** Some traced region holds `p`. */
  ghost predicate InSome(traced: seq<seq<Point>>, p: Point) {
    exists t :: 0 <= t < |traced| && p in traced[t]
  }

  /** A traced region: 1..1000 distinct "on" pixels, 8-connected to its first
      point, which lies on the scan lattice. */
  ghost predicate Region(img: Raster, region: seq<Point>, step: int)
    requires img.Valid() && step > 0
  {
    && 1 <= |region| <= MaxContourPoints
    && (forall i, j :: 0 <= i < j < |region| ==> region[i] != region[j])
    && (forall p :: p in region ==> Bright(img, p))
    && Connected(region)
    && OnLattice(region[0], step)
  }

  /** Region `t` is closed unless it hit the cap: every "on" 8-neighbour of
      one of its points lies in region `t` or in a region before it. */
  ghost predicate Closed(img: Raster, traced: seq<seq<Point>>, t: int)
    requires img.Valid() && 0 <= t < |traced|
  {
    |traced[t]| < MaxContourPoints ==>
      forall j, nx, ny :: (0 <= j < |traced[t]| && img.InBounds(nx, ny) && Adjacent(traced[t][j], PixelPoint(nx, ny))
        && img.Intensity(nx, ny) > OnThreshold) ==> InSome(traced[..t + 1], PixelPoint(nx, ny))
  }

  /** The grid cells that some traced region holds. */
  ghost function TracedCells(img: Raster, traced: seq<seq<Point>>): (cells: set<(int, int)>)
    ensures forall y, x :: 0 <= y < img.height && 0 <= x < img.width ==> ((x, y) in cells <==> InSome(traced, PixelPoint(x, y)))
  {
    set y, x | 0 <= y < img.height && 0 <= x < img.width && InSome(traced, PixelPoint(x, y)) :: (x, y)
  }

  /** Region `t` is exactly what the fill from its first pixel collects, in
      order, with the regions before it already visited. */
  ghost predicate Refilled(img: Raster, traced: seq<seq<Point>>, t: int)
    requires img.Valid() && 0 <= t < |traced|
  {
    traced[t] != [] && traced[t] == FillFrom(img, TracedCells(img, traced[..t]), traced[t][0].x.Floor, traced[t][0].y.Floor)
  }

  /** Every "on" lattice pixel before the first pixel of region `t`,
      row-major, lies in a region before it: region `t` starts at the first
      "on" lattice pixel the earlier regions left. */
  ghost predicate StartsFirst(img: Raster, traced: seq<seq<Point>>, t: int, step: int)
    requires img.Valid() && step > 0 && 0 <= t < |traced|
  {
    traced[t] != [] ==>
      forall x, y :: (img.InBounds(x, y) && OnStride(x, step) && OnStride(y, step) && img.Intensity(x, y) > OnThreshold
        && RowMajorBefore(PixelPoint(x, y), traced[t][0])) ==> InSome(traced[..t], PixelPoint(x, y))
  }

  /** What the scan keeps true of the regions it traced: each is a region,
      no two share a pixel, they are ordered by first point, row-major, each
      is closed, each is the fill from its first pixel, and each starts at
      the first "on" lattice pixel left by the regions before it. */
  ghost predicate Scanned(img: Raster, traced: seq<seq<Point>>, step: int)
    requires img.Valid() && step > 0
  {
    && (forall t :: 0 <= t < |traced| ==> Region(img, traced[t], step))
    && (forall s, t :: 0 <= s < t < |traced| ==> Disjoint(traced[s], traced[t]))
    && (forall s, t :: 0 <= s < t < |traced| ==> RowMajorBefore(traced[s][0], traced[t][0]))
    && (forall t :: 0 <= t < |traced| ==> Closed(img, traced, t))
    && (forall t :: 0 <= t < |traced| ==> Refilled(img, traced, t) && StartsFirst(img, traced, t, step))
  }

  /** Recording a trace adds exactly its points to those traced. */
  lemma InSomeRecord(traced: seq<seq<Point>>, raw: seq<Point>, q: Point)
    ensures InSome(Record(traced, raw), q) <==> InSome(traced, q) || q in raw
  {
    var traced' := Record(traced, raw);
    if InSome(traced, q) {
      var t :| 0 <= t < |traced| && q in traced[t];
      assert traced'[t] == traced[t];
    }
    if q in raw {
      assert traced'[|traced|] == raw;
    }
    if InSome(traced', q) {
      var t :| 0 <= t < |traced'| && q in traced'[t];
      if t < |traced| {
        assert traced'[t] == traced[t];
      }
    }
  }

  /** The paths of the recorded regions are those of the earlier regions
      with the new trace's path, if any, appended. */
  lemma ContourPathsRecord(traced: seq<seq<Point>>, raw: seq<Point>, mint: nat -> Uuid)
    ensures ContourPaths(Record(traced, raw), mint) == AddContour(ContourPaths(traced, mint), raw, mint)
  {
    SimplifyProperties(raw, ContourTolerance);
    if raw != [] {
      var contours := SimplifiedAll(traced);
      assert SimplifiedAll(traced + [raw]) == contours + [Simplify(raw, ContourTolerance)];
      assert DropLast(contours + [Simplify(raw, ContourTolerance)]) == contours;
    }
  }

  /** After a flood fill from the lattice pixel (x, y), scanned after the
      first point of every earlier region, the recorded regions keep the scan
      invariant, and `visited` is set exactly at the traced points. */
  lemma ScanAdvance(img: Raster, visited: array2<bool>, initial: set<(int, int)>, traced: seq<seq<Point>>, raw: seq<Point>,
                    x: int, y: int, step: int)
    requires img.Valid() && step > 0 && img.InBounds(x, y) && OnStride(x, step) && OnStride(y, step)
    requires visited.Length0 == img.height && visited.Length1 == img.width
    requires Scanned(img, traced, step)
    requires forall t :: 0 <= t < |traced| ==> RowMajorBefore(traced[t][0], PixelPoint(x, y))
    requires forall y', x' :: 0 <= y' < img.height && 0 <= x' < img.width ==>
      ((x', y') in initial <==> InSome(traced, PixelPoint(x', y')))
    requires FloodFilled(img, visited, initial, x, y, raw)
    requires raw == FillFrom(img, TracedCells(img, traced), x, y) && CoveredBefore(img, traced, step, x, y)
    ensures Scanned(img, Record(traced, raw), step)
    ensures forall y', x' :: 0 <= y' < img.height && 0 <= x' < img.width ==>
      visited[y', x'] == InSome(Record(traced, raw), PixelPoint(x', y'))
    ensures img.Intensity(x, y) > OnThreshold ==> InSome(Record(traced, raw), PixelPoint(x, y))
    ensures forall t :: 0 <= t < |Record(traced, raw)| ==> RowMajorBefore(Record(traced, raw)[t][0], PixelPoint(x + step, y))
  {
    forall y', x' | 0 <= y' < img.height && 0 <= x' < img.width
      ensures visited[y', x'] == InSome(Record(traced, raw), PixelPoint(x', y'))
    {
      InSomeRecord(traced, raw, PixelPoint(x', y'));
    }
    if raw != [] {
      RecordRegion(img, initial, traced, raw, x, y, step);
      RecordClosed(img, initial, traced, raw, step);
      RecordOrder(img, traced, raw, x, y, step);
      assert Record(traced, raw)[|traced|][0] == PixelPoint(x, y);
    } else if img.Intensity(x, y) > OnThreshold {
      assert (x, y) in initial;
    }
    if img.Intensity(x, y) > OnThreshold {
      InSomeRecord(traced, raw, PixelPoint(x, y));
    }
  }

  /** A nonempty fill from an eligible lattice pixel is a region, disjoint
      from and ordered after the earlier ones. */
  lemma RecordRegion(img: Raster, initial: set<(int, int)>, traced: seq<seq<Point>>, raw: seq<Point>, x: int, y: int, step: int)
    requires img.Valid() && step > 0 && img.InBounds(x, y) && OnStride(x, step) && OnStride(y, step)
    requires Scanned(img, traced, step) && raw != []
    requires forall t :: 0 <= t < |traced| ==> RowMajorBefore(traced[t][0], PixelPoint(x, y))
    requires forall y', x' :: 0 <= y' < img.height && 0 <= x' < img.width ==>
      ((x', y') in initial <==> InSome(traced, PixelPoint(x', y')))
    requires |raw| <= MaxContourPoints && (forall i, j :: 0 <= i < j < |raw| ==> raw[i] != raw[j])
    requires forall p :: p in raw ==> Bright(img, p) && (p.x.Floor, p.y.Floor) !in initial
    requires raw[0] == PixelPoint(x, y) && Connected(raw)
    ensures forall t :: 0 <= t < |traced| + 1 ==> Region(img, (traced + [raw])[t], step)
    ensures forall s, t :: 0 <= s < t < |traced| + 1 ==> Disjoint((traced + [raw])[s], (traced + [raw])[t])
    ensures forall s, t :: 0 <= s < t < |traced| + 1 ==> RowMajorBefore((traced + [raw])[s][0], (traced + [raw])[t][0])
  {
    var traced' := traced + [raw];
    assert PixelPoint(x, y).x.Floor == x && PixelPoint(x, y).y.Floor == y;
    assert Region(img, raw, step);
    forall s | 0 <= s < |traced|
      ensures Disjoint(traced[s], raw)
    {
      forall p | p in traced[s]
        ensures p !in raw
      {
        assert Bright(img, p);
        assert InSome(traced, PixelPoint(p.x.Floor, p.y.Floor));
      }
    }
    forall s, t | 0 <= s < t < |traced'|
      ensures Disjoint(traced'[s], traced'[t]) && RowMajorBefore(traced'[s][0], traced'[t][0])
    {
      if t < |traced| {
        assert traced'[s] == traced[s] && traced'[t] == traced[t];
      } else {
        assert traced'[s] == traced[s] && traced'[t] == raw;
      }
    }
    forall t | 0 <= t < |traced'|
      ensures Region(img, traced'[t], step)
    {
      if t < |traced| {
        assert traced'[t] == traced[t];
      }
    }
  }

  /** Recording a fill keeps every region closed: the earlier regions and
      those before them are unchanged, and the fill itself is closed below
      the cap. */
  lemma RecordClosed(img: Raster, initial: set<(int, int)>, traced: seq<seq<Point>>, raw: seq<Point>, step: int)
    requires img.Valid() && step > 0
    requires Scanned(img, traced, step) && raw != []
    requires forall y', x' :: 0 <= y' < img.height && 0 <= x' < img.width ==>
      ((x', y') in initial <==> InSome(traced, PixelPoint(x', y')))
    requires |raw| < MaxContourPoints ==>
      forall j, nx, ny :: (0 <= j < |raw| && img.InBounds(nx, ny) && Adjacent(raw[j], PixelPoint(nx, ny))
        && img.Intensity(nx, ny) > OnThreshold) ==> (nx, ny) in initial || PixelPoint(nx, ny) in raw
    ensures forall t :: 0 <= t < |traced| + 1 ==> Closed(img, traced + [raw], t)
  {
    var traced' := traced + [raw];
    forall t | 0 <= t < |traced'|
      ensures Closed(img, traced', t)
    {
      if t < |traced| {
        assert traced'[t] == traced[t] && traced'[..t + 1] == traced[..t + 1];
        assert Closed(img, traced, t);
      } else {
        assert traced'[t] == raw && traced'[..t + 1] == traced';
        forall j, nx, ny | |raw| < MaxContourPoints && 0 <= j < |raw| && img.InBounds(nx, ny)
          && Adjacent(raw[j], PixelPoint(nx, ny)) && img.Intensity(nx, ny) > OnThreshold
          ensures InSome(traced', PixelPoint(nx, ny))
        {
          InSomeRecord(traced, raw, PixelPoint(nx, ny));
        }
      }
    }
  }

  /** Recording the fill from the lattice pixel (x, y), with every "on"
      lattice pixel before it already traced, keeps every region the fill
      from its first pixel and the first one left. */
  lemma RecordOrder(img: Raster, traced: seq<seq<Point>>, raw: seq<Point>, x: int, y: int, step: int)
    requires img.Valid() && step > 0
    requires forall t :: 0 <= t < |traced| ==> Refilled(img, traced, t) && StartsFirst(img, traced, t, step)
    requires raw != [] && raw[0] == PixelPoint(x, y) && raw == FillFrom(img, TracedCells(img, traced), x, y)
    requires CoveredBefore(img, traced, step, x, y)
    ensures forall t :: 0 <= t < |traced| + 1 ==>
      Refilled(img, traced + [raw], t) && StartsFirst(img, traced + [raw], t, step)
  {
    var traced' := traced + [raw];
    forall t | 0 <= t < |traced'|
      ensures Refilled(img, traced', t) && StartsFirst(img, traced', t, step)
    {
      if t < |traced| {
        assert traced'[..t] == traced[..t] && traced'[t] == traced[t];
        assert Refilled(img, traced, t) && StartsFirst(img, traced, t, step);
      } else {
        assert traced'[..t] == traced && traced'[t] == raw;
        assert PixelPoint(x, y).x.Floor == x && PixelPoint(x, y).y.Floor == y;
      }
    }
  }

  /** The path the scan emits for one region is a well-formed contour path
      whose points are marked pixels of that region, starting where it does. */
  lemma RegionPath(img: Raster, visited: array2<bool>, traced: seq<seq<Point>>, t: int, step: int)
    requires img.Valid() && step > 0 && 0 <= t < |traced|
    requires visited.Length0 == img.height && visited.Length1 == img.width
    requires Region(img, traced[t], step) && TracedMarks(img, visited, traced)
    requires 3 < |Simplify(traced[t], ContourTolerance)|
    ensures var c := Simplify(traced[t], ContourTolerance);
      && c[0] == traced[t][0] && |c| <= MaxContourPoints && OnLattice(c[0], step)
      && (forall p :: p in c ==> p in traced[t] && Bright(img, p) && Marked(visited, p))
  {
    var c := Simplify(traced[t], ContourTolerance);
    SimplifyProperties(traced[t], ContourTolerance);
    forall p | p in c
      ensures Marked(visited, p)
    {
      assert Bright(img, p) && InSome(traced, p);
      assert p == PixelPoint(p.x.Floor, p.y.Floor);
    }
  }

  /** The paths emitted for the scanned regions are well formed, every point
      of them is visited, and they start before any point that all the
      regions start before. */
  lemma TracedPaths(img: Raster, visited: array2<bool>, traced: seq<seq<Point>>, mint: nat -> Uuid, step: int, q: Point)
    requires img.Valid() && step > 0
    requires visited.Length0 == img.height && visited.Length1 == img.width
    requires Scanned(img, traced, step) && TracedMarks(img, visited, traced)
    requires forall t :: 0 <= t < |traced| ==> RowMajorBefore(traced[t][0], q)
    ensures WellFormedPaths(img, ContourPaths(traced, mint), mint, step)
    ensures AllMarked(visited, ContourPaths(traced, mint))
    ensures forall i :: 0 <= i < |ContourPaths(traced, mint)| ==> RowMajorBefore(ContourPaths(traced, mint)[i].points[0], q)
  {
    var paths, contours := ContourPaths(traced, mint), SimplifiedAll(traced);
    var o := Origins(contours);
    EmittedOrigins(contours, mint);
    forall i | 0 <= i < |paths|
      ensures 3 < |paths[i].points| <= MaxContourPoints && OnLattice(paths[i].points[0], step)
      ensures paths[i].points[0] == traced[o[i]][0]
      ensures forall p :: p in paths[i].points ==> p in traced[o[i]] && Bright(img, p) && Marked(visited, p)
    {
      assert contours[o[i]] == Simplify(traced[o[i]], ContourTolerance);
      RegionPath(img, visited, traced, o[i], step);
    }
    forall i, j | 0 <= i < j < |paths|
      ensures Disjoint(paths[i].points, paths[j].points)
      ensures RowMajorBefore(paths[i].points[0], paths[j].points[0])
    {
      assert Disjoint(traced[o[i]], traced[o[j]]);
    }
  }

  /** Every "on" lattice pixel scanned before (x, y), row-major, lies in a
      traced region. */
  ghost predicate CoveredBefore(img: Raster, traced: seq<seq<Point>>, step: int, x: int, y: int)
    requires img.Valid() && step > 0
  {
    forall x', y' ::
      (img.InBounds(x', y') && OnStride(x', step) && OnStride(y', step) && (y' < y || (y' == y && x' < x))
       && img.Intensity(x', y') > OnThreshold) ==> InSome(traced, PixelPoint(x', y'))
  }

  /** Scanning (x, y) extends the coverage by one stride along the row. */
  lemma CoverStep(img: Raster, traced: seq<seq<Point>>, raw: seq<Point>, x: int, y: int, step: int)
    requires img.Valid() && step > 0 && OnStride(x, step)
    requires CoveredBefore(img, traced, step, x, y)
    requires img.InBounds(x, y) && img.Intensity(x, y) > OnThreshold ==> InSome(Record(traced, raw), PixelPoint(x, y))
    ensures CoveredBefore(img, Record(traced, raw), step, x + step, y)
  {
    forall x', y' |
      img.InBounds(x', y') && OnStride(x', step) && OnStride(y', step) && (y' < y || (y' == y && x' < x + step))
      && img.Intensity(x', y') > OnThreshold
      ensures InSome(Record(traced, raw), PixelPoint(x', y'))
    {
      InSomeRecord(traced, raw, PixelPoint(x', y'));
      if y' == y && x' >= x {
        StrideGap(x', x, step);
        assert x' == x;
      } else {
        assert InSome(traced, PixelPoint(x', y'));
      }
    }
  }

  /** A row scanned past its end covers every lattice pixel before the next
      lattice row. */
  lemma CoverRow(img: Raster, traced: seq<seq<Point>>, x: int, y: int, step: int)
    requires img.Valid() && step > 0 && OnStride(y, step) && x >= img.width
    requires CoveredBefore(img, traced, step, x, y)
    ensures CoveredBefore(img, traced, step, 0, y + step)
  {
    forall x', y' |
      img.InBounds(x', y') && OnStride(x', step) && OnStride(y', step) && (y' < y + step || (y' == y + step && x' < 0))
      && img.Intensity(x', y') > OnThreshold
      ensures InSome(traced, PixelPoint(x', y'))
    {
      StrideGap(y', y, step);
    }
  }

  // ---------------------------------------------------------------------
  // The scan

  /** The body of the scan at pixel (x, y): skip it when visited; otherwise,
      when it is "on", trace its region and keep its simplified contour when
      that has more than three points. `raw` is the region traced, empty
      when the pixel was skipped or "off". */
  method ScanPixel(img: Raster, x: int, y: int, step: int, mint: nat -> Uuid, visited: array2<bool>, paths: seq<DrawingPath>)
    returns (paths': seq<DrawingPath>, ghost raw: seq<Point>)
    requires img.Valid() && step > 0 && img.InBounds(x, y) && OnStride(x, step) && OnStride(y, step)
    requires visited.Length0 == img.height && visited.Length1 == img.width
    requires WellFormedPaths(img, paths, mint, step) && AllMarked(visited, paths)
    requires forall i :: 0 <= i < |paths| ==> RowMajorBefore(paths[i].points[0], PixelPoint(x, y))
    modifies visited
    ensures raw == FillFrom(img, old(VisitedCells(visited)), x, y)
    ensures FloodFilled(img, visited, old(VisitedCells(visited)), x, y, raw)
    ensures paths' == AddContour(paths, raw, mint)
    ensures old(visited[y, x]) || img.Intensity(x, y) <= OnThreshold ==> raw == [] && paths' == paths && unchanged(visited)
    ensures WellFormedPaths(img, paths', mint, step) && AllMarked(visited, paths')
    ensures forall i :: 0 <= i < |paths'| ==> RowMajorBefore(paths'[i].points[0], PixelPoint(x + step, y))
  {
    ghost var initial := VisitedCells(visited);
    // earlier paths lie in cells visited before the trace
    forall i, p | 0 <= i < |paths| && p in paths[i].points
      ensures (p.x.Floor, p.y.Floor) in initial
    {
      assert Marked(visited, p);
    }
    paths', raw := paths, [];
    if visited[y, x] {
      SkipPixel(img, visited, initial, paths, mint, x, y);
      return;
    }
    var intensity := img.Intensity(x, y);
    if intensity > OnThreshold {
      var contour;
      contour, raw := TraceContour(img, x, y, visited);
      NewContour(img, visited, initial, paths, raw, mint, x, y, step);
      if |contour| > 3 {
        paths' := paths + [ContourPath(mint(|paths|), contour)];
      }
    } else {
      SkipPixel(img, visited, initial, paths, mint, x, y);
    }
  }

  /** A pixel that is visited or "off" leaves a trivially filled region and
      the paths as they were. */
  lemma SkipPixel(img: Raster, visited: array2<bool>, initial: set<(int, int)>, paths: seq<DrawingPath>, mint: nat -> Uuid, x: int, y: int)
    requires img.Valid() && img.InBounds(x, y)
    requires visited.Length0 == img.height && visited.Length1 == img.width
    requires initial == VisitedCells(visited)
    requires visited[y, x] || img.Intensity(x, y) <= OnThreshold
    ensures FillFrom(img, initial, x, y) == []
    ensures FloodFilled(img, visited, initial, x, y, [])
    ensures AddContour(paths, [], mint) == paths
  {
    assert (x, y) in initial || img.Intensity(x, y) <= OnThreshold;
    assert [(x, y)][1..] == [];
    assert BreadthFirst(img, initial, [], [(x, y)]) == BreadthFirst(img, initial, [], []);
    SimplifyProperties([], ContourTolerance);
  }

  /** The contour traced from (x, y), if kept, extends the well-formed,
      marked paths. */
  lemma NewContour(img: Raster, visited: array2<bool>, initial: set<(int, int)>, paths: seq<DrawingPath>, raw: seq<Point>,
                   mint: nat -> Uuid, x: int, y: int, step: int)
    requires img.Valid() && step > 0 && img.InBounds(x, y) && OnStride(x, step) && OnStride(y, step)
    requires visited.Length0 == img.height && visited.Length1 == img.width
    requires WellFormedPaths(img, paths, mint, step)
    requires forall i, p :: 0 <= i < |paths| && p in paths[i].points ==> (p.x.Floor, p.y.Floor) in initial
    requires forall i :: 0 <= i < |paths| ==> RowMajorBefore(paths[i].points[0], PixelPoint(x, y))
    requires FloodFilled(img, visited, initial, x, y, raw)
    ensures WellFormedPaths(img, AddContour(paths, raw, mint), mint, step)
    ensures AllMarked(visited, AddContour(paths, raw, mint))
    ensures forall i :: 0 <= i < |AddContour(paths, raw, mint)| ==>
      RowMajorBefore(AddContour(paths, raw, mint)[i].points[0], PixelPoint(x + step, y))
  {
    var contour := Simplify(raw, ContourTolerance);
    SimplifyProperties(raw, ContourTolerance);
    assert raw != [] ==> raw[0] == PixelPoint(x, y);
    KeptMarked(img, visited, initial, paths, raw, contour, mint);
    KeptWellFormed(img, paths, raw, contour, mint, x, y, step);
    KeptBefore(paths, contour, mint, x, y, step);
  }

  /** A contour of fill points is marked, and no earlier path, all of whose
      points were visited before the fill, meets the fill. */
  lemma KeptMarked(img: Raster, visited: array2<bool>, initial: set<(int, int)>, paths: seq<DrawingPath>, raw: seq<Point>,
                   contour: seq<Point>, mint: nat -> Uuid)
    requires img.Valid()
    requires visited.Length0 == img.height && visited.Length1 == img.width
    requires forall i, p :: 0 <= i < |paths| && p in paths[i].points ==> Bright(img, p) && (p.x.Floor, p.y.Floor) in initial
    requires forall p :: p in raw ==> Bright(img, p) && (p.x.Floor, p.y.Floor) !in initial
    requires forall y, x :: 0 <= y < img.height && 0 <= x < img.width ==>
      visited[y, x] == ((x, y) in initial || PixelPoint(x, y) in raw)
    requires forall p :: p in contour ==> p in raw
    ensures AllMarked(visited, KeepContour(paths, contour, mint))
    ensures forall i, p :: 0 <= i < |paths| && p in paths[i].points ==> p !in raw
  {
    forall i, p | 0 <= i < |paths| && p in paths[i].points
      ensures Marked(visited, p) && p !in raw
    {
      assert p == PixelPoint(p.x.Floor, p.y.Floor);
    }
    forall p | p in contour
      ensures Marked(visited, p)
    {
      assert p == PixelPoint(p.x.Floor, p.y.Floor);
    }
  }

  /** A kept contour of distinct "on" fill points, starting at the lattice
      pixel (x, y) and sharing no point with the earlier paths, keeps the
      paths well formed. */
  lemma KeptWellFormed(img: Raster, paths: seq<DrawingPath>, raw: seq<Point>, contour: seq<Point>, mint: nat -> Uuid,
                       x: int, y: int, step: int)
    requires img.Valid() && step > 0 && OnStride(x, step) && OnStride(y, step)
    requires WellFormedPaths(img, paths, mint, step)
    requires forall i :: 0 <= i < |paths| ==> RowMajorBefore(paths[i].points[0], PixelPoint(x, y))
    requires forall i, p :: 0 <= i < |paths| && p in paths[i].points ==> p !in raw
    requires |raw| <= MaxContourPoints && (forall p :: p in raw ==> Bright(img, p))
    requires raw != [] ==> raw[0] == PixelPoint(x, y)
    requires |contour| <= |raw| && (forall p :: p in contour ==> p in raw) && (|raw| >= 1 ==> |contour| >= 1 && contour[0] == raw[0])
    ensures WellFormedPaths(img, KeepContour(paths, contour, mint), mint, step)
  {
    if |contour| > 3 {
      forall i | 0 <= i < |paths|
        ensures Disjoint(paths[i].points, contour)
      {
      }
      AppendContour(img, paths, mint, step, contour, x, y);
    }
  }

  /** The paths, with the contour from (x, y) if kept, start before the next
      lattice pixel of the row. */
  lemma KeptBefore(paths: seq<DrawingPath>, contour: seq<Point>, mint: nat -> Uuid, x: int, y: int, step: int)
    requires step > 0
    requires forall i :: 0 <= i < |paths| ==> paths[i].points != [] && RowMajorBefore(paths[i].points[0], PixelPoint(x, y))
    requires contour != [] ==> contour[0] == PixelPoint(x, y)
    ensures forall i :: 0 <= i < |KeepContour(paths, contour, mint)| ==>
      KeepContour(paths, contour, mint)[i].points != []
      && RowMajorBefore(KeepContour(paths, contour, mint)[i].points[0], PixelPoint(x + step, y))
  {
  }

  /** What the scan keeps true when it reaches pixel (x, y): the facts
      below, and `visited` is set exactly at the traced points. */
  ghost predicate ScanState(img: Raster, visited: array2<bool>, paths: seq<DrawingPath>, traced: seq<seq<Point>>,
                            mint: nat -> Uuid, step: int, x: int, y: int)
    requires img.Valid() && step > 0
    requires visited.Length0 == img.height && visited.Length1 == img.width
    reads visited
  {
    && ScanFacts(img, paths, traced, mint, step, x, y)
    && TracedMarks(img, visited, traced)
  }

  /** The state-free part of the scan state: the paths are those emitted
      for the traced regions; the regions keep the scan invariant and start
      before (x, y); and every "on" lattice pixel scanned so far has been
      traced. */
  ghost predicate ScanFacts(img: Raster, paths: seq<DrawingPath>, traced: seq<seq<Point>>,
                            mint: nat -> Uuid, step: int, x: int, y: int)
    requires img.Valid() && step > 0
  {
    && paths == ContourPaths(traced, mint) && Scanned(img, traced, step)
    && (forall t :: 0 <= t < |traced| ==> RowMajorBefore(traced[t][0], PixelPoint(x, y)))
    && CoveredBefore(img, traced, step, x, y)
  }

  /** `visited` is set exactly at the traced points. */
  ghost predicate TracedMarks(img: Raster, visited: array2<bool>, traced: seq<seq<Point>>)
    requires img.Valid()
    requires visited.Length0 == img.height && visited.Length1 == img.width
    reads visited
  {
    forall y', x' :: 0 <= y' < img.height && 0 <= x' < img.width ==> visited[y', x'] == InSome(traced, PixelPoint(x', y'))
  }

  /** One scanned pixel advances the scan state by one stride. */
  lemma ScanStep(img: Raster, visited: array2<bool>, initial: set<(int, int)>, paths: seq<DrawingPath>, paths': seq<DrawingPath>,
                 traced: seq<seq<Point>>, raw: seq<Point>, mint: nat -> Uuid, x: int, y: int, step: int)
    requires img.Valid() && step > 0 && img.InBounds(x, y) && OnStride(x, step) && OnStride(y, step)
    requires visited.Length0 == img.height && visited.Length1 == img.width
    requires paths == ContourPaths(traced, mint) && Scanned(img, traced, step)
    requires forall t :: 0 <= t < |traced| ==> RowMajorBefore(traced[t][0], PixelPoint(x, y))
    requires CoveredBefore(img, traced, step, x, y)
    requires forall y', x' :: 0 <= y' < img.height && 0 <= x' < img.width ==>
      ((x', y') in initial <==> InSome(traced, PixelPoint(x', y')))
    requires FloodFilled(img, visited, initial, x, y, raw) && paths' == AddContour(paths, raw, mint)
    requires raw == FillFrom(img, TracedCells(img, traced), x, y)
    ensures ScanState(img, visited, paths', Record(traced, raw), mint, step, x + step, y)
  {
    ScanAdvance(img, visited, initial, traced, raw, x, y, step);
    ContourPathsRecord(traced, raw, mint);
    CoverStep(img, traced, raw, x, y, step);
  }

  /** A row scanned past its end leaves the state of the next lattice row. */
  lemma ScanRowEnd(img: Raster, visited: array2<bool>, paths: seq<DrawingPath>, traced: seq<seq<Point>>,
                   mint: nat -> Uuid, x: int, y: int, step: int)
    requires img.Valid() && step > 0 && OnStride(y, step) && x >= img.width
    requires visited.Length0 == img.height && visited.Length1 == img.width
    requires ScanState(img, visited, paths, traced, mint, step, x, y)
    ensures ScanState(img, visited, paths, traced, mint, step, 0, y + step)
  {
    CoverRow(img, traced, x, y, step);
  }

  /** One pass of the inner loop of `extractContours`: scan pixel (x, y)
      and record what it traced, the fill from (x, y) over the pixels traced
      before. */
  method ScanNext(img: Raster, x: int, y: int, step: int, mint: nat -> Uuid, visited: array2<bool>,
                  paths: seq<DrawingPath>, ghost traced: seq<seq<Point>>)
    returns (paths': seq<DrawingPath>, ghost traced': seq<seq<Point>>, ghost raw: seq<Point>)
    requires img.Valid() && step > 0 && img.InBounds(x, y) && OnStride(x, step) && OnStride(y, step)
    requires visited.Length0 == img.height && visited.Length1 == img.width
    requires ScanState(img, visited, paths, traced, mint, step, x, y)
    modifies visited
    ensures raw == FillFrom(img, TracedCells(img, traced), x, y) && traced' == Record(traced, raw)
    ensures paths' == AddContour(paths, raw, mint)
    ensures ScanState(img, visited, paths', traced', mint, step, x + step, y)
  {
    ghost var initial := VisitedCells(visited);
    VisitedAreTraced(img, visited, traced);
    TracedPaths(img, visited, traced, mint, step, PixelPoint(x, y));
    paths', raw := ScanPixel(img, x, y, step, mint, visited, paths);
    ScanStep(img, visited, initial, paths, paths', traced, raw, mint, x, y, step);
    traced' := Record(traced, raw);
  }

  /** The visited cells are the traced ones. */
  lemma VisitedAreTraced(img: Raster, visited: array2<bool>, traced: seq<seq<Point>>)
    requires img.Valid()
    requires visited.Length0 == img.height && visited.Length1 == img.width
    requires TracedMarks(img, visited, traced)
    ensures VisitedCells(visited) == TracedCells(img, traced)
  {
    forall c | c in VisitedCells(visited)
      ensures c in TracedCells(img, traced)
    {
    }
    forall c | c in TracedCells(img, traced)
      ensures c in VisitedCells(visited)
    {
    }
  }

  /** The inner loop of `extractContours`: scan lattice row y left to right. */
  method ScanRow(img: Raster, y: int, step: int, mint: nat -> Uuid, visited: array2<bool>,
                 paths: seq<DrawingPath>, ghost traced: seq<seq<Point>>)
    returns (paths': seq<DrawingPath>, ghost traced': seq<seq<Point>>)
    requires img.Valid() && step > 0 && 0 <= y < img.height && OnStride(y, step)
    requires visited.Length0 == img.height && visited.Length1 == img.width
    requires ScanState(img, visited, paths, traced, mint, step, 0, y)
    modifies visited
    ensures traced <= traced'
    ensures ScanState(img, visited, paths', traced', mint, step, 0, y + step)
  {
    paths', traced' := paths, traced;
    var x := 0;
    while x < img.width
      invariant 0 <= x && OnStride(x, step)
      invariant traced <= traced'
      invariant ScanState(img, visited, paths', traced', mint, step, x, y)
    {
      StrideNext(x, step);
      ghost var raw, before := [], traced';
      paths', traced', raw := ScanNext(img, x, y, step, mint, visited, paths', traced');
      RecordExtends(traced, before, raw);
      x := x + step;
    }
    ScanRowEnd(img, visited, paths', traced', mint, x, y, step);
  }

  /** `extractContours`: scan the raster row-major at stride
      `Int(simplification)`; every unvisited "on" pixel on the scan lattice
      starts a trace, and a traced contour of more than three (simplified)
      points becomes a black pencil path of width 2.0. `mint(k)` is the UUID
      of the k-th path made. A negative stride scans nothing; a zero stride
      is a runtime trap in Swift, so the caller must avoid it. `traced` is
      the sequence of regions traced, in scan order. */
  method ExtractContours(img: Raster, simplification: real, mint: nat -> Uuid)
    returns (paths: seq<DrawingPath>, ghost traced: seq<seq<Point>>)
    requires img.Valid()
    requires Truncate(simplification) != 0
    ensures paths == ContourPaths(traced, mint)
    ensures Truncate(simplification) < 0 ==> traced == [] && paths == []
    ensures Truncate(simplification) > 0 ==> Scanned(img, traced, Truncate(simplification))
    ensures Truncate(simplification) > 0 ==>
      forall x, y ::
        (img.InBounds(x, y) && OnStride(x, Truncate(simplification)) && OnStride(y, Truncate(simplification))
         && img.Intensity(x, y) > OnThreshold) ==> InSome(traced, PixelPoint(x, y))
    ensures forall i :: 0 <= i < |paths| ==> paths[i] == ContourPath(mint(i), paths[i].points)
    ensures forall i :: 0 <= i < |paths| ==> 3 < |paths[i].points| <= MaxContourPoints
    ensures forall i, p :: 0 <= i < |paths| && p in paths[i].points ==> Bright(img, p)
    ensures forall i, j :: 0 <= i < j < |paths| ==> Disjoint(paths[i].points, paths[j].points)
    ensures forall i, j :: 0 <= i < j < |paths| ==> RowMajorBefore(paths[i].points[0], paths[j].points[0])
    ensures Truncate(simplification) > 0 ==>
      forall i :: 0 <= i < |paths| ==> OnLattice(paths[i].points[0], Truncate(simplification))
  {
    var step := Truncate(simplification);
    paths, traced := [], [];
    if step < 0 {
      return;
    }
    paths, traced := ScanLattice(img, step, mint);
  }

  /** The two nested loops of `extractContours` for a positive stride, over
      a fresh `visited` grid. */
  method ScanLattice(img: Raster, step: int, mint: nat -> Uuid) returns (paths: seq<DrawingPath>, ghost traced: seq<seq<Point>>)
    requires img.Valid() && step > 0
    ensures paths == ContourPaths(traced, mint) && Scanned(img, traced, step) && CoversLattice(img, traced, step)
    ensures WellFormedPaths(img, paths, mint, step)
  {
    paths, traced := [], [];
    var visited := new bool[img.height, img.width]((_, _) => false);
    ScanStart(img, visited, mint, step);
    var y := 0;
    while y < img.height
      invariant 0 <= y && OnStride(y, step)
      invariant ScanState(img, visited, paths, traced, mint, step, 0, y)
    {
      StrideNext(y, step);
      paths, traced := ScanRow(img, y, step, mint, visited, paths, traced);
      y := y + step;
    }
    ScanDone(img, visited, paths, traced, mint, y, step);
  }

  /** Before the scan nothing is traced, no path is made and nothing is
      visited. */
  lemma ScanStart(img: Raster, visited: array2<bool>, mint: nat -> Uuid, step: int)
    requires img.Valid() && step > 0
    requires visited.Length0 == img.height && visited.Length1 == img.width
    requires forall y, x :: 0 <= y < img.height && 0 <= x < img.width ==> !visited[y, x]
    ensures ScanState(img, visited, [], [], mint, step, 0, 0)
  {
  }

  /** When the scan passes the last row, every "on" lattice pixel is traced,
      and the paths are well formed. */
  lemma ScanDone(img: Raster, visited: array2<bool>, paths: seq<DrawingPath>, traced: seq<seq<Point>>,
                 mint: nat -> Uuid, y: int, step: int)
    requires img.Valid() && step > 0 && y >= img.height
    requires visited.Length0 == img.height && visited.Length1 == img.width
    requires ScanState(img, visited, paths, traced, mint, step, 0, y)
    ensures paths == ContourPaths(traced, mint) && Scanned(img, traced, step) && CoversLattice(img, traced, step)
    ensures WellFormedPaths(img, paths, mint, step)
  {
    TracedPaths(img, visited, traced, mint, step, PixelPoint(0, y));
  }

  // ---------------------------------------------------------------------
  // The scan's regions are determined

  /** Every "on" lattice pixel lies in some region. */
  ghost predicate CoversLattice(img: Raster, traced: seq<seq<Point>>, step: int)
    requires img.Valid() && step > 0
  {
    forall x', y' ::
      (img.InBounds(x', y') && OnStride(x', step) && OnStride(y', step) && img.Intensity(x', y') > OnThreshold)
      ==> InSome(traced, PixelPoint(x', y'))
  }

  /** The first pixel of region t is an "on" lattice pixel that no region
      before it holds. */
  lemma NextStartUncovered(img: Raster, step: int, traced: seq<seq<Point>>, t: int)
    requires img.Valid() && step > 0 && Scanned(img, traced, step) && 0 <= t < |traced|
    ensures traced[t] != []
    ensures var s := traced[t][0];
      && s == PixelPoint(s.x.Floor, s.y.Floor) && img.InBounds(s.x.Floor, s.y.Floor)
      && OnStride(s.x.Floor, step) && OnStride(s.y.Floor, step) && img.Intensity(s.x.Floor, s.y.Floor) > OnThreshold
      && !InSome(traced[..t], s)
  {
    assert Region(img, traced[t], step);
    var s := traced[t][0];
    assert Bright(img, s);
    forall u | 0 <= u < t
      ensures s !in traced[..t][u]
    {
      assert traced[..t][u] == traced[u] && Disjoint(traced[u], traced[t]);
    }
  }

  /** Two scans that agree on their first t regions agree on region t too:
      it starts at the first "on" lattice pixel both left, and it is the
      fill from there. */
  lemma SameRegion(img: Raster, step: int, a: seq<seq<Point>>, b: seq<seq<Point>>, t: int)
    requires img.Valid() && step > 0 && Scanned(img, a, step) && Scanned(img, b, step)
    requires 0 <= t < |a| && t < |b| && a[..t] == b[..t]
    ensures a[t] == b[t]
  {
    NextStartUncovered(img, step, a, t);
    NextStartUncovered(img, step, b, t);
    var s, r := a[t][0], b[t][0];
    assert StartsFirst(img, a, t, step) && StartsFirst(img, b, t, step);
    assert !RowMajorBefore(s, r) && !RowMajorBefore(r, s);
    assert s == r;
    assert Refilled(img, a, t) && Refilled(img, b, t);
  }

  /** Two scans agree on as many regions as both have. */
  lemma {:induction false} SamePrefix(img: Raster, step: int, a: seq<seq<Point>>, b: seq<seq<Point>>, n: int)
    requires img.Valid() && step > 0 && Scanned(img, a, step) && Scanned(img, b, step)
    requires 0 <= n <= |a| && n <= |b|
    ensures a[..n] == b[..n]
  {
    if n > 0 {
      SamePrefix(img, step, a, b, n - 1);
      SameRegion(img, step, a, b, n - 1);
      assert a[..n] == a[..n - 1] + [a[n - 1]] && b[..n] == b[..n - 1] + [b[n - 1]];
    }
  }

  /** Two covering scans that agree on their common prefix have the same
      length: a further region would start at an "on" lattice pixel that the
      shorter scan left uncovered. */
  lemma PrefixLength(img: Raster, step: int, a: seq<seq<Point>>, b: seq<seq<Point>>, n: int)
    requires img.Valid() && step > 0
    requires Scanned(img, a, step) && CoversLattice(img, a, step)
    requires Scanned(img, b, step) && CoversLattice(img, b, step)
    requires n == (if |a| <= |b| then |a| else |b|) && a[..n] == b[..n]
    ensures |a| == |b|
  {
    if n < |b| {
      NextStartUncovered(img, step, b, n);
    }
    if n < |a| {
      NextStartUncovered(img, step, a, n);
    }
  }

  /** The regions of a scan are determined by the raster and the stride:
      two sequences of regions that both keep the scan invariant and both
      cover every "on" lattice pixel are equal. */
  lemma ScanDeterminate(img: Raster, step: int, a: seq<seq<Point>>, b: seq<seq<Point>>)
    requires img.Valid() && step > 0
    requires Scanned(img, a, step) && CoversLattice(img, a, step)
    requires Scanned(img, b, step) && CoversLattice(img, b, step)
    ensures a == b
  {
    var n := if |a| <= |b| then |a| else |b|;
    SamePrefix(img, step, a, b, n);
    PrefixLength(img, step, a, b, n);
    assert a == a[..n] && b == b[..n];
  }
}
