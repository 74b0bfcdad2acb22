/** The line post-processing of the Vision tracer: sample the edge raster at
    stride 2, vote every sample into a Hough accumulator, keep the cells
    with more than 20 votes as lines, merge nearby parallel lines greedily,
    and turn the long, confident ones into red two-point paths.

    Every `sqrt(..) < t` / `> t` comparison of the source is stated on
    squared distances instead. The Vision requests, the CoreImage edge
    filter and the trigonometry of the Hough transform are not part of
    this model: the raster, the distance bucket of a point at an angle
    step, and the endpoints of a cell's line are inputs. */
module VisionTracer {
  import opened Common
  import opened Geometry
  import opened Drawing
  import opened Greedy

  /** A detected line segment; `confidence` is a `Float`, `angle` in radians. */
  datatype DetectedLine = DetectedLine(start: Point, end: Point, confidence: real, angle: real)
  {
    /** The square of `length`. */
    function SquaredLength(): (d: real)
      ensures d >= 0.0
      ensures d == 0.0 <== start == end
    {
      SqDist(start, end)
    }
  }

  /** `Double.pi`, the binary64 value nearest to π, written out exactly. */
  const Pi: real := 3.141592653589793115997963468544185161590576171875
  /** One degree: the angular resolution of the accumulator. */
  const AngleStep: real := Pi / 180.0
  /** The number of angle steps from 0 up to, not including, π. */
  const AngleSteps: nat := 180
  /** Sampling stride in both axes. */
  const Stride: nat := 2
  /** A sampled pixel is an edge when channel 0 exceeds this. */
  const EdgeThreshold: int := 100
  /** A Hough cell yields a line when its votes exceed this. */
  const VoteThreshold: nat := 20
  /** Lines merge when their angles differ by less than this (or by more than π minus it). */
  const AngleTolerance: real := 0.1
  /** ... and their nearest endpoints are closer than 20 (squared: 400). */
  const MergeDistanceSquared: real := 400.0
  /** An optimized line is kept when longer than 10 (squared: 100) ... */
  const MinLengthSquared: real := 100.0
  /** ... and more confident than this. */
  const MinConfidence: real := 0.5

  // =====================================================================
  // Edge sampling

  /** Pixel (x, y) is sampled and is an edge: even coordinates, inside
      the raster, channel 0 above the threshold. */
  predicate IsEdgePixel(img: Raster, x: int, y: int)
    requires img.Valid()
  {
    img.InBounds(x, y) && x % 2 == 0 && y % 2 == 0 && img.Intensity(x, y) > EdgeThreshold
  }

  /** The edge samples of row `y` among the columns below `x`, left to right. */
  function RowSamples(img: Raster, y: int, x: nat): seq<Point>
    requires img.Valid()
    decreases x
  {
    if x == 0 then []
    else RowSamples(img, y, x - 1) + (if IsEdgePixel(img, x - 1, y) then [PixelPoint(x - 1, y)] else [])
  }

  /** The edge samples of the rows below `y`, row after row. */
  function Samples(img: Raster, y: nat): seq<Point>
    requires img.Valid()
    decreases y
  {
    if y == 0 then [] else Samples(img, y - 1) + RowSamples(img, y - 1, img.width)
  }

  /** The sampling loop of `detectLines`: visit the pixels with even
      coordinates row by row and collect those whose channel 0 exceeds 100. */
  method SampleEdgePoints(img: Raster) returns (edgePoints: seq<Point>)
    requires img.Valid()
    ensures edgePoints == Samples(img, img.height)
  {
    edgePoints := [];
    var y := 0;
    while y < img.height
      invariant 0 <= y && y % 2 == 0
      invariant edgePoints == Samples(img, if y <= img.height then y else img.height)
    {
      edgePoints := SampleRow(img, y, edgePoints);
      OddRowEmpty(img, y + 1, img.width);
      assert Samples(img, y + 1) == Samples(img, y) + RowSamples(img, y, img.width);
      if y + 1 < img.height {
        assert Samples(img, y + 2) == Samples(img, y + 1) + RowSamples(img, y + 1, img.width);
      }
      ModAddStep(y, Stride);
      y := y + Stride;
    }
  }

  /** One row of the sampling loop: append, left to right, the even-column
      pixels of row `y` whose channel 0 exceeds 100. */
  method SampleRow(img: Raster, y: nat, samples: seq<Point>) returns (edgePoints: seq<Point>)
    requires img.Valid() && y < img.height && y % 2 == 0
    ensures edgePoints == samples + RowSamples(img, y, img.width)
  {
    edgePoints := samples;
    var x := 0;
    while x < img.width
      invariant 0 <= x && x % 2 == 0
      invariant edgePoints == samples + RowSamples(img, y, if x <= img.width then x else img.width)
    {
      var intensity := img.Intensity(x, y);
      ghost var row := RowSamples(img, y, x);
      assert RowSamples(img, y, x + 1) == row + (if IsEdgePixel(img, x, y) then [PixelPoint(x, y)] else []);
      if x + 1 < img.width {
        assert !IsEdgePixel(img, x + 1, y) && RowSamples(img, y, x + 2) == RowSamples(img, y, x + 1);
      }
      if intensity > EdgeThreshold {
        var p := PixelPoint(x, y);
        edgePoints := edgePoints + [p];
      }
      ModAddStep(x, Stride);
      x := x + Stride;
    }
  }

  /** Odd rows are skipped. */
  lemma {:induction false} OddRowEmpty(img: Raster, y: int, x: nat)
    requires img.Valid() && y % 2 == 1
    ensures RowSamples(img, y, x) == []
    decreases x
  {
    if x > 0 {
      OddRowEmpty(img, y, x - 1);
    }
  }

  /** Every sample is the point of an edge pixel. */
  predicate SoundSamples(img: Raster, pts: seq<Point>)
    requires img.Valid()
  {
    forall i :: 0 <= i < |pts| ==> pts[i] == PixelPoint(pts[i].x.Floor, pts[i].y.Floor) && IsEdgePixel(img, pts[i].x.Floor, pts[i].y.Floor)
  }

  /** Strictly increasing in row-major order (so also free of repeats). */
  predicate RowMajorSorted(pts: seq<Point>) {
    forall i, j :: 0 <= i < j < |pts| ==> RowMajorBefore(pts[i], pts[j])
  }

  /** The samples of row `y` below column `x` are sound edge pixels of that
      row, left of `x`, strictly left to right, and include every edge pixel
      of the row left of `x`. */
  lemma {:induction false} RowSamplesProperties(img: Raster, y: int, x: nat)
    requires img.Valid()
    ensures var r := RowSamples(img, y, x);
      SoundSamples(img, r) && RowMajorSorted(r) &&
      (forall i :: 0 <= i < |r| ==> r[i].y == y as real && r[i].x < x as real) &&
      (forall x' :: 0 <= x' < x && IsEdgePixel(img, x', y) ==> PixelPoint(x', y) in r)
    decreases x
  {
    if x > 0 {
      RowSamplesProperties(img, y, x - 1);
      var r := RowSamples(img, y, x);
      var pre := RowSamples(img, y, x - 1);
      assert r == pre + (if IsEdgePixel(img, x - 1, y) then [PixelPoint(x - 1, y)] else []);
      var p := PixelPoint(x - 1, y);
      assert p.x.Floor == x - 1 && p.y.Floor == y;
      forall x' | 0 <= x' < x && IsEdgePixel(img, x', y)
        ensures PixelPoint(x', y) in r
      {
        if x' < x - 1 {
          assert PixelPoint(x', y) in pre;
        }
      }
    }
  }

  /** The samples of the rows above `y` are sound edge pixels of those rows,
      in strict row-major order, and include every edge pixel above `y`. */
  lemma {:induction false} SamplesProperties(img: Raster, y: nat)
    requires img.Valid()
    ensures var s := Samples(img, y);
      SoundSamples(img, s) && RowMajorSorted(s) &&
      (forall i :: 0 <= i < |s| ==> s[i].y < y as real) &&
      (forall x', y' :: 0 <= y' < y && IsEdgePixel(img, x', y') ==> PixelPoint(x', y') in s)
    decreases y
  {
    if y > 0 {
      SamplesProperties(img, y - 1);
      RowSamplesProperties(img, y - 1, img.width);
      var s := Samples(img, y);
      var pre := Samples(img, y - 1);
      var row := RowSamples(img, y - 1, img.width);
      assert s == pre + row;
      forall i, j | 0 <= i < j < |s|
        ensures RowMajorBefore(s[i], s[j])
      {
        if j < |pre| {
          assert s[i] == pre[i] && s[j] == pre[j];
        } else if i >= |pre| {
          assert s[i] == row[i - |pre|] && s[j] == row[j - |pre|];
        } else {
          assert s[i] == pre[i] && s[j] == row[j - |pre|];
        }
      }
      forall x', y' | 0 <= y' < y && IsEdgePixel(img, x', y')
        ensures PixelPoint(x', y') in s
      {
        if y' < y - 1 {
          assert PixelPoint(x', y') in pre;
        } else {
          assert PixelPoint(x', y') in row;
        }
      }
    }
  }

  /** What `detectLines` samples: exactly the edge pixels with even
      coordinates, each once, in row-major order. */
  lemma EdgeSamplesExact(img: Raster)
    requires img.Valid()
    ensures SoundSamples(img, Samples(img, img.height))
    ensures RowMajorSorted(Samples(img, img.height))
    ensures forall x, y :: IsEdgePixel(img, x, y) ==> PixelPoint(x, y) in Samples(img, img.height)
  {
    SamplesProperties(img, img.height);
  }

  // =====================================================================
  // Hough voting

  /** The ballots one point casts at the first `n` angle steps: one for the
      cell (angle step, distance bucket) at each step. */
  function PointBallots(p: Point, rho: (Point, int) -> int, n: nat): multiset<(int, int)>
    decreases n
  {
    if n == 0 then multiset{} else PointBallots(p, rho, n - 1) + multiset{(n - 1, rho(p, n - 1))}
  }

  /** All ballots of a sequence of points, over all angle steps. */
  function Ballots(points: seq<Point>, rho: (Point, int) -> int): multiset<(int, int)>
    decreases |points|
  {
    if points == [] then multiset{} else Ballots(DropLast(points), rho) + PointBallots(Last(points), rho, AngleSteps)
  }

  /** A point casts exactly one ballot per angle step, for its own bucket. */
  lemma {:induction false} PointBallotsExact(p: Point, rho: (Point, int) -> int, n: nat, c: (int, int))
    ensures |PointBallots(p, rho, n)| == n
    ensures PointBallots(p, rho, n)[c] == if 0 <= c.0 < n && c.1 == rho(p, c.0) then 1 else 0
    decreases n
  {
    if n > 0 {
      PointBallotsExact(p, rho, n - 1, c);
    }
  }

  /** The accumulator's total vote count is the number of points times the
      number of angle steps, and every vote lands at an angle step below 180. */
  lemma {:induction false} BallotsTotal(points: seq<Point>, rho: (Point, int) -> int, c: (int, int))
    ensures |Ballots(points, rho)| == |points| * AngleSteps
    ensures Ballots(points, rho)[c] > 0 ==> 0 <= c.0 < AngleSteps
    decreases |points|
  {
    if points != [] {
      BallotsTotal(DropLast(points), rho, c);
      PointBallotsExact(Last(points), rho, AngleSteps, c);
    }
  }

  /** The vote count of a cell, with the dictionary's default of zero. */
  function Votes(accumulator: map<(int, int), nat>, c: (int, int)): nat {
    if c in accumulator then accumulator[c] else 0
  }

  /** The voting loop of `houghLineTransform`: for every point and every
      angle step, one vote for (angle step, `rho(point, angle step)`). The
      nested dictionary is flattened to one keyed by the pair. */
  method AccumulateVotes(points: seq<Point>, rho: (Point, int) -> int) returns (accumulator: map<(int, int), nat>)
    ensures forall c :: Votes(accumulator, c) == Ballots(points, rho)[c]
  {
    accumulator := map[];
    for i := 0 to |points|
      invariant forall c :: Votes(accumulator, c) == Ballots(points[..i], rho)[c]
    {
      accumulator := CastVotes(accumulator, Ballots(points[..i], rho), points[i], rho);
      assert DropLast(points[..i + 1]) == points[..i];
    }
    assert points[..|points|] == points;
  }

  /** The inner voting loop for one point: a vote at every angle step. */
  method CastVotes(accumulator: map<(int, int), nat>, ghost earlier: multiset<(int, int)>, point: Point, rho: (Point, int) -> int)
    returns (accumulator': map<(int, int), nat>)
    requires forall c :: Votes(accumulator, c) == earlier[c]
    ensures forall c :: Votes(accumulator', c) == (earlier + PointBallots(point, rho, AngleSteps))[c]
  {
    accumulator' := accumulator;
    for a := 0 to AngleSteps
      invariant forall c :: Votes(accumulator', c) == (earlier + PointBallots(point, rho, a))[c]
    {
      var bucket := (a, rho(point, a));
      var next := accumulator'[bucket := Votes(accumulator', bucket) + 1];
      VoteStep(accumulator', next, earlier, point, rho, a);
      accumulator' := next;
    }
  }

  /** One more vote for the point's cell at angle step `a` accounts for its
      ballot at that step. */
  lemma VoteStep(accumulator: map<(int, int), nat>, after: map<(int, int), nat>, earlier: multiset<(int, int)>,
                  p: Point, rho: (Point, int) -> int, a: nat)
    requires forall c :: Votes(accumulator, c) == (earlier + PointBallots(p, rho, a))[c]
    requires after == accumulator[(a, rho(p, a)) := Votes(accumulator, (a, rho(p, a))) + 1]
    ensures forall c :: Votes(after, c) == (earlier + PointBallots(p, rho, a + 1))[c]
  {
    var bucket := (a, rho(p, a));
    assert PointBallots(p, rho, a + 1) == PointBallots(p, rho, a) + multiset{bucket};
    forall c
      ensures Votes(after, c) == (earlier + PointBallots(p, rho, a + 1))[c]
    {
      if c == bucket {
        assert Votes(after, c) == Votes(accumulator, c) + 1;
      } else {
        assert Votes(after, c) == Votes(accumulator, c);
      }
    }
  }

  /** The line of an accumulator cell (angle step, distance bucket):
      endpoints from `place`, confidence votes / 20, angle step × one degree. */
  function LineFor(cell: (int, int), votes: nat, place: (int, int) -> (Point, Point)): (line: DetectedLine)
    ensures (line.start, line.end) == place(cell.0, cell.1)
    ensures line.confidence * VoteThreshold as real == votes as real
    ensures votes > VoteThreshold ==> line.confidence > 1.0
    ensures 0 <= cell.0 < AngleSteps ==> 0.0 <= line.angle < Pi
  {
    AngleInRange(cell.0);
    DetectedLine(place(cell.0, cell.1).0, place(cell.0, cell.1).1, votes as real / VoteThreshold as real, cell.0 as real * AngleStep)
  }

  /** `houghLineTransform`: vote, then make a line of each cell with more
      than 20 votes. `cells` is the ghost record of which cell each line
      came from. */
  method HoughLineTransform(points: seq<Point>, rho: (Point, int) -> int, place: (int, int) -> (Point, Point))
    returns (lines: seq<DetectedLine>, ghost cells: seq<(int, int)>)
    ensures |lines| == |cells|
    ensures forall c :: c in cells <==> Ballots(points, rho)[c] > VoteThreshold
    ensures forall k, m :: 0 <= k < m < |cells| ==> cells[k] != cells[m]
    ensures forall k :: 0 <= k < |lines| ==> lines[k] == LineFor(cells[k], Ballots(points, rho)[cells[k]], place)
    ensures forall k :: 0 <= k < |lines| ==>
      lines[k].confidence > 1.0 && 0 <= cells[k].0 < AngleSteps && 0.0 <= lines[k].angle < Pi
  {
    var accumulator := AccumulateVotes(points, rho);
    lines, cells := ThresholdCells(accumulator, place);
    forall k | 0 <= k < |lines|
      ensures lines[k].confidence > 1.0 && 0 <= cells[k].0 < AngleSteps && 0.0 <= lines[k].angle < Pi
    {
      BallotsTotal(points, rho, cells[k]);
      var votes := Votes(accumulator, cells[k]);
      assert votes > VoteThreshold;
      assert lines[k] == LineFor(cells[k], votes, place);
    }
  }

  /** The thresholding loop of `houghLineTransform`: visit the accumulator's
      cells in the dictionary's (unspecified) order and make a line of each
      cell with more than 20 votes. */
  method ThresholdCells(accumulator: map<(int, int), nat>, place: (int, int) -> (Point, Point))
    returns (lines: seq<DetectedLine>, ghost cells: seq<(int, int)>)
    ensures |lines| == |cells|
    ensures forall c :: c in cells <==> Votes(accumulator, c) > VoteThreshold
    ensures forall k, m :: 0 <= k < m < |cells| ==> cells[k] != cells[m]
    ensures forall k :: 0 <= k < |lines| ==> lines[k] == LineFor(cells[k], Votes(accumulator, cells[k]), place)
  {
    lines := [];
    cells := [];
    var pending := accumulator.Keys;
    while pending != {}
      invariant pending <= accumulator.Keys
      invariant |lines| == |cells|
      invariant forall c :: c in cells ==> c in accumulator && c !in pending && accumulator[c] > VoteThreshold
      invariant forall c :: c in accumulator && c !in pending && accumulator[c] > VoteThreshold ==> c in cells
      invariant forall k, m :: 0 <= k < m < |cells| ==> cells[k] != cells[m]
      invariant forall k :: 0 <= k < |lines| ==> lines[k] == LineFor(cells[k], accumulator[cells[k]], place)
      decreases |pending|
    {
      var cell :| cell in pending;
      pending := pending - {cell};
      var votes := accumulator[cell];
      if votes > VoteThreshold {
        lines := lines + [LineFor(cell, votes, place)];
        cells := cells + [cell];
      }
    }
  }

  /** Angle step `a` of 0..179 is an angle in [0, π). */
  lemma AngleInRange(a: int)
    ensures 0 <= a < AngleSteps ==> 0.0 <= a as real * AngleStep < Pi
  {
    assert a as real * AngleStep == (a as real / 180.0) * Pi;
  }

  // =====================================================================
  // Line distance and merging

  /** The square of `distanceBetweenLines`: the least of the four
      start/end endpoint distances. */
  function SqDistanceBetweenLines(l1: DetectedLine, l2: DetectedLine): (d: real)
    ensures d == SqDist(l1.start, l2.start) || d == SqDist(l1.start, l2.end) || d == SqDist(l1.end, l2.start) || d == SqDist(l1.end, l2.end)
    ensures d <= SqDist(l1.start, l2.start) && d <= SqDist(l1.start, l2.end) && d <= SqDist(l1.end, l2.start) && d <= SqDist(l1.end, l2.end)
  {
    Min(Min(SqDist(l1.start, l2.start), SqDist(l1.start, l2.end)), Min(SqDist(l1.end, l2.start), SqDist(l1.end, l2.end)))
  }

  function Min(a: real, b: real): real {
    if a <= b then a else b
  }

  lemma SqDistSymmetric(p: Point, q: Point)
    ensures SqDist(p, q) == SqDist(q, p)
  {
    assert (q.x - p.x) * (q.x - p.x) == (p.x - q.x) * (p.x - q.x);
    assert (q.y - p.y) * (q.y - p.y) == (p.y - q.y) * (p.y - q.y);
  }

  /** The distance between two lines does not depend on their order. */
  lemma DistanceBetweenLinesSymmetric(l1: DetectedLine, l2: DetectedLine)
    ensures SqDistanceBetweenLines(l1, l2) == SqDistanceBetweenLines(l2, l1)
  {
    SqDistSymmetric(l1.start, l2.start);
    SqDistSymmetric(l1.start, l2.end);
    SqDistSymmetric(l1.end, l2.start);
    SqDistSymmetric(l1.end, l2.end);
  }

  /** The position of the first point of least x: the head of a stable
      sort of `pts` by x. */
  function FirstLeastX(pts: seq<Point>): (i: nat)
    requires |pts| > 0
    ensures i < |pts|
    ensures forall k :: 0 <= k < |pts| ==> pts[i].x <= pts[k].x
    ensures forall k :: 0 <= k < i ==> pts[k].x > pts[i].x
    decreases |pts|
  {
    if |pts| == 1 then 0
    else
      var i := FirstLeastX(DropLast(pts));
      if Last(pts).x < pts[i].x then |pts| - 1 else i
  }

  /** The position of the last point of greatest x: the tail of a stable
      sort of `pts` by x. */
  function LastGreatestX(pts: seq<Point>): (i: nat)
    requires |pts| > 0
    ensures i < |pts|
    ensures forall k :: 0 <= k < |pts| ==> pts[k].x <= pts[i].x
    ensures forall k :: i < k < |pts| ==> pts[k].x < pts[i].x
    decreases |pts|
  {
    if |pts| == 1 then 0
    else
      var i := LastGreatestX(DropLast(pts));
      if Last(pts).x >= pts[i].x then |pts| - 1 else i
  }

  /** The four endpoints, in the order `mergeTwoLines` lists them. */
  function Endpoints(l1: DetectedLine, l2: DetectedLine): seq<Point> {
    [l1.start, l1.end, l2.start, l2.end]
  }

  /** `mergeTwoLines`: the segment from the leftmost to the rightmost of the
      four endpoints, with the averaged confidence and angle. */
  function MergeTwoLines(l1: DetectedLine, l2: DetectedLine): (m: DetectedLine)
    ensures m.start in Endpoints(l1, l2) && m.end in Endpoints(l1, l2)
    ensures forall q :: q in Endpoints(l1, l2) ==> m.start.x <= q.x <= m.end.x
    ensures m.confidence == (l1.confidence + l2.confidence) / 2.0
    ensures m.angle == (l1.angle + l2.angle) / 2.0
  {
    var pts := Endpoints(l1, l2);
    DetectedLine(pts[FirstLeastX(pts)], pts[LastGreatestX(pts)], (l1.confidence + l2.confidence) / 2.0, (l1.angle + l2.angle) / 2.0)
  }

  /** The angle test of the merge: nearly parallel, either way round. */
  predicate AnglesAlign(a1: real, a2: real) {
    Abs(a1 - a2) < AngleTolerance || Abs(a1 - a2) > Pi - AngleTolerance
  }

  /** `other` may be absorbed into `current`. */
  predicate Mergeable(current: DetectedLine, other: DetectedLine) {
    AnglesAlign(current.angle, other.angle) && SqDistanceBetweenLines(current, other) < MergeDistanceSquared
  }

  // =====================================================================
  // The greedy merge

  /** The greedy merge of `lines` as `mergeNearbyLines` performs it: the
      clustering of the `Greedy` module with `mergeTwoLines` as the merge
      and `Mergeable` as the nearness test. */
  ghost predicate LinesMerged(lines: seq<DetectedLine>, merged: seq<DetectedLine>, groups: seq<seq<nat>>, owner: map<nat, Slot>) {
    GreedyMerge(lines, merged, groups, owner, MergeTwoLines, Mergeable)
  }

  /** `mergeNearbyLines`: take each index not yet used as a seed, in order;
      absorb into it every later unused line mergeable with the line
      accumulated so far; emit the accumulated line. */
  method MergeNearbyLines(lines: seq<DetectedLine>) returns (merged: seq<DetectedLine>, ghost groups: seq<seq<nat>>, ghost owner: map<nat, Slot>)
    ensures LinesMerged(lines, merged, groups, owner)
  {
    merged := [];
    groups := [];
    owner := map[];
    var used: set<nat> := {};
    for i := 0 to |lines|
      invariant used == owner.Keys
      invariant MergedUpTo(lines, merged, groups, owner, i, MergeTwoLines, Mergeable)
    {
      if i in used {
        MergedUpToSkip(lines, merged, groups, owner, i, MergeTwoLines, Mergeable);
        continue;
      }
      var currentLine, used', g, owner' := GrowGroup(lines, i, |groups|, used, owner, MergeTwoLines, Mergeable);
      MergedUpToGrow(lines, merged, groups, owner, i, currentLine, g, owner', MergeTwoLines, Mergeable);
      merged := merged + [currentLine];
      groups := groups + [g];
      owner := owner';
      used := used';
    }
    MergedUpToDone(lines, merged, groups, owner, MergeTwoLines, Mergeable);
  }

  // =====================================================================
  // Optimizing

  /** The length/confidence filter of `optimizeLines`: longer than 10 and
      more confident than 0.5. */
  predicate Keep(line: DetectedLine) {
    line.SquaredLength() > MinLengthSquared && line.confidence > MinConfidence
  }

  /** The positions below `n` of the lines of `m` that pass the filter, in
      increasing order: exactly those, each once. */
  function KeptIndices(m: seq<DetectedLine>, n: nat): (r: seq<nat>)
    requires n <= |m|
    ensures Ascending(r) && Below(r, n)
    decreases n
  {
    if n == 0 then [] else KeptIndices(m, n - 1) + (if Keep(m[n - 1]) then [n - 1] else [])
  }

  /** One more line extends the kept positions by its own exactly when it
      passes the filter. */
  lemma KeptStep(m: seq<DetectedLine>, t: nat)
    requires t < |m|
    ensures Keep(m[t]) ==> KeptIndices(m, t + 1) == KeptIndices(m, t) + [t]
    ensures !Keep(m[t]) ==> KeptIndices(m, t + 1) == KeptIndices(m, t)
  {
  }

  /** The kept positions are exactly those of the lines that pass the filter. */
  lemma {:induction false} KeptIndicesExact(m: seq<DetectedLine>, n: nat)
    requires n <= |m|
    ensures forall u :: 0 <= u < n ==> (u in KeptIndices(m, n) <==> Keep(m[u]))
    decreases n
  {
    if n > 0 {
      KeptIndicesExact(m, n - 1);
      var pre := KeptIndices(m, n - 1);
      assert Below(pre, n - 1);
    }
  }

  /** The red two-point path of a kept line. */
  function LinePath(id: Uuid, line: DetectedLine): DrawingPath {
    DrawingPath(id, [line.start, line.end], Red, 1.5, Line)
  }

  /** `optimizeLines`: merge, then keep each merged line that passes the
      filter as a red two-point line path, in order. `mint(t)` is the UUID
      of the t-th path made; `kept` lists the positions in `merged` of the
      lines that made it. */
  method OptimizeLines(lines: seq<DetectedLine>, mint: nat -> Uuid)
    returns (paths: seq<DrawingPath>, ghost merged: seq<DetectedLine>, ghost groups: seq<seq<nat>>, ghost owner: map<nat, Slot>, ghost kept: seq<nat>)
    ensures LinesMerged(lines, merged, groups, owner)
    ensures kept == KeptIndices(merged, |merged|)
    ensures forall u :: 0 <= u < |merged| ==> (u in kept <==> Keep(merged[u]))
    ensures |paths| == |kept| <= |lines|
    ensures forall t :: 0 <= t < |paths| ==> paths[t] == LinePath(mint(t), merged[kept[t]])
  {
    var m;
    m, groups, owner := MergeNearbyLines(lines);
    merged := m;
    paths, kept := KeepLines(m, mint);
    MergeShrinks(lines, merged, groups, owner, MergeTwoLines, Mergeable);
    AscendingBounded(kept, |merged|);
    KeptIndicesExact(m, |m|);
  }

  /** The filtering loop of `optimizeLines`: each line of `m` that passes the
      filter becomes the next path, in order. */
  method KeepLines(m: seq<DetectedLine>, mint: nat -> Uuid) returns (paths: seq<DrawingPath>, ghost kept: seq<nat>)
    ensures kept == KeptIndices(m, |m|)
    ensures |paths| == |kept|
    ensures forall t :: 0 <= t < |paths| ==> paths[t] == LinePath(mint(t), m[kept[t]])
  {
    paths := [];
    kept := [];
    for t := 0 to |m|
      invariant KeptPaths(m, t, mint, paths, kept)
    {
      paths, kept := KeepNext(m, t, mint, paths, kept);
    }
  }

  /** The state of the filtering loop after the first `t` lines: the kept
      positions so far, and one path per kept line, numbered in order. */
  ghost predicate KeptPaths(m: seq<DetectedLine>, t: nat, mint: nat -> Uuid, paths: seq<DrawingPath>, kept: seq<nat>)
    requires t <= |m|
  {
    kept == KeptIndices(m, t) && |paths| == |kept|
    && forall s :: 0 <= s < |paths| ==> paths[s] == LinePath(mint(s), m[kept[s]])
  }

  /** One step of the filtering loop: line `t` becomes the next path when
      it passes the filter. */
  method KeepNext(m: seq<DetectedLine>, t: nat, mint: nat -> Uuid, paths: seq<DrawingPath>, ghost kept: seq<nat>)
    returns (paths': seq<DrawingPath>, ghost kept': seq<nat>)
    requires t < |m| && KeptPaths(m, t, mint, paths, kept)
    ensures KeptPaths(m, t + 1, mint, paths', kept')
    ensures paths' == if Keep(m[t]) then paths + [LinePath(mint(|paths|), m[t])] else paths
  {
    var line := m[t];
    KeptStep(m, t);
    paths', kept' := paths, kept;
    if Keep(line) {
      paths' := paths + [LinePath(mint(|paths|), line)];
      kept' := kept + [t];
    }
  }

  // =====================================================================
  // Normalized coordinates

  /** `convertNormalizedPoint`: from Vision's unit square (origin bottom
      left) to image coordinates (origin top left). */
  function ConvertNormalizedPoint(p: Point, width: real, height: real): (q: Point)
    ensures p == Point(0.0, 0.0) ==> q == Point(0.0, height)
    ensures p == Point(1.0, 1.0) ==> q == Point(width, 0.0)
    ensures p == Point(0.0, 1.0) ==> q == Point(0.0, 0.0)
    ensures p == Point(1.0, 0.0) ==> q == Point(width, height)
  {
    Point(p.x * width, (1.0 - p.y) * height)
  }

  /** The inverse map, for a non-degenerate image. */
  function NormalizePoint(q: Point, width: real, height: real): Point
    requires width != 0.0 && height != 0.0
  {
    Point(q.x / width, 1.0 - q.y / height)
  }

  /** The conversion loses nothing for a non-degenerate image. */
  lemma ConvertNormalizedRoundTrip(p: Point, q: Point, width: real, height: real)
    requires width != 0.0 && height != 0.0
    ensures NormalizePoint(ConvertNormalizedPoint(p, width, height), width, height) == p
    ensures ConvertNormalizedPoint(NormalizePoint(q, width, height), width, height) == q
  {
    assert (p.x * width) / width == p.x;
    var t := 1.0 - p.y;
    assert (t * height) / height == t;
    assert (q.x / width) * width == q.x;
    assert (q.y / height) * height == q.y;
  }

  /** Converting keeps the left-to-right order of points. */
  lemma ConvertKeepsOrderX(p: Point, p': Point, width: real, height: real)
    requires width > 0.0
    ensures p.x < p'.x <==> ConvertNormalizedPoint(p, width, height).x < ConvertNormalizedPoint(p', width, height).x
  {
    ScaleMonotone(p.x, p'.x, width);
  }

  /** Converting flips the vertical order: a point higher in Vision's frame
      (origin bottom left) lies nearer the top of the image (origin top left). */
  lemma ConvertFlipsOrderY(p: Point, p': Point, width: real, height: real)
    requires height > 0.0
    ensures p.y < p'.y <==> ConvertNormalizedPoint(p', width, height).y < ConvertNormalizedPoint(p, width, height).y
  {
    ScaleMonotone(1.0 - p'.y, 1.0 - p.y, height);
  }

  /** The unit square maps into the image rectangle. */
  lemma ConvertInImage(p: Point, width: real, height: real)
    requires width > 0.0 && height > 0.0
    requires 0.0 <= p.x <= 1.0 && 0.0 <= p.y <= 1.0
    ensures var q := ConvertNormalizedPoint(p, width, height); 0.0 <= q.x <= width && 0.0 <= q.y <= height
  {
    ScaleMonotone(0.0, p.x, width);
    ScaleMonotone(p.x, 1.0, width);
    ScaleMonotone(0.0, 1.0 - p.y, height);
    ScaleMonotone(1.0 - p.y, 1.0, height);
  }

  /** Scaling by a positive factor keeps the order strictly and weakly. */
  lemma ScaleMonotone(a: real, b: real, k: real)
    requires k > 0.0
    ensures a < b <==> a * k < b * k
    ensures a <= b <==> a * k <= b * k
  {
    if a < b {
      assert (b - a) * k > 0.0;
    } else {
      assert (a - b) * k >= 0.0;
    }
  }

  /** The blue closed path `detectRectangles` makes of a rectangle
      observation's corners: four corners and the first again. */
  function RectanglePath(id: Uuid, topLeft: Point, topRight: Point, bottomRight: Point, bottomLeft: Point, width: real, height: real): (path: DrawingPath)
    ensures |path.points| == 5 && path.points[0] == path.points[4]
    ensures path.points[0] == ConvertNormalizedPoint(topLeft, width, height)
    ensures path.color == Blue && path.tool == Rectangle && path.lineWidth == 2.0
  {
    var tl := ConvertNormalizedPoint(topLeft, width, height);
    DrawingPath(id, [tl, ConvertNormalizedPoint(topRight, width, height), ConvertNormalizedPoint(bottomRight, width, height),
      ConvertNormalizedPoint(bottomLeft, width, height), tl], Blue, 2.0, Rectangle)
  }
}
