/** The exporters of the drawing: the Wavefront OBJ mesh that extrudes every
    path into a prism for Rhino, and the JSON text handed to Grasshopper.

    The OBJ text is modelled line by line as records; the decimal text of
    the coordinates is not modelled (the coordinates themselves are), and
    the JSON exporter takes the text of a coordinate as a parameter. */
module Model3DGenerator {
  import opened Common
  import opened Geometry
  import opened Drawing

  // =====================================================================
  // The OBJ mesh

  /** One line of the OBJ text: a `#` comment, a `v x y z` vertex, an
      `f i j k ...` face over 1-based vertex numbers, or an empty line. */
  datatype ObjRecord = Comment(text: string) | Vertex(position: Point3D) | Face(indices: seq<int>) | Blank

  /** `convert2DTo3D`: every point of the path at height zero. */
  function Convert2DTo3D(points: seq<Point>): (r: seq<Point3D>)
    ensures |r| == |points|
  {
    seq(|points|, i requires 0 <= i < |points| => Point3D(points[i].x, points[i].y, 0.0))
  }

  /** Dropping the height. */
  function Project(ps: seq<Point3D>): seq<Point> {
    seq(|ps|, i requires 0 <= i < |ps| => Point(ps[i].x, ps[i].y))
  }

  /** `convert2DTo3D` keeps each point's x and y, in order, and puts it at
      height zero. */
  lemma Convert2DTo3DLifts(points: seq<Point>)
    ensures Project(Convert2DTo3D(points)) == points
    ensures forall i :: 0 <= i < |points| ==> Convert2DTo3D(points)[i].z == 0.0
  {
  }

  /** The vertex lines of the bottom ring: the converted points as they are. */
  function BottomRing(points3D: seq<Point3D>): seq<ObjRecord> {
    seq(|points3D|, i requires 0 <= i < |points3D| => Vertex(points3D[i]))
  }

  /** The vertex lines of the top ring: the converted points raised by `extrusion`. */
  function TopRing(points3D: seq<Point3D>, extrusion: real): seq<ObjRecord> {
    seq(|points3D|, i requires 0 <= i < |points3D| => Vertex(Point3D(points3D[i].x, points3D[i].y, points3D[i].z + extrusion)))
  }

  /** Side face `i` of a ring of `n` vertices numbered from `v`: bottom `i`,
      bottom `i + 1` (wrapping), top `i + 1`, top `i`. */
  function SideFace(v: int, n: nat, i: nat): ObjRecord
    requires i < n
  {
    Face([v + i, v + (i + 1) % n, v + (i + 1) % n + n, v + i + n])
  }

  function SideFaces(v: int, n: nat): seq<ObjRecord> {
    seq(n, i requires 0 <= i < n => SideFace(v, n, i))
  }

  /** The bottom cap: the bottom ring's numbers in increasing order. */
  function BottomCap(v: int, n: nat): ObjRecord {
    Face(seq(n, i requires 0 <= i < n => v + i))
  }

  /** The top cap: the top ring's numbers, from the last down to the first. */
  function TopCap(v: int, n: nat): ObjRecord {
    Face(seq(n, i requires 0 <= i < n => v + n + (n - 1 - i)))
  }

  /** The comment naming path number `k + 1`. */
  function PathComment(k: nat): ObjRecord {
    Comment("Path " + NatToDecimal(k + 1))
  }

  /** The lines `exportToRhino` writes for path `k` (0-based) whose first
      vertex gets number `v`. */
  function PathRecords(k: nat, path: DrawingPath, extrusion: real, v: int): seq<ObjRecord> {
    var points3D := Convert2DTo3D(path.points);
    var n := |points3D|;
    [PathComment(k)] + BottomRing(points3D) + TopRing(points3D, extrusion) + SideFaces(v, n) + [BottomCap(v, n), TopCap(v, n), Blank]
  }

  /** The two header comments and the empty line after them. */
  const Header: seq<ObjRecord> := [Comment("designAR Export"), Comment("Compatible with Rhino 3D and Grasshopper"), Blank]

  /** The number of points of the paths before path `k`. */
  function PointsBefore(paths: seq<DrawingPath>, k: nat): nat
    requires k <= |paths|
    decreases k
  {
    if k == 0 then 0 else PointsBefore(paths, k - 1) + |paths[k - 1].points|
  }

  /** The number of the first vertex of path `k`: each earlier path used two per point. */
  function FirstVertexIndex(paths: seq<DrawingPath>, k: nat): int
    requires k <= |paths|
  {
    1 + 2 * PointsBefore(paths, k)
  }

  /** The lines of the first `m` paths. */
  function Records(paths: seq<DrawingPath>, extrusion: real, m: nat): seq<ObjRecord>
    requires m <= |paths|
    decreases m
  {
    if m == 0 then []
    else Records(paths, extrusion, m - 1) + PathRecords(m - 1, paths[m - 1], extrusion, FirstVertexIndex(paths, m - 1))
  }

  /** The whole OBJ text. */
  function ObjDocument(paths: seq<DrawingPath>, extrusion: real): seq<ObjRecord> {
    Header + Records(paths, extrusion, |paths|)
  }

  /** The mesh layout of `exportToRhino`: the header, then for each path its
      comment, its two rings of vertices, its side faces and its two caps,
      numbering vertices on from 1. Writing the text to the file is not
      part of this model. */
  method ExportToRhino(paths: seq<DrawingPath>, extrusion: real) returns (obj: seq<ObjRecord>)
    ensures obj == ObjDocument(paths, extrusion)
  {
    obj := Header;
    var vertexIndex := 1;
    for pathIndex := 0 to |paths|
      invariant obj == Header + Records(paths, extrusion, pathIndex)
      invariant vertexIndex == FirstVertexIndex(paths, pathIndex)
    {
      var path := paths[pathIndex];
      obj := EmitPath(obj, pathIndex, path, extrusion, vertexIndex);
      vertexIndex := vertexIndex + |path.points| * 2;
      RecordsStep(Header, paths, extrusion, pathIndex);
      FirstVertexIndexAdvances(paths, pathIndex, pathIndex + 1);
    }
  }

  /** The lines of path `m` follow on from those of the paths before it. */
  lemma RecordsStep(pre: seq<ObjRecord>, paths: seq<DrawingPath>, extrusion: real, m: nat)
    requires m < |paths|
    ensures pre + Records(paths, extrusion, m + 1)
      == pre + Records(paths, extrusion, m) + PathRecords(m, paths[m], extrusion, FirstVertexIndex(paths, m))
  {
    var rs, last := Records(paths, extrusion, m), PathRecords(m, paths[m], extrusion, FirstVertexIndex(paths, m));
    assert Records(paths, extrusion, m + 1) == rs + last;
    assert pre + (rs + last) == pre + rs + last;
  }

  /** The body of the per-path loop of `exportToRhino`. */
  method EmitPath(obj: seq<ObjRecord>, pathIndex: nat, path: DrawingPath, extrusion: real, vertexIndex: int) returns (obj': seq<ObjRecord>)
    ensures obj' == obj + PathRecords(pathIndex, path, extrusion, vertexIndex)
  {
    obj' := obj + [Comment("Path " + NatToDecimal(pathIndex + 1))];
    var points3D := Convert2DTo3D(path.points);
    obj' := EmitRings(obj', points3D, extrusion);
    obj' := EmitFaces(obj', vertexIndex, |points3D|);
    obj' := obj' + [Blank];
    assert PathRecords(pathIndex, path, extrusion, vertexIndex)
      == [PathComment(pathIndex)] + (BottomRing(points3D) + TopRing(points3D, extrusion)) + (SideFaces(vertexIndex, |points3D|) + [BottomCap(vertexIndex, |points3D|), TopCap(vertexIndex, |points3D|)]) + [Blank];
  }

  /** The two vertex loops: the points as they are, then raised by `extrusion`. */
  method EmitRings(obj: seq<ObjRecord>, points3D: seq<Point3D>, extrusion: real) returns (obj': seq<ObjRecord>)
    ensures obj' == obj + (BottomRing(points3D) + TopRing(points3D, extrusion))
  {
    obj' := obj;
    for i := 0 to |points3D|
      invariant obj' == obj + BottomRing(points3D)[..i]
    {
      var point := points3D[i];
      obj' := obj' + [Vertex(Point3D(point.x, point.y, point.z))];
      assert BottomRing(points3D)[..i + 1] == BottomRing(points3D)[..i] + [BottomRing(points3D)[i]];
    }
    ghost var mid := obj';
    assert BottomRing(points3D)[..|points3D|] == BottomRing(points3D);
    for i := 0 to |points3D|
      invariant obj' == mid + TopRing(points3D, extrusion)[..i]
    {
      var point := points3D[i];
      var extrudedPoint := Point3D(point.x, point.y, point.z + extrusion);
      obj' := obj' + [Vertex(extrudedPoint)];
      assert TopRing(points3D, extrusion)[..i + 1] == TopRing(points3D, extrusion)[..i] + [TopRing(points3D, extrusion)[i]];
    }
    assert TopRing(points3D, extrusion)[..|points3D|] == TopRing(points3D, extrusion);
  }

  /** The face loops for a ring of `baseCount` vertices numbered from
      `vertexIndex`: the side quads, then the bottom and the top cap. */
  method EmitFaces(obj: seq<ObjRecord>, vertexIndex: int, baseCount: nat) returns (obj': seq<ObjRecord>)
    ensures obj' == obj + (SideFaces(vertexIndex, baseCount) + [BottomCap(vertexIndex, baseCount), TopCap(vertexIndex, baseCount)])
  {
    obj' := obj;
    for i := 0 to baseCount
      invariant obj' == obj + SideFaces(vertexIndex, baseCount)[..i]
    {
      var current := vertexIndex + i;
      var next := vertexIndex + ((i + 1) % baseCount);
      var currentTop := current + baseCount;
      var nextTop := next + baseCount;
      obj' := obj' + [Face([current, next, nextTop, currentTop])];
      assert SideFaces(vertexIndex, baseCount)[..i + 1] == SideFaces(vertexIndex, baseCount)[..i] + [SideFace(vertexIndex, baseCount, i)];
    }
    assert SideFaces(vertexIndex, baseCount)[..baseCount] == SideFaces(vertexIndex, baseCount);
    var baseIndices: seq<int> := [];
    for i := 0 to baseCount
      invariant baseIndices == BottomCap(vertexIndex, baseCount).indices[..i]
    {
      baseIndices := baseIndices + [vertexIndex + i];
    }
    assert baseIndices == BottomCap(vertexIndex, baseCount).indices;
    obj' := obj' + [Face(baseIndices)];
    var topIndices: seq<int> := [];
    for i := baseCount downto 0
      invariant topIndices == TopCap(vertexIndex, baseCount).indices[..baseCount - i]
    {
      topIndices := topIndices + [vertexIndex + baseCount + i];
    }
    assert topIndices == TopCap(vertexIndex, baseCount).indices;
    obj' := obj' + [Face(topIndices)];
  }

  // ---------------------------------------------------------------------
  // What the layout means

  /** The vertices of a list of lines, in order: what the 1-based face
      numbers of OBJ refer to. */
  function Vertices(records: seq<ObjRecord>): seq<Point3D>
    decreases |records|
  {
    if records == [] then []
    else Vertices(DropLast(records)) + (if Last(records).Vertex? then [Last(records).position] else [])
  }

  lemma {:induction false} VerticesAppend(a: seq<ObjRecord>, b: seq<ObjRecord>)
    ensures Vertices(a + b) == Vertices(a) + Vertices(b)
    decreases |b|
  {
    if b == [] {
      assert a + b == a;
    } else {
      assert DropLast(a + b) == a + DropLast(b);
      assert Last(a + b) == Last(b);
      VerticesAppend(a, DropLast(b));
    }
  }

  /** Lines holding no vertex contribute none. */
  lemma {:induction false} VerticesNone(records: seq<ObjRecord>)
    requires forall t :: 0 <= t < |records| ==> !records[t].Vertex?
    ensures Vertices(records) == []
    decreases |records|
  {
    if records != [] {
      VerticesNone(DropLast(records));
    }
  }

  /** The vertices of a run of vertex lines are their positions. */
  lemma {:induction false} VerticesOfRing(records: seq<ObjRecord>)
    requires forall t :: 0 <= t < |records| ==> records[t].Vertex?
    ensures |Vertices(records)| == |records|
    ensures forall t :: 0 <= t < |records| ==> Vertices(records)[t] == records[t].position
    decreases |records|
  {
    if records != [] {
      VerticesOfRing(DropLast(records));
    }
  }

  /** The point of a path at index `i` on the bottom ring (height zero). */
  function Bottom(path: DrawingPath, i: nat): Point3D
    requires i < |path.points|
  {
    Point3D(path.points[i].x, path.points[i].y, 0.0)
  }

  /** The point of a path at index `i` on the top ring (height `extrusion`). */
  function Top(path: DrawingPath, extrusion: real, i: nat): Point3D
    requires i < |path.points|
  {
    Point3D(path.points[i].x, path.points[i].y, extrusion)
  }

  /** The vertices a path contributes: its points at height zero, then the
      same points, in the same order, at height `extrusion`. */
  function RingPoints(path: DrawingPath, extrusion: real): (r: seq<Point3D>)
    ensures |r| == 2 * |path.points|
  {
    seq(|path.points|, i requires 0 <= i < |path.points| => Bottom(path, i))
      + seq(|path.points|, i requires 0 <= i < |path.points| => Top(path, extrusion, i))
  }

  /** The vertices of the first `m` paths, path after path. */
  function MeshVertices(paths: seq<DrawingPath>, extrusion: real, m: nat): seq<Point3D>
    requires m <= |paths|
    decreases m
  {
    if m == 0 then [] else MeshVertices(paths, extrusion, m - 1) + RingPoints(paths[m - 1], extrusion)
  }

  /** The vertex lines `exportToRhino` writes for a path are its two rings:
      a path of n points contributes 2n vertices. */
  lemma PathVertices(k: nat, path: DrawingPath, extrusion: real, v: int)
    ensures Vertices(PathRecords(k, path, extrusion, v)) == RingPoints(path, extrusion)
  {
    PathVerticesAreRings(k, path, extrusion, v);
    BottomRingVertices(path);
    TopRingVertices(path, extrusion);
  }

  lemma PathVerticesAreRings(k: nat, path: DrawingPath, extrusion: real, v: int)
    ensures var points3D := Convert2DTo3D(path.points);
      Vertices(PathRecords(k, path, extrusion, v)) == Vertices(BottomRing(points3D)) + Vertices(TopRing(points3D, extrusion))
  {
    var points3D := Convert2DTo3D(path.points);
    var n := |points3D|;
    var bottom, top, sides := BottomRing(points3D), TopRing(points3D, extrusion), SideFaces(v, n);
    var tail := [BottomCap(v, n), TopCap(v, n), Blank];
    var r1 := [PathComment(k)] + bottom;
    var r2 := r1 + top;
    var r3 := r2 + sides;
    VerticesNone([PathComment(k)]);
    VerticesAppend([PathComment(k)], bottom);
    assert Vertices(r1) == Vertices(bottom);
    VerticesAppend(r1, top);
    VerticesNone(sides);
    VerticesAppend(r2, sides);
    assert Vertices(r3) == Vertices(r2);
    VerticesNone(tail);
    VerticesAppend(r3, tail);
    assert Vertices(r3 + tail) == Vertices(r3);
  }

  lemma BottomRingVertices(path: DrawingPath)
    ensures Vertices(BottomRing(Convert2DTo3D(path.points)))
      == seq(|path.points|, i requires 0 <= i < |path.points| => Bottom(path, i))
  {
    VerticesOfRing(BottomRing(Convert2DTo3D(path.points)));
  }

  lemma TopRingVertices(path: DrawingPath, extrusion: real)
    ensures Vertices(TopRing(Convert2DTo3D(path.points), extrusion))
      == seq(|path.points|, i requires 0 <= i < |path.points| => Top(path, extrusion, i))
  {
    VerticesOfRing(TopRing(Convert2DTo3D(path.points), extrusion));
  }

  /** The vertex lines of the first `m` paths are their rings, path after path. */
  lemma {:induction false} RecordsVertices(paths: seq<DrawingPath>, extrusion: real, m: nat)
    requires m <= |paths|
    ensures Vertices(Records(paths, extrusion, m)) == MeshVertices(paths, extrusion, m)
    decreases m
  {
    if m == 0 {
      VerticesNone([]);
    } else {
      RecordsVertices(paths, extrusion, m - 1);
      RecordsVerticesStep(paths, extrusion, m - 1);
      assert MeshVertices(paths, extrusion, m) == MeshVertices(paths, extrusion, m - 1) + RingPoints(paths[m - 1], extrusion);
    }
  }

  lemma RecordsVerticesStep(paths: seq<DrawingPath>, extrusion: real, m: nat)
    requires m < |paths|
    ensures Vertices(Records(paths, extrusion, m + 1)) == Vertices(Records(paths, extrusion, m)) + RingPoints(paths[m], extrusion)
  {
    var last := PathRecords(m, paths[m], extrusion, FirstVertexIndex(paths, m));
    assert Records(paths, extrusion, m + 1) == Records(paths, extrusion, m) + last;
    VerticesAppend(Records(paths, extrusion, m), last);
    PathVertices(m, paths[m], extrusion, FirstVertexIndex(paths, m));
  }

  /** The vertices of the whole OBJ text: the header holds none. */
  lemma DocumentVertices(paths: seq<DrawingPath>, extrusion: real)
    ensures Vertices(ObjDocument(paths, extrusion)) == MeshVertices(paths, extrusion, |paths|)
  {
    VerticesNone(Header);
    VerticesAppend(Header, Records(paths, extrusion, |paths|));
    RecordsVertices(paths, extrusion, |paths|);
  }

  /** Path `k`'s vertex numbers follow on from the earlier paths' and do not
      overlap any later path's. */
  lemma {:induction false} FirstVertexIndexAdvances(paths: seq<DrawingPath>, k: nat, k': nat)
    requires k < k' <= |paths|
    ensures FirstVertexIndex(paths, k + 1) == FirstVertexIndex(paths, k) + 2 * |paths[k].points|
    ensures FirstVertexIndex(paths, k) + 2 * |paths[k].points| <= FirstVertexIndex(paths, k')
    decreases k' - k
  {
    if k + 1 < k' {
      FirstVertexIndexAdvances(paths, k + 1, k');
    }
  }

  /** Vertex number `index` (1-based) of `vs` exists and is `p`. */
  predicate Names(vs: seq<Point3D>, index: int, p: Point3D) {
    1 <= index <= |vs| && vs[index - 1] == p
  }

  /** Point `i` of path `k` has vertex number `FirstVertexIndex(k) + i` at
      height zero and `FirstVertexIndex(k) + n + i` at height `extrusion`. */
  predicate RingsAt(vs: seq<Point3D>, paths: seq<DrawingPath>, extrusion: real, k: nat, i: nat)
    requires k < |paths| && i < |paths[k].points|
  {
    Names(vs, FirstVertexIndex(paths, k) + i, Bottom(paths[k], i)) &&
    Names(vs, FirstVertexIndex(paths, k) + |paths[k].points| + i, Top(paths[k], extrusion, i))
  }

  /** Vertex numbering of the mesh: the first `m` paths hold
      2 × (their point count) vertices, and number `FirstVertexIndex(k) + i`
      is point `i` of path `k` at height zero, number
      `FirstVertexIndex(k) + n + i` the same point at height `extrusion`. */
  lemma {:induction false} VertexNumbering(paths: seq<DrawingPath>, extrusion: real, m: nat)
    requires m <= |paths|
    ensures var vs := MeshVertices(paths, extrusion, m);
      |vs| == 2 * PointsBefore(paths, m) &&
      forall k, i :: 0 <= k < m && 0 <= i < |paths[k].points| ==> RingsAt(vs, paths, extrusion, k, i)
    decreases m
  {
    if m > 0 {
      VertexNumbering(paths, extrusion, m - 1);
      var before, own := MeshVertices(paths, extrusion, m - 1), RingPoints(paths[m - 1], extrusion);
      var vs := before + own;
      forall k, i | 0 <= k < m && 0 <= i < |paths[k].points|
        ensures RingsAt(vs, paths, extrusion, k, i)
      {
        if k < m - 1 {
          RingsPrefix(before, own, paths, extrusion, k, i);
        } else {
          RingsLast(before, paths, extrusion, k, i);
        }
      }
    }
  }

  lemma RingsPrefix(before: seq<Point3D>, own: seq<Point3D>, paths: seq<DrawingPath>, extrusion: real, k: nat, i: nat)
    requires k < |paths| && i < |paths[k].points|
    requires RingsAt(before, paths, extrusion, k, i)
    ensures RingsAt(before + own, paths, extrusion, k, i)
  {
    NamesPrefix(before, own, FirstVertexIndex(paths, k) + i, Bottom(paths[k], i));
    NamesPrefix(before, own, FirstVertexIndex(paths, k) + |paths[k].points| + i, Top(paths[k], extrusion, i));
  }

  lemma RingsLast(before: seq<Point3D>, paths: seq<DrawingPath>, extrusion: real, k: nat, i: nat)
    requires k < |paths| && i < |paths[k].points|
    requires FirstVertexIndex(paths, k) == |before| + 1
    ensures RingsAt(before + RingPoints(paths[k], extrusion), paths, extrusion, k, i)
  {
    var n, own := |paths[k].points|, RingPoints(paths[k], extrusion);
    assert own[i] == Bottom(paths[k], i) && own[n + i] == Top(paths[k], extrusion, i);
    NamesSuffix(before, own, 1 + i, Bottom(paths[k], i));
    NamesSuffix(before, own, 1 + n + i, Top(paths[k], extrusion, i));
  }

  lemma NamesPrefix(a: seq<Point3D>, b: seq<Point3D>, index: int, p: Point3D)
    requires Names(a, index, p)
    ensures Names(a + b, index, p)
  {
  }

  lemma NamesSuffix(a: seq<Point3D>, b: seq<Point3D>, index: int, p: Point3D)
    requires Names(b, index, p)
    ensures Names(a + b, |a| + index, p)
  {
  }

  /** Every face number of path `k` lies among path `k`'s own 2n vertex
      numbers. */
  lemma FaceIndicesOwn(paths: seq<DrawingPath>, extrusion: real, k: nat)
    requires k < |paths|
    ensures var v, n := FirstVertexIndex(paths, k), |paths[k].points|;
      var rs := PathRecords(k, paths[k], extrusion, v);
      forall j, t :: 0 <= j < |rs| && rs[j].Face? && 0 <= t < |rs[j].indices| ==>
        v <= rs[j].indices[t] < v + 2 * n
  {
    var v, n := FirstVertexIndex(paths, k), |paths[k].points|;
    var rs := PathRecords(k, paths[k], extrusion, v);
    forall j, t | 0 <= j < |rs| && rs[j].Face? && 0 <= t < |rs[j].indices|
      ensures v <= rs[j].indices[t] < v + 2 * n
    {
      if 1 + 2 * n <= j < 1 + 3 * n {
        assert rs[j] == SideFace(v, n, j - 1 - 2 * n);
      }
    }
  }

  /** Every face number of path `k` is the number of a vertex of the mesh:
      it lies in 1 .. the vertex count (which `DocumentVertices` shows is
      the number of vertex lines of the text). */
  lemma FaceIndicesInRange(paths: seq<DrawingPath>, extrusion: real, k: nat)
    requires k < |paths|
    ensures var total := |MeshVertices(paths, extrusion, |paths|)|;
      var rs := PathRecords(k, paths[k], extrusion, FirstVertexIndex(paths, k));
      forall j, t :: 0 <= j < |rs| && rs[j].Face? && 0 <= t < |rs[j].indices| ==>
        1 <= rs[j].indices[t] <= total
  {
    FaceIndicesOwn(paths, extrusion, k);
    VertexNumbering(paths, extrusion, |paths|);
    FirstVertexIndexAdvances(paths, k, |paths|);
  }

  /** Point `i` of path `k` is vertex number `FirstVertexIndex(k) + i` of
      the mesh at height zero, and number `FirstVertexIndex(k) + n + i`
      at height `extrusion`. */
  lemma PathRingsNamed(paths: seq<DrawingPath>, extrusion: real, k: nat)
    requires k < |paths|
    ensures var vs, v, n := MeshVertices(paths, extrusion, |paths|), FirstVertexIndex(paths, k), |paths[k].points|;
      forall i :: 0 <= i < n ==>
        Names(vs, v + i, Bottom(paths[k], i)) && Names(vs, v + n + i, Top(paths[k], extrusion, i))
  {
    VertexNumbering(paths, extrusion, |paths|);
    var vs, v, n := MeshVertices(paths, extrusion, |paths|), FirstVertexIndex(paths, k), |paths[k].points|;
    forall i | 0 <= i < n
      ensures Names(vs, v + i, Bottom(paths[k], i)) && Names(vs, v + n + i, Top(paths[k], extrusion, i))
    {
      assert RingsAt(vs, paths, extrusion, k, i);
    }
  }

  /** Side face `i` of path `k`, resolved against the mesh's vertices, is the
      quad bottom `i`, bottom `i + 1`, top `i + 1`, top `i`, wrapping from the
      last point back to the first. */
  lemma SideFacesResolve(paths: seq<DrawingPath>, extrusion: real, k: nat)
    requires k < |paths|
    ensures var vs, v, n := MeshVertices(paths, extrusion, |paths|), FirstVertexIndex(paths, k), |paths[k].points|;
      var path := paths[k];
      forall i :: 0 <= i < n ==>
        var f := SideFace(v, n, i).indices;
        Names(vs, f[0], Bottom(path, i)) && Names(vs, f[1], Bottom(path, (i + 1) % n)) &&
        Names(vs, f[2], Top(path, extrusion, (i + 1) % n)) && Names(vs, f[3], Top(path, extrusion, i))
  {
    PathRingsNamed(paths, extrusion, k);
  }

  /** The bottom cap of path `k` runs over the bottom ring in point order. */
  lemma BottomCapResolves(paths: seq<DrawingPath>, extrusion: real, k: nat)
    requires k < |paths|
    ensures var vs, v, n := MeshVertices(paths, extrusion, |paths|), FirstVertexIndex(paths, k), |paths[k].points|;
      forall i :: 0 <= i < n ==> Names(vs, BottomCap(v, n).indices[i], Bottom(paths[k], i))
  {
    PathRingsNamed(paths, extrusion, k);
  }

  /** The top cap of path `k` runs over the top ring in reverse point order. */
  lemma TopCapResolves(paths: seq<DrawingPath>, extrusion: real, k: nat)
    requires k < |paths|
    ensures var vs, v, n := MeshVertices(paths, extrusion, |paths|), FirstVertexIndex(paths, k), |paths[k].points|;
      forall i :: 0 <= i < n ==> Names(vs, TopCap(v, n).indices[i], Top(paths[k], extrusion, n - 1 - i))
  {
    PathRingsNamed(paths, extrusion, k);
  }

  /** `exportToRhino` does not skip short paths: a path without points still
      gets its comment and two empty cap faces. */
  lemma EmptyPathRecords(k: nat, path: DrawingPath, extrusion: real, v: int)
    requires path.points == []
    ensures PathRecords(k, path, extrusion, v) == [PathComment(k), Face([]), Face([]), Blank]
  {
    var points3D := Convert2DTo3D(path.points);
    assert BottomRing(points3D) == [] && TopRing(points3D, extrusion) == [] && SideFaces(v, 0) == [];
    assert BottomCap(v, 0) == Face([]) && TopCap(v, 0) == Face([]);
  }

  // =====================================================================
  // The Grasshopper JSON text

  /** The text of a point object; `fmt` renders a coordinate. */
  function PointObject(p: Point, fmt: real -> string): string {
    "        {\"x\": " + fmt(p.x) + ", \"y\": " + fmt(p.y) + ", \"z\": 0.0}"
  }

  /** The comma after entry `i` of `count`: on all but the last. */
  function Separator(i: nat, count: nat): string {
    if i < count - 1 then "," else ""
  }

  /** The first `m` of `items`, each followed by its separator and a newline. */
  function Listing(items: seq<string>, m: nat): string
    requires m <= |items|
    decreases m
  {
    if m == 0 then "" else Listing(items, m - 1) + items[m - 1] + Separator(m - 1, |items|) + "\n"
  }

  /** `items` joined by `sep`. */
  function Join(sep: string, items: seq<string>): string
    decreases |items|
  {
    if items == [] then ""
    else if |items| == 1 then items[0]
    else Join(sep, DropLast(items)) + sep + Last(items)
  }

  /** The listing as the loops write it is the entries joined by ",\n"
      with one newline after the last: a comma between consecutive
      entries and none after the last. */
  lemma ListingIsJoin(items: seq<string>)
    ensures Listing(items, |items|) == if items == [] then "" else Join(",\n", items) + "\n"
  {
    if items != [] {
      ListingPrefix(items, |items|);
      assert items[..|items|] == items;
    }
  }

  lemma {:induction false} ListingPrefix(items: seq<string>, m: nat)
    requires 0 < m <= |items|
    ensures Listing(items, m) == Join(",\n", items[..m]) + (if m < |items| then ",\n" else "\n")
    decreases m
  {
    if m > 1 {
      ListingPrefix(items, m - 1);
      assert DropLast(items[..m]) == items[..m - 1];
    }
  }

  function PointObjects(points: seq<Point>, fmt: real -> string): seq<string> {
    seq(|points|, i requires 0 <= i < |points| => PointObject(points[i], fmt))
  }

  /** The line giving a path object's `id`. */
  function IdLine(index: nat): string {
    "      \"id\": " + NatToDecimal(index) + ",\n"
  }

  /** The text of path object number `index`. */
  function PathObject(index: nat, path: DrawingPath, fmt: real -> string): string {
    "    {\n" + IdLine(index) + "      \"points\": [\n" + Listing(PointObjects(path.points, fmt), |path.points|)
      + "      ],\n" + "      \"closed\": false\n" + "    }"
  }

  function PathObjects(paths: seq<DrawingPath>, fmt: real -> string): seq<string> {
    seq(|paths|, k requires 0 <= k < |paths| => PathObject(k, paths[k], fmt))
  }

  const GhHeader: string := "{\n" + "  \"version\": \"1.0\",\n" + "  \"type\": \"designAR_Export\",\n" + "  \"paths\": [\n"
  const GhFooter: string := "  ]\n" + "}\n"

  /** The whole JSON text. */
  function GrasshopperText(paths: seq<DrawingPath>, fmt: real -> string): string {
    GhHeader + Listing(PathObjects(paths, fmt), |paths|) + GhFooter
  }

  /** `generateGrasshopperData`: the header, one object per path with its
      points, the footer. `fmt` is the text `\(value)` gives a coordinate. */
  method GenerateGrasshopperData(paths: seq<DrawingPath>, fmt: real -> string) returns (ghData: string)
    ensures ghData == GrasshopperText(paths, fmt)
  {
    ghData := "{\n";
    ghData := ghData + "  \"version\": \"1.0\",\n";
    ghData := ghData + "  \"type\": \"designAR_Export\",\n";
    ghData := ghData + "  \"paths\": [\n";
    ghData := AppendEntries(ghData, paths, fmt, PathObjects(paths, fmt));
    ghost var body := ghData;
    ghData := ghData + "  ]\n";
    ghData := ghData + "}\n";
    Assoc(body, "  ]\n", "}\n");
  }

  /** The outer loop of `generateGrasshopperData`: one path object per
      path, in order. `items` are the path objects' texts. */
  method AppendEntries(text: string, paths: seq<DrawingPath>, fmt: real -> string, ghost items: seq<string>)
    returns (text': string)
    requires |items| == |paths|
    requires forall k {:trigger PathObject(k, paths[k], fmt)} :: 0 <= k < |paths| ==> items[k] == PathObject(k, paths[k], fmt)
    ensures text' == text + Listing(items, |items|)
  {
    text' := text;
    for index := 0 to |paths|
      invariant text' == text + Listing(items, index)
    {
      text' := AppendEntry(text', index, paths, fmt, items);
      ListingStep(text, items, index);
    }
  }

  /** One pass of the outer loop of `generateGrasshopperData`: path object
      `index`, a comma unless it is the last, a newline. */
  method AppendEntry(text: string, index: nat, paths: seq<DrawingPath>, fmt: real -> string, ghost items: seq<string>)
    returns (text': string)
    requires index < |paths| == |items|
    requires forall k {:trigger PathObject(k, paths[k], fmt)} :: 0 <= k < |paths| ==> items[k] == PathObject(k, paths[k], fmt)
    ensures text' == text + items[index] + Separator(index, |paths|) + "\n"
  {
    text' := AppendPathObject(text, index, paths[index], fmt);
    ghost var written := text';
    if index < |paths| - 1 {
      text' := text' + ",";
    } else {
      assert written + Separator(index, |paths|) == written;
    }
    text' := text' + "\n";
  }

  /** The text of one path object as `generateGrasshopperData` writes it. */
  method AppendPathObject(text: string, index: nat, path: DrawingPath, fmt: real -> string) returns (text': string)
    ensures text' == text + PathObject(index, path, fmt)
  {
    text' := text + "    {\n";
    ghost var written := "    {\n";
    text' := text' + IdLine(index);
    Assoc(text, written, IdLine(index));
    written := written + IdLine(index);
    text' := text' + "      \"points\": [\n";
    Assoc(text, written, "      \"points\": [\n");
    written := written + "      \"points\": [\n";
    text' := AppendPoints(text', path.points, fmt);
    Assoc(text, written, Listing(PointObjects(path.points, fmt), |path.points|));
    written := written + Listing(PointObjects(path.points, fmt), |path.points|);
    text' := text' + "      ],\n";
    Assoc(text, written, "      ],\n");
    written := written + "      ],\n";
    text' := text' + "      \"closed\": false\n";
    Assoc(text, written, "      \"closed\": false\n");
    written := written + "      \"closed\": false\n";
    text' := text' + "    }";
    Assoc(text, written, "    }");
  }

  /** The inner loop of `generateGrasshopperData`: one point object per
      line, commas between them. */
  method AppendPoints(text: string, points: seq<Point>, fmt: real -> string) returns (text': string)
    ensures text' == text + Listing(PointObjects(points, fmt), |points|)
  {
    text' := text;
    for pointIndex := 0 to |points|
      invariant text' == text + Listing(PointObjects(points, fmt), pointIndex)
    {
      ghost var before := Listing(PointObjects(points, fmt), pointIndex);
      text' := text' + PointObject(points[pointIndex], fmt);
      Assoc(text, before, PointObject(points[pointIndex], fmt));
      before := before + PointObject(points[pointIndex], fmt);
      if pointIndex < |points| - 1 {
        text' := text' + ",";
      } else {
        assert before + Separator(pointIndex, |points|) == before;
      }
      Assoc(text, before, Separator(pointIndex, |points|));
      before := before + Separator(pointIndex, |points|);
      text' := text' + "\n";
      Assoc(text, before, "\n");
    }
  }

  /** Writing entry `m` after a listing of `m` entries gives the listing of
      `m + 1`. */
  lemma ListingStep(text: string, items: seq<string>, m: nat)
    requires m < |items|
    ensures text + Listing(items, m) + items[m] + Separator(m, |items|) + "\n" == text + Listing(items, m + 1)
  {
    var l := Listing(items, m);
    Assoc(text, l, items[m]);
    Assoc(text, l + items[m], Separator(m, |items|));
    Assoc(text, l + items[m] + Separator(m, |items|), "\n");
  }

  /** The `id` of path object `index` reads back as `index`: ids are the
      paths' positions. */
  lemma IdIsPosition(index: nat)
    ensures var line := IdLine(index); var pre := "      \"id\": ";
      |line| == |pre| + |NatToDecimal(index)| + 2 &&
      line[..|pre|] == pre &&
      IsDigits(line[|pre|..|line| - 2]) && DecimalValue(line[|pre|..|line| - 2]) == index
  {
    var line, pre, digits := IdLine(index), "      \"id\": ", NatToDecimal(index);
    assert line == pre + digits + ",\n";
    assert line[|pre|..|line| - 2] == digits;
    DecimalRoundTrip(index);
  }
}
