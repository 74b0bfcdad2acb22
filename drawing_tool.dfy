/** The drawing document: the tool palette, the polyline value the whole
    app passes around, and the view model whose edit operations grow,
    shrink and clear the ordered list of polylines. */
module Drawing {
  import opened Common
  import opened Geometry

  /** The eight drawing tools, in declaration (`allCases`) order. */
  datatype DrawingTool = Select | Pencil | Brush | Eraser | Line | Rectangle | Ellipse | Measure
  {
    /** The raw value of the enumeration case. */
    function RawValue(): string {
      match this
      case Select => "Selection"
      case Pencil => "Pencil"
      case Brush => "Brush"
      case Eraser => "Eraser"
      case Line => "Line"
      case Rectangle => "Rectangle"
      case Ellipse => "Ellipse"
      case Measure => "Measure"
    }

    /** The SF Symbols name shown on the tool's button. */
    function Icon(): string {
      match this
      case Select => "cursorarrow"
      case Pencil => "pencil"
      case Brush => "paintbrush"
      case Eraser => "eraser"
      case Line => "line.diagonal"
      case Rectangle => "rectangle"
      case Ellipse => "circle"
      case Measure => "ruler"
    }
  }

  const AllTools: seq<DrawingTool> := [Select, Pencil, Brush, Eraser, Line, Rectangle, Ellipse, Measure]

  /** `allCases` lists every tool once, and `icon` gives every tool its own symbol. */
  lemma IconsDistinct()
    ensures |AllTools| == 8
    ensures forall t: DrawingTool :: t in AllTools
    ensures forall i, j :: 0 <= i < j < |AllTools| ==> AllTools[i] != AllTools[j]
    ensures forall t, u: DrawingTool :: t != u ==> t.Icon() != u.Icon()
    ensures forall t, u: DrawingTool :: t != u ==> t.RawValue() != u.RawValue()
  {
    forall t: DrawingTool
      ensures t in AllTools
    {
      match t
      case Select => assert AllTools[0] == t;
      case Pencil => assert AllTools[1] == t;
      case Brush => assert AllTools[2] == t;
      case Eraser => assert AllTools[3] == t;
      case Line => assert AllTools[4] == t;
      case Rectangle => assert AllTools[5] == t;
      case Ellipse => assert AllTools[6] == t;
      case Measure => assert AllTools[7] == t;
    }
  }

  /** Stroke colours: the three the sources name, or any colour the picker yields. */
  datatype Color = Black | Red | Blue | Rgba(red: real, green: real, blue: real, alpha: real)

  /** A `UUID`; each `DrawingPath(...)` construction draws a fresh one, so
      the model takes ids as inputs. */
  type Uuid = nat

  /** A polyline of the document. */
  datatype DrawingPath = DrawingPath(id: Uuid, points: seq<Point>, color: Color, lineWidth: real, tool: DrawingTool)

  /** `==` on `DrawingPath`: identity of the id alone. */
  predicate SamePath(a: DrawingPath, b: DrawingPath) {
    a.id == b.id
  }

  /** `==` is an equivalence that ignores every field but the id: a path
      equals any edit of itself, and two paths drawn alike but with
      different ids differ. */
  lemma SamePathIsIdIdentity(a: DrawingPath, b: DrawingPath, pts: seq<Point>, c: Color, w: real, t: DrawingTool)
    ensures SamePath(a, a)
    ensures SamePath(a, b) == SamePath(b, a)
    ensures SamePath(a, a.(points := pts, color := c, lineWidth := w, tool := t))
    ensures SamePath(a, b) <==> a.id == b.id
    ensures a.id != b.id ==> !SamePath(a.(points := pts, color := c, lineWidth := w, tool := t), b.(points := pts, color := c, lineWidth := w, tool := t))
  {
  }

  /** `max(floorCount, 1)`. */
  function StoreyCount(floorCount: int): (k: int)
    ensures k >= 1 && k >= floorCount
    ensures floorCount >= 1 ==> k == floorCount
    ensures k == floorCount || k == 1
  {
    if floorCount >= 1 then floorCount else 1
  }

  /** The document's view model: the finished paths, the path being drawn
      and the current drawing parameters. The reference image and its
      loading are not part of this model. */
  class DrawingViewModel {
    var paths: seq<DrawingPath>
    var currentTool: DrawingTool
    var currentColor: Color
    var lineWidth: real
    var referenceImageOpacity: real
    var wallThickness: real
    var wallHeight: real
    var floorCount: int
    var currentPath: Option<DrawingPath>

    /** The initialiser overrides the declared line width (2.0) with the wall thickness. */
    constructor ()
      ensures paths == [] && currentPath == None
      ensures currentTool == Pencil && currentColor == Black && referenceImageOpacity == 0.5
      ensures wallThickness == 6.0 && wallHeight == 120.0 && floorCount == 1
      ensures lineWidth == wallThickness
    {
      paths := [];
      currentTool := Pencil;
      currentColor := Black;
      lineWidth := 2.0;
      referenceImageOpacity := 0.5;
      wallThickness := 6.0;
      wallHeight := 120.0;
      floorCount := 1;
      currentPath := None;
      lineWidth := wallThickness;
    }

    /** Wall height times the number of storeys; a floor count below one counts as one. */
    function TotalExtrusionHeight(): (h: real)
      reads this
      ensures floorCount <= 1 ==> h == wallHeight
      ensures floorCount >= 1 ==> h == wallHeight * floorCount as real
    {
      wallHeight * StoreyCount(floorCount) as real
    }

    /** Assigning `wallThickness`: its `didSet` observer copies it into `lineWidth`. */
    method SetWallThickness(t: real)
      modifies this`wallThickness, this`lineWidth
      ensures wallThickness == t && lineWidth == t
    {
      wallThickness := t;
      lineWidth := wallThickness;
    }

    /** Begins a new path at `point`, dropping any path in progress; `id` is the fresh UUID. */
    method StartDrawing(point: Point, id: Uuid)
      modifies this`currentPath
      ensures currentPath == Some(DrawingPath(id, [point], currentColor, lineWidth, currentTool))
    {
      currentPath := Some(DrawingPath(id, [point], currentColor, lineWidth, currentTool));
    }

    /** Extends the path in progress, if there is one. */
    method ContinueDrawing(point: Point)
      modifies this`currentPath
      ensures old(currentPath).None? ==> currentPath == None
      ensures old(currentPath).Some? ==>
        currentPath == Some(old(currentPath).value.(points := old(currentPath).value.points + [point]))
    {
      match currentPath
      case None =>
      case Some(p) =>
        currentPath := Some(p.(points := p.points + [point]));
    }

    /** Commits the path in progress to the document, if there is one. */
    method EndDrawing()
      modifies this`paths, this`currentPath
      ensures currentPath == None
      ensures old(currentPath).None? ==> paths == old(paths)
      ensures old(currentPath).Some? ==> paths == old(paths) + [old(currentPath).value]
    {
      match currentPath
      case None =>
      case Some(path) =>
        paths := paths + [path];
        currentPath := None;
    }

    /** Removes every path (a path in progress is kept). */
    method ClearCanvas()
      modifies this`paths
      ensures paths == []
    {
      paths := [];
    }

    /** Removes the most recent path, if any. */
    method Undo()
      modifies this`paths
      ensures old(paths) == [] ==> paths == []
      ensures old(paths) != [] ==> paths == DropLast(old(paths))
    {
      if paths != [] {
        paths := DropLast(paths);
      }
    }
  }

  /** A whole stroke as the canvas's drag gesture issues it when no stroke
      is in progress: start, one `continueDrawing` per further point, end.
      It appends one path holding exactly the dragged points; `undo` then
      restores the document. */
  method DrawStrokeThenUndo(vm: DrawingViewModel, first: Point, rest: seq<Point>, id: Uuid)
    requires vm.currentPath == None
    modifies vm
    ensures vm.currentPath == None
    ensures vm.paths == old(vm.paths)
  {
    vm.StartDrawing(first, id);
    assert [first] + rest[..0] == [first];
    var i := 0;
    while i < |rest|
      invariant 0 <= i <= |rest|
      invariant vm.paths == old(vm.paths)
      invariant vm.currentPath == Some(DrawingPath(id, [first] + rest[..i], vm.currentColor, vm.lineWidth, vm.currentTool))
    {
      vm.ContinueDrawing(rest[i]);
      assert [first] + rest[..i + 1] == [first] + rest[..i] + [rest[i]];
      i := i + 1;
    }
    assert rest[..i] == rest;
    vm.EndDrawing();
    assert vm.paths == old(vm.paths) + [DrawingPath(id, [first] + rest, vm.currentColor, vm.lineWidth, vm.currentTool)];
    vm.Undo();
    assert DropLast(old(vm.paths) + [DrawingPath(id, [first] + rest, vm.currentColor, vm.lineWidth, vm.currentTool)]) == old(vm.paths);
  }
}
