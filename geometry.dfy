/** Points in canvas space, 3D points of the mesh, and the byte raster that
    the image filters hand to the tracers. */
module Geometry {

  /** A `CGPoint`; `CGFloat` coordinates are modelled as reals. */
  datatype Point = Point(x: real, y: real)

  /** A `Point3D` of the mesh exporter. */
  datatype Point3D = Point3D(x: real, y: real, z: real)

  /** Squared Euclidean distance. Every `sqrt(..) > t` test of the sources
      is stated on this value instead. */
  function SqDist(p: Point, q: Point): (d: real)
    ensures d >= 0.0
  {
    var dx, dy := q.x - p.x, q.y - p.y;
    SquareNonNegative(dx);
    SquareNonNegative(dy);
    dx * dx + dy * dy
  }

  lemma SquareNonNegative(r: real)
    ensures r * r >= 0.0
  {
    if r < 0.0 {
      assert r * r == (-r) * (-r);
    }
  }

  /** The point at the integer pixel position (x, y). */
  function PixelPoint(x: int, y: int): Point {
    Point(x as real, y as real)
  }

  /** `p` is the point of a pixel inside a width × height grid. */
  predicate OnGrid(p: Point, width: int, height: int) {
    p == PixelPoint(p.x.Floor, p.y.Floor) && 0 <= p.x.Floor < width && 0 <= p.y.Floor < height
  }

  /** Strict row-major order: by row, then by column. */
  predicate RowMajorBefore(p: Point, q: Point) {
    p.y < q.y || (p.y == q.y && p.x < q.x)
  }

  // ---------------------------------------------------------------------
  // The raster

  type Byte = b: int | 0 <= b < 256

  const BytesPerPixel: nat := 4

  /** The pixel buffer of a `CGImage`: `width * height` pixels of four bytes,
      row after row; the tracers read channel 0 of each pixel. */
  datatype Raster = Raster(width: nat, height: nat, data: seq<Byte>)
  {
    predicate Valid() {
      |data| >= BytesPerPixel * (width * height)
    }

    predicate InBounds(x: int, y: int) {
      0 <= x < width && 0 <= y < height
    }

    /** Channel 0 of pixel (x, y), at byte `(y * width + x) * 4`. */
    function Intensity(x: int, y: int): Byte
      requires Valid() && InBounds(x, y)
    {
      PixelIndexInRange(width, height, x, y);
      data[(y * width + x) * BytesPerPixel]
    }

    /** Channel 0 at the pixel point `p`. */
    function IntensityAt(p: Point): Byte
      requires Valid() && OnGrid(p, width, height)
    {
      Intensity(p.x.Floor, p.y.Floor)
    }
  }

  lemma PixelIndexInRange(width: nat, height: nat, x: int, y: int)
    requires 0 <= x < width && 0 <= y < height
    ensures 0 <= (y * width + x) * BytesPerPixel < BytesPerPixel * (width * height)
  {
    assert y * width + x < (y + 1) * width;
    assert (y + 1) * width <= height * width by {
      MulMonotone(y + 1, height, width);
    }
  }

  lemma MulMonotone(a: nat, b: nat, c: nat)
    requires a <= b
    ensures a * c <= b * c
  {
  }
}
