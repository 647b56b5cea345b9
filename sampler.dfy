/**
 * The pixel sampler of handleMouseMove (script.js:161-181): the pointer is
 * mapped into image space, each axis is clamped on the fractional value to
 * [0, dim - 1], and getImageData reads the pixel at the clamped
 * coordinate, truncating it; the clamped value is never negative, so the
 * truncation is the floor.
 */
module Sampler {
  import opened Pixels
  import opened Geometry

  /** Math.max on two reals. */
  function Max(a: real, b: real): (m: real)
    ensures m >= a && m >= b && (m == a || m == b)
  {
    if a >= b then a else b
  }

  /** Math.min on two reals. */
  function Min(a: real, b: real): (m: real)
    ensures m <= a && m <= b && (m == a || m == b)
  {
    if a <= b then a else b
  }

  /**
   * `Math.max(0, Math.min(v, dim - 1))`. For a non-empty axis the result
   * lies in [0, dim - 1], leaves values already there alone, and sends
   * everything below 0 to 0 and everything above dim - 1 to dim - 1.
   */
  function Clamp(v: real, dim: int): (c: real)
    ensures dim >= 1 ==> 0.0 <= c <= (dim - 1) as real
    ensures 0.0 <= v <= (dim - 1) as real ==> c == v
    ensures v <= 0.0 ==> c == 0.0
    ensures dim >= 1 && v >= (dim - 1) as real ==> c == (dim - 1) as real
  {
    Max(0.0, Min(v, (dim - 1) as real))
  }

  /** The pixel index getImageData uses for an image-space value on an axis of dim pixels. */
  function PixelIndex(v: real, dim: int): (i: int)
    ensures dim >= 1 ==> 0 <= i < dim
  {
    Clamp(v, dim).Floor
  }

  /** The pixel handleMouseMove reads for pointer p, given the cached rectangle and scales. */
  function Sample(canvas: Raster, rect: Rect, scaleX: real, scaleY: real, p: Point): Rgba
    requires canvas.Valid()
  {
    var col := PixelIndex(ImageCoord(p.x, rect.left, scaleX), canvas.width);
    var row := PixelIndex(ImageCoord(p.y, rect.top, scaleY), canvas.height);
    canvas.rows[row][col]
  }

  /** Clamping twice is clamping once. */
  lemma ClampIdempotent(v: real, dim: int)
    ensures Clamp(Clamp(v, dim), dim) == Clamp(v, dim)
  {
  }

  /**
   * Clamping before truncating costs nothing inside the grid: every
   * coordinate in [0, dim), including those in the last pixel past
   * dim - 1, reads the pixel it lies in.
   */
  lemma ClampKeepsPixelUnderPointer(v: real, dim: int)
    requires 0.0 <= v < dim as real
    ensures PixelIndex(v, dim) == v.Floor
  {
    if v > (dim - 1) as real {
      assert v.Floor == dim - 1;
    }
  }

  /** A pointer at or before the near edge reads the first pixel, as the near edge does. */
  lemma NearEdgeAbsorbs(client: real, origin: real, scale: real, dim: int)
    requires client <= origin && scale >= 0.0
    ensures PixelIndex(ImageCoord(client, origin, scale), dim) == 0
    ensures PixelIndex(ImageCoord(client, origin, scale), dim) == PixelIndex(ImageCoord(origin, origin, scale), dim)
  {
    ImageCoordMonotone(client, origin, origin, scale);
  }

  /**
   * With freshly computed metrics, a pointer at or beyond the far edge
   * (which maps to dim, one past the grid) reads the last pixel.
   */
  lemma FarEdgeAbsorbs(client: real, origin: real, extent: real, dim: int)
    requires extent > 0.0 && dim >= 1
    requires client >= origin + extent
    ensures PixelIndex(ImageCoord(client, origin, Scale(dim, extent)), dim) == dim - 1
  {
    ImageCoordSpansGrid(origin + extent, origin, extent, dim);
    ImageCoordMonotone(origin + extent, client, origin, Scale(dim, extent));
  }

  /**
   * With freshly computed metrics, a pointer inside the rectangle reads the
   * pixel it is over: the floor of its exact image coordinate.
   */
  lemma InsideReadsPixelUnderPointer(client: real, origin: real, extent: real, dim: int)
    requires extent > 0.0 && dim >= 1
    requires origin <= client < origin + extent
    ensures var v := ImageCoord(client, origin, Scale(dim, extent));
      0.0 <= v < dim as real && PixelIndex(v, dim) == v.Floor
  {
    var s := Scale(dim, extent);
    ImageCoordSpansGrid(client, origin, extent, dim);
    assert (client - origin) * s < extent * s;
    ClampKeepsPixelUnderPointer(ImageCoord(client, origin, s), dim);
  }

  /**
   * Whatever the pointer position and whatever the cached scales, even stale
   * ones, the sample is a pixel of the grid: both indices are in range.
   */
  lemma SampleInGrid(canvas: Raster, rect: Rect, scaleX: real, scaleY: real, p: Point)
    requires canvas.Valid()
    ensures var col := PixelIndex(ImageCoord(p.x, rect.left, scaleX), canvas.width);
      var row := PixelIndex(ImageCoord(p.y, rect.top, scaleY), canvas.height);
      && 0 <= col < canvas.width && 0 <= row < canvas.height
      && Sample(canvas, rect, scaleX, scaleY, p) == canvas.rows[row][col]
  {
  }

  /** A pointer left of the rectangle samples what the same pointer at its left edge samples. */
  lemma LeftOfRectSamplesLeftEdge(canvas: Raster, rect: Rect, scaleX: real, scaleY: real, p: Point)
    requires canvas.Valid() && scaleX >= 0.0
    requires p.x <= rect.left
    ensures Sample(canvas, rect, scaleX, scaleY, p) == Sample(canvas, rect, scaleX, scaleY, Point(rect.left, p.y))
  {
    NearEdgeAbsorbs(p.x, rect.left, scaleX, canvas.width);
  }

  /** A pointer above the rectangle samples what the same pointer at its top edge samples. */
  lemma AboveRectSamplesTopEdge(canvas: Raster, rect: Rect, scaleX: real, scaleY: real, p: Point)
    requires canvas.Valid() && scaleY >= 0.0
    requires p.y <= rect.top
    ensures Sample(canvas, rect, scaleX, scaleY, p) == Sample(canvas, rect, scaleX, scaleY, Point(p.x, rect.top))
  {
    NearEdgeAbsorbs(p.y, rect.top, scaleY, canvas.height);
  }

  /** With fresh metrics, a pointer at or past the bottom-right corner samples the last pixel. */
  lemma BeyondFarCornerSamplesLastPixel(canvas: Raster, rect: Rect, p: Point)
    requires canvas.Valid() && Positive(rect)
    requires p.x >= rect.left + rect.width && p.y >= rect.top + rect.height
    ensures Sample(canvas, rect, Scale(canvas.width, rect.width), Scale(canvas.height, rect.height), p)
      == canvas.rows[canvas.height - 1][canvas.width - 1]
  {
    FarEdgeAbsorbs(p.x, rect.left, rect.width, canvas.width);
    FarEdgeAbsorbs(p.y, rect.top, rect.height, canvas.height);
  }

  /** A 10 × 10 grid every pixel of which is opaque red. */
  function RedTile(): (c: Raster)
    ensures c.Valid() && c.width == 10 && c.height == 10
  {
    Raster(10, 10, seq(10, _ => seq(10, _ => Rgba(255, 0, 0, 255))))
  }

  /**
   * An example: a 10 × 10 image shown in the rectangle (0, 0)-(100,
   * 100) has scale 0.1; the pointer at (55, 55) maps to (5.5, 5.5) and reads
   * pixel (5, 5); the pointer at (999, 999) is clamped to pixel (9, 9).
   */
  lemma RedTileExample()
    ensures Scale(10, 100.0) == 0.1
    ensures PixelIndex(ImageCoord(55.0, 0.0, 0.1), 10) == 5
    ensures PixelIndex(ImageCoord(999.0, 0.0, 0.1), 10) == 9
    ensures Sample(RedTile(), Rect(0.0, 0.0, 100.0, 100.0), 0.1, 0.1, Point(55.0, 55.0)) == Rgba(255, 0, 0, 255)
    ensures Sample(RedTile(), Rect(0.0, 0.0, 100.0, 100.0), 0.1, 0.1, Point(999.0, 999.0)) == Rgba(255, 0, 0, 255)
  {
    assert ImageCoord(55.0, 0.0, 0.1) == 5.5;
    assert (5.5).Floor == 5;
    assert ImageCoord(999.0, 0.0, 0.1) == 99.9;
    assert (9.0).Floor == 9;
  }
}
