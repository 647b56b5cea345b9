/**
 * The surface geometry tracker: the rectangle the canvas occupies on
 * screen and the factors that map display space onto the canvas's pixel
 * grid (script.js:132-136, 167-168). Coordinates are exact reals.
 */
module Geometry {

  /** A pointer position in display space (a mouse event's clientX, clientY). */
  datatype Point = Point(x: real, y: real)

  /** The rendered rectangle of the canvas, as getBoundingClientRect reports it. */
  datatype Rect = Rect(left: real, top: real, width: real, height: real)

  predicate Positive(rect: Rect) {
    rect.width > 0.0 && rect.height > 0.0
  }

  /**
   * One axis of updateCanvasMetrics: canvas pixels per display pixel,
   * `canvas.width / canvasRect.width`. Scaled back by the extent it
   * recovers the pixel dimension exactly.
   */
  function Scale(dim: int, extent: real): (s: real)
    requires extent > 0.0
    ensures s * extent == dim as real
    ensures dim >= 1 ==> s > 0.0
  {
    dim as real / extent
  }

  /** One axis of handleMouseMove's mapping: `(e.clientX - canvasRect.left) * scaleX`. */
  function ImageCoord(client: real, origin: real, scale: real): (c: real)
    ensures scale > 0.0 ==> (c >= 0.0 <==> client >= origin)
  {
    (client - origin) * scale
  }

  /**
   * With freshly computed metrics the mapping carries the display interval
   * [origin, origin + extent] onto [0, dim]: the near edge goes to 0 and the
   * far edge to dim itself, one past the last pixel.
   */
  lemma ImageCoordSpansGrid(client: real, origin: real, extent: real, dim: int)
    requires extent > 0.0 && dim >= 0
    requires origin <= client <= origin + extent
    ensures 0.0 <= ImageCoord(client, origin, Scale(dim, extent)) <= dim as real
    ensures client == origin ==> ImageCoord(client, origin, Scale(dim, extent)) == 0.0
    ensures client == origin + extent ==> ImageCoord(client, origin, Scale(dim, extent)) == dim as real
  {
    var s := Scale(dim, extent);
    assert 0.0 <= s;
    assert (client - origin) * s <= extent * s;
  }

  /** The mapping is monotone in the pointer coordinate when the scale is not negative. */
  lemma ImageCoordMonotone(c1: real, c2: real, origin: real, scale: real)
    requires c1 <= c2 && scale >= 0.0
    ensures ImageCoord(c1, origin, scale) <= ImageCoord(c2, origin, scale)
  {
    assert (c2 - origin) * scale - (c1 - origin) * scale == (c2 - c1) * scale;
    assert (c2 - c1) * scale >= 0.0;
  }
}
