/**
 * The magnifier projector of updateMagnifier (script.js:198-228). The
 * magnifier's background is the whole canvas picture enlarged Zoom times;
 * the panel follows the pointer at a fixed offset, and the background is
 * shifted so that the display point under the pointer sits at the panel's
 * centre. The shift is never clamped: near an edge the panel may show
 * space beyond the picture.
 */
module Magnifier {
  import opened Geometry
  import Sampler

  /** The magnification (zoomLevel). */
  const Zoom: real := 4.0

  /** How far the panel sits right of and above the pointer (offset). */
  const CursorOffset: real := 20.0

  /**
   * What updateMagnifier writes into the panel's style: its position
   * (left, top), the size of its background picture and the background's
   * offset within the panel.
   */
  datatype View = View(
    left: real, top: real,
    backgroundWidth: real, backgroundHeight: real,
    backgroundX: real, backgroundY: real)

  /**
   * updateMagnifier for pointer `mouse`, the cached canvas rectangle and the
   * panel's rendered size (offsetWidth, offsetHeight).
   */
  function Project(mouse: Point, rect: Rect, panelWidth: real, panelHeight: real): View {
    var relX := mouse.x - rect.left;
    var relY := mouse.y - rect.top;
    View(
      mouse.x + CursorOffset, mouse.y - CursorOffset,
      rect.width * Zoom, rect.height * Zoom,
      -(relX * Zoom - panelWidth / 2.0), -(relY * Zoom - panelHeight / 2.0))
  }

  /**
   * The image-space coordinate, on one axis, that the panel shows at offset
   * `panelPos` from its edge: the background point there is
   * panelPos - offset, and a background of `size` display pixels spans the
   * dim pixels of the image.
   */
  function ShownAt(panelPos: real, offset: real, size: real, dim: int): real
    requires size > 0.0
  {
    (panelPos - offset) * (dim as real / size)
  }

  /**
   * Geometry of the panel: it sits CursorOffset right of and above the
   * pointer, its background is the rectangle enlarged Zoom times, and the
   * enlarged display point under the pointer lands on the panel's centre,
   * for every pointer position, inside the rectangle or not.
   */
  lemma ProjectCentresPointer(mouse: Point, rect: Rect, panelWidth: real, panelHeight: real)
    ensures var v := Project(mouse, rect, panelWidth, panelHeight);
      && v.left == mouse.x + CursorOffset && v.top == mouse.y - CursorOffset
      && v.backgroundWidth == rect.width * Zoom && v.backgroundHeight == rect.height * Zoom
      && (mouse.x - rect.left) * Zoom + v.backgroundX == panelWidth / 2.0
      && (mouse.y - rect.top) * Zoom + v.backgroundY == panelHeight / 2.0
  {
  }

  /**
   * With freshly computed metrics, the centre of the panel shows exactly the
   * image-space point the sampler maps the pointer to, on both axes and
   * whatever the panel size or the pointer position.
   */
  lemma CentreShowsImagePoint(mouse: Point, rect: Rect, panelWidth: real, panelHeight: real, width: int, height: int)
    requires Positive(rect)
    ensures var v := Project(mouse, rect, panelWidth, panelHeight);
      && v.backgroundWidth > 0.0 && v.backgroundHeight > 0.0
      && ShownAt(panelWidth / 2.0, v.backgroundX, v.backgroundWidth, width)
         == ImageCoord(mouse.x, rect.left, Scale(width, rect.width))
      && ShownAt(panelHeight / 2.0, v.backgroundY, v.backgroundHeight, height)
         == ImageCoord(mouse.y, rect.top, Scale(height, rect.height))
  {
    var v := Project(mouse, rect, panelWidth, panelHeight);
    AxisCentre(mouse.x - rect.left, rect.width, width);
    AxisCentre(mouse.y - rect.top, rect.height, height);
  }

  /** One axis of CentreShowsImagePoint: the zoom cancels out. */
  lemma AxisCentre(rel: real, extent: real, dim: int)
    requires extent > 0.0
    ensures rel * Zoom * (dim as real / (extent * Zoom)) == rel * (dim as real / extent)
  {
    assert dim as real / (extent * Zoom) == (dim as real / extent) / Zoom;
  }

  /**
   * With freshly computed metrics and the pointer over the canvas, the pixel
   * at the panel's centre is the pixel the sampler reads.
   */
  lemma CentreShowsSampledPixel(mouse: Point, rect: Rect, panelWidth: real, panelHeight: real, width: int, height: int)
    requires Positive(rect) && width >= 1 && height >= 1
    requires rect.left <= mouse.x < rect.left + rect.width
    requires rect.top <= mouse.y < rect.top + rect.height
    ensures var v := Project(mouse, rect, panelWidth, panelHeight);
      && v.backgroundWidth > 0.0 && v.backgroundHeight > 0.0
      && ShownAt(panelWidth / 2.0, v.backgroundX, v.backgroundWidth, width).Floor
         == Sampler.PixelIndex(ImageCoord(mouse.x, rect.left, Scale(width, rect.width)), width)
      && ShownAt(panelHeight / 2.0, v.backgroundY, v.backgroundHeight, height).Floor
         == Sampler.PixelIndex(ImageCoord(mouse.y, rect.top, Scale(height, rect.height)), height)
  {
    CentreShowsImagePoint(mouse, rect, panelWidth, panelHeight, width, height);
    Sampler.InsideReadsPixelUnderPointer(mouse.x, rect.left, rect.width, width);
    Sampler.InsideReadsPixelUnderPointer(mouse.y, rect.top, rect.height, height);
  }
}
