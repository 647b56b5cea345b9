/**
 * The session state of the colour picker and the event handlers that
 * change it (script.js:20-26, 68-70, 109-136, 145-196, 198-228, 247-259).
 * The host reports what the browser would: the canvas's bounding
 * rectangle and the magnifier panel's size at the time of each event.
 */
module App {
  import opened Options
  import opened Pixels
  import opened Geometry
  import opened Sampler
  import opened ColorFormat
  import opened Selection
  import Magnifier

  /**
   * What the layout host reports while an event is handled: the canvas's
   * getBoundingClientRect and the magnifier's offsetWidth, offsetHeight.
   */
  datatype Layout = Layout(canvasBox: Rect, panelWidth: real, panelHeight: real)

  class Session {
    var isImageLoaded: bool
    var isLocked: bool
    /** The cached rendered rectangle; absent until metrics are first computed. */
    var canvasRect: Option<Rect>
    var scaleX: real
    var scaleY: real
    /** The canvas's pixel grid (canvas.width, canvas.height and its image data). */
    var canvas: Raster
    var hoverPreview: string
    var lockedPreview: string
    var hexValue: string
    var rgbValue: string
    /** The magnifier's last projection; absent until the first sample. */
    var magnifier: Option<Magnifier.View>

    /**
     * The session invariant: the canvas grid is well formed and both scales
     * are positive. They start at 1 and are only ever set to a canvas
     * dimension divided by a positive rectangle extent.
     */
    ghost predicate Valid()
      reads this`canvas, this`scaleX, this`scaleY
    {
      canvas.Valid() && scaleX > 0.0 && scaleY > 0.0
    }

    /** The four readout fields as one value. */
    function Display(): Readout
      reads this`hoverPreview, this`lockedPreview, this`hexValue, this`rgbValue
    {
      Readout(hoverPreview, lockedPreview, hexValue, rgbValue)
    }

    /**
     * The cached metrics describe the current canvas: the rectangle is
     * present and not empty and each scale times the rectangle's extent is
     * the canvas's pixel dimension.
     */
    ghost predicate MetricsCurrent()
      reads this`canvasRect, this`scaleX, this`scaleY, this`canvas
    {
      && canvasRect.Some?
      && Positive(canvasRect.value)
      && scaleX * canvasRect.value.width == canvas.width as real
      && scaleY * canvasRect.value.height == canvas.height as real
    }

    /** The pixel a pointer event at p would read with the cached metrics. */
    function CurrentSample(p: Point): Rgba
      reads this`canvasRect, this`scaleX, this`scaleY, this`canvas
      requires Valid() && canvasRect.Some?
    {
      Sample(canvas, canvasRect.value, scaleX, scaleY, p)
    }

    /**
     * The state when the page starts: no image, not locked, no cached
     * rectangle, both scales 1, and a blank canvas of the HTML default size
     * 300 × 150.
     */
    constructor ()
      ensures Valid()
      ensures !isImageLoaded && !isLocked
      ensures canvasRect == None && scaleX == 1.0 && scaleY == 1.0
      ensures canvas == Cleared(300, 150)
      ensures Display() == Readout("", "", "", "") && magnifier == None
    {
      isImageLoaded := false;
      isLocked := false;
      canvasRect := None;
      scaleX := 1.0;
      scaleY := 1.0;
      canvas := Cleared(300, 150);
      hoverPreview, lockedPreview, hexValue, rgbValue := "", "", "", "";
      magnifier := None;
    }

    /**
     * renderToCanvas: clears the lock, gives the canvas the image's size and
     * pixels, and marks an image loaded. The cached rectangle and scales are
     * left as they were; the host recomputes them on the next animation
     * frame by calling UpdateCanvasMetrics.
     */
    method RenderToCanvas(image: Raster)
      requires Valid() && image.Valid()
      modifies this
      ensures Valid()
      ensures isImageLoaded && !isLocked && canvas == image
      ensures canvasRect == old(canvasRect) && scaleX == old(scaleX) && scaleY == old(scaleY)
      ensures Display() == old(Display()) && magnifier == old(magnifier)
    {
      isLocked := false;
      canvas := image;
      isImageLoaded := true;
    }

    /**
     * updateCanvasMetrics: caches the rendered rectangle and computes the
     * scales from it, after which the metrics are current.
     */
    method UpdateCanvasMetrics(box: Rect)
      requires Valid() && Positive(box)
      modifies this`canvasRect, this`scaleX, this`scaleY
      ensures Valid() && MetricsCurrent()
      ensures canvasRect == Some(box)
      ensures scaleX == Scale(canvas.width, box.width) && scaleY == Scale(canvas.height, box.height)
    {
      canvasRect := Some(box);
      scaleX := Scale(canvas.width, box.width);
      scaleY := Scale(canvas.height, box.height);
    }

    /** The window's resize listener: recompute the metrics, but only once an image is loaded. */
    method Resize(box: Rect)
      requires Valid()
      requires isImageLoaded ==> Positive(box)
      modifies this`canvasRect, this`scaleX, this`scaleY
      ensures Valid()
      ensures isImageLoaded ==> MetricsCurrent() && canvasRect == Some(box)
      ensures !isImageLoaded ==> canvasRect == old(canvasRect) && scaleX == old(scaleX) && scaleY == old(scaleY)
    {
      if isImageLoaded {
        UpdateCanvasMetrics(box);
      }
    }

    /**
     * resetApp: no image, not locked, and the canvas cleared to transparent
     * black at its current size. Nothing else changes.
     */
    method ResetApp()
      requires Valid()
      modifies this
      ensures Valid()
      ensures !isImageLoaded && !isLocked
      ensures canvas == Cleared(old(canvas.width), old(canvas.height))
      ensures canvasRect == old(canvasRect) && scaleX == old(scaleX) && scaleY == old(scaleY)
      ensures Display() == old(Display()) && magnifier == old(magnifier)
    {
      isImageLoaded := false;
      isLocked := false;
      canvas := Cleared(canvas.width, canvas.height);
    }

    /**
     * updateColorDisplay: the hover preview always shows the colour; the
     * locked preview and the hex and rgb fields show it only when not locked.
     */
    method UpdateColorDisplay(r: Byte, g: Byte, b: Byte)
      modifies this`hoverPreview, this`lockedPreview, this`hexValue, this`rgbValue
      ensures hoverPreview == RgbText(r, g, b)
      ensures !isLocked ==> lockedPreview == rgbValue == RgbText(r, g, b) && hexValue == RgbToHex(r, g, b)
      ensures isLocked ==> lockedPreview == old(lockedPreview) && hexValue == old(hexValue) && rgbValue == old(rgbValue)
    {
      var hex := RgbToHex(r, g, b);
      var rgb := RgbText(r, g, b);
      hoverPreview := rgb;
      if !isLocked {
        lockedPreview := rgb;
        hexValue := hex;
        rgbValue := rgb;
      }
    }

    /**
     * updateMagnifier: projects the panel for the pointer with the cached
     * rectangle. The image-space coordinates are passed in but, as in the
     * handler, not used.
     */
    method UpdateMagnifier(mouse: Point, imageX: real, imageY: real, panelWidth: real, panelHeight: real)
      requires canvasRect.Some?
      modifies this`magnifier
      ensures magnifier == Some(Magnifier.Project(mouse, canvasRect.value, panelWidth, panelHeight))
    {
      magnifier := Some(Magnifier.Project(mouse, canvasRect.value, panelWidth, panelHeight));
    }

    /**
     * handleMouseMove: nothing happens without an image. Otherwise the
     * metrics are computed if none are cached yet, the pixel under the
     * clamped coordinate is read and shown, and the magnifier follows the
     * pointer. The lock flag, the image and any cached metrics stay.
     */
    method HandleMouseMove(e: Point, layout: Layout)
      requires Valid()
      requires isImageLoaded && canvasRect.None? ==> Positive(layout.canvasBox)
      modifies this
      ensures Valid()
      ensures !old(isImageLoaded) ==> unchanged(this)
      ensures old(isImageLoaded) ==>
        && isImageLoaded && isLocked == old(isLocked) && canvas == old(canvas)
        && canvasRect == (if old(canvasRect).None? then Some(layout.canvasBox) else old(canvasRect))
        && (old(canvasRect).None? ==> MetricsCurrent())
        && (old(canvasRect).Some? ==> scaleX == old(scaleX) && scaleY == old(scaleY))
        && Display() == ShowColor(old(Display()), isLocked, CurrentSample(e))
        && magnifier == Some(Magnifier.Project(e, canvasRect.value, layout.panelWidth, layout.panelHeight))
      ensures old(isImageLoaded) ==> hoverPreview == CommitFor(CurrentSample(e)).preview
      ensures old(isImageLoaded) && isLocked ==> CommittedOf(Display()) == CommittedOf(old(Display()))
      ensures old(isImageLoaded) && !isLocked ==> CommittedOf(Display()) == CommitFor(CurrentSample(e))
    {
      if !isImageLoaded {
        return;
      }
      if canvasRect.None? {
        UpdateCanvasMetrics(layout.canvasBox);
      }
      ghost var before := Display();
      SampleAndShow(e, layout);
      ShowColorSpec(before, isLocked, CurrentSample(e));
    }

    /**
     * The body of handleMouseMove once an image is loaded and a rectangle is
     * cached: map and clamp the pointer, read the pixel, show it and move the
     * magnifier.
     */
    method SampleAndShow(e: Point, layout: Layout)
      requires Valid() && canvasRect.Some?
      modifies this`hoverPreview, this`lockedPreview, this`hexValue, this`rgbValue, this`magnifier
      ensures Display() == ShowColor(old(Display()), isLocked, CurrentSample(e))
      ensures magnifier == Some(Magnifier.Project(e, canvasRect.value, layout.panelWidth, layout.panelHeight))
    {
      var rect := canvasRect.value;
      var x := ImageCoord(e.x, rect.left, scaleX);
      var y := ImageCoord(e.y, rect.top, scaleY);
      var clampedX := Clamp(x, canvas.width);
      var clampedY := Clamp(y, canvas.height);
      var pixel := canvas.rows[clampedY.Floor][clampedX.Floor];
      assert pixel == CurrentSample(e);
      UpdateColorDisplay(pixel.r, pixel.g, pixel.b);
      UpdateMagnifier(e, clampedX, clampedY, layout.panelWidth, layout.panelHeight);
    }

    /**
     * toggleLock as written: the flag is negated and the click re-sampled
     * under the new flag. Locking therefore keeps the committed readout the
     * last move left, whatever the click samples; unlocking makes it show the
     * click's sample.
     */
    method ToggleLock(e: Point, layout: Layout)
      requires Valid()
      requires isImageLoaded && canvasRect.None? ==> Positive(layout.canvasBox)
      modifies this
      ensures Valid()
      ensures isLocked == !old(isLocked)
      ensures isImageLoaded == old(isImageLoaded) && canvas == old(canvas)
      ensures !old(isImageLoaded) ==>
        && canvasRect == old(canvasRect) && scaleX == old(scaleX) && scaleY == old(scaleY)
        && magnifier == old(magnifier)
      ensures old(isImageLoaded) ==>
        && canvasRect == (if old(canvasRect).None? then Some(layout.canvasBox) else old(canvasRect))
        && (old(canvasRect).None? ==> MetricsCurrent())
        && (old(canvasRect).Some? ==> scaleX == old(scaleX) && scaleY == old(scaleY))
        && magnifier == Some(Magnifier.Project(e, canvasRect.value, layout.panelWidth, layout.panelHeight))
      ensures !old(isImageLoaded) ==> (isLocked, Display()) == AfterToggle(old(isLocked), old(Display()), None)
      ensures old(isImageLoaded) ==>
        && canvasRect.Some?
        && (isLocked, Display()) == AfterToggle(old(isLocked), old(Display()), Some(CurrentSample(e)))
      ensures isLocked ==> CommittedOf(Display()) == CommittedOf(old(Display()))
      ensures !isLocked && old(isImageLoaded) ==> CommittedOf(Display()) == CommitFor(CurrentSample(e))
    {
      isLocked := !isLocked;
      if isLocked {
        // toggleLock then shows the "locked" toast and a green border
        HandleMouseMove(e, layout);
      } else {
        // toggleLock first shows the "unlocked" toast and resets the border
        HandleMouseMove(e, layout);
      }
    }

    /**
     * toggleLock as its comment intends: on locking the click is sampled
     * before the flag is set, so the lock captures the click's sample.
     */
    method ToggleLockCapturing(e: Point, layout: Layout)
      requires Valid()
      requires isImageLoaded && canvasRect.None? ==> Positive(layout.canvasBox)
      modifies this
      ensures Valid()
      ensures isLocked == !old(isLocked)
      ensures isImageLoaded == old(isImageLoaded) && canvas == old(canvas)
      ensures !old(isImageLoaded) ==>
        && canvasRect == old(canvasRect) && scaleX == old(scaleX) && scaleY == old(scaleY)
        && magnifier == old(magnifier)
      ensures old(isImageLoaded) ==>
        && canvasRect == (if old(canvasRect).None? then Some(layout.canvasBox) else old(canvasRect))
        && (old(canvasRect).None? ==> MetricsCurrent())
        && (old(canvasRect).Some? ==> scaleX == old(scaleX) && scaleY == old(scaleY))
        && magnifier == Some(Magnifier.Project(e, canvasRect.value, layout.panelWidth, layout.panelHeight))
      ensures !old(isImageLoaded) ==> (isLocked, Display()) == AfterToggleCapturing(old(isLocked), old(Display()), None)
      ensures old(isImageLoaded) ==>
        && canvasRect.Some?
        && (isLocked, Display()) == AfterToggleCapturing(old(isLocked), old(Display()), Some(CurrentSample(e)))
        && CommittedOf(Display()) == CommitFor(CurrentSample(e))
    {
      if !isLocked {
        HandleMouseMove(e, layout);
        isLocked := true;
      } else {
        isLocked := false;
        HandleMouseMove(e, layout);
      }
    }
  }

  /**
   * The session invariant makes the edge lemmas apply to the cached
   * metrics, whether or not they are current: a pointer left of the cached
   * rectangle reads what its left edge reads, and one above it what its
   * top edge reads.
   */
  lemma CachedNearEdgesAbsorb(s: Session, p: Point)
    requires s.Valid() && s.canvasRect.Some?
    ensures p.x <= s.canvasRect.value.left ==>
      s.CurrentSample(p) == s.CurrentSample(Point(s.canvasRect.value.left, p.y))
    ensures p.y <= s.canvasRect.value.top ==>
      s.CurrentSample(p) == s.CurrentSample(Point(p.x, s.canvasRect.value.top))
  {
    var rect := s.canvasRect.value;
    if p.x <= rect.left {
      LeftOfRectSamplesLeftEdge(s.canvas, rect, s.scaleX, s.scaleY, p);
    }
    if p.y <= rect.top {
      AboveRectSamplesTopEdge(s.canvas, rect, s.scaleX, s.scaleY, p);
    }
  }
}
