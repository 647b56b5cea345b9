/**
 * The selection state machine of updateColorDisplay and toggleLock
 * (script.js:183-196, 247-259), stated on values. Four readouts are shown:
 * the hover preview, which follows every sample, and the committed
 * readout (the locked preview, the hex field and the rgb field), which
 * follows samples only while the selection is not locked.
 */
module Selection {
  import opened Options
  import opened Pixels
  import opened ColorFormat
  import Geometry
  import Sampler

  /**
   * The readout fields: previewHover's background colour, previewLocked's
   * background colour, hexInput.value and rgbInput.value.
   */
  datatype Readout = Readout(hoverPreview: string, lockedPreview: string, hexValue: string, rgbValue: string)

  /** The committed part of a readout, which a lock freezes. */
  datatype Committed = Committed(preview: string, hex: string, rgb: string)

  function CommittedOf(ro: Readout): Committed {
    Committed(ro.lockedPreview, ro.hexValue, ro.rgbValue)
  }

  /** The committed readout that shows colour c. */
  function CommitFor(c: Rgba): Committed {
    var rgb := RgbText(c.r, c.g, c.b);
    Committed(rgb, RgbToHex(c.r, c.g, c.b), rgb)
  }

  /** updateColorDisplay for the sampled pixel c, given the lock flag. */
  function ShowColor(ro: Readout, locked: bool, c: Rgba): Readout {
    var rgb := RgbText(c.r, c.g, c.b);
    if locked then
      ro.(hoverPreview := rgb)
    else
      Readout(rgb, rgb, RgbToHex(c.r, c.g, c.b), rgb)
  }

  /** A run of pointer moves sampling cs in order, with the lock flag held fixed. */
  function ShowColors(ro: Readout, locked: bool, cs: seq<Rgba>): Readout
    decreases |cs|
  {
    if cs == [] then ro else ShowColors(ShowColor(ro, locked, cs[0]), locked, cs[1..])
  }

  /**
   * updateColorDisplay always shows the sample on the hover preview; it
   * writes the committed readout for the sample exactly when not locked and
   * otherwise leaves it as it was; while not locked the committed preview
   * and rgb field equal the hover preview.
   */
  lemma ShowColorSpec(ro: Readout, locked: bool, c: Rgba)
    ensures ShowColor(ro, locked, c).hoverPreview == RgbText(c.r, c.g, c.b)
    ensures locked ==> CommittedOf(ShowColor(ro, locked, c)) == CommittedOf(ro)
    ensures !locked ==> CommittedOf(ShowColor(ro, locked, c)) == CommitFor(c)
    ensures !locked ==> ShowColor(ro, locked, c).lockedPreview == ShowColor(ro, locked, c).hoverPreview
                     == ShowColor(ro, locked, c).rgbValue
  {
  }

  /** The committed readout tells which colour it shows: its hex field alone determines r, g, b. */
  lemma CommitForDeterminesColor(c: Rgba, d: Rgba)
    ensures CommitFor(c) == CommitFor(d) ==> c.r == d.r && c.g == d.g && c.b == d.b
  {
    if CommitFor(c) == CommitFor(d) {
      RgbToHexInjective(c.r, c.g, c.b, d.r, d.g, d.b);
    }
  }

  /**
   * Any number of pointer moves while locked leave the committed readout
   * unchanged; the hover preview shows the last one.
   */
  lemma {:induction false} LockedMovesKeepCommitted(ro: Readout, cs: seq<Rgba>)
    ensures CommittedOf(ShowColors(ro, true, cs)) == CommittedOf(ro)
    ensures cs != [] ==> ShowColors(ro, true, cs).hoverPreview == RgbText(cs[|cs| - 1].r, cs[|cs| - 1].g, cs[|cs| - 1].b)
    decreases |cs|
  {
    if cs != [] {
      LockedMovesKeepCommitted(ShowColor(ro, true, cs[0]), cs[1..]);
      if |cs| > 1 {
        assert cs[1..][|cs[1..]| - 1] == cs[|cs| - 1];
      }
    }
  }

  /** While not locked, after any non-empty run of moves the committed readout shows the last sample. */
  lemma {:induction false} HoverMovesTrackLast(ro: Readout, cs: seq<Rgba>)
    requires cs != []
    ensures CommittedOf(ShowColors(ro, false, cs)) == CommitFor(cs[|cs| - 1])
    ensures ShowColors(ro, false, cs).hoverPreview == CommitFor(cs[|cs| - 1]).preview
    decreases |cs|
  {
    if |cs| > 1 {
      HoverMovesTrackLast(ShowColor(ro, false, cs[0]), cs[1..]);
      assert cs[1..][|cs[1..]| - 1] == cs[|cs| - 1];
    }
  }

  /**
   * toggleLock as written: the flag is negated first, and then the click is
   * re-sampled (when an image is loaded, `click` is that sample) under the
   * new flag.
   */
  function AfterToggle(locked: bool, ro: Readout, click: Option<Rgba>): (bool, Readout) {
    var now := !locked;
    (now, if click.Some? then ShowColor(ro, now, click.value) else ro)
  }

  /**
   * toggleLock always negates the flag. Locking keeps the committed readout
   * it found; unlocking makes it show the click's sample.
   */
  lemma AfterToggleSpec(locked: bool, ro: Readout, click: Option<Rgba>)
    ensures AfterToggle(locked, ro, click).0 == !locked
    ensures !locked ==> CommittedOf(AfterToggle(locked, ro, click).1) == CommittedOf(ro)
    ensures locked && click.Some? ==> CommittedOf(AfterToggle(locked, ro, click).1) == CommitFor(click.value)
    ensures click.Some? ==> AfterToggle(locked, ro, click).1.hoverPreview == CommitFor(click.value).preview
    ensures click.None? ==> AfterToggle(locked, ro, click).1 == ro
  {
  }

  /**
   * Locking misses the click: with the committed readout showing black from
   * an earlier move, a click that samples red locks black, not red.
   */
  lemma LockMissesClickSample()
    ensures var black, red := Rgba(0, 0, 0, 255), Rgba(255, 0, 0, 255);
      var before := ShowColor(Readout("", "", "", ""), false, black);
      && CommittedOf(AfterToggle(false, before, Some(red)).1) == CommitFor(black)
      && CommittedOf(AfterToggle(false, before, Some(red)).1) != CommitFor(red)
  {
    var black, red := Rgba(0, 0, 0, 255), Rgba(255, 0, 0, 255);
    if CommitFor(black) == CommitFor(red) {
      CommitForDeterminesColor(black, red);
    }
  }

  /**
   * toggleLock as its comment intends: on locking, the click is sampled
   * while still unlocked and only then the flag set; on unlocking, the flag
   * is cleared and then the click sampled. Both come to showing the click
   * with the lock off, then taking the new flag.
   */
  function AfterToggleCapturing(locked: bool, ro: Readout, click: Option<Rgba>): (bool, Readout) {
    (!locked, if click.Some? then ShowColor(ro, false, click.value) else ro)
  }

  /**
   * The intended lock: on either transition the committed readout shows the
   * click's sample, and after locking, any number of further moves leave it
   * pinned to that sample.
   */
  lemma CapturingLockPinsClick(locked: bool, ro: Readout, c: Rgba, moves: seq<Rgba>)
    ensures AfterToggleCapturing(locked, ro, Some(c)).0 == !locked
    ensures CommittedOf(AfterToggleCapturing(locked, ro, Some(c)).1) == CommitFor(c)
    ensures !locked ==> CommittedOf(ShowColors(AfterToggleCapturing(locked, ro, Some(c)).1, true, moves)) == CommitFor(c)
  {
    LockedMovesKeepCommitted(AfterToggleCapturing(locked, ro, Some(c)).1, moves);
  }

  /** Unlocking behaves the same in both versions; they differ only on locking. */
  lemma CapturingAgreesOnUnlock(ro: Readout, click: Option<Rgba>)
    ensures AfterToggleCapturing(true, ro, click) == AfterToggle(true, ro, click)
  {
  }

  /**
   * An example, through to the readout: on the red 10 × 10 tile shown in
   * (0, 0)-(100, 100), the pointer at (55, 55) and the pointer at (999, 999)
   * both commit `#FF0000` and `rgb(255, 0, 0)` while not locked.
   */
  lemma RedTileReadout(ro: Readout)
    ensures var rect := Geometry.Rect(0.0, 0.0, 100.0, 100.0);
      var near := Sampler.Sample(Sampler.RedTile(), rect, 0.1, 0.1, Geometry.Point(55.0, 55.0));
      var far := Sampler.Sample(Sampler.RedTile(), rect, 0.1, 0.1, Geometry.Point(999.0, 999.0));
      && CommittedOf(ShowColor(ro, false, near)) == Committed("rgb(255, 0, 0)", "#FF0000", "rgb(255, 0, 0)")
      && CommittedOf(ShowColor(ro, false, far)) == Committed("rgb(255, 0, 0)", "#FF0000", "rgb(255, 0, 0)")
  {
    Sampler.RedTileExample();
    HexOfRed();
    RgbTextOfRed();
  }
}
