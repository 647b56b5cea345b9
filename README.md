# Colour picker sampling engine, in Dafny

This project models the sampling engine of a browser colour picker. The
user loads an image, moves the pointer over it and sees the colour under
the pointer. A click locks the selection for copying. The model covers what
turns a pointer position into a colour, plus the session state around it:

- **Geometry cache** (`Geometry`, `App.Session.UpdateCanvasMetrics`). It caches the canvas's
  rendered rectangle and the scales `canvas.width / rect.width` and
  `canvas.height / rect.height`.
- **Pixel sampler** (`Sampler`, `App.Session.HandleMouseMove`). It maps the pointer into
  image space, clamps each axis on the fractional value to `[0, dim - 1]`, and reads
  the pixel at the floor of the clamped coordinates.
- **Selection state machine** (`Selection`, `App.Session.ToggleLock`). The
  hover preview follows every sample. The committed readout (locked
  preview, hex field, rgb field) follows samples only while not locked.
- **Magnifier projector** (`Magnifier`). It places the zoomed preview
  panel and offsets its background.
- **Colour formatter** (`ColorFormat`). It builds the `#RRGGBB` and
  `rgb(r, g, b)` texts.

Coordinates are exact reals. The browser's answers are inputs of each
handler: the rectangle from `getBoundingClientRect` and the magnifier's
`offsetWidth`/`offsetHeight`. The canvas pixel grid is a value
(`Pixels.Raster`) that is replaced wholesale. The mutable closure state of
the page is the class `App.Session`. Its methods say exactly which fields
they change. The pure parts (clamping, projection, formatting, the readout
transitions) are functions, and lemmas state their properties.

Where the code's own comments or an evident expectation differ from what
the code does, the model follows the code:

- `updateCanvasMetrics` (script.js:134-135) divides by the rectangle's
  width and height with no guard. A zero-sized rectangle gives `Infinity`
  or `NaN` scales, and nothing stops the sampler from using them. The
  model requires a positive rectangle wherever the metrics are computed.
- The comment at script.js:250 says the forced update in `toggleLock`
  grabs the clicked pixel. The flag is set first (script.js:248), so the
  update runs locked and cannot commit it; see "## Findings".
- `renderToCanvas` does not reset the cached rectangle or scales. They
  stay stale until the next animation frame (script.js:128-129) recomputes
  them. Clamping still keeps every read inside the grid
  (`Sampler.SampleInGrid` holds for any scales, and `App.CachedNearEdgesAbsorb`
  applies to a session's cached metrics whatever their age).
- Nothing refreshes the cached rectangle when the page scrolls: only a
  resize (script.js:68-70), a missing rectangle (script.js:165) and the
  frame after a render (script.js:129) do. After a scroll the sampler maps
  the pointer with the old rectangle's position.

## Model

| member | source | states |
|---|---|---|
| `ColorFormat.ToHexString` | script.js:238 | `toString(16)` of a non-negative integer: at least one lower-case hex digit, no leading zero, and the digits parse back to the number |
| `ColorFormat.ToUpperCase` | script.js:238 | `toUpperCase` keeps the length and maps each character to its upper-case form |
| `ColorFormat.PackedColor` | script.js:238 | `(1 << 24) + (r << 16) + (g << 8) + b` for channels below 256 lies in `[0x1000000, 0x2000000)`, so its hex text has seven digits (digits: `ColorFormat.PackedColorDigits`) |
| `ColorFormat.RgbToHex` | script.js:237-239 | definition: `#` followed by the packed colour's hex text without its first digit, upper-cased. Its contract is stated by the rows below |
| `ColorFormat.RgbToHexDigits` | script.js:237-239 | rgbToHex gives exactly `#` followed by the two zero-padded upper-case digits of r, then of g, then of b |
| `ColorFormat.RgbToHexRoundTrip` | script.js:237-239 | the text has length 7, starts with `#`, has six upper-case hex digits, and its pairs parse back to r, g and b |
| `ColorFormat.ParseRgbToHex` | script.js:237-239 | parsing the `#RRGGBB` text gives back exactly the colour it was made from |
| `ColorFormat.RgbToHexInjective` | script.js:237-239 | distinct colours get distinct hex texts |
| `ColorFormat.HexOfBlack` | script.js:237-239 | (0, 0, 0) gives `#000000` |
| `ColorFormat.HexOfRed` | script.js:237-239 | (255, 0, 0) gives `#FF0000` |
| `ColorFormat.HexOfWhite` | script.js:237-239 | (255, 255, 255) gives `#FFFFFF` |
| `ColorFormat.Decimal` | script.js:185 | `${n}` gives decimal digits with no leading zero that parse back to n |
| `ColorFormat.RgbText` | script.js:185 | the text has at least 12 characters, starts with `rgb(` and ends with `)` |
| `ColorFormat.RgbTextInjective` | script.js:185 | distinct colours get distinct `rgb(r, g, b)` texts |
| `ColorFormat.RgbTextOfRed` | script.js:185 | (255, 0, 0) gives `rgb(255, 0, 0)` |
| `Pixels.Cleared` | script.js:148 | `clearRect` over the whole canvas leaves a valid grid of the same size, every pixel transparent black |
| `Geometry.Scale` | script.js:134-135 | the scale times the rectangle's extent is the canvas dimension, and it is positive for a non-empty canvas |
| `Geometry.ImageCoord` | script.js:167-168 | with a positive scale the image coordinate is non-negative exactly when the pointer is at or past the rectangle's near edge |
| `Geometry.ImageCoordSpansGrid` | script.js:133-135 | with fresh metrics, `(client - left) * scale` maps `[left, left + width]` onto `[0, W]`: the left edge goes to 0, the right edge to W |
| `Sampler.Max` | script.js:171-172 | `Math.max` is one of its arguments and at least both |
| `Sampler.Min` | script.js:171-172 | `Math.min` is one of its arguments and at most both |
| `Sampler.Clamp` | script.js:171-172 | the clamp lies in `[0, dim - 1]` and keeps values already there; everything below 0 goes to 0 and everything at or above `dim - 1` goes to `dim - 1` |
| `Sampler.PixelIndex` | script.js:171-175 | the truncated clamped coordinate is an index in `[0, dim)` |
| `Sampler.ClampIdempotent` | script.js:171-172 | clamping twice equals clamping once |
| `Sampler.ClampKeepsPixelUnderPointer` | script.js:171-175 | clamping before truncating reads the pixel a coordinate in `[0, dim)` lies in, including coordinates past `dim - 1` |
| `Sampler.NearEdgeAbsorbs` | script.js:167-172 | a pointer at or before the rectangle's near edge reads index 0, the same as the edge itself |
| `Sampler.FarEdgeAbsorbs` | script.js:167-172 | with fresh metrics, a pointer at or beyond the far edge reads index `dim - 1` |
| `Sampler.InsideReadsPixelUnderPointer` | script.js:167-175 | with fresh metrics, a pointer inside the rectangle reads the floor of its exact image coordinate |
| `Sampler.Sample` | script.js:167-175 | definition: the grid's pixel at the truncated clamped image coordinates of the pointer. Its contract is stated by `Sampler.SampleInGrid` and the rows around it |
| `Sampler.SampleInGrid` | script.js:167-175 | for every pointer position and every scale, both sample indices are in range and the sample is the grid's pixel at them |
| `Sampler.LeftOfRectSamplesLeftEdge` | script.js:167-175 | a pointer left of the rectangle samples what the left edge samples |
| `Sampler.AboveRectSamplesTopEdge` | script.js:167-175 | a pointer above the rectangle samples what the top edge samples |
| `Sampler.BeyondFarCornerSamplesLastPixel` | script.js:167-175 | with fresh metrics, a pointer at or beyond the bottom-right corner samples pixel (W-1, H-1) |
| `Sampler.RedTileExample` | script.js:167-175 | 10 × 10 red image in a 100 × 100 rectangle: scale 0.1, (55, 55) reads pixel (5, 5) and gets red, (999, 999) is clamped to (9, 9) and also reads red |
| `Magnifier.Project` | script.js:198-228 | definition: the panel position, background size and background offset of updateMagnifier. Its contract is stated by `Magnifier.ProjectCentresPointer` |
| `Magnifier.ProjectCentresPointer` | script.js:203-225 | the panel sits at `(mouseX + 20, mouseY - 20)`, the background is the rectangle times 4, and `rel * 4 + offset == panel / 2` on both axes with no clamping |
| `Magnifier.CentreShowsImagePoint` | script.js:209-223 | with fresh metrics, the panel's centre shows exactly the image-space point the sampler maps the pointer to, on both axes |
| `Magnifier.CentreShowsSampledPixel` | script.js:167-175 | with fresh metrics and the pointer over the canvas, the pixel at the panel's centre is the sampled pixel |
| `Selection.ShowColor` | script.js:183-196 | definition: the readout after updateColorDisplay. Its contract is stated by `Selection.ShowColorSpec` |
| `Selection.ShowColorSpec` | script.js:183-196 | updateColorDisplay always sets the hover preview. It sets the committed readout to the sample exactly when not locked and otherwise leaves it unchanged. While not locked the committed preview and rgb field equal the hover preview |
| `Selection.CommitForDeterminesColor` | script.js:183-196 | the committed readout determines r, g and b |
| `Selection.RedTileReadout` | script.js:167-196 | over the red tile, whether at (55, 55) or clamped from (999, 999), the committed readout is `rgb(255, 0, 0)`, `#FF0000`, `rgb(255, 0, 0)` |
| `Selection.LockedMovesKeepCommitted` | script.js:183-196 | any number of moves while locked leave the committed readout unchanged; the hover preview shows the last sample |
| `Selection.HoverMovesTrackLast` | script.js:183-196 | while not locked, after any run of moves the committed readout and the hover preview show the last sample |
| `Selection.AfterToggle` | script.js:247-258 | definition: the flag and readout after toggleLock. Its contract is stated by `Selection.AfterToggleSpec` |
| `Selection.AfterToggleSpec` | script.js:247-258 | toggleLock negates the flag. Locking keeps the prior committed readout; unlocking sets it to the click's sample. Without an image the readout is unchanged |
| `Selection.LockMissesClickSample` | script.js:248-251 | after a move over black, a lock by a click over red leaves black, not red, committed |
| `Selection.AfterToggleCapturing` | script.js:247-259 | definition: the corrected toggle, which samples the click before it sets the flag. Its contract is stated by `Selection.CapturingLockPinsClick` |
| `Selection.CapturingLockPinsClick` | script.js:247-258 | the corrected toggle commits the click's sample on either transition. After locking, any number of moves keep it |
| `Selection.CapturingAgreesOnUnlock` | script.js:254-257 | the corrected toggle unlocks exactly as the code does |
| `App.CachedNearEdgesAbsorb` | script.js:161-175 | on any valid session, fresh or stale metrics alike, a pointer left of the cached rectangle reads what its left edge reads, and one above it what its top edge reads |
| `App.Session.constructor` | script.js:20-26 | start state: no image, not locked, no cached rectangle, scales 1; the invariant `Valid()` (a well-formed grid and positive scales) holds |
| `App.Session.RenderToCanvas` | script.js:109-130 | clears the lock, installs the image as the canvas grid and marks it loaded. The cached rectangle, scales and readouts are untouched |
| `App.Session.UpdateCanvasMetrics` | script.js:132-136 | caches the rectangle and sets `scaleX = W / width`, `scaleY = H / height`, so `scaleX * width == W` and `scaleY * height == H` |
| `App.Session.Resize` | script.js:68-70 | recomputes the metrics only when an image is loaded |
| `App.Session.ResetApp` | script.js:145-159 | no image, not locked, canvas cleared at the same size, everything else unchanged |
| `App.Session.UpdateColorDisplay` | script.js:183-196 | the hover preview gets the rgb text. Only when not locked do the locked preview, hex field and rgb field get the sample's texts; otherwise they keep their values |
| `App.Session.UpdateMagnifier` | script.js:198-228 | the magnifier shows the projection for the pointer and the cached rectangle |
| `App.Session.HandleMouseMove` | script.js:161-181 | without an image nothing changes. Otherwise the metrics are computed only if none are cached and the readouts follow the clamped sample as updateColorDisplay specifies. Lock, image and cached scales stay, and the magnifier follows the pointer |
| `App.Session.SampleAndShow` | script.js:167-180 | shows the pixel at the clamped pointer coordinates and projects the magnifier |
| `App.Session.ToggleLock` | script.js:247-259 | negates the flag and then re-samples. Locking leaves the committed readout unchanged; unlocking makes it show the click's sample |
| `App.Session.ToggleLockCapturing` | script.js:247-259 | corrected toggle: negates the flag and commits the click's sample on both transitions |

## Left out

- File, drag-and-drop and paste ingestion (`handleFiles`, `handlePaste`, `loadImage`, script.js:74-107) are asynchronous browser I/O. A decoded image is the `Raster` passed to `App.Session.RenderToCanvas`.
- `App.Session.RenderToCanvas`: requires a non-empty image, so the model does not cover an image of zero natural size. renderToCanvas still marks such an image loaded (script.js:116-117, 127), and what the page then shows depends on the browser and the page's CSS: a read outside an empty bitmap gives transparent black.
- Drawing the image, `toDataURL` and the magnifier's background snapshot (script.js:112-125) are browser rendering. The canvas grid is taken to equal the image's pixels; premultiplied-alpha rounding in the browser is not modelled.
- `requestAnimationFrame` (script.js:129) is scheduling by the host. The host calls `App.Session.UpdateCanvasMetrics` on the next frame.
- `showEditor`, the visibility toggling in `resetApp`, the input reset (script.js:138-159), the magnifier's `hidden` class and the mouseleave listener (script.js:55-57, 199) are DOM visibility, not sampling.
- The `"px"` style strings (script.js:204-205, 212, 225) are left out. The model keeps their numeric values in `Magnifier.View`.
- Clipboard writes (script.js:241-245), toasts and their timers (script.js:252, 255, 261-268) and the locked preview's border colour (script.js:253, 256) are foreign asynchronous calls or styling.
- `resetMagnifier` (script.js:230-233) is never called.
- The alpha channel is read (script.js:176) but never shown.
- `App.Session.UpdateCanvasMetrics`: requires a positive rectangle, and so do `App.Session.Resize`, `App.Session.HandleMouseMove`, `App.Session.ToggleLock` and `App.Session.ToggleLockCapturing` when they compute metrics. updateCanvasMetrics divides anyway and gets `Infinity` or `NaN` scales, which exact reals cannot represent.
- IEEE floating point is not modelled: coordinates and scales are exact reals.
- `ColorFormat.ToUpperCase`: maps only ASCII letters, not all of Unicode. Its input here is always hexadecimal digits.
- `App.Session.constructor`: the readouts' initial texts are empty strings, and the canvas starts at the HTML default size of 300 × 150. Both assume the page markup gives the canvas no `width` or `height` attributes and the readouts no initial text. The page markup is not part of this model.

## Findings

| source | as written | input that shows it | evidently intended | confidence | as-written member | corrected member |
|---|---|---|---|---|---|---|
| script.js:247-251 | `toggleLock` sets `isLocked` before the forced re-sample, so the re-sample runs locked and cannot change the committed readout | the last move sampled black from one image; with the pointer still, an image that is red at that spot is pasted with Ctrl+V (script.js:51, 87-107, which also unlocks at script.js:111), and then the pointer clicks without moving. The re-sample reads red, but the locked readout stays black. A window resize under a still pointer (script.js:69 recomputes the rectangle) followed by a click shows the same | locking captures the click's own pixel, as the comment at script.js:250 says | not executed; medium | `Selection.LockMissesClickSample` | `Selection.CapturingLockPinsClick` |

The as-written toggle is `App.Session.ToggleLock` and the corrected one is
`App.Session.ToggleLockCapturing`. The corrected version samples the click
before it sets the flag. They differ only when locking
(`Selection.CapturingAgreesOnUnlock`).
