/**
 * Pixels of the canvas backing store. A loaded image is copied onto a
 * canvas whose pixel grid has exactly the image's natural size; the
 * sampling engine only ever reads that grid.
 */
module Pixels {

  /** One 8-bit colour channel, as held by canvas image data. */
  type Byte = x: int | 0 <= x < 256

  /** One canvas pixel: red, green, blue and alpha channels. */
  datatype Rgba = Rgba(r: Byte, g: Byte, b: Byte, a: Byte)

  /** What a cleared canvas holds in every pixel. */
  const TransparentBlack: Rgba := Rgba(0, 0, 0, 0)

  /**
   * The canvas's pixel grid: `width` × `height` pixels stored row by row,
   * so that the pixel in column x of row y is rows[y][x].
   */
  datatype Raster = Raster(width: int, height: int, rows: seq<seq<Rgba>>) {

    /** The grid is non-empty and rectangular, with the stated size. */
    predicate Valid() {
      && 1 <= width
      && 1 <= height
      && |rows| == height
      && forall y :: 0 <= y < |rows| ==> |rows[y]| == width
    }
  }

  /** The grid `ctx.clearRect` leaves: every pixel transparent black. */
  function Cleared(width: int, height: int): (c: Raster)
    requires 1 <= width && 1 <= height
    ensures c.Valid() && c.width == width && c.height == height
    ensures forall y, x :: 0 <= y < height && 0 <= x < width ==> c.rows[y][x] == TransparentBlack
  {
    Raster(width, height, seq(height, _ => seq(width, _ => TransparentBlack)))
  }
}
