/** drawPixel and the two painting loops built on it (fillTestPattern's pattern and
    applyDisposal's restore-to-background), over the part of the decoder they change. */
module Painting {
  import opened GifTypes
  import opened ColorUtils
  import opened StreamReader
  import opened PixelWriter

  /** One call of the pixel callback: canvas coordinates and the RGB565 colour. */
  datatype PixelEvent = PixelEvent(x: nat, y: nat, colour: nat)

  /** What drawPixel reads: the canvas size, the pixel format, whether a frame buffer is
      allocated and whether a pixel callback is set. */
  datatype View = View(width: nat, height: nat, format: PixelFormat, buffered: bool, callback: bool)

  /** What drawPixel changes: the frame-buffer bytes and the calls the callback received. */
  datatype Surface = Surface(frameBuffer: seq<byte>, pixels: seq<PixelEvent>)

  /** An allocated frame buffer has the size the canvas and the pixel format call for. */
  predicate Fits(v: View, t: Surface)
  {
    v.buffered ==> |t.frameBuffer| == BufferSize(v.width, v.height, v.format)
  }

  /** r keeps the shape of t: a buffer of the same length, and no buffer where none is
      allocated. */
  predicate Keeps(v: View, t: Surface, r: Surface)
  {
    |r.frameBuffer| == |t.frameBuffer| && (!v.buffered ==> r.frameBuffer == t.frameBuffer)
  }

  /** drawPixel(x, y, c): nothing happens off the canvas; on it the pixel callback (when set)
      receives the RGB565 colour, and the frame buffer (when allocated) stores the pixel. */
  function Draw(v: View, t: Surface, x: nat, y: nat, c: Rgb): (r: Surface)
    requires Fits(v, t) && x < U16 && y < U16
    ensures Keeps(v, t, r)
    ensures x >= v.width || y >= v.height ==> r == t
  {
    if x >= v.width || y >= v.height then t
    else
      Surface(if v.buffered then Plot(t.frameBuffer, v.format, v.width, v.height, x, y, c) else t.frameBuffer,
              if v.callback then t.pixels + [PixelEvent(x, y, Rgb565(c.r, c.g, c.b))] else t.pixels)
  }

  /** The colour source of a painting loop: fillTestPattern's colour-table pattern, index
      `(x + y) % modulus`, skipping the transparent index when asked; or applyDisposal's one
      background colour. */
  datatype Brush =
    | Pattern(table: seq<byte>, modulus: nat, skipTransparent: bool, transparentIndex: byte)
    | Solid(colour: Rgb)

  /** The pattern leaves entry i unpainted. */
  predicate Skips(b: Brush, i: nat)
  {
    b.Pattern? && b.skipTransparent && i == b.transparentIndex as nat
  }

  /** Reading the brush at diagonal k = x + y is defined: no division by zero and, unless the
      entry is skipped, a 32-bit table word inside the table. */
  predicate Covers(b: Brush, k: nat)
  {
    b.Solid? || (b.modulus > 0 && (Skips(b, k % b.modulus) || WordReadable(|b.table|, k % b.modulus)))
  }

  /** Painting a w by h rectangle with the brush is defined: every entry the pattern reaches
      (indices below the modulus and at most w + h - 2) is skipped or readable. */
  predicate BrushDefined(b: Brush, w: nat, h: nat)
  {
    w == 0 || h == 0 || b.Solid? ||
    (b.modulus > 0 && forall i :: 0 <= i < b.modulus && i + 2 <= w + h && !Skips(b, i) ==> WordReadable(|b.table|, i))
  }

  lemma CoversPixel(b: Brush, w: nat, h: nat, lx: nat, ly: nat)
    requires BrushDefined(b, w, h) && lx < w && ly < h
    ensures Covers(b, lx + ly)
  {
    if b.Pattern? {
      var i := (lx + ly) % b.modulus;
      assert i <= lx + ly;
      if !Skips(b, i) {
        assert WordReadable(|b.table|, i);
      }
    }
  }

  /** The colour the brush gives at diagonal k, or None for a skipped entry. */
  function BrushAt(b: Brush, k: nat): (c: Option<Rgb>)
    requires Covers(b, k)
    ensures b.Solid? ==> c == Some(b.colour)
    ensures b.Pattern? ==> (c.None? <==> Skips(b, k % b.modulus))
  {
    match b
    case Solid(colour) => Some(colour)
    case Pattern(table, modulus, _, _) =>
      var i := k % modulus;
      if Skips(b, i) then None else Some(ColorWord(table, i))
  }

  /** One iteration of the painting loops: frame pixel (lx, ly) drawn at canvas position
      `(lx + f.x, ly + f.y)`, each a uint16_t. */
  function PaintPixel(v: View, t: Surface, f: FrameInfo, b: Brush, lx: nat, ly: nat): (r: Surface)
    requires Fits(v, t) && Covers(b, lx + ly)
    ensures Keeps(v, t, r)
  {
    var c := BrushAt(b, lx + ly);
    if c.None? then t else Draw(v, t, (lx + f.x) % U16, (ly + f.y) % U16, c.value)
  }

  /** The inner loop: the first `cols` pixels of frame row ly. */
  function PaintRow(v: View, t: Surface, f: FrameInfo, b: Brush, ly: nat, cols: nat): (r: Surface)
    requires Fits(v, t) && BrushDefined(b, f.width, f.height) && ly < f.height && cols <= f.width
    ensures Keeps(v, t, r)
    decreases cols
  {
    if cols == 0 then t
    else
      var prior := PaintRow(v, t, f, b, ly, cols - 1);
      CoversPixel(b, f.width, f.height, cols - 1, ly);
      PaintPixel(v, prior, f, b, cols - 1, ly)
  }

  /** The outer loop: the first `rows` rows of the frame rectangle. */
  function PaintRows(v: View, t: Surface, f: FrameInfo, b: Brush, rows: nat): (r: Surface)
    requires Fits(v, t) && BrushDefined(b, f.width, f.height) && rows <= f.height
    ensures Keeps(v, t, r)
    decreases rows
  {
    if rows == 0 then t
    else PaintRow(v, PaintRows(v, t, f, b, rows - 1), f, b, rows - 1, f.width)
  }
}
