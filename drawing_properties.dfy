/** What drawPixel and applyDisposal promise: clipping, the pixel callback, the bytes a pixel
    may change, and what each disposal method does to the two buffers. */
module DrawingProperties {
  import opened GifTypes
  import opened ColorUtils
  import opened StreamReader
  import opened PixelWriter
  import opened Painting
  import opened DecoderState

  /** A pixel off the canvas changes nothing: no buffer byte, no callback. */
  lemma DrawOffCanvasChangesNothing(s: Session, x: nat, y: nat, c: Rgb)
    requires Coherent(s) && x < U16 && y < U16
    requires x >= s.gif.canvasWidth || y >= s.gif.canvasHeight
    ensures DrawPixelStep(s, x, y, c) == s
  {
  }

  /** A pixel on the canvas: the callback, when set, receives the pixel and its RGB565
      colour; an allocated buffer holds Plot's bytes, which differ from the old ones only
      where the pixel's layout puts it. */
  lemma DrawOnCanvas(s: Session, x: nat, y: nat, c: Rgb)
    requires Coherent(s) && x < s.gif.canvasWidth && y < s.gif.canvasHeight
    ensures var r := DrawPixelStep(s, x, y, c);
      var w, h, f := s.gif.canvasWidth, s.gif.canvasHeight, s.gif.format;
      r.pixels == s.pixels + (if s.pixelCallback then [PixelEvent(x, y, Rgb565(c.r, c.g, c.b))] else [])
      && (s.buffers ==> r.frameBuffer == Plot(s.frameBuffer, f, w, h, x, y, c)
                        && forall i :: 0 <= i < |r.frameBuffer| && !Touches(f, w, x, y, i) ==> r.frameBuffer[i] == s.frameBuffer[i])
      && (!s.buffers ==> r.frameBuffer == s.frameBuffer)
      && r.(frameBuffer := s.frameBuffer, pixels := s.pixels) == s
  {
  }

  /** Frame pixel (lx, ly) lands on the canvas and its bytes include byte i. */
  predicate Hits(v: View, f: FrameInfo, lx: nat, ly: nat, i: nat)
  {
    var x, y := (lx + f.x) % U16, (ly + f.y) % U16;
    x < v.width && y < v.height && Touches(v.format, v.width, x, y, i)
  }

  lemma PaintPixelElsewhere(v: View, t: Surface, f: FrameInfo, b: Brush, lx: nat, ly: nat, i: nat)
    requires Fits(v, t) && Covers(b, lx + ly) && v.buffered && i < |t.frameBuffer|
    requires !Hits(v, f, lx, ly, i)
    ensures PaintPixel(v, t, f, b, lx, ly).frameBuffer[i] == t.frameBuffer[i]
  {
  }

  /** Some pixel among the first `cols` of frame row ly lands on byte i. */
  predicate RowHits(v: View, f: FrameInfo, ly: nat, cols: nat, i: nat)
    decreases cols
  {
    cols > 0 && (RowHits(v, f, ly, cols - 1, i) || Hits(v, f, cols - 1, ly, i))
  }

  /** Some pixel of the first `rows` frame rows lands on byte i. */
  predicate RectHits(v: View, f: FrameInfo, rows: nat, i: nat)
    decreases rows
  {
    rows > 0 && (RectHits(v, f, rows - 1, i) || RowHits(v, f, rows - 1, f.width, i))
  }

  lemma {:induction false} PaintRowElsewhere(v: View, t: Surface, f: FrameInfo, b: Brush, ly: nat, cols: nat, i: nat)
    requires Fits(v, t) && BrushDefined(b, f.width, f.height) && ly < f.height && cols <= f.width
    requires v.buffered && i < |t.frameBuffer| && !RowHits(v, f, ly, cols, i)
    ensures PaintRow(v, t, f, b, ly, cols).frameBuffer[i] == t.frameBuffer[i]
    decreases cols
  {
    if cols > 0 {
      var lx := cols - 1;
      PaintRowElsewhere(v, t, f, b, ly, lx, i);
      var prior := PaintRow(v, t, f, b, ly, lx);
      CoversPixel(b, f.width, f.height, lx, ly);
      PaintPixelElsewhere(v, prior, f, b, lx, ly, i);
    }
  }

  /** The painting loops change no byte outside the frame rectangle's pixels: a byte that no
      pixel of the first `rows` rows lands on keeps its value. */
  lemma {:induction false} PaintRowsElsewhere(v: View, t: Surface, f: FrameInfo, b: Brush, rows: nat, i: nat)
    requires Fits(v, t) && BrushDefined(b, f.width, f.height) && rows <= f.height
    requires v.buffered && i < |t.frameBuffer| && !RectHits(v, f, rows, i)
    ensures PaintRows(v, t, f, b, rows).frameBuffer[i] == t.frameBuffer[i]
    decreases rows
  {
    if rows > 0 {
      PaintRowsElsewhere(v, t, f, b, rows - 1, i);
      PaintRowElsewhere(v, PaintRows(v, t, f, b, rows - 1), f, b, rows - 1, f.width, i);
    }
  }

  /** RowHits is "some pixel of the row prefix lands on byte i". */
  lemma {:induction false} RowHitsMeans(v: View, f: FrameInfo, ly: nat, cols: nat, i: nat)
    ensures RowHits(v, f, ly, cols, i) <==> exists lx: nat :: lx < cols && Hits(v, f, lx, ly, i)
    decreases cols
  {
    if cols > 0 {
      RowHitsMeans(v, f, ly, cols - 1, i);
      if Hits(v, f, cols - 1, ly, i) {
        assert exists lx: nat :: lx < cols && Hits(v, f, lx, ly, i);
      }
    }
  }

  /** RectHits is "some pixel of the first rows lands on byte i". */
  lemma {:induction false} RectHitsMeans(v: View, f: FrameInfo, rows: nat, i: nat)
    ensures RectHits(v, f, rows, i) <==> exists lx: nat, ly: nat :: lx < f.width && ly < rows && Hits(v, f, lx, ly, i)
    decreases rows
  {
    if rows > 0 {
      RectHitsMeans(v, f, rows - 1, i);
      RowHitsMeans(v, f, rows - 1, f.width, i);
      if RowHits(v, f, rows - 1, f.width, i) {
        var lx: nat :| lx < f.width && Hits(v, f, lx, rows - 1, i);
        assert exists lx: nat, ly: nat :: lx < f.width && ly < rows && Hits(v, f, lx, ly, i);
      }
      if exists lx: nat, ly: nat :: lx < f.width && ly < rows && Hits(v, f, lx, ly, i) {
        var lx: nat, ly: nat :| lx < f.width && ly < rows && Hits(v, f, lx, ly, i);
        if ly == rows - 1 {
          assert RowHits(v, f, rows - 1, f.width, i);
        } else {
          assert RectHits(v, f, rows - 1, i);
        }
      }
    }
  }

  /** Disposal methods other than 2 and 3 leave the frame buffer as it is; afterwards the
      previous frame is a copy of it. */
  lemma OtherDisposalKeepsFrame(s: Session)
    requires Coherent(s) && DisposalDefined(s) && s.frame.disposal != 2 && s.frame.disposal != 3
    ensures var r := DisposalStep(s);
      r.frameBuffer == s.frameBuffer && r.pixels == s.pixels && (r.buffers ==> r.previousFrame == s.frameBuffer)
  {
  }

  /** Restore-to-previous with both buffers: the frame buffer becomes the saved frame, which
      stays saved. */
  lemma RestorePreviousCopiesBack(s: Session)
    requires Coherent(s) && DisposalDefined(s) && s.frame.disposal == 3 && s.buffers
    ensures var r := DisposalStep(s); r.frameBuffer == s.previousFrame && r.previousFrame == s.previousFrame
  {
  }

  /** Restore-to-background without a global table, or with a background index outside it,
      paints nothing. */
  lemma BackgroundOutsideTableKeepsFrame(s: Session)
    requires Coherent(s) && DisposalDefined(s) && s.frame.disposal == 2
    requires |s.tables.global| == 0 || s.background as nat >= s.tables.globalSize
    ensures var r := DisposalStep(s);
      r.frameBuffer == s.frameBuffer && r.pixels == s.pixels && (r.buffers ==> r.previousFrame == s.frameBuffer)
  {
  }

  /** Restore-to-background repaints only the frame rectangle: every byte no frame pixel
      lands on keeps its value, and the previous frame is a copy of the result. */
  lemma BackgroundRepaintsOnlyFrame(s: Session, i: nat)
    requires Coherent(s) && DisposalDefined(s) && PaintsBackground(s) && s.buffers && i < |s.frameBuffer|
    requires forall lx: nat, ly: nat :: lx < s.frame.width && ly < s.frame.height ==> !Hits(ViewOf(s), s.frame, lx, ly, i)
    ensures var r := DisposalStep(s); r.frameBuffer[i] == s.frameBuffer[i] && r.previousFrame == r.frameBuffer
  {
    RectHitsMeans(ViewOf(s), s.frame, s.frame.height, i);
    PaintRowsElsewhere(ViewOf(s), SurfaceOf(s), s.frame, BackgroundBrush(s), s.frame.height, i);
  }

  /** fillTestPattern, too, paints only the frame rectangle. */
  lemma PatternPaintsOnlyFrame(s: Session, i: nat)
    requires Coherent(s) && TestPatternDefined(s) && i < |s.frameBuffer|
    requires forall lx: nat, ly: nat :: lx < s.frame.width && ly < s.frame.height ==> !Hits(ViewOf(s), s.frame, lx, ly, i)
    ensures FillPatternStep(s).frameBuffer[i] == s.frameBuffer[i]
  {
    if |PatternTable(s)| > 0 && s.buffers {
      RectHitsMeans(ViewOf(s), s.frame, s.frame.height, i);
      PaintRowsElsewhere(ViewOf(s), SurfaceOf(s), s.frame, PatternBrush(s), s.frame.height, i);
    }
  }
}
