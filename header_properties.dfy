/** What parseHeader promises: its three refusals, where the global colour table comes from,
    and what a successful parse leaves behind. */
module HeaderProperties {
  import opened GifTypes
  import opened StreamReader
  import opened PixelWriter
  import opened FrameScanner
  import opened DecoderState
  import opened DecoderSteps

  /** A stream too short for the 13-byte header is FILE_NOT_FOUND, and nothing else changes. */
  lemma ShortHeaderNotFound(s: Session)
    requires Coherent(s) && |s.stream.data| < 13
    ensures ParseHeaderStep(s) == s.WithError(FileNotFound)
  {
  }

  /** A header whose first six bytes are neither "GIF89a" nor "GIF87a" is BAD_FILE_FORMAT, and
      nothing else changes. */
  lemma BadSignatureRefused(s: Session)
    requires Coherent(s) && |s.stream.data| >= 13
    requires s.stream.data[..6] != Gif89a && s.stream.data[..6] != Gif87a
    ensures ParseHeaderStep(s) == s.WithError(BadFileFormat)
  {
    assert ReadData(s.stream.data, 13, 0).value[..6] == s.stream.data[..6];
  }

  /** A header with a good signature proceeds to the logical screen descriptor. */
  lemma GoodSignatureProceeds(s: Session)
    requires Coherent(s) && |s.stream.data| >= 13 && IsGifSignature(s.stream.data[..6])
    ensures ParseHeaderStep(s) == ScreenStep(s)
  {
    assert ReadData(s.stream.data, 13, 0).value[..6] == s.stream.data[..6];
  }

  /** A canvas wider than 800 or taller than 600 (little-endian bytes 6-7 and 8-9) is
      FILE_TOO_WIDE; the canvas size is recorded and nothing is read further. */
  lemma WideCanvasRefused(s: Session)
    requires Coherent(s) && |s.stream.data| >= 13
    requires var d := s.stream.data; Le16(d[6], d[7]) > MaxWidth || Le16(d[8], d[9]) > MaxHeight
    ensures var d := s.stream.data;
      ScreenStep(s) == s.(gif := s.gif.(canvasWidth := Le16(d[6], d[7]), canvasHeight := Le16(d[8], d[9]), lastError := FileTooWide))
  {
  }

  /** The canvas passes the size check: the screen step records the canvas size, the
      background index from byte 11 and moves to offset 13 before the tables. */
  lemma ScreenReadsDescriptor(s: Session)
    requires Coherent(s) && |s.stream.data| >= 13
    requires var d := s.stream.data; Le16(d[6], d[7]) <= MaxWidth && Le16(d[8], d[9]) <= MaxHeight
    ensures var d := s.stream.data;
      var s1 := s.(gif := s.gif.(canvasWidth := Le16(d[6], d[7]), canvasHeight := Le16(d[8], d[9])), background := d[11]).At(13);
      CanvasFromHeader(s1) && ScreenStep(s) == TablesStep(s1, d[10])
  {
  }

  /** With bit 7 of the flags set, the global table has `2 ^ ((flags & 7) + 1)` entries and
      is the bytes from offset 13 on; when they are all there the cursor lands after them,
      otherwise the read is EARLY_EOF and the table is left zeroed. */
  lemma GlobalTableFromOffset13(s: Session, flags: byte)
    requires Coherent(s) && CanvasFromHeader(s) && s.stream.position == 13 && HasTable(flags)
    ensures var n := TableSize(flags);
      var r := TablesStep(s, flags);
      var d := s.stream.data;
      n == Pow2(flags as nat % 8 + 1) && r.tables.globalSize == n
      && (13 + 3 * n <= |d| ==> r.tables.global == d[13 .. 13 + 3 * n])
      && (13 + 3 * n > |d| ==> r == s.(tables := s.tables.(globalSize := n, global := Zeros(3 * n))).WithError(EarlyEof))
  {
    var n := TableSize(flags);
    var read := GlobalTableStep(s, flags);
    if read.1 {
      FinishKeepsTables(read.0);
    }
  }

  /** Without a global table the tables are left as they were. */
  lemma NoGlobalTable(s: Session, flags: byte)
    requires Coherent(s) && CanvasFromHeader(s) && s.stream.position == 13 && !HasTable(flags)
    ensures TablesStep(s, flags) == FinishHeader(s)
  {
  }

  /** The end of a successful parseHeader: SUCCESS; countFrames' totals from the cursor,
      wrapped to the field widths; the cursor put just after the global table; two zeroed
      buffers of the canvas size, or none when that size is zero. Nothing else changes. */
  lemma FinishHeaderLeaves(s: Session)
    requires Coherent(s) && CanvasFromHeader(s)
    ensures var r := FinishHeader(s);
      var t := Scan(s.stream.data, s.stream.position);
      var size := BufferSize(s.gif.canvasWidth, s.gif.canvasHeight, s.gif.format);
      r.gif == s.gif.(totalFrames := t.frames % U16, totalDuration := t.duration % U32, lastError := Success)
      && r.stream == s.stream.(position := 13 + 3 * s.tables.globalSize)
      && r.tables == s.tables
      && (r.buffers <==> size > 0)
      && (r.buffers ==> r.frameBuffer == Zeros(size) && r.previousFrame == Zeros(size))
  {
    FinishKeepsTables(s);
  }

  lemma FinishKeepsTables(s: Session)
    requires Coherent(s) && CanvasFromHeader(s)
    ensures FinishHeader(s).tables == s.tables && FinishHeader(s).frame == s.frame
  {
    var c := CountFramesStep(s);
    assert c.tables == s.tables;
    assert AllocateStep(c).tables == c.tables;
  }
}
