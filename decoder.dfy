/** The decoder object (ESP32_AnimatedGIF::Impl on the in-memory path). Every method changes
    the fields the way the matching step function changes a snapshot. */
module Decoder {
  import opened GifTypes
  import opened ColorUtils
  import opened StreamReader
  import opened PixelWriter
  import opened FrameScanner
  import opened FrameParser
  import opened Painting
  import opened DecoderState
  import opened DecoderSteps

  class GifDecoder {
    // Data management: the in-memory stream, its recorded length and the read cursor.
    var stream: Stream

    // Whether a pixel callback is set, and every call it has received.
    var pixelCallback: bool
    ghost var emitted: seq<PixelEvent>

    // GIF state: canvas, counters, total duration, looping, pixel format, last error.
    var gif: GifState

    // Frame state: the current frame's descriptor and graphic-control fields, and the
    // background index.
    var frame: FrameInfo
    var backgroundColor: byte

    // Colour tables, as the raw bytes read from the stream.
    var tables: ColorTables

    // Buffers: the frame buffer and the saved copy applyDisposal restores from.
    var frameBuffer: array?<byte>
    var previousFrame: array?<byte>

    ghost function Snap(): Session
      reads this, frameBuffer, previousFrame
    {
      Session(stream, gif, frame, backgroundColor, tables, frameBuffer != null,
              if frameBuffer != null then frameBuffer[..] else [],
              if previousFrame != null then previousFrame[..] else [],
              pixelCallback, emitted)
    }

    ghost predicate Valid()
      reads this, frameBuffer, previousFrame
    {
      Coherent(Snap()) && (frameBuffer == null <==> previousFrame == null)
      && (frameBuffer != null ==> frameBuffer != previousFrame)
    }

    constructor ()
      ensures Valid() && Snap() == Initial
    {
      stream := Stream([], 0, 0);
      pixelCallback, emitted := false, [];
      gif := GifState(0, 0, 0, 0, 0, true, Rgb565Le, Success);
      frame, backgroundColor := NoFrame, 0;
      tables := NoTables;
      frameBuffer, previousFrame := null, null;
    }

    method SetLoop(on: bool)
      requires Valid()
      modifies this`gif
      ensures Valid() && Snap() == old(Snap()).(gif := old(gif).(loop := on))
    {
      gif := gif.(loop := on);
    }

    method SetPixelCallback(present: bool)
      requires Valid()
      modifies this`pixelCallback
      ensures Valid() && Snap() == old(Snap()).(pixelCallback := present)
    {
      pixelCallback := present;
    }

    method IsAnimationComplete() returns (done: bool)
      requires Valid()
      ensures done <==> !gif.loop && gif.currentFrame >= gif.totalFrames
      ensures done <==> Exhausted(Snap())
    {
      done := !gif.loop && gif.currentFrame >= gif.totalFrames;
    }

    /** resetFrameState. */
    method ResetFrameState()
      modifies this`frame
      ensures Snap() == old(Snap()).(frame := NoFrame)
    {
      frame := NoFrame;
    }

    method ResetState()
      requires stream.Coherent()
      modifies this
      ensures Valid() && Snap() == ResetStateStep(old(Snap()))
    {
      gif := gif.(canvasWidth := 0, canvasHeight := 0, currentFrame := 0, totalFrames := 0, totalDuration := 0);
      ResetFrameState();
      tables := NoTables;
      frameBuffer, previousFrame := null, null;
    }

    method Cleanup()
      requires Valid()
      modifies this
      ensures Valid() && Snap() == CleanupStep(old(Snap()))
    {
      stream := stream.(data := []);
      tables := NoTables;
      frameBuffer, previousFrame := null, null;
      ResetState();
    }

    method Begin(format: PixelFormat) returns (ok: bool)
      requires Valid()
      modifies this
      ensures Valid() && Snap() == BeginStep(old(Snap()), format) && ok
    {
      gif := gif.(format := format);
      ResetState();
      gif := gif.(lastError := Success);
      ok := true;
    }

    method ResetFrameBuffer()
      requires Valid()
      modifies frameBuffer, previousFrame
      ensures Valid() && Snap() == ClearBuffersStep(old(Snap()))
    {
      if frameBuffer != null && previousFrame != null {
        var size := BufferSize(gif.canvasWidth, gif.canvasHeight, gif.format);
        forall i | 0 <= i < size {
          frameBuffer[i] := 0;
        }
        forall i | 0 <= i < size {
          previousFrame[i] := 0;
        }
        ZerosAre(frameBuffer[..]);
        ZerosAre(previousFrame[..]);
      }
    }

    method AllocateFrameBuffer()
      requires Valid() && CanvasFromHeader(Snap())
      modifies this`frameBuffer, this`previousFrame
      ensures Valid() && Snap() == AllocateStep(old(Snap()))
      ensures frameBuffer != null ==> fresh(frameBuffer) && fresh(previousFrame)
    {
      var size := BufferSize(gif.canvasWidth, gif.canvasHeight, gif.format);
      if size == 0 {
        frameBuffer, previousFrame := null, null;
      } else {
        var fb := new byte[size](_ => 0);
        var pf := new byte[size](_ => 0);
        ZerosAre(fb[..]);
        ZerosAre(pf[..]);
        frameBuffer, previousFrame := fb, pf;
      }
    }

    /** The part of the state drawPixel reads. */
    ghost function CanvasView(): View
      reads this
    {
      View(gif.canvasWidth, gif.canvasHeight, gif.format, frameBuffer != null, pixelCallback)
    }

    /** The part of the state drawPixel changes. */
    ghost function Surf(): Surface
      reads this, frameBuffer
    {
      Surface(if frameBuffer != null then frameBuffer[..] else [], emitted)
    }

    /** drawPixel's own requirement: an allocated frame buffer has the size the canvas and
        the pixel format call for. */
    ghost predicate Drawable()
      reads this
    {
      frameBuffer != null ==> frameBuffer.Length == BufferSize(gif.canvasWidth, gif.canvasHeight, gif.format)
    }

    method DrawPixel(x: nat, y: nat, c: Rgb)
      requires Drawable() && x < U16 && y < U16
      modifies this`emitted, frameBuffer
      ensures Surf() == Draw(old(CanvasView()), old(Surf()), x, y, c)
    {
      if x >= gif.canvasWidth || y >= gif.canvasHeight {
        return;
      }
      if pixelCallback {
        emitted := emitted + [PixelEvent(x, y, Rgb565(c.r, c.g, c.b))];
      }
      if frameBuffer != null {
        StorePixel(frameBuffer, gif.format, gif.canvasWidth, gif.canvasHeight, x, y, c);
      }
    }

    /** One iteration of the painting loops: frame pixel (lx, ly) drawn at canvas position
        `(lx + frame.x, ly + frame.y)`, each a uint16_t, unless the brush skips it. */
    method DrawBrushPixel(b: Brush, lx: nat, ly: nat)
      requires Drawable() && Covers(b, lx + ly)
      modifies this`emitted, frameBuffer
      ensures Drawable()
      ensures Surf() == PaintPixel(old(CanvasView()), old(Surf()), frame, b, lx, ly)
    {
      var c := BrushAt(b, lx + ly);
      if c.Some? {
        DrawPixel((lx + frame.x) % U16, (ly + frame.y) % U16, c.value);
      }
    }

    /** One row of the painting loops of fillTestPattern and applyDisposal: frame pixels
        (0, ly) to (cols - 1, ly), each drawn at its canvas position with the brush's colour
        unless the brush skips it. */
    method DrawRow(b: Brush, ly: nat)
      requires Drawable() && BrushDefined(b, frame.width, frame.height) && ly < frame.height
      modifies this`emitted, frameBuffer
      ensures Drawable()
      ensures Surf() == PaintRow(old(CanvasView()), old(Surf()), frame, b, ly, frame.width)
    {
      ghost var v, t0 := CanvasView(), Surf();
      var x := 0;
      while x < frame.width
        invariant x <= frame.width && Drawable() && CanvasView() == v
        invariant Surf() == PaintRow(v, t0, frame, b, ly, x)
      {
        CoversPixel(b, frame.width, frame.height, x, ly);
        DrawBrushPixel(b, x, ly);
        x := x + 1;
      }
    }

    /** The two nested loops of fillTestPattern and applyDisposal over the frame rectangle. */
    method DrawRect(b: Brush)
      requires Drawable() && BrushDefined(b, frame.width, frame.height)
      modifies this`emitted, frameBuffer
      ensures Drawable()
      ensures Surf() == PaintRows(old(CanvasView()), old(Surf()), frame, b, frame.height)
    {
      ghost var v, t0 := CanvasView(), Surf();
      var y := 0;
      while y < frame.height
        invariant y <= frame.height && Drawable() && CanvasView() == v
        invariant Surf() == PaintRows(v, t0, frame, b, y)
      {
        DrawRow(b, y);
        y := y + 1;
      }
    }

    /** fillTestPattern: with a colour table and a frame buffer, every frame pixel (x, y) gets
        table entry `(x + y) % localSize`, unless that entry is the transparent one. */
    method FillTestPattern()
      requires Valid() && TestPatternDefined(Snap())
      modifies this`emitted, frameBuffer
      ensures Valid() && Snap() == FillPatternStep(old(Snap()))
    {
      var colorTable := if |tables.local| > 0 then tables.local else tables.global;
      if |colorTable| == 0 || frameBuffer == null {
        return;
      }
      ghost var s0 := Snap();
      DrawRect(Pattern(colorTable, tables.localSize, frame.hasTransparency, frame.transparentIndex));
      assert Snap() == WithSurface(s0, Surf());
    }

    /** applyDisposal: restore-to-background repaints the frame rectangle with the global
        table's background entry, restore-to-previous copies the saved frame back; then the
        frame buffer is saved as the previous frame. */
    method ApplyDisposal()
      requires Valid() && DisposalDefined(Snap())
      modifies this`emitted, frameBuffer, previousFrame
      ensures Valid() && Snap() == DisposalStep(old(Snap()))
    {
      ghost var s0 := Snap();
      if frame.disposal == 2 {
        if |tables.global| > 0 && backgroundColor as nat < tables.globalSize {
          var c := ColorWord(tables.global, backgroundColor as nat);
          DrawRect(Solid(c));
          assert Snap() == WithSurface(s0, Surf());
        }
      } else if frame.disposal == 3 {
        if frameBuffer != null && previousFrame != null {
          CopyBuffer(frameBuffer, previousFrame, BufferSize(gif.canvasWidth, gif.canvasHeight, gif.format));
        }
      }
      assert Snap() == Dispose(s0);
      if frameBuffer != null && previousFrame != null {
        CopyBuffer(previousFrame, frameBuffer, BufferSize(gif.canvasWidth, gif.canvasHeight, gif.format));
      }
    }

    /** parseHeader: the 13-byte header read from offset 0 and its signature checked, then
        the logical screen descriptor. */
    method ParseHeader() returns (e: GifError)
      requires Valid()
      modifies this
      ensures Valid() && Snap() == ParseHeaderStep(old(Snap())) && e == gif.lastError
      ensures frameBuffer == old(frameBuffer) || frameBuffer == null || fresh(frameBuffer)
      ensures previousFrame == old(previousFrame) || previousFrame == null || fresh(previousFrame)
    {
      var header := ReadData(stream.data, 13, 0);
      if header.None? {
        gif := gif.(lastError := FileNotFound);
        return FileNotFound;
      }
      var h := header.value;
      if h[..6] != Gif89a && h[..6] != Gif87a {
        gif := gif.(lastError := BadFileFormat);
        return BadFileFormat;
      }
      e := ParseScreen(h);
    }

    /** The rest of parseHeader, on the 13 header bytes `h`: the canvas size from the logical
        screen descriptor, refused above 800 by 600, the background index, and the global
        colour table when the flags announce one. */
    method ParseScreen(h: seq<byte>) returns (e: GifError)
      requires Valid() && |stream.data| >= 13 && h == stream.data[..13]
      modifies this
      ensures Valid() && Snap() == ScreenStep(old(Snap())) && e == gif.lastError
      ensures frameBuffer == old(frameBuffer) || frameBuffer == null || fresh(frameBuffer)
      ensures previousFrame == old(previousFrame) || previousFrame == null || fresh(previousFrame)
    {
      var width, height := Le16(h[6], h[7]), Le16(h[8], h[9]);
      if width > MaxWidth || height > MaxHeight {
        gif := gif.(canvasWidth := width, canvasHeight := height, lastError := FileTooWide);
        return FileTooWide;
      }
      gif, backgroundColor, stream := gif.(canvasWidth := width, canvasHeight := height), h[11], stream.(position := 13);
      e := ReadTables(h[10]);
    }

    /** parseHeader from the global colour table on: the table when `flags` announces one,
        then the end of parseHeader unless the table read fell short. */
    method ReadTables(flags: byte) returns (e: GifError)
      requires Valid() && CanvasFromHeader(Snap()) && stream.position == 13
      modifies this
      ensures Valid() && Snap() == TablesStep(old(Snap()), flags) && e == gif.lastError
      ensures frameBuffer == old(frameBuffer) || frameBuffer == null || fresh(frameBuffer)
      ensures previousFrame == old(previousFrame) || previousFrame == null || fresh(previousFrame)
    {
      if HasTable(flags) {
        var complete := ReadGlobalTable(flags);
        if !complete {
          return EarlyEof;
        }
      }
      e := CompleteHeader();
    }

    /** The global colour table of parseHeader: `3 * size` zeroed bytes, filled from offset 13;
        a short read is EARLY_EOF. */
    method ReadGlobalTable(flags: byte) returns (complete: bool)
      requires Valid() && CanvasFromHeader(Snap()) && stream.position == 13
      modifies this`gif, this`tables, this`stream
      ensures Valid() && (Snap(), complete) == GlobalTableStep(old(Snap()), flags)
    {
      var n := TableSize(flags);
      var table := ReadData(stream.data, 3 * n, stream.position);
      if table.None? {
        gif, tables := gif.(lastError := EarlyEof), tables.(globalSize := n, global := Zeros(3 * n));
        return false;
      }
      tables, stream := tables.(globalSize := n, global := table.value), stream.(position := stream.position + 3 * n);
      return true;
    }

    /** The end of parseHeader: countFrames from the cursor, the cursor put just after the
        global colour table, allocateFrameBuffer, SUCCESS. */
    method CompleteHeader() returns (e: GifError)
      requires Valid() && CanvasFromHeader(Snap())
      modifies this
      ensures Valid() && Snap() == FinishHeader(old(Snap())) && e == gif.lastError
      ensures frameBuffer == null || fresh(frameBuffer)
      ensures previousFrame == null || fresh(previousFrame)
    {
      var frames, duration := CountPass(stream.data, stream.length, stream.position);
      gif, stream := gif.(totalFrames := frames, totalDuration := duration, lastError := Success),
                     stream.(position := 13 + 3 * tables.globalSize);
      AllocateFrameBuffer();
      return Success;
    }

    /** parseFrame: the frame fields cleared, then the walk from the cursor; the cursor, the
        frame fields and the local colour table are left where the walk leaves them, and a
        walk that finds no image descriptor records its error. */
    method ParseFrame() returns (found: bool)
      requires Valid()
      modifies this
      ensures Valid() && (Snap(), found) == ParseFrameStep(old(Snap()))
      ensures frameBuffer == old(frameBuffer) && previousFrame == old(previousFrame)
    {
      ResetFrameState();
      var r := WalkFrame(stream.data, stream.length, stream.position, frame, tables.local, tables.localSize);
      stream, frame, tables := stream.(position := r.position), r.frame, tables.(local := r.localTable, localSize := r.localSize);
      if !r.found {
        gif := gif.(lastError := r.error);
      }
      found := r.found;
    }

    /** decodeFrame: the LZW minimum-code-size byte and the image's sub-blocks skipped, a
        byte that cannot be read being a DECODE_ERROR, then fillTestPattern. */
    method DecodeFrame() returns (ok: bool)
      requires Valid() && DecodeDefined(Snap())
      modifies this, frameBuffer
      ensures Valid() && (Snap(), ok) == DecodeFrameStep(old(Snap()))
      ensures frameBuffer == old(frameBuffer) && previousFrame == old(previousFrame)
    {
      var complete, next := SkipImageData(stream.data, stream.position);
      stream := stream.(position := next);
      if !complete {
        gif := gif.(lastError := DecodeError);
        return false;
      }
      FillTestPattern();
      return true;
    }

    /** reset: cursor and frame counter back to zero, both buffers cleared, and the header
        parsed again (its result is not looked at). */
    method Reset()
      requires Valid()
      modifies this, frameBuffer, previousFrame
      ensures Valid() && Snap() == ResetStep(old(Snap()))
      ensures frameBuffer == old(frameBuffer) || frameBuffer == null || fresh(frameBuffer)
      ensures previousFrame == old(previousFrame) || previousFrame == null || fresh(previousFrame)
    {
      stream := stream.(position := 0);
      gif := gif.(currentFrame := 0);
      ResetFrameBuffer();
      var _ := ParseHeader();
    }

    /** nextFrame without its optional delay: a recorded error is returned as it is; with
        every counted frame played it restarts when looping and otherwise records
        EMPTY_FRAME; then parseFrame, decodeFrame and applyDisposal, and the frame counter
        moves on. */
    method NextFrame() returns (e: GifError)
      requires Valid() && AdvanceDefined(Snap())
      modifies this, frameBuffer, previousFrame
      ensures Valid() && (Snap(), e) == NextFrameStep(old(Snap()))
    {
      if gif.lastError != Success {
        return gif.lastError;
      }
      if gif.currentFrame >= gif.totalFrames && gif.loop {
        Reset();
      } else if gif.currentFrame >= gif.totalFrames {
        gif := gif.(lastError := EmptyFrame);
        return EmptyFrame;
      }
      e := PlayFrame();
    }

    /** The rest of nextFrame: parseFrame, decodeFrame and applyDisposal, each returning the
        error it records when it fails, and the frame counter moved on. */
    method PlayFrame() returns (e: GifError)
      requires Valid() && PlayDefined(Snap())
      modifies this, frameBuffer, previousFrame
      ensures Valid() && (Snap(), e) == PlayStep(old(Snap()))
    {
      var found := ParseFrame();
      if !found {
        return gif.lastError;
      }
      e := DecodeAndDispose();
    }

    /** decodeFrame, then applyDisposal and the frame counter moved on. */
    method DecodeAndDispose() returns (e: GifError)
      requires Valid() && DecodeDefined(Snap())
      requires DecodeFrameStep(Snap()).1 ==> DisposalDefined(DecodeFrameStep(Snap()).0)
      modifies this, frameBuffer, previousFrame
      ensures Valid() && var d := DecodeFrameStep(old(Snap()));
        (Snap(), e) == if !d.1 then (d.0, d.0.gif.lastError)
                       else (DisposalStep(d.0).(gif := DisposalStep(d.0).gif.(currentFrame := (DisposalStep(d.0).gif.currentFrame + 1) % U16)), Success)
    {
      var decoded := DecodeFrame();
      if !decoded {
        return gif.lastError;
      }
      ApplyDisposal();
      gif := gif.(currentFrame := (gif.currentFrame + 1) % U16);
      return Success;
    }

    /** loadFromMemory: cleanup, an empty input refused with INVALID_PARAMETER, otherwise
        the bytes copied in as the stream, the cursor at zero and the header parsed. */
    method LoadFromMemory(input: seq<byte>) returns (e: GifError)
      requires Valid() && |input| < U32
      modifies this
      ensures Valid() && Snap() == LoadStep(old(Snap()), input) && e == gif.lastError
    {
      Cleanup();
      if |input| == 0 {
        gif := gif.(lastError := InvalidParameter);
        return InvalidParameter;
      }
      stream := Stream(input, |input|, 0);
      e := ParseHeader();
    }
  }

  /** decodeFrame's reads: the LZW minimum-code-size byte at `pos`, then the image's
      sub-blocks. The cursor stays put when the first byte cannot be read. */
  method SkipImageData(data: seq<byte>, pos: nat) returns (complete: bool, next: nat)
    ensures complete <==> |data| > 0 && pos < |data| && SkipSubBlocks(data, pos + 1).0
    ensures next == if |data| == 0 || pos >= |data| then pos else SkipSubBlocks(data, pos + 1).1
  {
    var codeSize := ReadData(data, 1, pos);
    if codeSize.None? {
      return false, pos;
    }
    complete, next := SkipChain(data, pos + 1);
  }

  /** parseFrame's loop over the stream data (recorded length `length`) from cursor `pos`,
      with frame fields `fr` and local colour table `lt` of `ls` entries: one tag at a time,
      an extension, an image descriptor, the trailer (EMPTY_FRAME) or a stray byte stepped
      over. Running out of data is EMPTY_FRAME, a failed read EARLY_EOF. */
  method WalkFrame(data: seq<byte>, length: nat, pos: nat, fr: FrameInfo, lt: seq<byte>, ls: nat)
    returns (r: FrameParse)
    requires |data| > 0 ==> length == |data|
    ensures |data| > 0 ==> r == ParseFrameFrom(data, pos, fr, lt, ls)
    ensures |data| == 0 ==> r == FrameParse(false, if pos < length then EarlyEof else EmptyFrame, pos, fr, lt, ls)
  {
    var position, frame := pos, fr;
    while position < length
      invariant |data| > 0 ==> ParseFrameFrom(data, position, frame, lt, ls) == ParseFrameFrom(data, pos, fr, lt, ls)
      invariant |data| == 0 ==> position == pos && frame == fr
      decreases length - position
    {
      var block := ReadData(data, 1, position);
      if block.None? {
        return FrameParse(false, EarlyEof, position, frame, lt, ls);
      }
      if block.value[0] == 0x21 {
        var complete;
        complete, position, frame := WalkExtension(data, position, frame, lt, ls);
        if !complete {
          return FrameParse(false, EarlyEof, position, frame, lt, ls);
        }
      } else if block.value[0] == 0x2C {
        r := WalkDescriptor(data, position, frame, lt, ls);
        return;
      } else if block.value[0] == 0x3B {
        return FrameParse(false, EmptyFrame, position, frame, lt, ls);
      } else {
        position := position + 1;
      }
    }
    return FrameParse(false, EmptyFrame, position, frame, lt, ls);
  }

  /** parseFrame on a 0x21 tag at `pos`: the label read; for a graphic-control label (0xF9)
      the five bytes after it give the disposal method (bits 2-4 of the first), the
      transparency flag (bit 0), the delay (`second | third << 8`, times ten, in a uint16_t,
      at least 20) and the transparent index (fourth); then the sub-blocks are skipped.
      False on a short read. */
  method WalkExtension(data: seq<byte>, pos: nat, fr: FrameInfo, lt: seq<byte>, ls: nat)
    returns (complete: bool, next: nat, fr2: FrameInfo)
    requires pos < |data| && data[pos] == 0x21
    ensures var walk := ParseFrameFrom(data, pos, fr, lt, ls);
      if complete then next > pos && walk == ParseFrameFrom(data, next, fr2, lt, ls)
      else walk == FrameParse(false, EarlyEof, next, fr2, lt, ls)
  {
    next, fr2 := pos + 1, fr;
    var block := ReadData(data, 1, next);
    if block.None? {
      return false, next, fr2;
    }
    var extensionType := block.value[0];
    next := next + 1;
    if extensionType == 0xF9 {
      block := ReadData(data, 5, next);
      if block.None? {
        return false, next, fr2;
      }
      var packed := block.value[0];
      var delay := (Le16(block.value[1], block.value[2]) * 10) % U16;
      if delay < 20 {
        delay := 20;
      }
      fr2 := fr2.(disposal := DisposalField(packed), hasTransparency := TransparencyFlag(packed),
                  delay := delay, transparentIndex := block.value[3]);
      next := next + 5;
    }
    complete, next := SkipChain(data, next);
  }

  /** parseFrame on a 0x2C tag at `pos`: the nine bytes after the tag give x, y, width and
      height (little-endian) and the flags; the cursor moves ten bytes on; a flagged local
      colour table is allocated zeroed and read from the cursor. Not found on a short read. */
  method WalkDescriptor(data: seq<byte>, pos: nat, fr: FrameInfo, lt: seq<byte>, ls: nat)
    returns (r: FrameParse)
    requires pos < |data| && data[pos] == 0x2C
    ensures r == ParseFrameFrom(data, pos, fr, lt, ls)
  {
    var descriptor := ReadData(data, 9, pos + 1);
    if descriptor.None? {
      return FrameParse(false, EarlyEof, pos, fr, lt, ls);
    }
    var d := descriptor.value;
    var fr2 := fr.(x := Le16(d[0], d[1]), y := Le16(d[2], d[3]),
                   width := Le16(d[4], d[5]), height := Le16(d[6], d[7]), flags := d[8]);
    var next := pos + 10;
    if HasTable(fr2.flags) {
      var n := TableSize(fr2.flags);
      var table := ReadData(data, 3 * n, next);
      if table.None? {
        return FrameParse(false, EarlyEof, next, fr2, Zeros(3 * n), n);
      }
      return FrameParse(true, Success, next + 3 * n, fr2, table.value, n);
    }
    return FrameParse(true, Success, next, fr2, lt, ls);
  }

  /** countFrames' loop over the stream data (recorded length `length`) from `position`:
      image descriptors counted in a uint16_t, graphic-control delays of at least two
      hundredths added in a uint32_t, up to the trailer or the end of the data. The loop runs
      while the cursor is below `_dataLength - 1`, a uint32_t difference. */
  method CountPass(data: seq<byte>, length: nat, position: nat) returns (frames: nat, duration: nat)
    requires (|data| > 0 ==> length == |data|) && length < U32
    ensures frames == Scan(data, position).frames % U16
    ensures duration == Scan(data, position).duration % U32
  {
    var pos := position;
    ghost var doneFrames: nat, doneDuration: nat := 0, 0;
    frames, duration := 0, 0;
    var last := (length + U32 - 1) % U32;
    assert |data| > 0 ==> last == |data| - 1;
    while pos < last
      invariant Scan(data, position).frames == doneFrames + Scan(data, pos).frames
      invariant Scan(data, position).duration == doneDuration + Scan(data, pos).duration
      invariant frames == doneFrames % U16 && duration == doneDuration % U32
      decreases |data| - pos
    {
      var b := ScanOne(data, length, pos);
      if |data| > 0 {
        ScanStep(data, pos);
      }
      frames := WrapAdd(frames, b.add.frames, U16, doneFrames);
      duration := WrapAdd(duration, b.add.duration, U32, doneDuration);
      doneFrames, doneDuration := doneFrames + b.add.frames, doneDuration + b.add.duration;
      if b.next.None? {
        return;
      }
      pos := b.next.value;
    }
  }

  /** `acc + add` in a counter field of modulus m, for a counter holding `done` reduced
      modulo m. */
  method WrapAdd(acc: nat, add: nat, m: nat, ghost done: nat) returns (r: nat)
    requires m > 0 && acc == done % m
    ensures r == (done + add) % m
  {
    WrapStep(acc, done, add, m);
    r := (acc + add) % m;
  }

  /** The body of countFrames' loop at cursor `pos`, below `_dataLength - 1`: one block
      examined, what it adds to the totals, and where the loop goes on (None for a break). */
  method ScanOne(data: seq<byte>, length: nat, pos: nat) returns (b: Block)
    requires (|data| > 0 ==> length == |data|) && length < U32
    requires pos < (length + U32 - 1) % U32
    ensures |data| == 0 ==> b == Block(Tally(0, 0), None)
    ensures |data| > 0 ==> pos + 1 < |data| && b == ScanBlock(data, pos)
  {
    var block := ReadData(data, 1, pos);
    if block.None? {
      return Block(Tally(0, 0), None);
    }
    if block.value[0] == 0x2C {
      var p := pos + 10;
      block := ReadData(data, 1, p);
      if block.None? {
        return Block(Tally(1, 0), None);
      }
      if HasTable(block.value[0]) {
        p := p + TableSize(block.value[0]) * 3 + 1;
      } else {
        p := p + 1;
      }
      var _, next := SkipChain(data, p);
      return Block(Tally(1, 0), Some(next));
    } else if block.value[0] == 0x21 {
      var p := pos + 1;
      block := ReadData(data, 1, p);
      if block.None? {
        // unreachable: the loop condition keeps the byte after the cursor inside the data
        assert false;
      }
      var extensionType := block.value[0];
      p := p + 1;
      var add := Tally(0, 0);
      if extensionType == 0xF9 {
        block := ReadData(data, 5, p);
        if block.None? {
          return Block(Tally(0, 0), None);
        }
        var delay := Le16(block.value[1], block.value[2]);
        if delay < 2 {
          delay := 2;
        }
        add := Tally(0, delay * 10);
        p := p + 5;
      }
      var _, next := SkipChain(data, p);
      return Block(add, Some(next));
    } else if block.value[0] == 0x3B {
      return Block(Tally(0, 0), None);
    } else {
      return Block(Tally(0, 0), Some(pos + 1));
    }
  }

  /** The sub-block loops of countFrames, parseFrame and decodeFrame: read a length byte,
      step over it and its payload, stop after a zero length byte or at a byte that cannot be
      read. */
  method SkipChain(data: seq<byte>, pos: nat) returns (ok: bool, next: nat)
    ensures (ok, next) == SkipSubBlocks(data, pos)
  {
    next := pos;
    while true
      invariant SkipSubBlocks(data, next) == SkipSubBlocks(data, pos)
      decreases |data| - next
    {
      var block := ReadData(data, 1, next);
      if block.None? {
        return false, next;
      }
      var subBlockSize := block.value[0];
      next := next + 1;
      if subBlockSize == 0 {
        return true, next;
      }
      next := next + subBlockSize as nat;
    }
  }

  /** memcpy of `size` bytes between two distinct buffers of that size. */
  method CopyBuffer(dst: array<byte>, src: array<byte>, size: nat)
    requires dst != src && dst.Length == size && src.Length == size
    modifies dst
    ensures dst[..] == src[..]
  {
    forall i | 0 <= i < size {
      dst[i] := src[i];
    }
  }

  /** The frame-buffer half of drawPixel, for a pixel on the canvas: the pixel's bytes at
      offset `y * w + x` times the bytes per pixel, or one bit of byte `(offset / 8) % 256`. */
  method StorePixel(buffer: array<byte>, f: PixelFormat, w: nat, h: nat, x: nat, y: nat, c: Rgb)
    requires x < w && y < h && buffer.Length == BufferSize(w, h, f)
    modifies buffer
    ensures buffer[..] == Plot(old(buffer[..]), f, w, h, x, y, c)
  {
    ghost var before := buffer[..];
    PlotUnfold(before, f, w, h, x, y, c);
    var offset := y * w + x;
    if f == Monochrome1 {
      var gray := Grayscale(c.r, c.g, c.b);
      var bitPosition := x % 8;
      var byteOffset := (offset / 8) % 256;
      buffer[byteOffset] := SetBit(buffer[byteOffset], 7 - bitPosition, gray > 127);
    } else {
      var bytes := PixelBytes(f, c);
      ghost var start := SpanStart(f, w, x, y);
      assert start == offset * BytesPerPixel(f);
      StoreWrites(before, start, bytes);
      match f {
        case Rgb565Le =>
          assert start == offset * 2;
          buffer[offset * 2] := bytes[0];
          buffer[offset * 2 + 1] := bytes[1];
        case Rgb565Be =>
          assert start == offset * 2;
          buffer[offset * 2] := bytes[0];
          buffer[offset * 2 + 1] := bytes[1];
        case Rgb888 =>
          assert start == offset * 3;
          buffer[offset * 3] := bytes[0];
          buffer[offset * 3 + 1] := bytes[1];
          buffer[offset * 3 + 2] := bytes[2];
        case Argb8888 =>
          assert start == offset * 4;
          buffer[offset * 4] := bytes[0];
          buffer[offset * 4 + 1] := bytes[1];
          buffer[offset * 4 + 2] := bytes[2];
          buffer[offset * 4 + 3] := bytes[3];
        case Grayscale8 =>
          assert start == offset * 1;
          buffer[offset] := bytes[0];
      }
    }
  }
}
