/** The decoder's whole observable state as one value, and the drawing steps over it:
    drawPixel, the painting loops of fillTestPattern and applyDisposal, the disposal step and
    the buffer (re)allocation. */
module DecoderState {
  import opened GifTypes
  import opened ColorUtils
  import opened StreamReader
  import opened PixelWriter
  import opened Painting

  /** Data management: the in-memory stream (empty when there is none), the recorded stream
      length and the read cursor. */
  datatype Stream = Stream(data: seq<byte>, length: nat, position: nat)
  {
    /** The recorded length is the data's length while there is data, and fits a uint32_t.
        It survives cleanup, which drops the data. */
    predicate Coherent()
    {
      (|data| > 0 ==> length == |data|) && length < U32
    }
  }

  /** GIF state: the canvas, the frame counters, the total duration in milliseconds, looping,
      the pixel format and the last error. */
  datatype GifState = GifState(canvasWidth: nat, canvasHeight: nat, currentFrame: nat, totalFrames: nat,
                               totalDuration: nat, loop: bool, format: PixelFormat, lastError: GifError)
  {
    /** Every counter fits the uint16_t or uint32_t field it models. */
    predicate InRange()
    {
      canvasWidth < U16 && canvasHeight < U16 && currentFrame < U16 && totalFrames < U16 && totalDuration < U32
    }
  }

  /** Colour tables: the raw bytes read from the stream and the number of entries of each;
      an absent table is empty. */
  datatype ColorTables = ColorTables(global: seq<byte>, globalSize: nat, local: seq<byte>, localSize: nat)
  {
    /** Three bytes per entry, at most 256 entries. */
    predicate Coherent()
    {
      |global| == 3 * globalSize && globalSize <= 256 && |local| == 3 * localSize && localSize <= 256
    }
  }

  /** The tables resetState leaves: none at all. */
  const NoTables := ColorTables([], 0, [], 0)

  /** A snapshot of the decoder. `buffers` says whether the two frame buffers are allocated;
      absent buffers are empty sequences. `pixels` is every call the pixel callback has
      received. */
  datatype Session = Session(
    stream: Stream, gif: GifState, frame: FrameInfo, background: byte, tables: ColorTables,
    buffers: bool, frameBuffer: seq<byte>, previousFrame: seq<byte>,
    pixelCallback: bool, pixels: seq<PixelEvent>)
  {
    function WithError(e: GifError): Session
    {
      this.(gif := gif.(lastError := e))
    }

    function At(p: nat): Session
    {
      this.(stream := stream.(position := p))
    }
  }

  /** The canvas size is the one the stream's logical screen descriptor gives, within limits. */
  predicate CanvasFromHeader(s: Session)
  {
    var data := s.stream.data;
    |data| >= 13 && s.gif.canvasWidth == Le16(data[6], data[7]) && s.gif.canvasHeight == Le16(data[8], data[9])
    && s.gif.canvasWidth <= MaxWidth && s.gif.canvasHeight <= MaxHeight
  }

  /** Allocated buffers are two of the size the canvas and pixel format call for; absent ones
      are empty. */
  predicate BuffersCoherent(s: Session)
  {
    (s.buffers ==> CanvasFromHeader(s) && |s.frameBuffer| == BufferSize(s.gif.canvasWidth, s.gif.canvasHeight, s.gif.format)
                   && |s.previousFrame| == |s.frameBuffer| && |s.frameBuffer| > 0)
    && (!s.buffers ==> s.frameBuffer == [] && s.previousFrame == [])
  }

  /** What every reachable state satisfies. */
  predicate Coherent(s: Session)
  {
    s.stream.Coherent() && s.gif.InRange() && s.frame.InRange() && s.tables.Coherent() && BuffersCoherent(s)
  }

  /** The part of a snapshot drawPixel reads. */
  function ViewOf(s: Session): View
  {
    View(s.gif.canvasWidth, s.gif.canvasHeight, s.gif.format, s.buffers, s.pixelCallback)
  }

  /** The part of a snapshot drawPixel changes. */
  function SurfaceOf(s: Session): Surface
  {
    Surface(s.frameBuffer, s.pixels)
  }

  /** A painted surface put back into the snapshot; the shape of the buffer is kept, so the
      snapshot stays coherent. */
  function WithSurface(s: Session, t: Surface): (r: Session)
    requires Coherent(s) && Keeps(ViewOf(s), SurfaceOf(s), t)
    ensures Coherent(r) && SurfaceOf(r) == t && ViewOf(r) == ViewOf(s)
    ensures r.(frameBuffer := s.frameBuffer, pixels := s.pixels) == s
  {
    s.(frameBuffer := t.frameBuffer, pixels := t.pixels)
  }

  /** drawPixel on a snapshot. */
  function DrawPixelStep(s: Session, x: nat, y: nat, c: Rgb): (r: Session)
    requires Coherent(s) && x < U16 && y < U16
    ensures Coherent(r)
  {
    WithSurface(s, Draw(ViewOf(s), SurfaceOf(s), x, y, c))
  }

  /** fillTestPattern's table: the local one if present, else the global one. */
  function PatternTable(s: Session): seq<byte>
  {
    if |s.tables.local| > 0 then s.tables.local else s.tables.global
  }

  /** fillTestPattern always divides by the local table's size, whichever table it reads. */
  function PatternBrush(s: Session): Brush
  {
    Pattern(PatternTable(s), s.tables.localSize, s.frame.hasTransparency, s.frame.transparentIndex)
  }

  /** fillTestPattern's loops read no word outside the table and do not divide by zero. */
  predicate TestPatternDefined(s: Session)
  {
    |PatternTable(s)| == 0 || !s.buffers || BrushDefined(PatternBrush(s), s.frame.width, s.frame.height)
  }

  /** fillTestPattern: with a colour table and a frame buffer, the frame rectangle painted
      row by row with the pattern. */
  function FillPatternStep(s: Session): (r: Session)
    requires Coherent(s) && TestPatternDefined(s)
    ensures Coherent(r)
    ensures r.(frameBuffer := s.frameBuffer, pixels := s.pixels) == s
  {
    if |PatternTable(s)| == 0 || !s.buffers then s
    else WithSurface(s, PaintRows(ViewOf(s), SurfaceOf(s), s.frame, PatternBrush(s), s.frame.height))
  }

  /** applyDisposal's restore-to-background reads one global table word in bounds. */
  predicate DisposalDefined(s: Session)
  {
    s.frame.disposal == 2 && |s.tables.global| > 0 && s.background as nat < s.tables.globalSize ==>
      WordReadable(|s.tables.global|, s.background as nat)
  }

  /** Restore-to-background paints: method 2 with a global table that has the background
      entry. */
  predicate PaintsBackground(s: Session)
  {
    s.frame.disposal == 2 && |s.tables.global| > 0 && s.background as nat < s.tables.globalSize
  }

  /** The background brush of restore-to-background. */
  function BackgroundBrush(s: Session): Brush
    requires WordReadable(|s.tables.global|, s.background as nat)
  {
    Solid(ColorWord(s.tables.global, s.background as nat))
  }

  /** The first half of applyDisposal: method 2 repaints the frame rectangle with the
      background entry of the global table when there is one, method 3 copies the saved
      frame back, any other method does nothing. */
  function Dispose(s: Session): (r: Session)
    requires Coherent(s) && DisposalDefined(s)
    ensures Coherent(r)
    ensures r.(frameBuffer := s.frameBuffer, pixels := s.pixels) == s
  {
    if PaintsBackground(s) then WithSurface(s, PaintRows(ViewOf(s), SurfaceOf(s), s.frame, BackgroundBrush(s), s.frame.height))
    else if s.frame.disposal == 3 && s.buffers then s.(frameBuffer := s.previousFrame)
    else s
  }

  /** applyDisposal: the disposal, then the frame buffer saved as the previous frame. */
  function DisposalStep(s: Session): (r: Session)
    requires Coherent(s) && DisposalDefined(s)
    ensures Coherent(r)
    ensures r.buffers ==> r.previousFrame == r.frameBuffer
    ensures r.(frameBuffer := s.frameBuffer, previousFrame := s.previousFrame, pixels := s.pixels) == s
  {
    var d := Dispose(s);
    if d.buffers then d.(previousFrame := d.frameBuffer) else d
  }

  /** resetFrameBuffer: both buffers cleared when allocated. */
  function ClearBuffersStep(s: Session): (r: Session)
    requires Coherent(s)
    ensures Coherent(r)
    ensures r.buffers == s.buffers && (r.buffers ==> r.frameBuffer == Zeros(|s.frameBuffer|) && r.previousFrame == r.frameBuffer)
    ensures r.(frameBuffer := s.frameBuffer, previousFrame := s.previousFrame) == s
  {
    if s.buffers then
      var size := BufferSize(s.gif.canvasWidth, s.gif.canvasHeight, s.gif.format);
      s.(frameBuffer := Zeros(size), previousFrame := Zeros(size))
    else s
  }

  /** allocateFrameBuffer: two zeroed buffers of the canvas size in the current pixel format;
      none when that size is zero. */
  function AllocateStep(s: Session): (r: Session)
    requires Coherent(s) && CanvasFromHeader(s)
    ensures Coherent(r)
    ensures r.buffers <==> BufferSize(s.gif.canvasWidth, s.gif.canvasHeight, s.gif.format) > 0
    ensures r.buffers ==> r.frameBuffer == Zeros(BufferSize(s.gif.canvasWidth, s.gif.canvasHeight, s.gif.format)) && r.previousFrame == r.frameBuffer
    ensures r.(buffers := s.buffers, frameBuffer := s.frameBuffer, previousFrame := s.previousFrame) == s
  {
    var size := BufferSize(s.gif.canvasWidth, s.gif.canvasHeight, s.gif.format);
    if size == 0 then s.(buffers := false, frameBuffer := [], previousFrame := [])
    else s.(buffers := true, frameBuffer := Zeros(size), previousFrame := Zeros(size))
  }

  /** resetState: the canvas, counters and frame fields back to zero and every table and
      buffer pointer dropped. The stream, the cursor, looping, the format and the last error
      survive. */
  function ResetStateStep(s: Session): (r: Session)
    requires s.stream.Coherent()
    ensures Coherent(r) && !r.buffers
  {
    s.(gif := s.gif.(canvasWidth := 0, canvasHeight := 0, currentFrame := 0, totalFrames := 0, totalDuration := 0),
       frame := NoFrame, tables := NoTables, buffers := false, frameBuffer := [], previousFrame := [])
  }

  /** cleanup: the stream, both colour tables and both buffers released, then resetState.
      The recorded stream length survives. */
  function CleanupStep(s: Session): (r: Session)
    requires Coherent(s)
    ensures Coherent(r) && r.stream.data == [] && !r.buffers
  {
    ResetStateStep(s.(stream := s.stream.(data := []), tables := NoTables, buffers := false, frameBuffer := [], previousFrame := []))
  }

  /** The state the constructor leaves: no stream, looping on, RGB565 little-endian, no error.
      The background index, which the constructor leaves uninitialised, is taken as 0. */
  const Initial: Session := Session(Stream([], 0, 0), GifState(0, 0, 0, 0, 0, true, Rgb565Le, Success),
                                    NoFrame, 0, NoTables, false, [], [], false, [])
}
