/** The decoder's control operations as functions from one snapshot to the next: parseHeader
    with countFrames and allocateFrameBuffer, parseFrame, decodeFrame, reset, nextFrame,
    loadFromMemory and begin. */
module DecoderSteps {
  import opened GifTypes
  import opened StreamReader
  import opened PixelWriter
  import opened FrameScanner
  import opened FrameParser
  import opened Painting
  import opened DecoderState

  /** countFrames: the totals of the pass from the cursor, in a uint16_t and a uint32_t,
      and the cursor put back just after the global colour table. */
  function CountFramesStep(s: Session): (r: Session)
    requires Coherent(s)
    ensures Coherent(r)
    ensures r.stream.position == 13 + 3 * s.tables.globalSize
    ensures r.gif.totalFrames == Scan(s.stream.data, s.stream.position).frames % U16
    ensures r.gif.totalDuration == Scan(s.stream.data, s.stream.position).duration % U32
    ensures r.(stream := s.stream, gif := s.gif) == s
    ensures r.stream.(position := s.stream.position) == s.stream
    ensures r.gif.(totalFrames := s.gif.totalFrames, totalDuration := s.gif.totalDuration) == s.gif
  {
    var t := Scan(s.stream.data, s.stream.position);
    s.(gif := s.gif.(totalFrames := t.frames % U16, totalDuration := t.duration % U32)).At(13 + 3 * s.tables.globalSize)
  }

  /** The end of a successful parseHeader: frames counted, buffers allocated, no error. */
  function FinishHeader(s: Session): (r: Session)
    requires Coherent(s) && CanvasFromHeader(s)
    ensures Coherent(r)
    ensures r.gif.currentFrame == s.gif.currentFrame
  {
    AllocateStep(CountFramesStep(s)).WithError(Success)
  }

  /** The global colour table read of parseHeader: its size from the flags, then its bytes
      read from offset 13 and the cursor moved past them; a short read leaves a zeroed table
      and records EARLY_EOF. The flag says whether the read succeeded. */
  function GlobalTableStep(s: Session, flags: byte): (r: (Session, bool))
    requires Coherent(s) && CanvasFromHeader(s) && s.stream.position == 13
    ensures Coherent(r.0) && CanvasFromHeader(r.0)
    ensures r.0.gif.currentFrame == s.gif.currentFrame
  {
    var n := TableSize(flags);
    match ReadData(s.stream.data, 3 * n, 13)
    case None => (s.(tables := s.tables.(globalSize := n, global := Zeros(3 * n))).WithError(EarlyEof), false)
    case Some(table) => (s.(tables := s.tables.(globalSize := n, global := table)).At(13 + 3 * n), true)
  }

  /** parseHeader from the global colour table on: the table read when the flags announce
      one, then, unless that read fell short, the frames counted and the buffers allocated. */
  function TablesStep(s: Session, flags: byte): (r: Session)
    requires Coherent(s) && CanvasFromHeader(s) && s.stream.position == 13
    ensures Coherent(r)
    ensures r.gif.currentFrame == s.gif.currentFrame
  {
    if !HasTable(flags) then FinishHeader(s)
    else
      var read := GlobalTableStep(s, flags);
      if read.1 then FinishHeader(read.0) else read.0
  }

  /** parseHeader after the signature check, on the logical screen descriptor in bytes 6 to
      11: the canvas size, refused above 800 by 600, then the background index and the global
      colour table flag. */
  function ScreenStep(s: Session): (r: Session)
    requires Coherent(s) && |s.stream.data| >= 13
    ensures Coherent(r)
    ensures r.gif.currentFrame == s.gif.currentFrame
  {
    var data := s.stream.data;
    var width, height := Le16(data[6], data[7]), Le16(data[8], data[9]);
    if width > MaxWidth || height > MaxHeight then
      assert !s.buffers;
      s.(gif := s.gif.(canvasWidth := width, canvasHeight := height, lastError := FileTooWide))
    else
      var s1 := s.(gif := s.gif.(canvasWidth := width, canvasHeight := height), background := data[11]).At(13);
      assert CanvasFromHeader(s1);
      TablesStep(s1, data[10])
  }

  /** parseHeader. The 13-byte header must be readable and start with a GIF signature. */
  function ParseHeaderStep(s: Session): (r: Session)
    requires Coherent(s)
    ensures Coherent(r)
    ensures r.gif.currentFrame == s.gif.currentFrame
  {
    var header := ReadData(s.stream.data, 13, 0);
    if header.None? then s.WithError(FileNotFound)
    else if !IsGifSignature(header.value[..6]) then s.WithError(BadFileFormat)
    else ScreenStep(s)
  }

  /** parseFrame: the frame fields cleared, then the walk from the cursor. Without data the
      walk's first read fails, unless the recorded length stops it before it starts. */
  function ParseFrameStep(s: Session): (r: (Session, bool))
    requires Coherent(s)
    ensures Coherent(r.0)
    ensures !r.1 ==> r.0.gif.lastError == EarlyEof || r.0.gif.lastError == EmptyFrame
    ensures r.1 ==> r.0.gif == s.gif
    ensures r.0.(stream := s.stream, frame := s.frame, tables := s.tables, gif := s.gif) == s
    ensures r.0.stream.(position := s.stream.position) == s.stream
    ensures r.0.tables.(local := s.tables.local, localSize := s.tables.localSize) == s.tables
    ensures r.0.gif.(lastError := s.gif.lastError) == s.gif
  {
    var cleared := s.(frame := NoFrame);
    if |s.stream.data| == 0 then
      (cleared.WithError(if s.stream.position < s.stream.length then EarlyEof else EmptyFrame), false)
    else
      var p := ParseFrameFrom(s.stream.data, s.stream.position, NoFrame, s.tables.local, s.tables.localSize);
      var s1 := cleared.(frame := p.frame, tables := s.tables.(local := p.localTable, localSize := p.localSize)).At(p.position);
      if p.found then (s1, true) else (s1.WithError(p.error), false)
  }

  /** decodeFrame gets as far as painting: the code-size byte and the whole sub-block chain
      after it are readable. */
  predicate DecodeReachesFill(s: Session)
  {
    |s.stream.data| > 0 && s.stream.position < |s.stream.data| && SkipSubBlocks(s.stream.data, s.stream.position + 1).0
  }

  predicate DecodeDefined(s: Session)
  {
    DecodeReachesFill(s) ==> TestPatternDefined(s)
  }

  /** decodeFrame: the LZW code-size byte and the image's sub-blocks skipped, then the test
      pattern painted. A byte that cannot be read is a DECODE_ERROR. */
  function DecodeFrameStep(s: Session): (r: (Session, bool))
    requires Coherent(s) && DecodeDefined(s)
    ensures Coherent(r.0)
    ensures r.1 <==> DecodeReachesFill(s)
    ensures !r.1 ==> r.0.gif.lastError == DecodeError
    ensures r.1 ==> r.0.gif == s.gif
    ensures r.0.(frameBuffer := s.frameBuffer, pixels := s.pixels, stream := s.stream, gif := s.gif) == s
    ensures r.0.stream.(position := s.stream.position) == s.stream
    ensures r.0.gif.(lastError := s.gif.lastError) == s.gif
  {
    if |s.stream.data| == 0 || s.stream.position >= |s.stream.data| then (s.WithError(DecodeError), false)
    else
      var skip := SkipSubBlocks(s.stream.data, s.stream.position + 1);
      if !skip.0 then (s.At(skip.1).WithError(DecodeError), false)
      else (FillPatternStep(s.At(skip.1)), true)
  }

  /** reset: cursor and frame counter to zero, buffers cleared, header parsed again. */
  function ResetStep(s: Session): (r: Session)
    requires Coherent(s)
    ensures Coherent(r)
    ensures r.gif.currentFrame == 0
  {
    ParseHeaderStep(ClearBuffersStep(s.(gif := s.gif.(currentFrame := 0)).At(0)))
  }

  /** The animation has played every counted frame and will not loop. */
  predicate Exhausted(s: Session)
  {
    !s.gif.loop && s.gif.currentFrame >= s.gif.totalFrames
  }

  /** nextFrame's restart: with every counted frame played (and looping on), a reset first. */
  function Restart(s: Session): (r: Session)
    requires Coherent(s)
    ensures Coherent(r)
  {
    if s.gif.currentFrame >= s.gif.totalFrames then ResetStep(s) else s
  }

  /** Every colour-table read and division playing one frame from s would perform is
      defined. */
  predicate PlayDefined(s: Session)
    requires Coherent(s)
  {
    var parsed := ParseFrameStep(s);
    parsed.1 ==>
      DecodeDefined(parsed.0) &&
      (var decoded := DecodeFrameStep(parsed.0);
       decoded.1 ==> DisposalDefined(decoded.0))
  }

  /** Every colour-table read and division nextFrame would perform from s is defined. */
  predicate AdvanceDefined(s: Session)
    requires Coherent(s)
  {
    s.gif.lastError == Success && !Exhausted(s) ==> PlayDefined(Restart(s))
  }

  /** The frame nextFrame plays once it may go on: parseFrame, decodeFrame, applyDisposal,
      and the frame counter moved on in a uint16_t; the first step that fails ends it with
      the error it records. */
  function PlayStep(s: Session): (r: (Session, GifError))
    requires Coherent(s) && PlayDefined(s)
    ensures Coherent(r.0)
  {
    var parsed := ParseFrameStep(s);
    if !parsed.1 then (parsed.0, parsed.0.gif.lastError)
    else
      var decoded := DecodeFrameStep(parsed.0);
      if !decoded.1 then (decoded.0, decoded.0.gif.lastError)
      else
        var disposed := DisposalStep(decoded.0);
        (disposed.(gif := disposed.gif.(currentFrame := (disposed.gif.currentFrame + 1) % U16)), Success)
  }

  /** nextFrame, apart from the optional delay: the result code and the new state. */
  function NextFrameStep(s: Session): (r: (Session, GifError))
    requires Coherent(s) && AdvanceDefined(s)
    ensures Coherent(r.0)
  {
    if s.gif.lastError != Success then (s, s.gif.lastError)
    else if Exhausted(s) then (s.WithError(EmptyFrame), EmptyFrame)
    else PlayStep(Restart(s))
  }

  /** loadFromMemory: cleanup, then an empty input refused, otherwise the stream copied in
      and its header parsed. A null pointer and a zero length are both the empty input. */
  function LoadStep(s: Session, input: seq<byte>): (r: Session)
    requires Coherent(s) && |input| < U32
    ensures Coherent(r)
  {
    var clean := CleanupStep(s);
    if |input| == 0 then clean.WithError(InvalidParameter)
    else ParseHeaderStep(clean.(stream := Stream(input, |input|, 0)))
  }

  /** begin: the pixel format chosen, resetState, and the last error cleared. */
  function BeginStep(s: Session, format: PixelFormat): (r: Session)
    requires Coherent(s)
    ensures Coherent(r)
  {
    ResetStateStep(s.(gif := s.gif.(format := format))).WithError(Success)
  }
}
