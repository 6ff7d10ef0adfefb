/** What nextFrame, reset, isAnimationComplete and loadFromMemory promise, stated over the
    step functions the decoder's methods are proved against. */
module PlaybackProperties {
  import opened GifTypes
  import opened StreamReader
  import opened FrameParser
  import opened DecoderState
  import opened DecoderSteps

  /** A recorded error is sticky: nextFrame returns it and changes nothing. */
  lemma NextFrameKeepsError(s: Session)
    requires Coherent(s) && s.gif.lastError != Success
    ensures AdvanceDefined(s) && NextFrameStep(s) == (s, s.gif.lastError)
  {
  }

  /** Without looping, once every counted frame has been played nextFrame records and
      returns EMPTY_FRAME, and every later call returns it again without changing anything,
      the frame counter included. */
  lemma NextFrameWhenExhausted(s: Session)
    requires Coherent(s) && s.gif.lastError == Success && Exhausted(s)
    ensures AdvanceDefined(s)
    ensures var r := NextFrameStep(s);
      r == (s.WithError(EmptyFrame), EmptyFrame) && r.0.gif.currentFrame == s.gif.currentFrame
      && AdvanceDefined(r.0) && NextFrameStep(r.0) == r
  {
  }

  /** A SUCCESS return moves the frame counter on by exactly one from where the restart left
      it: from the current frame when frames remain, from zero after a restart. The counter
      never wraps here. */
  lemma NextFrameAdvancesByOne(s: Session)
    requires Coherent(s) && AdvanceDefined(s)
    requires NextFrameStep(s).1 == Success
    ensures s.gif.lastError == Success && !Exhausted(s)
    ensures s.gif.currentFrame < s.gif.totalFrames ==>
      NextFrameStep(s).0.gif.currentFrame == s.gif.currentFrame + 1
    ensures s.gif.currentFrame >= s.gif.totalFrames ==> NextFrameStep(s).0.gif.currentFrame == 1
  {
    NextFramePlays(s);
    var t := Restart(s);
    PlayMovesCounter(t);
    var c := t.gif.currentFrame;
    assert c + 1 < U16;
    NoWrap(c);
  }

  /** A uint16_t counter below its largest value does not wrap when incremented. */
  lemma NoWrap(c: nat)
    requires c + 1 < U16
    ensures (c + 1) % U16 == c + 1
  {
  }

  /** With no recorded error and frames left to play (or looping on), nextFrame is the
      restart followed by one frame played. */
  lemma NextFramePlays(s: Session)
    requires Coherent(s) && AdvanceDefined(s)
    requires NextFrameStep(s).1 == Success
    ensures s.gif.lastError == Success && !Exhausted(s)
    ensures PlayDefined(Restart(s)) && NextFrameStep(s) == PlayStep(Restart(s))
    ensures Restart(s).gif.currentFrame == if s.gif.currentFrame < s.gif.totalFrames then s.gif.currentFrame else 0
  {
  }

  /** A frame played to the end changes the GIF state only in the frame counter. */
  lemma PlayMovesCounter(t: Session)
    requires Coherent(t) && PlayDefined(t) && PlayStep(t).1 == Success
    ensures PlayStep(t).0.gif == t.gif.(currentFrame := (t.gif.currentFrame + 1) % U16)
  {
    var parsed := ParseFrameStep(t);
    var decoded := DecodeFrameStep(parsed.0);
    assert DisposalStep(decoded.0).gif == decoded.0.gif;
  }

  /** A failure in parseFrame or decodeFrame returns the error it recorded and leaves the
      frame counter where the restart left it. */
  lemma NextFrameFailureKeepsCounter(s: Session)
    requires Coherent(s) && AdvanceDefined(s) && s.gif.lastError == Success && !Exhausted(s)
    requires NextFrameStep(s).1 != Success
    ensures var r := NextFrameStep(s);
      r.0.gif.lastError == r.1 && r.1 in {EarlyEof, EmptyFrame, DecodeError}
      && r.0.gif.currentFrame == Restart(s).gif.currentFrame
  {
    var t := Restart(s);
    var parsed := ParseFrameStep(t);
    if parsed.1 {
      var decoded := DecodeFrameStep(parsed.0);
      assert !decoded.1;
    }
  }

  /** isAnimationComplete holds exactly when nextFrame can only answer EMPTY_FRAME from a
      state without a recorded error. */
  lemma CompleteMeansEmptyFrame(s: Session)
    requires Coherent(s) && s.gif.lastError == Success
    ensures AdvanceDefined(s) || !Exhausted(s)
    ensures Exhausted(s) ==> NextFrameStep(s).1 == EmptyFrame
  {
  }

  /** reset puts the cursor and the frame counter back to zero before parsing the header
      again, so the header is read from the start of the stream. */
  lemma ResetRereadsHeader(s: Session)
    requires Coherent(s)
    ensures var t := ClearBuffersStep(s.(gif := s.gif.(currentFrame := 0)).At(0));
      t.stream.position == 0 && t.gif.currentFrame == 0 && ResetStep(s) == ParseHeaderStep(t)
  {
  }

  /** loadFromMemory refuses an empty input with INVALID_PARAMETER and otherwise takes the
      bytes as the stream, with the cursor at zero, before parsing the header. */
  lemma LoadTakesInput(s: Session, input: seq<byte>)
    requires Coherent(s) && |input| < U32
    ensures |input| == 0 ==> LoadStep(s, input).gif.lastError == InvalidParameter && LoadStep(s, input).stream.data == []
    ensures |input| > 0 ==> LoadStep(s, input) == ParseHeaderStep(CleanupStep(s).(stream := Stream(input, |input|, 0)))
  {
  }
}
