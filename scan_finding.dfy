/** countFrames reads an image descriptor's local-table flag one byte too late, at tag+10
    where parseFrame reads it at tag+9. This module shows a stream on which the two disagree
    about the number of frames, and a pass that reads the flag where parseFrame does, proved
    to count exactly the frames that playback finds. */
module ScanFinding {
  import opened GifTypes
  import opened StreamReader
  import opened FrameScanner
  import opened FrameParser
  import ParseProperties

  /** What playback from a cursor finds: the frames parseFrame finds and decodeFrame gets
      through, and whether the walk ends cleanly at the trailer or the end of the data
      rather than on an EARLY_EOF or a DECODE_ERROR. */
  datatype Playback = Playback(frames: nat, clean: bool)

  /** parseFrame from `pos`, then decodeFrame's code-size byte and sub-block chain, repeated
      until parseFrame finds no frame or decodeFrame fails. */
  function PlayableFrames(data: seq<byte>, pos: nat): (w: Playback)
    decreases |data| - pos
  {
    var p := ParseFrameFrom(data, pos, NoFrame, [], 0);
    if !p.found then Playback(0, p.error == EmptyFrame)
    else if p.position >= |data| then Playback(1, false)
    else
      var skip := SkipSubBlocks(data, p.position + 1);
      if !skip.0 then Playback(1, false)
      else
        var rest := PlayableFrames(data, skip.1);
        Playback(1 + rest.frames, rest.clean)
  }

  /** Where the pass should resume after an image descriptor whose tag is at `tag`: the flag
      byte at tag+9, the local table after the ten descriptor bytes, the code-size byte, then
      the sub-block chain. */
  function IntendedAfterImage(data: seq<byte>, tag: nat): (next: nat)
    requires tag + 10 <= |data|
    ensures next > tag + 10
  {
    var flags := data[tag + 9];
    var codeSize := tag + 10 + (if HasTable(flags) then 3 * TableSize(flags) else 0);
    SkipSubBlocks(data, codeSize + 1).1
  }

  /** countFrames' loop body with the flag read at tag+9; every other block as written. */
  function IntendedBlock(data: seq<byte>, pos: nat): (b: Block)
    requires pos + 1 < |data|
    ensures b.next.Some? ==> b.next.value > pos
  {
    if data[pos] == 0x2C then
      Block(Tally(1, 0), if pos + 10 > |data| then None else Some(IntendedAfterImage(data, pos)))
    else ScanBlock(data, pos)
  }

  /** The corrected pass from cursor `pos`. */
  function IntendedScan(data: seq<byte>, pos: nat): Tally
    decreases |data| - pos
  {
    if pos + 1 >= |data| then Tally(0, 0)
    else
      var b := IntendedBlock(data, pos);
      if b.next.None? then b.add
      else
        var rest := IntendedScan(data, b.next.value);
        Tally(b.add.frames + rest.frames, b.add.duration + rest.duration)
  }

  /** A GIF with one frame: a descriptor with a two-entry local table, one data sub-block
      holding the byte 0x2C, and the trailer. */
  const OneFrameGif: seq<byte> := [0x2C, 0, 0, 0, 0, 1, 0, 1, 0, 0x80, 2, 0, 0, 0, 0, 0, 2, 1, 0x2C, 0, 0x3B]

  /** On that stream countFrames, as written, reads the first table byte as the flag, steps
      into the table and counts the 0x2C inside the image data as a second frame, while
      playback finds one frame and then the trailer. With looping on, the second nextFrame
      therefore does not restart; it meets the trailer and records a sticky EMPTY_FRAME. The
      corrected pass counts one frame. */
  lemma ScanCountsFrameInsideImageData()
    ensures Scan(OneFrameGif, 0).frames == 2
    ensures PlayableFrames(OneFrameGif, 0) == Playback(1, true)
    ensures IntendedScan(OneFrameGif, 0).frames == 1
  {
    ExampleScan();
    ExamplePlayback();
    ExampleIntendedScan();
  }

  /** The pass as written lands on the 0x2C inside the image data. */
  lemma ExampleScan()
    ensures Scan(OneFrameGif, 0).frames == 2
  {
    var d := OneFrameGif;
    assert AfterImage(d, 0) == 12 by {
      assert SkipSubBlocks(d, 11) == (true, 12);
    }
    ScanStep(d, 0);
    ExampleStrayBytes(12);
    ExampleStrayBytes(13);
    ExampleStrayBytes(14);
    ExampleStrayBytes(15);
    ExampleStrayBytes(16);
    ExampleStrayBytes(17);
    assert Scan(d, 18).frames == 1;
  }

  /** Bytes 12 to 17 of the example are stepped over one at a time. */
  lemma ExampleStrayBytes(i: nat)
    requires 12 <= i <= 17
    ensures Scan(OneFrameGif, i) == Scan(OneFrameGif, i + 1)
  {
    var d := OneFrameGif;
    assert d[i] != 0x2C && d[i] != 0x21 && d[i] != 0x3B;
    assert ScanBlock(d, i) == Block(Tally(0, 0), Some(i + 1));
  }

  /** Playback finds the frame, skips its image data and stops at the trailer. */
  lemma ExamplePlayback()
    ensures PlayableFrames(OneFrameGif, 0) == Playback(1, true)
  {
    var d := OneFrameGif;
    ExampleFrame();
    ExampleImageData();
    var e := ParseFrameFrom(d, 20, NoFrame, [], 0);
    assert !e.found && e.error == EmptyFrame by {
      assert d[20] == 0x3B;
    }
    assert PlayableFrames(d, 20) == Playback(0, true);
  }

  /** parseFrame finds the example's descriptor and stops after its local table. */
  lemma ExampleFrame()
    ensures var p := ParseFrameFrom(OneFrameGif, 0, NoFrame, [], 0); p.found && p.position == 16
  {
    var d := OneFrameGif;
    assert d[0] == 0x2C && d[9] == 0x80 && HasTable(d[9]) && TableSize(d[9]) == 2;
    ParseProperties.WalkReadsDescriptor(d, 0, NoFrame, [], 0);
  }

  /** The example's image data: the code-size byte at 16, then one sub-block and the zero
      length byte, ending at 20. */
  lemma ExampleImageData()
    ensures SkipSubBlocks(OneFrameGif, 17) == (true, 20)
  {
    var d := OneFrameGif;
    assert d[17] == 1 && d[19] == 0;
    assert SkipSubBlocks(d, 19) == (true, 20);
  }

  /** The corrected pass skips the table and the image data and counts one frame. */
  lemma ExampleIntendedScan()
    ensures IntendedScan(OneFrameGif, 0).frames == 1
  {
    var d := OneFrameGif;
    assert IntendedAfterImage(d, 0) == 20 by {
      assert HasTable(d[9]) && TableSize(d[9]) == 2;
      ExampleImageData();
    }
    assert IntendedScan(d, 20) == Tally(0, 0);
  }

  /** One parseFrame walk against the corrected pass: when the walk ends at the trailer or
      the end, the pass counts nothing from `pos`; when it finds a frame that decodeFrame gets
      through, the pass counts that frame and goes on where decodeFrame stops. */
  lemma {:induction false} IntendedScanFollowsParse(data: seq<byte>, pos: nat, fr: FrameInfo, lt: seq<byte>, ls: nat)
    requires var p := ParseFrameFrom(data, pos, fr, lt, ls); p.found || p.error == EmptyFrame
    ensures var p := ParseFrameFrom(data, pos, fr, lt, ls);
      (!p.found ==> IntendedScan(data, pos).frames == 0)
      && (p.found && p.position < |data| && SkipSubBlocks(data, p.position + 1).0 ==>
            IntendedScan(data, pos).frames == 1 + IntendedScan(data, SkipSubBlocks(data, p.position + 1).1).frames)
    decreases |data| - pos
  {
    if pos < |data| && data[pos] == 0x21 {
      var next, fr2 := ExtensionStep(data, pos, fr, lt, ls);
      IntendedScanFollowsParse(data, next, fr2, lt, ls);
    } else if pos < |data| && data[pos] == 0x2C {
      DescriptorStep(data, pos, fr, lt, ls);
    } else if pos < |data| && data[pos] != 0x3B {
      assert ParseFrameFrom(data, pos, fr, lt, ls) == ParseFrameFrom(data, pos + 1, fr, lt, ls);
      IntendedScanFollowsParse(data, pos + 1, fr, lt, ls);
    }
  }

  /** An extension block the walk gets through: the walk and the corrected pass both go on
      from the end of its sub-blocks, the pass having counted nothing. */
  lemma ExtensionStep(data: seq<byte>, pos: nat, fr: FrameInfo, lt: seq<byte>, ls: nat) returns (next: nat, fr2: FrameInfo)
    requires pos < |data| && data[pos] == 0x21
    requires var p := ParseFrameFrom(data, pos, fr, lt, ls); p.found || p.error == EmptyFrame
    ensures pos < next
    ensures ParseFrameFrom(data, pos, fr, lt, ls) == ParseFrameFrom(data, next, fr2, lt, ls)
    ensures IntendedScan(data, pos).frames == IntendedScan(data, next).frames
  {
    var q := pos + 2;
    var gce := data[pos + 1] == 0xF9;
    fr2 := if gce then ApplyGce(fr, data[q], data[q + 1], data[q + 2], data[q + 3]) else fr;
    var skip := SkipSubBlocks(data, if gce then q + 5 else q);
    next := skip.1;
    assert IntendedBlock(data, pos) == Block(Tally(0, if gce then ScannedDelay(Le16(data[q + 1], data[q + 2])) else 0), Some(next));
  }

  /** An image descriptor the walk finds: the corrected pass counts it and resumes where
      decodeFrame stops. */
  lemma DescriptorStep(data: seq<byte>, pos: nat, fr: FrameInfo, lt: seq<byte>, ls: nat)
    requires pos < |data| && data[pos] == 0x2C
    ensures var p := ParseFrameFrom(data, pos, fr, lt, ls);
      p.found && p.position < |data| && SkipSubBlocks(data, p.position + 1).0 ==>
        IntendedScan(data, pos).frames == 1 + IntendedScan(data, SkipSubBlocks(data, p.position + 1).1).frames
  {
    var p := ParseFrameFrom(data, pos, fr, lt, ls);
    if p.found && p.position < |data| {
      assert IntendedAfterImage(data, pos) == SkipSubBlocks(data, p.position + 1).1;
    }
  }

  /** The intended property: whenever playback ends cleanly, the corrected pass counts exactly
      the frames playback plays. */
  lemma {:induction false} IntendedScanCountsPlayableFrames(data: seq<byte>, pos: nat)
    requires PlayableFrames(data, pos).clean
    ensures IntendedScan(data, pos).frames == PlayableFrames(data, pos).frames
    decreases |data| - pos
  {
    IntendedScanFollowsParse(data, pos, NoFrame, [], 0);
    var p := ParseFrameFrom(data, pos, NoFrame, [], 0);
    if p.found {
      assert p.position < |data|;
      var skip := SkipSubBlocks(data, p.position + 1);
      assert skip.0;
      var rest := PlayableFrames(data, skip.1);
      assert PlayableFrames(data, pos) == Playback(1 + rest.frames, rest.clean);
      IntendedScanCountsPlayableFrames(data, skip.1);
    }
  }
}
