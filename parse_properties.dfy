/** What parseFrame's walk promises: stray bytes are passed one at a time, the trailer and
    the end of the data are EMPTY_FRAME, a graphic-control block sets the timing and
    transparency fields, and an image descriptor sets the frame rectangle and the local
    colour table. */
module ParseProperties {
  import opened GifTypes
  import opened StreamReader
  import opened FrameParser
  import opened DecoderState
  import opened DecoderSteps

  /** A byte that is none of the three tags is stepped over on its own. */
  lemma WalkSkipsStrayByte(data: seq<byte>, pos: nat, fr: FrameInfo, lt: seq<byte>, ls: nat)
    requires pos < |data| && data[pos] != 0x21 && data[pos] != 0x2C && data[pos] != 0x3B
    ensures ParseFrameFrom(data, pos, fr, lt, ls) == ParseFrameFrom(data, pos + 1, fr, lt, ls)
  {
  }

  /** The trailer, or the end of the data, ends the walk with EMPTY_FRAME where it stands. */
  lemma WalkStopsAtTrailer(data: seq<byte>, pos: nat, fr: FrameInfo, lt: seq<byte>, ls: nat)
    requires pos >= |data| || data[pos] == 0x3B
    ensures ParseFrameFrom(data, pos, fr, lt, ls) == FrameParse(false, EmptyFrame, pos, fr, lt, ls)
  {
  }

  /** A graphic-control block whose five bytes after the label are there: disposal method,
      transparency flag, delay and transparent index are taken from them, and the walk goes
      on after the block's sub-blocks (or stops with EARLY_EOF when they run out). */
  lemma WalkReadsGce(data: seq<byte>, pos: nat, fr: FrameInfo, lt: seq<byte>, ls: nat)
    requires pos + 7 <= |data| && data[pos] == 0x21 && data[pos + 1] == 0xF9
    ensures var fr2 := ApplyGce(fr, data[pos + 2], data[pos + 3], data[pos + 4], data[pos + 5]);
      var skip := SkipSubBlocks(data, pos + 7);
      fr2.disposal == (data[pos + 2] as nat / 4) % 8 && fr2.hasTransparency == (data[pos + 2] % 2 == 1)
      && fr2.transparentIndex == data[pos + 5] && fr2.delay >= 20
      && ParseFrameFrom(data, pos, fr, lt, ls)
         == if skip.0 then ParseFrameFrom(data, skip.1, fr2, lt, ls) else FrameParse(false, EarlyEof, skip.1, fr2, lt, ls)
  {
  }

  /** An image descriptor with its nine bytes present: the frame rectangle from the
      little-endian pairs after the tag and the flags from the ninth byte; without a local
      table the walk ends ten bytes on, with one it ends after the table's bytes, which become
      the local table, or reports EARLY_EOF when they are missing. */
  lemma WalkReadsDescriptor(data: seq<byte>, pos: nat, fr: FrameInfo, lt: seq<byte>, ls: nat)
    requires pos + 10 <= |data| && data[pos] == 0x2C
    ensures var r := ParseFrameFrom(data, pos, fr, lt, ls);
      var n := TableSize(data[pos + 9]);
      r.frame.x == Le16(data[pos + 1], data[pos + 2]) && r.frame.y == Le16(data[pos + 3], data[pos + 4])
      && r.frame.width == Le16(data[pos + 5], data[pos + 6]) && r.frame.height == Le16(data[pos + 7], data[pos + 8])
      && r.frame.flags == data[pos + 9]
      && (!HasTable(data[pos + 9]) ==> r.found && r.position == pos + 10 && r.localTable == lt && r.localSize == ls)
      && (HasTable(data[pos + 9]) && pos + 10 + 3 * n <= |data| ==>
            r.found && r.position == pos + 10 + 3 * n && r.localTable == data[pos + 10 .. pos + 10 + 3 * n] && r.localSize == n)
      && (HasTable(data[pos + 9]) && pos + 10 + 3 * n > |data| ==> !r.found && r.error == EarlyEof)
  {
  }

  /** A descriptor cut short is EARLY_EOF at the tag. */
  lemma WalkShortDescriptor(data: seq<byte>, pos: nat, fr: FrameInfo, lt: seq<byte>, ls: nat)
    requires pos < |data| < pos + 10 && data[pos] == 0x2C
    ensures ParseFrameFrom(data, pos, fr, lt, ls) == FrameParse(false, EarlyEof, pos, fr, lt, ls)
  {
  }

  /** parseFrame starts from cleared frame fields, so afterwards the delay is either still
      zero (no graphic-control block was read) or at least 20 ms. */
  lemma ParsedDelayZeroOrAtLeast20(s: Session)
    requires Coherent(s)
    ensures var d := ParseFrameStep(s).0.frame.delay; d == 0 || d >= 20
  {
  }

  /** A frame that parseFrame finds leaves the recorded error alone and the cursor inside the
      data. */
  lemma FoundFrameKeepsError(s: Session)
    requires Coherent(s) && ParseFrameStep(s).1
    ensures ParseFrameStep(s).0.gif == s.gif && ParseFrameStep(s).0.stream.position <= |s.stream.data|
  {
  }
}
