/** parseFrame's walk from the cursor to the next image descriptor: graphic-control blocks
    update the frame's timing and transparency, other extensions are skipped, stray bytes are
    passed over one at a time, and the trailer or the end of the data ends the walk. */
module FrameParser {
  import opened GifTypes
  import opened StreamReader

  /** Where the walk ended. `found` is parseFrame's return value; `error` is the error it
      records when it returns false; the rest is the state it leaves behind. */
  datatype FrameParse = FrameParse(found: bool, error: GifError, position: nat, frame: FrameInfo,
                                   localTable: seq<byte>, localSize: nat)

  /** `_frameDelay = d * 10`, stored in a uint16_t, then raised to at least 20 milliseconds. */
  function FrameDelay(d: nat): (ms: nat)
    requires d < U16
    ensures 20 <= ms < U16
    ensures 2 <= d && d * 10 < U16 ==> ms == d * 10
    ensures d < 2 ==> ms == 20
  {
    var wrapped := (d * 10) % U16;
    if wrapped < 20 then 20 else wrapped
  }

  /** A graphic-control block as parseFrame reads it: the five bytes after the 0xF9 label are
      taken as packed field, delay low byte, delay high byte and transparent index. */
  function ApplyGce(fr: FrameInfo, packed: byte, lo: byte, hi: byte, index: byte): (r: FrameInfo)
  {
    fr.(disposal := DisposalField(packed),
        hasTransparency := TransparencyFlag(packed),
        delay := FrameDelay(Le16(lo, hi)),
        transparentIndex := index)
  }

  /** The image descriptor whose 0x2C tag is at `tag`: position and size as little-endian
      16-bit values from the eight bytes after the tag, then the packed flags. */
  function Describe(fr: FrameInfo, data: seq<byte>, tag: nat): (r: FrameInfo)
    requires tag + 10 <= |data|
  {
    fr.(x := Le16(data[tag + 1], data[tag + 2]), y := Le16(data[tag + 3], data[tag + 4]),
        width := Le16(data[tag + 5], data[tag + 6]), height := Le16(data[tag + 7], data[tag + 8]),
        flags := data[tag + 9])
  }

  /** parseFrame's loop from cursor `pos`, with frame fields `fr` and the local colour table
      (`lt`, `ls` entries) left by earlier frames. */
  function ParseFrameFrom(data: seq<byte>, pos: nat, fr: FrameInfo, lt: seq<byte>, ls: nat): (r: FrameParse)
    ensures r.position >= pos
    ensures !r.found ==> r.error == EarlyEof || r.error == EmptyFrame
    ensures !r.found && r.error == EmptyFrame ==> r.position >= |data| || data[r.position] == 0x3B
    ensures r.found ==> r.position <= |data|
    ensures fr.InRange() ==> r.frame.InRange()
    ensures |lt| == 3 * ls && ls <= 256 ==> |r.localTable| == 3 * r.localSize && r.localSize <= 256
    ensures r.frame.delay == fr.delay || r.frame.delay >= 20
    decreases |data| - pos
  {
    if pos >= |data| then FrameParse(false, EmptyFrame, pos, fr, lt, ls)
    else if data[pos] == 0x21 then
      var p := pos + 1;
      if p >= |data| then FrameParse(false, EarlyEof, p, fr, lt, ls)
      else
        var gce := data[p] == 0xF9;
        var q := p + 1;
        if gce && q + 5 > |data| then FrameParse(false, EarlyEof, q, fr, lt, ls)
        else
          var fr2 := if gce then ApplyGce(fr, data[q], data[q + 1], data[q + 2], data[q + 3]) else fr;
          var skip := SkipSubBlocks(data, if gce then q + 5 else q);
          if !skip.0 then FrameParse(false, EarlyEof, skip.1, fr2, lt, ls)
          else ParseFrameFrom(data, skip.1, fr2, lt, ls)
    else if data[pos] == 0x2C then
      if pos + 10 > |data| then FrameParse(false, EarlyEof, pos, fr, lt, ls)
      else
        var fr2 := Describe(fr, data, pos);
        var p := pos + 10;
        if HasTable(fr2.flags) then
          var n := TableSize(fr2.flags);
          if p + 3 * n > |data| then FrameParse(false, EarlyEof, p, fr2, Zeros(3 * n), n)
          else FrameParse(true, Success, p + 3 * n, fr2, data[p .. p + 3 * n], n)
        else FrameParse(true, Success, p, fr2, lt, ls)
    else if data[pos] == 0x3B then FrameParse(false, EmptyFrame, pos, fr, lt, ls)
    else ParseFrameFrom(data, pos + 1, fr, lt, ls)
  }
}
