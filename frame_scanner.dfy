/** The single forward pass countFrames makes over the stream after the global colour table:
    it counts image descriptors and adds up the graphic-control delays it meets. */
module FrameScanner {
  import opened GifTypes
  import opened StreamReader

  /** What the pass has counted: image descriptors, and milliseconds of delay. */
  datatype Tally = Tally(frames: nat, duration: nat)

  /** The delay countFrames adds for one graphic-control block whose 16-bit delay field
      reads d: d raised to at least 2, in milliseconds. */
  function ScannedDelay(d: nat): (ms: nat)
    ensures ms >= 20 && ms % 10 == 0
    ensures d >= 2 ==> ms == 10 * d
    ensures d < 2 ==> ms == 20
  {
    (if d < 2 then 2 else d) * 10
  }

  /** Where countFrames resumes after an image descriptor whose tag is at `tag`: it tests the
      local-table flag on the byte ten places after the tag, skips a table of that size and one
      byte more when the flag is set and one byte otherwise, then skips the sub-block chain. */
  function AfterImage(data: seq<byte>, tag: nat): (next: nat)
    requires tag + 10 < |data|
    ensures next > tag + 10
  {
    var flags := data[tag + 10];
    var start := tag + 10 + (if HasTable(flags) then 3 * TableSize(flags) + 1 else 1);
    SkipSubBlocks(data, start).1
  }

  /** One iteration of countFrames' loop: what it adds to the totals, and the cursor it
      continues from, or None when it breaks out of the loop. */
  datatype Block = Block(add: Tally, next: Option<nat>)

  /** The iteration at cursor `pos`, for a cursor before the last byte: an image descriptor
      counts one frame, a graphic-control extension adds its delay, any other extension is
      skipped, the trailer stops, and any other byte is stepped over. A read past the end
      stops the loop. */
  function ScanBlock(data: seq<byte>, pos: nat): (b: Block)
    requires pos + 1 < |data|
    ensures b.next.Some? ==> b.next.value > pos
    ensures b.add.frames <= 1 && b.add.duration % 10 == 0
    ensures b.add.frames == 1 ==> data[pos] == 0x2C && (b.next.Some? ==> b.next.value > pos + 10)
  {
    if data[pos] == 0x2C then
      Block(Tally(1, 0), if pos + 10 >= |data| then None else Some(AfterImage(data, pos)))
    else if data[pos] == 0x21 then
      var p := pos + 2;
      if data[pos + 1] == 0xF9 then
        if p + 5 > |data| then Block(Tally(0, 0), None)
        else Block(Tally(0, ScannedDelay(Le16(data[p + 1], data[p + 2]))), Some(SkipSubBlocks(data, p + 5).1))
      else Block(Tally(0, 0), Some(SkipSubBlocks(data, p).1))
    else if data[pos] == 0x3B then Block(Tally(0, 0), None)
    else Block(Tally(0, 0), Some(pos + 1))
  }

  /** countFrames' loop from cursor `pos`, up to the end of the data or the trailer. */
  function Scan(data: seq<byte>, pos: nat): (t: Tally)
    ensures t.duration % 10 == 0
    ensures t.frames > 0 ==> pos + 11 * t.frames <= |data| + 10
    decreases |data| - pos
  {
    if pos + 1 >= |data| then Tally(0, 0)
    else
      var b := ScanBlock(data, pos);
      if b.next.None? then b.add
      else
        var rest := Scan(data, b.next.value);
        Tally(b.add.frames + rest.frames, b.add.duration + rest.duration)
  }

  /** One step of the pass: the totals from `pos` are what the block at `pos` adds plus the
      totals from where it continues. */
  lemma ScanStep(data: seq<byte>, pos: nat)
    requires pos + 1 < |data|
    ensures var b := ScanBlock(data, pos);
      var rest := if b.next.None? then Tally(0, 0) else Scan(data, b.next.value);
      Scan(data, pos).frames == b.add.frames + rest.frames
      && Scan(data, pos).duration == b.add.duration + rest.duration
  {
  }
}
