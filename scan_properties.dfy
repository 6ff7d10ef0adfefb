/** What countFrames' pass promises: where it stops, what each kind of block contributes,
    and that every frame it counts is a distinct 0x2C byte of the stream. */
module ScanProperties {
  import opened GifTypes
  import opened StreamReader
  import opened FrameScanner

  /** The pass stops at the trailer and adds nothing from there. */
  lemma ScanStopsAtTrailer(data: seq<byte>, pos: nat)
    requires pos + 1 < |data| && data[pos] == 0x3B
    ensures Scan(data, pos) == Tally(0, 0)
  {
  }

  /** The pass never examines the last byte: from there on nothing is counted. */
  lemma ScanStopsBeforeLastByte(data: seq<byte>, pos: nat)
    requires pos + 1 >= |data|
    ensures Scan(data, pos) == Tally(0, 0)
  {
  }

  /** A byte that is none of the three tags is stepped over on its own. */
  lemma ScanSkipsStrayByte(data: seq<byte>, pos: nat)
    requires pos + 1 < |data| && data[pos] != 0x2C && data[pos] != 0x21 && data[pos] != 0x3B
    ensures Scan(data, pos) == Scan(data, pos + 1)
  {
  }

  /** An image descriptor whose flag byte can be read counts one frame and the pass resumes
      after its local colour table and its sub-blocks. */
  lemma ScanCountsImage(data: seq<byte>, pos: nat)
    requires pos + 10 < |data| && data[pos] == 0x2C
    ensures var rest := Scan(data, AfterImage(data, pos));
      Scan(data, pos) == Tally(1 + rest.frames, rest.duration)
  {
  }

  /** A readable graphic-control block adds `max(d, 2) * 10` milliseconds, d being the bytes
      three and four places after the tag read little-endian, and the pass resumes after its
      sub-blocks. */
  lemma ScanAddsDelay(data: seq<byte>, pos: nat)
    requires pos + 7 <= |data| && data[pos] == 0x21 && data[pos + 1] == 0xF9
    ensures var d := Le16(data[pos + 3], data[pos + 4]);
      var rest := Scan(data, SkipSubBlocks(data, pos + 7).1);
      Scan(data, pos) == Tally(rest.frames, (if d < 2 then 2 else d) * 10 + rest.duration)
  {
  }

  /** The number of 0x2C bytes from `pos` to the end of the data. */
  function TagCount(data: seq<byte>, pos: nat): nat
    decreases |data| - pos
  {
    if pos >= |data| then 0 else (if data[pos] == 0x2C then 1 else 0) + TagCount(data, pos + 1)
  }

  lemma {:induction false} TagCountShrinks(data: seq<byte>, p: nat, q: nat)
    requires p <= q
    ensures TagCount(data, q) <= TagCount(data, p)
    decreases q - p
  {
    if p < q {
      TagCountShrinks(data, p + 1, q);
    }
  }

  /** Every frame the pass counts is a distinct image-descriptor tag it lands on, so it never
      counts more frames than there are 0x2C bytes after the cursor. */
  lemma {:induction false} FramesAtMostTags(data: seq<byte>, pos: nat)
    ensures Scan(data, pos).frames <= TagCount(data, pos)
    decreases |data| - pos
  {
    if pos + 1 < |data| {
      var b := ScanBlock(data, pos);
      ScanStep(data, pos);
      if b.next.Some? {
        var next := b.next.value;
        FramesAtMostTags(data, next);
        TagCountShrinks(data, pos + 1, next);
      }
    }
  }

  /** A stream without image descriptors after the cursor counts no frames. */
  lemma NoTagsNoFrames(data: seq<byte>, pos: nat)
    requires forall i :: pos <= i < |data| ==> data[i] != 0x2C
    ensures Scan(data, pos).frames == 0
  {
    NoTagsCountZero(data, pos);
    FramesAtMostTags(data, pos);
  }

  lemma {:induction false} NoTagsCountZero(data: seq<byte>, pos: nat)
    requires forall i :: pos <= i < |data| ==> data[i] != 0x2C
    ensures TagCount(data, pos) == 0
    decreases |data| - pos
  {
    if pos < |data| {
      NoTagsCountZero(data, pos + 1);
    }
  }
}
