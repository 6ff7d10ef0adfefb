/** The positional reader over the in-memory stream, and the small decoders the parsing
    steps share: colour-table sizes, 32-bit colour-table words and sub-block chains. */
module StreamReader {
  import opened GifTypes

  /** readData on the in-memory path: a copy of `length` bytes at `position`, refused when
      the stream holds no data or the span runs past its end. */
  function ReadData(data: seq<byte>, length: nat, position: nat): (r: Option<seq<byte>>)
    ensures r.Some? <==> |data| > 0 && position + length <= |data|
    ensures r.Some? ==> |r.value| == length && r.value == data[position..position + length]
  {
    if |data| > 0 && position + length <= |data| then Some(data[position..position + length]) else None
  }

  /** "GIF89a" and "GIF87a". */
  const Gif89a: seq<byte> := [0x47, 0x49, 0x46, 0x38, 0x39, 0x61]
  const Gif87a: seq<byte> := [0x47, 0x49, 0x46, 0x38, 0x37, 0x61]

  predicate IsGifSignature(sig: seq<byte>)
  {
    sig == Gif89a || sig == Gif87a
  }

  predicate IsPowerOfTwo(n: nat)
  {
    n == 1 || (n > 1 && n % 2 == 0 && IsPowerOfTwo(n / 2))
  }

  /** `1 << ((flags & 0x07) + 1)`: the number of entries of a colour table announced by a
      packed flags byte. */
  function TableSize(flags: byte): (n: nat)
    ensures 2 <= n <= 256 && IsPowerOfTwo(n)
    ensures n == Pow2(SizeField(flags) + 1)
  {
    match SizeField(flags)
    case 0 => 2
    case 1 => 4
    case 2 => 8
    case 3 => 16
    case 4 => 32
    case 5 => 64
    case 6 => 128
    case _ => 256
  }

  /** The 32-bit colour-table word `colorTable[i]` lies inside a table of `tableBytes` bytes. */
  predicate WordReadable(tableBytes: nat, i: nat)
  {
    4 * i + 3 < tableBytes
  }

  /** `uint32_t rgb = colorTable[i]` on a little-endian machine, split as
      `r = (rgb >> 16) & 0xFF`, `g = (rgb >> 8) & 0xFF`, `b = rgb & 0xFF`. The table holds
      the stream's raw bytes, so word i is bytes 4i .. 4i+3 and the channels are bytes 4i+2,
      4i+1 and 4i (ColorWordBits). */
  function ColorWord(table: seq<byte>, i: nat): Rgb
    requires WordReadable(|table|, i)
  {
    Rgb(table[4 * i + 2], table[4 * i + 1], table[4 * i])
  }

  /** The little-endian 32-bit word of four bytes. */
  function Word(b0: bv8, b1: bv8, b2: bv8, b3: bv8): bv32
  {
    (b0 as bv32) | ((b1 as bv32) << 8) | ((b2 as bv32) << 16) | ((b3 as bv32) << 24)
  }

  /** ColorWord is the word read and the shifts and masks the decoder applies: each channel
      of ColorWord, as an eight-bit value, is the corresponding byte of the word. */
  lemma ColorWordBits(table: seq<byte>, i: nat)
    requires WordReadable(|table|, i)
    ensures var word := Word(table[4 * i] as bv8, table[4 * i + 1] as bv8, table[4 * i + 2] as bv8, table[4 * i + 3] as bv8);
      var c := ColorWord(table, i);
      c.r as bv8 == ((word >> 16) & 0xFF) as bv8 && c.g as bv8 == ((word >> 8) & 0xFF) as bv8
      && c.b as bv8 == (word & 0xFF) as bv8
  {
    WordSplit(table[4 * i] as bv8, table[4 * i + 1] as bv8, table[4 * i + 2] as bv8, table[4 * i + 3] as bv8);
  }

  lemma WordSplit(b0: bv8, b1: bv8, b2: bv8, b3: bv8)
    ensures var word := Word(b0, b1, b2, b3);
      ((word >> 16) & 0xFF) as bv8 == b2 && ((word >> 8) & 0xFF) as bv8 == b1 && (word & 0xFF) as bv8 == b0
  {
  }

  lemma BitsByte(x: bv8)
    ensures (x as byte) as bv8 == x
  {
  }

  /** A chain of sub-blocks read from `pos`: length byte n, n payload bytes, and so on, up to
      and including a zero length byte. The second component is where the reader stops: just
      past the zero byte when the first is true, otherwise the first position whose length
      byte could not be read. */
  function SkipSubBlocks(data: seq<byte>, pos: nat): (r: (bool, nat))
    ensures r.1 >= pos
    ensures r.0 ==> pos < r.1 <= |data| && data[r.1 - 1] == 0
    ensures !r.0 ==> r.1 >= |data|
    decreases |data| - pos
  {
    if pos >= |data| then (false, pos)
    else if data[pos] == 0 then (true, pos + 1)
    else SkipSubBlocks(data, pos + 1 + data[pos] as nat)
  }
}
