/** The frame-buffer layouts drawPixel writes, one per pixel format, on a buffer seen as a
    sequence of bytes. */
module PixelWriter {
  import opened GifTypes
  import opened ColorUtils
  import opened StreamReader

  /** The per-pixel byte count the buffer is sized with (allocateFrameBuffer, resetFrameBuffer
      and applyDisposal all use the same switch): two for the RGB565 formats, three for RGB888,
      four for ARGB8888 and one for the others, monochrome included. */
  function BytesPerPixel(f: PixelFormat): (n: nat)
    ensures 1 <= n <= 4
    ensures n == 1 <==> f == Grayscale8 || f == Monochrome1
  {
    match f
    case Rgb565Le => 2
    case Rgb565Be => 2
    case Rgb888 => 3
    case Argb8888 => 4
    case Grayscale8 => 1
    case Monochrome1 => 1
  }

  /** `canvasWidth * canvasHeight` times the bytes per pixel. */
  function BufferSize(w: nat, h: nat, f: PixelFormat): nat
  {
    w * h * BytesPerPixel(f)
  }

  /** `y * canvasWidth + x`: the pixel's index in row-major order. */
  function PixelOffset(w: nat, x: nat, y: nat): nat
  {
    y * w + x
  }

  lemma PixelInCanvas(w: nat, h: nat, x: nat, y: nat)
    requires x < w && y < h
    ensures PixelOffset(w, x, y) < w * h
  {
    calc {
      PixelOffset(w, x, y);
    <  y * w + w;
    == (y + 1) * w;
    <= { MulMono(y + 1, h, w); } h * w;
    }
  }

  lemma MulMono(a: nat, b: nat, c: nat)
    requires a <= b
    ensures a * c <= b * c
  {
  }

  /** Two canvas pixels share an offset only when they are the same pixel. */
  lemma {:induction false} PixelOffsetInjective(w: nat, x1: nat, y1: nat, x2: nat, y2: nat)
    requires x1 < w && x2 < w
    requires PixelOffset(w, x1, y1) == PixelOffset(w, x2, y2)
    ensures x1 == x2 && y1 == y2
  {
    if y1 < y2 {
      MulMono(y1 + 1, y2, w);
      assert false;
    } else if y2 < y1 {
      MulMono(y2 + 1, y1, w);
      assert false;
    }
  }

  /** The monochrome byte drawPixel addresses: `offset / 8` stored in a uint8_t. */
  function MonoByte(w: nat, x: nat, y: nat): (k: nat)
    ensures k < 256 && k <= PixelOffset(w, x, y)
  {
    (PixelOffset(w, x, y) / 8) % 256
  }

  /** The bit of that byte: `7 - x % 8`, most significant bit first. */
  function MonoBit(x: nat): (j: nat)
    ensures j < 8
  {
    7 - x % 8
  }

  /** The first byte of pixel (x, y) in a byte-per-channel format. */
  function SpanStart(f: PixelFormat, w: nat, x: nat, y: nat): nat
  {
    PixelOffset(w, x, y) * BytesPerPixel(f)
  }

  /** Byte i of the buffer is one the pixel (x, y) writes. */
  predicate Touches(f: PixelFormat, w: nat, x: nat, y: nat, i: nat)
  {
    if f == Monochrome1 then i == MonoByte(w, x, y)
    else SpanStart(f, w, x, y) <= i < SpanStart(f, w, x, y) + BytesPerPixel(f)
  }

  /** Bit j of v, counted from the least significant bit: `v & (1 << j)` is nonzero. */
  predicate Bit(v: byte, j: nat)
    requires j < 8
  {
    BitOf(v as bv8, j)
  }

  /** `v | (1 << j)` when on holds, `v & ~(1 << j)` otherwise. */
  function SetBit(v: byte, j: nat, on: bool): byte
    requires j < 8
  {
    WithBit(v as bv8, j, on) as byte
  }

  /** `1 << j` for a bit position j below 8. */
  function Mask(j: nat): bv8
    requires j < 8
  {
    match j
    case 0 => 0x01
    case 1 => 0x02
    case 2 => 0x04
    case 3 => 0x08
    case 4 => 0x10
    case 5 => 0x20
    case 6 => 0x40
    case _ => 0x80
  }

  predicate BitOf(x: bv8, j: nat)
    requires j < 8
  {
    x & Mask(j) != 0
  }

  function WithBit(x: bv8, j: nat, on: bool): bv8
    requires j < 8
  {
    if on then x | Mask(j) else x & !Mask(j)
  }

  /** SetBit sets bit j to on and keeps the other seven. */
  lemma SetBitBits(v: byte, j: nat, on: bool, k: nat)
    requires j < 8 && k < 8
    ensures Bit(SetBit(v, j, on), k) == if k == j then on else Bit(v, k)
  {
    BitsByte(WithBit(v as bv8, j, on));
    WithBitBits(v as bv8, j, on, k);
  }

  lemma WithBitBits(x: bv8, j: nat, on: bool, k: nat)
    requires j < 8 && k < 8
    ensures BitOf(WithBit(x, j, on), k) == if k == j then on else BitOf(x, k)
  {
    if j != k {
      MaskDisjoint(j, k);
    }
  }

  lemma MaskDisjoint(j: nat, k: nat)
    requires j < 8 && k < 8 && j != k
    ensures Mask(j) & Mask(k) == 0
  {
  }

  /** `bytes` written over the buffer from index `start` on. */
  function Store(buf: seq<byte>, start: nat, bytes: seq<byte>): (r: seq<byte>)
    requires start + |bytes| <= |buf|
    ensures |r| == |buf|
    ensures forall i :: 0 <= i < |buf| && !(start <= i < start + |bytes|) ==> r[i] == buf[i]
    ensures r[start .. start + |bytes|] == bytes
  {
    buf[..start] + bytes + buf[start + |bytes|..]
  }

  /** Store, spelled out as the single-byte writes drawPixel performs for one to four bytes. */
  lemma StoreWrites(buf: seq<byte>, start: nat, bytes: seq<byte>)
    requires 1 <= |bytes| <= 4 && start + |bytes| <= |buf|
    ensures |bytes| == 1 ==> Store(buf, start, bytes) == buf[start := bytes[0]]
    ensures |bytes| == 2 ==> Store(buf, start, bytes) == buf[start := bytes[0]][start + 1 := bytes[1]]
    ensures |bytes| == 3 ==> Store(buf, start, bytes) == buf[start := bytes[0]][start + 1 := bytes[1]][start + 2 := bytes[2]]
    ensures |bytes| == 4 ==> Store(buf, start, bytes)
                             == buf[start := bytes[0]][start + 1 := bytes[1]][start + 2 := bytes[2]][start + 3 := bytes[3]]
  {
    var r := Store(buf, start, bytes);
    assert forall j :: 0 <= j < |bytes| ==> r[start + j] == bytes[j] by {
      forall j | 0 <= j < |bytes| ensures r[start + j] == bytes[j] {
        assert r[start .. start + |bytes|][j] == bytes[j];
      }
    }
  }

  /** `v & 0xFF` and `v >> 8` of a 16-bit value. */
  function LowByte(v: nat): byte
    requires v < U16
  {
    (v % 256) as byte
  }

  function HighByte(v: nat): byte
    requires v < U16
  {
    (v / 256) as byte
  }

  /** A 16-bit value low byte first (RGB565_LE). */
  function LittleEndian16(v: nat): (bytes: seq<byte>)
    requires v < U16
    ensures |bytes| == 2 && Le16(bytes[0], bytes[1]) == v
  {
    [LowByte(v), HighByte(v)]
  }

  /** A 16-bit value high byte first (RGB565_BE). */
  function BigEndian16(v: nat): (bytes: seq<byte>)
    requires v < U16
    ensures |bytes| == 2 && Le16(bytes[1], bytes[0]) == v
  {
    [HighByte(v), LowByte(v)]
  }

  /** The bytes one pixel of colour c occupies in a byte-per-channel format: the RGB565 value
      in either byte order, the three channels, an opaque alpha and the three channels, or
      the luminance. */
  function PixelBytes(f: PixelFormat, c: Rgb): (bytes: seq<byte>)
    requires f != Monochrome1
    ensures |bytes| == BytesPerPixel(f)
  {
    match f
    case Rgb565Le => LittleEndian16(Rgb565(c.r, c.g, c.b))
    case Rgb565Be => BigEndian16(Rgb565(c.r, c.g, c.b))
    case Rgb888 => [c.r, c.g, c.b]
    case Argb8888 => [0xFF, c.r, c.g, c.b]
    case Grayscale8 => [Grayscale(c.r, c.g, c.b)]
  }

  /** Grayscale above the midpoint sets the monochrome bit. */
  predicate Lit(c: Rgb)
  {
    Grayscale(c.r, c.g, c.b) > 127
  }

  /** The buffer after drawPixel stores colour c at canvas pixel (x, y), which lies on the
      canvas. Only the bytes `Touches` names change. */
  function Plot(buf: seq<byte>, f: PixelFormat, w: nat, h: nat, x: nat, y: nat, c: Rgb): (r: seq<byte>)
    requires x < w && y < h && |buf| == BufferSize(w, h, f)
    ensures |r| == |buf|
    ensures forall i :: 0 <= i < |buf| && !Touches(f, w, x, y, i) ==> r[i] == buf[i]
  {
    PixelInCanvas(w, h, x, y);
    if f == Monochrome1 then
      var k := MonoByte(w, x, y);
      buf[k := SetBit(buf[k], MonoBit(x), Lit(c))]
    else
      PixelSpan(w, h, x, y, f);
      Store(buf, SpanStart(f, w, x, y), PixelBytes(f, c))
  }

  lemma PlotUnfold(buf: seq<byte>, f: PixelFormat, w: nat, h: nat, x: nat, y: nat, c: Rgb)
    requires x < w && y < h && |buf| == BufferSize(w, h, f)
    ensures PixelOffset(w, x, y) < w * h
    ensures f == Monochrome1 ==> (MonoByte(w, x, y) < |buf| &&
      Plot(buf, f, w, h, x, y, c) == buf[MonoByte(w, x, y) := SetBit(buf[MonoByte(w, x, y)], MonoBit(x), Lit(c))])
    ensures f != Monochrome1 ==> (SpanStart(f, w, x, y) + BytesPerPixel(f) <= |buf| &&
      Plot(buf, f, w, h, x, y, c) == Store(buf, SpanStart(f, w, x, y), PixelBytes(f, c)))
  {
    PixelInCanvas(w, h, x, y);
    PixelSpan(w, h, x, y, f);
  }

  lemma PixelSpan(w: nat, h: nat, x: nat, y: nat, f: PixelFormat)
    requires PixelOffset(w, x, y) < w * h
    ensures SpanStart(f, w, x, y) + BytesPerPixel(f) <= BufferSize(w, h, f)
  {
    MulMono(PixelOffset(w, x, y) + 1, w * h, BytesPerPixel(f));
  }

  /** In a byte-per-channel format Plot leaves the format's bytes for colour c in the
      pixel's span. */
  lemma PlotStoresBytes(buf: seq<byte>, f: PixelFormat, w: nat, h: nat, x: nat, y: nat, c: Rgb)
    requires f != Monochrome1
    requires x < w && y < h && |buf| == BufferSize(w, h, f)
    ensures var r := Plot(buf, f, w, h, x, y, c);
      SpanStart(f, w, x, y) + BytesPerPixel(f) <= |r| &&
      r[SpanStart(f, w, x, y) .. SpanStart(f, w, x, y) + BytesPerPixel(f)] == PixelBytes(f, c)
  {
    PlotUnfold(buf, f, w, h, x, y, c);
  }

  /** In the monochrome format Plot sets bit `MonoBit(x)` of byte `MonoByte` to `Lit(c)` and
      keeps that byte's other bits. */
  lemma PlotSetsBit(buf: seq<byte>, w: nat, h: nat, x: nat, y: nat, c: Rgb)
    requires x < w && y < h && |buf| == BufferSize(w, h, Monochrome1)
    ensures var r := Plot(buf, Monochrome1, w, h, x, y, c);
      var k := MonoByte(w, x, y);
      k < |r| && forall j :: 0 <= j < 8 ==> Bit(r[k], j) == if j == MonoBit(x) then Lit(c) else Bit(buf[k], j)
  {
    PlotUnfold(buf, Monochrome1, w, h, x, y, c);
    var k := MonoByte(w, x, y);
    var r := Plot(buf, Monochrome1, w, h, x, y, c);
    forall j | 0 <= j < 8
      ensures Bit(r[k], j) == if j == MonoBit(x) then Lit(c) else Bit(buf[k], j)
    {
      SetBitBits(buf[k], MonoBit(x), Lit(c), j);
    }
  }

  /** In the monochrome format only the first 256 bytes of the buffer are ever written,
      because the byte offset is held in a uint8_t. */
  lemma MonochromeStaysInFirstBytes(buf: seq<byte>, w: nat, h: nat, x: nat, y: nat, c: Rgb, i: nat)
    requires x < w && y < h && |buf| == BufferSize(w, h, Monochrome1)
    requires 256 <= i < |buf|
    ensures Plot(buf, Monochrome1, w, h, x, y, c)[i] == buf[i]
  {
  }
}
