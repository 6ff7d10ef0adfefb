/** Shared vocabulary of the decoder: the error and pixel-format enumerations, the frame
    descriptor, the canvas limits and the little-endian byte helpers. */
module GifTypes {

  /** Largest accepted canvas (ESP32_ANIMATEDGIF_MAX_WIDTH / ESP32_ANIMATEDGIF_MAX_HEIGHT). */
  const MaxWidth: nat := 800
  const MaxHeight: nat := 600

  /** A uint8_t. */
  newtype byte = b: int | 0 <= b < 256

  const U16: nat := 0x1_0000
  const U32: nat := 0x1_0000_0000

  datatype Option<+T> = None | Some(value: T)

  /** GIFError, in the order of the C++ enumeration. */
  datatype GifError =
    | Success
    | DecodeError
    | FileTooWide
    | InvalidParameter
    | UnsupportedFeature
    | FileNotFound
    | EarlyEof
    | EmptyFrame
    | BadFileFormat
    | OutOfMemory
    | DisplayNotSet
    | UnknownError

  /** PixelFormat, in the order of the C++ enumeration. */
  datatype PixelFormat = Rgb565Le | Rgb565Be | Rgb888 | Argb8888 | Grayscale8 | Monochrome1

  /** An RGB colour as the decoder passes it to drawPixel. */
  datatype Rgb = Rgb(r: byte, g: byte, b: byte)

  /** The per-frame fields of the decoder (_frameX ... _transparentIndex). The numeric
      fields hold uint16_t / uint8_t values. */
  datatype FrameInfo = FrameInfo(
    x: nat, y: nat, width: nat, height: nat,
    delay: nat,
    disposal: nat,
    flags: byte,
    hasTransparency: bool,
    transparentIndex: byte)
  {
    /** The interlace bit of the image descriptor (`flags & 0x40`); it is only reported. */
    predicate Interlaced() { (flags / 0x40) % 2 == 1 }

    /** Every field fits the C++ field it models. */
    predicate InRange() {
      x < U16 && y < U16 && width < U16 && height < U16 && delay < U16 && disposal < 8
    }
  }

  /** The state resetFrameState() leaves behind. */
  const NoFrame := FrameInfo(0, 0, 0, 0, 0, 0, 0, false, 0)

  /** `lo | (hi << 8)`: the little-endian 16-bit field made of two bytes. */
  function Le16(lo: byte, hi: byte): (v: nat)
    ensures v < U16
  {
    lo as nat + 256 * hi as nat
  }

  /** Le16 is the bitwise expression it stands for, for the bytes of any two bit
      patterns. */
  lemma Le16Bits(lo: bv8, hi: bv8)
    ensures ((lo as bv16) | ((hi as bv16) << 8)) as nat == Le16(lo as byte, hi as byte)
  {
  }

  /** `flags & 0x80`: the colour-table flag of a logical screen or image descriptor. */
  predicate HasTable(flags: byte)
  {
    flags >= 0x80
  }

  /** `flags & 0x07`: the colour-table size field of those flags. */
  function SizeField(flags: byte): (k: nat)
    ensures k < 8
  {
    flags as nat % 8
  }

  /** `(packed >> 2) & 0x07`: the disposal method of a graphic-control block. */
  function DisposalField(packed: byte): (m: nat)
    ensures m < 8
  {
    (packed as nat / 4) % 8
  }

  /** `packed & 0x01`: the transparency flag of a graphic-control block. */
  predicate TransparencyFlag(packed: byte)
  {
    packed % 2 == 1
  }

  /** The packed-field readers are the masks and shifts the decoder applies, on the byte of
      any bit pattern. */
  lemma PackedFieldBits(x: bv8)
    ensures HasTable(x as byte) <==> x & 0x80 != 0
    ensures SizeField(x as byte) == (x & 0x07) as nat
    ensures DisposalField(x as byte) == ((x >> 2) & 0x07) as nat
    ensures TransparencyFlag(x as byte) <==> x & 0x01 != 0
    ensures NoFrame.(flags := x as byte).Interlaced() <==> x & 0x40 != 0
  {
    TopBit(x);
    LowBits(x);
    LowBits(x >> 2);
    Shift2(x);
    BottomBit(x);
    SixthBit(x);
  }

  lemma TopBit(x: bv8)
    ensures x & 0x80 != 0 <==> x as nat >= 0x80
  {
  }

  lemma LowBits(x: bv8)
    ensures (x & 0x07) as nat == x as nat % 8
  {
  }

  lemma Shift2(x: bv8)
    ensures (x >> 2) as nat == x as nat / 4
  {
  }

  lemma BottomBit(x: bv8)
    ensures x & 0x01 != 0 <==> x as nat % 2 == 1
  {
  }

  lemma SixthBit(x: bv8)
    ensures x & 0x40 != 0 <==> (x as nat / 0x40) % 2 == 1
  {
  }

  /** A freshly allocated, zero-filled block of n bytes. */
  function Zeros(n: nat): (z: seq<byte>)
    ensures |z| == n
  {
    if n == 0 then [] else Zeros(n - 1) + [0]
  }

  /** A block is zero-filled exactly when it is Zeros of its length. */
  lemma {:induction false} ZerosAre(z: seq<byte>)
    ensures (forall i :: 0 <= i < |z| ==> z[i] == 0) <==> z == Zeros(|z|)
  {
    if |z| > 0 {
      ZerosAre(z[..|z| - 1]);
      assert z == z[..|z| - 1] + [z[|z| - 1]];
      if z == Zeros(|z|) {
        assert z[..|z| - 1] == Zeros(|z| - 1);
      }
    }
  }

  function Pow2(n: nat): (p: nat)
    ensures p >= 1
  {
    if n == 0 then 1 else 2 * Pow2(n - 1)
  }

  /** Adding to a value already reduced modulo m reduces to the same residue: a counter kept
      in a fixed-width field can wrap at every step or once at the end. */
  lemma ModAdd(a: nat, b: nat, m: nat)
    requires m > 0
    ensures (a % m + b) % m == (a + b) % m
  {
    var x, y := a % m + b, a + b;
    var k := (y / m) - (a / m) - (x / m);
    assert y == a / m * m + x;
    assert k * m == x % m - y % m by {
      assert y / m * m + y % m == a / m * m + x / m * m + x % m;
    }
    NonzeroMultiple(k, m);
  }

  /** ModAdd for a running counter `acc` that holds `done` reduced modulo m. */
  lemma WrapStep(acc: nat, done: nat, add: nat, m: nat)
    requires m > 0 && acc == done % m
    ensures (acc + add) % m == (done + add) % m
  {
    ModAdd(done, add, m);
  }

  lemma NonzeroMultiple(k: int, m: int)
    requires m > 0
    ensures k == 0 || k * m >= m || k * m <= -m
  {
    if k >= 1 {
      assert (k - 1) * m >= 0;
    } else if k <= -1 {
      assert (-k - 1) * m >= 0;
    }
  }
}
