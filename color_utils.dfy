/** ESP32_GIF_Utils: the two pure colour conversions the pixel writer uses. */
module ColorUtils {
  import opened GifTypes

  /** rgb888To565, `((r & 0xF8) << 8) | ((g & 0xFC) << 3) | (b >> 3)`: the top five bits
      of red in bits 11-15, the top six of green in bits 5-10, the top five of blue in bits
      0-4. */
  function Rgb565(r: byte, g: byte, b: byte): (c: nat)
    ensures c < U16
    ensures c / 2048 == r as nat / 8
    ensures (c / 32) % 64 == g as nat / 4
    ensures c % 32 == b as nat / 8
  {
    var c := (r as nat / 8) * 2048 + (g as nat / 4) * 32 + b as nat / 8;
    Fields565(r as nat / 8, g as nat / 4, b as nat / 8);
    c
  }

  /** The three fields of a 5-6-5 word can be read back by division and remainder. */
  lemma Fields565(hi: nat, mid: nat, lo: nat)
    requires hi < 32 && mid < 64 && lo < 32
    ensures var c := hi * 2048 + mid * 32 + lo;
      c < U16 && c / 32 == hi * 64 + mid && c % 32 == lo && c / 2048 == hi && (c / 32) % 64 == mid
  {
    var c := hi * 2048 + mid * 32 + lo;
    assert c == (hi * 64 + mid) * 32 + lo;
    assert c / 32 == hi * 64 + mid;
    assert c / 2048 == (c / 32) / 64;
  }

  /** The weighted sum the luma conversion shifts right by eight; the weights add up to 256. */
  function LumaSum(r: nat, g: nat, b: nat): (sum: nat)
    requires r < 256 && g < 256 && b < 256
    ensures 256 * Min3(r, g, b) <= sum <= 256 * Max3(r, g, b)
  {
    r * 77 + g * 150 + b * 29
  }

  /** The value rgb888ToGrayscale computes before its cast to uint8_t, for channels r, g, b
      below 256: it lies between the smallest and the largest channel, so the cast never
      truncates. */
  function GrayLevel(r: nat, g: nat, b: nat): (y: nat)
    requires r < 256 && g < 256 && b < 256
    ensures Min3(r, g, b) <= y <= Max3(r, g, b)
    ensures y < 256
  {
    var sum := LumaSum(r, g, b);
    DivBounds(sum, Min3(r, g, b), Max3(r, g, b));
    sum / 256
  }

  lemma DivBounds(sum: nat, lo: nat, hi: nat)
    requires 256 * lo <= sum <= 256 * hi
    ensures lo <= sum / 256 <= hi
  {
  }

  /** rgb888ToGrayscale. */
  function Grayscale(r: byte, g: byte, b: byte): byte
  {
    GrayLevel(r as nat, g as nat, b as nat) as byte
  }

  function Min3(a: nat, b: nat, c: nat): nat
  {
    if a <= b && a <= c then a else if b <= c then b else c
  }

  function Max3(a: nat, b: nat, c: nat): nat
  {
    if a >= b && a >= c then a else if b >= c then b else c
  }

  /** A grey input is its own luminance. */
  lemma GrayLevelOfGrey(v: nat)
    requires v < 256
    ensures GrayLevel(v, v, v) == v
  {
  }
}
