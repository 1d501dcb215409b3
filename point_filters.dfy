/**
 * The five per-pixel filters of Form1.cs: Grayscale, Sepia, Invert, Brightness
 * and Contrast. Each one allocates a bitmap of the source's size and writes, at
 * every (x, y), an opaque colour computed from the source pixel at (x, y) alone.
 */
module PointFilters {
  import opened Raster

  // ---- per-pixel specifications ----

  function GrayPixel(c: Color): (p: Color)
    ensures p.a == 255 && p.r == p.g == p.b == GrayLevel(c)
  {
    Opaque(GrayLevel(c), GrayLevel(c), GrayLevel(c))
  }

  /** One sepia output channel: the weighted sum (weights in thousandths), truncated, capped at 255. */
  function SepiaChannel(c: Color, wr: nat, wg: nat, wb: nat): (v: byte)
    ensures v < 255 ==> 1000 * v <= wr * c.r + wg * c.g + wb * c.b < 1000 * (v + 1)
    ensures v == 255 <==> wr * c.r + wg * c.g + wb * c.b >= 255000
  {
    var t := (wr * c.r + wg * c.g + wb * c.b) / 1000;
    if t > 255 then 255 else t
  }

  function SepiaPixel(c: Color): Color
  {
    Opaque(SepiaChannel(c, 393, 769, 189), SepiaChannel(c, 349, 686, 168), SepiaChannel(c, 272, 534, 131))
  }

  function InvertPixel(c: Color): (p: Color)
    ensures p.a == 255
    ensures p.r + c.r == 255 && p.g + c.g == 255 && p.b + c.b == 255
  {
    Opaque(255 - c.r, 255 - c.g, 255 - c.b)
  }

  const Brightness := 50

  /** Math.Min(255, v + 50). */
  function BrightenChannel(v: byte): (w: byte)
    ensures w >= v && w >= Brightness
    ensures w == 255 || w == v + Brightness
    ensures w == 255 <==> v >= 255 - Brightness
  {
    if v + Brightness > 255 then 255 else v + Brightness
  }

  function BrightenPixel(c: Color): Color
  {
    Opaque(BrightenChannel(c.r), BrightenChannel(c.g), BrightenChannel(c.b))
  }

  /**
   * (int)Math.Min(255, Math.Max(0, (v - 128) * 1.5 + 128)). The real value is
   * (3v - 128) / 2, which is exact in binary floating point; clamping to [0, 255]
   * and then truncating equals clamping the floor of that value.
   */
  function ContrastChannel(v: byte): (w: byte)
    ensures 3 * v - 128 <= 0 ==> w == 0
    ensures 3 * v - 128 >= 2 * 255 ==> w == 255
    ensures 0 < 3 * v - 128 < 2 * 255 ==> 2 * w <= 3 * v - 128 < 2 * w + 2
  {
    Clamp((3 * v - 128) / 2)
  }

  function ContrastPixel(c: Color): Color
  {
    Opaque(ContrastChannel(c.r), ContrastChannel(c.g), ContrastChannel(c.b))
  }

  // ---- the filters ----

  method ApplyGrayscale(original: Bitmap) returns (result: Bitmap)
    ensures fresh(result)
    ensures SameSize(result, original)
    ensures forall x, y :: InBounds(original, x, y) ==>
      result[x, y].a == 255 && result[x, y].r == result[x, y].g == result[x, y].b == GrayLevel(original[x, y])
  {
    result := MapPixels(original, GrayPixel);
  }

  method ApplySepia(original: Bitmap) returns (result: Bitmap)
    ensures fresh(result)
    ensures SameSize(result, original)
    ensures forall x, y :: InBounds(original, x, y) ==> result[x, y] == SepiaPixel(original[x, y])
  {
    result := MapPixels(original, SepiaPixel);
  }

  method ApplyInvert(original: Bitmap) returns (result: Bitmap)
    ensures fresh(result)
    ensures SameSize(result, original)
    ensures forall x, y :: InBounds(original, x, y) ==> result[x, y] == InvertPixel(original[x, y])
  {
    result := MapPixels(original, InvertPixel);
  }

  method ApplyBrightness(original: Bitmap) returns (result: Bitmap)
    ensures fresh(result)
    ensures SameSize(result, original)
    ensures forall x, y :: InBounds(original, x, y) ==> result[x, y] == BrightenPixel(original[x, y])
  {
    result := MapPixels(original, BrightenPixel);
  }

  method ApplyContrast(original: Bitmap) returns (result: Bitmap)
    ensures fresh(result)
    ensures SameSize(result, original)
    ensures forall x, y :: InBounds(original, x, y) ==> result[x, y] == ContrastPixel(original[x, y])
  {
    result := MapPixels(original, ContrastPixel);
  }

  // ---- properties ----

  /** Inverting twice gives back the red, green and blue of every pixel (alpha becomes opaque). */
  lemma InvertTwice(c: Color)
    ensures InvertPixel(InvertPixel(c)) == Opaque(c.r, c.g, c.b)
  {
  }

  /** Applying Invert twice gives back the red, green and blue of every pixel, with alpha made opaque. */
  method InvertTwiceRestores(original: Bitmap) returns (result: Bitmap)
    ensures fresh(result)
    ensures SameSize(result, original)
    ensures forall x, y :: InBounds(original, x, y) ==>
      result[x, y] == Opaque(original[x, y].r, original[x, y].g, original[x, y].b)
  {
    var once := ApplyInvert(original);
    result := ApplyInvert(once);
  }

  /** Brightening an all-white image leaves it all white. */
  lemma BrightenWhite(c: Color)
    requires c.r == c.g == c.b == 255
    ensures BrightenPixel(c) == Opaque(255, 255, 255)
  {
  }

  /** Contrast maps the mid level to itself. */
  lemma ContrastFixesMidpoint()
    ensures ContrastChannel(128) == 128
  {
  }

  /** Contrast is monotone. */
  lemma ContrastMonotone(v: byte, w: byte)
    requires v <= w
    ensures ContrastChannel(v) <= ContrastChannel(w)
  {
    assert (3 * v - 128) / 2 <= (3 * w - 128) / 2;
  }

  /** The clamp of the real value (v - 128) * 1.5 + 128 to [0, 255], truncated, is ContrastChannel(v). */
  lemma ContrastMatchesRealFormula(v: byte)
    ensures var t := (v as real - 128.0) * 1.5 + 128.0;
            var clamped := if t < 0.0 then 0.0 else if t > 255.0 then 255.0 else t;
            ContrastChannel(v) as real <= clamped < ContrastChannel(v) as real + 1.0
  {
    var t := (v as real - 128.0) * 1.5 + 128.0;
    var q := (3 * v - 128) / 2;
    assert 2 * q <= 3 * v - 128 < 2 * q + 2;
    assert t == (3 * v - 128) as real / 2.0;
  }
}
