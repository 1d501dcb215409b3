/**
 * Pixel-level primitives shared by the filters of Form1.cs: the 8-bit sample
 * type, ARGB colours, and bitmaps as two-dimensional arrays indexed [x, y]
 * (the order of GetPixel(x, y) and SetPixel(x, y, c)).
 */
module Raster {

  /** An 8-bit colour sample. */
  type byte = v: int | 0 <= v < 256

  /** A GDI+ colour: alpha, red, green, blue. */
  datatype Color = Color(a: byte, r: byte, g: byte, b: byte)

  /** The value every pixel of a freshly allocated bitmap holds: transparent black. */
  const Blank := Color(0, 0, 0, 0)

  /** Color.FromArgb(r, g, b): an opaque colour. */
  function Opaque(r: byte, g: byte, b: byte): (c: Color)
    ensures c.a == 255 && c.r == r && c.g == g && c.b == b
  {
    Color(255, r, g, b)
  }

  /** The colour channels a filter reads. Luma is the red channel of the grayscale
      conversion of a pixel, which is what Edge Detection reads. */
  datatype Channel = Red | Green | Blue | Luma

  /**
   * Grayscale level of a pixel: 0.299 R + 0.587 G + 0.114 B, truncated. The weights
   * are taken as exact decimals; the double-precision rounding of the source is
   * not modelled, only the range and the formula.
   */
  function GrayLevel(c: Color): (v: byte)
    ensures 1000 * v <= 299 * c.r + 587 * c.g + 114 * c.b < 1000 * (v + 1)
  {
    (299 * c.r + 587 * c.g + 114 * c.b) / 1000
  }

  function Sample(c: Color, ch: Channel): byte
  {
    match ch
    case Red => c.r
    case Green => c.g
    case Blue => c.b
    case Luma => GrayLevel(c)
  }

  /** Math.Max(0, Math.Min(255, n)). */
  function Clamp(n: int): (v: byte)
    ensures n <= 0 ==> v == 0
    ensures n >= 255 ==> v == 255
    ensures 0 <= n <= 255 ==> v == n
  {
    if n < 0 then 0 else if n > 255 then 255 else n
  }

  type Bitmap = array2<Color>

  predicate InBounds(a: Bitmap, x: int, y: int)
  {
    0 <= x < a.Length0 && 0 <= y < a.Length1
  }

  predicate SameSize(a: Bitmap, b: Bitmap)
  {
    a.Length0 == b.Length0 && a.Length1 == b.Length1
  }

  /** new Bitmap(original): a fresh bitmap with the same size and pixels. */
  method CopyBitmap(original: Bitmap) returns (copy: Bitmap)
    ensures fresh(copy) && SameSize(copy, original)
    ensures forall x, y :: InBounds(original, x, y) ==> copy[x, y] == original[x, y]
  {
    copy := MapPixels(original, c => c);
  }

  /**
   * The loop shared by every point filter of Form1.cs: allocate a bitmap of the
   * same size, then visit the columns x in order and, inside each column, the rows
   * y in order, writing f of the source pixel at the same place.
   */
  method MapPixels(original: Bitmap, f: Color -> Color) returns (result: Bitmap)
    ensures fresh(result) && SameSize(result, original)
    ensures forall x, y :: InBounds(original, x, y) ==> result[x, y] == f(original[x, y])
  {
    result := new Color[original.Length0, original.Length1]((x, y) => Blank);
    var x := 0;
    while x < original.Length0
      invariant 0 <= x <= original.Length0
      invariant forall i, j :: 0 <= i < x && 0 <= j < original.Length1 ==> result[i, j] == f(original[i, j])
    {
      var y := 0;
      while y < original.Length1
        invariant 0 <= y <= original.Length1
        invariant forall i, j :: 0 <= i < x && 0 <= j < original.Length1 ==> result[i, j] == f(original[i, j])
        invariant forall j :: 0 <= j < y ==> result[x, j] == f(original[x, j])
      {
        result[x, y] := f(original[x, y]);
        y := y + 1;
      }
      x := x + 1;
    }
  }
}
