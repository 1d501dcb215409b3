/**
 * ApplySharpen and ApplyEdgeDetection of Form1.cs: 3x3 convolutions computed only
 * for interior pixels (1 <= x < width - 1, 1 <= y < height - 1). The border of the
 * result is never written and keeps the value of a new bitmap, transparent black.
 */
module Convolution {
  import opened Raster
  import opened Arith
  import PointFilters

  /** A 3x3 kernel, indexed k[i + 1][j + 1] for the pixel at offset (i, j) = (dx, dy). */
  type Kernel = k: seq<seq<int>> | |k| == 3 && |k[0]| == 3 && |k[1]| == 3 && |k[2]| == 3
    witness [[0, 0, 0], [0, 0, 0], [0, 0, 0]]

  const SharpenKernel: Kernel := [[0, -1, 0], [-1, 5, -1], [0, -1, 0]]
  const SobelX: Kernel := [[-1, 0, 1], [-2, 0, 2], [-1, 0, 1]]
  const SobelY: Kernel := [[-1, -2, -1], [0, 0, 0], [1, 2, 1]]

  predicate Interior(a: Bitmap, x: int, y: int)
  {
    1 <= x < a.Length0 - 1 && 1 <= y < a.Length1 - 1
  }

  /** Row i of the convolution at (x, y): offsets j in [-1, jEnd). */
  function KernelRow(a: Bitmap, x: int, y: int, k: Kernel, ch: Channel, i: int, jEnd: int): int
    reads a
    requires Interior(a, x, y) && -1 <= i <= 1 && -1 <= jEnd <= 2
    decreases jEnd + 1
  {
    if jEnd == -1 then 0
    else KernelRow(a, x, y, k, ch, i, jEnd - 1) + Sample(a[x + i, y + jEnd - 1], ch) * k[i + 1][jEnd]
  }

  /** The convolution at (x, y) over offsets i in [-1, iEnd), in the order the loops visit them. */
  function KernelSum(a: Bitmap, x: int, y: int, k: Kernel, ch: Channel, iEnd: int): int
    reads a
    requires Interior(a, x, y) && -1 <= iEnd <= 2
    decreases iEnd + 1
  {
    if iEnd == -1 then 0
    else KernelSum(a, x, y, k, ch, iEnd - 1) + KernelRow(a, x, y, k, ch, iEnd - 1, 2)
  }

  function Convolve(a: Bitmap, x: int, y: int, k: Kernel, ch: Channel): int
    reads a
    requires Interior(a, x, y)
  {
    KernelSum(a, x, y, k, ch, 2)
  }

  // ---- Sharpen ----

  function SharpenPixel(a: Bitmap, x: int, y: int): Color
    reads a
    requires Interior(a, x, y)
  {
    Opaque(Clamp(Convolve(a, x, y, SharpenKernel, Red)),
           Clamp(Convolve(a, x, y, SharpenKernel, Green)),
           Clamp(Convolve(a, x, y, SharpenKernel, Blue)))
  }

  method ApplySharpen(original: Bitmap) returns (result: Bitmap)
    ensures fresh(result)
    ensures SameSize(result, original)
    ensures forall x, y :: InBounds(original, x, y) ==>
      result[x, y] == if Interior(original, x, y) then SharpenPixel(original, x, y) else Blank
  {
    var width, height := original.Length0, original.Length1;
    result := new Color[width, height]((x, y) => Blank);
    var x := 1;
    while x < width - 1
      invariant 1 <= x && (width >= 2 ==> x <= width - 1)
      invariant forall i, j :: InBounds(original, i, j) ==>
        result[i, j] == if Interior(original, i, j) && i < x then SharpenPixel(original, i, j) else Blank
    {
      var y := 1;
      while y < height - 1
        invariant 1 <= y && (height >= 2 ==> y <= height - 1)
        invariant forall i, j :: InBounds(original, i, j) ==>
          result[i, j] == if Interior(original, i, j) && (i < x || (i == x && j < y)) then SharpenPixel(original, i, j) else Blank
      {
        var pixel := SharpenAt(original, x, y);
        result[x, y] := pixel;
        y := y + 1;
      }
      x := x + 1;
    }
  }

  /** The body of ApplySharpen's pixel loop. */
  method SharpenAt(original: Bitmap, x: int, y: int) returns (pixel: Color)
    requires Interior(original, x, y)
    ensures pixel == SharpenPixel(original, x, y)
  {
    var r, g, b := 0, 0, 0;
    var i := -1;
    while i <= 1
      invariant -1 <= i <= 2
      invariant r == KernelSum(original, x, y, SharpenKernel, Red, i)
      invariant g == KernelSum(original, x, y, SharpenKernel, Green, i)
      invariant b == KernelSum(original, x, y, SharpenKernel, Blue, i)
    {
      var j := -1;
      while j <= 1
        invariant -1 <= j <= 2
        invariant r == KernelSum(original, x, y, SharpenKernel, Red, i) + KernelRow(original, x, y, SharpenKernel, Red, i, j)
        invariant g == KernelSum(original, x, y, SharpenKernel, Green, i) + KernelRow(original, x, y, SharpenKernel, Green, i, j)
        invariant b == KernelSum(original, x, y, SharpenKernel, Blue, i) + KernelRow(original, x, y, SharpenKernel, Blue, i, j)
      {
        var c := original[x + i, y + j];
        var kernelValue := SharpenKernel[i + 1][j + 1];
        r, g, b := r + c.r * kernelValue, g + c.g * kernelValue, b + c.b * kernelValue;
        j := j + 1;
      }
      i := i + 1;
    }
    pixel := Opaque(Clamp(r), Clamp(g), Clamp(b));
  }

  // ---- Edge detection ----

  /**
   * The floor of the square root of n: (int)Math.Sqrt(n). For the arguments Edge
   * Detection passes (at most 2 * 1020 * 1020) the double square root truncates
   * to exactly this value.
   */
  function FloorSqrt(n: nat): (r: nat)
    ensures r * r <= n < (r + 1) * (r + 1)
    decreases n
  {
    if n == 0 then 0
    else if n < 4 then 1
    else
      var h := FloorSqrt(n / 4);
      DoubleRoot(n, h);
      if (2 * h + 1) * (2 * h + 1) <= n then 2 * h + 1 else 2 * h
  }

  /** A root of n / 4, doubled, is within two of a root of n. */
  lemma DoubleRoot(n: nat, h: nat)
    requires h * h <= n / 4 < (h + 1) * (h + 1)
    ensures (2 * h) * (2 * h) <= n < (2 * h + 2) * (2 * h + 2)
  {
    assert (2 * h) * (2 * h) == 4 * (h * h);
    assert (2 * h + 2) * (2 * h + 2) == 4 * ((h + 1) * (h + 1));
  }

  function SquareSum(gx: int, gy: int): (n: nat)
  {
    assert gx * gx >= 0 && gy * gy >= 0 by {
      if gx < 0 { assert gx * gx == (-gx) * (-gx); }
      if gy < 0 { assert gy * gy == (-gy) * (-gy); }
    }
    gx * gx + gy * gy
  }

  /** Math.Min(255, (int)Math.Sqrt(gx * gx + gy * gy)). */
  function GradientMagnitude(gx: int, gy: int): (m: byte)
    ensures m == 255 <==> SquareSum(gx, gy) >= 255 * 255
    ensures m < 255 ==> m * m <= SquareSum(gx, gy) < (m + 1) * (m + 1)
  {
    var root := FloorSqrt(SquareSum(gx, gy));
    if root >= 255 then
      MulMonotone(255, root, 255);
      MulMonotone(255, root, root);
      255
    else
      MulMonotone(root + 1, 255, root + 1);
      MulMonotone(root + 1, 255, 255);
      root
  }

  /** Sobel gradient magnitude on the grayscale level, capped at 255. */
  function EdgeMagnitude(a: Bitmap, x: int, y: int): (m: byte)
    reads a
    requires Interior(a, x, y)
  {
    GradientMagnitude(Convolve(a, x, y, SobelX, Luma), Convolve(a, x, y, SobelY, Luma))
  }

  method ApplyEdgeDetection(original: Bitmap) returns (result: Bitmap)
    ensures fresh(result)
    ensures SameSize(result, original)
    ensures forall x, y :: InBounds(original, x, y) ==>
      result[x, y] == if Interior(original, x, y) then EdgePixel(original, x, y) else Blank
  {
    var width, height := original.Length0, original.Length1;
    result := new Color[width, height]((x, y) => Blank);
    var grayscale := PointFilters.ApplyGrayscale(original);
    var x := 1;
    while x < width - 1
      modifies result
      invariant 1 <= x && (width >= 2 ==> x <= width - 1)
      invariant forall i, j :: InBounds(original, i, j) ==>
        result[i, j] == if Interior(original, i, j) && i < x then EdgePixel(original, i, j) else Blank
    {
      var y := 1;
      while y < height - 1
        modifies result
        invariant 1 <= y && (height >= 2 ==> y <= height - 1)
        invariant forall i, j :: InBounds(original, i, j) ==>
          result[i, j] == if Interior(original, i, j) && (i < x || (i == x && j < y)) then EdgePixel(original, i, j) else Blank
      {
        var magnitude := EdgeAt(original, grayscale, x, y);
        result[x, y] := Opaque(magnitude, magnitude, magnitude);
        y := y + 1;
      }
      x := x + 1;
    }
  }

  function EdgePixel(a: Bitmap, x: int, y: int): Color
    reads a
    requires Interior(a, x, y)
  {
    Opaque(EdgeMagnitude(a, x, y), EdgeMagnitude(a, x, y), EdgeMagnitude(a, x, y))
  }

  /** The body of ApplyEdgeDetection's pixel loop, reading the red channel of the grayscale bitmap. */
  method EdgeAt(original: Bitmap, grayscale: Bitmap, x: int, y: int) returns (magnitude: byte)
    requires Interior(original, x, y) && SameSize(grayscale, original)
    requires forall i, j :: InBounds(original, i, j) ==> grayscale[i, j].r == GrayLevel(original[i, j])
    ensures magnitude == EdgeMagnitude(original, x, y)
  {
    var gx, gy := 0, 0;
    var i := -1;
    while i <= 1
      invariant -1 <= i <= 2
      invariant gx == KernelSum(original, x, y, SobelX, Luma, i)
      invariant gy == KernelSum(original, x, y, SobelY, Luma, i)
    {
      var j := -1;
      while j <= 1
        invariant -1 <= j <= 2
        invariant gx == KernelSum(original, x, y, SobelX, Luma, i) + KernelRow(original, x, y, SobelX, Luma, i, j)
        invariant gy == KernelSum(original, x, y, SobelY, Luma, i) + KernelRow(original, x, y, SobelY, Luma, i, j)
      {
        var gray := grayscale[x + i, y + j].r;
        gx := gx + gray * SobelX[i + 1][j + 1];
        gy := gy + gray * SobelY[i + 1][j + 1];
        j := j + 1;
      }
      i := i + 1;
    }
    var root := FloorSqrt(SquareSum(gx, gy));
    magnitude := if root > 255 then 255 else root;
    assert magnitude == GradientMagnitude(gx, gy);
  }

  // ---- properties ----

  /** Sample of channel ch at offset (i, j) from (x, y). */
  function At(a: Bitmap, x: int, y: int, i: int, j: int, ch: Channel): int
    reads a
    requires Interior(a, x, y) && -1 <= i <= 1 && -1 <= j <= 1
  {
    Sample(a[x + i, y + j], ch)
  }

  /** The convolution written out as the sum of its nine weighted samples. */
  lemma ConvolveExpanded(a: Bitmap, x: int, y: int, k: Kernel, ch: Channel)
    requires Interior(a, x, y)
    ensures Convolve(a, x, y, k, ch) ==
        k[0][0] * At(a, x, y, -1, -1, ch) + k[0][1] * At(a, x, y, -1, 0, ch) + k[0][2] * At(a, x, y, -1, 1, ch)
      + k[1][0] * At(a, x, y, 0, -1, ch) + k[1][1] * At(a, x, y, 0, 0, ch) + k[1][2] * At(a, x, y, 0, 1, ch)
      + k[2][0] * At(a, x, y, 1, -1, ch) + k[2][1] * At(a, x, y, 1, 0, ch) + k[2][2] * At(a, x, y, 1, 1, ch)
  {
    RowExpanded(a, x, y, k, ch, -1);
    RowExpanded(a, x, y, k, ch, 0);
    RowExpanded(a, x, y, k, ch, 1);
    assert KernelSum(a, x, y, k, ch, 0) == KernelRow(a, x, y, k, ch, -1, 2);
    assert KernelSum(a, x, y, k, ch, 1) == KernelSum(a, x, y, k, ch, 0) + KernelRow(a, x, y, k, ch, 0, 2);
  }

  lemma RowExpanded(a: Bitmap, x: int, y: int, k: Kernel, ch: Channel, i: int)
    requires Interior(a, x, y) && -1 <= i <= 1
    ensures KernelRow(a, x, y, k, ch, i, 2) ==
      k[i + 1][0] * At(a, x, y, i, -1, ch) + k[i + 1][1] * At(a, x, y, i, 0, ch) + k[i + 1][2] * At(a, x, y, i, 1, ch)
  {
    assert KernelRow(a, x, y, k, ch, i, -1) == 0;
    assert KernelRow(a, x, y, k, ch, i, 0) == k[i + 1][0] * At(a, x, y, i, -1, ch);
    assert KernelRow(a, x, y, k, ch, i, 1) == KernelRow(a, x, y, k, ch, i, 0) + k[i + 1][1] * At(a, x, y, i, 0, ch);
  }

  /** Sharpen at an interior pixel is 5 c(x, y) minus its four edge neighbours, clamped. */
  lemma SharpenFormula(a: Bitmap, x: int, y: int, ch: Channel)
    requires Interior(a, x, y)
    ensures Convolve(a, x, y, SharpenKernel, ch) ==
      5 * At(a, x, y, 0, 0, ch) - At(a, x, y, -1, 0, ch) - At(a, x, y, 1, 0, ch)
        - At(a, x, y, 0, -1, ch) - At(a, x, y, 0, 1, ch)
  {
    ConvolveExpanded(a, x, y, SharpenKernel, ch);
    assert SharpenKernel[0][0] == 0 && SharpenKernel[0][1] == -1 && SharpenKernel[0][2] == 0;
    assert SharpenKernel[1][0] == -1 && SharpenKernel[1][1] == 5 && SharpenKernel[1][2] == -1;
    assert SharpenKernel[2][0] == 0 && SharpenKernel[2][1] == -1 && SharpenKernel[2][2] == 0;
    assert SharpenKernel[1][1] * At(a, x, y, 0, 0, ch) == 5 * At(a, x, y, 0, 0, ch);
  }

  /**
   * The first Sobel sum as the source indexes it (sobelX[i + 1, j + 1], i the x
   * offset): the rows below minus the rows above, weighted 1, 2, 1 across x.
   */
  lemma SobelXFormula(a: Bitmap, x: int, y: int, ch: Channel)
    requires Interior(a, x, y)
    ensures Convolve(a, x, y, SobelX, ch) ==
        (At(a, x, y, -1, 1, ch) + 2 * At(a, x, y, 0, 1, ch) + At(a, x, y, 1, 1, ch))
      - (At(a, x, y, -1, -1, ch) + 2 * At(a, x, y, 0, -1, ch) + At(a, x, y, 1, -1, ch))
  {
    ConvolveExpanded(a, x, y, SobelX, ch);
    assert SobelX[0][0] == -1 && SobelX[0][1] == 0 && SobelX[0][2] == 1;
    assert SobelX[1][0] == -2 && SobelX[1][1] == 0 && SobelX[1][2] == 2;
    assert SobelX[2][0] == -1 && SobelX[2][1] == 0 && SobelX[2][2] == 1;
  }

  /** The second Sobel sum: the column to the right minus the column to the left, weighted 1, 2, 1 across y. */
  lemma SobelYFormula(a: Bitmap, x: int, y: int, ch: Channel)
    requires Interior(a, x, y)
    ensures Convolve(a, x, y, SobelY, ch) ==
        (At(a, x, y, 1, -1, ch) + 2 * At(a, x, y, 1, 0, ch) + At(a, x, y, 1, 1, ch))
      - (At(a, x, y, -1, -1, ch) + 2 * At(a, x, y, -1, 0, ch) + At(a, x, y, -1, 1, ch))
  {
    ConvolveExpanded(a, x, y, SobelY, ch);
    assert SobelY[0][0] == -1 && SobelY[0][1] == -2 && SobelY[0][2] == -1;
    assert SobelY[1][0] == 0 && SobelY[1][1] == 0 && SobelY[1][2] == 0;
    assert SobelY[2][0] == 1 && SobelY[2][1] == 2 && SobelY[2][2] == 1;
  }

  /** On a uniform image, Sharpen leaves every interior pixel's colour unchanged. */
  lemma SharpenUniform(a: Bitmap, x: int, y: int, c: Color)
    requires Interior(a, x, y)
    requires forall i, j :: InBounds(a, i, j) ==> a[i, j] == c
    ensures SharpenPixel(a, x, y) == Opaque(c.r, c.g, c.b)
  {
    SharpenFormula(a, x, y, Red);
    SharpenFormula(a, x, y, Green);
    SharpenFormula(a, x, y, Blue);
  }

  /** Both Sobel components lie in [-1020, 1020], so their squares sum to at most 2 * 1020 * 1020. */
  lemma SobelBounds(a: Bitmap, x: int, y: int)
    requires Interior(a, x, y)
    ensures -1020 <= Convolve(a, x, y, SobelX, Luma) <= 1020
    ensures -1020 <= Convolve(a, x, y, SobelY, Luma) <= 1020
  {
    SobelXFormula(a, x, y, Luma);
    SobelYFormula(a, x, y, Luma);
  }

  /** Each Sobel kernel sums to zero, so a uniform image has no edges: every interior pixel is opaque black. */
  lemma EdgeUniform(a: Bitmap, x: int, y: int, c: Color)
    requires Interior(a, x, y)
    requires forall i, j :: InBounds(a, i, j) ==> a[i, j] == c
    ensures EdgePixel(a, x, y) == Opaque(0, 0, 0)
  {
    var v := GrayLevel(c);
    SobelXFormula(a, x, y, Luma);
    SobelYFormula(a, x, y, Luma);
    assert At(a, x, y, -1, -1, Luma) == At(a, x, y, -1, 0, Luma) == At(a, x, y, -1, 1, Luma) == v;
    assert At(a, x, y, 0, -1, Luma) == At(a, x, y, 0, 1, Luma) == v;
    assert At(a, x, y, 1, -1, Luma) == At(a, x, y, 1, 0, Luma) == At(a, x, y, 1, 1, Luma) == v;
    assert Convolve(a, x, y, SobelX, Luma) == 0;
    assert Convolve(a, x, y, SobelY, Luma) == 0;
    assert GradientMagnitude(0, 0) == 0;
  }
}
