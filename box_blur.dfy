/**
 * ApplyBlur of Form1.cs: a 5x5 box blur whose window is clipped to the image, so
 * every pixel, borders included, is the integer mean of the pixels of its window
 * that exist. Alpha is not averaged: every output pixel is opaque.
 */
module BoxBlur {
  import opened Raster
  import opened Arith

  const BlurSize := 5
  /** blurSize / 2: the window spans offsets -Radius..Radius in each direction. */
  const Radius := BlurSize / 2

  /**
   * Column nx of the window around row y, rows y + dy for dy in [-Radius, dyEnd): how
   * many exist. That is the length of [y - Radius, y + dyEnd) clipped to [0, height),
   * or none when the column lies outside the image.
   */
  function ColumnCount(width: int, height: int, nx: int, y: int, dyEnd: int): (n: nat)
    requires -Radius <= dyEnd <= Radius + 1
    ensures n == if 0 <= nx < width then Overlap(y - Radius, y + dyEnd, 0, height) else 0
    decreases dyEnd + Radius
  {
    if dyEnd == -Radius then 0
    else
      var ny := y + dyEnd - 1;
      ColumnCount(width, height, nx, y, dyEnd - 1)
        + (if 0 <= nx < width && 0 <= ny < height then 1 else 0)
  }

  /** The number of integers in both [lo, hi) and [lo', hi'). */
  function Overlap(lo: int, hi: int, lo': int, hi': int): nat
  {
    var l := if lo < lo' then lo' else lo;
    var h := if hi < hi' then hi else hi';
    if l < h then h - l else 0
  }

  /** The same column: the sum of channel ch over the pixels that exist. */
  function ColumnSum(a: Bitmap, nx: int, y: int, dyEnd: int, ch: Channel): (s: int)
    reads a
    requires -Radius <= dyEnd <= Radius + 1
    decreases dyEnd + Radius
  {
    if dyEnd == -Radius then 0
    else
      var ny := y + dyEnd - 1;
      ColumnSum(a, nx, y, dyEnd - 1, ch)
        + (if InBounds(a, nx, ny) then Sample(a[nx, ny], ch) else 0)
  }

  /** Columns x + dx for dx in [-Radius, dxEnd) of the window around (x, y): how many pixels exist. */
  function WindowCount(width: int, height: int, x: int, y: int, dxEnd: int): (n: nat)
    requires -Radius <= dxEnd <= Radius + 1
    decreases dxEnd + Radius
  {
    if dxEnd == -Radius then 0
    else WindowCount(width, height, x, y, dxEnd - 1) + ColumnCount(width, height, x + dxEnd - 1, y, Radius + 1)
  }

  /** The same columns: the sum of channel ch over the pixels that exist. */
  function WindowSum(a: Bitmap, x: int, y: int, dxEnd: int, ch: Channel): (s: int)
    reads a
    requires -Radius <= dxEnd <= Radius + 1
    decreases dxEnd + Radius
  {
    if dxEnd == -Radius then 0
    else WindowSum(a, x, y, dxEnd - 1, ch) + ColumnSum(a, x + dxEnd - 1, y, Radius + 1, ch)
  }

  /** `if (count > 0) sum /= count`: the integer mean of count samples. */
  function Mean(sum: int, count: nat): (m: byte)
    requires 0 <= sum <= 255 * count
    ensures count > 0 ==> m * count <= sum < (m + 1) * count
  {
    if count > 0 then
      MeanBound(sum, count);
      sum / count
    else sum
  }

  lemma MeanBound(sum: int, count: nat)
    requires count > 0 && 0 <= sum <= 255 * count
    ensures sum / count <= 255
  {
  }

  /** The blurred value of pixel (x, y). */
  function BlurPixel(a: Bitmap, x: int, y: int): Color
    reads a
  {
    var n := WindowCount(a.Length0, a.Length1, x, y, Radius + 1);
    WindowSumBound(a, x, y, Radius + 1, Red);
    WindowSumBound(a, x, y, Radius + 1, Green);
    WindowSumBound(a, x, y, Radius + 1, Blue);
    Opaque(Mean(WindowSum(a, x, y, Radius + 1, Red), n),
           Mean(WindowSum(a, x, y, Radius + 1, Green), n),
           Mean(WindowSum(a, x, y, Radius + 1, Blue), n))
  }

  method ApplyBlur(original: Bitmap) returns (result: Bitmap)
    ensures fresh(result)
    ensures SameSize(result, original)
    ensures forall x, y :: InBounds(original, x, y) ==> result[x, y] == BlurPixel(original, x, y)
  {
    var width, height := original.Length0, original.Length1;
    result := new Color[width, height]((x, y) => Blank);
    var x := 0;
    while x < width
      invariant 0 <= x <= width
      invariant forall i, j :: 0 <= i < x && 0 <= j < height ==> result[i, j] == BlurPixel(original, i, j)
    {
      var y := 0;
      while y < height
        invariant 0 <= y <= height
        invariant forall i, j :: 0 <= i < x && 0 <= j < height ==> result[i, j] == BlurPixel(original, i, j)
        invariant forall j :: 0 <= j < y ==> result[x, j] == BlurPixel(original, x, j)
      {
        var pixel := BlurAt(original, x, y);
        result[x, y] := pixel;
        y := y + 1;
      }
      x := x + 1;
    }
  }

  /** The body of ApplyBlur's pixel loop: accumulate the window, then divide by the count. */
  method BlurAt(original: Bitmap, x: int, y: int) returns (pixel: Color)
    ensures pixel == BlurPixel(original, x, y)
  {
    var width, height := original.Length0, original.Length1;
    var r, g, b, count := 0, 0, 0, 0;
    var dx := -Radius;
    while dx <= Radius
      invariant -Radius <= dx <= Radius + 1
      invariant r == WindowSum(original, x, y, dx, Red)
      invariant g == WindowSum(original, x, y, dx, Green)
      invariant b == WindowSum(original, x, y, dx, Blue)
      invariant count == WindowCount(width, height, x, y, dx)
    {
      var cr, cg, cb, n := ColumnAt(original, x + dx, y);
      r, g, b, count := r + cr, g + cg, b + cb, count + n;
      dx := dx + 1;
    }
    WindowSumBound(original, x, y, Radius + 1, Red);
    WindowSumBound(original, x, y, Radius + 1, Green);
    WindowSumBound(original, x, y, Radius + 1, Blue);
    pixel := Opaque(Mean(r, count), Mean(g, count), Mean(b, count));
  }

  /** The dy loop of ApplyBlur for column nx: the channel sums and the number of pixels that exist. */
  method ColumnAt(original: Bitmap, nx: int, y: int) returns (r: int, g: int, b: int, count: int)
    ensures r == ColumnSum(original, nx, y, Radius + 1, Red)
    ensures g == ColumnSum(original, nx, y, Radius + 1, Green)
    ensures b == ColumnSum(original, nx, y, Radius + 1, Blue)
    ensures count == ColumnCount(original.Length0, original.Length1, nx, y, Radius + 1)
  {
    var width, height := original.Length0, original.Length1;
    r, g, b, count := 0, 0, 0, 0;
    var dy := -Radius;
    while dy <= Radius
      invariant -Radius <= dy <= Radius + 1
      invariant r == ColumnSum(original, nx, y, dy, Red)
      invariant g == ColumnSum(original, nx, y, dy, Green)
      invariant b == ColumnSum(original, nx, y, dy, Blue)
      invariant count == ColumnCount(width, height, nx, y, dy)
    {
      var ny := y + dy;
      if nx >= 0 && nx < width && ny >= 0 && ny < height {
        var c := original[nx, ny];
        r, g, b := r + c.r, g + c.g, b + c.b;
        count := count + 1;
      }
      dy := dy + 1;
    }
  }

  // ---- properties ----

  /** A column sums to at most 255 per sample it holds. */
  lemma {:induction false} ColumnSumBound(a: Bitmap, nx: int, y: int, dyEnd: int, ch: Channel)
    requires -Radius <= dyEnd <= Radius + 1
    ensures 0 <= ColumnSum(a, nx, y, dyEnd, ch) <= 255 * ColumnCount(a.Length0, a.Length1, nx, y, dyEnd)
    decreases dyEnd + Radius
  {
    if dyEnd > -Radius {
      ColumnSumBound(a, nx, y, dyEnd - 1, ch);
    }
  }

  /** A window sums to at most 255 per sample it holds, so every mean fits in a byte. */
  lemma {:induction false} WindowSumBound(a: Bitmap, x: int, y: int, dxEnd: int, ch: Channel)
    requires -Radius <= dxEnd <= Radius + 1
    ensures 0 <= WindowSum(a, x, y, dxEnd, ch) <= 255 * WindowCount(a.Length0, a.Length1, x, y, dxEnd)
    decreases dxEnd + Radius
  {
    if dxEnd > -Radius {
      WindowSumBound(a, x, y, dxEnd - 1, ch);
      ColumnSumBound(a, x + dxEnd - 1, y, Radius + 1, ch);
    }
  }

  /** The column through the centre of the window always holds the centre pixel. */
  lemma {:induction false} CentreColumnCounted(width: int, height: int, x: int, y: int, dyEnd: int)
    requires 0 <= x < width && 0 <= y < height
    requires 1 <= dyEnd <= Radius + 1
    ensures ColumnCount(width, height, x, y, dyEnd) >= 1
  {
    if dyEnd > 1 {
      CentreColumnCounted(width, height, x, y, dyEnd - 1);
    }
  }

  lemma {:induction false} WindowCountGrows(width: int, height: int, x: int, y: int, dxEnd: int)
    requires 1 <= dxEnd <= Radius + 1
    ensures WindowCount(width, height, x, y, dxEnd) >= ColumnCount(width, height, x, y, Radius + 1)
  {
    if dxEnd > 1 {
      WindowCountGrows(width, height, x, y, dxEnd - 1);
    }
  }

  /** Every pixel of the image has at least one sample in its window (itself), so no mean divides by zero. */
  lemma WindowNeverEmpty(a: Bitmap, x: int, y: int)
    requires InBounds(a, x, y)
    ensures WindowCount(a.Length0, a.Length1, x, y, Radius + 1) >= 1
  {
    CentreColumnCounted(a.Length0, a.Length1, x, y, Radius + 1);
    WindowCountGrows(a.Length0, a.Length1, x, y, Radius + 1);
  }

  /** On a region where channel ch is the constant v, a column sums to v per sample. */
  lemma {:induction false} UniformColumn(a: Bitmap, nx: int, y: int, dyEnd: int, ch: Channel, v: byte)
    requires -Radius <= dyEnd <= Radius + 1
    requires forall i, j :: InBounds(a, i, j) ==> Sample(a[i, j], ch) == v
    ensures ColumnSum(a, nx, y, dyEnd, ch) == v * ColumnCount(a.Length0, a.Length1, nx, y, dyEnd)
    decreases dyEnd + Radius
  {
    if dyEnd > -Radius {
      UniformColumn(a, nx, y, dyEnd - 1, ch, v);
      var ny := y + dyEnd - 1;
      Distribute(v, ColumnCount(a.Length0, a.Length1, nx, y, dyEnd - 1), if InBounds(a, nx, ny) then 1 else 0);
    }
  }

  lemma {:induction false} UniformWindow(a: Bitmap, x: int, y: int, dxEnd: int, ch: Channel, v: byte)
    requires -Radius <= dxEnd <= Radius + 1
    requires forall i, j :: InBounds(a, i, j) ==> Sample(a[i, j], ch) == v
    ensures WindowSum(a, x, y, dxEnd, ch) == v * WindowCount(a.Length0, a.Length1, x, y, dxEnd)
    decreases dxEnd + Radius
  {
    if dxEnd > -Radius {
      UniformWindow(a, x, y, dxEnd - 1, ch, v);
      UniformColumn(a, x + dxEnd - 1, y, Radius + 1, ch, v);
      Distribute(v, WindowCount(a.Length0, a.Length1, x, y, dxEnd - 1),
                 ColumnCount(a.Length0, a.Length1, x + dxEnd - 1, y, Radius + 1));
    }
  }

  /** Blurring an image whose every pixel has the same colour changes no red, green or blue value. */
  lemma BlurUniform(a: Bitmap, x: int, y: int, c: Color)
    requires InBounds(a, x, y)
    requires forall i, j :: InBounds(a, i, j) ==> a[i, j] == c
    ensures BlurPixel(a, x, y) == Opaque(c.r, c.g, c.b)
  {
    var n := WindowCount(a.Length0, a.Length1, x, y, Radius + 1);
    WindowNeverEmpty(a, x, y);
    UniformWindow(a, x, y, Radius + 1, Red, c.r);
    UniformWindow(a, x, y, Radius + 1, Green, c.g);
    UniformWindow(a, x, y, Radius + 1, Blue, c.b);
    MeanOfConstant(c.r, n);
    MeanOfConstant(c.g, n);
    MeanOfConstant(c.b, n);
  }

  lemma MeanOfConstant(v: byte, n: nat)
    requires n >= 1
    ensures Mean(v * n, n) == v
  {
    var m := Mean(v * n, n);
    if m < v {
      MulMonotone(m + 1, v, n);
    } else if m > v {
      MulMonotone(v + 1, m, n);
    }
  }

  lemma Distribute(v: int, p: int, q: int)
    ensures v * p + v * q == v * (p + q)
  {
  }
}
