/**
 * The box blur of csharp/MainForm.cs (ApplyBlurFilter), which works on the raw
 * bytes of a locked bitmap: height rows of stride bytes each, a pixel taking
 * bytesPerPixel bytes stored blue, green, red (and alpha with four bytes). Only
 * pixels whose whole 5x5 window lies inside the image are written; every other
 * byte of the destination keeps the zero it was allocated with.
 */
module ByteBlur {
  import opened Raster
  import opened Arith

  const KernelSize := 5
  const KernelOffset := (KernelSize - 1) / 2
  const TotalPixels := KernelSize * KernelSize

  /** The geometry of a locked bitmap: pixel width and height, bytes per row, bytes per pixel. */
  datatype Layout = Layout(width: nat, height: nat, stride: nat, bpp: nat)

  /** A buffer of height rows of stride bytes, each row long enough for width pixels. */
  predicate Fits(L: Layout, length: nat)
  {
    length == L.height * L.stride && L.width * L.bpp <= L.stride
  }

  /** currentY * stride + currentX * bytesPerPixel, plus the offset of the byte within the pixel. */
  function ByteIndex(L: Layout, px: int, row: int, ch: int): int
  {
    row * L.stride + px * L.bpp + ch
  }

  /** The row of byte i. */
  function RowOf(L: Layout, i: int): int
    requires 0 < L.stride
  {
    i / L.stride
  }

  /** The pixel column byte i belongs to (past width for the padding at the end of a row). */
  function PixelOf(L: Layout, i: int): int
    requires 0 < L.stride && 0 < L.bpp
  {
    (i % L.stride) / L.bpp
  }

  /** The position of byte i within its pixel: 0 blue, 1 green, 2 red, 3 alpha. */
  function ChannelOf(L: Layout, i: int): int
    requires 0 < L.stride && 0 < L.bpp
  {
    (i % L.stride) % L.bpp
  }

  /** The pixels the loops visit: those whose 5x5 window lies inside the image. */
  predicate InWindow(L: Layout, px: int, row: int)
  {
    KernelOffset <= px < L.width - KernelOffset && KernelOffset <= row < L.height - KernelOffset
  }

  /** Every byte a pixel of the image occupies lies inside the buffer. */
  lemma IndexInRange(L: Layout, px: int, row: int, ch: int)
    requires Fits(L, L.height * L.stride)
    requires 0 <= px < L.width && 0 <= row < L.height && 0 <= ch < L.bpp
    ensures 0 <= ByteIndex(L, px, row, ch) < L.height * L.stride
  {
    MulMonotone(px + 1, L.width, L.bpp);
    MulMonotone(row + 1, L.height, L.stride);
  }

  /** All the bytes of a pixel of the image lie inside the buffer. */
  lemma PixelInRange(L: Layout, px: int, row: int)
    requires Fits(L, L.height * L.stride)
    requires 0 <= px < L.width && 0 <= row < L.height
    ensures 0 <= ByteIndex(L, px, row, 0) && ByteIndex(L, px, row, 0) + L.bpp <= L.height * L.stride
  {
    MulMonotone(px + 1, L.width, L.bpp);
    MulMonotone(row + 1, L.height, L.stride);
  }

  /** Decomposing the index of a byte of the image gives back its row, pixel and channel. */
  lemma Locate(L: Layout, px: int, row: int, ch: int)
    requires Fits(L, L.height * L.stride)
    requires 0 <= px < L.width && 0 <= row < L.height && 0 <= ch < L.bpp
    ensures 0 < L.stride && 0 < L.bpp
    ensures RowOf(L, ByteIndex(L, px, row, ch)) == row
    ensures PixelOf(L, ByteIndex(L, px, row, ch)) == px
    ensures ChannelOf(L, ByteIndex(L, px, row, ch)) == ch
  {
    MulMonotone(px + 1, L.width, L.bpp);
    DivModUnique(ByteIndex(L, px, row, ch), L.stride, row, px * L.bpp + ch);
    DivModUnique(px * L.bpp + ch, L.bpp, px, ch);
  }

  /** The sum of one channel over kx = -2 .. kxEnd - 1 on row y + ky of the window around (x, y). */
  function KernelRowSum(src: array<byte>, L: Layout, x: int, y: int, ch: int, ky: int, kxEnd: int): int
    requires Fits(L, src.Length) && 3 <= L.bpp && 0 <= ch < 3
    requires InWindow(L, x, y) && -KernelOffset <= ky <= KernelOffset
    requires -KernelOffset <= kxEnd <= KernelOffset + 1
    reads src
    decreases kxEnd + KernelOffset
  {
    if kxEnd == -KernelOffset then 0
    else
      IndexInRange(L, x + kxEnd - 1, y + ky, ch);
      KernelRowSum(src, L, x, y, ch, ky, kxEnd - 1) + src[ByteIndex(L, x + kxEnd - 1, y + ky, ch)]
  }

  /** The sum of one channel over the rows ky = -2 .. kyEnd - 1 of the window around (x, y). */
  function WindowRowsSum(src: array<byte>, L: Layout, x: int, y: int, ch: int, kyEnd: int): int
    requires Fits(L, src.Length) && 3 <= L.bpp && 0 <= ch < 3
    requires InWindow(L, x, y) && -KernelOffset <= kyEnd <= KernelOffset + 1
    reads src
    decreases kyEnd + KernelOffset
  {
    if kyEnd == -KernelOffset then 0
    else WindowRowsSum(src, L, x, y, ch, kyEnd - 1) + KernelRowSum(src, L, x, y, ch, kyEnd - 1, KernelOffset + 1)
  }

  /** The sum of one channel over the whole 5x5 window around (x, y). */
  function ChannelSum(src: array<byte>, L: Layout, x: int, y: int, ch: int): int
    requires Fits(L, src.Length) && 3 <= L.bpp && 0 <= ch < 3 && InWindow(L, x, y)
    reads src
  {
    WindowRowsSum(src, L, x, y, ch, KernelOffset + 1)
  }

  lemma {:induction false} KernelRowSumBound(src: array<byte>, L: Layout, x: int, y: int, ch: int, ky: int, kxEnd: int)
    requires Fits(L, src.Length) && 3 <= L.bpp && 0 <= ch < 3
    requires InWindow(L, x, y) && -KernelOffset <= ky <= KernelOffset
    requires -KernelOffset <= kxEnd <= KernelOffset + 1
    ensures 0 <= KernelRowSum(src, L, x, y, ch, ky, kxEnd) <= 255 * (kxEnd + KernelOffset)
    decreases kxEnd + KernelOffset
  {
    if kxEnd > -KernelOffset {
      KernelRowSumBound(src, L, x, y, ch, ky, kxEnd - 1);
      IndexInRange(L, x + kxEnd - 1, y + ky, ch);
      var v := src[ByteIndex(L, x + kxEnd - 1, y + ky, ch)];
      assert KernelRowSum(src, L, x, y, ch, ky, kxEnd) == KernelRowSum(src, L, x, y, ch, ky, kxEnd - 1) + v;
    }
  }

  /** One more byte of the kernel row, at offset ch from the pixel's first byte. */
  lemma KernelRowStep(src: array<byte>, L: Layout, x: int, y: int, ch: int, ky: int, kx: int)
    requires Fits(L, src.Length) && 3 <= L.bpp && 0 <= ch < 3
    requires InWindow(L, x, y) && -KernelOffset <= ky <= KernelOffset
    requires -KernelOffset <= kx <= KernelOffset
    ensures 0 <= ByteIndex(L, x + kx, y + ky, 0) + ch < src.Length
    ensures KernelRowSum(src, L, x, y, ch, ky, kx + 1)
         == KernelRowSum(src, L, x, y, ch, ky, kx) + src[ByteIndex(L, x + kx, y + ky, 0) + ch]
  {
    IndexInRange(L, x + kx, y + ky, ch);
    assert ByteIndex(L, x + kx, y + ky, ch) == ByteIndex(L, x + kx, y + ky, 0) + ch;
  }

  lemma {:induction false} WindowRowsSumBound(src: array<byte>, L: Layout, x: int, y: int, ch: int, kyEnd: int)
    requires Fits(L, src.Length) && 3 <= L.bpp && 0 <= ch < 3
    requires InWindow(L, x, y) && -KernelOffset <= kyEnd <= KernelOffset + 1
    ensures 0 <= WindowRowsSum(src, L, x, y, ch, kyEnd) <= 255 * KernelSize * (kyEnd + KernelOffset)
    decreases kyEnd + KernelOffset
  {
    if kyEnd > -KernelOffset {
      WindowRowsSumBound(src, L, x, y, ch, kyEnd - 1);
      KernelRowSumBound(src, L, x, y, ch, kyEnd - 1, KernelOffset + 1);
    }
  }

  /** A window sum never exceeds 25 full-intensity bytes. */
  lemma ChannelSumBound(src: array<byte>, L: Layout, x: int, y: int, ch: int)
    requires Fits(L, src.Length) && 3 <= L.bpp && 0 <= ch < 3 && InWindow(L, x, y)
    ensures 0 <= ChannelSum(src, L, x, y, ch) <= 255 * TotalPixels
  {
    WindowRowsSumBound(src, L, x, y, ch, KernelOffset + 1);
  }

  /** (byte)(sum / totalPixels) for a window sum: the integer mean, which the cast keeps intact. */
  function Average(sum: int): (v: byte)
    requires 0 <= sum <= 255 * TotalPixels
    ensures v * TotalPixels <= sum < (v + 1) * TotalPixels
  {
    sum / TotalPixels
  }

  /** The blurred value of one colour channel of the interior pixel (x, y). */
  function BlurredChannel(src: array<byte>, L: Layout, x: int, y: int, ch: int): byte
    requires Fits(L, src.Length) && 3 <= L.bpp && 0 <= ch < 3 && InWindow(L, x, y)
    reads src
  {
    ChannelSumBound(src, L, x, y, ch);
    Average(ChannelSum(src, L, x, y, ch))
  }

  /** The value ApplyBlurFilter leaves in byte i of the destination. */
  function BlurredByte(src: array<byte>, L: Layout, i: int): byte
    requires Fits(L, src.Length) && 0 <= i < src.Length
    reads src
  {
    if L.bpp < 3 then 0
    else
      var px, row, ch := PixelOf(L, i), RowOf(L, i), ChannelOf(L, i);
      if !InWindow(L, px, row) then 0
      else if ch < 3 then BlurredChannel(src, L, px, row, ch)
      else if ch == 3 && L.bpp == 4 then src[i]
      else 0
  }

  /** Bytes of pixels the loops have passed: rows before y, and pixels before x on row y. */
  predicate Visited(L: Layout, i: int, x: int, y: int)
  {
    && 3 <= L.bpp && 0 < L.stride
    && (RowOf(L, i) < y || (RowOf(L, i) == y && PixelOf(L, i) < x))
  }

  /** Bytes of the pixel at (x, y). */
  predicate AtPixel(L: Layout, i: int, x: int, y: int)
  {
    0 < L.stride && 0 < L.bpp && RowOf(L, i) == y && PixelOf(L, i) == x
  }

  /**
   * ApplyBlurFilter on the byte buffers: a fresh zeroed destination the size of the
   * source, filled pixel by pixel for the rows and columns 2 .. size - 3. The source
   * is only read.
   */
  method ApplyBlurFilter(src: array<byte>, L: Layout) returns (dst: array<byte>)
    requires Fits(L, src.Length)
    ensures fresh(dst) && dst.Length == src.Length
    ensures forall i :: 0 <= i < dst.Length ==> dst[i] == BlurredByte(src, L, i)
  {
    dst := new byte[L.height * L.stride](_ => 0);
    var y := KernelOffset;
    while y < L.height - KernelOffset
      invariant KernelOffset <= y && (y == KernelOffset || y <= L.height - KernelOffset)
      invariant forall i :: 0 <= i < dst.Length ==>
        dst[i] == if Visited(L, i, KernelOffset, y) then BlurredByte(src, L, i) else 0
    {
      var x := KernelOffset;
      while x < L.width - KernelOffset
        invariant KernelOffset <= x && (x == KernelOffset || x <= L.width - KernelOffset)
        invariant forall i :: 0 <= i < dst.Length ==>
          dst[i] == if Visited(L, i, x, y) then BlurredByte(src, L, i) else 0
      {
        var red, green, blue := WindowSums(src, L, x, y);
        StorePixel(src, dst, L, x, y, red, green, blue);
        x := x + 1;
      }
      y := y + 1;
    }
  }

  /** The kernel loops of ApplyBlurFilter for the pixel at (x, y): the three channel sums. */
  method WindowSums(src: array<byte>, L: Layout, x: int, y: int) returns (red: int, green: int, blue: int)
    requires Fits(L, src.Length) && InWindow(L, x, y)
    ensures L.bpp < 3 ==> red == 0 && green == 0 && blue == 0
    ensures 3 <= L.bpp ==>
      blue == ChannelSum(src, L, x, y, 0) && green == ChannelSum(src, L, x, y, 1) && red == ChannelSum(src, L, x, y, 2)
  {
    red, green, blue := 0, 0, 0;
    var ky := -KernelOffset;
    while ky <= KernelOffset
      invariant -KernelOffset <= ky <= KernelOffset + 1
      invariant L.bpp < 3 ==> red == 0 && green == 0 && blue == 0
      invariant 3 <= L.bpp ==>
        && blue == WindowRowsSum(src, L, x, y, 0, ky)
        && green == WindowRowsSum(src, L, x, y, 1, ky)
        && red == WindowRowsSum(src, L, x, y, 2, ky)
    {
      red, green, blue := AddKernelRow(src, L, x, y, ky, red, green, blue);
      ky := ky + 1;
    }
  }

  /** The inner kernel loop: adds the five pixels of row y + ky of the window to the running sums. */
  method AddKernelRow(src: array<byte>, L: Layout, x: int, y: int, ky: int, red0: int, green0: int, blue0: int)
    returns (red: int, green: int, blue: int)
    requires Fits(L, src.Length) && InWindow(L, x, y) && -KernelOffset <= ky <= KernelOffset
    ensures L.bpp < 3 ==> red == red0 && green == green0 && blue == blue0
    ensures 3 <= L.bpp ==>
      && blue == blue0 + KernelRowSum(src, L, x, y, 0, ky, KernelOffset + 1)
      && green == green0 + KernelRowSum(src, L, x, y, 1, ky, KernelOffset + 1)
      && red == red0 + KernelRowSum(src, L, x, y, 2, ky, KernelOffset + 1)
  {
    red, green, blue := red0, green0, blue0;
    var kx := -KernelOffset;
    while kx <= KernelOffset
      invariant -KernelOffset <= kx <= KernelOffset + 1
      invariant L.bpp < 3 ==> red == red0 && green == green0 && blue == blue0
      invariant 3 <= L.bpp ==>
        && blue == blue0 + KernelRowSum(src, L, x, y, 0, ky, kx)
        && green == green0 + KernelRowSum(src, L, x, y, 1, ky, kx)
        && red == red0 + KernelRowSum(src, L, x, y, 2, ky, kx)
    {
      var index := ByteIndex(L, x + kx, y + ky, 0);
      if L.bpp >= 3 {
        IndexInRange(L, x + kx, y + ky, 2);
        KernelRowStep(src, L, x, y, 0, ky, kx);
        KernelRowStep(src, L, x, y, 1, ky, kx);
        KernelRowStep(src, L, x, y, 2, ky, kx);
        blue := blue + src[index];
        green := green + src[index + 1];
        red := red + src[index + 2];
      }
      kx := kx + 1;
    }
  }

  /** The write-back of one pixel: the blue, green and red averages, and the alpha byte copied with four bytes per pixel. */
  method StorePixel(src: array<byte>, dst: array<byte>, L: Layout, x: int, y: int, red: int, green: int, blue: int)
    requires Fits(L, src.Length) && dst.Length == src.Length && dst != src && InWindow(L, x, y)
    requires 3 <= L.bpp ==>
      blue == ChannelSum(src, L, x, y, 0) && green == ChannelSum(src, L, x, y, 1) && red == ChannelSum(src, L, x, y, 2)
    requires forall i :: 0 <= i < dst.Length && AtPixel(L, i, x, y) ==> dst[i] == 0
    modifies dst
    ensures forall i :: 0 <= i < dst.Length ==>
      dst[i] == if AtPixel(L, i, x, y) then BlurredByte(src, L, i) else old(dst[i])
  {
    if L.bpp >= 3 {
      ChannelSumBound(src, L, x, y, 0);
      ChannelSumBound(src, L, x, y, 1);
      ChannelSumBound(src, L, x, y, 2);
      var dstIndex := ByteIndex(L, x, y, 0);
      PixelInRange(L, x, y);
      dst[dstIndex] := Average(blue);
      dst[dstIndex + 1] := Average(green);
      dst[dstIndex + 2] := Average(red);
      assert dst[dstIndex] == BlurredChannel(src, L, x, y, 0);
      assert dst[dstIndex + 1] == BlurredChannel(src, L, x, y, 1);
      assert dst[dstIndex + 2] == BlurredChannel(src, L, x, y, 2);
      if L.bpp == 4 {
        dst[dstIndex + 3] := src[dstIndex + 3];
      }
      forall i | 0 <= i < dst.Length
        ensures dst[i] == if AtPixel(L, i, x, y) then BlurredByte(src, L, i) else old(dst[i])
      {
        PixelBlock(L, x, y, i);
        if AtPixel(L, i, x, y) {
          PixelByte(src, L, x, y, i);
        }
      }
    } else {
      forall i | 0 <= i < dst.Length && AtPixel(L, i, x, y)
        ensures BlurredByte(src, L, i) == 0
      {
      }
    }
  }

  /** What BlurredByte gives for the byte ch of an interior pixel (x, y). */
  lemma PixelByte(src: array<byte>, L: Layout, x: int, y: int, i: int)
    requires Fits(L, src.Length) && 3 <= L.bpp && InWindow(L, x, y)
    requires 0 <= i < src.Length && AtPixel(L, i, x, y)
    ensures var ch := ChannelOf(L, i);
      BlurredByte(src, L, i) ==
        if ch < 3 then BlurredChannel(src, L, x, y, ch)
        else if ch == 3 && L.bpp == 4 then src[i]
        else 0
  {
  }

  /** The bytes of the pixel at (x, y) are the bpp consecutive bytes from its first one. */
  lemma PixelBlock(L: Layout, x: int, y: int, i: int)
    requires Fits(L, L.height * L.stride) && 0 < L.bpp
    requires 0 <= x < L.width && 0 <= y < L.height && 0 <= i
    ensures 0 < L.stride
    ensures AtPixel(L, i, x, y) <==> ByteIndex(L, x, y, 0) <= i < ByteIndex(L, x, y, 0) + L.bpp
    ensures AtPixel(L, i, x, y) ==> ChannelOf(L, i) == i - ByteIndex(L, x, y, 0)
  {
    Locate(L, x, y, 0);
    var first := ByteIndex(L, x, y, 0);
    if first <= i < first + L.bpp {
      Locate(L, x, y, i - first);
    }
    if AtPixel(L, i, x, y) {
      assert i == RowOf(L, i) * L.stride + i % L.stride;
      assert i % L.stride == PixelOf(L, i) * L.bpp + ChannelOf(L, i);
    }
  }

  /** An interior pixel's blue, green and red bytes hold the integer mean of the 25 window bytes of the same channel. */
  lemma InteriorChannel(src: array<byte>, L: Layout, x: int, y: int, ch: int)
    requires Fits(L, src.Length) && 3 <= L.bpp && InWindow(L, x, y) && 0 <= ch < 3
    ensures 0 <= ByteIndex(L, x, y, ch) < src.Length
    ensures BlurredByte(src, L, ByteIndex(L, x, y, ch)) == BlurredChannel(src, L, x, y, ch)
    ensures BlurredChannel(src, L, x, y, ch) * TotalPixels <= ChannelSum(src, L, x, y, ch)
              < (BlurredChannel(src, L, x, y, ch) + 1) * TotalPixels
  {
    IndexInRange(L, x, y, ch);
    Locate(L, x, y, ch);
    ChannelSumBound(src, L, x, y, ch);
  }

  /** The bytes of an interior pixel past red: alpha copied from the source with four bytes per pixel, zero otherwise. */
  lemma InteriorExtraByte(src: array<byte>, L: Layout, x: int, y: int, ch: int)
    requires Fits(L, src.Length) && 3 <= L.bpp && InWindow(L, x, y) && 3 <= ch < L.bpp
    ensures 0 <= ByteIndex(L, x, y, ch) < src.Length
    ensures BlurredByte(src, L, ByteIndex(L, x, y, ch)) ==
      if ch == 3 && L.bpp == 4 then src[ByteIndex(L, x, y, ch)] else 0
  {
    IndexInRange(L, x, y, ch);
    Locate(L, x, y, ch);
  }

  /** Every byte of a pixel outside the interior stays zero, whatever the pixel format. */
  lemma BorderStaysZero(src: array<byte>, L: Layout, x: int, y: int, ch: int)
    requires Fits(L, src.Length) && 0 <= x < L.width && 0 <= y < L.height && 0 <= ch < L.bpp
    requires !InWindow(L, x, y)
    ensures 0 <= ByteIndex(L, x, y, ch) < src.Length
    ensures BlurredByte(src, L, ByteIndex(L, x, y, ch)) == 0
  {
    IndexInRange(L, x, y, ch);
    Locate(L, x, y, ch);
  }

  /** A byte past the first width * bpp bytes of a row belongs to no pixel of the image. */
  lemma PaddingColumn(L: Layout, col: int)
    requires 0 < L.bpp && L.width * L.bpp <= col
    ensures col / L.bpp >= L.width
  {
    var px := col / L.bpp;
    if px < L.width {
      MulMonotone(px + 1, L.width, L.bpp);
      assert false;
    }
  }

  /** Byte col of row row lies in the buffer, on that row, at offset col. */
  lemma RowOffset(L: Layout, row: int, col: int)
    requires 0 <= row < L.height && 0 <= col < L.stride
    ensures 0 <= row * L.stride + col < L.height * L.stride
    ensures (row * L.stride + col) / L.stride == row && (row * L.stride + col) % L.stride == col
  {
    MulMonotone(row + 1, L.height, L.stride);
    DivModUnique(row * L.stride + col, L.stride, row, col);
  }

  /** The padding bytes at the end of each row, past width pixels, stay zero. */
  lemma PaddingStaysZero(src: array<byte>, L: Layout, row: int, col: int)
    requires Fits(L, src.Length) && 0 <= row < L.height && L.width * L.bpp <= col < L.stride
    ensures 0 <= row * L.stride + col < src.Length
    ensures BlurredByte(src, L, row * L.stride + col) == 0
  {
    RowOffset(L, row, col);
    if 3 <= L.bpp {
      PaddingColumn(L, col);
      var i := row * L.stride + col;
      assert PixelOf(L, i) == col / L.bpp;
    }
  }

  /** With fewer than three bytes per pixel nothing at all is written. */
  lemma NarrowFormatUntouched(src: array<byte>, L: Layout, x: int, y: int, ch: int)
    requires Fits(L, src.Length) && L.bpp < 3
    requires 0 <= x < L.width && 0 <= y < L.height && 0 <= ch < L.bpp
    ensures 0 <= ByteIndex(L, x, y, ch) < src.Length
    ensures BlurredByte(src, L, ByteIndex(L, x, y, ch)) == 0
  {
    IndexInRange(L, x, y, ch);
  }
}
