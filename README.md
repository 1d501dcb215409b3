# Dual Filter Image, modelled in Dafny

Dual Filter Image shows one picture twice, side by side. Each side runs its own
"filter stream", which cycles through a fixed list of image filters. In Form1 the
left side advances on a timer and the right side on a button. In MainForm the left
side advances on the Step button and the right side on the animation timer.

The repository holds three front ends. This model covers the logic they share:

- **Form1.cs** (WinForms). Eight pixel filters (Grayscale, Sepia, Invert,
  Blur, Sharpen, Brightness, Contrast, Edge Detection), registered in a fixed order.
  It also holds the state of its two streams: a timer-driven left side guarded by
  `isProcessingLeft`, and a button-driven right side with no guard.
- **csharp/MainForm.cs** (WinForms, second version):
  - A 5x5 box blur over the raw bytes of a locked bitmap.
  - A seven-value `FilterType` enum that starts with `Original`.
  - Two streams, each guarded by its own busy flag. Each stream advances its index
    *before* filtering.
- **java/.../core/FilterType.java** (JavaFX version). Six enum constants with
  display names, and `getNext`, a modular successor.

Modules:

| file | module | what it holds |
|---|---|---|
| `arith.dfy` | `Arith` | multiplication and Euclidean-division facts used by the proofs |
| `wrappers.dfy` | `Wrappers` | `Option` |
| `raster.dfy` | `Raster` | bytes, ARGB colours, bitmaps as `array2<Color>` indexed `[x, y]`, `new Bitmap(original)`, and the shared point-filter loop |
| `point_filters.dfy` | `PointFilters` | Grayscale, Sepia, Invert, Brightness, Contrast |
| `box_blur.dfy` | `BoxBlur` | Form1's clipped 5x5 box blur |
| `convolution.dfy` | `Convolution` | Sharpen and Sobel Edge Detection |
| `form1_catalog.dfy` | `Form1Catalog` | the filter list and dispatch by position |
| `cyclic_index.dfy` | `CyclicIndex` | the `(index + 1) % count` arithmetic shared by every stream |
| `form1_streams.dfy` | `Form1Streams` | the state of Form1's two streams, as a class |
| `byte_blur.dfy` | `ByteBlur` | MainForm's `ApplyBlurFilter` over flat byte arrays |
| `mainform_streams.dfy` | `MainFormStreams` | MainForm's enum, `ApplyFilter` dispatch, and the state of its two streams, as a class |
| `java_filter_type.dfy` | `JavaFilterType` | the Java `FilterType` enum |

Each filter is an imperative method that fills a fresh array with nested loops, as
the source does. Its postcondition ties every output pixel or byte to a pure
per-pixel specification function. The properties are lemmas about those functions.

Each stream's `await` is split into three transitions:

- a *begin* step, which runs on the UI thread before the await;
- a *complete* step, for when the filter returned;
- a *fail* step, for when the filter threw.

Behaviour of the code a reader might not expect:

- **No stale-result guard.** Nothing discards a filter result that finishes after a
  new image was loaded. Loading leaves the busy flags alone, and a completion that
  arrives later still installs its image.
- **Form1 advances the index held at completion time.** On completion, Form1 sets
  the index to the successor of the index it holds at that moment, not of the
  index it started from.
- **Form1's right side has no busy guard.** Two clicks before the first filter
  finishes apply the same filter twice and skip the next one. See
  `OverlappingRightClicks`.
- **Sharpen and Edge Detection leave the border unwritten.** The one-pixel border
  keeps the value of a new bitmap, which is transparent black. It is not a copy of
  the source.
- **MainForm advances before filtering, and never undoes the advance.** Its index
  moves before the filter runs, and a failure does not restore it.
- **MainForm's blur writes only interior pixels.** It leaves zero bytes everywhere
  else.
- **Edge Detection truncates the square root.** The code uses `(int)Math.Sqrt`,
  which truncates rather than rounds.

## Model

| member | source | states |
|---|---|---|
| Raster.CopyBitmap | Form1.cs:535-536 | `new Bitmap(original)` is a fresh bitmap of the same size with the same pixels when every pixel is opaque |
| Raster.MapPixels | Form1.cs:972-984 | the x-then-y loop of the point filters writes f of the source pixel at every (x, y) of a fresh same-size bitmap |
| Raster.GrayLevel | Form1.cs:979 | the gray level is the floor of 0.299 R + 0.587 G + 0.114 B, taken with exact decimal weights |
| Raster.Clamp | Form1.cs:1098-1100 | `Math.Max(0, Math.Min(255, n))`: 0 below the range, 255 above it, n inside it |
| PointFilters.GrayPixel | Form1.cs:978-980 | a grayscale pixel is opaque, and its red, green and blue all equal the gray level |
| PointFilters.SepiaChannel | Form1.cs:997-1003 | a sepia channel is the truncated weighted sum when that is below 255, and it is 255 exactly when the sum reaches 255 |
| PointFilters.InvertPixel | Form1.cs:1021-1022 | each inverted channel and its source channel add up to 255, and alpha is 255 |
| PointFilters.BrightenChannel | Form1.cs:1113-1122 | the output is at least the input and at least 50; it is either 255 or input + 50, and it is 255 exactly when the input is at least 205 |
| PointFilters.ApplyGrayscale | Form1.cs:970-985 | the result is a fresh bitmap of the source's size, and every pixel is opaque gray at the source pixel's gray level |
| PointFilters.ApplySepia | Form1.cs:988-1010 | the result is a fresh bitmap of the source's size, and every pixel is the sepia of the source pixel |
| PointFilters.ApplyInvert | Form1.cs:1013-1027 | the result is a fresh bitmap of the source's size, and every pixel is the inverse of the source pixel |
| PointFilters.ApplyBrightness | Form1.cs:1110-1129 | the result is a fresh bitmap of the source's size, and every channel is `min(255, c + 50)` |
| PointFilters.ApplyContrast | Form1.cs:1132-1151 | the result is a fresh bitmap of the source's size, and every channel is the clamped contrast of the source channel |
| PointFilters.InvertTwice | Form1.cs:1022 | inverting twice restores red, green and blue, and makes alpha opaque |
| PointFilters.InvertTwiceRestores | Form1.cs:1013-1027 | running Invert twice on an image gives back every pixel's red, green and blue |
| PointFilters.BrightenWhite | Form1.cs:1120-1122 | an all-white pixel stays all white |
| PointFilters.ContrastChannel | Form1.cs:1142-1144 | the contrast of v is 0 when (v - 128) * 1.5 + 128 is at most 0, 255 when it is at least 255, and otherwise its floor |
| PointFilters.ContrastFixesMidpoint | Form1.cs:1142 | 128 maps to 128 |
| PointFilters.ContrastMonotone | Form1.cs:1142-1144 | contrast never reverses the order of two levels |
| PointFilters.ContrastMatchesRealFormula | Form1.cs:1135-1144 | the integer contrast is the truncation of the real clamp of `(v - 128) * 1.5 + 128` to [0, 255] |
| BoxBlur.ColumnCount | Form1.cs:1044-1055 | the number of in-bounds samples in one column of the window is the length of the rows visited clipped to [0, height), or 0 when the column lies outside the image |
| BoxBlur.Mean | Form1.cs:1060-1065 | the division by count is the floor mean: `m * count <= sum < (m + 1) * count` |
| BoxBlur.ApplyBlur | Form1.cs:1030-1072 | the result is a fresh bitmap of the source's size; every pixel of the result is the opaque colour of the per-channel floor means over the 5x5 window clipped to the image |
| BoxBlur.BlurAt | Form1.cs:1039-1067 | the dx loop and the division produce the opaque floor mean of the clipped window |
| BoxBlur.ColumnAt | Form1.cs:1044-1056 | the dy loop with its bounds check adds exactly the pixels of one column that exist, and counts them |
| BoxBlur.ColumnSumBound | Form1.cs:1049-1055 | a column sum lies between 0 and 255 times its sample count |
| BoxBlur.WindowSumBound | Form1.cs:1049-1055 | a window sum lies between 0 and 255 times its sample count |
| BoxBlur.CentreColumnCounted | Form1.cs:1042-1055 | the centre pixel of the window is always counted |
| BoxBlur.WindowCountGrows | Form1.cs:1042-1055 | the count never decreases as the window widens |
| BoxBlur.WindowNeverEmpty | Form1.cs:1060 | every pixel's window holds at least one sample, so the division always happens |
| BoxBlur.UniformColumn | Form1.cs:1044-1055 | on a uniform image, a column sum is the level times the column count |
| BoxBlur.UniformWindow | Form1.cs:1042-1058 | on a uniform image, a window sum is the level times the window count |
| BoxBlur.BlurUniform | Form1.cs:1030-1072 | a uniform image stays unchanged, apart from alpha becoming opaque |
| BoxBlur.MeanOfConstant | Form1.cs:1062-1064 | the mean of count copies of v is v |
| Convolution.ApplySharpen | Form1.cs:1075-1107 | the result is a fresh bitmap of the source's size; interior pixels are the clamped sharpen convolution; border pixels keep the blank value of a new bitmap |
| Convolution.SharpenAt | Form1.cs:1084-1102 | the i/j kernel loops compute the sharpen convolution of each channel, then clamp it |
| Convolution.FloorSqrt | Form1.cs:1179 | `(int)Math.Sqrt(n)` is the integer r with `r * r <= n < (r + 1) * (r + 1)` |
| Convolution.GradientMagnitude | Form1.cs:1179-1180 | the magnitude is 255 exactly when gx² + gy² >= 255², and otherwise it is the floor square root |
| Convolution.ApplyEdgeDetection | Form1.cs:1154-1187 | the result is a fresh bitmap of the source's size; interior pixels are opaque gray at the Sobel magnitude of the grayscale image; border pixels stay blank |
| Convolution.EdgeAt | Form1.cs:1166-1180 | reading the red channel of the grayscale bitmap through the kernel loops gives the Sobel magnitude of the gray levels |
| Convolution.ConvolveExpanded | Form1.cs:1086-1096 | the loop-order sum equals the nine-term weighted sum of the neighbourhood |
| Convolution.SharpenFormula | Form1.cs:1078-1096 | sharpen is 5 c(x, y) minus the four edge neighbours |
| Convolution.SobelXFormula | Form1.cs:1159-1174 | with `sobelX[i + 1, j + 1]` and i the x offset, the first gradient is the row below minus the row above, weighted 1, 2, 1 |
| Convolution.SobelYFormula | Form1.cs:1160-1175 | the second gradient is the right column minus the left column, weighted 1, 2, 1 |
| Convolution.SharpenUniform | Form1.cs:1075-1107 | on a uniform image, sharpen leaves each interior pixel's colour unchanged |
| Convolution.SobelBounds | Form1.cs:1166-1177 | both gradients lie in [-1020, 1020] |
| Convolution.EdgeUniform | Form1.cs:1154-1187 | a uniform image has magnitude 0 at every interior pixel |
| Form1Catalog.ApplyFilterAt | Form1.cs:85-95 | `filters[index](original)` returns a fresh bitmap holding the filter at that position of the list, in the list's order |
| CyclicIndex.Next | Form1.cs:675 | `(i + 1) % count` stays in range, and wraps only from the last position |
| CyclicIndex.AdvanceAdds | Form1.cs:675 | n successful applications move the index n places, modulo the list length |
| CyclicIndex.CycleCloses | Form1.cs:769 | after as many applications as there are filters, the index is back where it started |
| CyclicIndex.EveryPositionVisited | Form1.cs:675 | every filter is reached from every index |
| Form1Streams.DualFilterForm.constructor | Form1.cs:39-54 | the form starts with no image, both indices 0, and nothing running |
| Form1Streams.DualFilterForm.Load | Form1.cs:525-548 | loading resets both indices to 0, installs fresh copies of the source on both sides, stops the timer, and leaves the busy flag alone |
| Form1Streams.DualFilterForm.StartStop | Form1.cs:569-599 | the timer toggles only when an image is loaded |
| Form1Streams.DualFilterForm.BeginLeft | Form1.cs:602-616 | a tick is ignored while busy or with no image; otherwise it sets the busy flag and picks the current index |
| Form1Streams.DualFilterForm.CompleteLeft | Form1.cs:630-675 | success installs the result, moves the index to its successor, and clears the busy flag |
| Form1Streams.DualFilterForm.FailLeft | Form1.cs:677-686 | failure only clears the busy flag; the index and image are unchanged |
| Form1Streams.DualFilterForm.TickLeft | Form1.cs:602-687 | a whole tick is a no-op when busy or with no image; otherwise it installs a fresh bitmap holding the filter at the old index, and advances the index |
| Form1Streams.DualFilterForm.BeginRight | Form1.cs:694-725 | a click with an image always starts an application, busy or not |
| Form1Streams.DualFilterForm.CompleteRight | Form1.cs:727-769 | success installs the result and moves the index to its successor |
| Form1Streams.DualFilterForm.FailRight | Form1.cs:771-779 | failure leaves the index and image unchanged |
| Form1Streams.DualFilterForm.OverlappingRightClicks | Form1.cs:694-780 | two overlapping clicks apply the same filter and advance the index twice |
| ByteBlur.IndexInRange | csharp/MainForm.cs:580-613 | with stride >= width * bpp, every byte of every pixel lies in [0, height * stride) |
| ByteBlur.PixelInRange | csharp/MainForm.cs:624-633 | all bytes of a written pixel lie in the buffer |
| ByteBlur.Locate | csharp/MainForm.cs:606-613 | `y * stride + x * bpp + ch` decomposes back into row y, pixel x and byte ch |
| ByteBlur.KernelRowSumBound | csharp/MainForm.cs:601-615 | a partial kernel-row sum lies between 0 and 255 per byte read |
| ByteBlur.KernelRowStep | csharp/MainForm.cs:601-615 | the byte read at `index + ch` is the next term of that channel's row sum |
| ByteBlur.WindowRowsSumBound | csharp/MainForm.cs:597-617 | a partial window sum lies between 0 and 255 per byte read |
| ByteBlur.ChannelSumBound | csharp/MainForm.cs:594-616 | a full window sum lies between 0 and 255 * 25 |
| ByteBlur.Average | csharp/MainForm.cs:618-629 | `(byte)(sum / 25)` is the floor mean, and the cast never truncates |
| ByteBlur.ApplyBlurFilter | csharp/MainForm.cs:562-646 | a fresh buffer of the source's length whose every byte is the blurred value defined by its row, pixel and channel; the source is not written |
| ByteBlur.WindowSums | csharp/MainForm.cs:594-616 | the ky/kx loops give the three 25-byte channel sums, or all zeros when bpp < 3 |
| ByteBlur.AddKernelRow | csharp/MainForm.cs:601-615 | the kx loop adds one kernel row to each running sum |
| ByteBlur.StorePixel | csharp/MainForm.cs:623-634 | writing one pixel sets its bytes to their blurred values and leaves every other byte alone |
| ByteBlur.PixelByte | csharp/MainForm.cs:618-634 | within an interior pixel, bytes 0-2 are channel averages, byte 3 is the copied alpha when bpp is 4, and the rest are 0 |
| ByteBlur.PixelBlock | csharp/MainForm.cs:624 | a pixel occupies exactly the bpp consecutive bytes from `y * stride + x * bpp` |
| ByteBlur.InteriorChannel | csharp/MainForm.cs:594-629 | each written blue, green and red byte is the floor mean of the 25 window bytes at the same channel offset |
| ByteBlur.InteriorExtraByte | csharp/MainForm.cs:630-633 | with 4 bytes per pixel the alpha is copied from the source; other extra bytes stay 0 |
| ByteBlur.BorderStaysZero | csharp/MainForm.cs:581-592 | bytes of pixels within 2 of the edge stay 0 |
| ByteBlur.PaddingStaysZero | csharp/MainForm.cs:581-592 | the stride padding past width * bpp stays 0 |
| ByteBlur.NarrowFormatUntouched | csharp/MainForm.cs:609-634 | with fewer than 3 bytes per pixel nothing is written |
| MainFormStreams.Ordinal | csharp/MainForm.cs:38-49 | `Enum.GetValues` lists each enum value at its declared position |
| MainFormStreams.FiltersDistinct | csharp/MainForm.cs:49 | no filter appears twice in the list |
| MainFormStreams.ApplyFilter | csharp/MainForm.cs:479-558 | Original returns a fresh unmodified copy, Blur returns the result of `ApplyBlurFilter` on the source, and a colour-matrix filter returns what the drawing produced |
| MainFormStreams.MainFormState.constructor | csharp/MainForm.cs:28-35 | the form starts with no image, both indices 0, and nothing running |
| MainFormStreams.MainFormState.Load | csharp/MainForm.cs:256-282 | loading stops the animation, resets both indices to 0, installs fresh copies of the source on both sides, and leaves the busy flags alone |
| MainFormStreams.MainFormState.StartStop | csharp/MainForm.cs:331-348 | the animation toggles only when an image is loaded |
| MainFormStreams.MainFormState.BeginStep | csharp/MainForm.cs:297-308 | a step is ignored without an image or while busy; otherwise it sets the busy flag, advances the index, and picks the filter at the new index |
| MainFormStreams.MainFormState.CompleteStep | csharp/MainForm.cs:310-325 | success installs the result and clears the busy flag |
| MainFormStreams.MainFormState.FailStep | csharp/MainForm.cs:319-326 | failure clears the busy flag and keeps the advanced index |
| MainFormStreams.MainFormState.BeginTick | csharp/MainForm.cs:350-360 | a tick is ignored without an image or while busy; otherwise it sets the flag, advances the index, and picks the filter |
| MainFormStreams.MainFormState.CompleteTick | csharp/MainForm.cs:362-376 | success installs the result and clears the flag |
| MainFormStreams.MainFormState.FailTick | csharp/MainForm.cs:370-377 | failure clears the flag and keeps the advanced index |
| MainFormStreams.MainFormState.Step | csharp/MainForm.cs:297-329 | a whole step applies `Filters[index + 1 mod 7]`: a new bitmap copying the source for Original, a new bitmap holding the byte blur for Blur, and the drawn image otherwise |
| MainFormStreams.MainFormState.LoadThenStep | csharp/MainForm.cs:265-308 | the first step after a load applies Grayscale and leaves the index at 1 |
| MainFormStreams.SevenStepsCycle | csharp/MainForm.cs:307-308 | seven steps bring a side back to the filter it started from |
| JavaFilterType.Ordinal | java/src/main/java/com/imageprocessor/core/FilterType.java:7-12 | `values()` lists each constant at its ordinal |
| JavaFilterType.GetNext | java/src/main/java/com/imageprocessor/core/FilterType.java:30-33 | getNext(SEPIA) is ORIGINAL; every other constant goes to the next declared one |
| JavaFilterType.DisplayName | java/src/main/java/com/imageprocessor/core/FilterType.java:7-24 | every display name is a non-empty capitalised word; DisplayNamesDistinct shows no two constants share one |
| JavaFilterType.GetNextInjective | java/src/main/java/com/imageprocessor/core/FilterType.java:31-32 | distinct constants have distinct successors |
| JavaFilterType.IterateAdvances | java/src/main/java/com/imageprocessor/core/FilterType.java:31-32 | n calls of getNext move the ordinal n places, modulo 6 |
| JavaFilterType.SixStepsReturn | java/src/main/java/com/imageprocessor/core/FilterType.java:7-12 | six calls of getNext return the starting constant |
| JavaFilterType.EveryFilterReached | java/src/main/java/com/imageprocessor/core/FilterType.java:30-33 | every constant is reached from every other in fewer than six calls |
| JavaFilterType.DisplayNamesDistinct | java/src/main/java/com/imageprocessor/core/FilterType.java:7-24 | each constant's display name is the one declared for it, and no two constants share one |

## Left out

- UI, layout, theming, status labels, message boxes, progress bars, and button enabling. None of these affect filter results or stream state.
- File dialogs, image decoding, save and export. `Load` starts from an image that decoded successfully.
- A failed decode. Form1.cs:512-514 disposes the source and both current images before the decode at Form1.cs:525, and csharp/MainForm.cs:272 disposes the source before the decode at csharp/MainForm.cs:273. After a failure the fields still name disposed bitmaps, so every later filter application throws inside `new Bitmap(originalImage)` and takes the fail transition (`FailLeft`, `FailRight`, `FailStep`, `FailTick`). The model has no disposed state and does not capture this.
- `Task.Run`, `Invoke`, `Application.DoEvents` and the timers. An await is modelled as separate begin and complete/fail transitions. Interleavings are whatever sequence of those transitions a caller makes, and `OverlappingRightClicks` is one of them.
- Timer firing. `MainFormState.BeginTick` ignores `isAnimating`, because the source's tick ignores it as well; the timer only fires while started, and that is not modelled.
- `Dispose` calls. Replacing an image is modelled as reassigning the field, not as freeing memory.
- The GDI+ `ColorMatrix` filters of MainForm (Grayscale, Invert, Brightness, Contrast, Sepia). Their float matrices are applied by a library call. `MainFormStreams.ApplyFilter` takes the drawn result as a parameter.
- `LockBits`, `Marshal.Copy` and `UnlockBits`. The blur starts from the source bytes and the layout `LockBits` reports. The copy of the result into the new bitmap, which is always 32 bits per pixel, is not part of this model.
- MainFormState.Load, MainFormStreams.ApplyFilter, MainFormState.Step: the byte contracts describe the installed image only for opaque 32bpp ARGB sources. `new Bitmap(original)` (csharp/MainForm.cs:278-279, 481) and `new Bitmap(width, height)` (csharp/MainForm.cs:566) are always 32bpp ARGB. For a source in another format, such as a 24bpp JPEG, the copies' bytes are not the source bytes. The blurred bytes are laid out with the source stride (csharp/MainForm.cs:574, 581), but csharp/MainForm.cs:639 copies them into a bitmap whose stride is 4 * width, so the program shows a scrambled blur.
- Raster.CopyBitmap, Form1Streams.DualFilterForm.Load, Form1Streams.DualFilterForm.TickLeft, MainFormState.Load, MainFormStreams.ApplyFilter, MainFormState.Step: these copies, and so the inputs of Form1's filters, equal the source only when every pixel is fully opaque. `new Bitmap(original)` (Form1.cs:535-536, 634, 728; csharp/MainForm.cs:278-279, 481) creates a 32bpp ARGB bitmap cleared to transparent and draws the source onto it with source-over blending. A fully transparent pixel therefore loses its stored red, green and blue, and a partly transparent one is re-rounded through premultiplied alpha. The model treats the copy as exact. `TickLeft` filters `originalImage` itself rather than the copy made at Form1.cs:634, which is the same thing for opaque images.
- MainFormState.Step: the Original branch's installed copy is stated equal to the source bytes, which holds only when the source is 32bpp ARGB and every pixel is fully opaque, for the two reasons above.
- Negative strides (bottom-up bitmaps). `ByteBlur.Layout` takes the stride as a natural number.
- ByteBlur.ApplyBlurFilter: like the source, reads the first three bytes of each pixel as blue, green and red whatever the pixel format. For 48 or 64 bits per pixel those bytes are halves of 16-bit channels, so the average means nothing there, and the model promises nothing more.
- Raster.GrayLevel, PointFilters.GrayPixel, PointFilters.SepiaChannel: do not model the double-precision arithmetic of Form1.cs:979 and 997-999. Their weights are exact decimals. The double sum can fall just below an integer that the exact sum reaches, so on such boundary colours the source's truncated value is one lower than the model's.
- MainWindow.java. It changes the filter index inside a background task, which is a concurrency question rather than sequential logic. ImageProcessor.java is also left out: its filters are floating-point operations on JavaFX colours.
- JavaFilterType.Description: has no property beyond the declared strings.
- ImageProcessorApp.java is an entry point only.
