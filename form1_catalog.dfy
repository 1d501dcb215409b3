/**
 * The filter list of Form1.cs (InitializeFilters): eight filters in a fixed order,
 * with a parallel list of display names. The order is the cycling order of both
 * filter streams.
 */
module Form1Catalog {
  import opened Raster
  import PointFilters
  import BoxBlur
  import Convolution

  const FilterNames: seq<string> :=
    ["Grayscale", "Sepia", "Invert", "Blur", "Sharpen", "Brightness", "Contrast", "Edge Detection"]

  /** filters.Count */
  const FilterCount := |FilterNames|

  /** What filters[index] computes from original, pixel by pixel. */
  ghost predicate Filtered(index: int, original: Bitmap, result: Bitmap)
    requires 0 <= index < FilterCount
    reads original, result
  {
    SameSize(result, original) &&
    forall x, y :: InBounds(original, x, y) ==>
      result[x, y] == match index
        case 0 => PointFilters.GrayPixel(original[x, y])
        case 1 => PointFilters.SepiaPixel(original[x, y])
        case 2 => PointFilters.InvertPixel(original[x, y])
        case 3 => BoxBlur.BlurPixel(original, x, y)
        case 4 => if Convolution.Interior(original, x, y) then Convolution.SharpenPixel(original, x, y) else Blank
        case 5 => PointFilters.BrightenPixel(original[x, y])
        case 6 => PointFilters.ContrastPixel(original[x, y])
        case _ => if Convolution.Interior(original, x, y) then Convolution.EdgePixel(original, x, y) else Blank
  }

  /** filters[index](original): run the filter at a position of the list. */
  method ApplyFilterAt(index: int, original: Bitmap) returns (result: Bitmap)
    requires 0 <= index < FilterCount
    ensures fresh(result)
    ensures Filtered(index, original, result)
  {
    if index == 0 {
      result := PointFilters.ApplyGrayscale(original);
    } else if index == 1 {
      result := PointFilters.ApplySepia(original);
    } else if index == 2 {
      result := PointFilters.ApplyInvert(original);
    } else if index == 3 {
      result := BoxBlur.ApplyBlur(original);
    } else if index == 4 {
      result := Convolution.ApplySharpen(original);
    } else if index == 5 {
      result := PointFilters.ApplyBrightness(original);
    } else if index == 6 {
      result := PointFilters.ApplyContrast(original);
    } else {
      result := Convolution.ApplyEdgeDetection(original);
    }
  }
}
