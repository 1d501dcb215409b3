/**
 * The two filter streams of csharp/MainForm.cs. The left stream advances on the Step
 * button, the right one on the animation timer; each is guarded by its own busy
 * flag. Unlike Form1.cs, the index moves to the next filter before the filter is
 * applied, and the list starts with Original, so the first step after a load shows
 * Grayscale. Images are the locked byte buffers of a bitmap, all with the layout of
 * the loaded one. That matches the program only when the loaded image is 32bpp ARGB:
 * every bitmap the form creates has that format, whatever the source's.
 */
module MainFormStreams {
  import opened Raster
  import opened Wrappers
  import opened CyclicIndex
  import ByteBlur

  /** The FilterType enum, in declaration order. */
  datatype FilterType = Original | Grayscale | Invert | Brightness | Contrast | Sepia | Blur

  /** Enum.GetValues(typeof(FilterType)): every value once, in declaration order. */
  const Filters: seq<FilterType> := [Original, Grayscale, Invert, Brightness, Contrast, Sepia, Blur]

  /** The position of a filter in Filters, which is its underlying enum value. */
  function Ordinal(f: FilterType): (n: nat)
    ensures n < |Filters| && Filters[n] == f
  {
    match f
    case Original => 0
    case Grayscale => 1
    case Invert => 2
    case Brightness => 3
    case Contrast => 4
    case Sepia => 5
    case Blur => 6
  }

  /** No filter appears twice in Filters. */
  lemma FiltersDistinct(i: int, j: int)
    requires 0 <= i < |Filters| && 0 <= j < |Filters| && Filters[i] == Filters[j]
    ensures i == j
  {
    assert Ordinal(Filters[i]) == i && Ordinal(Filters[j]) == j;
  }

  /**
   * ApplyFilter for the branches that are not GDI+ colour matrices: Original is a
   * plain copy, Blur is ApplyBlurFilter on the locked bytes. For the colour-matrix
   * filters, drawn is what DrawImage produced and is returned as it is.
   */
  method ApplyFilter(original: array<byte>, L: ByteBlur.Layout, filter: FilterType, drawn: array<byte>)
    returns (result: array<byte>)
    requires ByteBlur.Fits(L, original.Length)
    ensures filter == Original ==> fresh(result) && result[..] == original[..]
    ensures filter == Blur ==>
      && fresh(result) && result.Length == original.Length
      && forall i :: 0 <= i < result.Length ==> result[i] == ByteBlur.BlurredByte(original, L, i)
    ensures filter != Original && filter != Blur ==> result == drawn
  {
    if filter == Blur {
      result := ByteBlur.ApplyBlurFilter(original, L);
    } else if filter == Original {
      result := new byte[original.Length](i requires 0 <= i < original.Length reads original => original[i]);
    } else {
      result := drawn;
    }
  }

  class MainFormState {
    var originalImage: array?<byte>
    /** The layout of originalImage; every image of the form has it. */
    var layout: ByteBlur.Layout
    var currentLeftImage: array?<byte>
    var currentRightImage: array?<byte>
    var leftFilterIndex: int
    var rightFilterIndex: int
    var isAnimating: bool
    var isProcessingLeft: bool
    var isProcessingRight: bool

    ghost predicate Valid()
      reads this
    {
      && 0 <= leftFilterIndex < |Filters|
      && 0 <= rightFilterIndex < |Filters|
      && (originalImage == null ==>
            currentLeftImage == null && currentRightImage == null
            && !isAnimating && !isProcessingLeft && !isProcessingRight)
      && (originalImage != null ==>
            currentLeftImage != null && currentRightImage != null
            && ByteBlur.Fits(layout, originalImage.Length))
    }

    /** The form as constructed: no image, both indices 0, nothing running. */
    constructor ()
      ensures Valid()
      ensures originalImage == null && currentLeftImage == null && currentRightImage == null
      ensures leftFilterIndex == 0 && rightFilterIndex == 0
      ensures !isAnimating && !isProcessingLeft && !isProcessingRight
    {
      originalImage, currentLeftImage, currentRightImage := null, null, null;
      layout := ByteBlur.Layout(0, 0, 0, 0);
      leftFilterIndex, rightFilterIndex := 0, 0;
      isAnimating, isProcessingLeft, isProcessingRight := false, false, false;
    }

    /**
     * BtnLoad_Click once the file has been decoded into image: the animation stops,
     * both indices go back to 0 (Original) and both sides show copies of the source.
     * The busy flags and any application in flight are left alone.
     */
    method Load(image: array<byte>, L: ByteBlur.Layout)
      requires Valid() && ByteBlur.Fits(L, image.Length)
      modifies this
      ensures Valid()
      ensures originalImage == image && layout == L
      ensures currentLeftImage != null && fresh(currentLeftImage) && currentLeftImage[..] == image[..]
      ensures currentRightImage != null && fresh(currentRightImage) && currentRightImage[..] == image[..]
      ensures leftFilterIndex == 0 && rightFilterIndex == 0
      ensures !isAnimating
      ensures isProcessingLeft == old(isProcessingLeft) && isProcessingRight == old(isProcessingRight)
    {
      if isAnimating {
        isAnimating := false;
      }
      originalImage := image;
      layout := L;
      leftFilterIndex, rightFilterIndex := 0, 0;
      currentLeftImage := new byte[image.Length](i requires 0 <= i < image.Length reads image => image[i]);
      currentRightImage := new byte[image.Length](i requires 0 <= i < image.Length reads image => image[i]);
    }

    /** BtnStartStop_Click: refused without an image, otherwise toggles the animation. */
    method StartStop()
      requires Valid()
      modifies this`isAnimating
      ensures Valid()
      ensures isAnimating == if originalImage == null then old(isAnimating) else !old(isAnimating)
    {
      if originalImage == null {
        return;
      }
      isAnimating := !isAnimating;
    }

    /**
     * BtnStep_Click up to the await: ignored without an image or while a left
     * application is in flight; otherwise marks the left side busy, moves the index
     * on and picks the filter at the new index.
     */
    method BeginStep() returns (filter: Option<FilterType>)
      requires Valid()
      modifies this`isProcessingLeft, this`leftFilterIndex
      ensures Valid()
      ensures originalImage == null || old(isProcessingLeft) ==>
        filter == None && isProcessingLeft == old(isProcessingLeft) && leftFilterIndex == old(leftFilterIndex)
      ensures originalImage != null && !old(isProcessingLeft) ==>
        && isProcessingLeft
        && leftFilterIndex == Next(|Filters|, old(leftFilterIndex))
        && filter == Some(Filters[leftFilterIndex])
    {
      if originalImage == null || isProcessingLeft {
        return None;
      }
      isProcessingLeft := true;
      leftFilterIndex := (leftFilterIndex + 1) % |Filters|;
      filter := Some(Filters[leftFilterIndex]);
    }

    /** The rest of BtnStep_Click when the filter returned: the result is shown and the finally block clears the flag. */
    method CompleteStep(processed: array<byte>)
      requires Valid() && isProcessingLeft
      modifies this`currentLeftImage, this`isProcessingLeft
      ensures Valid()
      ensures currentLeftImage == processed && !isProcessingLeft
    {
      currentLeftImage := processed;
      isProcessingLeft := false;
    }

    /** BtnStep_Click when the filter threw: the flag is cleared, the advanced index is kept. */
    method FailStep()
      requires Valid() && isProcessingLeft
      modifies this`isProcessingLeft
      ensures Valid()
      ensures !isProcessingLeft
    {
      isProcessingLeft := false;
    }

    /** AnimationTimer_Tick up to the await: the right-side counterpart of BeginStep. */
    method BeginTick() returns (filter: Option<FilterType>)
      requires Valid()
      modifies this`isProcessingRight, this`rightFilterIndex
      ensures Valid()
      ensures originalImage == null || old(isProcessingRight) ==>
        filter == None && isProcessingRight == old(isProcessingRight) && rightFilterIndex == old(rightFilterIndex)
      ensures originalImage != null && !old(isProcessingRight) ==>
        && isProcessingRight
        && rightFilterIndex == Next(|Filters|, old(rightFilterIndex))
        && filter == Some(Filters[rightFilterIndex])
    {
      if originalImage == null || isProcessingRight {
        return None;
      }
      isProcessingRight := true;
      rightFilterIndex := (rightFilterIndex + 1) % |Filters|;
      filter := Some(Filters[rightFilterIndex]);
    }

    /** The rest of AnimationTimer_Tick when the filter returned. */
    method CompleteTick(processed: array<byte>)
      requires Valid() && isProcessingRight
      modifies this`currentRightImage, this`isProcessingRight
      ensures Valid()
      ensures currentRightImage == processed && !isProcessingRight
    {
      currentRightImage := processed;
      isProcessingRight := false;
    }

    /** AnimationTimer_Tick when the filter threw: the flag is cleared, the advanced index is kept. */
    method FailTick()
      requires Valid() && isProcessingRight
      modifies this`isProcessingRight
      ensures Valid()
      ensures !isProcessingRight
    {
      isProcessingRight := false;
    }

    /**
     * One whole Step click when nothing else happens while the filter runs; drawn
     * stands for the GDI+ output of a colour-matrix filter.
     */
    method Step(drawn: array<byte>) returns (applied: Option<FilterType>)
      requires Valid()
      modifies this`currentLeftImage, this`isProcessingLeft, this`leftFilterIndex
      ensures Valid() && isProcessingLeft == old(isProcessingLeft)
      ensures originalImage == null || old(isProcessingLeft) ==>
        applied == None && currentLeftImage == old(currentLeftImage) && leftFilterIndex == old(leftFilterIndex)
      ensures originalImage != null && !old(isProcessingLeft) ==>
        && leftFilterIndex == Next(|Filters|, old(leftFilterIndex))
        && applied == Some(Filters[leftFilterIndex])
        && (applied == Some(Blur) ==>
              && currentLeftImage != null && fresh(currentLeftImage)
              && currentLeftImage.Length == originalImage.Length
              && forall i :: 0 <= i < currentLeftImage.Length ==>
                   currentLeftImage[i] == ByteBlur.BlurredByte(originalImage, layout, i))
        && (applied == Some(Original) ==> currentLeftImage != null && fresh(currentLeftImage) && currentLeftImage[..] == originalImage[..])
        && (applied != Some(Original) && applied != Some(Blur) ==> currentLeftImage == drawn)
    {
      applied := BeginStep();
      if applied.Some? {
        var processed := ApplyFilter(originalImage, layout, applied.value, drawn);
        CompleteStep(processed);
      }
    }

    /** Loading and then stepping once shows Grayscale, the filter after Original. */
    method LoadThenStep(image: array<byte>, L: ByteBlur.Layout, drawn: array<byte>) returns (applied: Option<FilterType>)
      requires Valid() && !isProcessingLeft && ByteBlur.Fits(L, image.Length)
      modifies this
      ensures Valid()
      ensures applied == Some(Grayscale) && leftFilterIndex == 1 && currentLeftImage == drawn
    {
      Load(image, L);
      applied := Step(drawn);
    }
  }

  /** Seven steps bring either side back to the filter it showed before them. */
  lemma SevenStepsCycle(i: int)
    requires 0 <= i < |Filters|
    ensures Filters[Advance(|Filters|, i, 7)] == Filters[i]
  {
    CycleCloses(|Filters|, i);
  }
}
