/**
 * The two filter streams of Form1.cs. The left stream is driven by a timer and
 * guarded by isProcessingLeft; the right stream advances on a button click and has
 * no guard at all. Each asynchronous application is split into the step that
 * starts it (on the UI thread, before the await) and the step that finishes it
 * (after the await), successfully or with an exception.
 */
module Form1Streams {
  import opened Raster
  import opened Wrappers
  import opened Form1Catalog
  import opened CyclicIndex

  class DualFilterForm {
    var originalImage: array2?<Color>
    var currentLeftImage: array2?<Color>
    var currentRightImage: array2?<Color>
    var leftFilterIndex: int
    var rightFilterIndex: int
    var isProcessingLeft: bool
    /** timerLeft.Enabled */
    var timerEnabled: bool
    /** Right-stream applications started and not yet finished (no field of the form holds this). */
    ghost var pendingRight: nat

    ghost predicate Valid()
      reads this
    {
      && 0 <= leftFilterIndex < FilterCount
      && 0 <= rightFilterIndex < FilterCount
      && (originalImage == null ==>
            currentLeftImage == null && currentRightImage == null
            && !isProcessingLeft && pendingRight == 0 && !timerEnabled)
      && (originalImage != null ==> currentLeftImage != null && currentRightImage != null)
    }

    /** The form as constructed: no image, both indices 0, nothing running. */
    constructor ()
      ensures Valid()
      ensures originalImage == null && currentLeftImage == null && currentRightImage == null
      ensures leftFilterIndex == 0 && rightFilterIndex == 0
      ensures !isProcessingLeft && !timerEnabled && pendingRight == 0
    {
      originalImage, currentLeftImage, currentRightImage := null, null, null;
      leftFilterIndex, rightFilterIndex := 0, 0;
      isProcessingLeft, timerEnabled := false, false;
      pendingRight := 0;
    }

    /**
     * BtnOpenImage_Click once the file has been decoded into image: both streams
     * restart from copies of the new source at index 0 and the timer stops. The
     * busy flag and any application in flight are left alone.
     */
    method Load(image: Bitmap)
      requires Valid()
      modifies this
      ensures Valid()
      ensures originalImage == image
      ensures currentLeftImage != null && fresh(currentLeftImage) && SameSize(currentLeftImage, image)
      ensures currentRightImage != null && fresh(currentRightImage) && SameSize(currentRightImage, image)
      ensures forall x, y :: InBounds(image, x, y) ==>
        currentLeftImage[x, y] == image[x, y] && currentRightImage[x, y] == image[x, y]
      ensures leftFilterIndex == 0 && rightFilterIndex == 0
      ensures !timerEnabled
      ensures isProcessingLeft == old(isProcessingLeft) && pendingRight == old(pendingRight)
    {
      originalImage := image;
      currentLeftImage := CopyBitmap(image);
      currentRightImage := CopyBitmap(image);
      leftFilterIndex, rightFilterIndex := 0, 0;
      timerEnabled := false;
    }

    /** BtnLeftStartStop_Click: refused without an image, otherwise toggles the timer. */
    method StartStop()
      requires Valid()
      modifies this`timerEnabled
      ensures Valid()
      ensures timerEnabled == if originalImage == null then old(timerEnabled) else !old(timerEnabled)
    {
      if originalImage != null {
        timerEnabled := !timerEnabled;
      }
    }

    /**
     * TimerLeft_Tick up to the await: ignored while a left application is in flight
     * or when no image is loaded; otherwise marks the left stream busy and picks
     * the filter at the current index.
     */
    method BeginLeft() returns (started: Option<int>)
      requires Valid()
      modifies this`isProcessingLeft
      ensures Valid()
      ensures old(isProcessingLeft) || originalImage == null ==>
        started == None && isProcessingLeft == old(isProcessingLeft)
      ensures !old(isProcessingLeft) && originalImage != null ==>
        started == Some(leftFilterIndex) && isProcessingLeft
    {
      if isProcessingLeft || originalImage == null {
        return None;
      }
      isProcessingLeft := true;
      started := Some(leftFilterIndex);
    }

    /**
     * The rest of ApplyNextFilterLeft when the filter returned: the result replaces
     * the current left image, the index moves to the next filter, and the finally
     * block clears the busy flag. The index advanced is the one held now, not the
     * one the filter was chosen with.
     */
    method CompleteLeft(filtered: Bitmap)
      requires Valid() && isProcessingLeft
      modifies this`currentLeftImage, this`leftFilterIndex, this`isProcessingLeft
      ensures Valid()
      ensures currentLeftImage == filtered
      ensures leftFilterIndex == Next(FilterCount, old(leftFilterIndex))
      ensures !isProcessingLeft
    {
      currentLeftImage := filtered;
      leftFilterIndex := (leftFilterIndex + 1) % FilterCount;
      isProcessingLeft := false;
    }

    /** ApplyNextFilterLeft when the filter threw: only the finally block has an effect. */
    method FailLeft()
      requires Valid() && isProcessingLeft
      modifies this`isProcessingLeft
      ensures Valid()
      ensures !isProcessingLeft
    {
      isProcessingLeft := false;
    }

    /** One whole timer tick when nothing else happens while the filter runs. */
    method TickLeft()
      requires Valid()
      modifies this`currentLeftImage, this`leftFilterIndex, this`isProcessingLeft
      ensures Valid() && isProcessingLeft == old(isProcessingLeft)
      ensures old(isProcessingLeft) || originalImage == null ==>
        currentLeftImage == old(currentLeftImage) && leftFilterIndex == old(leftFilterIndex)
      ensures !old(isProcessingLeft) && originalImage != null ==>
        && currentLeftImage != null && fresh(currentLeftImage)
        && Filtered(old(leftFilterIndex), originalImage, currentLeftImage)
        && leftFilterIndex == Next(FilterCount, old(leftFilterIndex))
    {
      var started := BeginLeft();
      if started.Some? {
        var filtered := ApplyFilterAt(started.value, originalImage);
        CompleteLeft(filtered);
      }
    }

    /**
     * BtnRightNextFilter_Click up to the await: refused without an image; otherwise
     * picks the filter at the current index. Nothing stops a second click from
     * starting another application before the first one finishes.
     */
    method BeginRight() returns (started: Option<int>)
      requires Valid()
      modifies this`pendingRight
      ensures Valid()
      ensures originalImage == null ==> started == None && pendingRight == old(pendingRight)
      ensures originalImage != null ==> started == Some(rightFilterIndex) && pendingRight == old(pendingRight) + 1
    {
      if originalImage == null {
        return None;
      }
      pendingRight := pendingRight + 1;
      started := Some(rightFilterIndex);
    }

    /** The rest of ApplyNextFilterRight when the filter returned. */
    method CompleteRight(filtered: Bitmap)
      requires Valid() && pendingRight > 0
      modifies this`currentRightImage, this`rightFilterIndex, this`pendingRight
      ensures Valid()
      ensures currentRightImage == filtered
      ensures rightFilterIndex == Next(FilterCount, old(rightFilterIndex))
      ensures pendingRight == old(pendingRight) - 1
    {
      currentRightImage := filtered;
      rightFilterIndex := (rightFilterIndex + 1) % FilterCount;
      pendingRight := pendingRight - 1;
    }

    /** ApplyNextFilterRight when the filter threw: index and image stay as they were. */
    method FailRight()
      requires Valid() && pendingRight > 0
      modifies this`pendingRight
      ensures Valid()
      ensures pendingRight == old(pendingRight) - 1
    {
      pendingRight := pendingRight - 1;
    }

    /**
     * Two clicks on the right button before the first filter finishes: both apply
     * the same filter, and the index still moves twice, so the next filter in the
     * list is skipped.
     */
    method OverlappingRightClicks(first: Bitmap, second: Bitmap) returns (a: Option<int>, b: Option<int>)
      requires Valid() && originalImage != null
      modifies this`currentRightImage, this`rightFilterIndex, this`pendingRight
      ensures Valid()
      ensures a == b == Some(old(rightFilterIndex))
      ensures rightFilterIndex == Advance(FilterCount, old(rightFilterIndex), 2)
      ensures currentRightImage == second && pendingRight == old(pendingRight)
    {
      ghost var start := rightFilterIndex;
      a := BeginRight();
      b := BeginRight();
      CompleteRight(first);
      CompleteRight(second);
      assert Advance(FilterCount, start, 1) == Next(FilterCount, start);
    }
  }
}
