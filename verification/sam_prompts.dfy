/**
 * The SAM service's coordinate handling: the window cut around an annotation
 * (its top-left corner, clamped to the image), the down-scaling of windows
 * larger than ANNOTATION_MAX_SIZE, and the alignment of the box prompt from
 * the whole-slide image's bottom-left referential into the window's top-left
 * one.
 *
 * Scales are exact reals; the conversions to int32 NumPy arrays truncate
 * toward zero, which `Trunc` writes out. The model itself, the mask and its
 * polygon are not part of this model.
 */
module SamPrompts {

  /** The default of the ANNOTATION_MAX_SIZE setting. */
  const ANNOTATION_MAX_SIZE: int := 8000

  /** A box prompt `[x_min, y_min, x_max, y_max]`. */
  datatype Box = Box(xMin: int, yMin: int, xMax: int, yMax: int)

  predicate Ordered(b: Box) {
    b.xMin <= b.xMax && b.yMin <= b.yMax
  }

  /** The conversion of a float to an int32 array entry: toward zero. */
  function Trunc(v: real): (r: int)
    ensures 0.0 <= v ==> r as real <= v < r as real + 1.0
    ensures v < 0.0 ==> r as real - 1.0 < v <= r as real
  {
    if v >= 0.0 then v.Floor else -((-v).Floor)
  }

  /** Truncation never reverses an order. */
  lemma TruncMonotone(a: real, b: real)
    requires a <= b
    ensures Trunc(a) <= Trunc(b)
  {
  }

  /** Truncation keeps a value that lies between zero and a whole bound there. */
  lemma TruncWithin(v: real, bound: int)
    requires 0.0 <= v <= bound as real
    ensures 0 <= Trunc(v) <= bound
  {
  }

  lemma MulMonotone(a: real, b: real, s: real)
    requires a <= b && 0.0 < s
    ensures a * s <= b * s
  {
  }

  /** Scaling by a positive factor, then truncating, keeps an order. */
  lemma TruncScaledMonotone(x: real, y: real, s: real)
    requires x <= y && 0.0 < s
    ensures Trunc(x * s) <= Trunc(y * s)
  {
    MulMonotone(x, y, s);
    TruncMonotone(x * s, y * s);
  }

  // ---------------------------------------------------------------- the window

  /** `floor(lo - (crop - extent) / 2)`: the start of a window of `crop`
      centred on an extent of `extent` starting at `lo`, in whole numbers. */
  function CentredStart(lo: int, extent: int, crop: int): (r: int)
    ensures r as real <= lo as real - (crop - extent) as real / 2.0 < r as real + 1.0
  {
    var n := 2 * lo - crop + extent;
    var q := n / 2;
    assert n == 2 * q + n % 2;
    assert lo as real - (crop - extent) as real / 2.0 == q as real + (n % 2) as real / 2.0;
    q
  }

  /** `get_roi_around_annotation`: the top-left corner of the window, centred
      on the annotation (its top taken from the flipped y_max), then pulled
      back inside the image and finally to at least zero. */
  function RoiAroundAnnotation(imageHeight: int, imageWidth: int, box: Box, cropSize: int): (r: (int, int))
    ensures r.0 >= 0 && r.1 >= 0
    ensures imageWidth >= cropSize ==> r.0 <= imageWidth - cropSize
    ensures imageHeight >= cropSize ==> r.1 <= imageHeight - cropSize
    ensures cropSize > imageWidth ==> r.0 == 0
    ensures cropSize > imageHeight ==> r.1 == 0
    ensures var x0 := CentredStart(box.xMin, box.xMax - box.xMin, cropSize);
      0 <= x0 <= imageWidth - cropSize ==> r.0 == x0
    ensures var y0 := CentredStart(imageHeight - box.yMax, box.yMax - box.yMin, cropSize);
      0 <= y0 <= imageHeight - cropSize ==> r.1 == y0
  {
    var x := CentredStart(box.xMin, box.xMax - box.xMin, cropSize);
    var y := CentredStart(imageHeight - box.yMax, box.yMax - box.yMin, cropSize);
    var x := if x <= imageWidth - cropSize then x else imageWidth - cropSize;
    var y := if y <= imageHeight - cropSize then y else imageHeight - cropSize;
    (if 0 >= x then 0 else x, if 0 >= y then 0 else y)
  }

  /** A window no smaller than the annotation and no larger than the image
      covers the whole annotation: on x, and on the flipped y. */
  lemma WindowCoversAnnotation(imageHeight: int, imageWidth: int, box: Box, cropSize: int)
    requires 0 <= box.xMin <= box.xMax <= imageWidth && 0 <= box.yMin <= box.yMax <= imageHeight
    requires box.xMax - box.xMin <= cropSize <= imageWidth
    requires box.yMax - box.yMin <= cropSize <= imageHeight
    ensures var r := RoiAroundAnnotation(imageHeight, imageWidth, box, cropSize);
      r.0 <= box.xMin && box.xMax <= r.0 + cropSize
      && r.1 <= imageHeight - box.yMax && imageHeight - box.yMin <= r.1 + cropSize
  {
    CentredCovers(box.xMin, box.xMax - box.xMin, cropSize);
    CentredCovers(imageHeight - box.yMax, box.yMax - box.yMin, cropSize);
  }

  /** The centred start lies at or before the extent, and the window reaches
      its end. */
  lemma CentredCovers(lo: int, extent: int, crop: int)
    requires 0 <= extent <= crop
    ensures CentredStart(lo, extent, crop) <= lo
    ensures lo + extent <= CentredStart(lo, extent, crop) + crop
  {
    var r := CentredStart(lo, extent, crop);
    assert (r + crop) as real > lo as real + extent as real + (crop - extent) as real / 2.0 - 1.0;
  }

  // ---------------------------------------------------------------- the scale

  /** The scale of both axes: 1, or ANNOTATION_MAX_SIZE / crop_size when the
      crop is larger than that, so the scaled window is never larger. */
  function PromptScale(cropSize: int): (r: real)
    ensures 0.0 < r <= 1.0
    ensures cropSize <= ANNOTATION_MAX_SIZE ==> r == 1.0
    ensures cropSize > ANNOTATION_MAX_SIZE ==> r * cropSize as real == ANNOTATION_MAX_SIZE as real
  {
    if cropSize > ANNOTATION_MAX_SIZE then
      var scale := cropSize as real / ANNOTATION_MAX_SIZE as real;
      1.0 / scale
    else 1.0
  }

  // ---------------------------------------------------------------- the prompt

  /** One coordinate moved by the window's corner on its axis, multiplied by
      the axis scale and truncated. */
  function ScaleOffset(v: int, corner: int, scale: real): (r: int)
    ensures scale == 1.0 ==> r == v - corner
    ensures 0.0 < scale && corner <= v ==> 0 <= r
  {
    var exact := (v - corner) as real * scale;
    assert scale == 1.0 ==> exact == (v - corner) as real;
    assert 0.0 < scale && corner <= v ==> 0.0 <= exact by {
      if 0.0 < scale && corner <= v {
        MulMonotone(0.0, (v - corner) as real, scale);
      }
    }
    Trunc(exact)
  }

  /** `align_box_prompt`: y is flipped against the image height (the new
      y_min from y_max), every coordinate is moved by the window's corner and
      multiplied by its axis scale, and the result truncated to int32. */
  function AlignBoxPrompt(box: Box, xTl: int, yTl: int, imgHeight: int, scaleX: real, scaleY: real): (r: Box)
    ensures scaleX == 1.0 ==> r.xMin == box.xMin - xTl && r.xMax == box.xMax - xTl
    ensures scaleY == 1.0 ==> r.yMin == imgHeight - box.yMax - yTl && r.yMax == imgHeight - box.yMin - yTl
  {
    var yMinFlipped := imgHeight - box.yMax;
    var yMaxFlipped := imgHeight - box.yMin;
    Box(ScaleOffset(box.xMin, xTl, scaleX), ScaleOffset(yMinFlipped, yTl, scaleY),
        ScaleOffset(box.xMax, xTl, scaleX), ScaleOffset(yMaxFlipped, yTl, scaleY))
  }

  lemma ScaleOffsetTruncates(v: int, corner: int, scale: real)
    ensures ScaleOffset(v, corner, scale) == Trunc((v - corner) as real * scale)
  {
  }

  /** Scaling by a positive factor and truncating keeps the order of two
      coordinates on the same axis. */
  lemma ScaleOffsetMonotone(a: int, b: int, corner: int, scale: real)
    requires a <= b && 0.0 < scale
    ensures ScaleOffset(a, corner, scale) <= ScaleOffset(b, corner, scale)
  {
    TruncScaledMonotone((a - corner) as real, (b - corner) as real, scale);
    ScaleOffsetTruncates(a, corner, scale);
    ScaleOffsetTruncates(b, corner, scale);
  }

  /** With positive scales an ordered box stays ordered: flipping y swaps
      the ends, and it is y_max that becomes the new y_min. */
  lemma AlignKeepsOrder(box: Box, xTl: int, yTl: int, imgHeight: int, scaleX: real, scaleY: real)
    requires Ordered(box) && 0.0 < scaleX && 0.0 < scaleY
    ensures Ordered(AlignBoxPrompt(box, xTl, yTl, imgHeight, scaleX, scaleY))
  {
    ScaleOffsetMonotone(box.xMin, box.xMax, xTl, scaleX);
    ScaleOffsetMonotone(imgHeight - box.yMax, imgHeight - box.yMin, yTl, scaleY);
  }

  /** With no x offset and a unit x scale, the x coordinates pass through. */
  lemma AlignIdentityX(box: Box, yTl: int, imgHeight: int, scaleY: real)
    ensures var r := AlignBoxPrompt(box, 0, yTl, imgHeight, 1.0, scaleY);
      r.xMin == box.xMin && r.xMax == box.xMax
  {
  }

  /** Aligning twice against the same height, with no offsets and unit
      scales, flips y back and restores the box. */
  lemma AlignInvolutive(box: Box, imgHeight: int)
    ensures AlignBoxPrompt(AlignBoxPrompt(box, 0, 0, imgHeight, 1.0, 1.0), 0, 0, imgHeight, 1.0, 1.0) == box
  {
  }

  // ---------------------------------------------------------------- the pipeline

  /** The window corner, the scale and the aligned prompt the pipeline hands
      to the predictor. */
  datatype Prompt = Prompt(x: int, y: int, scale: real, box: Box)

  /** The box of the annotation's bounds: `np.array(box.bounds, dtype=np.int32)`. */
  function BoundsBox(bounds: (real, real, real, real)): (r: Box)
    ensures 0.0 <= bounds.0 ==> r.xMin as real <= bounds.0 < r.xMin as real + 1.0
    ensures 0.0 <= bounds.2 ==> r.xMax as real <= bounds.2 < r.xMax as real + 1.0
    ensures 0.0 <= bounds.1 ==> r.yMin as real <= bounds.1 < r.yMin as real + 1.0
    ensures 0.0 <= bounds.3 ==> r.yMax as real <= bounds.3 < r.yMax as real + 1.0
  {
    Box(Trunc(bounds.0), Trunc(bounds.1), Trunc(bounds.2), Trunc(bounds.3))
  }

  /** The prompt steps of `run_segmentation_pipeline`: the window around the
      annotation's truncated bounds, the scale its size calls for, and the
      box aligned to both. */
  function SegmentationPrompt(imageHeight: int, imageWidth: int, bounds: (real, real, real, real), cropSize: int): (r: Prompt)
    ensures r.x >= 0 && r.y >= 0
    ensures (r.x, r.y) == RoiAroundAnnotation(imageHeight, imageWidth, BoundsBox(bounds), cropSize)
    ensures r.scale == PromptScale(cropSize)
  {
    var box := BoundsBox(bounds);
    var (x, y) := RoiAroundAnnotation(imageHeight, imageWidth, box, cropSize);
    var scale := PromptScale(cropSize);
    Prompt(x, y, scale, AlignBoxPrompt(box, x, y, imageHeight, scale, scale))
  }

  /** When the window covers an annotation that lies inside the image, the
      prompt handed to the predictor lies inside the scaled window: between 0
      and the smaller of the crop size and ANNOTATION_MAX_SIZE on both axes. */
  lemma PromptInsideWindow(imageHeight: int, imageWidth: int, bounds: (real, real, real, real), cropSize: int)
    requires var b := BoundsBox(bounds);
      0 <= b.xMin <= b.xMax <= imageWidth && 0 <= b.yMin <= b.yMax <= imageHeight
      && b.xMax - b.xMin <= cropSize <= imageWidth && b.yMax - b.yMin <= cropSize <= imageHeight
    ensures var p := SegmentationPrompt(imageHeight, imageWidth, bounds, cropSize).box;
      var side := if cropSize <= ANNOTATION_MAX_SIZE then cropSize else ANNOTATION_MAX_SIZE;
      0 <= p.xMin <= p.xMax <= side && 0 <= p.yMin <= p.yMax <= side
  {
    var b := BoundsBox(bounds);
    var roi := RoiAroundAnnotation(imageHeight, imageWidth, b, cropSize);
    var s := PromptScale(cropSize);
    WindowCoversAnnotation(imageHeight, imageWidth, b, cropSize);
    assert SegmentationPrompt(imageHeight, imageWidth, bounds, cropSize).box
      == AlignBoxPrompt(b, roi.0, roi.1, imageHeight, s, s);
    AlignedInside(b, roi.0, roi.1, imageHeight, cropSize, s);
  }

  /** A box inside a window of `cropSize` at (x, y), with y flipped, is
      aligned into [0, cropSize * s] on both axes. */
  lemma AlignedInside(b: Box, x: int, y: int, imageHeight: int, cropSize: int, s: real)
    requires x <= b.xMin <= b.xMax <= x + cropSize
    requires y <= imageHeight - b.yMax <= imageHeight - b.yMin <= y + cropSize
    requires s == PromptScale(cropSize)
    ensures var p := AlignBoxPrompt(b, x, y, imageHeight, s, s);
      var side := if cropSize <= ANNOTATION_MAX_SIZE then cropSize else ANNOTATION_MAX_SIZE;
      0 <= p.xMin <= p.xMax <= side && 0 <= p.yMin <= p.yMax <= side
  {
    var side := if cropSize <= ANNOTATION_MAX_SIZE then cropSize else ANNOTATION_MAX_SIZE;
    assert cropSize as real * s == side as real;
    ScaledWithin(b.xMin, x, cropSize, s, side);
    ScaledWithin(b.xMax, x, cropSize, s, side);
    ScaledWithin(imageHeight - b.yMax, y, cropSize, s, side);
    ScaledWithin(imageHeight - b.yMin, y, cropSize, s, side);
    AlignKeepsOrder(b, x, y, imageHeight, s, s);
  }

  /** An offset within the window, scaled, truncates to within the scaled
      window. */
  lemma ScaledWithin(v: int, corner: int, cropSize: int, s: real, side: int)
    requires corner <= v <= corner + cropSize && 0.0 < s && cropSize as real * s == side as real
    ensures 0 <= ScaleOffset(v, corner, s) <= side
  {
    var offset := v - corner;
    MulMonotone(0.0, offset as real, s);
    MulMonotone(offset as real, cropSize as real, s);
    TruncWithin(offset as real * s, side);
  }
}
