/**
 * Placement of a source image on the fixed-size canvas of the output video:
 * the ratio, scaled size and offset that `fillPixelBufferFromImage` computes
 * before it draws the image into the pixel buffer.
 *
 * CGFloat is idealised as `real` (exact rationals), so the bounds and the
 * centring hold as equalities rather than up to rounding.
 */
module Compositor {

  datatype Size = Size(width: real, height: real)

  /** A CGRect: origin (x, y) and extent (width, height). */
  datatype Rect = Rect(x: real, y: real, width: real, height: real)

  /** UIKit's UIViewContentMode. Only the two aspect modes are told apart. */
  datatype ContentMode =
    | ScaleToFill | ScaleAspectFit | ScaleAspectFill | Redraw | Center
    | Top | Bottom | Left | Right | TopLeft | TopRight | BottomLeft | BottomRight

  predicate IsPositive(s: Size) {
    s.width > 0.0 && s.height > 0.0
  }

  /** Swift's `min`: the second argument when it is strictly smaller. */
  function Min(a: real, b: real): (m: real)
    ensures m <= a && m <= b && (m == a || m == b)
  {
    if b < a then b else a
  }

  /** Swift's `max`: the second argument when it is at least as large. */
  function Max(a: real, b: real): (m: real)
    ensures m >= a && m >= b && (m == a || m == b)
  {
    if b >= a then b else a
  }

  /** The single factor both image dimensions are multiplied by. */
  function ScaleRatio(canvas: Size, image: Size, mode: ContentMode): real
    requires IsPositive(image)
  {
    var horizontalRatio := canvas.width / image.width;
    var verticalRatio := canvas.height / image.height;
    match mode
    case ScaleAspectFill => Max(horizontalRatio, verticalRatio)
    case ScaleAspectFit => Min(horizontalRatio, verticalRatio)
    case _ => Min(horizontalRatio, verticalRatio)
  }

  function ScaledSize(canvas: Size, image: Size, mode: ContentMode): Size
    requires IsPositive(image)
  {
    var ratio := ScaleRatio(canvas, image, mode);
    Size(image.width * ratio, image.height * ratio)
  }

  /**
   * The offset along one axis: half the slack when the scaled image is
   * shorter than the canvas, otherwise zero (the overflow falls outside
   * the buffer instead of being split between both sides).
   */
  function CenteredOffset(canvasLength: real, scaledLength: real): (offset: real)
    ensures offset >= 0.0
    ensures scaledLength <= canvasLength ==> offset + scaledLength / 2.0 == canvasLength / 2.0
    ensures scaledLength <= canvasLength ==> offset + scaledLength <= canvasLength
    ensures canvasLength <= scaledLength ==> offset == 0.0
  {
    if scaledLength < canvasLength then (canvasLength - scaledLength) / 2.0 else 0.0
  }

  /** The rectangle the image is drawn into. */
  function DrawRect(canvas: Size, image: Size, mode: ContentMode): Rect
    requires IsPositive(image)
  {
    var newSize := ScaledSize(canvas, image, mode);
    Rect(CenteredOffset(canvas.width, newSize.width),
         CenteredOffset(canvas.height, newSize.height),
         newSize.width, newSize.height)
  }

  // ---------------------------------------------------------------------
  // Properties of the placement
  // ---------------------------------------------------------------------

  /** Multiplying a positive length by a factor no larger (no smaller) than canvas/length stays within (reaches) the canvas. */
  lemma ScaleAgainstAxis(length: real, canvasLength: real, ratio: real)
    requires length > 0.0
    ensures ratio <= canvasLength / length ==> length * ratio <= canvasLength
    ensures ratio >= canvasLength / length ==> length * ratio >= canvasLength
    ensures ratio == canvasLength / length ==> length * ratio == canvasLength
  {
    var exact := canvasLength / length;
    assert length * exact == canvasLength;
    assert length * ratio - canvasLength == length * (ratio - exact);
    if ratio <= exact {
      assert length * (exact - ratio) >= 0.0;
    }
    if ratio >= exact {
      assert length * (ratio - exact) >= 0.0;
    }
  }

  /**
   * Aspect fit (and every mode other than aspect fill): the scaled image
   * lies within the canvas and touches it on at least one axis.
   */
  lemma FitBounds(canvas: Size, image: Size, mode: ContentMode)
    requires IsPositive(image) && mode != ScaleAspectFill
    ensures var s := ScaledSize(canvas, image, mode);
      s.width <= canvas.width && s.height <= canvas.height &&
      (s.width == canvas.width || s.height == canvas.height)
  {
    var ratio := ScaleRatio(canvas, image, mode);
    ScaleAgainstAxis(image.width, canvas.width, ratio);
    ScaleAgainstAxis(image.height, canvas.height, ratio);
  }

  /** Aspect fill: the scaled image covers the canvas and matches it on at least one axis. */
  lemma FillBounds(canvas: Size, image: Size)
    requires IsPositive(image)
    ensures var s := ScaledSize(canvas, image, ScaleAspectFill);
      s.width >= canvas.width && s.height >= canvas.height &&
      (s.width == canvas.width || s.height == canvas.height)
  {
    var ratio := ScaleRatio(canvas, image, ScaleAspectFill);
    ScaleAgainstAxis(image.width, canvas.width, ratio);
    ScaleAgainstAxis(image.height, canvas.height, ratio);
  }

  /** Both dimensions are scaled by the same factor, so the aspect ratio is kept. */
  lemma AspectPreserved(canvas: Size, image: Size, mode: ContentMode)
    requires IsPositive(image)
    ensures var s := ScaledSize(canvas, image, mode);
      s.width * image.height == s.height * image.width
  {
    var ratio := ScaleRatio(canvas, image, mode);
    assert (image.width * ratio) * image.height == (image.height * ratio) * image.width;
  }

  /** The aspect-fit ratio is the largest factor at which the image still fits. */
  lemma FitRatioIsLargest(canvas: Size, image: Size, ratio: real)
    requires IsPositive(image)
    ensures (image.width * ratio <= canvas.width && image.height * ratio <= canvas.height)
        <==> ratio <= ScaleRatio(canvas, image, ScaleAspectFit)
  {
    var fit := ScaleRatio(canvas, image, ScaleAspectFit);
    ScaleAgainstAxis(image.width, canvas.width, ratio);
    ScaleAgainstAxis(image.height, canvas.height, ratio);
    if image.width * ratio <= canvas.width && image.height * ratio <= canvas.height {
      LengthBound(image.width, canvas.width, ratio);
      LengthBound(image.height, canvas.height, ratio);
    }
  }

  /** The aspect-fill ratio is the smallest factor at which the image covers the canvas. */
  lemma FillRatioIsSmallest(canvas: Size, image: Size, ratio: real)
    requires IsPositive(image)
    ensures (image.width * ratio >= canvas.width && image.height * ratio >= canvas.height)
        <==> ratio >= ScaleRatio(canvas, image, ScaleAspectFill)
  {
    ScaleAgainstAxis(image.width, canvas.width, ratio);
    ScaleAgainstAxis(image.height, canvas.height, ratio);
    if image.width * ratio >= canvas.width && image.height * ratio >= canvas.height {
      LengthBound(image.width, canvas.width, ratio);
      LengthBound(image.height, canvas.height, ratio);
    }
  }

  /** Dividing an inequality by a positive length. */
  lemma LengthBound(length: real, canvasLength: real, ratio: real)
    requires length > 0.0
    ensures length * ratio <= canvasLength ==> ratio <= canvasLength / length
    ensures length * ratio >= canvasLength ==> ratio >= canvasLength / length
  {
    var exact := canvasLength / length;
    assert length * exact == canvasLength;
    assert length * ratio - canvasLength == length * (ratio - exact);
  }

  /**
   * Aspect fit on a positive canvas: the drawn rectangle lies inside the
   * canvas, is centred on both axes, and leaves no margin on at least one.
   */
  lemma FitRectInsideCanvas(canvas: Size, image: Size, mode: ContentMode)
    requires IsPositive(image) && IsPositive(canvas) && mode != ScaleAspectFill
    ensures var r := DrawRect(canvas, image, mode);
      0.0 <= r.x && r.x + r.width <= canvas.width &&
      0.0 <= r.y && r.y + r.height <= canvas.height &&
      r.width > 0.0 && r.height > 0.0 &&
      r.x + r.width / 2.0 == canvas.width / 2.0 &&
      r.y + r.height / 2.0 == canvas.height / 2.0 &&
      ((r.x == 0.0 && r.width == canvas.width) || (r.y == 0.0 && r.height == canvas.height))
  {
    FitBounds(canvas, image, mode);
    var ratio := ScaleRatio(canvas, image, mode);
    assert ratio > 0.0;
    assert image.width * ratio > 0.0 && image.height * ratio > 0.0;
  }

  /**
   * Aspect fill: the drawn rectangle starts at the canvas origin and covers
   * the whole canvas; the overflowing axis is cropped by the buffer bounds.
   */
  lemma FillRectCoversCanvas(canvas: Size, image: Size)
    requires IsPositive(image)
    ensures var r := DrawRect(canvas, image, ScaleAspectFill);
      r.x == 0.0 && r.y == 0.0 &&
      r.width >= canvas.width && r.height >= canvas.height &&
      (r.width == canvas.width || r.height == canvas.height)
  {
    FillBounds(canvas, image);
  }

  /** Every content mode other than aspect fill is placed exactly as aspect fit. */
  lemma OtherModesPlaceAsFit(canvas: Size, image: Size, mode: ContentMode)
    requires IsPositive(image) && mode != ScaleAspectFill
    ensures DrawRect(canvas, image, mode) == DrawRect(canvas, image, ScaleAspectFit)
  {
  }

  /** A square 640x640 image fitted to the 320x568 canvas: 320x320, with a 124-point margin above and below. */
  lemma FitSquareOnPortraitCanvas()
    ensures DrawRect(Size(320.0, 568.0), Size(640.0, 640.0), ScaleAspectFit)
         == Rect(0.0, 124.0, 320.0, 320.0)
  {
  }

  /** A 1280x720 image filling the 320x568 canvas: ratio 568/720, width about 1009.8, no offsets. */
  lemma FillLandscapeOnPortraitCanvas()
    ensures DrawRect(Size(320.0, 568.0), Size(1280.0, 720.0), ScaleAspectFill)
         == Rect(0.0, 0.0, 9088.0 / 9.0, 568.0)
  {
  }
}
