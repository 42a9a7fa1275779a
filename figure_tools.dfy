/** The integer layer of improc/figureTools.py: where a random circle or
    rotated rectangle is placed so that its stroke stays off the canvas edge,
    the per-pixel rule by which `overDrawImg` merges two images through a
    thresholded mask, and the colours `getRandomColor` can return.

    Drawing itself (cv2.circle, cv2.rectangle, warpAffine) is OpenCV's; the
    model returns the parameters those calls receive. Every `rd.randrange`
    result is an index supplied by the caller (see Python.RandRange). */
module FigureTools {
  import opened Python

  // ---------------------------------------------------------------------
  // Placement of a random circle

  /** Margin kept between the stroke and the canvas edge:
      `thickness // 2 + 1` for an outline, 1 for a filled shape (thickness -1)
      or thickness 0. It always exceeds half the stroke. */
  function Padding(thickness: int): (p: int)
    ensures p >= 1
    ensures thickness > 0 ==> 2 * (p - 1) <= thickness < 2 * p
    ensures thickness <= 0 ==> p == 1
  {
    if thickness > 0 then thickness / 2 + 1 else 1
  }

  /** `min(imgSize)`: the only side length the placement uses. */
  function ShortLength(imgSize: (int, int)): (s: int)
    ensures s <= imgSize.0 && s <= imgSize.1
    ensures s == imgSize.0 || s == imgSize.1
  {
    if imgSize.0 <= imgSize.1 then imgSize.0 else imgSize.1
  }

  /** `maxRadius`: the exclusive upper bound of the radius range. */
  function MaxRadius(imgSize: (int, int), thickness: int): int {
    ShortLength(imgSize) / 2 - 2 * Padding(thickness)
  }

  /** The arguments `cv2.circle` receives: centre and radius. */
  datatype Circle = Circle(centerX: int, centerY: int, radius: int)

  /** A rotated rectangle: the circle it is inscribed in, the rotation
      applied with warpAffine (`rotDeg`) and the angle that places its two
      corners on the circle (`rectDeg`). */
  datatype RotatedRect = RotatedRect(circle: Circle, rotDeg: int, rectDeg: int)

  /** What one call of a shape generator ends in: a placed shape, an
      exception, or the recursive call the source makes when the centre
      range is empty. */
  datatype Draw<T> = Drawn(shape: T) | Raised(error: PyError) | Retried

  /** The caller's draws fit the ranges `randrange` draws from: the radius
      index from [padding, maxRadius), the two centre indices from the range
      the drawn radius leaves. */
  predicate CircleDraws(imgSize: (int, int), thickness: int, radiusDraw: nat, xDraw: nat, yDraw: nat) {
    var p := Padding(thickness);
    var radius := p + radiusDraw;
    var span := ShortLength(imgSize) - 2 * radius - 2 * p;
    && (p < MaxRadius(imgSize, thickness) ==> radiusDraw < MaxRadius(imgSize, thickness) - p)
    && (span > 0 ==> xDraw < span && yDraw < span)
  }

  /** The placement of `createRandomCircle`: radius from
      [padding, shortLength//2 - 2*padding), each centre coordinate from
      [radius + padding, shortLength - radius - padding). An empty radius
      range raises ValueError; the retry branch is never taken; a placed
      circle keeps `padding` pixels between its radius and either edge, on
      both axes. */
  function CreateRandomCircle(imgSize: (int, int), thickness: int, radiusDraw: nat, xDraw: nat, yDraw: nat): (r: Draw<Circle>)
    requires CircleDraws(imgSize, thickness, radiusDraw, xDraw, yDraw)
    ensures !r.Retried?
    ensures r.Drawn? <==> Padding(thickness) < MaxRadius(imgSize, thickness)
    ensures r.Raised? ==> r.error == ValueError
    ensures r.Drawn? ==>
              var c := r.shape;
              var p := Padding(thickness);
              var s := ShortLength(imgSize);
              && p <= c.radius < MaxRadius(imgSize, thickness)
              && p <= c.centerX - c.radius && c.centerX + c.radius + p <= s - 1
              && p <= c.centerY - c.radius && c.centerY + c.radius + p <= s - 1
  {
    var padding := Padding(thickness);
    var shortLength := ShortLength(imgSize);
    var maxRadius := shortLength / 2 - 2 * padding;
    match RandRange(padding, maxRadius, 1, radiusDraw)
    case Err(e) => Raised(e)
    case Ok(radius) =>
      var minCenterPos := radius + padding;
      var maxCenterPos := shortLength - radius - padding;
      if minCenterPos >= maxCenterPos then
        Retried
      else
        match (RandRange(minCenterPos, maxCenterPos, 1, xDraw), RandRange(minCenterPos, maxCenterPos, 1, yDraw))
        case (Ok(centerX), Ok(centerY)) => Drawn(Circle(centerX, centerY, radius))
        case _ => Raised(ValueError)
  }

  /** How far from the centre the stroke of `cv2.circle` reaches: the radius
      plus half the thickness for an outline, the radius for a filled disc. */
  function StrokeReach(radius: int, thickness: int): int {
    radius + (if thickness > 0 then thickness / 2 else 0)
  }

  /** The stroked circle never touches the canvas border: every pixel within
      the stroke's reach of the centre lies in [1, side - 2] on both axes. */
  lemma CircleClearOfCanvasEdge(imgSize: (int, int), thickness: int, radiusDraw: nat, xDraw: nat, yDraw: nat)
    requires CircleDraws(imgSize, thickness, radiusDraw, xDraw, yDraw)
    ensures var r := CreateRandomCircle(imgSize, thickness, radiusDraw, xDraw, yDraw);
            r.Drawn? ==>
              var c := r.shape;
              var reach := StrokeReach(c.radius, thickness);
              && 1 <= c.centerX - reach && c.centerX + reach <= imgSize.0 - 2 && c.centerX + reach <= imgSize.1 - 2
              && 1 <= c.centerY - reach && c.centerY + reach <= imgSize.0 - 2 && c.centerY + reach <= imgSize.1 - 2
  {
    var p := Padding(thickness);
    assert StrokeReach(0, thickness) <= p - 1;
  }

  /** The two angle draws of `createRandomRotatedRect`: `randrange(0, 90, 15)`
      holds six values, `randrange(10, 90, 10)` eight, and every value drawn
      is a multiple of the step within its range. */
  lemma AngleDraws(rotDraw: nat, rectDraw: nat)
    requires rotDraw < 6 && rectDraw < 8
    ensures RangeLength(0, 90, 15) == 6 && RangeLength(10, 90, 10) == 8
    ensures RandRange(0, 90, 15, rotDraw).Ok? && RandRange(10, 90, 10, rectDraw).Ok?
    ensures var v := RandRange(0, 90, 15, rotDraw).value; 0 <= v < 90 && v % 15 == 0
    ensures var v := RandRange(10, 90, 10, rectDraw).value; 10 <= v < 90 && v % 10 == 0
  {
    assert RangeLength(0, 90, 15) == 6;
    assert RangeLength(10, 90, 10) == 8;
    PositiveStepRange(0, 90, 15, rotDraw);
    PositiveStepRange(10, 90, 10, rectDraw);
    var v := RandRange(10, 90, 10, rectDraw).value;
    assert (v - 10) % 10 == 0;
    assert v % 10 == 0;
  }

  /** The placement of `createRandomRotatedRect`: the same centre and radius
      as `createRandomCircle` (the source repeats that code verbatim), then a
      rotation from {0, 15, ..., 75} and a corner angle from {10, 20, ..., 80}.
      The corner coordinates (cos/sin of `rectDeg`) are not modelled. */
  function CreateRandomRotatedRect(imgSize: (int, int), thickness: int, radiusDraw: nat, xDraw: nat, yDraw: nat,
                                   rotDraw: nat, rectDraw: nat): (r: Draw<RotatedRect>)
    requires CircleDraws(imgSize, thickness, radiusDraw, xDraw, yDraw)
    requires rotDraw < 6 && rectDraw < 8
    ensures !r.Retried?
    ensures r.Drawn? <==> Padding(thickness) < MaxRadius(imgSize, thickness)
    ensures r.Raised? ==> r.error == ValueError
    ensures r.Drawn? ==> Drawn(r.shape.circle) == CreateRandomCircle(imgSize, thickness, radiusDraw, xDraw, yDraw)
    ensures r.Drawn? ==> 0 <= r.shape.rotDeg < 90 && r.shape.rotDeg % 15 == 0
    ensures r.Drawn? ==> 10 <= r.shape.rectDeg < 90 && r.shape.rectDeg % 10 == 0
  {
    AngleDraws(rotDraw, rectDraw);
    match CreateRandomCircle(imgSize, thickness, radiusDraw, xDraw, yDraw)
    case Raised(e) => Raised(e)
    case Retried => Retried
    case Drawn(circle) =>
      match (RandRange(0, 90, 15, rotDraw), RandRange(10, 90, 10, rectDraw))
      case (Ok(rotDeg), Ok(rectDeg)) => Drawn(RotatedRect(circle, rotDeg, rectDeg))
      case _ => Raised(ValueError)
  }

  // ---------------------------------------------------------------------
  // overDrawImg: merging a foreground onto a background through a mask

  /** One pixel of a 3-channel 8-bit image, channels in the image's order. */
  datatype Pixel = Pixel(c0: Byte, c1: Byte, c2: Byte)

  /** Two row-major grids of the same shape. */
  predicate SameShape<A, B>(a: seq<seq<A>>, b: seq<seq<B>>) {
    |a| == |b| && forall i :: 0 <= i < |a| ==> |a[i]| == |b[i]|
  }

  /** An image OpenCV calls empty: no rows or no columns. */
  predicate IsEmpty<A>(a: seq<seq<A>>) {
    |a| == 0 || |a[0]| == 0
  }

  /** OpenCV's saturate_cast to an 8-bit value. */
  function Saturate(v: int): (b: Byte)
    ensures 0 <= v < 256 ==> b == v
    ensures v < 0 ==> b == 0
    ensures v > 255 ==> b == 255
  {
    if v < 0 then 0 else if v > 255 then 255 else v
  }

  /** `cv2.threshold(..., THRESH_BINARY)` on one 8-bit pixel: `maxval` where
      the value is strictly above `thresh`, else 0. */
  function Threshold(g: Byte, thresh: int, maxval: int): (b: Byte)
    ensures b == 0 || b == Saturate(maxval)
    ensures b != 0 ==> g > thresh
    ensures g > thresh && maxval > 0 ==> b != 0
  {
    if g > thresh then Saturate(maxval) else 0
  }

  /** Bitwise `a & b` on naturals, lowest bit first. */
  function BitAnd(a: nat, b: nat): nat {
    if a == 0 || b == 0 then 0
    else 2 * BitAnd(a / 2, b / 2) + (if a % 2 == 1 && b % 2 == 1 then 1 else 0)
  }

  /** `a & a == a`. */
  lemma {:induction false} BitAndSelf(a: nat)
    ensures BitAnd(a, a) == a
  {
    if a != 0 {
      BitAndSelf(a / 2);
    }
  }

  /** `cv2.bitwise_and(v, v, mask=m)` on one channel: `v & v` where the mask
      is non-zero, else 0; so the channel is copied under the mask. */
  function MaskCopy(v: Byte, m: Byte): (r: Byte)
    ensures m != 0 ==> r == v
    ensures m == 0 ==> r == 0
  {
    BitAndSelf(v);
    if m != 0 then BitAnd(v, v) else 0
  }

  /** `cv2.add` on one channel: sum saturated at 255. It never darkens
      either operand and adds 0 as the identity. */
  function SaturatingAdd(a: Byte, b: Byte): (r: Byte)
    ensures a <= r && b <= r
    ensures r == a + b || r == 255
    ensures a == 0 ==> r == b
    ensures b == 0 ==> r == a
  {
    Saturate(a + b)
  }

  /** One output pixel of `overDrawImg`: the background kept under the
      inverted mask (`bitwise_not`: 255 - m), the foreground kept under the
      mask, and the two added with saturation. */
  function OverDrawPixel(bg: Pixel, fg: Pixel, m: Byte): (r: Pixel)
    ensures m == 0 ==> r == bg
    ensures m == 255 ==> r == fg
    ensures 0 < m < 255 ==> r == AddPixels(bg, fg)
  {
    var inv := 255 - m;
    Pixel(SaturatingAdd(MaskCopy(bg.c0, inv), MaskCopy(fg.c0, m)),
          SaturatingAdd(MaskCopy(bg.c1, inv), MaskCopy(fg.c1, m)),
          SaturatingAdd(MaskCopy(bg.c2, inv), MaskCopy(fg.c2, m)))
  }

  /** `overDrawImg(bgImg, fgImg, imgFrame, (thresholdMin, thresholdMax))`.
      `gray` stands for `cvtColor(imgFrame, COLOR_BGR2GRAY)`, whose weights
      are OpenCV's. An empty frame, or a background or foreground whose
      shape differs from the mask's, raises cv2.error. The inputs are values
      here, so bgImg and fgImg are left as they were, as the source's copies
      ensure. */
  function OverDrawImg(bg: seq<seq<Pixel>>, fg: seq<seq<Pixel>>, gray: seq<seq<Byte>>,
                       thresholdMin: int, thresholdMax: int): (r: Result<seq<seq<Pixel>>>)
    ensures r.Ok? <==> !IsEmpty(gray) && SameShape(bg, gray) && SameShape(fg, gray)
    ensures r.Err? ==> r.error == Cv2Error
    ensures r.Ok? ==> SameShape(r.value, gray)
  {
    if IsEmpty(gray) || !SameShape(bg, gray) || !SameShape(fg, gray) then Err(Cv2Error)
    else
      Ok(seq(|gray|, i requires 0 <= i < |gray| =>
           seq(|gray[i]|, j requires 0 <= j < |gray[i]| =>
             OverDrawPixel(bg[i][j], fg[i][j], Threshold(gray[i][j], thresholdMin, thresholdMax)))))
  }

  /** The channel-wise saturating sum of two pixels. */
  function AddPixels(a: Pixel, b: Pixel): Pixel {
    Pixel(SaturatingAdd(a.c0, b.c0), SaturatingAdd(a.c1, b.c1), SaturatingAdd(a.c2, b.c2))
  }

  /** Which pixel `overDrawImg` leaves at each position. Where the gray value
      is not above `thresholdMin` the background survives unchanged. Above
      it: with `thresholdMax` >= 255 exactly the foreground; with a
      `thresholdMax` between 1 and 254 both the mask and its inverse are
      non-zero, so background and foreground are added; with
      `thresholdMax` <= 0 the mask is empty and the background survives. */
  lemma OverDrawPixelRule(bg: seq<seq<Pixel>>, fg: seq<seq<Pixel>>, gray: seq<seq<Byte>>,
                          thresholdMin: int, thresholdMax: int, i: nat, j: nat)
    requires !IsEmpty(gray) && SameShape(bg, gray) && SameShape(fg, gray)
    requires i < |gray| && j < |gray[i]|
    ensures var out := OverDrawImg(bg, fg, gray, thresholdMin, thresholdMax).value[i][j];
            && (gray[i][j] <= thresholdMin ==> out == bg[i][j])
            && (gray[i][j] > thresholdMin && thresholdMax >= 255 ==> out == fg[i][j])
            && (gray[i][j] > thresholdMin && 0 < thresholdMax < 255 ==> out == AddPixels(bg[i][j], fg[i][j]))
            && (gray[i][j] > thresholdMin && thresholdMax <= 0 ==> out == bg[i][j])
  {
    var out := OverDrawImg(bg, fg, gray, thresholdMin, thresholdMax).value[i][j];
    assert out == OverDrawPixel(bg[i][j], fg[i][j], Threshold(gray[i][j], thresholdMin, thresholdMax));
  }

  /** With the default maximum 255 the result holds only background and
      foreground pixels: the mask selects, it never blends. */
  lemma OverDrawSelectsWithFullMax(bg: seq<seq<Pixel>>, fg: seq<seq<Pixel>>, gray: seq<seq<Byte>>, thresholdMin: int)
    requires !IsEmpty(gray) && SameShape(bg, gray) && SameShape(fg, gray)
    ensures var out := OverDrawImg(bg, fg, gray, thresholdMin, 255).value;
            forall i, j :: 0 <= i < |out| && 0 <= j < |out[i]| ==>
              out[i][j] == (if gray[i][j] > thresholdMin then fg[i][j] else bg[i][j])
  {
    var out := OverDrawImg(bg, fg, gray, thresholdMin, 255).value;
    forall i, j | 0 <= i < |out| && 0 <= j < |out[i]|
      ensures out[i][j] == (if gray[i][j] > thresholdMin then fg[i][j] else bg[i][j])
    {
      OverDrawPixelRule(bg, fg, gray, thresholdMin, 255, i, j);
    }
  }

  // ---------------------------------------------------------------------
  // getRandomColor

  /** One `randrange(0, 256, inten)` draw succeeds exactly for a positive
      step, and then yields a multiple of the step in [0, 256). */
  lemma ColorChannelRange(inten: int, k: nat)
    requires var n := RangeLength(0, 256, inten); n > 0 ==> k < n
    ensures RandRange(0, 256, inten, k).Ok? <==> inten > 0
    ensures RandRange(0, 256, inten, k).Ok? ==>
              var v := RandRange(0, 256, inten, k).value;
              0 <= v < 256 && v % inten == 0
  {
    if inten > 0 {
      PositiveStepRange(0, 256, inten, k);
    } else if inten < 0 {
      if 256 + inten + 1 > 0 {
        assert -(256 + inten + 1) < 0;
      } else {
        assert 0 <= -(256 + inten + 1) < -inten;
      }
      assert RangeLength(0, 256, inten) <= 0;
    }
  }

  /** `getRandomColor(inten)`: three independent `randrange(0, 256, inten)`
      draws. A zero or negative `inten` leaves the range empty and raises
      ValueError; otherwise every channel is a multiple of `inten` in
      [0, 256). */
  function GetRandomColor(inten: int, k0: nat, k1: nat, k2: nat): (r: Result<(int, int, int)>)
    requires var n := RangeLength(0, 256, inten); n > 0 ==> k0 < n && k1 < n && k2 < n
    ensures r.Ok? <==> inten > 0
    ensures r.Err? ==> r.error == ValueError
    ensures r.Ok? ==> 0 <= r.value.0 < 256 && r.value.0 % inten == 0
    ensures r.Ok? ==> 0 <= r.value.1 < 256 && r.value.1 % inten == 0
    ensures r.Ok? ==> 0 <= r.value.2 < 256 && r.value.2 % inten == 0
  {
    ColorChannelRange(inten, k0);
    ColorChannelRange(inten, k1);
    ColorChannelRange(inten, k2);
    match (RandRange(0, 256, inten, k0), RandRange(0, 256, inten, k1), RandRange(0, 256, inten, k2))
    case (Ok(c0), Ok(c1), Ok(c2)) => Ok((c0, c1, c2))
    case (Err(e), _, _) => Err(e)
    case (_, Err(e), _) => Err(e)
    case (_, _, Err(e)) => Err(e)
  }

  /** With the default intensity step 51 each channel is one of
      0, 51, 102, 153, 204, 255. */
  lemma DefaultColorLevels(k0: nat, k1: nat, k2: nat)
    requires k0 < 6 && k1 < 6 && k2 < 6
    ensures var r := GetRandomColor(51, k0, k1, k2);
            r.Ok? && r.value.0 in {0, 51, 102, 153, 204, 255}
                  && r.value.1 in {0, 51, 102, 153, 204, 255}
                  && r.value.2 in {0, 51, 102, 153, 204, 255}
  {
    assert RangeLength(0, 256, 51) == 6;
  }
}
