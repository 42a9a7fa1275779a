/** improc/preImgProc.py: the sizes `maintainRateResize` and
    `_getImgResizeOneLength` resize and pad an image to. Images are reduced
    to their shape as OpenCV sees it (rows, columns, channels); the OpenCV
    calls (`cvtColor`, `resize`, `copyMakeBorder`) are modelled by the shape
    they return and the assertions they fail, and `ArrayShape` gives the
    ndarray shape the Python binding hands back for a result. */
module PreImgProc {
  import opened Python

  // ---------------------------------------------------------------------
  // _getResizeFilter

  datatype Interpolation = InterArea | InterLinear

  /** The argument of `_getResizeFilter`: a bool or anything else. */
  datatype FlagArg = BoolArg(b: bool) | NonBool

  /** `_getResizeFilter(isSrcImgGreater)`: INTER_AREA to shrink, INTER_LINEAR
      to enlarge; a non-bool argument fails the `assert`. */
  function ResizeFilter(flag: FlagArg): (r: Result<Interpolation>)
    ensures r.Err? <==> flag.NonBool?
    ensures r.Err? ==> r.error == AssertionError
    ensures r.Ok? ==> (r.value == InterArea <==> flag.b) && (r.value == InterLinear <==> !flag.b)
  {
    match flag
    case NonBool => Err(AssertionError)
    case BoolArg(b) => Ok(if b then InterArea else InterLinear)
  }

  // ---------------------------------------------------------------------
  // Image shapes and the OpenCV calls on them

  /** An image as OpenCV holds it: rows, columns, channels. A
      3-dimensional ndarray passed in has its shape as these three. */
  datatype Image = Image(height: nat, width: nat, channels: nat)

  /** The image argument: an ndarray of some shape, or anything else. */
  datatype ImageArg = NdArray(shape: seq<nat>) | NotArray

  /** The size argument: a pair (width, height), a tuple of another length,
      or not a tuple. */
  datatype SizeArg = Pair(w: int, h: int) | OtherTuple | NotTuple

  /** OpenCV treats an image with no rows or no columns as empty. */
  predicate EmptyImage(img: Image) {
    img.height == 0 || img.width == 0
  }

  /** `srcHeight, srcWidth, _ = srcImg.shape`: any other number of
      dimensions fails the unpacking with ValueError. */
  function Unpack(shape: seq<nat>): (r: Result<Image>)
    ensures r.Ok? <==> |shape| == 3
    ensures r.Err? ==> r.error == ValueError
    ensures r.Ok? ==> r.value == Image(shape[0], shape[1], shape[2])
  {
    if |shape| == 3 then Ok(Image(shape[0], shape[1], shape[2])) else Err(ValueError)
  }

  /** `cv2.cvtColor` between RGB and BGR: `None` or an empty image fails the
      `!_src.empty()` assertion, a channel count other than 3 or 4 the
      channel assertion; the result has three channels. */
  function CvtColor(img: Option<Image>): (r: Result<Image>)
    ensures r.Ok? <==> img.Some? && !EmptyImage(img.value) && img.value.channels in {3, 4}
    ensures r.Err? ==> r.error == Cv2Error
    ensures r.Ok? ==> r.value == Image(img.value.height, img.value.width, 3)
  {
    if img.None? || EmptyImage(img.value) || img.value.channels !in {3, 4} then Err(Cv2Error)
    else Ok(Image(img.value.height, img.value.width, 3))
  }

  /** `cvtColor(img, ...) if isRgb else img.copy()`. */
  function ConvertIf(isRgb: bool, img: Image): (r: Result<Image>)
    ensures !isRgb ==> r == Ok(img)
    ensures r.Ok? ==> r.value.height == img.height && r.value.width == img.width
  {
    if isRgb then CvtColor(Some(img)) else Ok(img)
  }

  /** `cv2.resize(img, dsize=(w, h))` with no scale factors: an empty source
      or a target side that is not positive fails an assertion. */
  function Resize(img: Image, dsize: (int, int)): (r: Result<Image>)
    ensures r.Ok? <==> !EmptyImage(img) && dsize.0 > 0 && dsize.1 > 0
    ensures r.Err? ==> r.error == Cv2Error
    ensures r.Ok? ==> r.value == Image(dsize.1, dsize.0, img.channels)
  {
    if EmptyImage(img) || dsize.0 <= 0 || dsize.1 <= 0 then Err(Cv2Error)
    else Ok(Image(dsize.1, dsize.0, img.channels))
  }

  /** `cv2.copyMakeBorder(img, top, bottom, left, right, BORDER_REPLICATE)`:
      a negative border fails an assertion. */
  function CopyMakeBorder(img: Image, top: int, bottom: int, left: int, right: int): (r: Result<Image>)
    ensures r.Ok? <==> top >= 0 && bottom >= 0 && left >= 0 && right >= 0
    ensures r.Err? ==> r.error == Cv2Error
    ensures r.Ok? ==> r.value == Image(img.height + top + bottom, img.width + left + right, img.channels)
  {
    if top < 0 || bottom < 0 || left < 0 || right < 0 then Err(Cv2Error)
    else Ok(Image(img.height + top + bottom, img.width + left + right, img.channels))
  }

  /** The shape of the ndarray OpenCV's Python binding returns for a result
      image: the channel axis is added only for more than one channel, so a
      one-channel image comes back 2-dimensional. */
  function ArrayShape(img: Image): (shape: seq<nat>)
    ensures |shape| == 2 <==> img.channels == 1
    ensures |shape| == 2 || |shape| == 3
    ensures shape[0] == img.height && shape[1] == img.width
    ensures |shape| == 3 ==> shape[2] == img.channels
  {
    if img.channels == 1 then [img.height, img.width] else [img.height, img.width, img.channels]
  }

  // ---------------------------------------------------------------------
  // _getImgResizeOneLength

  /** When the resize step of `_getImgResizeOneLength` succeeds: a size pair
      with exactly one zero side, the other side positive, a non-empty
      source, and a positive side computed from the aspect ratio. */
  predicate OneLengthFits(src: Image, wantSize: SizeArg) {
    && wantSize.Pair? && !EmptyImage(src)
    && (wantSize.w == 0 ==> wantSize.h > 0 && src.width * wantSize.h / src.height > 0)
    && (wantSize.w != 0 ==> wantSize.h == 0 && wantSize.w > 0 && src.height * wantSize.w / src.width > 0)
  }

  /** The resize step of `_getImgResizeOneLength` on the converted image
      `tmp`, which has the source's rows and columns: a zero width keeps the
      aspect ratio from the height, a zero height from the width, and any
      other size resizes nothing. Python's `//` with the positive divisor
      used here is Dafny's `/`, so the computed side is the floor of the
      aspect ratio times the requested one. */
  function ResizeStep(src: Image, tmp: Image, wantSize: SizeArg): (r: Result<Option<Image>>)
    requires tmp.height == src.height && tmp.width == src.width
    ensures r.Ok? && r.value.Some? <==> OneLengthFits(src, wantSize)
    ensures r == Ok(None) <==> !wantSize.Pair? || (wantSize.w != 0 && wantSize.h != 0)
    ensures r.Ok? && r.value.Some? ==> r.value.value.channels == tmp.channels
    ensures r == Err(ZeroDivisionError) ==> EmptyImage(src)
    ensures r.Ok? && r.value.Some? ==> wantSize.Pair? && (wantSize.w == 0 || wantSize.h == 0)
    ensures r.Ok? && r.value.Some? && wantSize.w == 0 ==>
              && r.value.value.height == wantSize.h
              && r.value.value.width * src.height <= src.width * wantSize.h < (r.value.value.width + 1) * src.height
    ensures r.Ok? && r.value.Some? && wantSize.w != 0 ==>
              && r.value.value.width == wantSize.w
              && r.value.value.height * src.width <= src.height * wantSize.w < (r.value.value.height + 1) * src.width
  {
    match wantSize
    case Pair(w, h) =>
      if w == 0 then
        if src.height == 0 then Err(ZeroDivisionError)
        else
          FloorDivision(src.width * h, src.height);
          match Resize(tmp, (src.width * h / src.height, h))
          case Err(e) => Err(e)
          case Ok(d) => Ok(Some(d))
      else if h == 0 then
        if src.width == 0 then Err(ZeroDivisionError)
        else
          FloorDivision(src.height * w, src.width);
          match Resize(tmp, (w, src.height * w / src.width))
          case Err(e) => Err(e)
          case Ok(d) => Ok(Some(d))
      else Ok(None)
    case _ => Ok(None)
  }

  /** When `_getImgResizeOneLength` produces an image: a 3-dimensional
      array, 3 or 4 channels when it is converted, and a size that fits. */
  predicate OneLengthResizable(srcImg: ImageArg, wantSize: SizeArg, isRgb: bool) {
    && srcImg.NdArray? && |srcImg.shape| == 3
    && (isRgb ==> srcImg.shape[2] in {3, 4})
    && OneLengthFits(Image(srcImg.shape[0], srcImg.shape[1], srcImg.shape[2]), wantSize)
  }

  /** `_getImgResizeOneLength` up to its closing colour conversion: unpack
      the shape, convert (RGB mode) or copy, and resize. */
  function ConvertAndResize(srcImg: ImageArg, wantSize: SizeArg, isRgb: bool): (r: Result<Option<Image>>)
    ensures r.Ok? && r.value.Some? <==> OneLengthResizable(srcImg, wantSize, isRgb)
    ensures r.Ok? && r.value.Some? ==> r.value.value.channels == (if isRgb then 3 else srcImg.shape[2])
    ensures r.Ok? && r.value.Some? ==>
              && srcImg.NdArray? && |srcImg.shape| == 3
              && wantSize.Pair? && (wantSize.w == 0 || wantSize.h == 0)
    ensures r.Ok? && r.value.Some? && wantSize.w == 0 ==>
              var d, sh, sw := r.value.value, srcImg.shape[0], srcImg.shape[1];
              && d.height == wantSize.h
              && d.width * sh <= sw * wantSize.h < (d.width + 1) * sh
    ensures r.Ok? && r.value.Some? && wantSize.w != 0 ==>
              var d, sh, sw := r.value.value, srcImg.shape[0], srcImg.shape[1];
              && d.width == wantSize.w
              && d.height * sw <= sh * wantSize.w < (d.height + 1) * sw
    ensures r == Err(ZeroDivisionError) ==> !isRgb
  {
    match srcImg
    case NotArray => Ok(None)
    case NdArray(shape) =>
      match Unpack(shape)
      case Err(e) => Err(e)
      case Ok(src) =>
        match ConvertIf(isRgb, src)
        case Err(e) => Err(e)
        case Ok(tmp) => ResizeStep(src, tmp, wantSize)
  }

  /** `_getImgResizeOneLength(srcImg, wantSize, isRgb)`. A non-array leaves
      the result None; in RGB mode the final `cvtColor` of None then fails,
      so in that mode a call either fails or returns an image. A resized
      image has the requested side exactly and the other side the floor of
      the source's aspect ratio times it. */
  function ResizeOneLength(srcImg: ImageArg, wantSize: SizeArg, isRgb: bool): (r: Result<Option<Image>>)
    ensures r.Ok? && r.value.Some? <==> OneLengthResizable(srcImg, wantSize, isRgb)
    ensures r.Ok? && r.value.Some? ==> r.value.value.channels == (if isRgb then 3 else srcImg.shape[2])
    ensures isRgb && r.Ok? ==> r.value.Some?
    ensures !isRgb ==> r == ConvertAndResize(srcImg, wantSize, isRgb)
    ensures r.Ok? && r.value.Some? ==>
              && srcImg.NdArray? && |srcImg.shape| == 3
              && wantSize.Pair? && (wantSize.w == 0 || wantSize.h == 0)
    ensures r.Ok? && r.value.Some? && wantSize.w == 0 ==>
              var d, sh, sw := r.value.value, srcImg.shape[0], srcImg.shape[1];
              && d.height == wantSize.h
              && d.width * sh <= sw * wantSize.h < (d.width + 1) * sh
    ensures r.Ok? && r.value.Some? && wantSize.w != 0 ==>
              var d, sh, sw := r.value.value, srcImg.shape[0], srcImg.shape[1];
              && d.width == wantSize.w
              && d.height * sw <= sh * wantSize.w < (d.height + 1) * sw
    ensures r == Err(ZeroDivisionError) ==> !isRgb
  {
    match ConvertAndResize(srcImg, wantSize, isRgb)
    case Err(e) => Err(e)
    case Ok(d) =>
      if isRgb then
        match CvtColor(d)
        case Err(e) => Err(e)
        case Ok(img) => Ok(Some(img))
      else Ok(d)
  }

  // ---------------------------------------------------------------------
  // maintainRateResize

  /** The two padding amounts for a difference `delta`:
      `(delta // 2 + odd, delta // 2)` with `odd = 1 if delta % 2 == 1`.
      They add up to `delta`, and the first (top or left) is the larger by
      the odd pixel. */
  function SplitPad(delta: int): (pad: (int, int))
    ensures pad.0 + pad.1 == delta
    ensures pad.0 - pad.1 == delta % 2
    ensures 0 <= pad.0 - pad.1 <= 1
  {
    var half := delta / 2;
    var odd := if delta % 2 == 1 then 1 else 0;
    (half + odd, half)
  }

  /** A padding branch of `maintainRateResize`: convert (RGB mode) or copy
      the source, resize one side with the colour flag inverted, pad with
      `copyMakeBorder`, and convert back in RGB mode. */
  function PadResize(src: Image, isRgb: bool, oneSide: SizeArg, top: int, bottom: int, left: int, right: int): (r: Result<Option<Image>>)
    ensures r.Ok? ==> r.value.Some?
    ensures r.Ok? ==> r.value.value.channels == 3 && src.channels in {3, 4}
  {
    match ConvertIf(isRgb, src)
    case Err(e) => Err(e)
    case Ok(work) =>
      match ResizeOneLength(NdArray([work.height, work.width, work.channels]), oneSide, !isRgb)
      case Err(e) => Err(e)
      case Ok(tmp) =>
        if tmp.None? then Err(Cv2Error)  // copyMakeBorder of None; the sizes passed here always have one zero side
        else
          match CopyMakeBorder(tmp.value, top, bottom, left, right)
          case Err(e) => Err(e)
          case Ok(bordered) =>
            match ConvertIf(isRgb, bordered)
            case Err(e) => Err(e)
            case Ok(d) => Ok(Some(d))
  }

  /** The body of `maintainRateResize`. `asWritten` selects the size the
      no-padding branch for a wide image hands to `_getImgResizeOneLength`:
      `(wantHeight, 0)` as the source has it, or `(wantWidth, 0)`; see
      `MaintainRateResize` and `MaintainRateResizeIntended`. */
  function RateResize(srcImg: ImageArg, wantSize: SizeArg, isRgb: bool, asWritten: bool): (r: Result<Option<Image>>)
    ensures srcImg.NotArray? ==> r == Ok(None)
    ensures srcImg.NdArray? && |srcImg.shape| != 3 ==> r == Err(ValueError)
    ensures srcImg.NdArray? && |srcImg.shape| == 3 && wantSize.NotTuple? ==> r == Ok(None)
    ensures srcImg.NdArray? && |srcImg.shape| == 3 && wantSize.OtherTuple? ==> r == Err(ValueError)
    ensures srcImg.NdArray? && |srcImg.shape| == 3 && wantSize.Pair? && (wantSize.w == 0 || wantSize.h == 0) ==>
              r == ResizeOneLength(srcImg, wantSize, isRgb)
  {
    match srcImg
    case NotArray => Ok(None)
    case NdArray(shape) =>
      match Unpack(shape)
      case Err(e) => Err(e)
      case Ok(src) =>
        match wantSize
        case NotTuple => Ok(None)
        case OtherTuple => Err(ValueError)
        case Pair(wantWidth, wantHeight) =>
          if wantWidth == 0 || wantHeight == 0 then
            ResizeOneLength(srcImg, wantSize, isRgb)
          else if src.width > src.height then
            var tmpHeight := src.height * wantWidth / src.width;
            if tmpHeight < wantHeight then
              var pad := SplitPad(wantHeight - tmpHeight);
              PadResize(src, isRgb, Pair(wantWidth, 0), pad.0, pad.1, 0, 0)
            else if tmpHeight > wantHeight then
              if src.height == 0 then Err(ZeroDivisionError)
              else
                var pad := SplitPad(wantWidth - src.width * wantHeight / src.height);
                PadResize(src, isRgb, Pair(0, wantHeight), 0, 0, pad.0, pad.1)
            else
              ResizeOneLength(srcImg, Pair(if asWritten then wantHeight else wantWidth, 0), isRgb)
          else if src.height == 0 then Err(ZeroDivisionError)
          else
            var tmpWidth := src.width * wantHeight / src.height;
            if tmpWidth < wantWidth then
              var pad := SplitPad(wantWidth - tmpWidth);
              PadResize(src, isRgb, Pair(0, wantHeight), 0, 0, pad.0, pad.1)
            else if tmpWidth > wantWidth then
              if src.width == 0 then Err(ZeroDivisionError)
              else
                var pad := SplitPad(wantHeight - src.height * wantWidth / src.width);
                PadResize(src, isRgb, Pair(wantWidth, 0), pad.0, pad.1, 0, 0)
            else
              ResizeOneLength(srcImg, Pair(0, wantHeight), isRgb)
  }

  /** `maintainRateResize(srcImg, wantSize, isRgb)` as written: the
      no-padding branch for a wide image resizes to width `wantHeight`. */
  function MaintainRateResize(srcImg: ImageArg, wantSize: SizeArg, isRgb: bool): (r: Result<Option<Image>>)
    ensures srcImg.NotArray? ==> r == Ok(None)
    ensures srcImg.NdArray? && |srcImg.shape| != 3 ==> r == Err(ValueError)
    ensures srcImg.NdArray? && |srcImg.shape| == 3 && wantSize.NotTuple? ==> r == Ok(None)
    ensures srcImg.NdArray? && |srcImg.shape| == 3 && wantSize.OtherTuple? ==> r == Err(ValueError)
  {
    RateResize(srcImg, wantSize, isRgb, true)
  }

  /** `maintainRateResize` with the wide no-padding branch resizing to width
      `wantWidth`, as the neighbouring branches do. */
  function MaintainRateResizeIntended(srcImg: ImageArg, wantSize: SizeArg, isRgb: bool): (r: Result<Option<Image>>)
    ensures srcImg.NotArray? ==> r == Ok(None)
    ensures srcImg.NdArray? && |srcImg.shape| != 3 ==> r == Err(ValueError)
    ensures srcImg.NdArray? && |srcImg.shape| == 3 && wantSize.NotTuple? ==> r == Ok(None)
    ensures srcImg.NdArray? && |srcImg.shape| == 3 && wantSize.OtherTuple? ==> r == Err(ValueError)
  {
    RateResize(srcImg, wantSize, isRgb, false)
  }

  /** The channels of a result: a padding branch always converts to three
      channels (and needs a 3- or 4-channel source); the one-length resize
      gives three in RGB mode and keeps the source's otherwise. */
  lemma RateResizeChannels(srcImg: ImageArg, wantSize: SizeArg, isRgb: bool, asWritten: bool)
    ensures var r := RateResize(srcImg, wantSize, isRgb, asWritten);
            r.Ok? && r.value.Some? ==>
              && srcImg.NdArray? && |srcImg.shape| == 3
              && ((r.value.value.channels == 3 && srcImg.shape[2] in {3, 4})
                  || r.value.value.channels == (if isRgb then 3 else srcImg.shape[2]))
  {
  }

  /** The array `_getImgResizeOneLength` returns is 2-dimensional exactly
      when a one-channel source is resized without colour conversion. */
  lemma OneLengthArrayShape(srcImg: ImageArg, wantSize: SizeArg, isRgb: bool)
    ensures var r := ResizeOneLength(srcImg, wantSize, isRgb);
            r.Ok? && r.value.Some? ==>
              (|ArrayShape(r.value.value)| == 2 <==> !isRgb && srcImg.shape[2] == 1)
  {
  }

  /** The array `maintainRateResize` returns is 2-dimensional exactly when a
      one-channel source is resized without colour conversion; such a source
      never reaches a padding branch successfully, since the conversion
      there rejects one channel. */
  lemma RateResizeArrayShape(srcImg: ImageArg, wantSize: SizeArg, isRgb: bool)
    ensures var r := MaintainRateResize(srcImg, wantSize, isRgb);
            r.Ok? && r.value.Some? ==>
              && srcImg.NdArray? && |srcImg.shape| == 3
              && (|ArrayShape(r.value.value)| == 2 <==> !isRgb && srcImg.shape[2] == 1)
    ensures var r := MaintainRateResizeIntended(srcImg, wantSize, isRgb);
            r.Ok? && r.value.Some? ==>
              && srcImg.NdArray? && |srcImg.shape| == 3
              && (|ArrayShape(r.value.value)| == 2 <==> !isRgb && srcImg.shape[2] == 1)
  {
    RateResizeChannels(srcImg, wantSize, isRgb, true);
    RateResizeChannels(srcImg, wantSize, isRgb, false);
  }

  /** A 4×8 one-channel image resized to height 2 without conversion comes
      back as a 2×4 array with no channel axis. */
  lemma OneChannelResizeExample()
    ensures ResizeOneLength(NdArray([4, 8, 1]), Pair(0, 2), false) == Ok(Some(Image(2, 4, 1)))
    ensures ArrayShape(Image(2, 4, 1)) == [2, 4]
  {
    assert OneLengthResizable(NdArray([4, 8, 1]), Pair(0, 2), false);
  }

  /** A requested size with a zero side is handed to the one-length resize
      unchanged. */
  lemma ZeroSideUsesOneLength(srcImg: ImageArg, wantSize: SizeArg, isRgb: bool)
    requires srcImg.NdArray? && |srcImg.shape| == 3
    requires wantSize.Pair? && (wantSize.w == 0 || wantSize.h == 0)
    ensures MaintainRateResize(srcImg, wantSize, isRgb) == ResizeOneLength(srcImg, wantSize, isRgb)
    ensures MaintainRateResizeIntended(srcImg, wantSize, isRgb) == ResizeOneLength(srcImg, wantSize, isRgb)
  {
  }

  /** The one-length resize of a converted or copied image, in the padding
      branches: the requested side exactly, the other side as computed from
      the source's own shape. */
  lemma PadStepShape(src: Image, isRgb: bool, oneSide: SizeArg, top: int, bottom: int, left: int, right: int)
    requires oneSide.Pair? && (oneSide.w == 0) != (oneSide.h == 0)
    ensures var r := PadResize(src, isRgb, oneSide, top, bottom, left, right);
            r.Ok? ==>
              var d := r.value.value;
              && (oneSide.w == 0 ==>
                    && src.height > 0
                    && d.height == oneSide.h + top + bottom
                    && d.width == src.width * oneSide.h / src.height + left + right)
              && (oneSide.h == 0 ==>
                    && src.width > 0
                    && d.width == oneSide.w + left + right
                    && d.height == src.height * oneSide.w / src.width + top + bottom)
  {
    var r := PadResize(src, isRgb, oneSide, top, bottom, left, right);
    if r.Ok? {
      var work := ConvertIf(isRgb, src).value;
      var arg := NdArray([work.height, work.width, work.channels]);
      var tmp := ResizeOneLength(arg, oneSide, !isRgb);
      assert tmp.Ok? && tmp.value.Some?;
      var t := tmp.value.value;
      if oneSide.w == 0 {
        assert t.height == oneSide.h;
        assert t.width * work.height <= work.width * oneSide.h < (t.width + 1) * work.height;
        assert (t.width + 1) * work.height == t.width * work.height + work.height;
        FloorDivisionUnique(src.width * oneSide.h, src.height, t.width);
      } else {
        assert t.width == oneSide.w;
        assert t.height * work.width <= work.height * oneSide.w < (t.height + 1) * work.width;
        assert (t.height + 1) * work.width == t.height * work.width + work.width;
        FloorDivisionUnique(src.height * oneSide.w, src.width, t.height);
      }
    }
  }

  /** A padding branch succeeds on a 3- or 4-channel source when its
      one-length resize fits and the borders are non-negative. */
  lemma PadResizeSucceeds(src: Image, isRgb: bool, oneSide: SizeArg, top: int, bottom: int, left: int, right: int)
    requires src.channels in {3, 4}
    requires OneLengthFits(src, oneSide)
    requires top >= 0 && bottom >= 0 && left >= 0 && right >= 0
    ensures PadResize(src, isRgb, oneSide, top, bottom, left, right).Ok?
  {
    var work := ConvertIf(isRgb, src).value;
    assert OneLengthFits(Image(work.height, work.width, work.channels), oneSide);
    assert OneLengthResizable(NdArray([work.height, work.width, work.channels]), oneSide, !isRgb);
  }

  /** A positive side scaled by a ratio of at least one stays positive:
      `a * want // b >= 1` when `a >= b > 0` and `want >= 1`. */
  lemma ScaledSidePositive(a: int, b: int, want: int)
    requires a >= b > 0 && want >= 1
    ensures a * want / b > 0
  {
    assert a * want == a * (want - 1) + a;
    assert a * (want - 1) >= 0;
    FloorDivision(a * want, b);
    MulCancelLess(1, a * want / b + 1, b);
  }

  /** Every padding branch lands exactly on the requested size, and the
      tall-image branch without padding does too: whenever `maintainRateResize`
      succeeds on positive requested sides outside the wide no-padding
      branch, the result is `wantHeight` rows by `wantWidth` columns. */
  lemma ResizeHitsTarget(sh: nat, sw: nat, sc: nat, wantWidth: int, wantHeight: int, isRgb: bool)
    requires wantWidth > 0 && wantHeight > 0
    requires sw > sh ==> sh * wantWidth / sw != wantHeight
    ensures var r := MaintainRateResize(NdArray([sh, sw, sc]), Pair(wantWidth, wantHeight), isRgb);
            r.Ok? ==> r.value.Some? && r.value.value.height == wantHeight && r.value.value.width == wantWidth
  {
    var srcImg := NdArray([sh, sw, sc]);
    var src := Image(sh, sw, sc);
    var r := MaintainRateResize(srcImg, Pair(wantWidth, wantHeight), isRgb);
    assert Unpack([sh, sw, sc]) == Ok(src);
    if sw > sh {
      var tmpHeight := sh * wantWidth / sw;
      if tmpHeight < wantHeight {
        var pad := SplitPad(wantHeight - tmpHeight);
        PadStepShape(src, isRgb, Pair(wantWidth, 0), pad.0, pad.1, 0, 0);
      } else {
        var pad := SplitPad(wantWidth - sw * wantHeight / sh);
        PadStepShape(src, isRgb, Pair(0, wantHeight), 0, 0, pad.0, pad.1);
      }
    } else if sh > 0 {
      var tmpWidth := sw * wantHeight / sh;
      if tmpWidth < wantWidth {
        var pad := SplitPad(wantWidth - tmpWidth);
        PadStepShape(src, isRgb, Pair(0, wantHeight), 0, 0, pad.0, pad.1);
      } else if tmpWidth > wantWidth {
        if sw > 0 {
          var pad := SplitPad(wantHeight - sh * wantWidth / sw);
          PadStepShape(src, isRgb, Pair(wantWidth, 0), pad.0, pad.1, 0, 0);
        }
      } else if r.Ok? {
        var d := r.value.value;
        assert d.width * sh <= sw * wantHeight < (d.width + 1) * sh;
        FloorDivisionUnique(sw * wantHeight, sh, d.width);
      }
    }
  }

  /** Outside the wide no-padding branch `maintainRateResize` succeeds on a
      3- or 4-channel image with positive sides, positive requested sides,
      and a positive scaled short side, with exactly the requested size. */
  lemma ResizeSucceeds(sh: nat, sw: nat, sc: nat, wantWidth: int, wantHeight: int, isRgb: bool)
    requires wantWidth > 0 && wantHeight > 0 && sh > 0 && sw > 0 && sc in {3, 4}
    requires sw > sh ==> sh * wantWidth / sw > 0 && sh * wantWidth / sw != wantHeight
    requires sw <= sh ==> sw * wantHeight / sh > 0
    ensures var r := MaintainRateResize(NdArray([sh, sw, sc]), Pair(wantWidth, wantHeight), isRgb);
            r.Ok? && r.value.Some? && r.value.value.height == wantHeight && r.value.value.width == wantWidth
  {
    var src := Image(sh, sw, sc);
    assert Unpack([sh, sw, sc]) == Ok(src);
    if sw > sh {
      var tmpHeight := sh * wantWidth / sw;
      if tmpHeight < wantHeight {
        var pad := SplitPad(wantHeight - tmpHeight);
        PadResizeSucceeds(src, isRgb, Pair(wantWidth, 0), pad.0, pad.1, 0, 0);
      } else {
        ScaledSidePositive(sw, sh, wantHeight);
        WidePadWidthDeltaPositive(sh, sw, wantWidth, wantHeight);
        var pad := SplitPad(wantWidth - sw * wantHeight / sh);
        PadResizeSucceeds(src, isRgb, Pair(0, wantHeight), 0, 0, pad.0, pad.1);
      }
    } else {
      var tmpWidth := sw * wantHeight / sh;
      if tmpWidth < wantWidth {
        var pad := SplitPad(wantWidth - tmpWidth);
        PadResizeSucceeds(src, isRgb, Pair(0, wantHeight), 0, 0, pad.0, pad.1);
      } else if tmpWidth > wantWidth {
        ScaledSidePositive(sh, sw, wantWidth);
        TallPadHeightDeltaPositive(sh, sw, wantWidth, wantHeight);
        var pad := SplitPad(wantHeight - sh * wantWidth / sw);
        PadResizeSucceeds(src, isRgb, Pair(wantWidth, 0), pad.0, pad.1, 0, 0);
      } else {
        assert OneLengthResizable(NdArray([sh, sw, sc]), Pair(0, wantHeight), isRgb);
      }
    }
    ResizeHitsTarget(sh, sw, sc, wantWidth, wantHeight, isRgb);
  }

  /** The wide no-padding branch as written resizes to width `wantHeight`,
      which is always narrower than `wantWidth` there: whenever it succeeds,
      the result misses the requested size. */
  lemma WideNoPadMissesTarget(sh: nat, sw: nat, sc: nat, wantWidth: int, wantHeight: int, isRgb: bool)
    requires wantWidth > 0 && wantHeight > 0
    requires sw > sh && sh * wantWidth / sw == wantHeight
    ensures var r := MaintainRateResize(NdArray([sh, sw, sc]), Pair(wantWidth, wantHeight), isRgb);
            r.Ok? ==> r.value.Some? && r.value.value.width == wantHeight < wantWidth
  {
    assert Unpack([sh, sw, sc]) == Ok(Image(sh, sw, sc));
    FloorDivision(sh * wantWidth, sw);
    MulCancelLess(sh, sw, 1);
    assert sh * wantWidth < sw * wantWidth;
    MulCancelLess(wantHeight, wantWidth, sw);
  }

  /** A 200 x 100 RGB-free image asked for 300 x 150 comes back 150 x 75. */
  lemma WideNoPadExample()
    ensures MaintainRateResize(NdArray([100, 200, 3]), Pair(300, 150), false) == Ok(Some(Image(75, 150, 3)))
    ensures MaintainRateResizeIntended(NdArray([100, 200, 3]), Pair(300, 150), false) == Ok(Some(Image(150, 300, 3)))
  {
    assert Unpack([100, 200, 3]) == Ok(Image(100, 200, 3));
  }

  /** A 1 x 10 image asked for (10, 1) needs no padding; as written it is
      resized to width 1 and height 1 * 1 // 10 == 0, which cv2.resize
      rejects, while the corrected branch returns the 1 x 10 image. */
  lemma WideNoPadFailsExample()
    ensures MaintainRateResize(NdArray([1, 10, 3]), Pair(10, 1), false) == Err(Cv2Error)
    ensures MaintainRateResizeIntended(NdArray([1, 10, 3]), Pair(10, 1), false) == Ok(Some(Image(1, 10, 3)))
  {
    assert Unpack([1, 10, 3]) == Ok(Image(1, 10, 3));
  }

  /** With the wide no-padding branch corrected, every successful call on
      positive requested sides returns exactly the requested size. */
  lemma IntendedResizeHitsTarget(sh: nat, sw: nat, sc: nat, wantWidth: int, wantHeight: int, isRgb: bool)
    requires wantWidth > 0 && wantHeight > 0
    ensures var r := MaintainRateResizeIntended(NdArray([sh, sw, sc]), Pair(wantWidth, wantHeight), isRgb);
            r.Ok? ==> r.value.Some? && r.value.value.height == wantHeight && r.value.value.width == wantWidth
  {
    var r := MaintainRateResizeIntended(NdArray([sh, sw, sc]), Pair(wantWidth, wantHeight), isRgb);
    assert Unpack([sh, sw, sc]) == Ok(Image(sh, sw, sc));
    if sw > sh && sh * wantWidth / sw == wantHeight {
      if r.Ok? {
        var d := r.value.value;
        assert d.width == wantWidth;
        assert d.height * sw <= sh * wantWidth < (d.height + 1) * sw;
        FloorDivisionUnique(sh * wantWidth, sw, d.height);
      }
    } else {
      ResizeHitsTarget(sh, sw, sc, wantWidth, wantHeight, isRgb);
      assert MaintainRateResizeIntended(NdArray([sh, sw, sc]), Pair(wantWidth, wantHeight), isRgb)
          == MaintainRateResize(NdArray([sh, sw, sc]), Pair(wantWidth, wantHeight), isRgb);
    }
  }

  /** With the wide no-padding branch corrected, a 3- or 4-channel image with
      positive sides and a positive scaled short side is always resized to
      exactly the requested positive size. */
  lemma IntendedResizeSucceeds(sh: nat, sw: nat, sc: nat, wantWidth: int, wantHeight: int, isRgb: bool)
    requires wantWidth > 0 && wantHeight > 0 && sh > 0 && sw > 0 && sc in {3, 4}
    requires sw > sh ==> sh * wantWidth / sw > 0
    requires sw <= sh ==> sw * wantHeight / sh > 0
    ensures var r := MaintainRateResizeIntended(NdArray([sh, sw, sc]), Pair(wantWidth, wantHeight), isRgb);
            r.Ok? && r.value.Some? && r.value.value.height == wantHeight && r.value.value.width == wantWidth
  {
    if sw > sh && sh * wantWidth / sw == wantHeight {
      assert Unpack([sh, sw, sc]) == Ok(Image(sh, sw, sc));
      assert OneLengthResizable(NdArray([sh, sw, sc]), Pair(wantWidth, 0), isRgb);
    } else {
      ResizeSucceeds(sh, sw, sc, wantWidth, wantHeight, isRgb);
      assert MaintainRateResizeIntended(NdArray([sh, sw, sc]), Pair(wantWidth, wantHeight), isRgb)
          == MaintainRateResize(NdArray([sh, sw, sc]), Pair(wantWidth, wantHeight), isRgb);
    }
    IntendedResizeHitsTarget(sh, sw, sc, wantWidth, wantHeight, isRgb);
  }

  /** In the `tmpHeight > wantHeight` branch of a wide image the width delta
      `wantWidth - tmpWidth` is positive (and `srcHeight` is not zero). */
  lemma WidePadWidthDeltaPositive(sh: nat, sw: nat, wantWidth: int, wantHeight: int)
    requires wantWidth > 0 && wantHeight > 0
    requires sw > sh && sh * wantWidth / sw > wantHeight
    ensures sh > 0 && wantWidth - sw * wantHeight / sh > 0
  {
    FloorDivision(sh * wantWidth, sw);
    assert sh * wantWidth >= (wantHeight + 1) * sw;
    assert sh * wantWidth > 0;
    FloorDivision(sw * wantHeight, sh);
    var q := sw * wantHeight / sh;
    assert q * sh <= sw * wantHeight < wantWidth * sh;
    MulCancelLess(q, wantWidth, sh);
  }

  /** In the `tmpWidth > wantWidth` branch of a tall image the height delta
      `wantHeight - tmpHeight` is positive (and `srcWidth` is not zero). */
  lemma TallPadHeightDeltaPositive(sh: nat, sw: nat, wantWidth: int, wantHeight: int)
    requires wantWidth > 0 && wantHeight > 0
    requires sh > 0 && sw <= sh && sw * wantHeight / sh > wantWidth
    ensures sw > 0 && wantHeight - sh * wantWidth / sw > 0
  {
    FloorDivision(sw * wantHeight, sh);
    assert sw * wantHeight >= (wantWidth + 1) * sh;
    assert sw * wantHeight > 0;
    FloorDivision(sh * wantWidth, sw);
    var q := sh * wantWidth / sw;
    assert q * sw <= sh * wantWidth < wantHeight * sw;
    MulCancelLess(q, wantHeight, sw);
  }
}
