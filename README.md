# subTools image toolkit: a Dafny model of its integer and dictionary layer

subTools is a small Python image toolkit. OpenCV, NumPy and matplotlib do most
of its work. This project models the code around those calls: integer
arithmetic, dictionary bookkeeping and array scans. It proves what that code
guarantees.

- `python.dfy` (module `Python`) holds the Python runtime pieces the toolkit
  relies on:
  - the exceptions, as a `PyError` value inside a `Result`;
  - `random.randrange`, with the drawn index passed in by the caller;
  - floor division by a positive divisor;
  - `str(int)` and its inverse `int(str)`;
  - `",".join` and `split(",")`.
- `figure_tools.dfy` (module `FigureTools`) covers improc/figureTools.py:
  - where `createRandomCircle` and `createRandomRotatedRect` place a shape
    (padding, radius range, centre range, the two angle draws);
  - the per-pixel rule by which `overDrawImg` merges a foreground and a
    background through a thresholded mask;
  - the colour lattice of `getRandomColor`.
- `img_proc.dfy` (module `ImgProc`) covers improc/imgProc.py:
  - `ColorPixelManager`, a class whose constructor scans an `array3` image
    with nested loops and fills a colour-key → positions dictionary. Key
    insertion order is a `seq`; the dictionary is a `map`.
  - Its lookups: `getPixelPosList`, `getPixelCount`, `_callValue` and
    `getMinMaxPixel`.
  - The grid-shape loop of `showImageFiles`.
  - The constructor is proved to compute `Build`, a fold of `Insert` over the
    pixels in row-major order. Lemmas then prove what that fold guarantees:
    - every position lies in the list of its own colour and in no other;
    - lists are in scan order;
    - keys appear in order of first occurrence;
    - `rows * cols` positions are stored in all.
- `pre_img_proc.dfy` (module `PreImgProc`) covers improc/preImgProc.py:
  - `_getResizeFilter`, `_getImgResizeOneLength` and `maintainRateResize`,
    reduced to the image shapes they produce and the errors they raise;
  - each OpenCV call (`cvtColor`, `resize`, `copyMakeBorder`), modelled by
    the image shape (rows, columns, channels) it returns and the assertions
    it fails;
  - the ndarray the Python binding hands back (`ArrayShape`): a one-channel
    result comes back 2-dimensional, without its channel axis.
- `hist_viewer.dfy` (module `HistViewer`) covers `checkEpochCount` from
  dataTool/histViewer.py:
  - it annotates a training history held in the caller's dict, in place;
  - `HistDict` is that dict (a class with insertion order and entries);
  - `Annotate` is the update as a function of the old contents;
  - `CheckEpochCount` is the method that performs it on the object.

Randomness is a parameter: each `rd.randrange(start, stop, step)` result is
`start + step * k`, where the caller supplies an index `k` below the range
length. OpenCV pixel content is not modelled. `overDrawImg` takes its gray
image as an input array. The resize functions take a shape
`(rows, columns, channels)` and return OpenCV's rows, columns and channels;
`ArrayShape` turns that into the returned array's shape.

Two behaviours of the code shape the model:
- The retry in `createRandomCircle` and `createRandomRotatedRect` is
  unreachable. When the radius range is empty, `randrange` raises ValueError
  before the retry is reached. `CreateRandomCircle` proves this.
- `overDrawImg` thresholds strictly above `thresholdMin` and writes
  `thresholdMax` into the mask, not 255. A maximum between 1 and 254
  therefore blends the two images above the threshold instead of selecting
  one; a maximum of 0 or below keeps the background everywhere
  (`OverDrawPixelRule`).

## Model

| member | source | states |
|---|---|---|
| Python.RandRange | improc/figureTools.py:21 | randrange succeeds exactly when the step is non-zero and the range is non-empty; otherwise it raises ValueError |
| Python.UnitStepRange | improc/figureTools.py:27-28 | with step 1 the range is non-empty iff start < stop, and the value drawn lies in [start, stop) |
| Python.PositiveStepRange | improc/figureTools.py:102-104 | with a positive step the range is non-empty iff start < stop, and every value drawn lies in [start, stop) on the lattice start + step·k |
| Python.FloorDivision | improc/preImgProc.py:35 | `a // b` with b > 0 is the floor: q·b <= a < (q+1)·b |
| Python.FloorDivisionUnique | improc/preImgProc.py:41 | any q with q·b <= a < (q+1)·b equals `a // b` |
| Python.Str | improc/imgProc.py:19 | `str(i)` is non-empty, starts with '-' iff i < 0, and contains no comma |
| Python.DecimalRoundTrip | improc/imgProc.py:19 | reading back the decimal digits of n gives n |
| Python.StrRoundTrip | improc/imgProc.py:19 | `int(str(i)) == i` for every integer |
| Python.SplitJoin | improc/imgProc.py:20 | splitting a `",".join` of comma-free parts at the commas gives the parts back |
| FigureTools.Padding | improc/figureTools.py:17 | padding is at least 1; for a positive thickness it exceeds half the stroke (2·(p-1) <= thickness < 2·p); otherwise it is 1 |
| FigureTools.ShortLength | improc/figureTools.py:18 | `min(imgSize)` is one of the two sides and no larger than either |
| FigureTools.CreateRandomCircle | improc/figureTools.py:17-34 | the recursive retry is never taken; a circle is placed iff padding < maxRadius, and otherwise ValueError is raised; the radius lies in [padding, maxRadius); both centre coordinates keep `padding` pixels between the circle and each edge of the shorter side |
| FigureTools.CircleClearOfCanvasEdge | improc/figureTools.py:22-33 | the stroked circle (radius plus half the thickness) stays within [1, side-2] on both axes of both sides |
| FigureTools.AngleDraws | improc/figureTools.py:59-61 | `randrange(0, 90, 15)` holds 6 values and `randrange(10, 90, 10)` holds 8; the values are multiples of 15 in [0, 90) and of 10 in [10, 90) |
| FigureTools.CreateRandomRotatedRect | improc/figureTools.py:45-61 | same outcome and circle as createRandomCircle for the same draws; the retry is never taken; the rotation is in {0, 15, ..., 75} and the corner angle in {10, 20, ..., 80} |
| FigureTools.Saturate | improc/figureTools.py:96 | saturating cast to a byte: values in range are kept, below 0 gives 0, above 255 gives 255 |
| FigureTools.Threshold | improc/figureTools.py:90 | `THRESH_BINARY` on one pixel: the result is 0 or the saturated maximum; it is non-zero only above the threshold, and above it whenever the maximum is positive |
| FigureTools.BitAndSelf | improc/figureTools.py:93 | `v & v == v` |
| FigureTools.MaskCopy | improc/figureTools.py:93-95 | `bitwise_and(v, v, mask=m)` on one channel copies v where the mask is non-zero and gives 0 elsewhere |
| FigureTools.SaturatingAdd | improc/figureTools.py:96 | `cv2.add` on one channel: at least either operand, the exact sum or 255, and adding 0 changes nothing |
| FigureTools.OverDrawPixel | improc/figureTools.py:91-96 | a mask of 0 keeps the background pixel, 255 takes the foreground pixel, and anything in between adds both with saturation |
| FigureTools.OverDrawImg | improc/figureTools.py:88-97 | for a range of two integers and 3-channel images, succeeds iff the mask is non-empty and background and foreground have its shape (otherwise cv2.error); the result has the mask's shape |
| FigureTools.OverDrawPixelRule | improc/figureTools.py:88-97 | per pixel: gray <= thresholdMin keeps the background; above it, thresholdMax >= 255 gives the foreground, 0 < thresholdMax < 255 the saturating sum of both, and thresholdMax <= 0 the background |
| FigureTools.OverDrawSelectsWithFullMax | improc/figureTools.py:88-97 | with thresholdMax 255 every output pixel is exactly the foreground (gray > thresholdMin) or exactly the background |
| FigureTools.ColorChannelRange | improc/figureTools.py:102 | one `randrange(0, 256, inten)` succeeds iff inten > 0, and then yields a multiple of inten in [0, 256) |
| FigureTools.GetRandomColor | improc/figureTools.py:99-104 | succeeds iff inten > 0 (otherwise ValueError); every channel is a multiple of inten in [0, 256) |
| FigureTools.DefaultColorLevels | improc/figureTools.py:99-104 | with the default 51 every channel is one of 0, 51, 102, 153, 204, 255 |
| ImgProc.StrParts | improc/imgProc.py:19 | one `str(v)` per channel value, in channel order |
| ImgProc.ColorKeyIsJoin | improc/imgProc.py:19-20 | the colour key is `",".join` of the channel values' decimal strings |
| ImgProc.ColorKeyRoundTrip | improc/imgProc.py:19-20 | splitting a key at the commas and reading each field gives the channel values back |
| ImgProc.ColorKeyInjective | improc/imgProc.py:19-20 | two colours have the same key iff they have the same channel values |
| ImgProc.InsertKeepsOrder | improc/imgProc.py:23-25 | one loop step keeps the key order free of repeats and listing exactly the dictionary's keys |
| ImgProc.InsertKeepsLists | improc/imgProc.py:23-25 | one loop step keeps the keys the scanned keys, and each list the positions scanned under its key |
| ImgProc.InsertKeepsFirstOccurrence | improc/imgProc.py:23-25 | one loop step keeps keys in the order of their first scanned occurrence |
| ImgProc.InsertKeepsTotal | improc/imgProc.py:23-25 | one loop step stores exactly one more position |
| ImgProc.InsertKeepsIndex | improc/imgProc.py:23-25 | one loop step keeps the dictionary an index of the pixels scanned so far: distinct keys, first-occurrence order, each list the positions of its key, one stored position per pixel |
| ImgProc.BuildIndexes | improc/imgProc.py:17-25 | the dictionary built by the scan is an index of the scan, in that sense |
| ImgProc.BuildKeys | improc/imgProc.py:17-25 | the keys after the whole scan are the scanned keys |
| ImgProc.BuildList | improc/imgProc.py:17-25 | each list after the whole scan holds the positions scanned under its key, in scan order |
| ImgProc.BuildFirstOccurrence | improc/imgProc.py:17-25 | after the whole scan keys stand in the order of their first occurrence |
| ImgProc.BuildTotal | improc/imgProc.py:17-25 | after the whole scan one position is stored per scanned pixel |
| ImgProc.PositionsOfIncreasing | improc/imgProc.py:17-25 | a row-major scan yields each list in row-major order |
| ImgProc.ImageLength | improc/imgProc.py:17-18 | the scan visits rows·cols positions |
| ImgProc.KeyGridAt | improc/imgProc.py:19-20 | the scanned grid holds each pixel's colour key |
| ImgProc.ColorPixelManager.constructor | improc/imgProc.py:6-25 | after the nested loops, rows/cols are the image's and the dictionary with its key order equals the row-major fold of `Insert` over every pixel; keys are distinct and every list is non-empty |
| ImgProc.ColorPixelManager.ScanRow | improc/imgProc.py:18-25 | the inner loop extends the fold by exactly the pixels of one row, in column order |
| ImgProc.ColorPixelManager.AddPosition | improc/imgProc.py:23-25 | an unseen key gets a fresh list appended to the key order; the position is appended to its key's list; nothing else changes; a valid index (distinct keys, listed in order, no empty list) stays valid |
| ImgProc.ManagerCoversImage | improc/imgProc.py:17-25 | every position (r, c) is in the list under its own colour key |
| ImgProc.ManagerOnlyOwnPixels | improc/imgProc.py:17-25 | every stored position lies in the image and carries the colour of the key it is stored under, so each position is in exactly one list |
| ImgProc.ManagerListsSorted | improc/imgProc.py:17-25 | every list is in row-major order |
| ImgProc.ManagerKeyOrder | improc/imgProc.py:17-25 | keys are ordered by the scan index of their colour's first pixel |
| ImgProc.ManagerTotal | improc/imgProc.py:17-25 | the lists hold rows·cols positions in all |
| ImgProc.ColorPixelManager.GetPixelPosList | improc/imgProc.py:27-45 | other argument types give None; a tuple or list is looked up by its key, a string as the key; an unknown key gives None, a known one its list |
| ImgProc.LookupByColor | improc/imgProc.py:27-45 | on a manager built from an image, looking up channel values finds position p iff the pixel at p has exactly those values |
| ImgProc.LookupFormsAgree | improc/imgProc.py:32-42 | a tuple, an equal list and their key string find the same result |
| ImgProc.ColorPixelManager.GetPixelCount | improc/imgProc.py:47-52 | every call raises AttributeError (the called `getPixelPos` does not exist) |
| ImgProc.ColorPixelManager.GetPixelCountIntended | improc/imgProc.py:47-52 | with `getPixelPosList`: the list's length, which is positive, for a known colour; TypeError (`len(None)`) otherwise |
| ImgProc.ColorPixelManager.CallValue | improc/imgProc.py:69-72 | the length of a key's list; KeyError for a missing key |
| ImgProc.FirstMinIndex | improc/imgProc.py:65 | `min(..., key=...)`: an index of a smallest value, with every earlier value strictly larger |
| ImgProc.FirstMaxIndex | improc/imgProc.py:66 | `max(..., key=...)`: an index of a largest value, with every earlier value strictly smaller |
| ImgProc.ColorPixelManager.Counts | improc/imgProc.py:65-72 | the list length of each key, in key order |
| ImgProc.ColorPixelManager.GetMinMaxPixel | improc/imgProc.py:58-72 | fails with ValueError iff the dictionary is empty; otherwise returns keys with the fewest and the most positions, ties going to the earliest-inserted key |
| ImgProc.SubplotGrid | improc/imgProc.py:94-100 | the grid holds all images (r·c >= count); c is r or r+1; and the grid before the last step was too small (minimality) |
| PreImgProc.ResizeFilter | improc/preImgProc.py:7-15 | INTER_AREA iff the flag is True, INTER_LINEAR iff False; a non-bool fails the assert |
| PreImgProc.Unpack | improc/preImgProc.py:28 | unpacking the shape succeeds iff it has three dimensions, otherwise ValueError |
| PreImgProc.CvtColor | improc/preImgProc.py:29 | succeeds iff given a non-empty image with 3 or 4 channels (otherwise cv2.error), keeps rows and columns, and gives 3 channels |
| PreImgProc.ConvertIf | improc/preImgProc.py:29 | without RGB mode the image is copied unchanged; rows and columns are always kept |
| PreImgProc.Resize | improc/preImgProc.py:37 | succeeds iff the source is non-empty and both target sides are positive; the result is height dsize.1 by width dsize.0 with the source's channel count (a one-channel result reaches Python 2-dimensional, see ArrayShape) |
| PreImgProc.CopyMakeBorder | improc/preImgProc.py:76 | succeeds iff every border is non-negative; each side grows by its borders and the channel count is kept |
| PreImgProc.ResizeStep | improc/preImgProc.py:30-43 | an image comes back iff the source is non-empty, exactly one requested side is zero, the other is positive, and the computed side is positive; a size with no zero side, or a non-tuple, resizes nothing; a zero width keeps the requested height and takes the floor of the aspect ratio times it as width (zero height symmetrically); the channel count is kept (a one-channel image then reaches Python 2-dimensional, see ArrayShape); ZeroDivisionError only for an empty source |
| PreImgProc.ConvertAndResize | improc/preImgProc.py:26-43 | the same, after unpacking the shape and converting (RGB mode) or copying: an image comes back iff the shape has three dimensions, the channels are 3 or 4 when the conversion runs, and the one-length resize fits; 3 channels in RGB mode, the source's channel count otherwise (so one channel, a 2-dimensional array, for a one-channel source; see OneLengthArrayShape) |
| PreImgProc.ResizeOneLength | improc/preImgProc.py:17-44 | the same success condition, rows, columns and channel count; in RGB mode a success always carries an image (the final cvtColor of None fails); ZeroDivisionError only outside RGB mode |
| PreImgProc.ArrayShape | improc/preImgProc.py:37 | the binding's ndarray for an image has two axes iff the image has one channel, three otherwise; rows, columns and (with three axes) channels are the image's |
| PreImgProc.OneLengthArrayShape | improc/preImgProc.py:17-44 | a successful one-length resize returns a 2-dimensional array iff RGB mode is off and the source has one channel |
| PreImgProc.OneChannelResizeExample | improc/preImgProc.py:37 | a 4×8×1 array resized to height 2 without RGB mode comes back with shape (2, 4) |
| PreImgProc.RateResizeChannels | improc/preImgProc.py:46-122 | a success has a three-dimensional source; its channels are 3 from a padding branch (which needs 3 or 4 source channels), otherwise 3 in RGB mode and the source's channel count without it |
| PreImgProc.RateResizeArrayShape | improc/preImgProc.py:46-122 | as written and corrected, a successful resize returns a 2-dimensional array iff RGB mode is off and the source has one channel; such a source never succeeds in a padding branch |
| PreImgProc.SplitPad | improc/preImgProc.py:69-76 | the two pads sum to the delta, and the top/left one is larger by delta % 2 |
| PreImgProc.PadResize | improc/preImgProc.py:72-77 | a successful padding branch always returns an image with 3 channels, and needs a source with 3 or 4 channels |
| PreImgProc.PadStepShape | improc/preImgProc.py:72-88 | a padding branch's result is the one-length resize's shape plus its borders |
| PreImgProc.RateResize | improc/preImgProc.py:46-122 | both variants of the resize, as written and with the wide no-padding branch corrected: a non-array gives None; a shape without three dimensions gives ValueError; a non-tuple size gives None; a tuple of another length gives ValueError; a size with a zero side goes to the one-length resize |
| PreImgProc.MaintainRateResize | improc/preImgProc.py:46-122 | a non-array gives None; a shape without three dimensions gives ValueError; a non-tuple size gives None; a tuple of another length gives ValueError |
| PreImgProc.ZeroSideUsesOneLength | improc/preImgProc.py:60-61 | a requested size with a zero side goes to the one-length resize unchanged |
| PreImgProc.ResizeHitsTarget | improc/preImgProc.py:65-121 | for positive requested sides, outside the wide no-padding branch, every success is exactly wantHeight by wantWidth: all four padding branches and the tall no-padding branch |
| PreImgProc.PadResizeSucceeds | improc/preImgProc.py:72-77 | a padding branch succeeds whenever the image has 3 or 4 channels, its one-length resize fits, and the borders are non-negative |
| PreImgProc.ResizeSucceeds | improc/preImgProc.py:65-121 | on a non-empty 3- or 4-channel image with positive requested sides, the resize returns exactly wantHeight by wantWidth whenever the scaled side is positive and, for a wide image, differs from wantHeight |
| PreImgProc.IntendedResizeSucceeds | improc/preImgProc.py:65-121 | with the wide no-padding branch corrected, the same holds without the condition on wantHeight |
| PreImgProc.WideNoPadFailsExample | improc/preImgProc.py:91-92 | a 1×10 image asked for (10, 1) raises cv2.error as written, since the one-length resize computes a zero height; corrected it comes back 1×10 |
| PreImgProc.WidePadWidthDeltaPositive | improc/preImgProc.py:79-81 | in the wide `tmpHeight > wantHeight` branch, srcHeight > 0 and the width delta is positive |
| PreImgProc.TallPadHeightDeltaPositive | improc/preImgProc.py:108-110 | in the tall `tmpWidth > wantWidth` branch, srcWidth > 0 and the height delta is positive |
| PreImgProc.WideNoPadMissesTarget | improc/preImgProc.py:91-92 | in the wide no-padding branch every success has width wantHeight, which is less than wantWidth |
| PreImgProc.WideNoPadExample | improc/preImgProc.py:91-92 | a 100×200 image asked for (300, 150) comes back 75×150 as written and 150×300 with the branch corrected |
| PreImgProc.MaintainRateResizeIntended | improc/preImgProc.py:91-92 | the corrected resize has the same argument handling as the original |
| PreImgProc.IntendedResizeHitsTarget | improc/preImgProc.py:46-122 | with the wide no-padding branch corrected, every success on positive requested sides is exactly wantHeight by wantWidth |
| HistViewer.SetItem | dataTool/histViewer.py:30 | `d[k] = v`: k maps to v; other keys keep their values; a new key goes last in insertion order; the dict stays well formed |
| HistViewer.ListLengths | dataTool/histViewer.py:22-27 | `dataLenList` holds at most one length per key |
| HistViewer.ListLengthsOfLists | dataTool/histViewer.py:23-27 | a length is collected iff some list-valued entry has it |
| HistViewer.ListLengthsIgnoresNonList | dataTool/histViewer.py:24-27 | entries that are not lists add no length |
| HistViewer.NoListsNoLengths | dataTool/histViewer.py:24-27 | a dict without list values yields no lengths |
| HistViewer.CountAll | dataTool/histViewer.py:29 | `s.count(x)` is at most `len(s)`, and equal to it iff every element equals x |
| HistViewer.Annotate | dataTool/histViewer.py:22-30 | fails with IndexError iff the scan runs ("epCount" missing, or refresh) and finds no list value; a success is a well-formed dict, and one that differs from the input holds a number under "epCount" |
| HistViewer.AnnotateIntended | dataTool/histViewer.py:28-30 | the update with the length guard first: it never fails, stays well formed, keeps every key other than "epCount" with its value, and without refresh leaves a dict that has "epCount" unchanged |
| HistViewer.AnnotateOnlyWritesEpCount | dataTool/histViewer.py:22-30 | only "epCount" is written: every other key keeps its presence and value, and key order gains at most "epCount" at the end |
| HistViewer.AnnotateWritesCommonLength | dataTool/histViewer.py:22-30 | without "epCount" (or with refresh), if all list entries have length n and one exists, "epCount" becomes n |
| HistViewer.AnnotateDisagreementUnchanged | dataTool/histViewer.py:28-30 | two list entries of different lengths leave the dict unchanged |
| HistViewer.AnnotatePresentUnchanged | dataTool/histViewer.py:22 | an existing "epCount" without refresh leaves the dict unchanged |
| HistViewer.AnnotateNoListsFails | dataTool/histViewer.py:28-29 | with no list entries, `dataLenList[0]` raises IndexError before the length guard |
| HistViewer.WrittenLengths | dataTool/histViewer.py:30 | writing a non-list "epCount" where no list was leaves the collected lengths unchanged |
| HistViewer.RefreshRewritesSame | dataTool/histViewer.py:22-30 | with refresh, a second call after a write writes the same number again and changes nothing |
| HistViewer.WrittenEpCountStays | dataTool/histViewer.py:22-30 | without refresh, a second call after a write finds "epCount" and changes nothing |
| HistViewer.AnnotateIdempotent | dataTool/histViewer.py:22-30 | a second call with the same refresh changes nothing, unless "epCount" held a list |
| HistViewer.AnnotateIntendedTotal | dataTool/histViewer.py:28-29 | the guarded update never fails, agrees with the original wherever the original succeeds, and leaves a dict without lists unchanged |
| HistViewer.HistDict.constructor | dataTool/histViewer.py:14-17 | the object holds exactly the given contents |
| HistViewer.HistDict.SetItemInPlace | dataTool/histViewer.py:30 | in-place `d[k] = v` makes the contents `SetItem` of the old contents, and keeps it well formed |
| HistViewer.HistDict.CollectListLengths | dataTool/histViewer.py:23-27 | the loop collects the list lengths in key order |
| HistViewer.CheckEpochCount | dataTool/histViewer.py:6-31 | non-str/non-dict gives None; a path raises AttributeError (`None.keys()`); a dict is updated in place to `Annotate` of its old contents and returned, or keeps its contents when `Annotate` fails |

## Left out

- OpenCV pixel content: the rasterisation of `cv2.circle` and `cv2.rectangle`, `warpAffine`, `getRotationMatrix2D`, resize interpolation, border replication, and the gray weights and channel order of `cvtColor`. These are foreign library calls. What is modelled of them is the rows, columns and channel count of each result, the array shape the binding hands back for it (ArrayShape), and the assertions they fail.
- CircleClearOfCanvasEdge: assumes `cv2.circle` reaches at most `radius + thickness // 2` pixels from the centre. The rasteriser is not modelled.
- CreateRandomRotatedRect: the corner coordinates (`cos`/`sin` of the corner angle, rounded) and the rotated pixels are floating point and are not modelled; the result carries the circle and the two angles.
- OverDrawImg: the gray image is an input rather than `cvtColor(imgFrame)`, whose weights are OpenCV's. A frame whose channel count `cvtColor` rejects is therefore not modelled. The model also takes `thresholdRange` as two integers and both images as 3-channel, so two errors are not modelled: the ValueError (not a pair) or TypeError (not iterable) of unpacking `thresholdMin, thresholdMax = thresholdRange` (improc/figureTools.py:89), and the cv2.error of `cv2.add` when the background and foreground differ in channel count (improc/figureTools.py:96).
- GetRandomColor and the shape generators: randomness is a caller-supplied index. No claim about distributions is made.
- Resize: `dsize` is converted to C `int`, so a side above 2^31-1 (one `ResizeStep` can compute from a large request) makes the binding raise, while the model returns Ok. Channel counts OpenCV cannot hold in one image (none, or above its limit of 512) are not modelled either.
- ResizeOneLength: the interpolation flag chosen with `_getResizeFilter` is not recorded in the result. The call always receives a bool there, so it never fails.
- PadResize: states only that a success carries an image. When it succeeds is stated by PadResizeSucceeds, the result's shape by PadStepShape and ResizeHitsTarget.
- PadResize: a None from the one-length resize inside a padding branch would reach `copyMakeBorder`; it is mapped to cv2.error. The sizes passed there always have exactly one zero side, so that branch is not reached.
- MaintainRateResize: its own contract covers the argument handling. The branch results are stated by ResizeHitsTarget, WideNoPadMissesTarget and ZeroSideUsesOneLength, when the branches succeed by ResizeSucceeds, and which results come back 2-dimensional by RateResizeArrayShape.
- A numpy array whose shape entries are not natural numbers, and element types other than 8-bit, are not modelled.
- `noCropRotateImg` in improc/preImgProc.py is floating-point trigonometry and an OpenCV warp, and is not modelled.
- `getKeys` returns the dictionary's keys view and states nothing beyond `keyOrder`; it is not modelled separately.
- `checkImageFiles` (PIL loading and printing), the matplotlib part of `showImageFiles`, `getHistLossPlot`, `getHistAccPlot`, `_tmpGetFigPlot` and every `__main__` block are I/O or plotting, and are not modelled.
- CheckEpochCount: a path argument is not loaded; the source does not load it either, and fails at `.keys()`. JSON file reading is I/O.
- AnnotateIdempotent: holds only with the same refresh flag and when "epCount" did not hold a list. A list there is overwritten and drops out of the lengths, which can change a second result.
- ColorPixelManager.constructor: takes a three-dimensional `array3` of bytes. Three errors of other inputs are not modelled: the AssertionError of `assert isinstance(srcImg, np.ndarray)` (improc/imgProc.py:13), the ValueError of unpacking `shape[:2]` of a one-dimensional array (improc/imgProc.py:14), and the IndexError of `srcImg.shape[2]` on a two-dimensional image (improc/imgProc.py:19).
- GetPixelPosList: tuple and list elements are integers. Elements of other types are not modelled; `(1.0, 2.0, 3.0)` joins to "1.0,2.0,3.0", which is never a key.
- GetPixelPosList: returns the list as a value. The source returns the stored list object itself, so a caller that appends to it changes the index; that aliasing is not modelled.
- ColorPixelManager.ScanRow: a step of the constructor; it keeps the constructor's fold and leaves validity to the constructor, which proves it for the finished dictionary.
- ListLengths: its own contract only bounds the number of lengths. Which lengths are collected is stated by ListLengthsOfLists, NoListsNoLengths and ListLengthsIgnoresNonList.
- The `isRgb` argument of `ColorPixelManager` and `getPixelPosList` is unused by the source and is omitted.

## Findings

| source | as written | input that shows it | evidently intended | confidence | as-written member | corrected member |
|---|---|---|---|---|---|---|
| improc/preImgProc.py:91-92 | the wide-image branch that needs no padding calls `_getImgResizeOneLength(srcImg, (wantHeight, 0), isRgb)` | a 100×200 (rows×columns) image with `wantSize=(300, 150)`, `isRgb=False`: the result is 75×150, not 150×300 | `(wantWidth, 0)`, so that the result is the requested size, as in every other branch | not executed | PreImgProc.WideNoPadMissesTarget | PreImgProc.IntendedResizeHitsTarget |
| improc/imgProc.py:52 | `getPixelCount` calls `self.getPixelPos`, which the class does not define | any call, e.g. `getPixelCount((0, 0, 0))`, raises AttributeError | `len(self.getPixelPosList(color, isRgb))` | not executed | ImgProc.ColorPixelManager.GetPixelCount | ImgProc.ColorPixelManager.GetPixelCountIntended |
| dataTool/histViewer.py:28-29 | `epCount = dataLenList[0]` is read before the `len(dataLenList) > 0` guard | `checkEpochCount({"lr": 0.1})` raises IndexError | test the length first, and leave a dict without lists unchanged | not executed | HistViewer.AnnotateNoListsFails | HistViewer.AnnotateIntendedTotal |
