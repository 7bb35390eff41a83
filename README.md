# Buoy colour detection tools, modelled in Dafny

This project models the four core tools of a buoy-detection toolkit. It
proves properties of each model.

- **Training-set sorter** (`data_sorter.py`). It walks every source
  directory of a base path and shows each image. A `y` answer copies the
  image into `BUOY_PRESENT/`, an `n` answer into `BUOY_NOT_PRESENT/`, both
  under the name `<directory>_<image>`. A `q` ends the session.
- **Annotation tool** (`image_truther.py`). The operator marks the buoy in
  each image with a circle. Dragging with the mouse sets it, `h/j/k/l` move
  it, `n/m` shrink or grow it, space saves it as a mask, and `q` quits while
  remembering the current image so that a later run resumes there.
- **Colour-model builder** (`color_analyzer.py`). It accumulates hue,
  saturation and value histograms over all training images. One set counts
  the pixels the mask selects (buoy); the other counts the pixels the
  inverted mask selects (other). It normalises each histogram and persists
  the three buoy-minus-other difference histograms.
- **Pixel finder** (`pixel_finder.py`). It scores every pixel by looking up
  its channel values in the difference histograms. It min-max rescales the
  scores to bytes, median-filters them with a 7x7 aperture, thresholds the
  result strictly, and cleans the mask with a 2x2 opening followed by a
  12x12 closing. A viewer object steps through the images with `j` and `k`.

Files and modules:

| file | module | contents |
|---|---|---|
| `grids.dfy` | `Grids` | `Option`/`Result`, grid shape predicates, minima and maxima, insertion sort, the clamped k x k window |
| `color_analyzer.dfy` | `ColorAnalysis` | counts, histograms, the `ColorAnalyzer` class with its six histogram fields, the difference model and its persisted form |
| `pixel_finder.dfy` | `PixelFinding` | scores, min-max levels, median filter, threshold, erosion/dilation/opening/closing, the full pipeline, the `PixelFinder` navigation class |
| `image_truther.dfy` | `Truthing` | the `ImageTruther` class (keys, mouse, per-image reset), the integer square root, close-up bounds, the resume slice |
| `data_sorter.dfy` | `Sorting` | the `DataSorter` class (key handler, wait for an answer, the directory walk), the source-directory filter, destination routing and the walk's specification `Plan` |

The stateful parts are classes whose methods are proved against
specification functions:

- `ColorAnalyzer.CalculateHistograms` against `RawHist`.
- `DataSorter.IterateThroughDirectories` against `Plan`.

Properties such as order independence of the model and soundness and
completeness of the copies are lemmas about those functions.

Inputs the program reads from disk or from the user are parameters:

- images as HSV grids;
- masks as grey grids;
- directory listings as sequences;
- key presses as a sequence of keys per shown image;
- the save file's content as an optional name.

### Behaviour of the code that the model keeps

- **Threshold.** `cv2.threshold` with `THRESH_BINARY`
  (pixel_finder.py:128) sets a pixel only when its relevance is strictly
  greater than the threshold. `Threshold` is strict, so a relevance equal
  to the threshold is not kept.
- **Constant score map.** When every pixel scores alike, the min-max
  rescale (pixel_finder.py:157-158) maps the whole map to 0. Even
  threshold 0 then keeps no pixel (`ConstantScoresSelectNothing`).
- **Build errors.** The source has no error values. With no training
  image, the six histograms stay `None` (color_analyzer.py:16-18, 83-110).
  The build then fails at the latest at the buoy-minus-other subtraction
  `None - None` (color_analyzer.py:156 in `show_histograms`, :187 in
  `create_differences_file`). A mask of the wrong size makes `cv2.calcHist`
  (color_analyzer.py:98-110) fail. The model returns these as the
  `BuildError` values `NoTrainingData` and `DimensionMismatch`; it reports
  the empty training set when normalisation finds no histogram, earlier
  than the code fails.
- **Lookup failures.** A stored tuple with fewer than three histograms
  fails at the index lookup (pixel_finder.py:150-152, `ModelTooShort`). A
  channel value beyond a histogram's end fails in `map_func`
  (pixel_finder.py:149-154, `ValueOutOfRange`).

## Model

| member | source | states |
|---|---|---|
| `ColorAnalysis.ColorAnalyzer.constructor` | color_analyzer.py:16-18 | the six histograms start out absent (`created` false) |
| `ColorAnalysis.ColorAnalyzer.Start` | color_analyzer.py:98-110 | a calcHist call with accumulate=True starts from the current histogram, or from zeros of the channel's bucket count while it is still None |
| `ColorAnalysis.ColorAnalyzer.AccumulatePair` | color_analyzer.py:86-110 | for a same-sized image and mask, each of the six histograms gains the image's histogram bucket by bucket; a mismatched mask fails and changes nothing |
| `ColorAnalysis.ColorAnalyzer.NormalizeHistograms` | color_analyzer.py:116-128 | each of the six histograms is rescaled in place by its own factor; with no histogram yet (the fields still None) it reports that and changes nothing |
| `ColorAnalysis.ColorAnalyzer.CalculateHistograms` | color_analyzer.py:83-114 | no images gives `NoTrainingData`; a mismatched pair gives `DimensionMismatch`, and those are the only failures; on success each histogram is the rescaled accumulation `RawHist` of the whole training list, and the dumped difference triple is `BuiltModel` of the list, so `ModelOrderIndependent` applies to the object |
| `ColorAnalysis.ColorAnalyzer.Differences` | color_analyzer.py:185-190 | the dumped triple has 180/256/256 buckets, and a bucket is positive exactly when the buoy histogram exceeds the other histogram there |
| `ColorAnalysis.Difference` | color_analyzer.py:187-189 | the difference plus the other histogram gives back the buoy histogram; positive iff the buoy value is larger, negative iff it is smaller |
| `ColorAnalysis.BuiltModel` | color_analyzer.py:83-128 | the model built from any matching training list has 180 hue, 256 saturation and 256 value buckets |
| `ColorAnalysis.Persist` | color_analyzer.py:185-190 | the dumped tuple has three entries and loading it gives back exactly the model (round trip with `Load`) |
| `ColorAnalysis.Load` | pixel_finder.py:150-152 | the reader obtains a model iff the tuple has at least three entries, taking hue, saturation and value from positions 0, 1, 2 |
| `ColorAnalysis.PixelRouting` | color_analyzer.py:91-110 | a pixel is counted as buoy iff its mask level is non-zero and as other iff the level is not 255; a 0/255 mask sends it to exactly one side, an intermediate level to both |
| `ColorAnalysis.RowPartition` | color_analyzer.py:98-110 | with a 0/255 mask row, buoy and other counts of a bucket add up to the row's count of that bucket |
| `ColorAnalysis.ImagePartition` | color_analyzer.py:98-110 | with a 0/255 mask, buoy and other counts of every bucket add up to the whole image's count of that bucket |
| `ColorAnalysis.TotalAppend` | color_analyzer.py:83-110 | accumulating over two lists one after the other gives the sum of the two accumulations |
| `ColorAnalysis.AccumulationGrows` | color_analyzer.py:93-110 | further images never decrease an accumulated bucket |
| `ColorAnalysis.TotalRemove` | color_analyzer.py:83-110 | dropping one image from the list removes exactly that image's count |
| `ColorAnalysis.TotalPermutation` | color_analyzer.py:83-110 | the accumulated count of every bucket is the same for any ordering of the training images |
| `ColorAnalysis.ModelOrderIndependent` | color_analyzer.py:83-128 | the built colour model is the same for any permutation of the training list |
| `ColorAnalysis.ScalingKeepsSignAndOrder` | color_analyzer.py:116-128 | rescaling by a positive factor keeps each bucket's sign and the order between any two buckets |
| `ColorAnalysis.RawHistSnoc` | color_analyzer.py:98-110 | one more image adds its per-image histogram to the accumulation, bucket by bucket |
| `PixelFinding.RawScores` | pixel_finder.py:149-156 | the score map has the image's shape and each cell is the sum of the hue, saturation and value lookups of its pixel |
| `PixelFinding.Level` | pixel_finder.py:157-158 | each rescaled, truncated level is a byte; the minimum maps to 0, the maximum to 255 when min < max |
| `PixelFinding.LevelMonotone` | pixel_finder.py:157-158 | the min-max rescale and truncation never reverse the order of two scores |
| `PixelFinding.Rescale` | pixel_finder.py:157-158 | the rescaled map keeps the shape and holds only byte values |
| `PixelFinding.RescaleProperties` | pixel_finder.py:157-158 | order between cells is kept, the lowest score maps to 0, the highest to 255 unless the map is constant, and a constant map becomes all 0 |
| `PixelFinding.Median` | pixel_finder.py:160 | the median is one of the window's values; at least half of the values plus one are at most it and the remaining half at least it (the middle order statistic) |
| `PixelFinding.MedianBlur` | pixel_finder.py:160 | the filtered map keeps the shape, and every value is a value of the pixel's own 7x7 window with at least k*k/2 + 1 window values at most it and k*k - k*k/2 at least it |
| `PixelFinding.MedianBlurBounds` | pixel_finder.py:160 | each filtered value lies between its window's minimum and maximum, hence within 0..255 for a byte map |
| `PixelFinding.MedianBlurInByteRange` | pixel_finder.py:160 | a byte map stays a byte map under the median filter |
| `PixelFinding.RelevanceMap` | pixel_finder.py:147-162 | the map exists iff every pixel's lookups are inside the histograms; it then has the image's shape and byte values |
| `PixelFinding.WellShapedModelCovers` | pixel_finder.py:149-154 | a 180/256/256 model covers every pixel of an 8-bit HSV image, so the lookups cannot fail |
| `PixelFinding.ConstantScoresSelectNothing` | pixel_finder.py:156-160 | when every pixel scores alike, the relevance map is all 0 and thresholding at 0 selects no pixel |
| `PixelFinding.Threshold` | pixel_finder.py:128 | the mask has the map's shape, holds only 0 and 255, and a cell is 255 iff its value is strictly above the threshold |
| `PixelFinding.ThresholdIdempotent` | pixel_finder.py:128 | re-thresholding a 0/255 mask at any threshold in [0, 255) gives the same mask |
| `PixelFinding.Erode` | pixel_finder.py:143-144 | erosion keeps the shape; each pixel becomes the minimum of its window: a window value no larger than any other, hence never above the pixel |
| `PixelFinding.Dilate` | pixel_finder.py:143-144 | dilation keeps the shape; each pixel becomes the maximum of its window: a window value no smaller than any other, hence never below the pixel |
| `PixelFinding.ErodeKeepsBinary` | pixel_finder.py:143-144 | erosion of a 0/255 mask is a 0/255 mask in which a pixel is set iff every pixel of its window is set |
| `PixelFinding.DilateKeepsBinary` | pixel_finder.py:143-144 | dilation of a 0/255 mask is a 0/255 mask in which a pixel is set iff some pixel of its window is set |
| `PixelFinding.Opening` | pixel_finder.py:143 | the opening (erosion, then dilation) keeps the shape |
| `PixelFinding.Closing` | pixel_finder.py:144 | the closing (dilation, then erosion) keeps the shape |
| `PixelFinding.CleanMask` | pixel_finder.py:137-145 | opening with the 2x2 kernel, then closing with the 12x12 kernel, keeps the shape and maps a 0/255 mask to a 0/255 mask |
| `PixelFinding.ProcessImage` | pixel_finder.py:114-129 | a mask is produced iff the stored tuple loads and covers the image; it then has the image's shape and holds only 0 and 255 |
| `PixelFinding.PixelFinder.constructor` | pixel_finder.py:28-33 | no names, index 0, no current file, the given threshold |
| `PixelFinding.PixelFinder.GetImageNames` | pixel_finder.py:63-67 | the name list becomes the sorted listing; index and current file are untouched |
| `PixelFinding.PixelFinder.ShowFirst` | pixel_finder.py:75 | succeeds iff there is an image, and then the index is in range and names the current file |
| `PixelFinding.PixelFinder.HandleKeycode` | pixel_finder.py:87-112 | 'j' advances only below the last index, 'k' goes back only above 0, both report a valid key; 'q' quits; any other key is not valid and changes nothing; the index stays in range and always names the current file |
| `Truthing.IntSqrt` | image_truther.py:176 | the truncated square root: r*r <= n < (r+1)*(r+1) |
| `Truthing.ImageTruther.constructor` | image_truther.py:39-43 | no centre, radius 0, not dragging, cursor at (0, 0), the given close-up radius |
| `Truthing.ImageTruther.ResetForImage` | image_truther.py:140-142 | before each image the centre is cleared, the radius is 0 and dragging stops; the cursor is kept |
| `Truthing.ImageTruther.MouseCallback` | image_truther.py:160-176 | button-down sets the centre, radius 0 and dragging; button-up stops dragging; a move always records the cursor and, only while dragging, sets the radius to the truncated distance to the centre; other events change nothing |
| `Truthing.ImageTruther.HandleKeycode` | image_truther.py:205-230 | only space reports True, saving "mask.<image>" with the current circle; q saves the image name and quits; h/l move the centre x by -1/+1, j/k move y by +1/-1; m grows the radius by 1, n shrinks it to max(0, r-1); the radius never goes negative |
| `Truthing.ImageTruther.Closeup` | image_truther.py:193-198 | the close-up around the current cursor (with the corrected slice ends, see Findings) shows only pixels of the image, and shows the cursor whenever it is inside the image and the radius is positive |
| `Truthing.CloseupBounds` | image_truther.py:194-197 | as written: the start ends are at least 0, the slice ends at most the last column and row, and x2 - x1 and y2 - y1 are at most twice the close-up radius |
| `Truthing.SliceIndex` | image_truther.py:198 | Python's reading of a slice end: a negative end counts from the right, and the result lies in [0, n] |
| `Truthing.CloseupWrapsNegativeEnd` | image_truther.py:194-198 | as written, a cursor more than the radius left of the image gives a negative x2, and the close-up then copies every column before width + x2 rather than an empty range |
| `Truthing.CloseupContainsCursor` | image_truther.py:194-198 | as written, with a positive radius and the cursor off the last column and row, the half-open slice shows the cursor; away from the edges the range is the full radius on both sides |
| `Truthing.CloseupMissesLastColumnAndRow` | image_truther.py:194-198 | as written, a cursor in the last column or last row is never shown in its own close-up |
| `Truthing.IntendedCloseupBounds` | image_truther.py:194-198 | with slice ends clamped to width and height, the start ends are at least 0, the slice ends at most width and height, and x2 - x1 and y2 - y1 are at most twice the radius |
| `Truthing.IntendedCloseupContainsCursor` | image_truther.py:194-198 | the corrected close-up shows only pixels of the image, and shows the cursor wherever it is in the image when the radius is positive |
| `Truthing.IndexOf` | image_truther.py:58 | list.index finds the first occurrence |
| `Truthing.Resume` | image_truther.py:53-59 | without a saved name all images are processed; with one, the result exists iff the name is listed and is the suffix starting at its first occurrence |
| `Truthing.QuitThenResume` | image_truther.py:57-59 | with distinct names, resuming from the image that was quit on continues with exactly that image and the ones after it |
| `Sorting.FirstFour` | data_sorter.py:86 | Python's name[:4]: a prefix of the name of length min(4, len) |
| `Sorting.SourceDirectories` | data_sorter.py:85-86 | a name is walked iff it is a directory entry whose name does not start with BUOY; never more names than entries |
| `Sorting.Destination` | data_sorter.py:104-108 | 'y' routes to BUOY_PRESENT/<dir>_<image>, 'n' to BUOY_NOT_PRESENT/<dir>_<image>, anything else copies nothing |
| `Sorting.DestinationOutsideSources` | data_sorter.py:104-108 | every destination lies in a BUOY-prefixed folder under the base path, which the source filter skips |
| `Sorting.DecisionsSeparate` | data_sorter.py:105-108 | a y copy and an n copy never share a destination |
| `Sorting.DestinationInjective` | data_sorter.py:105-108 | with underscore-free directory names, different images never get the same destination |
| `Sorting.KeyDecision` | data_sorter.py:63-73 | a key quits iff it is q; y and n give a decision for exactly that answer |
| `Sorting.Decide` | data_sorter.py:63-73 | an answer is always y or n, and there is no decision iff none of the pressed keys is q, y or n |
| `Sorting.DecideFirstKey` | data_sorter.py:63-73 | the decision is that of the first q, y or n pressed |
| `Sorting.CopiesFor` | data_sorter.py:104-108 | an image yields at most one copy |
| `Sorting.Plan` | data_sorter.py:89-108 | never more copies than images, and the session is quit iff some image is answered with q |
| `Sorting.PlanSound` | data_sorter.py:89-108 | every copy is of an image answered y or n, from its source path to the folder of that answer |
| `Sorting.PlanComplete` | data_sorter.py:89-108 | unless the session was quit, every image answered y or n has been copied to the folder of its answer |
| `Sorting.PlanAppend` | data_sorter.py:89-108 | showing two lists of images in turn is showing the first and, unless it was quit, then the second |
| `Sorting.DirJobs` | data_sorter.py:90-91 | a directory's images are shown in listing order |
| `Sorting.Jobs` | data_sorter.py:89-91 | an image is shown iff it is listed in a walked directory: every shown image is listed in its directory, and every listed image of every walked directory is shown |
| `Sorting.DataSorter.constructor` | data_sorter.py:28-30 | the base path is stored and no decision is recorded |
| `Sorting.DataSorter.PressHandler` | data_sorter.py:63-73 | q quits; y and n record that answer and close the figure; any other key leaves the decision unchanged |
| `Sorting.DataSorter.ShowAndWait` | data_sorter.py:94-102 | the figure stays until the first q, y or n; the recorded decision is that key's answer, and unchanged if none was pressed |
| `Sorting.DataSorter.SortDirectory` | data_sorter.py:91-108 | walking one directory's images (resetting the decision before each) gives exactly the copies and quit flag `Plan` specifies |
| `Sorting.DataSorter.IterateThroughDirectories` | data_sorter.py:75-108 | walking all source directories gives exactly the copies and quit flag `Plan` specifies for their images in order |

## Findings

| source | as written | input that shows it | evidently intended | confidence | as-written member | corrected member |
|---|---|---|---|---|---|---|
| image_truther.py:194-198 | the slice ends of `img[y1:y2, x1:x2]` are clamped to `img_width - 1` and `img_height - 1`; a slice excludes its end, so the last column and row are never copied | a cursor at x = width - 1 (any radius): x2 = width - 1, so the cursor's column is not in the close-up | clamp the slice ends to `img_width` and `img_height` | medium, not executed | `Truthing.CloseupMissesLastColumnAndRow` (about `Truthing.CloseupBounds`) | `Truthing.IntendedCloseupContainsCursor` (about `Truthing.IntendedCloseupBounds`, used by `Truthing.ImageTruther.Closeup`) |

## Left out

- **GUI.** Windows, drawing, plots, text overlays and the close-up's
  crosshair are display only. Key presses and mouse events become method
  arguments.
- **Filesystem and prompts.** The directory checks, `mkdir`, `input()`
  prompts and `sys.exit` are not modelled. Reading images and masks,
  pickling and `shutil.copyfile` are not modelled either.
  - A copy is recorded as a `Copy(source, destination)` value.
  - An exit is the `Quit`, `SaveAndQuit` or `quit` outcome.
  - The save file is the image name in `SaveAndQuit` and the optional name
    passed to `Resume`.
- **Order of directory listings.** `sorted` listings are taken as given, and
  the order of `os.listdir` is a parameter.
- **Colour conversion.** BGR to HSV and the mask's conversion to grey are
  not modelled. Images arrive as HSV grids and masks as grey grids.
- **calcHist binning.** Bucket placement is a parameter of type `Binning`.
  With the ranges `[0, 179]` and `[0, 255]` as written, calcHist's upper
  bound is exclusive, so hue 179 and saturation/value 255 fall in no bucket.
  The parameter can express that binning, but the model does not fix it.
- `ColorAnalysis.ColorAnalyzer.CalculateHistograms`: with no training image
  the code fails only later, when `None - None` is computed
  (color_analyzer.py:156, 187); the model moves that failure to the end of
  the build and reports it as `NoTrainingData`.
- `ColorAnalysis.ColorAnalyzer.NormalizeHistograms`: `cv2.normalize`'s
  default L2 norm is modelled only as a factor chosen per histogram (the
  `scale` parameter). Order and sign facts are proved for positive factors.
- **Floating point.** Histograms and scores are exact reals rather than
  float32. The `uint8` cast is the floor of the exact rescaled value.
- **Morphology and median borders.**
  - Windows are anchored at `k/2`, as OpenCV anchors its default kernels,
    including the even 2x2 and 12x12 ones.
  - Coordinates that fall off the image are clamped to its edge. That is
    OpenCV's replicated border for the median. For erosion and dilation it
    gives the same extremum as OpenCV's default border, because the window
    always contains the pixel itself.
  - Bit-for-bit agreement with OpenCV is not claimed.
- **Mask saving.** `cv2.circle` rasterisation in `save_img_mask` is not
  modelled; `SaveMask` carries the mask name, the centre and the radius.
- `Truthing.ImageTruther.HandleKeycode`: space and h/j/k/l require a centre.
  With no centre the source raises a TypeError, which the model does not
  represent.
- `Truthing.IntendedCloseupBounds`: the correction only moves the upper
  clamps. A cursor more than the radius left of or above the image still
  gives a negative slice end that wraps, as in the code. Whether the mouse
  callback reports such a position depends on the window backend.
- `Truthing.IntSqrt`: `int(math.sqrt(...))` goes through a double. The model
  is the exact integer square root, which agrees for image-sized distances.
- `PixelFinding.PixelFinder.HandleKeycode`: `cv2.waitKey` codes are plain
  integers. The outer display loop of `show_images` is not modelled.
- `ColorAnalysis.ColorAnalyzer.CalculateHistograms`: after a
  `DimensionMismatch` the fields hold the counts of the earlier pairs. In
  the source, a crash discards them, and the model says nothing about them.
- **Matplotlib exit.** `sys.exit` inside a matplotlib key callback is taken
  to end the program, so a `q` stops the walk in `Plan`.
- **Unused and commented-out code.** `HSV_LOW`/`HSV_HIGH` and the
  commented-out contour drawing are not modelled.
- **Entry scripts.** They only parse arguments and wire objects together.
