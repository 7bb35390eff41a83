/** The classifier of pixel_finder.py: every HSV pixel is scored by looking
    its three channel values up in the difference histograms, the scores are
    min-max rescaled to 0..255 and truncated to bytes, a 7x7 median filter
    smooths the map, a strict binary threshold turns it into a 0/255 mask,
    and an opening (2x2) followed by a closing (12x12) cleans the mask.  The
    viewer object keeps the index of the image on screen. */
module PixelFinding {
  import opened Grids
  import opened ColorAnalysis

  /** Side of the all-ones kernel of the opening. */
  const KernelOpen: int := 2
  /** Side of the all-ones kernel of the closing. */
  const KernelClose: int := 12
  /** Aperture of the median filter. */
  const MedianAperture: int := 7

  /** Why a relevance map cannot be computed. */
  datatype FindError =
    | ModelTooShort     // the unpickled tuple has fewer than three histograms
    | ValueOutOfRange   // a channel value indexes past the end of its histogram

  /** The three lookups of map_func are inside their histograms. */
  predicate Covers(m: ColorModel, p: Hsv)
  {
    0 <= p.h < |m.hue| && 0 <= p.s < |m.sat| && 0 <= p.v < |m.val|
  }

  predicate CoversImage(m: ColorModel, img: seq<seq<Hsv>>)
  {
    forall i, j | 0 <= i < |img| && 0 <= j < |img[i]| :: Covers(m, img[i][j])
  }

  /** map_func: the summed per-channel lookups for one pixel. */
  function Score(m: ColorModel, p: Hsv): real
    requires Covers(m, p)
  {
    m.hue[p.h] + m.sat[p.s] + m.val[p.v]
  }

  function RawScores(m: ColorModel, img: seq<seq<Hsv>>): (r: seq<seq<real>>)
    requires CoversImage(m, img)
    ensures SameShape(r, img)
    ensures forall i, j | 0 <= i < |img| && 0 <= j < |img[i]| :: r[i][j] == Score(m, img[i][j])
  {
    seq(|img|, i requires 0 <= i < |img| =>
      seq(|img[i]|, j requires 0 <= j < |img[i]| => Score(m, img[i][j])))
  }

  /** One cell of cv2.normalize with NORM_MINMAX onto [0, 255] followed by
      the uint8 cast (truncation, which is the floor on non-negative values).
      When the map is constant OpenCV's scale factor is 0 and every cell
      becomes the lower bound 0. */
  function Level(x: real, lo: real, hi: real): (r: int)
    requires lo <= x <= hi
    ensures 0 <= r <= 255
    ensures x == lo ==> r == 0
    ensures lo < hi && x == hi ==> r == 255
  {
    if lo < hi then
      StretchBounds(x, lo, hi);
      Stretch(x, lo, hi).Floor
    else 0
  }

  /** The factor NORM_MINMAX applies to stretch [lo, hi] onto [0, 255]. */
  function MinMaxScale(lo: real, hi: real): real
    requires lo < hi
  {
    255.0 / (hi - lo)
  }

  /** A score moved to [0, 255] before the cast. */
  function Stretch(x: real, lo: real, hi: real): real
    requires lo < hi
  {
    (x - lo) * MinMaxScale(lo, hi)
  }

  lemma MinMaxScaleSpan(lo: real, hi: real)
    requires lo < hi
    ensures MinMaxScale(lo, hi) > 0.0
    ensures (hi - lo) * MinMaxScale(lo, hi) == 255.0
  {
  }

  lemma StretchBounds(x: real, lo: real, hi: real)
    requires lo < hi && lo <= x <= hi
    ensures 0.0 <= Stretch(x, lo, hi) <= 255.0
    ensures x == lo ==> Stretch(x, lo, hi) == 0.0
    ensures x == hi ==> Stretch(x, lo, hi) == 255.0
  {
    var scale := MinMaxScale(lo, hi);
    MinMaxScaleSpan(lo, hi);
    if x == lo {
      assert x - lo == 0.0;
      assert (x - lo) * scale == 0.0;
    } else if x == hi {
      assert (x - lo) * scale == (hi - lo) * scale;
    } else {
      MulRealMonotone(0.0, x - lo, scale);
      MulRealMonotone(x - lo, hi - lo, scale);
    }
  }

  lemma StretchMonotone(x: real, y: real, lo: real, hi: real)
    requires lo < hi && x <= y
    ensures Stretch(x, lo, hi) <= Stretch(y, lo, hi)
  {
    MinMaxScaleSpan(lo, hi);
    MulRealMonotone(x - lo, y - lo, MinMaxScale(lo, hi));
  }

  lemma MulRealMonotone(a: real, b: real, c: real)
    requires a <= b && c >= 0.0
    ensures a * c <= b * c
  {
  }

  lemma FloorMonotone(a: real, b: real)
    requires a <= b
    ensures a.Floor <= b.Floor
  {
  }

  /** The rescaling never reverses the order of two scores. */
  lemma LevelMonotone(x: real, y: real, lo: real, hi: real)
    requires lo <= x <= y <= hi
    ensures Level(x, lo, hi) <= Level(y, lo, hi)
  {
    if lo < hi {
      StretchMonotone(x, y, lo, hi);
      FloorMonotone(Stretch(x, lo, hi), Stretch(y, lo, hi));
    }
  }

  /** Min-max rescaling of the raw score map followed by the byte cast. */
  function Rescale(raw: seq<seq<real>>): (r: seq<seq<int>>)
    requires NonEmptyGrid(raw)
    ensures SameShape(r, raw)
    ensures InByteRange(r)
  {
    var lo := GridMin(raw);
    var hi := GridMax(raw);
    seq(|raw|, i requires 0 <= i < |raw| =>
      seq(|raw[i]|, j requires 0 <= j < |raw[i]| => Level(raw[i][j], lo, hi)))
  }

  /** After rescaling, the order between any two cells is kept, the lowest
      score maps to 0, and the highest maps to 255 unless the map is
      constant, in which case everything is 0. */
  lemma RescaleProperties(raw: seq<seq<real>>, i: int, j: int, i2: int, j2: int)
    requires NonEmptyGrid(raw)
    requires 0 <= i < |raw| && 0 <= j < |raw[i]| && 0 <= i2 < |raw| && 0 <= j2 < |raw[i2]|
    ensures raw[i][j] <= raw[i2][j2] ==> Rescale(raw)[i][j] <= Rescale(raw)[i2][j2]
    ensures raw[i][j] == GridMin(raw) ==> Rescale(raw)[i][j] == 0
    ensures raw[i][j] == GridMax(raw) && GridMin(raw) < GridMax(raw) ==> Rescale(raw)[i][j] == 255
    ensures GridMin(raw) == GridMax(raw) ==> Rescale(raw)[i][j] == 0
  {
    if raw[i][j] <= raw[i2][j2] {
      LevelMonotone(raw[i][j], raw[i2][j2], GridMin(raw), GridMax(raw));
    }
  }

  /** The middle element of the sorted window: a value of the window with
      more than half of the values at most it and the remaining half (the
      upper middle, for an even count) at least it. */
  function Median(s: seq<int>): (r: int)
    requires |s| > 0
    ensures r in s
    ensures SeqMin(s) <= r <= SeqMax(s)
    ensures CountAtMost(s, r) >= |s| / 2 + 1
    ensures CountAtLeast(s, r) >= |s| - |s| / 2
  {
    MiddleOfSorted(s);
    Sort(s)[|s| / 2]
  }

  /** The middle of the sorted sequence is a value of s, with at least
      |s|/2 + 1 values at most it and |s| - |s|/2 values at least it. */
  lemma MiddleOfSorted(s: seq<int>)
    requires |s| > 0
    ensures |Sort(s)| == |s|
    ensures Sort(s)[|s| / 2] in s
    ensures CountAtMost(s, Sort(s)[|s| / 2]) >= |s| / 2 + 1
    ensures CountAtLeast(s, Sort(s)[|s| / 2]) >= |s| - |s| / 2
  {
    var t := Sort(s);
    SortedElements(s, |s| / 2);
    AscendingSplit(t, |s| / 2);
    CountAtMostPrefix(t, t[|s| / 2], |s| / 2 + 1);
    CountAtLeastSuffix(t, t[|s| / 2], |s| / 2);
    CountSort(s, t[|s| / 2]);
  }

  /** Sorting keeps the length, and each sorted value is a value of s. */
  lemma SortedElements(s: seq<int>, h: int)
    requires 0 <= h < |s|
    ensures |Sort(s)| == |s| && h < |Sort(s)| && Sort(s)[h] in s
  {
    var t := Sort(s);
    assert |t| == |multiset(t)| == |multiset(s)| == |s|;
    assert t[h] in multiset(t);
  }

  /** In an ascending sequence, values up to position h are at most t[h]
      and values from h on are at least t[h]. */
  lemma AscendingSplit(t: seq<int>, h: int)
    requires Ascending(t) && 0 <= h < |t|
    ensures forall n | 0 <= n < h + 1 :: t[n] <= t[h]
    ensures forall n | h <= n < |t| :: t[n] >= t[h]
  {
    forall n | 0 <= n < h + 1
      ensures t[n] <= t[h]
    {
      if n < h {
        assert t[n] <= t[h];
      }
    }
  }

  /** cv2.medianBlur with a k x k aperture and a replicated border. */
  function MedianBlur(g: seq<seq<int>>, k: int): (r: seq<seq<int>>)
    requires NonEmptyGrid(g) && k >= 1
    ensures SameShape(r, g) && NonEmptyGrid(r)
    ensures forall i, j | 0 <= i < |g| && 0 <= j < |g[i]| :: r[i][j] in Window(g, i, j, k)
    ensures forall i, j | 0 <= i < |g| && 0 <= j < |g[i]| ::
      && CountAtMost(Window(g, i, j, k), r[i][j]) >= k * k / 2 + 1
      && CountAtLeast(Window(g, i, j, k), r[i][j]) >= k * k - k * k / 2
  {
    seq(|g|, i requires 0 <= i < |g| =>
      seq(|g[i]|, j requires 0 <= j < |g[i]| => Median(Window(g, i, j, k))))
  }

  /** Each filtered value lies between the smallest and the largest value of
      its window, so a byte map stays a byte map. */
  lemma {:induction false} MedianBlurBounds(g: seq<seq<int>>, k: int, i: int, j: int)
    requires NonEmptyGrid(g) && k >= 1 && 0 <= i < |g| && 0 <= j < |g[i]|
    ensures SeqMin(Window(g, i, j, k)) <= MedianBlur(g, k)[i][j] <= SeqMax(Window(g, i, j, k))
    ensures InByteRange(g) ==> 0 <= MedianBlur(g, k)[i][j] <= 255
  {
    var w := Window(g, i, j, k);
    assert MedianBlur(g, k)[i][j] == Median(w);
    if InByteRange(g) {
      WindowInByteRange(g, i, j, k);
    }
  }

  lemma MedianBlurInByteRange(g: seq<seq<int>>, k: int)
    requires NonEmptyGrid(g) && k >= 1 && InByteRange(g)
    ensures InByteRange(MedianBlur(g, k))
  {
    forall i, j | 0 <= i < |g| && 0 <= j < |g[i]|
      ensures 0 <= MedianBlur(g, k)[i][j] <= 255
    {
      MedianBlurBounds(g, k, i, j);
    }
  }

  /** get_relevance_map: score, rescale, cast, median-filter.  A pixel whose
      channel value indexes past a histogram makes the lookup fail. */
  function RelevanceMap(m: ColorModel, img: seq<seq<Hsv>>): (r: Result<seq<seq<int>>, FindError>)
    requires NonEmptyGrid(img)
    ensures r.Ok? <==> CoversImage(m, img)
    ensures r.Ok? ==> SameShape(r.value, img) && NonEmptyGrid(r.value) && InByteRange(r.value)
  {
    if !CoversImage(m, img) then Err(ValueOutOfRange)
    else
      var levels := Rescale(RawScores(m, img));
      MedianBlurInByteRange(levels, MedianAperture);
      Ok(MedianBlur(levels, MedianAperture))
  }

  /** A well-shaped model covers every pixel of a genuine 8-bit HSV image. */
  lemma WellShapedModelCovers(m: ColorModel, img: seq<seq<Hsv>>)
    requires WellShaped(m)
    requires forall i, j | 0 <= i < |img| && 0 <= j < |img[i]| ::
      0 <= img[i][j].h < 180 && 0 <= img[i][j].s < 256 && 0 <= img[i][j].v < 256
    ensures CoversImage(m, img)
  {
  }

  /** An image whose pixels all score alike rescales to the all-zero map
      (NORM_MINMAX has nothing to stretch), so even threshold 0 selects no
      pixel at all: the most relevant pixels are not always kept. */
  lemma {:induction false} ConstantScoresSelectNothing(m: ColorModel, img: seq<seq<Hsv>>)
    requires NonEmptyGrid(img) && CoversImage(m, img)
    requires forall i, j | 0 <= i < |img| && 0 <= j < |img[i]| :: Score(m, img[i][j]) == Score(m, img[0][0])
    ensures RelevanceMap(m, img).Ok?
    ensures forall i, j | 0 <= i < |img| && 0 <= j < |img[i]| :: RelevanceMap(m, img).value[i][j] == 0
    ensures forall i, j | 0 <= i < |img| && 0 <= j < |img[i]| :: Threshold(RelevanceMap(m, img).value, 0.0)[i][j] == 0
  {
    var raw := RawScores(m, img);
    var levels := Rescale(raw);
    assert GridMin(raw) == GridMax(raw);
    forall i, j | 0 <= i < |levels| && 0 <= j < |levels[i]|
      ensures levels[i][j] == 0
    {
      RescaleProperties(raw, i, j, i, j);
    }
    var r := RelevanceMap(m, img).value;
    assert r == MedianBlur(levels, MedianAperture);
    forall i, j | 0 <= i < |img| && 0 <= j < |img[i]|
      ensures r[i][j] == 0
    {
      WindowOfConstant(levels, i, j, MedianAperture, 0);
      assert r[i][j] in Window(levels, i, j, MedianAperture);
    }
  }

  /** cv2.threshold with THRESH_BINARY and maximum 255. */
  function Threshold(g: seq<seq<int>>, t: real): (r: seq<seq<int>>)
    ensures SameShape(r, g) && IsBinary(r)
    ensures forall i, j | 0 <= i < |g| && 0 <= j < |g[i]| :: r[i][j] == 255 <==> g[i][j] as real > t
  {
    seq(|g|, i requires 0 <= i < |g| =>
      seq(|g[i]|, j requires 0 <= j < |g[i]| => if g[i][j] as real > t then 255 else 0))
  }

  /** Thresholding a 0/255 mask at any level in [0, 255) gives it back. */
  lemma ThresholdIdempotent(g: seq<seq<int>>, t: real)
    requires IsBinary(g) && 0.0 <= t < 255.0
    ensures Threshold(g, t) == g
  {
    var r := Threshold(g, t);
    forall i | 0 <= i < |g|
      ensures r[i] == g[i]
    {
    }
  }

  /** Erosion by an all-ones k x k kernel anchored at its centre: the
      smallest value of the window. */
  function Erode(g: seq<seq<int>>, k: int): (r: seq<seq<int>>)
    requires NonEmptyGrid(g) && k >= 1
    ensures SameShape(r, g) && NonEmptyGrid(r)
    ensures forall i, j | 0 <= i < |g| && 0 <= j < |g[i]| ::
      && r[i][j] in Window(g, i, j, k)
      && (forall n | 0 <= n < k * k :: r[i][j] <= Window(g, i, j, k)[n])
    ensures forall i, j | 0 <= i < |g| && 0 <= j < |g[i]| :: r[i][j] <= g[i][j]
  {
    seq(|g|, i requires 0 <= i < |g| =>
      seq(|g[i]|, j requires 0 <= j < |g[i]| => SeqMin(Window(g, i, j, k))))
  }

  /** Dilation by the same kernel: the largest value of the window. */
  function Dilate(g: seq<seq<int>>, k: int): (r: seq<seq<int>>)
    requires NonEmptyGrid(g) && k >= 1
    ensures SameShape(r, g) && NonEmptyGrid(r)
    ensures forall i, j | 0 <= i < |g| && 0 <= j < |g[i]| ::
      && r[i][j] in Window(g, i, j, k)
      && (forall n | 0 <= n < k * k :: Window(g, i, j, k)[n] <= r[i][j])
    ensures forall i, j | 0 <= i < |g| && 0 <= j < |g[i]| :: g[i][j] <= r[i][j]
  {
    seq(|g|, i requires 0 <= i < |g| =>
      seq(|g[i]|, j requires 0 <= j < |g[i]| => SeqMax(Window(g, i, j, k))))
  }

  /** On a 0/255 mask erosion keeps a pixel set exactly when its whole
      window is set, so the result is again a 0/255 mask. */
  lemma {:induction false} ErodeKeepsBinary(g: seq<seq<int>>, k: int)
    requires NonEmptyGrid(g) && k >= 1 && IsBinary(g)
    ensures IsBinary(Erode(g, k))
    ensures forall i, j | 0 <= i < |g| && 0 <= j < |g[i]| ::
      Erode(g, k)[i][j] == 255 <==> forall n | 0 <= n < k * k :: Window(g, i, j, k)[n] == 255
  {
    forall i, j | 0 <= i < |g| && 0 <= j < |g[i]|
      ensures Erode(g, k)[i][j] == 0 || Erode(g, k)[i][j] == 255
      ensures Erode(g, k)[i][j] == 255 <==> forall n | 0 <= n < k * k :: Window(g, i, j, k)[n] == 255
    {
      WindowOfBinary(g, i, j, k);
      assert Erode(g, k)[i][j] == SeqMin(Window(g, i, j, k));
    }
  }

  /** On a 0/255 mask dilation sets a pixel exactly when some pixel of its
      window is set, so the result is again a 0/255 mask. */
  lemma {:induction false} DilateKeepsBinary(g: seq<seq<int>>, k: int)
    requires NonEmptyGrid(g) && k >= 1 && IsBinary(g)
    ensures IsBinary(Dilate(g, k))
    ensures forall i, j | 0 <= i < |g| && 0 <= j < |g[i]| ::
      Dilate(g, k)[i][j] == 255 <==> exists n | 0 <= n < k * k :: Window(g, i, j, k)[n] == 255
  {
    forall i, j | 0 <= i < |g| && 0 <= j < |g[i]|
      ensures Dilate(g, k)[i][j] == 0 || Dilate(g, k)[i][j] == 255
      ensures Dilate(g, k)[i][j] == 255 <==> exists n | 0 <= n < k * k :: Window(g, i, j, k)[n] == 255
    {
      WindowOfBinary(g, i, j, k);
      assert Dilate(g, k)[i][j] == SeqMax(Window(g, i, j, k));
    }
  }

  /** MORPH_OPEN: erosion, then dilation. */
  function Opening(g: seq<seq<int>>, k: int): (r: seq<seq<int>>)
    requires NonEmptyGrid(g) && k >= 1
    ensures SameShape(r, g) && NonEmptyGrid(r)
  {
    Dilate(Erode(g, k), k)
  }

  /** MORPH_CLOSE: dilation, then erosion. */
  function Closing(g: seq<seq<int>>, k: int): (r: seq<seq<int>>)
    requires NonEmptyGrid(g) && k >= 1
    ensures SameShape(r, g) && NonEmptyGrid(r)
  {
    Erode(Dilate(g, k), k)
  }

  /** clean_mask: opening with the 2x2 kernel, then closing with the 12x12
      one; a 0/255 mask stays a 0/255 mask of the same size. */
  function CleanMask(g: seq<seq<int>>): (r: seq<seq<int>>)
    requires NonEmptyGrid(g)
    ensures SameShape(r, g) && NonEmptyGrid(r)
    ensures IsBinary(g) ==> IsBinary(r)
  {
    var afterOpen := Opening(g, KernelOpen);
    if IsBinary(g) then
      ErodeKeepsBinary(g, KernelOpen);
      DilateKeepsBinary(Erode(g, KernelOpen), KernelOpen);
      DilateKeepsBinary(afterOpen, KernelClose);
      ErodeKeepsBinary(Dilate(afterOpen, KernelClose), KernelClose);
      Closing(afterOpen, KernelClose)
    else
      Closing(afterOpen, KernelClose)
  }

  /** process_image: load the model, map, threshold, clean. */
  function ProcessImage(stored: seq<seq<real>>, img: seq<seq<Hsv>>, t: real): (r: Result<seq<seq<int>>, FindError>)
    requires NonEmptyGrid(img)
    ensures r.Ok? <==> Load(stored).Some? && CoversImage(Load(stored).value, img)
    ensures r.Ok? ==> SameShape(r.value, img) && IsBinary(r.value)
  {
    match Load(stored)
    case None => Err(ModelTooShort)
    case Some(m) =>
      match RelevanceMap(m, img)
      case Err(e) => Err(e)
      case Ok(relevance) => Ok(CleanMask(Threshold(relevance, t)))
  }

  // ---------------------------------------------------------------------
  // The viewer's navigation state

  /** What handle_keycode reports: whether the key was one of the
      navigation keys, or that the program exits. */
  datatype KeyResult = Handled(valid: bool) | Quit

  class PixelFinder {
    const threshold: real
    var imageNames: seq<string>
    var currentImgIndex: int
    var currentFilename: Option<string>

    /** Once an image is on screen, the index is in range and names it. */
    ghost predicate Valid()
      reads this
    {
      0 <= currentImgIndex < |imageNames| && currentFilename == Some(imageNames[currentImgIndex])
    }

    constructor (threshold: real)
      ensures this.threshold == threshold
      ensures imageNames == [] && currentImgIndex == 0 && currentFilename == None
    {
      this.threshold := threshold;
      imageNames := [];
      currentImgIndex := 0;
      currentFilename := None;
    }

    /** get_image_names, given the directory listing already sorted. */
    method GetImageNames(sortedNames: seq<string>)
      modifies this
      ensures imageNames == sortedNames
      ensures currentImgIndex == old(currentImgIndex) && currentFilename == old(currentFilename)
    {
      imageNames := sortedNames;
    }

    /** The first statement of show_images; it fails on an empty directory. */
    method ShowFirst() returns (ok: bool)
      requires currentImgIndex == 0
      modifies this
      ensures ok == (|imageNames| > 0)
      ensures ok ==> Valid()
      ensures imageNames == old(imageNames) && currentImgIndex == old(currentImgIndex)
      ensures !ok ==> currentFilename == old(currentFilename)
    {
      if |imageNames| == 0 {
        return false;
      }
      currentFilename := Some(imageNames[currentImgIndex]);
      ok := true;
    }

    /** handle_keycode: 'j' steps forward and 'k' back, each only while
        there is an image in that direction; 'q' quits; any other key is
        reported as not valid and changes nothing. */
    method HandleKeycode(key: int) returns (r: KeyResult)
      requires Valid()
      modifies this
      ensures Valid()
      ensures imageNames == old(imageNames)
      ensures key == 'j' as int ==>
        && r == Handled(true)
        && currentImgIndex == (if old(currentImgIndex) < |imageNames| - 1 then old(currentImgIndex) + 1 else old(currentImgIndex))
      ensures key == 'k' as int ==>
        && r == Handled(true)
        && currentImgIndex == (if old(currentImgIndex) > 0 then old(currentImgIndex) - 1 else old(currentImgIndex))
      ensures key == 'q' as int ==> r == Quit && currentImgIndex == old(currentImgIndex)
      ensures key !in {'j' as int, 'k' as int, 'q' as int} ==> r == Handled(false) && currentImgIndex == old(currentImgIndex)
    {
      if key == 'j' as int {
        if currentImgIndex < |imageNames| - 1 {
          currentImgIndex := currentImgIndex + 1;
          currentFilename := Some(imageNames[currentImgIndex]);
        }
        return Handled(true);
      } else if key == 'k' as int {
        if currentImgIndex > 0 {
          currentImgIndex := currentImgIndex - 1;
          currentFilename := Some(imageNames[currentImgIndex]);
        }
        return Handled(true);
      } else if key == 'q' as int {
        return Quit;
      }
      return Handled(false);
    }
  }
}
