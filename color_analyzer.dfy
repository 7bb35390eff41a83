/** The histogram model builder of color_analyzer.py: per-channel count
    histograms of the pixels a grey mask selects (buoy) and of the pixels
    its bitwise NOT selects (other), accumulated over every training image,
    rescaled one by one, and turned into three difference histograms (hue,
    saturation, value) that form the persisted colour model. */
module ColorAnalysis {
  import opened Grids

  /** One pixel in OpenCV's 8-bit HSV encoding (hue 0..179, saturation
      and value 0..255). */
  datatype Hsv = Hsv(h: int, s: int, v: int)

  datatype Channel = Hue | Sat | Val

  /** Which half of the image a histogram counts: the pixels where the
      mask is non-zero, or those where its inversion is non-zero. */
  datatype Side = Buoy | Other

  /** An HSV training image with its grey mask (same size when well formed). */
  datatype TrainingPair = TrainingPair(image: seq<seq<Hsv>>, mask: seq<seq<int>>)

  /** Why building the histograms stops. */
  datatype BuildError = NoTrainingData | DimensionMismatch

  /** Maps a channel and a raw channel value to a bucket index.  It stands
      for calcHist's uniform binning over [0, 179] / [0, 255]; a value whose
      index falls outside 0 .. Buckets(c)-1 is not counted. */
  type Binning = (Channel, int) -> int

  /** Number of buckets per channel: 180 for hue, 256 for saturation and value. */
  function Buckets(c: Channel): nat
  {
    match c
    case Hue => 180
    case Sat => 256
    case Val => 256
  }

  function ChannelValue(p: Hsv, c: Channel): int
  {
    match c
    case Hue => p.h
    case Sat => p.s
    case Val => p.v
  }

  /** bitwise_not of an 8-bit grey level. */
  function Inverted(m: int): int
  {
    255 - m
  }

  /** calcHist counts a pixel when its mask entry is non-zero; the other
      side uses the inverted mask. */
  predicate Selects(side: Side, m: int)
  {
    match side
    case Buoy => m != 0
    case Other => Inverted(m) != 0
  }

  /** Image and mask have the same size (calcHist rejects any other mask). */
  predicate Matching(p: TrainingPair)
  {
    SameShape(p.image, p.mask)
  }

  predicate AllMatching(pairs: seq<TrainingPair>)
  {
    forall n | 0 <= n < |pairs| :: Matching(pairs[n])
  }

  /** Does this pixel add one to bucket k of the (c, side) histogram? */
  predicate Hit(p: Hsv, m: int, c: Channel, side: Side, bin: Binning, k: int)
  {
    Selects(side, m) && bin(c, ChannelValue(p, c)) == k
  }

  function RowCount(row: seq<Hsv>, mrow: seq<int>, c: Channel, side: Side, bin: Binning, k: int): nat
    requires |row| == |mrow|
  {
    if row == [] then 0
    else (if Hit(row[0], mrow[0], c, side, bin, k) then 1 else 0)
         + RowCount(row[1..], mrow[1..], c, side, bin, k)
  }

  /** Count of one bucket over one image. */
  function ImageCount(p: TrainingPair, c: Channel, side: Side, bin: Binning, k: int): nat
    requires Matching(p)
    decreases |p.image|
  {
    if p.image == [] then 0
    else RowCount(p.image[0], p.mask[0], c, side, bin, k)
         + ImageCount(TrainingPair(p.image[1..], p.mask[1..]), c, side, bin, k)
  }

  /** Count of one bucket summed over all training pairs, in list order. */
  function TotalCount(pairs: seq<TrainingPair>, c: Channel, side: Side, bin: Binning, k: int): nat
    requires AllMatching(pairs)
  {
    if pairs == [] then 0
    else TotalCount(pairs[..|pairs| - 1], c, side, bin, k)
         + ImageCount(pairs[|pairs| - 1], c, side, bin, k)
  }

  /** The histogram calcHist produces for one image (counts as floats). */
  function ImageHist(p: TrainingPair, c: Channel, side: Side, bin: Binning): (h: seq<real>)
    requires Matching(p)
    ensures |h| == Buckets(c)
  {
    seq(Buckets(c), k => ImageCount(p, c, side, bin, k) as real)
  }

  /** The accumulated (not yet normalised) histogram over all pairs. */
  function RawHist(pairs: seq<TrainingPair>, c: Channel, side: Side, bin: Binning): (h: seq<real>)
    requires AllMatching(pairs)
    ensures |h| == Buckets(c)
  {
    seq(Buckets(c), k => TotalCount(pairs, c, side, bin, k) as real)
  }

  function Zeros(n: nat): (h: seq<real>)
    ensures |h| == n && forall k | 0 <= k < n :: h[k] == 0.0
  {
    seq(n, k => 0.0)
  }

  /** Bucket-wise sum: what calcHist does with accumulate=True. */
  function AddHist(a: seq<real>, b: seq<real>): (h: seq<real>)
    requires |a| == |b|
    ensures |h| == |a|
  {
    seq(|a|, k requires 0 <= k < |a| => a[k] + b[k])
  }

  /** Rescaling a histogram by a factor. */
  function Scaled(h: seq<real>, f: real): (r: seq<real>)
    ensures |r| == |h|
  {
    seq(|h|, k requires 0 <= k < |h| => h[k] * f)
  }

  /** Object minus background, bucket by bucket.  A positive bucket marks a
      value seen relatively more often on the buoy, a negative one a value
      seen relatively more often elsewhere. */
  function Difference(buoy: seq<real>, other: seq<real>): (d: seq<real>)
    requires |buoy| == |other|
    ensures |d| == |buoy|
    ensures forall k | 0 <= k < |d| :: d[k] + other[k] == buoy[k]
    ensures forall k | 0 <= k < |d| :: (d[k] > 0.0 <==> buoy[k] > other[k]) && (d[k] < 0.0 <==> buoy[k] < other[k])
  {
    seq(|buoy|, k requires 0 <= k < |buoy| => buoy[k] - other[k])
  }

  /** The persisted colour model: difference histograms for hue, saturation
      and value. */
  datatype ColorModel = ColorModel(hue: seq<real>, sat: seq<real>, val: seq<real>)

  predicate WellShaped(m: ColorModel)
  {
    |m.hue| == Buckets(Hue) && |m.sat| == Buckets(Sat) && |m.val| == Buckets(Val)
  }

  /** The pickled tuple, in the order hue, sat, val. */
  function Persist(m: ColorModel): (t: seq<seq<real>>)
    ensures |t| == 3
    ensures Load(t) == Some(m)
  {
    [m.hue, m.sat, m.val]
  }

  /** The reader takes positions 0, 1 and 2 of the unpickled tuple; a
      shorter tuple cannot be indexed. */
  function Load(t: seq<seq<real>>): (m: Option<ColorModel>)
    ensures m.Some? <==> |t| >= 3
    ensures m.Some? ==> m.value.hue == t[0] && m.value.sat == t[1] && m.value.val == t[2]
  {
    if |t| < 3 then None else Some(ColorModel(t[0], t[1], t[2]))
  }

  /** The model a full build produces: every raw histogram rescaled by the
      factor `scale` chooses for it, then buoy minus other per channel. */
  function BuiltModel(pairs: seq<TrainingPair>, bin: Binning, scale: seq<real> -> real): (m: ColorModel)
    requires AllMatching(pairs)
    ensures WellShaped(m)
  {
    ColorModel(
      Difference(Scaled(RawHist(pairs, Hue, Buoy, bin), scale(RawHist(pairs, Hue, Buoy, bin))),
                 Scaled(RawHist(pairs, Hue, Other, bin), scale(RawHist(pairs, Hue, Other, bin)))),
      Difference(Scaled(RawHist(pairs, Sat, Buoy, bin), scale(RawHist(pairs, Sat, Buoy, bin))),
                 Scaled(RawHist(pairs, Sat, Other, bin), scale(RawHist(pairs, Sat, Other, bin)))),
      Difference(Scaled(RawHist(pairs, Val, Buoy, bin), scale(RawHist(pairs, Val, Buoy, bin))),
                 Scaled(RawHist(pairs, Val, Other, bin), scale(RawHist(pairs, Val, Other, bin)))))
  }

  // ---------------------------------------------------------------------
  // Properties of the counts

  /** A pixel goes to the buoy histograms iff its mask level is non-zero and
      to the other histograms iff its inverted level is non-zero; with a
      0/255 mask it goes to exactly one, with a level strictly between it
      goes to both. */
  lemma PixelRouting(m: int)
    requires 0 <= m <= 255
    ensures Selects(Buoy, m) <==> m != 0
    ensures Selects(Other, m) <==> m != 255
    ensures (m == 0 || m == 255) ==> (Selects(Buoy, m) != Selects(Other, m))
    ensures 0 < m < 255 ==> Selects(Buoy, m) && Selects(Other, m)
  {
  }

  /** Count of one bucket over one row regardless of the mask. */
  function RowAll(row: seq<Hsv>, c: Channel, bin: Binning, k: int): nat
  {
    if row == [] then 0
    else (if bin(c, ChannelValue(row[0], c)) == k then 1 else 0) + RowAll(row[1..], c, bin, k)
  }

  function ImageAll(img: seq<seq<Hsv>>, c: Channel, bin: Binning, k: int): nat
  {
    if img == [] then 0 else RowAll(img[0], c, bin, k) + ImageAll(img[1..], c, bin, k)
  }

  predicate BinaryMaskRow(mrow: seq<int>)
  {
    forall n | 0 <= n < |mrow| :: mrow[n] == 0 || mrow[n] == 255
  }

  lemma {:induction false} RowPartition(row: seq<Hsv>, mrow: seq<int>, c: Channel, bin: Binning, k: int)
    requires |row| == |mrow| && BinaryMaskRow(mrow)
    ensures RowCount(row, mrow, c, Buoy, bin, k) + RowCount(row, mrow, c, Other, bin, k) == RowAll(row, c, bin, k)
  {
    if row != [] {
      RowPartition(row[1..], mrow[1..], c, bin, k);
    }
  }

  /** With a 0/255 mask the buoy and other counts of every bucket add up to
      that bucket's count over the whole image. */
  lemma {:induction false} ImagePartition(p: TrainingPair, c: Channel, bin: Binning, k: int)
    requires Matching(p) && IsBinary(p.mask)
    ensures ImageCount(p, c, Buoy, bin, k) + ImageCount(p, c, Other, bin, k) == ImageAll(p.image, c, bin, k)
    decreases |p.image|
  {
    if p.image != [] {
      assert BinaryMaskRow(p.mask[0]);
      RowPartition(p.image[0], p.mask[0], c, bin, k);
      ImagePartition(TrainingPair(p.image[1..], p.mask[1..]), c, bin, k);
    }
  }

  /** Accumulation over a concatenation is the sum of the two accumulations. */
  lemma {:induction false} TotalAppend(xs: seq<TrainingPair>, ys: seq<TrainingPair>, c: Channel, side: Side, bin: Binning, k: int)
    requires AllMatching(xs) && AllMatching(ys)
    ensures AllMatching(xs + ys)
    ensures TotalCount(xs + ys, c, side, bin, k) == TotalCount(xs, c, side, bin, k) + TotalCount(ys, c, side, bin, k)
    decreases |ys|
  {
    var zs := xs + ys;
    assert forall n | 0 <= n < |zs| :: zs[n] == if n < |xs| then xs[n] else ys[n - |xs|];
    if ys == [] {
      assert zs == xs;
    } else {
      var ys' := ys[..|ys| - 1];
      assert zs[..|zs| - 1] == xs + ys';
      TotalAppend(xs, ys', c, side, bin, k);
    }
  }

  /** Accumulated counts never decrease as further images are processed. */
  lemma AccumulationGrows(xs: seq<TrainingPair>, ys: seq<TrainingPair>, c: Channel, side: Side, bin: Binning, k: int)
    requires AllMatching(xs) && AllMatching(ys)
    ensures AllMatching(xs + ys)
    ensures TotalCount(xs, c, side, bin, k) <= TotalCount(xs + ys, c, side, bin, k)
  {
    TotalAppend(xs, ys, c, side, bin, k);
  }

  /** Removing the pair at position j removes exactly its contribution. */
  lemma TotalRemove(ys: seq<TrainingPair>, j: int, c: Channel, side: Side, bin: Binning, k: int)
    requires AllMatching(ys) && 0 <= j < |ys|
    ensures AllMatching(ys[..j] + ys[j + 1..])
    ensures TotalCount(ys, c, side, bin, k)
         == TotalCount(ys[..j] + ys[j + 1..], c, side, bin, k) + ImageCount(ys[j], c, side, bin, k)
  {
    assert ys == ys[..j] + ([ys[j]] + ys[j + 1..]);
    TotalAppend(ys[..j], [ys[j]] + ys[j + 1..], c, side, bin, k);
    TotalAppend([ys[j]], ys[j + 1..], c, side, bin, k);
    assert [ys[j]][..0] == [];
    TotalAppend(ys[..j], ys[j + 1..], c, side, bin, k);
  }

  lemma MultisetDropLast<T>(xs: seq<T>, ys: seq<T>, j: int)
    requires multiset(xs) == multiset(ys) && |xs| > 0
    requires 0 <= j < |ys| && ys[j] == xs[|xs| - 1]
    ensures multiset(xs[..|xs| - 1]) == multiset(ys[..j] + ys[j + 1..])
  {
    var x := xs[|xs| - 1];
    assert xs == xs[..|xs| - 1] + [x];
    assert ys == ys[..j] + [x] + ys[j + 1..];
    calc {
      multiset(xs[..|xs| - 1]);
      multiset(xs) - multiset{x};
      multiset(ys) - multiset{x};
      multiset(ys[..j]) + multiset(ys[j + 1..]);
      multiset(ys[..j] + ys[j + 1..]);
    }
  }

  /** The accumulated count of every bucket does not depend on the order in
      which the training images are processed. */
  lemma {:induction false} TotalPermutation(xs: seq<TrainingPair>, ys: seq<TrainingPair>, c: Channel, side: Side, bin: Binning, k: int)
    requires AllMatching(xs) && AllMatching(ys)
    requires multiset(xs) == multiset(ys)
    ensures TotalCount(xs, c, side, bin, k) == TotalCount(ys, c, side, bin, k)
    decreases |xs|
  {
    if xs == [] {
      assert |ys| == |multiset(ys)| == 0;
    } else {
      var x := xs[|xs| - 1];
      assert x in multiset(ys);
      var j :| 0 <= j < |ys| && ys[j] == x;
      MultisetDropLast(xs, ys, j);
      TotalRemove(ys, j, c, side, bin, k);
      TotalPermutation(xs[..|xs| - 1], ys[..j] + ys[j + 1..], c, side, bin, k);
    }
  }

  /** The built colour model is the same for any ordering of the training set. */
  lemma ModelOrderIndependent(xs: seq<TrainingPair>, ys: seq<TrainingPair>, bin: Binning, scale: seq<real> -> real)
    requires AllMatching(xs) && AllMatching(ys)
    requires multiset(xs) == multiset(ys)
    ensures BuiltModel(xs, bin, scale) == BuiltModel(ys, bin, scale)
  {
    forall c: Channel, side: Side
      ensures RawHist(xs, c, side, bin) == RawHist(ys, c, side, bin)
    {
      forall k | 0 <= k < Buckets(c)
        ensures TotalCount(xs, c, side, bin, k) == TotalCount(ys, c, side, bin, k)
      {
        TotalPermutation(xs, ys, c, side, bin, k);
      }
    }
  }

  /** A positive rescaling keeps the sign of every bucket and the order
      between any two buckets. */
  lemma {:induction false} ScalingKeepsSignAndOrder(h: seq<real>, f: real, a: int, b: int)
    requires f > 0.0
    requires 0 <= a < |h| && 0 <= b < |h|
    ensures Scaled(h, f)[a] > 0.0 <==> h[a] > 0.0
    ensures Scaled(h, f)[a] == 0.0 <==> h[a] == 0.0
    ensures Scaled(h, f)[a] <= Scaled(h, f)[b] <==> h[a] <= h[b]
  {
    var r := Scaled(h, f);
    assert r[a] - r[b] == (h[a] - h[b]) * f;
    if h[a] > 0.0 { assert r[a] > 0.0; }
    if h[a] < 0.0 { assert r[a] < 0.0; }
    if h[a] - h[b] > 0.0 { assert r[a] - r[b] > 0.0; }
    if h[a] - h[b] <= 0.0 { assert r[a] - r[b] <= 0.0; }
  }

  /** One more image adds its per-image histogram, bucket by bucket. */
  lemma RawHistSnoc(xs: seq<TrainingPair>, p: TrainingPair, c: Channel, side: Side, bin: Binning)
    requires AllMatching(xs) && Matching(p)
    ensures AllMatching(xs + [p])
    ensures RawHist(xs + [p], c, side, bin) == AddHist(RawHist(xs, c, side, bin), ImageHist(p, c, side, bin))
  {
    var zs := xs + [p];
    assert zs[..|zs| - 1] == xs;
    assert zs[|zs| - 1] == p;
  }

  // ---------------------------------------------------------------------
  // The builder object

  class ColorAnalyzer {
    var hueBuoy: seq<real>
    var satBuoy: seq<real>
    var valBuoy: seq<real>
    var hueOther: seq<real>
    var satOther: seq<real>
    var valOther: seq<real>
    /** False while the six histograms are still None. */
    var created: bool

    ghost predicate Valid()
      reads this
    {
      created ==>
        && |hueBuoy| == 180 && |satBuoy| == 256 && |valBuoy| == 256
        && |hueOther| == 180 && |satOther| == 256 && |valOther| == 256
    }

    /** The histogram field for a channel and a side. */
    function Hist(c: Channel, side: Side): seq<real>
      reads this
    {
      match (c, side)
      case (Hue, Buoy) => hueBuoy
      case (Sat, Buoy) => satBuoy
      case (Val, Buoy) => valBuoy
      case (Hue, Other) => hueOther
      case (Sat, Other) => satOther
      case (Val, Other) => valOther
    }

    constructor ()
      ensures Valid() && !created
    {
      hueBuoy, satBuoy, valBuoy := [], [], [];
      hueOther, satOther, valOther := [], [], [];
      created := false;
    }

    /** The histogram a calcHist call with accumulate=True starts from:
        the current one, or zeros while it is still None. */
    function Start(c: Channel, side: Side): (h: seq<real>)
      reads this
      requires Valid()
      ensures |h| == Buckets(c)
    {
      if created then Hist(c, side) else Zeros(Buckets(c))
    }

    /** The six calcHist calls for one image.  A mask of the wrong size
        makes the first call fail, before any histogram changes. */
    method AccumulatePair(p: TrainingPair, bin: Binning) returns (ok: bool)
      requires Valid()
      modifies this
      ensures Valid()
      ensures ok == Matching(p)
      ensures !ok ==> unchanged(this)
      ensures ok ==> created && forall c: Channel, side: Side ::
        Hist(c, side) == AddHist(old(Start(c, side)), ImageHist(p, c, side, bin))
    {
      if !Matching(p) {
        return false;
      }
      hueBuoy := AddHist(Start(Hue, Buoy), ImageHist(p, Hue, Buoy, bin));
      satBuoy := AddHist(Start(Sat, Buoy), ImageHist(p, Sat, Buoy, bin));
      valBuoy := AddHist(Start(Val, Buoy), ImageHist(p, Val, Buoy, bin));
      hueOther := AddHist(Start(Hue, Other), ImageHist(p, Hue, Other, bin));
      satOther := AddHist(Start(Sat, Other), ImageHist(p, Sat, Other, bin));
      valOther := AddHist(Start(Val, Other), ImageHist(p, Val, Other, bin));
      created := true;
      ok := true;
    }

    /** normalize_histograms: every histogram rescaled in place by its own
        positive factor.  With no histogram yet (no training image) there is
        nothing to rescale; the model reports that here, while in the code
        the histograms stay None until the buoy-minus-other subtraction
        fails on them. */
    method NormalizeHistograms(scale: seq<real> -> real) returns (ok: bool)
      requires Valid()
      modifies this
      ensures Valid()
      ensures ok == old(created) && created == old(created)
      ensures !ok ==> unchanged(this)
      ensures ok ==> forall c: Channel, side: Side ::
        Hist(c, side) == Scaled(old(Hist(c, side)), scale(old(Hist(c, side))))
    {
      if !created {
        return false;
      }
      hueBuoy := Scaled(hueBuoy, scale(hueBuoy));
      satBuoy := Scaled(satBuoy, scale(satBuoy));
      valBuoy := Scaled(valBuoy, scale(valBuoy));
      hueOther := Scaled(hueOther, scale(hueOther));
      satOther := Scaled(satOther, scale(satOther));
      valOther := Scaled(valOther, scale(valOther));
      ok := true;
    }

    /** calculate_histograms: accumulate over the training pairs in order,
        then normalise.  An empty training set leaves the histograms None,
        which the model reports as NoTrainingData; a mismatched mask stops
        the build. */
    method CalculateHistograms(pairs: seq<TrainingPair>, bin: Binning, scale: seq<real> -> real)
      returns (err: Option<BuildError>)
      requires Valid() && !created
      modifies this
      ensures Valid()
      ensures pairs == [] ==> err == Some(NoTrainingData)
      ensures pairs != [] ==> (err == Some(DimensionMismatch) <==> !AllMatching(pairs))
      ensures err == None <==> pairs != [] && AllMatching(pairs)
      ensures err == None ==> AllMatching(pairs) && created && forall c: Channel, side: Side ::
        Hist(c, side) == Scaled(RawHist(pairs, c, side, bin), scale(RawHist(pairs, c, side, bin)))
      ensures err == None ==> AllMatching(pairs) && created && Differences() == BuiltModel(pairs, bin, scale)
    {
      var i := 0;
      while i < |pairs|
        invariant 0 <= i <= |pairs|
        invariant Valid()
        invariant AllMatching(pairs[..i])
        invariant created == (i > 0)
        invariant forall c: Channel, side: Side :: Start(c, side) == RawHist(pairs[..i], c, side, bin)
      {
        var ok := AccumulatePair(pairs[i], bin);
        if !ok {
          assert !Matching(pairs[i]);
          return Some(DimensionMismatch);
        }
        assert pairs[..i + 1] == pairs[..i] + [pairs[i]];
        forall c: Channel, side: Side
          ensures RawHist(pairs[..i + 1], c, side, bin) == AddHist(RawHist(pairs[..i], c, side, bin), ImageHist(pairs[i], c, side, bin))
        {
          RawHistSnoc(pairs[..i], pairs[i], c, side, bin);
        }
        i := i + 1;
      }
      assert pairs[..|pairs|] == pairs;
      var ok := NormalizeHistograms(scale);
      if !ok {
        return Some(NoTrainingData);
      }
      assert hueBuoy == Hist(Hue, Buoy) && hueOther == Hist(Hue, Other);
      assert satBuoy == Hist(Sat, Buoy) && satOther == Hist(Sat, Other);
      assert valBuoy == Hist(Val, Buoy) && valOther == Hist(Val, Other);
      err := None;
    }

    /** create_differences_file: the triple (hue, sat, val) of buoy minus
        other differences of the normalised histograms. */
    function Differences(): (m: ColorModel)
      reads this
      requires Valid() && created
      ensures WellShaped(m)
      ensures forall k | 0 <= k < |m.hue| :: m.hue[k] > 0.0 <==> hueBuoy[k] > hueOther[k]
      ensures forall k | 0 <= k < |m.sat| :: m.sat[k] > 0.0 <==> satBuoy[k] > satOther[k]
      ensures forall k | 0 <= k < |m.val| :: m.val[k] > 0.0 <==> valBuoy[k] > valOther[k]
    {
      ColorModel(Difference(hueBuoy, hueOther), Difference(satBuoy, satOther), Difference(valBuoy, valOther))
    }
  }
}
