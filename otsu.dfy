/** Otsu's global threshold (`otsu`): scan every split index of a 256-edge histogram,
    compute the between-class variance of each split, pick the first split of largest
    variance and binarise the image with that index as the intensity threshold.

    The histogram itself (np.histogram over all channels, 255 bins) is an input:
    `counts` are its 255 bin counts and `bins` its 256 bin edges. Arithmetic is done
    in exact reals. */
module Otsu {
  import opened Binarize

  /** The number of bins the histogram is taken with. */
  const HistogramBins := 255

  // ----- Specification -----

  /** Python's `sum` over a list of counts. */
  function Sum(s: seq<nat>): nat {
    if s == [] then 0 else Sum(s[..|s| - 1]) + s[|s| - 1]
  }

  /** The weighted sum of the bins in [lo, hi): counts times bin edges, summed in
      index order as the loops of `otsu` accumulate it. */
  function Moment(c: seq<nat>, b: seq<real>, lo: nat, hi: nat): real
    requires |c| == |b| && lo <= hi <= |c|
    decreases hi - lo
  {
    if lo == hi then 0.0 else Moment(c, b, lo, hi - 1) + (c[hi - 1] as real) * b[hi - 1]
  }

  /** A class holding no pixel has weighted sum 0; so the source's guard on a zero
      weighted sum also keeps it from dividing by a zero class mass. */
  lemma {:induction false} EmptyClassHasNoMoment(c: seq<nat>, b: seq<real>, lo: nat, hi: nat)
    requires |c| == |b| && lo <= hi <= |c|
    ensures Sum(c[lo..hi]) == 0 ==> Moment(c, b, lo, hi) == 0.0
    decreases hi - lo
  {
    if lo < hi && Sum(c[lo..hi]) == 0 {
      assert c[lo..hi][..hi - 1 - lo] == c[lo..hi - 1];
      EmptyClassHasNoMoment(c, b, lo, hi - 1);
      assert c[hi - 1] == 0;
    }
  }

  /** The class mean `u0`/`u1` of the bins in [lo, hi) as the source computes it: 0
      when the weighted sum is 0, otherwise the weighted sum divided by the class's
      count. */
  function ClassMean(c: seq<nat>, b: seq<real>, lo: nat, hi: nat): real
    requires |c| == |b| && lo <= hi <= |c|
  {
    var moment := Moment(c, b, lo, hi);
    if moment == 0.0 then 0.0
    else
      EmptyClassHasNoMoment(c, b, lo, hi);
      moment / (Sum(c[lo..hi]) as real)
  }

  /** The guard on the weighted sum is the usual guard on the class mass: an empty
      class has mean 0, any other class the average of its bin edges. */
  lemma ClassMeanIsAverage(c: seq<nat>, b: seq<real>, lo: nat, hi: nat)
    requires |c| == |b| && lo <= hi <= |c|
    ensures Sum(c[lo..hi]) == 0 ==> ClassMean(c, b, lo, hi) == 0.0
    ensures Sum(c[lo..hi]) != 0 ==> ClassMean(c, b, lo, hi) == Moment(c, b, lo, hi) / (Sum(c[lo..hi]) as real)
  {
    EmptyClassHasNoMoment(c, b, lo, hi);
  }

  /** Counts (after the sentinel append) and bin edges of a non-empty image: one count
      per edge and at least one pixel. */
  predicate IsHistogram(c: seq<nat>, bins: seq<real>) {
    |c| == |bins| && Sum(c) > 0
  }

  /** `p0`: the share of pixels in the bins below split index `i`. */
  function P0(c: seq<nat>, i: nat): real
    requires i <= |c| && Sum(c) > 0
  {
    (Sum(c[..i]) as real) / (Sum(c) as real)
  }

  /** `p1`: the share of pixels in the bins from split index `i` on. */
  function P1(c: seq<nat>, i: nat): real
    requires i <= |c| && Sum(c) > 0
  {
    (Sum(c[i..]) as real) / (Sum(c) as real)
  }

  /** Otsu's criterion for two classes of masses p0, p1 and means u0, u1. */
  function BetweenClassVariance(p0: real, p1: real, u0: real, u1: real): real {
    p0 * p1 * (u0 - u1) * (u0 - u1)
  }

  /** The between-class variance of split index `i`. */
  function Variance(c: seq<nat>, bins: seq<real>, i: nat): real
    requires IsHistogram(c, bins) && i < |bins|
  {
    BetweenClassVariance(P0(c, i), P1(c, i), ClassMean(c, bins, 0, i), ClassMean(c, bins, i, |c|))
  }

  /** `variance_list`: the variance of every split index, in index order. */
  function Variances(c: seq<nat>, bins: seq<real>): seq<real>
    requires IsHistogram(c, bins)
  {
    seq(|bins|, i requires 0 <= i < |bins| => Variance(c, bins, i))
  }

  /** Python's `max` over a non-empty list of variances: the real-valued twin of
      `Bernsen.SeqMax`, which takes the maximum of a window of integer pixels. */
  function SeqMax(s: seq<real>): (m: real)
    requires |s| > 0
    ensures m in s
    ensures forall k :: 0 <= k < |s| ==> s[k] <= m
  {
    if |s| == 1 then s[0]
    else
      var rest := SeqMax(s[1..]);
      if s[0] >= rest then s[0] else rest
  }

  /** Python's `list.index`: the first position holding `x`. */
  function IndexOf(s: seq<real>, x: real): (k: nat)
    requires x in s
    ensures k < |s| && s[k] == x
    ensures forall j :: 0 <= j < k ==> s[j] != x
  {
    if s[0] == x then 0 else 1 + IndexOf(s[1..], x)
  }

  /** The threshold `otsu` selects: the smallest split index whose variance is the
      largest of all. */
  function OtsuThreshold(c: seq<nat>, bins: seq<real>): (t: nat)
    requires IsHistogram(c, bins)
    ensures t < |bins|
    ensures forall k :: 0 <= k < |bins| ==> Variance(c, bins, k) <= Variance(c, bins, t)
    ensures forall k :: 0 <= k < t ==> Variance(c, bins, k) < Variance(c, bins, t)
  {
    var vs := Variances(c, bins);
    assert forall k :: 0 <= k < |bins| ==> vs[k] == Variance(c, bins, k);
    IndexOf(vs, SeqMax(vs))
  }

  // ----- The computation, as the source performs it -----

  /** One pass of the scan in `otsu`: the class masses `p0`, `p1`, the weighted sums
      `u0`, `u1` accumulated in loops, the guarded division and the variance of split
      index `i`; `c` holds the counts after the sentinel append. */
  method SplitVariance(c: seq<nat>, bins: seq<real>, i: nat) returns (variance: real)
    requires IsHistogram(c, bins) && i < |bins|
    ensures variance == Variance(c, bins, i)
  {
    assert |c| == |bins| && c[0..i] == c[..i] && c[i..|c|] == c[i..];
    var p0 := (Sum(c[..i]) as real) / (Sum(c) as real);
    var p1 := (Sum(c[i..]) as real) / (Sum(c) as real);
    var u0 := 0.0;
    var u1 := 0.0;
    for j := 0 to i
      invariant u0 == Moment(c, bins, 0, j)
    {
      u0 := u0 + (c[j] as real) * bins[j];
    }
    for k := 0 to |bins| - i
      invariant u1 == Moment(c, bins, i, i + k)
    {
      u1 := u1 + (c[i + k] as real) * bins[i + k];
    }
    // avoid division by 0
    if u0 == 0.0 {
      u0 := 0.0;
    } else {
      EmptyClassHasNoMoment(c, bins, 0, i);
      u0 := u0 / (Sum(c[..i]) as real);
    }
    if u1 == 0.0 {
      u1 := 0.0;
    } else {
      EmptyClassHasNoMoment(c, bins, i, |c|);
      u1 := u1 / (Sum(c[i..]) as real);
    }
    variance := p0 * p1 * (u0 - u1) * (u0 - u1);
  }

  /** The scan of `otsu` over all split indices, building `variance_list`. */
  method ScanVariances(c: seq<nat>, bins: seq<real>) returns (variances: seq<real>)
    requires IsHistogram(c, bins)
    ensures variances == Variances(c, bins)
  {
    variances := [];
    for i := 0 to |bins|
      invariant |variances| == i
      invariant forall k :: 0 <= k < i ==> variances[k] == Variance(c, bins, k)
    {
      var variance := SplitVariance(c, bins, i);
      variances := variances + [variance];
    }
  }

  /** otsu: append the zero sentinel count, scan the variances, take the first index
      of the maximum and binarise the image with it. Returns the threshold and the
      binary image (the PIL save is left to the caller). */
  method OtsuBinarize(image: array3<int>, counts: seq<nat>, bins: seq<real>) returns (threshold: nat, result: array3<int>)
    requires HasChannelZero(image)
    requires |counts| == HistogramBins && |bins| == HistogramBins + 1
    requires Sum(counts) > 0
    ensures threshold == OtsuThreshold(counts + [0], bins)
    ensures fresh(result)
    ensures Thresholded(image, result, threshold as real)
  {
    var c := counts + [0];
    assert c[..|c| - 1] == counts;
    var variances := ScanVariances(c, bins);
    threshold := IndexOf(variances, SeqMax(variances));
    result := Algo1(image, threshold as real);
  }
}
