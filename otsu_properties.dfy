/** What `otsu`'s selection promises: class masses that add up to one, variances that
    are never negative and vanish at both ends of the scan, and the threshold it picks
    for a one-intensity and for a two-intensity image. */
module OtsuProperties {
  import opened Otsu

  lemma {:induction false} SumConcat(a: seq<nat>, b: seq<nat>)
    ensures Sum(a + b) == Sum(a) + Sum(b)
  {
    if b != [] {
      var ab, front := a + b, b[..|b| - 1];
      assert ab != [] && ab[..|ab| - 1] == a + front && ab[|ab| - 1] == b[|b| - 1];
      SumConcat(a, front);
      assert Sum(ab) == Sum(a + front) + b[|b| - 1];
    } else {
      assert a + b == a;
    }
  }

  lemma SharesOfWhole(x: real, y: real, t: real)
    requires t != 0.0 && x + y == t
    ensures x / t + y / t == 1.0
  {
    assert x / t + y / t == (x + y) / t;
  }

  /** A product, named so that facts about it survive being passed between lemmas. */
  function Mul(x: real, y: real): real { x * y }

  lemma MulSign(x: real, y: real)
    requires x >= 0.0 && y >= 0.0
    ensures Mul(x, y) >= 0.0
    ensures x > 0.0 && y > 0.0 ==> Mul(x, y) > 0.0
  {
    if x > 0.0 && y > 0.0 {
      assert x * y > 0.0;
    } else {
      assert x == 0.0 || y == 0.0;
    }
  }

  lemma SquareSign(x: real)
    ensures Mul(x, x) >= 0.0
    ensures x != 0.0 ==> Mul(x, x) > 0.0
  {
    if x >= 0.0 {
      MulSign(x, x);
    } else {
      MulSign(-x, -x);
      assert Mul(-x, -x) == Mul(x, x);
    }
  }

  /** The variance is the product of the two class masses and the squared distance
      of the class means. */
  lemma VarianceFactors(p0: real, p1: real, u0: real, u1: real)
    ensures BetweenClassVariance(p0, p1, u0, u1) == Mul(Mul(p0, p1), Mul(u0 - u1, u0 - u1))
  {
  }

  /** Two non-empty classes with distinct means are separated by a positive variance;
      classes of non-negative mass never score below 0. */
  lemma ClassesScore(p0: real, p1: real, u0: real, u1: real)
    requires p0 >= 0.0 && p1 >= 0.0
    ensures BetweenClassVariance(p0, p1, u0, u1) >= 0.0
    ensures p0 > 0.0 && p1 > 0.0 && u0 != u1 ==> BetweenClassVariance(p0, p1, u0, u1) > 0.0
  {
    MulSign(p0, p1);
    SquareSign(u0 - u1);
    MulSign(Mul(p0, p1), Mul(u0 - u1, u0 - u1));
    VarianceFactors(p0, p1, u0, u1);
  }

  /** p0 + p1 = 1 at every split index of a non-empty image. */
  lemma MassesSumToOne(c: seq<nat>, i: nat)
    requires i <= |c| && Sum(c) > 0
    ensures P0(c, i) + P1(c, i) == 1.0
  {
    assert c[..i] + c[i..] == c;
    SumConcat(c[..i], c[i..]);
    SharesOfWhole(Sum(c[..i]) as real, Sum(c[i..]) as real, Sum(c) as real);
  }

  /** Every between-class variance is non-negative. */
  lemma VarianceNonNegative(c: seq<nat>, bins: seq<real>, i: nat)
    requires IsHistogram(c, bins) && i < |bins|
    ensures Variance(c, bins, i) >= 0.0
  {
    assert Sum(c) > 0;
    ClassesScore(P0(c, i), P1(c, i), ClassMean(c, bins, 0, i), ClassMean(c, bins, i, |c|));
  }

  /** Split index 0 leaves the lower class empty, and the appended zero count leaves
      the upper class of the last split index empty: both variances are 0. */
  lemma VarianceVanishesAtEnds(c: seq<nat>, bins: seq<real>)
    requires IsHistogram(c, bins) && c[|c| - 1] == 0
    ensures Variance(c, bins, 0) == 0.0
    ensures Variance(c, bins, |bins| - 1) == 0.0
  {
    assert c[..0] == [];
    assert P0(c, 0) == 0.0;
    var last := |c| - 1;
    assert c[last..] == [c[last]];
    assert c[last..][..0] == [];
    assert P1(c, last) == 0.0;
  }

  /** When every split scores 0 (an all-zero `variance_list`), `otsu` selects index 0. */
  lemma FlatScanSelectsZero(c: seq<nat>, bins: seq<real>)
    requires IsHistogram(c, bins)
    requires forall i :: 0 <= i < |bins| ==> Variance(c, bins, i) == 0.0
    ensures OtsuThreshold(c, bins) == 0
  {
    var t := OtsuThreshold(c, bins);
    assert Variance(c, bins, 0) == Variance(c, bins, t);
  }

  /** The sums of a range of bins in which at most bin `m` is non-empty. */
  lemma {:induction false} OneBinRange(c: seq<nat>, b: seq<real>, lo: nat, hi: nat, m: nat)
    requires |c| == |b| && lo <= hi <= |c|
    requires forall k :: lo <= k < hi && k != m ==> c[k] == 0
    ensures Sum(c[lo..hi]) == if lo <= m < hi then c[m] else 0
    ensures Moment(c, b, lo, hi) == if lo <= m < hi then (c[m] as real) * b[m] else 0.0
    decreases hi - lo
  {
    if lo < hi {
      assert c[lo..hi][..hi - 1 - lo] == c[lo..hi - 1];
      OneBinRange(c, b, lo, hi - 1, m);
    }
  }

  /** An image of one intensity (a single non-empty bin) has variance 0 at every split,
      so `otsu` selects index 0. */
  lemma SingleIntensitySelectsZero(c: seq<nat>, bins: seq<real>, m: nat)
    requires IsHistogram(c, bins) && m < |c|
    requires forall k :: 0 <= k < |c| && k != m ==> c[k] == 0
    ensures forall i :: 0 <= i < |bins| ==> Variance(c, bins, i) == 0.0
    ensures OtsuThreshold(c, bins) == 0
  {
    forall i | 0 <= i < |bins|
      ensures Variance(c, bins, i) == 0.0
    {
      assert c[..i] == c[0..i] && c[i..] == c[i..|c|];
      if i <= m {
        OneBinRange(c, bins, 0, i, m);
        assert P0(c, i) == 0.0;
      } else {
        OneBinRange(c, bins, i, |c|, m);
        assert P1(c, i) == 0.0;
      }
    }
    FlatScanSelectsZero(c, bins);
  }

  /** The variance that every split strictly between two non-empty bins a < b shares. */
  function TwoClusterVariance(c: seq<nat>, bins: seq<real>, a: nat, b: nat): real
    requires a < b < |c| == |bins| && Sum(c) > 0
  {
    var t := Sum(c) as real;
    BetweenClassVariance((c[a] as real) / t, (c[b] as real) / t, bins[a], bins[b])
  }

  predicate TwoClusters(c: seq<nat>, bins: seq<real>, a: nat, b: nat) {
    && IsHistogram(c, bins) && a < b < |c|
    && c[a] > 0 && c[b] > 0
    && (forall k :: 0 <= k < |c| && k != a && k != b ==> c[k] == 0)
  }

  /** A range of bins in which only bin m is non-empty has class mean `bins[m]`. */
  lemma OneBinMean(c: seq<nat>, bins: seq<real>, lo: nat, hi: nat, m: nat)
    requires |c| == |bins| && lo <= m < hi <= |c| && c[m] > 0
    requires forall k :: lo <= k < hi && k != m ==> c[k] == 0
    ensures Sum(c[lo..hi]) == c[m]
    ensures ClassMean(c, bins, lo, hi) == bins[m]
  {
    OneBinRange(c, bins, lo, hi, m);
    ClassMeanIsAverage(c, bins, lo, hi);
    var cm := c[m] as real;
    assert (cm * bins[m]) / cm == bins[m];
  }

  lemma TwoClusterSplit(c: seq<nat>, bins: seq<real>, a: nat, b: nat, i: nat)
    requires TwoClusters(c, bins, a, b) && i < |bins|
    ensures i <= a || b < i ==> Variance(c, bins, i) == 0.0
    ensures a < i <= b ==> Variance(c, bins, i) == TwoClusterVariance(c, bins, a, b)
  {
    assert c[..i] == c[0..i] && c[i..] == c[i..|c|];
    if i <= a {
      OneBinRange(c, bins, 0, i, a);
      assert P0(c, i) == 0.0;
    } else if b < i {
      OneBinRange(c, bins, i, |c|, b);
      assert P1(c, i) == 0.0;
    } else {
      OneBinMean(c, bins, 0, i, a);
      OneBinMean(c, bins, i, |c|, b);
      var total := Sum(c) as real;
      assert P0(c, i) == (c[a] as real) / total;
      assert P1(c, i) == (c[b] as real) / total;
    }
  }

  lemma TwoClusterVariancePositive(c: seq<nat>, bins: seq<real>, a: nat, b: nat)
    requires TwoClusters(c, bins, a, b) && bins[a] != bins[b]
    ensures TwoClusterVariance(c, bins, a, b) > 0.0
  {
    var t := Sum(c) as real;
    var pa, pb := (c[a] as real) / t, (c[b] as real) / t;
    assert pa > 0.0 && pb > 0.0;
    ClassesScore(pa, pb, bins[a], bins[b]);
  }

  /** An image of two distinct intensities, in bins a < b with distinct edges: `otsu`
      selects a + 1, the first index that puts bin a below the split and bin b above
      it. */
  lemma TwoClustersSplitBetween(c: seq<nat>, bins: seq<real>, a: nat, b: nat)
    requires TwoClusters(c, bins, a, b) && bins[a] != bins[b]
    ensures OtsuThreshold(c, bins) == a + 1
  {
    var t := OtsuThreshold(c, bins);
    var v := TwoClusterVariance(c, bins, a, b);
    TwoClusterVariancePositive(c, bins, a, b);
    TwoClusterSplit(c, bins, a, b, a + 1);
    assert Variance(c, bins, a + 1) == v;
    assert Variance(c, bins, t) >= v;
    TwoClusterSplit(c, bins, a, b, t);
    assert a < t <= b;
    assert Variance(c, bins, t) == v;
  }
}
