/** What `bernsen`'s labels mean: the output is binary, low-contrast windows follow the
    background setting, a local minimum in a contrasted window turns black and a local
    maximum white, and an image of one intensity is labelled uniformly. */
module BernsenProperties {
  import opened Binarize
  import opened Bernsen

  /** Every value `bernsen` writes is 0 or 255. */
  lemma LabelledIsBinary(image: array3<int>, result: array3<int>, r: int, l: int, k: int)
    requires Labelled(image, result, r, l, k)
    ensures forall i, j, c :: 0 <= i < result.Length0 && 0 <= j < result.Length1 && 0 <= c < result.Length2 ==>
      result[i, j, c] in {0, 255}
  {
    forall i, j, c | 0 <= i < result.Length0 && 0 <= j < result.Length1 && 0 <= c < result.Length2
      ensures result[i, j, c] in {0, 255}
    {
      LabelRule(image[i, j, 0], WindowMax(image, i, j, r), WindowMin(image, i, j, r), l, k);
    }
  }

  /** In a window of contrast below `l` the background decides: with a bright
      background every pixel of 0..255 is white, otherwise only a pixel of 255 is. */
  lemma LowContrastFollowsBackground(image: array3<int>, i: nat, j: nat, r: int, l: int, bg: string)
    requires HasPixels(image) && i < image.Length0 && j < image.Length1 && r >= 1
    requires WindowMax(image, i, j, r) - WindowMin(image, i, j, r) < l
    requires 0 <= image[i, j, 0] <= 255
    ensures bg == "bright" ==> BernsenPixel(image, i, j, r, l, Sentinel(bg)) == 255
    ensures bg != "bright" ==> (BernsenPixel(image, i, j, r, l, Sentinel(bg)) == 0 <==> image[i, j, 0] != 255)
  {
    LabelRule(image[i, j, 0], WindowMax(image, i, j, r), WindowMin(image, i, j, r), l, Sentinel(bg));
  }

  /** In a window of contrast at least `l`, a pixel is black exactly when it lies below
      the midpoint of the window's largest and smallest values. */
  lemma ContrastedWindowSplitsAtMidpoint(image: array3<int>, i: nat, j: nat, r: int, l: int, k: int)
    requires HasPixels(image) && i < image.Length0 && j < image.Length1 && r >= 1
    requires WindowMax(image, i, j, r) - WindowMin(image, i, j, r) >= l
    ensures BernsenPixel(image, i, j, r, l, k) == 0 <==>
      2 * image[i, j, 0] < WindowMax(image, i, j, r) + WindowMin(image, i, j, r)
  {
    LabelRule(image[i, j, 0], WindowMax(image, i, j, r), WindowMin(image, i, j, r), l, k);
  }

  /** A pixel no brighter than anything in its window (r >= 2, so the pixel is part of
      it), in a window of contrast at least l >= 1, is black. */
  lemma LocalMinimumIsBlack(image: array3<int>, i: nat, j: nat, r: int, l: int, k: int)
    requires HasPixels(image) && i < image.Length0 && j < image.Length1 && r >= 2
    requires forall x :: x in Window(image, i, j, r) ==> image[i, j, 0] <= x
    requires 1 <= l <= WindowMax(image, i, j, r) - WindowMin(image, i, j, r)
    ensures BernsenPixel(image, i, j, r, l, k) == 0
  {
    WindowLength(image, i, j, r);
    CentreInWindow(image, i, j, r);
    var hi, lo := WindowMax(image, i, j, r), WindowMin(image, i, j, r);
    assert image[i, j, 0] == lo;
    LabelRule(image[i, j, 0], hi, lo, l, k);
  }

  /** A pixel no darker than anything in its window (r >= 2) is white when the window
      is contrasted or the pixel reaches the sentinel. */
  lemma LocalMaximumIsWhite(image: array3<int>, i: nat, j: nat, r: int, l: int, k: int)
    requires HasPixels(image) && i < image.Length0 && j < image.Length1 && r >= 2
    requires forall x :: x in Window(image, i, j, r) ==> x <= image[i, j, 0]
    requires WindowMax(image, i, j, r) - WindowMin(image, i, j, r) >= l || k <= image[i, j, 0]
    ensures BernsenPixel(image, i, j, r, l, k) == 255
  {
    WindowLength(image, i, j, r);
    CentreInWindow(image, i, j, r);
    var hi, lo := WindowMax(image, i, j, r), WindowMin(image, i, j, r);
    assert image[i, j, 0] == hi;
    LabelRule(image[i, j, 0], hi, lo, l, k);
  }

  /** Every value in the window of a pixel of an image of one intensity `v` is `v`. */
  lemma FlatWindow(image: array3<int>, i: nat, j: nat, r: int, v: int)
    requires HasPixels(image)
    requires forall p, q :: 0 <= p < image.Length0 && 0 <= q < image.Length1 ==> image[p, q, 0] == v
    ensures forall x :: x in Window(image, i, j, r) ==> x == v
  {
    forall x | x in Window(image, i, j, r)
      ensures x == v
    {
      WindowMembers(image, i, j, r, x);
      var row, col :| i - 1 <= row < i - 1 + r && row < image.Length0 &&
        j - 1 <= col < j - 1 + r && col < image.Length1 && x == Pixel(image, row, col);
    }
  }

  /** An image of one intensity `v` is labelled uniformly: black when `l` > 0 and `v` is
      below the sentinel, white otherwise. With a bright background every such image of
      0..255 turns white. */
  lemma FlatImageIsUniform(image: array3<int>, result: array3<int>, r: int, l: int, k: int, v: int)
    requires HasPixels(image) && Labelled(image, result, r, l, k)
    requires forall p, q :: 0 <= p < image.Length0 && 0 <= q < image.Length1 ==> image[p, q, 0] == v
    ensures forall i, j, c :: 0 <= i < result.Length0 && 0 <= j < result.Length1 && 0 <= c < result.Length2 ==>
      result[i, j, c] == if 0 < l && v < k then 0 else 255
  {
    forall i, j, c | 0 <= i < result.Length0 && 0 <= j < result.Length1 && 0 <= c < result.Length2
      ensures result[i, j, c] == if 0 < l && v < k then 0 else 255
    {
      WindowLength(image, i, j, r);
      FlatWindow(image, i, j, r, v);
      assert WindowMax(image, i, j, r) == v && WindowMin(image, i, j, r) == v;
      LabelRule(image[i, j, 0], v, v, l, k);
    }
  }
}
