/** Bernsen's local thresholding (`bernsen`): every pixel is compared with a threshold
    drawn from the r x r window of pixels around it. The window of pixel (i, j) holds
    channel 0 at rows i-1 .. i-2+r and columns j-1 .. j-2+r; rows and columns past the
    bottom or right edge are dropped, while row -1 and column -1 are read through
    Python's negative indexing and so wrap to the last row and column. */
module Bernsen {
  import opened Binarize

  datatype Option<T> = None | Some(value: T)

  /** An image with at least one pixel, each with a channel 0. */
  predicate HasPixels(image: array3<int>) {
    image.Length0 > 0 && image.Length1 > 0 && image.Length2 > 0
  }

  /** Python's indexing of a sequence of length `n`: a negative index counts from the end. */
  function PyIndex(x: int, n: int): int {
    if x < 0 then x + n else x
  }

  /** `image[row][col][0]`, where row and column -1 wrap to the last row and column. */
  function Pixel(image: array3<int>, row: int, col: int): int
    requires HasPixels(image)
    requires -1 <= row < image.Length0 && -1 <= col < image.Length1
    reads image
  {
    image[PyIndex(row, image.Length0), PyIndex(col, image.Length1), 0]
  }

  /** What one window offset contributes: nothing past the bottom or right edge,
      otherwise the (possibly wrapped) pixel. The source's test for negative offsets
      has no effect, so none is made here. */
  function Sample(image: array3<int>, row: int, col: int): seq<int>
    requires HasPixels(image) && -1 <= row && -1 <= col
    reads image
  {
    if row >= image.Length0 || col >= image.Length1 then [] else [Pixel(image, row, col)]
  }

  /** The samples of one window row for the column offsets b in [0, nb), in order. */
  function RowSamples(image: array3<int>, row: int, j: nat, nb: nat): seq<int>
    requires HasPixels(image) && -1 <= row
    reads image
  {
    if nb == 0 then [] else RowSamples(image, row, j, nb - 1) + Sample(image, row, j - 1 + nb - 1)
  }

  /** The samples of window rows a in [0, na), each over the column offsets [0, n). */
  function WindowSamples(image: array3<int>, i: nat, j: nat, na: nat, n: nat): seq<int>
    requires HasPixels(image)
    reads image
  {
    if na == 0 then [] else WindowSamples(image, i, j, na - 1, n) + RowSamples(image, i - 1 + na - 1, j, n)
  }

  /** The number of offsets in `range(r)`: none when r is negative. */
  function Offsets(r: int): nat {
    if r < 0 then 0 else r
  }

  /** `elem`: the list gathered for pixel (i, j) with window size r. */
  function Window(image: array3<int>, i: nat, j: nat, r: int): seq<int>
    requires HasPixels(image)
    reads image
  {
    WindowSamples(image, i, j, Offsets(r), Offsets(r))
  }

  /** Python's `max` over a non-empty list. */
  function SeqMax(s: seq<int>): (m: int)
    requires |s| > 0
    ensures m in s
    ensures forall k :: 0 <= k < |s| ==> s[k] <= m
  {
    if |s| == 1 then s[0]
    else
      var rest := SeqMax(s[1..]);
      if s[0] >= rest then s[0] else rest
  }

  /** Python's `min` over a non-empty list. */
  function SeqMin(s: seq<int>): (m: int)
    requires |s| > 0
    ensures m in s
    ensures forall k :: 0 <= k < |s| ==> m <= s[k]
  {
    if |s| == 1 then s[0]
    else
      var rest := SeqMin(s[1..]);
      if s[0] <= rest then s[0] else rest
  }

  // ----- The window -----

  /** How many of the offsets 0 .. n-1 keep x - 1 + offset before `size`. */
  function Span(x: nat, n: nat, size: nat): nat
    requires x < size
  {
    if n <= size - x + 1 then n else size - x + 1
  }

  lemma {:induction false} RowSamplesLength(image: array3<int>, row: int, j: nat, nb: nat)
    requires HasPixels(image) && -1 <= row && j < image.Length1
    ensures |RowSamples(image, row, j, nb)| == if row < image.Length0 then Span(j, nb, image.Length1) else 0
  {
    if nb > 0 {
      RowSamplesLength(image, row, j, nb - 1);
    }
  }

  lemma {:induction false} WindowSamplesLength(image: array3<int>, i: nat, j: nat, na: nat, n: nat)
    requires HasPixels(image) && i < image.Length0 && j < image.Length1
    ensures |WindowSamples(image, i, j, na, n)| == Span(i, na, image.Length0) * Span(j, n, image.Length1)
  {
    if na > 0 {
      WindowSamplesLength(image, i, j, na - 1, n);
      RowSamplesLength(image, i - 1 + na - 1, j, n);
      var cols := Span(j, n, image.Length1);
      if i - 1 + na - 1 < image.Length0 {
        assert Span(i, na, image.Length0) == Span(i, na - 1, image.Length0) + 1;
        assert (Span(i, na - 1, image.Length0) + 1) * cols == Span(i, na - 1, image.Length0) * cols + cols;
      } else {
        assert Span(i, na, image.Length0) == Span(i, na - 1, image.Length0);
      }
    }
  }

  /** The window of a pixel holds one sample per kept row offset and kept column
      offset; it is empty exactly when r < 1, since offset 0 (row i-1 and column j-1,
      wrapped if need be) is always kept. */
  lemma WindowLength(image: array3<int>, i: nat, j: nat, r: int)
    requires HasPixels(image) && i < image.Length0 && j < image.Length1
    ensures |Window(image, i, j, r)| == Span(i, Offsets(r), image.Length0) * Span(j, Offsets(r), image.Length1)
    ensures |Window(image, i, j, r)| > 0 <==> r >= 1
  {
    var n := Offsets(r);
    WindowSamplesLength(image, i, j, n, n);
    var rows, cols := Span(i, n, image.Length0), Span(j, n, image.Length1);
    if r >= 1 {
      assert rows >= 1 && cols >= 1;
      assert rows * cols >= cols;
    } else {
      assert rows == 0;
    }
  }

  lemma {:induction false} RowSamplesMembers(image: array3<int>, row: int, j: nat, nb: nat, x: int)
    requires HasPixels(image) && -1 <= row
    ensures x in RowSamples(image, row, j, nb) <==>
      row < image.Length0 &&
      exists col :: j - 1 <= col < j - 1 + nb && col < image.Length1 && x == Pixel(image, row, col)
  {
    if nb > 0 {
      RowSamplesMembers(image, row, j, nb - 1, x);
      var last := j - 1 + nb - 1;
      if row < image.Length0 && last < image.Length1 && x == Pixel(image, row, last) {
        assert x in Sample(image, row, last);
      }
    }
  }

  lemma {:induction false} WindowSamplesMembers(image: array3<int>, i: nat, j: nat, na: nat, n: nat, x: int)
    requires HasPixels(image)
    ensures x in WindowSamples(image, i, j, na, n) <==>
      exists row, col :: i - 1 <= row < i - 1 + na && row < image.Length0 &&
        j - 1 <= col < j - 1 + n && col < image.Length1 && x == Pixel(image, row, col)
  {
    if na > 0 {
      var last := i - 1 + na - 1;
      WindowSamplesMembers(image, i, j, na - 1, n, x);
      RowSamplesMembers(image, last, j, n, x);
      assert WindowSamples(image, i, j, na, n) == WindowSamples(image, i, j, na - 1, n) + RowSamples(image, last, j, n);
    }
  }

  /** The window of pixel (i, j) holds exactly the pixels at rows i-1 .. i-2+r and
      columns j-1 .. j-2+r that lie before the bottom and right edges, row and column
      -1 wrapped to the last. */
  lemma WindowMembers(image: array3<int>, i: nat, j: nat, r: int, x: int)
    requires HasPixels(image)
    ensures x in Window(image, i, j, r) <==>
      exists row, col :: i - 1 <= row < i - 1 + r && row < image.Length0 &&
        j - 1 <= col < j - 1 + r && col < image.Length1 && x == Pixel(image, row, col)
  {
    WindowSamplesMembers(image, i, j, Offsets(r), Offsets(r), x);
  }

  /** With r >= 2 a pixel lies in its own window. */
  lemma CentreInWindow(image: array3<int>, i: nat, j: nat, r: int)
    requires HasPixels(image) && i < image.Length0 && j < image.Length1 && r >= 2
    ensures image[i, j, 0] in Window(image, i, j, r)
  {
    WindowMembers(image, i, j, r, image[i, j, 0]);
    assert image[i, j, 0] == Pixel(image, i, j);
  }

  /** The window of the top-left pixel wraps around: it holds the bottom-right pixel. */
  lemma WrapAtTopLeft(image: array3<int>, r: int)
    requires HasPixels(image) && r >= 1
    ensures image[image.Length0 - 1, image.Length1 - 1, 0] in Window(image, 0, 0, r)
  {
    var x := image[image.Length0 - 1, image.Length1 - 1, 0];
    WindowMembers(image, 0, 0, r, x);
    assert x == Pixel(image, -1, -1);
  }

  // ----- The per-pixel rule -----

  /** `k`: the threshold used in windows of low contrast, 0 for a bright background
      and 255 otherwise. */
  function Sentinel(bg: string): int {
    if bg == "bright" then 0 else 255
  }

  /** `wBTH`: the sentinel when the contrast of the window is below `l`, otherwise the
      midpoint of its largest and smallest values. */
  function LocalThreshold(hi: int, lo: int, l: int, k: int): real {
    if hi - lo < l then k as real else ((hi + lo) as real) / 2.0
  }

  /** The label of a pixel against the local threshold. */
  function Label(pixel: int, hi: int, lo: int, l: int, k: int): int {
    if (pixel as real) < LocalThreshold(hi, lo, l, k) then 0 else 255
  }

  /** The rule in integers: below the contrast bound a pixel is black exactly when it
      is below the sentinel; otherwise exactly when twice the pixel is below the sum of
      the window's largest and smallest values. */
  lemma LabelRule(pixel: int, hi: int, lo: int, l: int, k: int)
    ensures Label(pixel, hi, lo, l, k) in {0, 255}
    ensures hi - lo < l ==> (Label(pixel, hi, lo, l, k) == 0 <==> pixel < k)
    ensures hi - lo >= l ==> (Label(pixel, hi, lo, l, k) == 0 <==> 2 * pixel < hi + lo)
  {
    if hi - lo >= l {
      assert (pixel as real) < ((hi + lo) as real) / 2.0 <==> 2 * pixel < hi + lo;
    }
  }

  /** `elem_max`: the largest value of the window (r >= 1). */
  function WindowMax(image: array3<int>, i: nat, j: nat, r: int): int
    requires HasPixels(image) && i < image.Length0 && j < image.Length1 && r >= 1
    reads image
  {
    WindowLength(image, i, j, r);
    SeqMax(Window(image, i, j, r))
  }

  /** `elem_min`: the smallest value of the window (r >= 1). */
  function WindowMin(image: array3<int>, i: nat, j: nat, r: int): int
    requires HasPixels(image) && i < image.Length0 && j < image.Length1 && r >= 1
    reads image
  {
    WindowLength(image, i, j, r);
    SeqMin(Window(image, i, j, r))
  }

  /** The label `bernsen` gives pixel (i, j) (r >= 1). */
  function BernsenPixel(image: array3<int>, i: nat, j: nat, r: int, l: int, k: int): int
    requires HasPixels(image) && i < image.Length0 && j < image.Length1 && r >= 1
    reads image
  {
    Label(image[i, j, 0], WindowMax(image, i, j, r), WindowMin(image, i, j, r), l, k)
  }

  /** Every channel of every pixel of `result` carries the label `bernsen` gives that
      pixel of `image`. */
  ghost predicate Labelled(image: array3<int>, result: array3<int>, r: int, l: int, k: int)
    reads image, result
  {
    && SameShape(image, result)
    && (HasPixels(image) ==> r >= 1)
    && forall i, j, c :: 0 <= i < result.Length0 && 0 <= j < result.Length1 && 0 <= c < result.Length2 ==>
         result[i, j, c] == BernsenPixel(image, i, j, r, l, k)
  }

  // ----- The computation, as the source performs it -----

  /** The double loop over a, b in range(r) that builds `elem` for pixel (i, j). */
  method GatherWindow(image: array3<int>, i: nat, j: nat, r: int) returns (elem: seq<int>)
    requires HasPixels(image)
    ensures elem == Window(image, i, j, r)
  {
    var height, width := image.Length0, image.Length1;
    elem := [];
    var n := Offsets(r);
    for a := 0 to n
      invariant elem == WindowSamples(image, i, j, a, n)
    {
      for b := 0 to n
        invariant elem == WindowSamples(image, i, j, a, n) + RowSamples(image, i - 1 + a, j, b)
      {
        var row, col := i - 1 + a, j - 1 + b;
        if row >= height || col >= width {
        } else {
          elem := elem + [image[PyIndex(row, height), PyIndex(col, width), 0]];
        }
      }
    }
  }

  /** The label of one pixel, computed as the source does: max and min of `elem`,
      the float midpoint and the contrast; `None` where `max` of an empty `elem`
      raises ValueError. */
  method LabelPixel(image: array3<int>, i: nat, j: nat, r: int, l: int, k: int) returns (tone: Option<int>)
    requires HasPixels(image) && i < image.Length0 && j < image.Length1
    ensures tone.None? <==> r < 1
    ensures tone.Some? ==> tone.value == BernsenPixel(image, i, j, r, l, k)
  {
    var elem := GatherWindow(image, i, j, r);
    WindowLength(image, i, j, r);
    if |elem| == 0 {
      return None;
    }
    var elemMax, elemMin := SeqMax(elem), SeqMin(elem);
    var threshold := ((elemMax + elemMin) as real) / 2.0;
    var contrast := elemMax - elemMin;
    var wBTH: real;
    if contrast < l {
      wBTH := k as real;
    } else {
      wBTH := threshold;
    }
    if (image[i, j, 0] as real) < wBTH {
      tone := Some(0);
    } else {
      tone := Some(255);
    }
  }

  /** One pass of the inner loop of `bernsen`: label every pixel of row i of `out`;
      false where `max` of an empty window raises ValueError. */
  method LabelRow(image: array3<int>, out: array3<int>, i: nat, r: int, l: int, k: int) returns (ok: bool)
    requires HasChannelZero(image) && SameShape(image, out) && out != image && i < image.Length0
    modifies out
    ensures ok <==> r >= 1 || image.Length1 == 0
    ensures forall p, q, c :: 0 <= p < out.Length0 && p != i && 0 <= q < out.Length1 && 0 <= c < out.Length2 ==>
      out[p, q, c] == old(out[p, q, c])
    ensures ok ==> forall q, c :: 0 <= q < out.Length1 && 0 <= c < out.Length2 ==>
      out[i, q, c] == BernsenPixel(image, i, q, r, l, k)
  {
    var width, depth := image.Length1, image.Length2;
    for j := 0 to width
      invariant 0 < j ==> r >= 1
      invariant forall p, q, c :: 0 <= p < out.Length0 && p != i && 0 <= q < width && 0 <= c < depth ==>
        out[p, q, c] == old(out[p, q, c])
      invariant forall q, c :: 0 <= q < j && 0 <= c < depth ==>
        out[i, q, c] == BernsenPixel(image, i, q, r, l, k)
    {
      var tone := LabelPixel(image, i, j, r, l, k);
      if tone.None? {
        return false;
      }
      forall c | 0 <= c < depth {
        out[i, j, c] := tone.value;
      }
    }
    return true;
  }

  /** bernsen: label every pixel from its window and write the label to all its
      channels. `None` when the image has a pixel and r < 1, where `max` of the
      empty window raises ValueError (the PIL save is left to the caller). */
  method BernsenBinarize(image: array3<int>, r: int, l: int, bg: string) returns (result: Option<array3<int>>)
    requires HasChannelZero(image)
    ensures result.None? <==> image.Length0 > 0 && image.Length1 > 0 && r < 1
    ensures result.Some? ==> fresh(result.value) && Labelled(image, result.value, r, l, Sentinel(bg))
  {
    var height, width, depth := image.Length0, image.Length1, image.Length2;
    var out := new int[height, width, depth]((_, _, _) => 0);
    var k;
    if bg == "bright" {
      k := 0;
    } else {
      k := 255;
    }
    for i := 0 to height
      invariant 0 < i && 0 < width ==> r >= 1
      invariant forall p, q, c :: 0 <= p < i && 0 <= q < width && 0 <= c < depth ==>
        out[p, q, c] == BernsenPixel(image, p, q, r, l, k)
    {
      var ok := LabelRow(image, out, i, r, l, k);
      if !ok {
        return None;
      }
    }
    result := Some(out);
  }
}
