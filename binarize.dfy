/** Fixed-threshold binarisation (`algo1`), also the last step of Otsu's method.
    An image is a height x width x depth grid of intensities; only channel 0 of a
    pixel is read, and every channel of an output pixel receives the same label. */
module Binarize {

  /** Every pixel has a channel 0 to read (numpy raises IndexError otherwise);
      an image without pixels is never indexed. */
  predicate HasChannelZero(image: array3<int>) {
    image.Length0 == 0 || image.Length1 == 0 || image.Length2 > 0
  }

  predicate SameShape(a: array3<int>, b: array3<int>) {
    a.Length0 == b.Length0 && a.Length1 == b.Length1 && a.Length2 == b.Length2
  }

  /** `result` is `image` binarised at `threshold`: every channel of pixel (i, j) is
      0 (black) when channel 0 of the input is below the threshold, 255 (white)
      otherwise. */
  ghost predicate Thresholded(image: array3<int>, result: array3<int>, threshold: real)
    reads image, result
  {
    && SameShape(image, result)
    && forall i, j, c :: 0 <= i < result.Length0 && 0 <= j < result.Length1 && 0 <= c < result.Length2 ==>
         result[i, j, c] in {0, 255} && (result[i, j, c] == 0 <==> (image[i, j, 0] as real) < threshold)
  }

  /** algo1: the output has the input's shape and is the input thresholded at `threshold`
      (the PIL save of the output is left to the caller). */
  method Algo1(image: array3<int>, threshold: real) returns (result: array3<int>)
    requires HasChannelZero(image)
    ensures fresh(result)
    ensures Thresholded(image, result, threshold)
  {
    var height, width, depth := image.Length0, image.Length1, image.Length2;
    result := new int[height, width, depth]((_, _, _) => 0);
    for i := 0 to height
      invariant forall p, q, c :: 0 <= p < i && 0 <= q < width && 0 <= c < depth ==>
        result[p, q, c] in {0, 255} && (result[p, q, c] == 0 <==> (image[p, q, 0] as real) < threshold)
    {
      for j := 0 to width
        invariant forall p, q, c :: 0 <= p < i && 0 <= q < width && 0 <= c < depth ==>
          result[p, q, c] in {0, 255} && (result[p, q, c] == 0 <==> (image[p, q, 0] as real) < threshold)
        invariant forall q, c :: 0 <= q < j && 0 <= c < depth ==>
          result[i, q, c] in {0, 255} && (result[i, q, c] == 0 <==> (image[i, q, 0] as real) < threshold)
      {
        if (image[i, j, 0] as real) < threshold {
          forall c | 0 <= c < depth {
            result[i, j, c] := 0;
          }
        } else {
          forall c | 0 <= c < depth {
            result[i, j, c] := 255;
          }
        }
      }
    }
  }

  /** The output of algo1 is determined by the threshold, and raising the threshold
      only turns white pixels black. */
  lemma ThresholdMonotone(image: array3<int>, low: array3<int>, t1: real, high: array3<int>, t2: real)
    requires Thresholded(image, low, t1) && Thresholded(image, high, t2) && t1 <= t2
    ensures forall i, j, c :: 0 <= i < high.Length0 && 0 <= j < high.Length1 && 0 <= c < high.Length2 ==>
      (high[i, j, c] == 255 ==> low[i, j, c] == 255) && (t1 == t2 ==> high[i, j, c] == low[i, j, c])
  {
  }
}
