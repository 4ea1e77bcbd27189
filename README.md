# Binarisation routines of `serie3.py`, modelled in Dafny

`serie3.py` turns a grey-level image into a black-and-white one in three ways. This
project models and proves the three routines:

- `algo1` is a fixed threshold. Each pixel whose channel 0 is below the threshold
  becomes 0 (black). Every other pixel becomes 255 (white). The label is written to
  every channel.
- `otsu` is Otsu's global threshold. It takes a 255-bin histogram and appends a zero
  count, which gives 256 counts. It scans the 256 split indices and computes each
  split's class masses `p0` and `p1`. It then computes the class means `u0` and `u1`,
  each guarded against a zero weighted sum, and the between-class variance
  `p0*p1*(u0-u1)^2`. It keeps the first index of the largest variance. Finally it
  binarises the image with `algo1`, using that index as the intensity threshold.
- `bernsen` is Bernsen's local threshold. For each pixel it gathers the r x r window
  at offsets `(i-1+a, j-1+b)` and takes the window's largest and smallest values. When
  the window's contrast is below `l`, the pixel is compared with a background sentinel
  `k`: 0 for `bg == 'bright'`, 255 otherwise. Otherwise the pixel is compared with the
  midpoint of the largest and smallest values.

An image is an `array3<int>` of height x width x depth. Each routine allocates a fresh
result array and fills it in place, pixel by pixel, in nested loops, as the source does.
Each loop is proved against a per-pixel specification function:

- `Thresholded` for `algo1`;
- `OtsuThreshold` and `Variance` for `otsu`;
- `Window`, `WindowMax`, `WindowMin` and `BernsenPixel` for `bernsen`.

Files:

- `binarize.dfy`: module `Binarize`, for `algo1`.
- `otsu.dfy`: module `Otsu`, the variance scan and its specification.
- `otsu_properties.dfy`: module `OtsuProperties`, lemmas about the selection.
- `bernsen.dfy`: module `Bernsen`, the window, the per-pixel rule and the loops.
- `bernsen_properties.dfy`: module `BernsenProperties`, lemmas about the labels.

## Behaviour worth knowing

- **Bernsen window at the top and left edges.** The test for negative offsets at
  serie3.py:83-84 does nothing. So row -1 and column -1 reach `image[-1]`, which
  Python reads as the last row or column. The model wraps these offsets, and
  `Bernsen.WrapAtTopLeft` proves that the window of pixel (0, 0) holds the
  bottom-right pixel. Offsets past the bottom or right edge are dropped, as the
  `else` at serie3.py:85-88 does.
- **Guard on the Otsu class means.** The code guards each class mean on its weighted
  sum, not on the class count (serie3.py:53-60). `Otsu.ClassMeanIsAverage` proves
  that the two guards agree. An empty class has weighted sum 0
  (`Otsu.EmptyClassHasNoMoment`), so the code never divides by zero.
- **Otsu threshold.** The threshold handed to `algo1` is the bin index itself, not the
  bin edge `bins[t]`. The two coincide only when the edges are 0, 1, ..., 255.
  `Otsu.OtsuBinarize` states the comparison against the index.
- **Bernsen with an empty window.** When the image has a pixel and `r < 1`, `max` of
  the empty window raises `ValueError`. The model returns `None` in that case.

## Model

| member | source | states |
|---|---|---|
| Binarize.Algo1 | serie3.py:19-27 | The result is a fresh array with the input's height, width and depth. Every channel of pixel (i, j) is 0 or 255, and it is 0 exactly when channel 0 of input pixel (i, j) is below the threshold. |
| Binarize.ThresholdMonotone | serie3.py:24-27 | The binarisation is determined by the threshold. Raising the threshold can only turn white pixels black, never the reverse. |
| Otsu.EmptyClassHasNoMoment | serie3.py:52-60 | A class with no pixel has weighted sum 0. So the guard on `u0 == 0` / `u1 == 0` also rules out a division by a zero count. |
| Otsu.ClassMeanIsAverage | serie3.py:52-60 | The guarded mean is 0 for an empty class. Otherwise it is the class's weighted sum divided by its count, the usual class mean. |
| Otsu.SeqMax | serie3.py:65 | `max(variance_list)` is an element of the list and no element exceeds it. |
| Otsu.IndexOf | serie3.py:65 | `list.index` returns a position holding the value, and no earlier position holds it. |
| Otsu.OtsuThreshold | serie3.py:38-65 | The selected index lies in [0, len(bins)). Its variance is at least that of every index and strictly greater than that of every smaller index, so it is the first maximum. |
| Otsu.SplitVariance | serie3.py:39-62 | One pass of the scan computes exactly `Variance(c, bins, i)`. The loops compute `u0` and `u1` as the weighted sums below and from `i`, the guarded divisions give the class means, and the result is `p0*p1*(u0-u1)^2`. |
| Otsu.ScanVariances | serie3.py:38-63 | `variance_list` holds the variance of every split index in index order, one per bin edge. |
| Otsu.OtsuBinarize | serie3.py:32-67 | After the zero sentinel is appended, the returned threshold is `OtsuThreshold` of the 256 counts and edges. The result is the input binarised by `algo1` at that index. |
| OtsuProperties.MassesSumToOne | serie3.py:39-40 | For every split index of a non-empty image, `p0 + p1 = 1`. |
| OtsuProperties.ClassesScore | serie3.py:62 | Classes of non-negative mass score a variance of at least 0. Two non-empty classes with distinct means score strictly above 0. |
| OtsuProperties.VarianceNonNegative | serie3.py:39-62 | Every variance in `variance_list` is non-negative. |
| OtsuProperties.VarianceVanishesAtEnds | serie3.py:36-40 | Index 0 has variance 0 because `p0` is 0. The last index has variance 0 because the appended zero count makes `p1` 0. |
| OtsuProperties.FlatScanSelectsZero | serie3.py:65 | When every variance is 0, the selected index is 0. |
| OtsuProperties.SingleIntensitySelectsZero | serie3.py:38-65 | With a single non-empty bin, every split has variance 0 and the selected index is 0. |
| OtsuProperties.TwoClusterSplit | serie3.py:39-62 | With exactly two non-empty bins a < b, a split outside (a, b] has variance 0. Every split in (a, b] has the same variance, computed from the two bins' masses and edges. |
| OtsuProperties.TwoClustersSplitBetween | serie3.py:38-65 | With exactly two non-empty bins a < b at distinct edges, the selected index is a + 1, the first split that separates them. |
| Bernsen.SeqMax | serie3.py:90 | `max(elem)` is an element of the list and no element exceeds it. |
| Bernsen.SeqMin | serie3.py:91 | `min(elem)` is an element of the list and no element is below it. |
| Bernsen.WindowLength | serie3.py:80-88 | The window holds one value per kept row offset times kept column offset. It is empty exactly when r < 1. |
| Bernsen.WindowMembers | serie3.py:80-88 | A value is in the window exactly when it is the pixel at some row i-1 .. i-2+r and column j-1 .. j-2+r that lies before the bottom and right edges. Row and column -1 wrap to the last row and column. |
| Bernsen.CentreInWindow | serie3.py:81-88 | With r >= 2 a pixel is part of its own window. |
| Bernsen.WrapAtTopLeft | serie3.py:83-88 | The window of pixel (0, 0) holds the bottom-right pixel of the image. |
| Bernsen.LabelRule | serie3.py:92-102 | Each label is 0 or 255. Below the contrast bound, a pixel is 0 exactly when it is below `k`. Otherwise it is 0 exactly when twice the pixel is below max + min, which is the float comparison with `(max+min)/2`. |
| Bernsen.GatherWindow | serie3.py:80-88 | The double loop over a, b builds exactly `Window(image, i, j, r)`, in order. |
| Bernsen.LabelPixel | serie3.py:90-102 | One pixel's step gives `None` (the `ValueError` of `max([])`) exactly when r < 1. Otherwise it gives `BernsenPixel`. |
| Bernsen.LabelRow | serie3.py:79-102 | The inner loop over j labels every pixel of row i with `BernsenPixel` in every channel, and leaves the other rows unchanged. It fails exactly when r < 1 and the row has a pixel. |
| Bernsen.BernsenBinarize | serie3.py:71-102 | The result is `None` exactly when the image has a pixel and r < 1. Otherwise it is a fresh array of the input's shape in which every channel of every pixel is `BernsenPixel`, with `k` 0 for `bg == "bright"` and 255 otherwise. |
| BernsenProperties.LabelledIsBinary | serie3.py:99-102 | Every value of the output is 0 or 255. |
| BernsenProperties.LowContrastFollowsBackground | serie3.py:74-99 | In a window of contrast below `l`, a pixel of 0..255 is always white for a bright background. Otherwise it is black unless it is 255. |
| BernsenProperties.ContrastedWindowSplitsAtMidpoint | serie3.py:92-99 | In a window of contrast at least `l`, a pixel is black exactly when it is below the midpoint of the window's largest and smallest values. |
| BernsenProperties.LocalMinimumIsBlack | serie3.py:90-100 | With r >= 2 and contrast at least l >= 1, a pixel no brighter than anything in its window is black. |
| BernsenProperties.LocalMaximumIsWhite | serie3.py:90-102 | With r >= 2, a pixel no darker than anything in its window is white when the window's contrast reaches `l` or the pixel reaches `k`. |
| BernsenProperties.FlatWindow | serie3.py:80-88 | In an image of one intensity `v`, every value of every window is `v`. |
| BernsenProperties.FlatImageIsUniform | serie3.py:78-102 | An image of one intensity `v` is labelled uniformly. It is black when `l > 0` and `v < k`, and white otherwise. So with a bright background an image of one intensity in 0..255 turns white. |

## Left out

- File I/O: `Image.open`, `Image.fromarray` and `.save` (serie3.py:9, 28-29, 103-104). Each routine returns its result array instead of writing a file.
- `rgb_to_grayscale` (serie3.py:8-15) decodes an image file and averages in floating point. The routines take the grey-level array as given.
- `np.histogram` (serie3.py:35) is a library call. `Otsu.OtsuBinarize` takes its 255 counts and 256 bin edges as inputs, so the model does not relate them to the image's pixels.
- Floating point. `otsu` is modelled in exact real arithmetic, without rounding and without near-ties between variances. `Otsu.OtsuBinarize` requires at least one counted pixel, since an empty image gives a NaN in the source.
- The `uint8` element type. Pixels are unbounded integers, so the `int(...)` conversions at serie3.py:92-93 need no modelling. The output values 0 and 255 fit the type.
- The script driver at serie3.py:107-111, with its hard-coded file names and parameters.
- An image that has pixels but depth 0. There `image[i][j][0]` raises IndexError, and `Algo1`, `OtsuBinarize` and `BernsenBinarize` require a channel 0 (`HasChannelZero`) instead of modelling that error. `rgb_to_grayscale` always produces a 3-D array with at least one channel, so every call in the script meets the requirement.
