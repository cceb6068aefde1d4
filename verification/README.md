# Pixel-buffer algorithms, modelled in Dafny

This project models the pixel-buffer algorithm library of the browser image
sandbox `computer_vision/task_1__image-historgram/js/`. It covers:

- the filters in `algorithms/filters/`: averaging, Gaussian blur, sharpening,
  median, Sobel edge detection, saturation, contrast, thresholding and
  brightness;
- the grayscale conversion in `algorithms/color/`;
- the colour histograms and image statistics in `algorithms/analysis/`;
- `createHistogram` in `utils/imageProcessing.js`.

Every one of these works on an `ImageData`: `width`, `height`, and a
row-major buffer of R, G, B, A bytes, four per pixel. In the model this is
`PixelBuffer.Image(width, height, data: seq<int>)`. `Valid` requires
`|data| == width * height * 4` with every entry in 0..255. `Get(img, x, y, c)`
reads one channel and gives 0 outside the image.

Every filter is a pure function. It defines each output byte from the input
buffer, through `BuildImage(width, height, f)`. The source's loops write in
place but read from a copy (`originalData`) taken before the loops, so the
pointwise definition is what they compute. Two methods prove this link for
the in-place forms:

- `AveragingInPlace.ApplyAveragingFilterInPlace` is an array scan that reads
  the snapshot and writes the buffer, with loop invariants. It returns
  exactly `ApplyAveragingFilter`.
- `Grayscale.ConvertToGrayscaleInPlace` steps one pixel (four bytes) at a
  time, writing R, G and B and never alpha, with no copy. It returns exactly `ConvertToGrayscale`.

Numbers are exact reals and unbounded integers (module `Numeric`):

- `Math.round` is `RoundHalfUp`: the integer in `(x - 1/2, x + 1/2]`.
- A store of a fractional or out-of-range number into a `Uint8ClampedArray`
  is `ClampStore`. This is ToUint8Clamp from section 7.1.12 of ECMA-262:
  saturate to [0, 255], then round half to even.
- `Math.max(0, Math.min(255, x))` followed by such a store is
  `StoreClamped`.
- `Math.exp` and `Math.sqrt` are function parameters `exp` and `sqrt`.
  Only `PositiveExp` is assumed of `exp`. Only `RootLike` is assumed of
  `sqrt`: non-negative on non-negative arguments, and `sqrt(0) = 0`.

Behaviours of the code worth noting:

- Even kernel sizes are not rejected by the code.
  - The blur then indexes past its kernel. The model makes an odd
    `kernelSize` a precondition.
  - The median filter works with them: it gathers a `(2r + 1)^2` window with
    `r = floor(kernelSize / 2)`. The model does the same.
- The tone maps do not round before clamping. Sharpening, saturation,
  contrast and brightness clamp a fractional value with
  `Math.max`/`Math.min` and store it. The store then rounds half to even,
  so contrast factor 0 gives 128 (`ContrastZeroFlat`).

## Model

| member | source | states |
|---|---|---|
| Numeric.RoundHalfUp | computer_vision/task_1__image-historgram/js/algorithms/filters/averaging.js:42-44 | `Math.round(x)` is the integer within (x - 1/2, x + 1/2] |
| Numeric.ClampStore | computer_vision/task_1__image-historgram/js/algorithms/filters/contrast.js:27 | a store into the byte buffer saturates at 0 and 255, lands within 1/2 of an in-range value, and takes the even neighbour at an exact half |
| Numeric.ClampStoreOfClamp | computer_vision/task_1__image-historgram/js/algorithms/filters/sharpening.js:45-47 | the explicit `Math.max(0, Math.min(255, ·))` before a store changes nothing the store would not |
| Numeric.ClampStoreMonotone | computer_vision/task_1__image-historgram/js/algorithms/filters/brightness.js:21 | the byte store is monotone |
| Numeric.StoreClampedByte | computer_vision/task_1__image-historgram/js/algorithms/filters/brightness.js:21 | storing a byte value through the clamp stores it exactly |
| PixelBuffer.BuildImage | computer_vision/task_1__image-historgram/js/algorithms/filters/averaging.js:13-14 | the built buffer is well formed, of the given size, and holds `f(x, y, c)` at every channel of every pixel |
| PixelBuffer.Extensionality | computer_vision/task_1__image-historgram/js/algorithms/filters/averaging.js:47-52 | two well-formed buffers of one size that agree on every pixel channel are the same buffer |
| Averaging.ApplyAveragingFilter | computer_vision/task_1__image-historgram/js/algorithms/filters/averaging.js:13-52 | every pixel, border included, gets in each colour channel the rounded mean of that channel over the clipped 3x3 box of the input; alpha is copied; the result is a well-formed buffer of the same size |
| Averaging.ClippedBoxShape | computer_vision/task_1__image-historgram/js/algorithms/filters/averaging.js:16-24 | the clipped box is exactly the image pixels at most one step away; on an image of at least 2x2 it holds 4 pixels at a corner, 6 on an edge and 9 inside |
| Averaging.AverageWithinBounds | computer_vision/task_1__image-historgram/js/algorithms/filters/averaging.js:32-44 | if a channel lies in [lo, hi] over the clipped box, the rounded mean does too |
| Averaging.AveragingWithinWindow | computer_vision/task_1__image-historgram/js/algorithms/filters/averaging.js:42-50 | each output colour channel lies between the smallest and the largest value of its clipped window |
| Averaging.AveragingUniformFixedPoint | computer_vision/task_1__image-historgram/js/algorithms/filters/averaging.js:32-52 | an image of one colour is a fixed point of the filter |
| Averaging.RowSumBounds | computer_vision/task_1__image-historgram/js/algorithms/filters/averaging.js:33-38 | a box row whose samples lie in [lo, hi] sums to between `n lo` and `n hi` |
| Averaging.BoxSumBounds | computer_vision/task_1__image-historgram/js/algorithms/filters/averaging.js:32-39 | box rows that each sum within bounds give a box sum within the scaled bounds |
| AveragingInPlace.ApplyAveragingFilterInPlace | computer_vision/task_1__image-historgram/js/algorithms/filters/averaging.js:6-57 | the in-place scan, reading the snapshot, returns exactly the pointwise filtered image, in the source's row-major order |
| AveragingInPlace.FilterRow | computer_vision/task_1__image-historgram/js/algorithms/filters/averaging.js:14-53 | one pass of the `x` loop extends the finished prefix of the buffer by one row and leaves the rest as it was |
| AveragingInPlace.BoxAverage | computer_vision/task_1__image-historgram/js/algorithms/filters/averaging.js:16-44 | the three box loops and the division give the filter's value for each colour channel |
| AveragingInPlace.BoxSums | computer_vision/task_1__image-historgram/js/algorithms/filters/averaging.js:32-39 | the nested box loops compute the channel sums over the box |
| AveragingInPlace.RowSums | computer_vision/task_1__image-historgram/js/algorithms/filters/averaging.js:33-38 | the inner box loop computes the channel sums over one row of the box |
| AveragingInPlace.WriteStep | computer_vision/task_1__image-historgram/js/algorithms/filters/averaging.js:47-52 | writing the three averages and the snapshot's alpha at a pixel extends the finished prefix by that pixel |
| Convolution.WindowFits | computer_vision/task_1__image-historgram/js/algorithms/filters/gaussianBlur.js:55-58 | the window around any pixel has the kernel's shape, so every kernel cell weighs one sample |
| Convolution.Sum2OfThree | computer_vision/task_1__image-historgram/js/algorithms/filters/sharpening.js:28-37 | the total weight of a 3x3 kernel is the sum of its nine cells |
| GaussianBlur.KernelProportional | computer_vision/task_1__image-historgram/js/algorithms/filters/gaussianBlur.js:17-27 | the raw total is positive, and each normalised entry is its raw weight divided by that total |
| GaussianBlur.GenerateGaussianKernel | computer_vision/task_1__image-historgram/js/algorithms/filters/gaussianBlur.js:7-30 | the kernel is `size x size` with every entry positive; when it has at least one cell, its entries are non-negative and sum to 1 |
| GaussianBlur.RawKernelPositive | computer_vision/task_1__image-historgram/js/algorithms/filters/gaussianBlur.js:12-20 | with a positive `exp`, every raw weight is positive |
| GaussianBlur.NormaliseFacts | computer_vision/task_1__image-historgram/js/algorithms/filters/gaussianBlur.js:22-27 | dividing positive weights by their total gives positive weights that sum to 1 |
| GaussianBlur.KernelRadial | computer_vision/task_1__image-historgram/js/algorithms/filters/gaussianBlur.js:9-17 | two cells at the same squared distance from the centre carry the same weight |
| GaussianBlur.KernelSymmetric | computer_vision/task_1__image-historgram/js/algorithms/filters/gaussianBlur.js:9-17 | an odd-sized kernel satisfies `k[i][j] = k[j][i] = k[size-1-i][j] = k[i][size-1-j]` |
| GaussianBlur.ApplyGaussianBlur | computer_vision/task_1__image-historgram/js/algorithms/filters/gaussianBlur.js:39-77 | pixels within `radius = floor(kernelSize / 2)` of an edge keep all four bytes; each interior colour channel is the rounded kernel-weighted sum of its input window; alpha is copied |
| GaussianBlur.BlurWithin | computer_vision/task_1__image-historgram/js/algorithms/filters/gaussianBlur.js:55-70 | with non-negative weights summing to 1, the blurred value lies within the window's range |
| GaussianBlur.BlurPixelIsByte | computer_vision/task_1__image-historgram/js/algorithms/filters/gaussianBlur.js:68-70 | a normalised kernel keeps every written value a byte |
| GaussianBlur.BlurWithinWindow | computer_vision/task_1__image-historgram/js/algorithms/filters/gaussianBlur.js:41-70 | each blurred interior channel lies between the smallest and the largest value of its window |
| GaussianBlur.BlurUniformWindow | computer_vision/task_1__image-historgram/js/algorithms/filters/gaussianBlur.js:55-70 | an interior pixel whose window holds one value keeps it |
| GaussianBlur.BlurSmallImageUnchanged | computer_vision/task_1__image-historgram/js/algorithms/filters/gaussianBlur.js:45-49 | if `width <= 2 radius` or `height <= 2 radius`, the buffer comes back unchanged |
| Sharpening.LaplacianSumsToOne | computer_vision/task_1__image-historgram/js/algorithms/filters/sharpening.js:14-18 | the kernel's weights sum to 1 |
| Sharpening.ApplySharpening | computer_vision/task_1__image-historgram/js/algorithms/filters/sharpening.js:7-55 | the outer one-pixel ring keeps all four bytes; each interior colour channel is `clamp(centre + (sum - centre) * factor)` from the input, stored as a byte; alpha is copied |
| Sharpening.BlendUniform | computer_vision/task_1__image-historgram/js/algorithms/filters/sharpening.js:28-45 | on a 3x3 neighbourhood of one value `v`, the blended value before the clamp is `v` for any factor |
| Sharpening.SharpenUniformWindow | computer_vision/task_1__image-historgram/js/algorithms/filters/sharpening.js:14-47 | an interior pixel whose 3x3 neighbourhood holds one value keeps it, whatever the factor |
| Sharpening.SharpenZeroFactorIdentity | computer_vision/task_1__image-historgram/js/algorithms/filters/sharpening.js:45-47 | factor 0 leaves the image as it was |
| MedianFilter.MedianWindow | computer_vision/task_1__image-historgram/js/algorithms/filters/medianFilter.js:23-30 | the window holds `(2 radius + 1)^2` values of one channel |
| MedianFilter.WindowFrom | computer_vision/task_1__image-historgram/js/algorithms/filters/medianFilter.js:23-30 | every window value is read from a pixel of the square around the centre |
| MedianFilter.WindowLength | computer_vision/task_1__image-historgram/js/algorithms/filters/medianFilter.js:12-30 | an odd kernel size `k` gathers exactly `k * k` values per channel |
| MedianFilter.MedianOf | computer_vision/task_1__image-historgram/js/algorithms/filters/medianFilter.js:33-37 | the element at index `floor(N / 2)` of the ascending sort occurs in the window |
| MedianFilter.MedianRank | computer_vision/task_1__image-historgram/js/algorithms/filters/medianFilter.js:33-43 | at least `floor(N / 2) + 1` window values are at most the median, and at least `N - floor(N / 2)` are at least it |
| MedianFilter.MedianBetween | computer_vision/task_1__image-historgram/js/algorithms/filters/medianFilter.js:33-43 | the median lies within any bounds of the window values |
| MedianFilter.ApplyMedianFilter | computer_vision/task_1__image-historgram/js/algorithms/filters/medianFilter.js:7-49 | pixels within `radius` of an edge keep all four bytes; each interior colour channel is the median of that channel's window in the input; alpha is copied |
| MedianFilter.MedianWithinWindow | computer_vision/task_1__image-historgram/js/algorithms/filters/medianFilter.js:33-43 | each filtered interior channel lies between the smallest and the largest value of its window |
| MedianFilter.MedianUniformWindow | computer_vision/task_1__image-historgram/js/algorithms/filters/medianFilter.js:33-43 | an interior pixel whose window holds one value keeps it |
| MedianFilter.MedianChannelLocal | computer_vision/task_1__image-historgram/js/algorithms/filters/medianFilter.js:18-43 | two inputs that agree on channel `c` over a window give the same output in channel `c` there |
| MedianFilter.MedianSmallImageUnchanged | computer_vision/task_1__image-historgram/js/algorithms/filters/medianFilter.js:12-16 | an image with no interior pixel comes back unchanged |
| Sorting.Sort | computer_vision/task_1__image-historgram/js/algorithms/filters/medianFilter.js:33-35 | the sort result is ascending and a permutation of its input |
| Sorting.SortedUnique | computer_vision/task_1__image-historgram/js/algorithms/filters/medianFilter.js:33-35 | two ascending sequences holding the same values are equal, so any correct sort gives the same median |
| Sorting.CountSort | computer_vision/task_1__image-historgram/js/algorithms/filters/medianFilter.js:33-35 | sorting changes no count of values at most or at least a bound |
| Sorting.SortedAtMost | computer_vision/task_1__image-historgram/js/algorithms/filters/medianFilter.js:37-41 | in an ascending sequence, at least `m + 1` values are at most `s[m]` |
| Sorting.SortedAtLeast | computer_vision/task_1__image-historgram/js/algorithms/filters/medianFilter.js:37-41 | in an ascending sequence, at least `N - m` values are at least `s[m]` |
| EdgeDetection.SobelSumsToZero | computer_vision/task_1__image-historgram/js/algorithms/filters/edgeDetection.js:13-23 | both Sobel kernels weigh to 0 |
| EdgeDetection.Magnitude2 | computer_vision/task_1__image-historgram/js/algorithms/filters/edgeDetection.js:43 | `gx^2 + gy^2` is never negative, so the square root is taken of a valid argument |
| EdgeDetection.EdgeValue | computer_vision/task_1__image-historgram/js/algorithms/filters/edgeDetection.js:43-46 | `min(255, round(sqrt(gx^2 + gy^2)))` is a byte |
| EdgeDetection.ApplyEdgeDetection | computer_vision/task_1__image-historgram/js/algorithms/filters/edgeDetection.js:6-58 | the outer ring keeps all four bytes; each interior pixel gets the edge value in R, G and B; alpha is copied |
| EdgeDetection.EdgeOutputGray | computer_vision/task_1__image-historgram/js/algorithms/filters/edgeDetection.js:49-52 | every interior output pixel has R = G = B |
| EdgeDetection.FlatGradients | computer_vision/task_1__image-historgram/js/algorithms/filters/edgeDetection.js:32-40 | on a neighbourhood of one gray value, both gx and gy are 0 |
| EdgeDetection.EdgeFlatWindow | computer_vision/task_1__image-historgram/js/algorithms/filters/edgeDetection.js:13-46 | a pixel whose neighbourhood has one gray value gets edge value 0 |
| Saturation.ApplySaturationAdjustment | computer_vision/task_1__image-historgram/js/algorithms/filters/saturation.js:7-38 | every colour channel becomes `clamp(gray + (v - gray) * (1 + factor / 100))` with `gray = (r + g + b) / 3`, stored as a byte; alpha is copied at every pixel |
| Saturation.SaturateKeepsMean | computer_vision/task_1__image-historgram/js/algorithms/filters/saturation.js:27-32 | before the clamp, the three adjusted channels keep the pixel's gray value as their mean |
| Saturation.SaturateGray | computer_vision/task_1__image-historgram/js/algorithms/filters/saturation.js:27-32 | before the clamp, a channel of a gray pixel is its own value |
| Saturation.SaturationKeepsGray | computer_vision/task_1__image-historgram/js/algorithms/filters/saturation.js:27-32 | a gray pixel (r = g = b) keeps its colour for any factor |
| Saturation.SaturationMinusHundredGray | computer_vision/task_1__image-historgram/js/algorithms/filters/saturation.js:14-32 | factor -100 makes R = G = B at every pixel |
| Saturation.SaturationZeroIdentity | computer_vision/task_1__image-historgram/js/algorithms/filters/saturation.js:7-32 | the default factor 0 leaves the image as it was |
| Contrast.StretchAboutMidGray | computer_vision/task_1__image-historgram/js/algorithms/filters/contrast.js:21-24 | the stretch in [0, 1] is the line through 127.5 with slope `factor` on the byte scale |
| Contrast.ApplyContrastAdjustment | computer_vision/task_1__image-historgram/js/algorithms/filters/contrast.js:7-34 | every colour channel becomes `clamp(((v / 255 - 0.5) * factor + 0.5) * 255)`, stored as a byte; alpha is copied at every pixel |
| Contrast.ContrastMonotone | computer_vision/task_1__image-historgram/js/algorithms/filters/contrast.js:24-27 | for `factor >= 0` the map never turns a brighter channel darker |
| Contrast.ContrastZeroFlat | computer_vision/task_1__image-historgram/js/algorithms/filters/contrast.js:24-27 | factor 0 maps every channel to 128: 127.5 stored rounds to the even neighbour |
| Contrast.ContrastOneIdentity | computer_vision/task_1__image-historgram/js/algorithms/filters/contrast.js:24-27 | factor 1 leaves the image as it was |
| Brightness.ApplyBrightnessAdjustment | computer_vision/task_1__image-historgram/js/algorithms/filters/brightness.js:7-29 | every colour channel becomes `clamp(v + factor)`, stored as a byte; alpha is copied at every pixel |
| Brightness.BrightenWholeOffset | computer_vision/task_1__image-historgram/js/algorithms/filters/brightness.js:21 | for a whole-number offset `k` the stored value is `max(0, min(255, v + k))` |
| Brightness.BrightenDirection | computer_vision/task_1__image-historgram/js/algorithms/filters/brightness.js:21 | the output is at least `v` when `factor >= 0` and at most `v` when `factor <= 0` |
| Brightness.BrightenMonotone | computer_vision/task_1__image-historgram/js/algorithms/filters/brightness.js:21 | a brighter input channel never gives a darker output |
| Brightness.BrightnessZeroIdentity | computer_vision/task_1__image-historgram/js/algorithms/filters/brightness.js:7-21 | the default offset 0 leaves the image as it was |
| Thresholding.ApplyThresholding | computer_vision/task_1__image-historgram/js/algorithms/filters/thresholding.js:7-32 | R, G and B of every pixel become 255 if the RGB mean is above the threshold and 0 otherwise; alpha is copied |
| Thresholding.ThresholdBinaryGray | computer_vision/task_1__image-historgram/js/algorithms/filters/thresholding.js:22-27 | every output colour channel is 0 or 255, and R = G = B |
| Thresholding.ThresholdWhiteIff | computer_vision/task_1__image-historgram/js/algorithms/filters/thresholding.js:19-22 | a pixel turns white exactly when `r + g + b > 3 * threshold`: a strict test on the arithmetic mean |
| Thresholding.ThresholdDefaultWhiteIff | computer_vision/task_1__image-historgram/js/algorithms/filters/thresholding.js:7-22 | under the default threshold 128, a pixel turns white exactly when `r + g + b >= 385` |
| Thresholding.ThresholdMonotone | computer_vision/task_1__image-historgram/js/algorithms/filters/thresholding.js:19-22 | a pixel with a larger channel sum never maps lower |
| Grayscale.LuminanceWithin | computer_vision/task_1__image-historgram/js/algorithms/color/grayscale.js:11-15 | the weights sum to 1: the luminance lies within any bounds of R, G and B |
| Grayscale.GrayOf | computer_vision/task_1__image-historgram/js/algorithms/color/grayscale.js:11-15 | `round(0.299 R + 0.587 G + 0.114 B)` of bytes is a byte |
| Grayscale.GrayOfGray | computer_vision/task_1__image-historgram/js/algorithms/color/grayscale.js:11-18 | a gray colour (v, v, v) converts to v |
| Grayscale.ConvertToGrayscale | computer_vision/task_1__image-historgram/js/algorithms/color/grayscale.js:9-18 | R, G and B of every pixel become its gray value; alpha is never changed |
| Grayscale.GrayscaleIdempotent | computer_vision/task_1__image-historgram/js/algorithms/color/grayscale.js:11-18 | converting twice gives the same as converting once |
| Grayscale.ConvertedAt | computer_vision/task_1__image-historgram/js/algorithms/color/grayscale.js:9-18 | at offsets `i..i+2` of a pixel the converted buffer holds the gray value of the input's bytes there, and offset `i+3` is unchanged |
| Grayscale.ConvertToGrayscaleInPlace | computer_vision/task_1__image-historgram/js/algorithms/color/grayscale.js:6-22 | the in-place update with no snapshot returns exactly the pointwise conversion |
| Grayscale.ConvertInPlace | computer_vision/task_1__image-historgram/js/algorithms/color/grayscale.js:9-19 | the loop over whole pixels, each step reading only the pixel it writes, produces the target buffer |
| Tallies.TallyCounts | computer_vision/task_1__image-historgram/js/algorithms/analysis/colorHistogram.js:19-23 | bucket `v` holds the number of occurrences of `v` |
| Tallies.TallyTotal | computer_vision/task_1__image-historgram/js/algorithms/analysis/colorHistogram.js:19-23 | each value lands in exactly one bucket: the buckets sum to the number of values |
| Tallies.TallyPrefix | computer_vision/task_1__image-historgram/js/algorithms/analysis/colorHistogram.js:50-54 | the first `i + 1` buckets sum to the number of values at most `i` |
| Tallies.CumulativePrefix | computer_vision/task_1__image-historgram/js/algorithms/analysis/colorHistogram.js:50-54 | entry `i` of the running sums (`c[0] = h[0]`, `c[i] = c[i-1] + h[i]`) is the sum of the first `i + 1` buckets |
| ColorHistogram.CalculateColorHistograms | computer_vision/task_1__image-historgram/js/algorithms/analysis/colorHistogram.js:6-34 | each channel has 256 buckets, and bucket `v` is the number of pixels whose value in that channel is `v`, divided by `width * height` |
| ColorHistogram.ShareFacts | computer_vision/task_1__image-historgram/js/algorithms/analysis/colorHistogram.js:19-31 | dividing the tally of a channel by the pixel count gives, in bucket `v`, the share of values equal to `v` |
| ColorHistogram.RawCountsTotal | computer_vision/task_1__image-historgram/js/algorithms/analysis/colorHistogram.js:19-23 | before normalisation each channel's counts add up to `width * height` |
| ColorHistogram.HistogramBucketBounds | computer_vision/task_1__image-historgram/js/algorithms/analysis/colorHistogram.js:26-31 | every normalised bucket lies in [0, 1] |
| ColorHistogram.HistogramSumsToOne | computer_vision/task_1__image-historgram/js/algorithms/analysis/colorHistogram.js:26-31 | the normalised buckets of each channel sum to 1 |
| ColorHistogram.CalculateCumulativeHistograms | computer_vision/task_1__image-historgram/js/algorithms/analysis/colorHistogram.js:41-57 | each channel has 256 entries, and entry `i` is the number of pixels whose value in that channel is at most `i`, divided by the pixel count |
| ColorHistogram.CumulativeFacts | computer_vision/task_1__image-historgram/js/algorithms/analysis/colorHistogram.js:50-54 | running sums of bucket shares are the shares of values at most each index |
| ColorHistogram.CumulativeMonotone | computer_vision/task_1__image-historgram/js/algorithms/analysis/colorHistogram.js:50-54 | the cumulative histogram never decreases |
| ColorHistogram.CumulativeLast | computer_vision/task_1__image-historgram/js/algorithms/analysis/colorHistogram.js:50-54 | the last cumulative entry is 1 |
| ImageStats.AccumulateTotals | computer_vision/task_1__image-historgram/js/algorithms/analysis/imageStats.js:20-26 | the pass leaves the sum of the values in `sum` and the sum of their squares in `sumSquared` |
| ImageStats.ExtremesOfPass | computer_vision/task_1__image-historgram/js/algorithms/analysis/imageStats.js:13-28 | starting from min 255 and max 0, after the pass `min <= v <= max` for every value, and both are attained when there is a value |
| ImageStats.SumWithin | computer_vision/task_1__image-historgram/js/algorithms/analysis/imageStats.js:25 | values within [lo, hi] sum to between `N lo` and `N hi` |
| ImageStats.SpreadNonNegative | computer_vision/task_1__image-historgram/js/algorithms/analysis/imageStats.js:25-26 | `N * sumSquared >= sum * sum` |
| ImageStats.ChannelTotals | computer_vision/task_1__image-historgram/js/algorithms/analysis/imageStats.js:20-26 | each channel's `sum` and `sumSquared` are the totals of its values and of their squares over every pixel |
| ImageStats.ChannelExtremes | computer_vision/task_1__image-historgram/js/algorithms/analysis/imageStats.js:13-28 | each channel's min and max bound every pixel's value and both occur |
| ImageStats.ChannelMeanWithin | computer_vision/task_1__image-historgram/js/algorithms/analysis/imageStats.js:34 | `mean = sum / N` lies between min and max |
| ImageStats.ChannelVarianceNonNegative | computer_vision/task_1__image-historgram/js/algorithms/analysis/imageStats.js:35 | the population variance `sumSquared / N - mean^2` is never negative |
| ImageStats.CalculateImageStats | computer_vision/task_1__image-historgram/js/algorithms/analysis/imageStats.js:6-51 | each channel's `sum` and `sumSquared` are the totals of its values and of their squares, its `min` and `max` bound every value and occur, its mean lies between them and its variance is not negative; overall brightness and dynamic range lie in [0, 255]; with a square root that is never negative on non-negative arguments, overall contrast is not negative |
| ImageStats.ChannelSummary | computer_vision/task_1__image-historgram/js/algorithms/analysis/imageStats.js:13-40 | the statistics of one channel summarise its values as above, and its `stdDev` is not negative under that square root |
| CreateHistogram.ScanFromMeans | computer_vision/task_1__image-historgram/js/utils/imageProcessing.js:62-68 | the breaking scan succeeds exactly when every pixel starting below `min(1000, data.length)` has R = G = B |
| CreateHistogram.AverageKey | computer_vision/task_1__image-historgram/js/utils/imageProcessing.js:78 | `round((r + g + b) / 3)` of bytes is always a bucket index |
| CreateHistogram.CreateHistogram | computer_vision/task_1__image-historgram/js/utils/imageProcessing.js:57-84 | 256 buckets; bucket `v` counts the pixels whose key is `v`, and the buckets sum to the pixel count |
| Tallies.TallyFacts | computer_vision/task_1__image-historgram/js/algorithms/analysis/colorHistogram.js:19-23 | every bucket of the tally counts its value, and the buckets sum to the number of values |
| CreateHistogram.GrayDecision | computer_vision/task_1__image-historgram/js/utils/imageProcessing.js:62-74 | the image counts as gray exactly when the scanned pixels (at most the first 250) are gray, and then every pixel, later ones included, is bucketed by its R byte |
| CreateHistogram.FullyGrayAgrees | computer_vision/task_1__image-historgram/js/utils/imageProcessing.js:70-80 | for an image gray at every pixel, both branches produce the same keys, hence the same histogram |

## Left out

- User interface, canvas and Chart.js helpers, tool wrappers, the network proxy and the browser tests are not part of this model. They are I/O and glue. The tests' noise-image checks are statistical.
- IEEE-754 arithmetic: the model computes with exact reals. The coefficients 0.299, 0.587 and 0.114, the divisions and the weighted sums carry no rounding error, so a floating-point result that falls just beside a `.5` tie may round differently in the program.
- `Math.exp` and `Math.sqrt` are parameters. Only positivity of `exp`, and non-negativity and `sqrt(0) = 0` of `sqrt`, are assumed, so no lemma states a numeric value of a kernel weight, an edge magnitude or a standard deviation.
- Degenerate inputs the code does not guard become preconditions. The model does not give them a behaviour:
  - `sigma = 0` makes every weight NaN;
  - an even `kernelSize` makes the blur index past its kernel;
  - `width * height = 0` makes the histograms and statistics divide 0 by 0.
- Default arguments are the caller's choice in the model: sharpening factor 1, median `kernelSize` 3, blur `kernelSize` 5 with `sigma` 1.5, contrast factor 1.5, brightness and saturation factor 0. Only the default threshold 128 is a named constant (`Thresholding.DefaultThreshold`). The identity lemmas use the values 0 and 1 directly.
- Options are exact reals, so a JavaScript value such as `NaN` or `Infinity` for a factor is not modelled.
- Ordering through `Array.prototype.sort` with the comparator `(a, b) => a - b` is modelled by an insertion sort. `Sorting.SortedUnique` shows that any ascending permutation is the same sequence.
- Histogram buckets are exact reals. The source's normalised buckets are floating-point quotients, so `ColorHistogram.HistogramSumsToOne` and `ColorHistogram.CumulativeLast` hold exactly only in the model.
- The analyses only read the buffer. The model expresses this by making them pure functions of the image. No separate lemma states it.
