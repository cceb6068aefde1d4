/**
 * Thresholding: every pixel whose RGB mean `(r + g + b) / 3` is strictly
 * above `threshold` becomes white, every other pixel black; alpha is copied.
 */
module Thresholding {
  import opened PixelBuffer

  /** The threshold `applyThresholding` uses when the caller gives none. */
  const DefaultThreshold: real := 128.0

  /** `gray > threshold ? 255 : 0`. */
  function BinaryValue(img: Image, threshold: real, x: int, y: int): int
  {
    if RgbMean(img, x, y) > threshold then 255 else 0
  }

  function ThresholdPixel(img: Image, threshold: real, x: int, y: int, c: int): (v: int)
    ensures Valid(img) ==> IsByte(v)
  {
    if 0 <= c < 3 then BinaryValue(img, threshold, x, y) else Get(img, x, y, c)
  }

  /**
   * `applyThresholding(imageData, threshold)`: R, G and B of every pixel are
   * set to the pixel's binary value; alpha is copied.
   */
  function ApplyThresholding(img: Image, threshold: real): (r: Image)
    requires Valid(img)
    ensures Valid(r) && SameSize(r, img)
    ensures AlphaKept(img, r)
    ensures forall x, y, c | InImage(img, x, y) && 0 <= c < 3 ::
      Get(r, x, y, c) == BinaryValue(img, threshold, x, y)
  {
    BuildImage(img.width, img.height, (x, y, c) => ThresholdPixel(img, threshold, x, y, c))
  }

  /** The output is binary and gray: every colour channel is 0 or 255, and R = G = B. */
  lemma ThresholdBinaryGray(img: Image, threshold: real, x: int, y: int)
    requires Valid(img) && InImage(img, x, y)
    ensures var r := ApplyThresholding(img, threshold);
      && (forall c | 0 <= c < 3 :: Get(r, x, y, c) == 0 || Get(r, x, y, c) == 255)
      && Get(r, x, y, 0) == Get(r, x, y, 1) == Get(r, x, y, 2)
  {
  }

  /**
   * A pixel turns white exactly when `r + g + b > 3 * threshold`: the test is
   * on the arithmetic mean of the channels, strict, and not on luminance.
   */
  lemma ThresholdWhiteIff(img: Image, threshold: real, x: int, y: int, c: int)
    requires Valid(img) && InImage(img, x, y) && 0 <= c < 3
    ensures Get(ApplyThresholding(img, threshold), x, y, c) == 255
        <==> (Get(img, x, y, 0) + Get(img, x, y, 1) + Get(img, x, y, 2)) as real > 3.0 * threshold
  {
  }

  /** A pixel with a larger channel sum never maps to a darker value. */
  lemma ThresholdMonotone(a: Image, b: Image, threshold: real, x: int, y: int, u: int, v: int)
    requires Valid(a) && Valid(b) && InImage(a, x, y) && InImage(b, u, v)
    requires Get(a, x, y, 0) + Get(a, x, y, 1) + Get(a, x, y, 2) <= Get(b, u, v, 0) + Get(b, u, v, 1) + Get(b, u, v, 2)
    ensures Get(ApplyThresholding(a, threshold), x, y, 0) <= Get(ApplyThresholding(b, threshold), u, v, 0)
  {
  }

  /** Under the default threshold 128 a pixel turns white exactly when `r + g + b` is at least 385. */
  lemma ThresholdDefaultWhiteIff(img: Image, x: int, y: int, c: int)
    requires Valid(img) && InImage(img, x, y) && 0 <= c < 3
    ensures Get(ApplyThresholding(img, DefaultThreshold), x, y, c) == 255
        <==> Get(img, x, y, 0) + Get(img, x, y, 1) + Get(img, x, y, 2) >= 385
  {
    ThresholdWhiteIff(img, DefaultThreshold, x, y, c);
  }
}
