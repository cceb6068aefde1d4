/**
 * Saturation adjustment: every colour channel's distance from the pixel's
 * gray value `(r + g + b) / 3` is scaled by `1 + factor / 100`, the result
 * clamped to [0, 255] and stored as a byte; alpha is copied.
 */
module Saturation {
  import opened Numeric
  import opened PixelBuffer

  /** `1 + factor / 100`. */
  function Multiplier(factor: real): real { 1.0 + factor / 100.0 }

  /** `gray + (v - gray) * multiplier`, before the clamp, for channel `c` of pixel (x, y). */
  function Saturate(img: Image, factor: real, x: int, y: int, c: int): real
  {
    var gray := RgbMean(img, x, y);
    gray + (Get(img, x, y, c) as real - gray) * Multiplier(factor)
  }

  function SaturationPixel(img: Image, factor: real, x: int, y: int, c: int): (v: int)
    ensures Valid(img) ==> IsByte(v)
  {
    if 0 <= c < 3 then StoreClamped(Saturate(img, factor, x, y, c)) else Get(img, x, y, c)
  }

  /**
   * `applySaturationAdjustment(imageData, factor)`: every colour channel of
   * every pixel is pushed from or pulled toward the pixel's gray value and
   * clamped; alpha is copied.
   */
  function ApplySaturationAdjustment(img: Image, factor: real): (r: Image)
    requires Valid(img)
    ensures Valid(r) && SameSize(r, img)
    ensures AlphaKept(img, r)
    ensures forall x, y, c | InImage(img, x, y) && 0 <= c < 3 ::
      Get(r, x, y, c) == StoreClamped(Saturate(img, factor, x, y, c))
  {
    BuildImage(img.width, img.height, (x, y, c) => SaturationPixel(img, factor, x, y, c))
  }

  /** Before the clamp, the three adjusted channels keep the pixel's gray value as their mean. */
  lemma SaturateKeepsMean(img: Image, factor: real, x: int, y: int)
    ensures (Saturate(img, factor, x, y, 0) + Saturate(img, factor, x, y, 1) + Saturate(img, factor, x, y, 2)) / 3.0
         == RgbMean(img, x, y)
  {
    var g, m := RgbMean(img, x, y), Multiplier(factor);
    var r0, r1, r2 := Get(img, x, y, 0) as real, Get(img, x, y, 1) as real, Get(img, x, y, 2) as real;
    assert (r0 - g) + (r1 - g) + (r2 - g) == 0.0;
    assert (r0 - g) * m + (r1 - g) * m + (r2 - g) * m == ((r0 - g) + (r1 - g) + (r2 - g)) * m;
  }

  /** A channel at the gray value stays there, whatever the multiplier. */
  lemma NoDeviation(v: real, g: real, m: real)
    requires v == g
    ensures g + (v - g) * m == v
  {
  }

  /** Before the clamp, a channel of a gray pixel (R = G = B) is its own value. */
  lemma SaturateGray(img: Image, factor: real, x: int, y: int, c: int)
    requires 0 <= c < 3
    requires Get(img, x, y, 0) == Get(img, x, y, 1) == Get(img, x, y, 2)
    ensures Saturate(img, factor, x, y, c) == Get(img, x, y, c) as real
  {
    var v := Get(img, x, y, c) as real;
    var g := RgbMean(img, x, y);
    assert g == v;
    NoDeviation(v, g, Multiplier(factor));
  }

  /** A gray pixel (R = G = B) keeps its colour for every factor. */
  lemma SaturationKeepsGray(img: Image, factor: real, x: int, y: int, c: int)
    requires Valid(img) && InImage(img, x, y) && 0 <= c < 3
    requires Get(img, x, y, 0) == Get(img, x, y, 1) == Get(img, x, y, 2)
    ensures Get(ApplySaturationAdjustment(img, factor), x, y, c) == Get(img, x, y, c)
  {
    SaturateGray(img, factor, x, y, c);
    StoreClampedByte(Get(img, x, y, c));
  }

  /** Factor -100 (multiplier 0) turns every pixel gray: R = G = B. */
  lemma SaturationMinusHundredGray(img: Image, x: int, y: int)
    requires Valid(img) && InImage(img, x, y)
    ensures var r := ApplySaturationAdjustment(img, -100.0);
      Get(r, x, y, 0) == Get(r, x, y, 1) == Get(r, x, y, 2)
  {
    assert Multiplier(-100.0) == 0.0;
  }

  /** The default factor 0 (multiplier 1) leaves the image as it was. */
  lemma SaturationZeroIdentity(img: Image)
    requires Valid(img)
    ensures ApplySaturationAdjustment(img, 0.0) == img
  {
    var r := ApplySaturationAdjustment(img, 0.0);
    forall x, y, c | InImage(r, x, y) && IsChannel(c)
      ensures Get(r, x, y, c) == Get(img, x, y, c)
    {
      if c < 3 {
        assert Saturate(img, 0.0, x, y, c) == Get(img, x, y, c) as real;
        StoreClampedByte(Get(img, x, y, c));
      }
    }
    Extensionality(r, img);
  }
}
