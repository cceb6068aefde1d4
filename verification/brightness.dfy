/**
 * Brightness adjustment: `factor` is added to every colour channel of every
 * pixel, the sum clamped to [0, 255] and stored as a byte; alpha is copied.
 */
module Brightness {
  import opened Numeric
  import opened PixelBuffer

  /** `Math.max(0, Math.min(255, v + factor))` as stored. */
  function BrightenChannel(v: int, factor: real): int
  {
    StoreClamped(v as real + factor)
  }

  function BrightenPixel(img: Image, factor: real, x: int, y: int, c: int): (v: int)
    ensures Valid(img) ==> IsByte(v)
  {
    if 0 <= c < 3 then BrightenChannel(Get(img, x, y, c), factor) else Get(img, x, y, c)
  }

  /**
   * `applyBrightnessAdjustment(imageData, factor)`: every colour channel of
   * every pixel is offset by `factor` and clamped; alpha is copied.
   */
  function ApplyBrightnessAdjustment(img: Image, factor: real): (r: Image)
    requires Valid(img)
    ensures Valid(r) && SameSize(r, img)
    ensures AlphaKept(img, r)
    ensures forall x, y, c | InImage(img, x, y) && 0 <= c < 3 ::
      Get(r, x, y, c) == BrightenChannel(Get(img, x, y, c), factor)
  {
    BuildImage(img.width, img.height, (x, y, c) => BrightenPixel(img, factor, x, y, c))
  }

  /** For a whole-number offset the stored byte is the offset value clamped to [0, 255]. */
  lemma BrightenWholeOffset(v: int, k: int)
    requires IsByte(v)
    ensures BrightenChannel(v, k as real) == Max(0, Min(255, v + k))
  {
    var t := Max(0, Min(255, v + k));
    assert Clamp((v + k) as real) == t as real;
    ClampStoreByte(t);
  }

  /** A non-negative offset never darkens a channel, a non-positive one never brightens it. */
  lemma BrightenDirection(v: int, factor: real)
    requires IsByte(v)
    ensures factor >= 0.0 ==> BrightenChannel(v, factor) >= v
    ensures factor <= 0.0 ==> BrightenChannel(v, factor) <= v
  {
    StoreClampedByte(v);
    if factor >= 0.0 {
      StoreClampedMonotone(v as real, v as real + factor);
    } else {
      StoreClampedMonotone(v as real + factor, v as real);
    }
  }

  /** A brighter input channel never gives a darker output channel. */
  lemma BrightenMonotone(v: int, w: int, factor: real)
    requires v <= w
    ensures BrightenChannel(v, factor) <= BrightenChannel(w, factor)
  {
    StoreClampedMonotone(v as real + factor, w as real + factor);
  }

  /** The default offset 0 leaves the image as it was. */
  lemma BrightnessZeroIdentity(img: Image)
    requires Valid(img)
    ensures ApplyBrightnessAdjustment(img, 0.0) == img
  {
    var r := ApplyBrightnessAdjustment(img, 0.0);
    forall x, y, c | InImage(r, x, y) && IsChannel(c)
      ensures Get(r, x, y, c) == Get(img, x, y, c)
    {
      if c < 3 {
        StoreClampedByte(Get(img, x, y, c));
      }
    }
    Extensionality(r, img);
  }
}
