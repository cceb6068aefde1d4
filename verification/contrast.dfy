/**
 * Contrast adjustment: every colour channel, taken into [0, 1] as `v / 255`,
 * is stretched about the midpoint 0.5 by `factor`, taken back to [0, 255],
 * clamped and stored as a byte; alpha is copied.
 */
module Contrast {
  import opened Numeric
  import opened PixelBuffer

  /** `((v / 255 - 0.5) * factor + 0.5) * 255`, before the clamp. */
  function Stretch(v: int, factor: real): real
  {
    ((v as real / 255.0 - 0.5) * factor + 0.5) * 255.0
  }

  /** The stretch is the line through the mid-gray 127.5 with slope `factor`. */
  lemma StretchAboutMidGray(v: int, factor: real)
    ensures Stretch(v, factor) == 127.5 + (v as real - 127.5) * factor
  {
  }

  /** `Math.max(0, Math.min(255, adjusted))` as stored. */
  function ContrastChannel(v: int, factor: real): int
  {
    StoreClamped(Stretch(v, factor))
  }

  function ContrastPixel(img: Image, factor: real, x: int, y: int, c: int): (v: int)
    ensures Valid(img) ==> IsByte(v)
  {
    if 0 <= c < 3 then ContrastChannel(Get(img, x, y, c), factor) else Get(img, x, y, c)
  }

  /**
   * `applyContrastAdjustment(imageData, factor)`: every colour channel of
   * every pixel is stretched and clamped; alpha is copied.
   */
  function ApplyContrastAdjustment(img: Image, factor: real): (r: Image)
    requires Valid(img)
    ensures Valid(r) && SameSize(r, img)
    ensures AlphaKept(img, r)
    ensures forall x, y, c | InImage(img, x, y) && 0 <= c < 3 ::
      Get(r, x, y, c) == ContrastChannel(Get(img, x, y, c), factor)
  {
    BuildImage(img.width, img.height, (x, y, c) => ContrastPixel(img, factor, x, y, c))
  }

  /** With a non-negative factor a brighter input channel never gives a darker output. */
  lemma ContrastMonotone(v: int, w: int, factor: real)
    requires v <= w && factor >= 0.0
    ensures ContrastChannel(v, factor) <= ContrastChannel(w, factor)
  {
    StretchAboutMidGray(v, factor);
    StretchAboutMidGray(w, factor);
    assert (w as real - 127.5) * factor - (v as real - 127.5) * factor == (w - v) as real * factor;
    StoreClampedMonotone(Stretch(v, factor), Stretch(w, factor));
  }

  /** Factor 0 maps every channel to mid-gray 127.5, which the byte store rounds to the even 128. */
  lemma ContrastZeroFlat(v: int)
    ensures ContrastChannel(v, 0.0) == 128
  {
    StretchAboutMidGray(v, 0.0);
  }

  /** Factor 1 leaves the image as it was. */
  lemma ContrastOneIdentity(img: Image)
    requires Valid(img)
    ensures ApplyContrastAdjustment(img, 1.0) == img
  {
    var r := ApplyContrastAdjustment(img, 1.0);
    forall x, y, c | InImage(r, x, y) && IsChannel(c)
      ensures Get(r, x, y, c) == Get(img, x, y, c)
    {
      if c < 3 {
        var v := Get(img, x, y, c);
        StretchAboutMidGray(v, 1.0);
        StoreClampedByte(v);
      }
    }
    Extensionality(r, img);
  }
}
