/**
 * Grayscale conversion: R, G and B of every pixel are replaced by the
 * rounded luminance `0.299 R + 0.587 G + 0.114 B`; alpha is never written.
 * The coefficients are taken as the exact rationals they denote.
 */
module Grayscale {
  import opened Numeric
  import opened PixelBuffer

  /** `0.299 R + 0.587 G + 0.114 B`. */
  function Luminance(r: int, g: int, b: int): real
  {
    0.299 * r as real + 0.587 * g as real + 0.114 * b as real
  }

  /** The weights sum to 1, so the luminance is a weighted mean of the three channels. */
  lemma LuminanceWithin(r: int, g: int, b: int, lo: int, hi: int)
    requires lo <= r <= hi && lo <= g <= hi && lo <= b <= hi
    ensures lo as real <= Luminance(r, g, b) <= hi as real
  {
  }

  /** `Math.round(0.299 R + 0.587 G + 0.114 B)`. */
  function GrayOf(r: int, g: int, b: int): (v: int)
    requires IsByte(r) && IsByte(g) && IsByte(b)
    ensures IsByte(v)
  {
    LuminanceWithin(r, g, b, 0, 255);
    RoundHalfUpWithin(Luminance(r, g, b), 0, 255);
    RoundHalfUp(Luminance(r, g, b))
  }

  /** A gray colour (v, v, v) has luminance v and converts to itself. */
  lemma GrayOfGray(v: int)
    requires IsByte(v)
    ensures GrayOf(v, v, v) == v
  {
    LuminanceWithin(v, v, v, v, v);
  }

  /** The gray value of pixel (x, y) of a well-formed buffer. */
  function GrayValue(img: Image, x: int, y: int): int
    requires Valid(img)
  {
    GetIsByte(img, x, y, 0);
    GetIsByte(img, x, y, 1);
    GetIsByte(img, x, y, 2);
    GrayOf(Get(img, x, y, 0), Get(img, x, y, 1), Get(img, x, y, 2))
  }

  function GrayscalePixel(img: Image, x: int, y: int, c: int): (v: int)
    requires Valid(img)
    ensures IsByte(v)
  {
    if 0 <= c < 3 then GrayValue(img, x, y) else Get(img, x, y, c)
  }

  /**
   * `convertToGrayscale(imageData)`: R, G and B of every pixel become the
   * pixel's gray value and alpha is left alone.
   */
  function ConvertToGrayscale(img: Image): (r: Image)
    requires Valid(img)
    ensures Valid(r) && SameSize(r, img)
    ensures AlphaKept(img, r)
    ensures forall x, y, c | InImage(img, x, y) && 0 <= c < 3 :: Get(r, x, y, c) == GrayValue(img, x, y)
  {
    BuildImage(img.width, img.height, (x, y, c) => GrayscalePixel(img, x, y, c))
  }

  /** Converting an already converted image changes nothing. */
  lemma GrayscaleIdempotent(img: Image)
    requires Valid(img)
    ensures ConvertToGrayscale(ConvertToGrayscale(img)) == ConvertToGrayscale(img)
  {
    var g := ConvertToGrayscale(img);
    var gg := ConvertToGrayscale(g);
    forall x, y, c | InImage(gg, x, y) && IsChannel(c)
      ensures Get(gg, x, y, c) == Get(g, x, y, c)
    {
      if c < 3 {
        GrayOfGray(GrayValue(img, x, y));
      }
    }
    Extensionality(gg, g);
  }

  /** The converted buffer at the four offsets of the pixel starting at offset `i`, in terms of the input's bytes. */
  lemma ConvertedAt(img: Image, i: int)
    requires Valid(img) && 0 <= i < |img.data| && i % 4 == 0
    ensures i + 3 < |img.data|
    ensures var r, g := ConvertToGrayscale(img).data, GrayOf(img.data[i], img.data[i + 1], img.data[i + 2]);
      r[i] == g && r[i + 1] == g && r[i + 2] == g && r[i + 3] == img.data[i + 3]
  {
    Decode(img.width, img.height, i);
    var x, y := (i / 4) % img.width, (i / 4) / img.width;
    assert Idx(img.width, x, y, 0) == i;
    ChannelAt(img, x, y, 0);
    ChannelAt(img, x, y, 1);
    ChannelAt(img, x, y, 2);
    ChannelAt(img, x, y, 3);
  }

  lemma ChannelAt(img: Image, x: int, y: int, c: int)
    requires Valid(img) && InImage(img, x, y) && IsChannel(c)
    ensures Idx(img.width, x, y, c) == Idx(img.width, x, y, 0) + c
    ensures 0 <= Idx(img.width, x, y, c) < |img.data|
    ensures img.data[Idx(img.width, x, y, c)] == Get(img, x, y, c)
    ensures ConvertToGrayscale(img).data[Idx(img.width, x, y, c)] == Get(ConvertToGrayscale(img), x, y, c)
  {
    GetIsData(img, x, y, c);
    GetIsData(ConvertToGrayscale(img), x, y, c);
  }

  /** The four bytes at offset `i` of `target` are the conversion of those of `src`. */
  predicate PixelConverted(src: seq<int>, target: seq<int>, i: int)
    requires 0 <= i && i + 3 < |src| == |target|
  {
    && IsByte(src[i]) && IsByte(src[i + 1]) && IsByte(src[i + 2])
    && var g := GrayOf(src[i], src[i + 1], src[i + 2]);
       target[i] == g && target[i + 1] == g && target[i + 2] == g && target[i + 3] == src[i + 3]
  }

  /**
   * The conversion done in place on one buffer, four bytes at a time, with
   * no copy of the input: it computes the same buffer as the pointwise
   * definition, because each step reads only the pixel it writes.
   */
  method ConvertToGrayscaleInPlace(img: Image) returns (out: Image)
    requires Valid(img)
    ensures out == ConvertToGrayscale(img)
  {
    ghost var target := ConvertToGrayscale(img).data;
    forall i | 0 <= i && i + 3 < |img.data| && i % 4 == 0
      ensures PixelConverted(img.data, target, i)
    {
      ConvertedAt(img, i);
    }
    var data := ConvertInPlace(img.data, target);
    out := Image(img.width, img.height, data);
  }

  /** The in-place loop over a buffer of whole pixels. */
  method ConvertInPlace(src: seq<int>, ghost target: seq<int>) returns (data: seq<int>)
    requires |src| == |target| && |src| % 4 == 0
    requires forall i | 0 <= i && i + 3 < |src| && i % 4 == 0 :: PixelConverted(src, target, i)
    ensures data == target
  {
    data := src;
    var n := |data|;
    var i := 0;
    while i < n
      invariant 0 <= i <= n && i % 4 == 0 && |data| == n
      invariant forall k | 0 <= k < i :: data[k] == target[k]
      invariant forall k | i <= k < n :: data[k] == src[k]
    {
      assert PixelConverted(src, target, i);
      var gray := GrayOf(data[i], data[i + 1], data[i + 2]);
      data := data[i := gray][i + 1 := gray][i + 2 := gray];
      i := i + 4;
    }
  }
}
