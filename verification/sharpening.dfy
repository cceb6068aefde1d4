/**
 * The sharpening filter: the 3x3 kernel `[[0,-1,0],[-1,5,-1],[0,-1,0]]`
 * (centre plus a Laplacian) blended with the original by `factor`, applied to
 * every pixel not on the outer one-pixel ring. Values are clamped to
 * [0, 255] and then stored into a byte buffer; alpha is copied.
 */
module Sharpening {
  import opened Numeric
  import opened Sums
  import opened PixelBuffer
  import opened Convolution

  /** The sharpening kernel, row offset first. */
  function Laplacian(): (k: seq<seq<real>>)
    ensures IsSquare(k, 3)
  {
    [[0.0, -1.0, 0.0], [-1.0, 5.0, -1.0], [0.0, -1.0, 0.0]]
  }

  /** The kernel's weights sum to 1: on a flat neighbourhood it reproduces the centre. */
  lemma LaplacianSumsToOne()
    ensures Sum2(Laplacian()) == 1.0
  {
    Sum2OfThree(Laplacian());
  }

  /** `center + (sum - center) * factor` before the clamp, for channel `c` of pixel (x, y). */
  function Blend(img: Image, factor: real, x: int, y: int, c: int): real
  {
    var centre := Get(img, x, y, c) as real;
    centre + (Convolve(Laplacian(), img, x, y, 1, c) - centre) * factor
  }

  /** The byte the filter leaves at channel `c` of pixel (x, y). */
  function SharpenPixel(img: Image, factor: real, x: int, y: int, c: int): (v: int)
    ensures Valid(img) ==> IsByte(v)
  {
    if InImage(img, x, y) && Interior(img, 1, x, y) && 0 <= c < 3 then
      StoreClamped(Blend(img, factor, x, y, c))
    else
      Get(img, x, y, c)
  }

  /**
   * `applySharpening(imageData, factor)`: each colour channel of a pixel off
   * the outer ring becomes `max(0, min(255, centre + (sum - centre) * factor))`
   * as a byte, computed from the input; the ring keeps all four bytes and
   * interior alpha is copied.
   */
  function ApplySharpening(img: Image, factor: real): (r: Image)
    requires Valid(img)
    ensures Valid(r) && SameSize(r, img)
    ensures AlphaKept(img, r)
    ensures BorderKept(img, r, 1)
    ensures forall x, y, c | InImage(img, x, y) && Interior(img, 1, x, y) && 0 <= c < 3 ::
      Get(r, x, y, c) == StoreClamped(Blend(img, factor, x, y, c))
  {
    var r := BuildImage(img.width, img.height, (x, y, c) => SharpenPixel(img, factor, x, y, c));
    SharpenFacts(img, factor, r);
    r
  }

  lemma SharpenFacts(img: Image, factor: real, r: Image)
    requires SameSize(r, img)
    requires forall x, y, c | 0 <= x < img.width && 0 <= y < img.height && IsChannel(c) ::
      Get(r, x, y, c) == SharpenPixel(img, factor, x, y, c)
    ensures AlphaKept(img, r)
    ensures BorderKept(img, r, 1)
    ensures forall x, y, c | InImage(img, x, y) && Interior(img, 1, x, y) && 0 <= c < 3 ::
      Get(r, x, y, c) == StoreClamped(Blend(img, factor, x, y, c))
  {
  }

  /** Before the clamp, a channel whose 3x3 neighbourhood holds one value `v` blends to `v`. */
  lemma BlendUniform(img: Image, factor: real, x: int, y: int, c: int, v: int)
    requires Valid(img) && Interior(img, 1, x, y) && 0 <= c < 3
    requires forall u, w | x - 1 <= u <= x + 1 && y - 1 <= w <= y + 1 :: Get(img, u, w, c) == v
    ensures Blend(img, factor, x, y, c) == v as real
  {
    var win := Window(img, x, y, 1, c);
    WindowFits(Laplacian(), img, x, y, 1, c);
    assert Filled(win, v as real) by {
      forall i, j | 0 <= i < |win| && 0 <= j < |win[i]|
        ensures win[i][j] == v as real
      {
        assert Get(img, x - 1 + j, y - 1 + i, c) == v;
      }
    }
    Dot2Uniform(Laplacian(), win, v as real);
    LaplacianSumsToOne();
  }

  /** A pixel whose 3x3 neighbourhood holds one value `v` in channel `c` keeps it, whatever the factor. */
  lemma SharpenUniformWindow(img: Image, factor: real, x: int, y: int, c: int, v: int)
    requires Valid(img) && InImage(img, x, y) && Interior(img, 1, x, y) && 0 <= c < 3
    requires forall u, w | x - 1 <= u <= x + 1 && y - 1 <= w <= y + 1 :: Get(img, u, w, c) == v
    ensures Get(ApplySharpening(img, factor), x, y, c) == v
  {
    BlendUniform(img, factor, x, y, c, v);
    assert Get(img, x, y, c) == v;
    StoreClampedByte(v);
  }

  /** With `factor = 0` every pixel keeps every byte. */
  lemma SharpenZeroFactorIdentity(img: Image)
    requires Valid(img)
    ensures ApplySharpening(img, 0.0) == img
  {
    var r := ApplySharpening(img, 0.0);
    forall x, y, c | InImage(r, x, y) && IsChannel(c)
      ensures Get(r, x, y, c) == Get(img, x, y, c)
    {
      if Interior(img, 1, x, y) && c < 3 {
        StoreClampedByte(Get(img, x, y, c));
      }
    }
    Extensionality(r, img);
  }
}
