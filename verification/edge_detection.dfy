/**
 * Sobel edge detection. For every pixel off the outer one-pixel ring, the
 * horizontal and vertical Sobel responses are taken over the 3x3 window of
 * gray values `(r + g + b) / 3`, read from the input; R, G and B all become
 * the gradient magnitude, rounded and capped at 255, and alpha is copied.
 *
 * `Math.sqrt` is not modelled: the filter takes it as a parameter `sqrt` of
 * which only non-negativity on non-negative arguments and `sqrt(0) = 0` are
 * assumed.
 */
module EdgeDetection {
  import opened Numeric
  import opened Sums
  import opened PixelBuffer
  import opened Convolution

  function SobelX(): (k: seq<seq<real>>)
    ensures IsSquare(k, 3)
  {
    [[-1.0, 0.0, 1.0], [-2.0, 0.0, 2.0], [-1.0, 0.0, 1.0]]
  }

  function SobelY(): (k: seq<seq<real>>)
    ensures IsSquare(k, 3)
  {
    [[-1.0, -2.0, -1.0], [0.0, 0.0, 0.0], [1.0, 2.0, 1.0]]
  }

  /** Both Sobel kernels weigh to zero: they see no gradient on a flat neighbourhood. */
  lemma SobelSumsToZero()
    ensures Sum2(SobelX()) == 0.0 && Sum2(SobelY()) == 0.0
  {
    Sum2OfThree(SobelX());
    Sum2OfThree(SobelY());
  }

  /** The 3x3 window of gray values around (x, y), row offset first. */
  function GrayWindow(img: Image, x: int, y: int): (s: seq<seq<real>>)
    ensures IsSquare(s, 3)
    ensures forall i, j | 0 <= i < 3 && 0 <= j < 3 :: s[i][j] == RgbMean(img, x - 1 + j, y - 1 + i)
  {
    seq(3, i => seq(3, j => RgbMean(img, x - 1 + j, y - 1 + i)))
  }

  /** The horizontal response `gx` at (x, y). */
  function Gx(img: Image, x: int, y: int): real
  {
    Dot2(SobelX(), GrayWindow(img, x, y))
  }

  /** The vertical response `gy` at (x, y). */
  function Gy(img: Image, x: int, y: int): real
  {
    Dot2(SobelY(), GrayWindow(img, x, y))
  }

  /** `gx * gx + gy * gy`, the squared gradient magnitude, which is never negative. */
  function Magnitude2(img: Image, x: int, y: int): (m: real)
    ensures m >= 0.0
  {
    var gx, gy := Gx(img, x, y), Gy(img, x, y);
    SquareNonNegative(gx);
    SquareNonNegative(gy);
    gx * gx + gy * gy
  }

  lemma SquareNonNegative(a: real)
    ensures a * a >= 0.0
  {
    if a < 0.0 {
      assert a * a == (-a) * (-a);
    }
  }

  /** `Math.min(255, Math.round(Math.sqrt(gx * gx + gy * gy)))`. */
  function EdgeValue(img: Image, sqrt: real -> real, x: int, y: int): (v: int)
    requires RootLike(sqrt)
    ensures IsByte(v)
  {
    Min(255, RoundHalfUp(sqrt(Magnitude2(img, x, y))))
  }

  /** The byte the filter leaves at channel `c` of pixel (x, y). */
  function EdgePixel(img: Image, sqrt: real -> real, x: int, y: int, c: int): int
    requires RootLike(sqrt)
  {
    if InImage(img, x, y) && Interior(img, 1, x, y) && 0 <= c < 3 then EdgeValue(img, sqrt, x, y)
    else Get(img, x, y, c)
  }

  /**
   * `applyEdgeDetection(imageData)`: every pixel off the outer ring gets the
   * same edge value in R, G and B and keeps its alpha; the ring keeps all
   * four bytes.
   */
  function ApplyEdgeDetection(img: Image, sqrt: real -> real): (r: Image)
    requires Valid(img) && RootLike(sqrt)
    ensures Valid(r) && SameSize(r, img)
    ensures AlphaKept(img, r)
    ensures BorderKept(img, r, 1)
    ensures forall x, y, c | InImage(img, x, y) && Interior(img, 1, x, y) && 0 <= c < 3 ::
      Get(r, x, y, c) == EdgeValue(img, sqrt, x, y)
  {
    var r := BuildImage(img.width, img.height, (x, y, c) => EdgePixel(img, sqrt, x, y, c));
    EdgeFacts(img, sqrt, r);
    r
  }

  lemma EdgeFacts(img: Image, sqrt: real -> real, r: Image)
    requires RootLike(sqrt) && SameSize(r, img)
    requires forall x, y, c | 0 <= x < img.width && 0 <= y < img.height && IsChannel(c) ::
      Get(r, x, y, c) == EdgePixel(img, sqrt, x, y, c)
    ensures AlphaKept(img, r)
    ensures BorderKept(img, r, 1)
    ensures forall x, y, c | InImage(img, x, y) && Interior(img, 1, x, y) && 0 <= c < 3 ::
      Get(r, x, y, c) == EdgeValue(img, sqrt, x, y)
  {
  }

  /** Off the ring, the output pixel is gray: R, G and B hold the same byte. */
  lemma EdgeOutputGray(img: Image, sqrt: real -> real, x: int, y: int)
    requires Valid(img) && RootLike(sqrt) && InImage(img, x, y) && Interior(img, 1, x, y)
    ensures var r := ApplyEdgeDetection(img, sqrt);
      Get(r, x, y, 0) == Get(r, x, y, 1) == Get(r, x, y, 2)
  {
  }

  /** On a neighbourhood with one gray value everywhere, both Sobel responses vanish. */
  lemma FlatGradients(img: Image, x: int, y: int, g: real)
    requires forall u, v | x - 1 <= u <= x + 1 && y - 1 <= v <= y + 1 :: RgbMean(img, u, v) == g
    ensures Gx(img, x, y) == 0.0 && Gy(img, x, y) == 0.0
  {
    var win := GrayWindow(img, x, y);
    assert Filled(win, g) by {
      forall i, j | 0 <= i < |win| && 0 <= j < |win[i]|
        ensures win[i][j] == g
      {
        assert RgbMean(img, x - 1 + j, y - 1 + i) == g;
      }
    }
    SobelSumsToZero();
    Dot2Uniform(SobelX(), win, g);
    Dot2Uniform(SobelY(), win, g);
  }

  /** A pixel whose 3x3 neighbourhood has one gray value everywhere gets edge value 0. */
  lemma EdgeFlatWindow(img: Image, sqrt: real -> real, x: int, y: int, g: real)
    requires RootLike(sqrt)
    requires forall u, v | x - 1 <= u <= x + 1 && y - 1 <= v <= y + 1 :: RgbMean(img, u, v) == g
    ensures EdgeValue(img, sqrt, x, y) == 0
  {
    FlatGradients(img, x, y, g);
    assert Magnitude2(img, x, y) == 0.0;
  }
}
