/**
 * The Gaussian blur: a normalised `size x size` kernel of Gaussian weights,
 * convolved with every pixel at least `radius = size / 2` pixels from each
 * edge; the ring within `radius` of an edge is left as it was.
 *
 * `Math.exp` is not modelled: the filter takes it as a parameter `exp` of
 * which only positivity is assumed.
 */
module GaussianBlur {
  import opened Numeric
  import opened Sums
  import opened PixelBuffer
  import opened Convolution

  /** `Math.floor(size / 2)`: the centre index of the kernel and the blur radius. */
  function Centre(size: nat): nat { size / 2 }

  /** Squared distance of kernel cell (i, j) from the centre. */
  function Dist2(size: nat, i: int, j: int): int
  {
    var x, y := i - Centre(size), j - Centre(size);
    x * x + y * y
  }

  lemma SquarePositive(sigma: real)
    requires sigma != 0.0
    ensures sigma * sigma > 0.0
  {
    if sigma < 0.0 {
      assert sigma * sigma == (-sigma) * (-sigma);
    }
  }

  /** The exponent `-(x*x + y*y) / (2 * sigma * sigma)` of the raw weight at distance `d`. */
  function Exponent(d: int, sigma: real): real
    requires sigma != 0.0
  {
    SquarePositive(sigma);
    -(d as real) / (2.0 * sigma * sigma)
  }

  /** The raw weight `exp(-(x*x + y*y) / (2 * sigma * sigma))` of kernel cell (i, j). */
  function Weight(size: nat, sigma: real, exp: real -> real, i: int, j: int): real
    requires sigma != 0.0
  {
    exp(Exponent(Dist2(size, i, j), sigma))
  }

  /** The unnormalised kernel, one raw weight per cell. */
  function RawKernel(size: nat, sigma: real, exp: real -> real): (m: seq<seq<real>>)
    requires sigma != 0.0
    ensures IsSquare(m, size)
    ensures forall i, j | 0 <= i < size && 0 <= j < size :: m[i][j] == Weight(size, sigma, exp, i, j)
  {
    seq(size, i => seq(size, j => Weight(size, sigma, exp, i, j)))
  }

  /** Exp takes only positive values. */
  ghost predicate PositiveExp(exp: real -> real)
  {
    forall t :: exp(t) > 0.0
  }

  /**
   * `generateGaussianKernel(size, sigma)`: the raw weights, each divided by
   * their total, so that a kernel of at least one cell is a weighting.
   */
  function GenerateGaussianKernel(size: nat, sigma: real, exp: real -> real): (k: seq<seq<real>>)
    requires sigma != 0.0 && PositiveExp(exp)
    ensures IsSquare(k, size)
    ensures forall i, j | 0 <= i < size && 0 <= j < size :: k[i][j] > 0.0
    ensures size > 0 ==> NonNegative(k) && Sum2(k) == 1.0
  {
    var raw := RawKernel(size, sigma, exp);
    if size == 0 then raw
    else
      RawKernelPositive(size, sigma, exp);
      Sum2Positive(raw);
      var k := Scale2(raw, Sum2(raw));
      NormaliseFacts(raw, size, k);
      k
  }

  /** Every raw weight is positive. */
  lemma RawKernelPositive(size: nat, sigma: real, exp: real -> real)
    requires sigma != 0.0 && PositiveExp(exp)
    ensures var raw := RawKernel(size, sigma, exp);
      forall i, j | 0 <= i < size && 0 <= j < size :: raw[i][j] > 0.0
  {
    var raw := RawKernel(size, sigma, exp);
    forall i, j | 0 <= i < size && 0 <= j < size
      ensures raw[i][j] > 0.0
    {
      assert raw[i][j] == exp(Exponent(Dist2(size, i, j), sigma));
    }
  }

  /** Dividing positive weights by their total gives positive weights that sum to 1. */
  lemma NormaliseFacts(raw: seq<seq<real>>, size: nat, k: seq<seq<real>>)
    requires IsSquare(raw, size) && size > 0
    requires forall i, j | 0 <= i < size && 0 <= j < size :: raw[i][j] > 0.0
    requires Sum2(raw) > 0.0 && k == Scale2(raw, Sum2(raw))
    ensures IsSquare(k, size)
    ensures forall i, j | 0 <= i < size && 0 <= j < size :: k[i][j] > 0.0
    ensures NonNegative(k) && Sum2(k) == 1.0
  {
    var total := Sum2(raw);
    forall i, j | 0 <= i < size && 0 <= j < size
      ensures k[i][j] > 0.0
    {
      assert k[i] == Scale(raw[i], total);
      QuotientPositive(raw[i][j], total);
    }
    Sum2Scale(raw, total);
    QuotientOne(total);
  }

  /** Each entry is its raw weight divided by the (positive) total of the raw weights. */
  lemma KernelProportional(size: nat, sigma: real, exp: real -> real, i: int, j: int)
    requires sigma != 0.0 && PositiveExp(exp) && 0 <= i < size && 0 <= j < size
    ensures Sum2(RawKernel(size, sigma, exp)) > 0.0
    ensures GenerateGaussianKernel(size, sigma, exp)[i][j]
         == Weight(size, sigma, exp, i, j) / Sum2(RawKernel(size, sigma, exp))
  {
    var raw := RawKernel(size, sigma, exp);
    RawKernelPositive(size, sigma, exp);
    Sum2Positive(raw);
    var total := Sum2(raw);
    var k := GenerateGaussianKernel(size, sigma, exp);
    assert k == Scale2(raw, total);
    assert k[i] == Scale(raw[i], total);
    assert raw[i][j] == Weight(size, sigma, exp, i, j);
  }

  lemma QuotientPositive(a: real, b: real)
    requires a > 0.0 && b > 0.0
    ensures a / b > 0.0
  {
  }

  lemma QuotientOne(a: real)
    requires a != 0.0
    ensures a / a == 1.0
  {
  }

  /** Cells at the same distance from the centre carry the same weight. */
  predicate Radial(k: seq<seq<real>>, size: nat)
    requires IsSquare(k, size)
  {
    forall i, j, i2, j2 | 0 <= i < size && 0 <= j < size && 0 <= i2 < size && 0 <= j2 < size ::
      Dist2(size, i, j) == Dist2(size, i2, j2) ==> k[i][j] == k[i2][j2]
  }

  /** The weight of a kernel cell depends only on its squared distance from the centre. */
  lemma KernelRadial(size: nat, sigma: real, exp: real -> real)
    requires sigma != 0.0 && PositiveExp(exp)
    ensures Radial(GenerateGaussianKernel(size, sigma, exp), size)
  {
    var k := GenerateGaussianKernel(size, sigma, exp);
    if size > 0 {
      var raw := RawKernel(size, sigma, exp);
      Sum2Positive(raw);
      forall i, j, i2, j2 | 0 <= i < size && 0 <= j < size && 0 <= i2 < size && 0 <= j2 < size &&
          Dist2(size, i, j) == Dist2(size, i2, j2)
        ensures k[i][j] == k[i2][j2]
      {
        assert k[i][j] == raw[i][j] / Sum2(raw);
        assert k[i2][j2] == raw[i2][j2] / Sum2(raw);
      }
    }
  }

  /** An odd-sized kernel is symmetric under transposition and under mirroring either axis. */
  lemma KernelSymmetric(size: nat, sigma: real, exp: real -> real, i: int, j: int)
    requires sigma != 0.0 && PositiveExp(exp) && size % 2 == 1 && 0 <= i < size && 0 <= j < size
    ensures var k := GenerateGaussianKernel(size, sigma, exp);
      && k[i][j] == k[j][i] && k[i][j] == k[size - 1 - i][j] && k[i][j] == k[i][size - 1 - j]
  {
    var c := Centre(size);
    assert size - 1 == 2 * c;
    MirrorSquare(c, i);
    MirrorSquare(c, j);
    assert Dist2(size, i, j) == Dist2(size, j, i);
    assert Dist2(size, i, j) == Dist2(size, size - 1 - i, j);
    assert Dist2(size, i, j) == Dist2(size, i, size - 1 - j);
    KernelRadial(size, sigma, exp);
  }

  lemma MirrorSquare(c: int, i: int)
    ensures (2 * c - i - c) * (2 * c - i - c) == (i - c) * (i - c)
  {
    assert 2 * c - i - c == -(i - c);
  }

  /** The value the blur writes at channel `c` of pixel (x, y), given the kernel and its radius. */
  function BlurPixel(img: Image, kernel: seq<seq<real>>, radius: nat, x: int, y: int, c: int): int
    requires IsSquare(kernel, 2 * radius + 1)
  {
    if InImage(img, x, y) && Interior(img, radius, x, y) && 0 <= c < 3 then
      RoundHalfUp(Convolve(kernel, img, x, y, radius, c))
    else
      Get(img, x, y, c)
  }

  /**
   * `applyGaussianBlur(imageData, kernelSize, sigma)`: each colour channel of
   * an interior pixel becomes the rounded kernel-weighted sum of its window,
   * read from the input; pixels within `radius` of an edge keep all four
   * bytes, and interior alpha is copied.
   */
  function ApplyGaussianBlur(img: Image, kernelSize: nat, sigma: real, exp: real -> real): (r: Image)
    requires Valid(img) && kernelSize % 2 == 1 && sigma != 0.0 && PositiveExp(exp)
    ensures Valid(r) && SameSize(r, img)
    ensures AlphaKept(img, r)
    ensures BorderKept(img, r, kernelSize / 2)
    ensures forall x, y, c | InImage(img, x, y) && Interior(img, kernelSize / 2, x, y) && 0 <= c < 3 ::
      Get(r, x, y, c) == RoundHalfUp(Convolve(GenerateGaussianKernel(kernelSize, sigma, exp), img, x, y, kernelSize / 2, c))
  {
    var kernel := GenerateGaussianKernel(kernelSize, sigma, exp);
    var radius := kernelSize / 2;
    BlurPixelIsByte(img, kernel, radius);
    var r := BuildImage(img.width, img.height, (x, y, c) => BlurPixel(img, kernel, radius, x, y, c));
    BlurFacts(img, kernel, radius, r);
    r
  }

  /** What a buffer that holds `BlurPixel` everywhere says about each pixel. */
  lemma BlurFacts(img: Image, kernel: seq<seq<real>>, radius: nat, r: Image)
    requires IsSquare(kernel, 2 * radius + 1) && SameSize(r, img)
    requires forall x, y, c | 0 <= x < img.width && 0 <= y < img.height && IsChannel(c) ::
      Get(r, x, y, c) == BlurPixel(img, kernel, radius, x, y, c)
    ensures AlphaKept(img, r)
    ensures BorderKept(img, r, radius)
    ensures forall x, y, c | InImage(img, x, y) && Interior(img, radius, x, y) && 0 <= c < 3 ::
      Get(r, x, y, c) == RoundHalfUp(Convolve(kernel, img, x, y, radius, c))
  {
  }

  /** A kernel of positive weights summing to 1 keeps every blurred value a byte. */
  lemma BlurPixelIsByte(img: Image, kernel: seq<seq<real>>, radius: nat)
    requires Valid(img) && IsSquare(kernel, 2 * radius + 1) && NonNegative(kernel) && Sum2(kernel) == 1.0
    ensures forall x, y, c :: IsByte(BlurPixel(img, kernel, radius, x, y, c))
  {
    forall x, y, c | InImage(img, x, y) && Interior(img, radius, x, y) && 0 <= c < 3
      ensures IsByte(BlurPixel(img, kernel, radius, x, y, c))
    {
      BlurWithin(img, kernel, radius, x, y, c, 0, 255);
    }
  }

  /** With weights that are non-negative and sum to 1, the blurred value lies within the window's range. */
  lemma BlurWithin(img: Image, kernel: seq<seq<real>>, radius: nat, x: int, y: int, c: int, lo: int, hi: int)
    requires IsSquare(kernel, 2 * radius + 1) && NonNegative(kernel) && Sum2(kernel) == 1.0
    requires InImage(img, x, y) && Interior(img, radius, x, y) && 0 <= c < 3
    requires forall u, v | x - radius <= u <= x + radius && y - radius <= v <= y + radius ::
      lo <= Get(img, u, v, c) <= hi
    ensures lo <= BlurPixel(img, kernel, radius, x, y, c) <= hi
  {
    var w := Window(img, x, y, radius, c);
    forall i, j | 0 <= i < |w| && 0 <= j < |w[i]|
      ensures lo as real <= w[i][j] <= hi as real
    {
      assert lo <= Get(img, x - radius + j, y - radius + i, c) <= hi;
    }
    WindowFits(kernel, img, x, y, radius, c);
    Dot2Within(kernel, w, lo as real, hi as real);
    RoundHalfUpWithin(Dot2(kernel, w), lo, hi);
  }

  /** An image with no interior pixel (too narrow or too short for the kernel) comes back unchanged. */
  lemma BlurSmallImageUnchanged(img: Image, kernelSize: nat, sigma: real, exp: real -> real)
    requires Valid(img) && kernelSize % 2 == 1 && sigma != 0.0 && PositiveExp(exp)
    requires img.width <= 2 * (kernelSize / 2) || img.height <= 2 * (kernelSize / 2)
    ensures ApplyGaussianBlur(img, kernelSize, sigma, exp) == img
  {
    NoInteriorUnchanged(img, ApplyGaussianBlur(img, kernelSize, sigma, exp), kernelSize / 2);
  }

  /** A blurred interior channel lies between the smallest and the largest value of its window. */
  lemma BlurWithinWindow(img: Image, kernelSize: nat, sigma: real, exp: real -> real,
                         x: int, y: int, c: int, lo: int, hi: int)
    requires Valid(img) && kernelSize % 2 == 1 && sigma != 0.0 && PositiveExp(exp)
    requires InImage(img, x, y) && Interior(img, kernelSize / 2, x, y) && 0 <= c < 3
    requires forall u, v | x - kernelSize / 2 <= u <= x + kernelSize / 2 && y - kernelSize / 2 <= v <= y + kernelSize / 2 ::
      lo <= Get(img, u, v, c) <= hi
    ensures lo <= Get(ApplyGaussianBlur(img, kernelSize, sigma, exp), x, y, c) <= hi
  {
    var kernel := GenerateGaussianKernel(kernelSize, sigma, exp);
    BlurWithin(img, kernel, kernelSize / 2, x, y, c, lo, hi);
  }

  /** A pixel whose whole window holds one value `v` in channel `c` keeps it. */
  lemma BlurUniformWindow(img: Image, kernelSize: nat, sigma: real, exp: real -> real,
                          x: int, y: int, c: int, v: int)
    requires Valid(img) && kernelSize % 2 == 1 && sigma != 0.0 && PositiveExp(exp)
    requires InImage(img, x, y) && Interior(img, kernelSize / 2, x, y) && 0 <= c < 3
    requires forall u, v' | x - kernelSize / 2 <= u <= x + kernelSize / 2 && y - kernelSize / 2 <= v' <= y + kernelSize / 2 ::
      Get(img, u, v', c) == v
    ensures Get(ApplyGaussianBlur(img, kernelSize, sigma, exp), x, y, c) == v
  {
    BlurWithinWindow(img, kernelSize, sigma, exp, x, y, c, v, v);
  }
}
