/**
 * The median filter. For every pixel at least `radius = kernelSize / 2`
 * pixels from each edge, each colour channel becomes the element at index
 * `floor(N / 2)` of that channel's `N = (2 * radius + 1)^2` window values
 * sorted ascending, read from the input; the ring within `radius` of an edge
 * keeps all four bytes and interior alpha is copied.
 */
module MedianFilter {
  import opened PixelBuffer
  import opened Sorting

  /** Position `i` of an `n x n` window in row-major order lies inside the window. */
  lemma SquareIndex(n: nat, i: int)
    requires 0 <= i < n * n
    ensures n > 0 && 0 <= i % n < n && 0 <= i / n < n
  {
    assert n > 0;
    if i / n >= n {
      assert false;
    }
  }

  /**
   * Channel `c` of the `(2 * radius + 1)`-square window around (x, y), in
   * the order the gathering loops push them: row offset outer, column offset
   * inner.
   */
  function MedianWindow(img: Image, x: int, y: int, radius: nat, c: int): (s: seq<int>)
    ensures |s| == (2 * radius + 1) * (2 * radius + 1)
  {
    var n := 2 * radius + 1;
    seq(n * n, i => Get(img, x - radius + i % n, y - radius + i / n, c))
  }

  /** Every value of the window is read from a pixel of the square around (x, y). */
  lemma WindowFrom(img: Image, x: int, y: int, radius: nat, c: int, i: int)
    requires 0 <= i < |MedianWindow(img, x, y, radius, c)|
    ensures exists u, v | x - radius <= u <= x + radius && y - radius <= v <= y + radius ::
      MedianWindow(img, x, y, radius, c)[i] == Get(img, u, v, c)
  {
    var n := 2 * radius + 1;
    SquareIndex(n, i);
    var u, v := x - radius + i % n, y - radius + i / n;
    assert MedianWindow(img, x, y, radius, c)[i] == Get(img, u, v, c);
  }

  /** An odd kernel size `k` gathers exactly `k * k` values per channel. */
  lemma WindowLength(img: Image, x: int, y: int, kernelSize: nat, c: int)
    requires kernelSize % 2 == 1
    ensures |MedianWindow(img, x, y, kernelSize / 2, c)| == kernelSize * kernelSize
  {
  }

  /** The element at index `floor(N / 2)` of the ascending sort of `s`. */
  function MedianOf(s: seq<int>): (m: int)
    requires |s| > 0
    ensures m in s
  {
    var sorted := Sort(s);
    assert sorted[|s| / 2] in multiset(sorted);
    sorted[|s| / 2]
  }

  /**
   * The median is an order statistic: at least `floor(N / 2) + 1` values are
   * at most it, and at least `N - floor(N / 2)` values are at least it.
   */
  lemma MedianRank(s: seq<int>)
    requires |s| > 0
    ensures CountAtMost(s, MedianOf(s)) >= |s| / 2 + 1
    ensures CountAtLeast(s, MedianOf(s)) >= |s| - |s| / 2
  {
    var m := MedianOf(s);
    SortedAtMost(Sort(s), |s| / 2);
    SortedAtLeast(Sort(s), |s| / 2);
    CountSort(s, m);
  }

  /** A value of `s` bounded by every bound of `s` is bounded. */
  lemma MedianBetween(s: seq<int>, lo: int, hi: int)
    requires |s| > 0 && forall i | 0 <= i < |s| :: lo <= s[i] <= hi
    ensures lo <= MedianOf(s) <= hi
  {
    var m := MedianOf(s);
    var i :| 0 <= i < |s| && s[i] == m;
  }

  /** The byte the filter leaves at channel `c` of pixel (x, y). */
  function MedianPixel(img: Image, radius: nat, x: int, y: int, c: int): int
  {
    if InImage(img, x, y) && Interior(img, radius, x, y) && 0 <= c < 3 then
      MedianOf(MedianWindow(img, x, y, radius, c))
    else
      Get(img, x, y, c)
  }

  lemma MedianPixelIsByte(img: Image, radius: nat)
    requires Valid(img)
    ensures forall x, y, c :: IsByte(MedianPixel(img, radius, x, y, c))
  {
    forall x, y, c | InImage(img, x, y) && Interior(img, radius, x, y) && 0 <= c < 3
      ensures IsByte(MedianPixel(img, radius, x, y, c))
    {
      var w := MedianWindow(img, x, y, radius, c);
      MedianBetween(w, 0, 255);
    }
  }

  /**
   * `applyMedianFilter(imageData, kernelSize)`: each colour channel of an
   * interior pixel becomes the median of its window; pixels within `radius`
   * of an edge keep all four bytes, and interior alpha is copied.
   */
  function ApplyMedianFilter(img: Image, kernelSize: nat): (r: Image)
    requires Valid(img)
    ensures Valid(r) && SameSize(r, img)
    ensures AlphaKept(img, r)
    ensures BorderKept(img, r, kernelSize / 2)
    ensures forall x, y, c | InImage(img, x, y) && Interior(img, kernelSize / 2, x, y) && 0 <= c < 3 ::
      Get(r, x, y, c) == MedianOf(MedianWindow(img, x, y, kernelSize / 2, c))
  {
    var radius := kernelSize / 2;
    MedianPixelIsByte(img, radius);
    var r := BuildImage(img.width, img.height, (x, y, c) => MedianPixel(img, radius, x, y, c));
    MedianFacts(img, radius, r);
    r
  }

  lemma MedianFacts(img: Image, radius: nat, r: Image)
    requires SameSize(r, img)
    requires forall x, y, c | 0 <= x < img.width && 0 <= y < img.height && IsChannel(c) ::
      Get(r, x, y, c) == MedianPixel(img, radius, x, y, c)
    ensures AlphaKept(img, r)
    ensures BorderKept(img, r, radius)
    ensures forall x, y, c | InImage(img, x, y) && Interior(img, radius, x, y) && 0 <= c < 3 ::
      Get(r, x, y, c) == MedianOf(MedianWindow(img, x, y, radius, c))
  {
  }

  /** A filtered interior channel lies between the smallest and the largest value of its window. */
  lemma MedianWithinWindow(img: Image, kernelSize: nat, x: int, y: int, c: int, lo: int, hi: int)
    requires Valid(img) && InImage(img, x, y) && Interior(img, kernelSize / 2, x, y) && 0 <= c < 3
    requires forall u, v | x - kernelSize / 2 <= u <= x + kernelSize / 2 && y - kernelSize / 2 <= v <= y + kernelSize / 2 ::
      lo <= Get(img, u, v, c) <= hi
    ensures lo <= Get(ApplyMedianFilter(img, kernelSize), x, y, c) <= hi
  {
    var radius := kernelSize / 2;
    var w := MedianWindow(img, x, y, radius, c);
    forall i | 0 <= i < |w|
      ensures lo <= w[i] <= hi
    {
      WindowFrom(img, x, y, radius, c, i);
    }
    MedianBetween(w, lo, hi);
  }

  /** A pixel whose whole window holds one value `v` in channel `c` keeps it. */
  lemma MedianUniformWindow(img: Image, kernelSize: nat, x: int, y: int, c: int, v: int)
    requires Valid(img) && InImage(img, x, y) && Interior(img, kernelSize / 2, x, y) && 0 <= c < 3
    requires forall u, w | x - kernelSize / 2 <= u <= x + kernelSize / 2 && y - kernelSize / 2 <= w <= y + kernelSize / 2 ::
      Get(img, u, w, c) == v
    ensures Get(ApplyMedianFilter(img, kernelSize), x, y, c) == v
  {
    MedianWithinWindow(img, kernelSize, x, y, c, v, v);
  }

  /**
   * Channels are independent: two inputs of one size that agree on channel
   * `c` over the window of (x, y) give the same output in channel `c` there.
   */
  lemma MedianChannelLocal(a: Image, b: Image, kernelSize: nat, x: int, y: int, c: int)
    requires Valid(a) && Valid(b) && SameSize(a, b)
    requires InImage(a, x, y) && Interior(a, kernelSize / 2, x, y) && 0 <= c < 3
    requires forall u, v | x - kernelSize / 2 <= u <= x + kernelSize / 2 && y - kernelSize / 2 <= v <= y + kernelSize / 2 ::
      Get(a, u, v, c) == Get(b, u, v, c)
    ensures Get(ApplyMedianFilter(a, kernelSize), x, y, c) == Get(ApplyMedianFilter(b, kernelSize), x, y, c)
  {
    var radius := kernelSize / 2;
    var wa, wb := MedianWindow(a, x, y, radius, c), MedianWindow(b, x, y, radius, c);
    forall i | 0 <= i < |wa|
      ensures wa[i] == wb[i]
    {
      var n := 2 * radius + 1;
      SquareIndex(n, i);
    }
    assert wa == wb;
  }

  /** An image with no interior pixel comes back unchanged. */
  lemma MedianSmallImageUnchanged(img: Image, kernelSize: nat)
    requires Valid(img)
    requires img.width <= 2 * (kernelSize / 2) || img.height <= 2 * (kernelSize / 2)
    ensures ApplyMedianFilter(img, kernelSize) == img
  {
    NoInteriorUnchanged(img, ApplyMedianFilter(img, kernelSize), kernelSize / 2);
  }
}
