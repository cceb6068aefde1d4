/**
 * The 3x3 box (averaging) filter. Every pixel, border included, becomes the
 * rounded mean of the 3x3 box around it clipped to the image, read from the
 * original buffer; alpha is copied.
 */
module Averaging {
  import opened Numeric
  import opened PixelBuffer

  /** Inclusive column bounds `x0..x1` and row bounds `y0..y1` of a box. */
  datatype Box = Box(x0: int, x1: int, y0: int, y1: int)

  /** The 3x3 box around (x, y) with its bounds clamped into the image. */
  function ClippedBox(img: Image, x: int, y: int): Box
  {
    Box(Max(0, x - 1), Min(img.width - 1, x + 1), Max(0, y - 1), Min(img.height - 1, y + 1))
  }

  predicate InBox(b: Box, u: int, v: int)
  {
    b.x0 <= u <= b.x1 && b.y0 <= v <= b.y1
  }

  /** (u, v) is at most one column and one row away from (x, y). */
  predicate Near(x: int, y: int, u: int, v: int)
  {
    x - 1 <= u <= x + 1 && y - 1 <= v <= y + 1
  }

  function BoxWidth(b: Box): int { b.x1 - b.x0 + 1 }

  function BoxHeight(b: Box): int { b.y1 - b.y0 + 1 }

  function BoxCount(b: Box): int { BoxWidth(b) * BoxHeight(b) }

  /** The exact mean of channel `c` over a non-empty box. */
  function BoxMean(img: Image, b: Box, c: int): real
    requires BoxWidth(b) >= 1 && BoxHeight(b) >= 1
  {
    MulAtLeast(BoxHeight(b), BoxWidth(b));
    Total(img, b, c) as real / BoxCount(b) as real
  }

  /** Channel `c` summed over columns `x0 <= u < xEnd` of row `v`. */
  function RowSum(img: Image, v: int, x0: int, xEnd: int, c: int): int
    decreases xEnd - x0
  {
    if xEnd <= x0 then 0 else RowSum(img, v, x0, xEnd - 1, c) + Get(img, xEnd - 1, v, c)
  }

  /** Channel `c` summed over rows `y0 <= v < yEnd`, each over columns `x0 <= u < xEnd`. */
  function BoxSum(img: Image, x0: int, xEnd: int, y0: int, yEnd: int, c: int): int
    decreases yEnd - y0
  {
    if yEnd <= y0 then 0 else BoxSum(img, x0, xEnd, y0, yEnd - 1, c) + RowSum(img, yEnd - 1, x0, xEnd, c)
  }

  /** Channel `c` summed over the whole box. */
  function Total(img: Image, b: Box, c: int): int
  {
    BoxSum(img, b.x0, b.x1 + 1, b.y0, b.y1 + 1, c)
  }

  /** The value the filter writes at channel `c` of pixel (x, y). */
  function AveragePixel(img: Image, x: int, y: int, c: int): int
  {
    var b := ClippedBox(img, x, y);
    if InImage(img, x, y) && 0 <= c < 3 then
      RoundHalfUp(BoxMean(img, b, c))
    else
      Get(img, x, y, c)
  }

  /**
   * `applyAveragingFilter`: every colour channel of every pixel is the
   * rounded mean of that channel over the clipped box, read from the input.
   */
  function ApplyAveragingFilter(img: Image): (r: Image)
    requires Valid(img)
    ensures Valid(r) && SameSize(r, img)
    ensures AlphaKept(img, r)
    ensures forall x, y, c | InImage(img, x, y) && 0 <= c < 3 ::
      var b := ClippedBox(img, x, y);
      Get(r, x, y, c) == RoundHalfUp(BoxMean(img, b, c))
  {
    AveragePixelIsByte(img);
    BuildImage(img.width, img.height, (x, y, c) => AveragePixel(img, x, y, c))
  }

  lemma AveragePixelIsByte(img: Image)
    requires Valid(img)
    ensures forall x, y, c :: IsByte(AveragePixel(img, x, y, c))
  {
    forall x, y, c | InImage(img, x, y) && 0 <= c < 3
      ensures IsByte(AveragePixel(img, x, y, c))
    {
      AverageWithinBounds(img, x, y, c, 0, 255);
    }
  }

  /** A row whose samples lie in [lo, hi] sums to between `n * lo` and `n * hi`. */
  lemma {:induction false} RowSumBounds(img: Image, v: int, x0: int, xEnd: int, c: int, lo: int, hi: int)
    requires x0 <= xEnd
    requires forall u | x0 <= u < xEnd :: lo <= Get(img, u, v, c) <= hi
    ensures (xEnd - x0) * lo <= RowSum(img, v, x0, xEnd, c) <= (xEnd - x0) * hi
    decreases xEnd - x0
  {
    if xEnd > x0 {
      RowSumBounds(img, v, x0, xEnd - 1, c, lo, hi);
      assert (xEnd - x0) * lo == (xEnd - 1 - x0) * lo + lo;
      assert (xEnd - x0) * hi == (xEnd - 1 - x0) * hi + hi;
    }
  }

  /** Rows that each sum to between `lo` and `hi` give a box sum between `m * lo` and `m * hi`. */
  lemma {:induction false} BoxSumBounds(img: Image, x0: int, xEnd: int, y0: int, yEnd: int, c: int, lo: int, hi: int)
    requires y0 <= yEnd
    requires forall v | y0 <= v < yEnd :: lo <= RowSum(img, v, x0, xEnd, c) <= hi
    ensures (yEnd - y0) * lo <= BoxSum(img, x0, xEnd, y0, yEnd, c) <= (yEnd - y0) * hi
    decreases yEnd - y0
  {
    if yEnd > y0 {
      BoxSumBounds(img, x0, xEnd, y0, yEnd - 1, c, lo, hi);
      assert (yEnd - y0) * lo == (yEnd - 1 - y0) * lo + lo;
      assert (yEnd - y0) * hi == (yEnd - 1 - y0) * hi + hi;
    }
  }

  /**
   * The clipped box is exactly the set of image pixels at most one column and
   * one row away from (x, y); it holds 4 pixels at a corner, 6 along an edge
   * and 9 inside once the image is at least 2x2.
   */
  lemma ClippedBoxShape(img: Image, x: int, y: int)
    requires InImage(img, x, y)
    ensures forall u, v :: InBox(ClippedBox(img, x, y), u, v) <==> InImage(img, u, v) && Near(x, y, u, v)
    ensures var b := ClippedBox(img, x, y);
      && BoxWidth(b) == (if img.width == 1 then 1 else if x == 0 || x == img.width - 1 then 2 else 3)
      && BoxHeight(b) == (if img.height == 1 then 1 else if y == 0 || y == img.height - 1 then 2 else 3)
    ensures img.width >= 2 && img.height >= 2 ==>
      var b := ClippedBox(img, x, y);
      var xEdge, yEdge := x == 0 || x == img.width - 1, y == 0 || y == img.height - 1;
      && (xEdge && yEdge ==> BoxCount(b) == 4)
      && (xEdge != yEdge ==> BoxCount(b) == 6)
      && (!xEdge && !yEdge ==> BoxCount(b) == 9)
  {
  }

  /**
   * If channel `c` lies in [lo, hi] on every pixel of the clipped 3x3 box,
   * the filtered value lies in [lo, hi] as well.
   */
  lemma AverageWithinBounds(img: Image, x: int, y: int, c: int, lo: int, hi: int)
    requires InImage(img, x, y) && 0 <= c < 3
    requires forall u, v | InImage(img, u, v) && Near(x, y, u, v) ::
      lo <= Get(img, u, v, c) <= hi
    ensures lo <= AveragePixel(img, x, y, c) <= hi
  {
    var b := ClippedBox(img, x, y);
    var n, m := BoxWidth(b), BoxHeight(b);
    var xEnd, yEnd := b.x1 + 1, b.y1 + 1;
    var total := Total(img, b, c);
    assert m * (n * lo) <= total <= m * (n * hi) by {
      ClippedBoxShape(img, x, y);
      forall v | b.y0 <= v < yEnd
        ensures n * lo <= RowSum(img, v, b.x0, xEnd, c) <= n * hi
      {
        assert forall u | b.x0 <= u < xEnd :: InBox(b, u, v);
        RowSumBounds(img, v, b.x0, xEnd, c, lo, hi);
      }
      BoxSumBounds(img, b.x0, xEnd, b.y0, yEnd, c, n * lo, n * hi);
    }
    assert n >= 1 && m >= 1 by {
      ClippedBoxShape(img, x, y);
    }
    RoundedMeanWithin(total, n, m, lo, hi);
  }

  lemma RoundedMeanWithin(total: int, n: int, m: int, lo: int, hi: int)
    requires n >= 1 && m >= 1 && m * (n * lo) <= total <= m * (n * hi)
    ensures lo <= RoundHalfUp(total as real / (n * m) as real) <= hi
  {
    assert m * (n * lo) == (n * m) * lo && m * (n * hi) == (n * m) * hi;
    MeanWithin(total, n * m, lo, hi);
    RoundHalfUpWithin(total as real / (n * m) as real, lo, hi);
  }

  /** The output lies between the minimum and the maximum of the clipped window. */
  lemma AveragingWithinWindow(img: Image, x: int, y: int, c: int, lo: int, hi: int)
    requires Valid(img) && InImage(img, x, y) && 0 <= c < 3
    requires forall u, v | InImage(img, u, v) && Near(x, y, u, v) ::
      lo <= Get(img, u, v, c) <= hi
    ensures lo <= Get(ApplyAveragingFilter(img), x, y, c) <= hi
  {
    AverageWithinBounds(img, x, y, c, lo, hi);
  }

  /** Every pixel carries the same colour. */
  ghost predicate Uniform(img: Image)
  {
    forall x, y, c | InImage(img, x, y) && 0 <= c < 3 :: Get(img, x, y, c) == Get(img, 0, 0, c)
  }

  /** A uniform-colour image is a fixed point of the filter. */
  lemma AveragingUniformFixedPoint(img: Image)
    requires Valid(img) && Uniform(img)
    ensures ApplyAveragingFilter(img) == img
  {
    var r := ApplyAveragingFilter(img);
    forall x, y, c | InImage(img, x, y) && IsChannel(c)
      ensures Get(r, x, y, c) == Get(img, x, y, c)
    {
      if c < 3 {
        var v := Get(img, 0, 0, c);
        AverageWithinBounds(img, x, y, c, v, v);
      }
    }
    Extensionality(r, img);
  }
}

/**
 * The filter as the source runs it: a scan over the pixels that writes into
 * the buffer in place while every read goes to a snapshot taken first.
 */
module AveragingInPlace {
  import opened Numeric
  import opened PixelBuffer
  import opened Averaging

  /** The first `k` entries of `cur` are final, the rest still hold the original. */
  ghost predicate WrittenUpTo(cur: seq<int>, target: seq<int>, original: seq<int>, k: int)
  {
    && |cur| == |target| == |original|
    && forall i | 0 <= i < |cur| :: cur[i] == (if i < k then target[i] else original[i])
  }

  /**
   * `applyAveragingFilter` as written: its in-place writes, in the source's
   * row-major order, give the pointwise result because every sum reads the
   * snapshot.
   */
  method ApplyAveragingFilterInPlace(img: Image) returns (out: Image)
    requires Valid(img)
    ensures out == ApplyAveragingFilter(img)
  {
    var width, height := img.width, img.height;
    var originalData := img.data;
    var data := new int[|originalData|](i requires 0 <= i < |originalData| => originalData[i]);
    ghost var target := ApplyAveragingFilter(img).data;
    var y: int := 0;
    while y < height
      invariant 0 <= y <= height
      invariant WrittenUpTo(data[..], target, originalData, y * width * 4)
    {
      FilterRow(img, data, y, target);
      y := y + 1;
    }
    assert y * width * 4 == |target| by {
      assert y * width == width * height;
    }
    WrittenAll(data[..], target, originalData, y * width * 4);
    out := Image(width, height, data[..]);
  }

  /** One pass of the source's `x` loop: every pixel of row `y` gets its box mean and keeps its alpha. */
  method FilterRow(img: Image, data: array<int>, y: int, ghost target: seq<int>)
    requires Valid(img) && 0 <= y < img.height && target == ApplyAveragingFilter(img).data
    requires WrittenUpTo(data[..], target, img.data, y * img.width * 4)
    modifies data
    ensures WrittenUpTo(data[..], target, img.data, (y + 1) * img.width * 4)
  {
    var width := img.width;
    var x: int := 0;
    while x < width
      invariant 0 <= x <= width
      invariant WrittenUpTo(data[..], target, img.data, (y * width + x) * 4)
    {
      var rAvg, gAvg, bAvg := BoxAverage(img, x, y);
      var centerIdx := (y * width + x) * 4;
      IdxInRange(width, img.height, x, y, 3);
      WriteStep(img, x, y, centerIdx, data[..], target, img.data, rAvg, gAvg, bAvg);
      data[centerIdx] := rAvg;
      data[centerIdx + 1] := gAvg;
      data[centerIdx + 2] := bAvg;
      data[centerIdx + 3] := img.data[centerIdx + 3];
      x := x + 1;
    }
    assert (y * width + width) * 4 == (y + 1) * width * 4;
  }

  /** The three channel means over the clipped box of (x, y), summed as the source's box loops do. */
  method BoxAverage(img: Image, x: int, y: int) returns (rAvg: int, gAvg: int, bAvg: int)
    requires Valid(img) && InImage(img, x, y)
    ensures rAvg == AveragePixel(img, x, y, 0) && gAvg == AveragePixel(img, x, y, 1)
    ensures bAvg == AveragePixel(img, x, y, 2)
  {
    var width, height := img.width, img.height;
    var startX, endX := Max(0, x - 1), Min(width - 1, x + 1);
    var startY, endY := Max(0, y - 1), Min(height - 1, y + 1);
    var n, m := endX - startX + 1, endY - startY + 1;
    var totalPixels := n * m;
    var rSum, gSum, bSum := BoxSums(img, startX, endX, startY, endY);
    assert totalPixels >= 1 by {
      MulAtLeast(m, n);
    }
    rAvg := RoundHalfUp(rSum as real / totalPixels as real);
    gAvg := RoundHalfUp(gSum as real / totalPixels as real);
    bAvg := RoundHalfUp(bSum as real / totalPixels as real);
    ghost var box := ClippedBox(img, x, y);
    SameProduct(n, m, BoxWidth(box), BoxHeight(box));
    MeanOf(img, box, 0, rSum, totalPixels);
    MeanOf(img, box, 1, gSum, totalPixels);
    MeanOf(img, box, 2, bSum, totalPixels);
  }

  /** The colour sums over the box with inclusive bounds `x0..x1`, `y0..y1`, row by row. */
  method BoxSums(img: Image, x0: int, x1: int, y0: int, y1: int) returns (rSum: int, gSum: int, bSum: int)
    requires Valid(img) && 0 <= x0 <= x1 < img.width && 0 <= y0 <= y1 < img.height
    ensures rSum == BoxSum(img, x0, x1 + 1, y0, y1 + 1, 0) && gSum == BoxSum(img, x0, x1 + 1, y0, y1 + 1, 1)
    ensures bSum == BoxSum(img, x0, x1 + 1, y0, y1 + 1, 2)
  {
    rSum, gSum, bSum := 0, 0, 0;
    var boxY := y0;
    while boxY <= y1
      invariant y0 <= boxY <= y1 + 1
      invariant rSum == BoxSum(img, x0, x1 + 1, y0, boxY, 0)
      invariant gSum == BoxSum(img, x0, x1 + 1, y0, boxY, 1)
      invariant bSum == BoxSum(img, x0, x1 + 1, y0, boxY, 2)
    {
      var r, g, b := RowSums(img, boxY, x0, x1);
      rSum, gSum, bSum := rSum + r, gSum + g, bSum + b;
      boxY := boxY + 1;
    }
  }

  lemma SameProduct(a: int, b: int, c: int, d: int)
    requires a == c && b == d
    ensures a * b == c * d
  {
  }

  lemma MeanOf(img: Image, b: Box, c: int, sum: int, count: int)
    requires BoxWidth(b) >= 1 && BoxHeight(b) >= 1
    requires sum == Total(img, b, c) && count == BoxCount(b)
    ensures count != 0 && sum as real / count as real == BoxMean(img, b, c)
  {
  }

  /** The colour sums over columns `x0..x1` of row `v`, read left to right. */
  method RowSums(img: Image, v: int, x0: int, x1: int) returns (r: int, g: int, b: int)
    requires Valid(img) && 0 <= v < img.height && 0 <= x0 <= x1 < img.width
    ensures r == RowSum(img, v, x0, x1 + 1, 0) && g == RowSum(img, v, x0, x1 + 1, 1)
    ensures b == RowSum(img, v, x0, x1 + 1, 2)
  {
    r, g, b := 0, 0, 0;
    var u := x0;
    while u <= x1
      invariant x0 <= u <= x1 + 1
      invariant r == RowSum(img, v, x0, u, 0) && g == RowSum(img, v, x0, u, 1)
      invariant b == RowSum(img, v, x0, u, 2)
    {
      var idx := (v * img.width + u) * 4;
      GetIsData(img, u, v, 0);
      GetIsData(img, u, v, 1);
      GetIsData(img, u, v, 2);
      r, g, b := r + img.data[idx], g + img.data[idx + 1], b + img.data[idx + 2];
      u := u + 1;
    }
  }

  /** Writing the four bytes of pixel (x, y), which start at offset `k`, extends the finished prefix by one pixel. */
  lemma WriteStep(img: Image, x: int, y: int, k: int, cur: seq<int>, target: seq<int>, original: seq<int>,
                  rAvg: int, gAvg: int, bAvg: int)
    requires Valid(img) && InImage(img, x, y) && original == img.data
    requires k == Idx(img.width, x, y, 0) && 0 <= k && k + 3 < |original|
    requires target == ApplyAveragingFilter(img).data
    requires WrittenUpTo(cur, target, original, k)
    requires rAvg == AveragePixel(img, x, y, 0) && gAvg == AveragePixel(img, x, y, 1)
    requires bAvg == AveragePixel(img, x, y, 2)
    ensures WrittenUpTo(cur[k := rAvg][k + 1 := gAvg][k + 2 := bAvg][k + 3 := original[k + 3]],
                        target, original, k + 4)
  {
    assert target[k] == rAvg by {
      FilteredAt(img, x, y, 0);
    }
    assert target[k + 1] == gAvg by {
      FilteredAt(img, x, y, 1);
      assert Idx(img.width, x, y, 1) == k + 1;
    }
    assert target[k + 2] == bAvg by {
      FilteredAt(img, x, y, 2);
      assert Idx(img.width, x, y, 2) == k + 2;
    }
    assert target[k + 3] == original[k + 3] by {
      FilteredAt(img, x, y, 3);
      GetIsData(img, x, y, 3);
      assert Idx(img.width, x, y, 3) == k + 3;
    }
    PixelWritten(cur, target, original, k, rAvg, gAvg, bAvg);
  }

  /** The filtered buffer holds `AveragePixel` at every offset of the image. */
  lemma FilteredAt(img: Image, x: int, y: int, c: int)
    requires Valid(img) && InImage(img, x, y) && IsChannel(c)
    ensures 0 <= Idx(img.width, x, y, c) < |img.data|
    ensures ApplyAveragingFilter(img).data[Idx(img.width, x, y, c)] == AveragePixel(img, x, y, c)
  {
    var r := ApplyAveragingFilter(img);
    GetIsData(r, x, y, c);
    GetIsData(img, x, y, c);
  }

  lemma WrittenAll(cur: seq<int>, target: seq<int>, original: seq<int>, k: int)
    requires WrittenUpTo(cur, target, original, k) && k >= |target|
    ensures cur == target
  {
  }

  lemma PixelWritten(cur: seq<int>, target: seq<int>, original: seq<int>, k: int, a: int, b: int, c: int)
    requires WrittenUpTo(cur, target, original, k) && 0 <= k && k + 3 < |cur|
    requires target[k] == a && target[k + 1] == b && target[k + 2] == c && target[k + 3] == original[k + 3]
    ensures WrittenUpTo(cur[k := a][k + 1 := b][k + 2 := c][k + 3 := original[k + 3]], target, original, k + 4)
  {
  }
}
