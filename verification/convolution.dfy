/**
 * The kernel-weighted sum the convolution filters compute at a pixel: the
 * `(2 * radius + 1)`-square window around (x, y), read from the input, row
 * offset first, weighted by the kernel cell at the same offset.
 */
module Convolution {
  import opened Sums
  import opened PixelBuffer

  /** The window around any pixel has the kernel's shape. */
  lemma WindowFits(kernel: seq<seq<real>>, img: Image, x: int, y: int, radius: nat, c: int)
    requires IsSquare(kernel, 2 * radius + 1)
    ensures SameShape(kernel, Window(img, x, y, radius, c))
  {
  }

  /** `sum over ky, kx of data[((y + ky) * width + (x + kx)) * 4 + c] * kernel[ky + radius][kx + radius]`. */
  function Convolve(kernel: seq<seq<real>>, img: Image, x: int, y: int, radius: nat, c: int): real
    requires IsSquare(kernel, 2 * radius + 1)
  {
    WindowFits(kernel, img, x, y, radius, c);
    Dot2(kernel, Window(img, x, y, radius, c))
  }

  /** The sum of a three-term row. */
  lemma SumOfThree(s: seq<real>)
    requires |s| == 3
    ensures Sum(s) == s[0] + s[1] + s[2]
  {
    assert s[..|s| - 1] == s[..2];
    assert s[..2][..1] == s[..1];
    assert s[..1][..0] == [];
    assert Sum(s[..1]) == s[0];
    assert Sum(s[..2]) == s[0] + s[1];
  }

  /** The total weight of a 3x3 kernel is the sum of its row totals. */
  lemma Sum2OfThree(k: seq<seq<real>>)
    requires IsSquare(k, 3)
    ensures Sum2(k) == (k[0][0] + k[0][1] + k[0][2]) + (k[1][0] + k[1][1] + k[1][2]) + (k[2][0] + k[2][1] + k[2][2])
  {
    var t := RowTotals(k);
    SumOfThree(k[0]);
    SumOfThree(k[1]);
    SumOfThree(k[2]);
    SumOfThree(t);
  }
}
