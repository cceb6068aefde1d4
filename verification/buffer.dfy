/**
 * The pixel buffer every algorithm reads and writes: `width`, `height` and a
 * row-major plane of R, G, B, A bytes, four per pixel, top-left first.
 */
module PixelBuffer {

  datatype Image = Image(width: nat, height: nat, data: seq<int>)

  predicate IsByte(v: int) { 0 <= v <= 255 }

  /** `data.length == width * height * 4` and every entry is a byte. */
  predicate Valid(img: Image)
  {
    && |img.data| == img.width * img.height * 4
    && forall i | 0 <= i < |img.data| :: IsByte(img.data[i])
  }

  /** Offset of channel `c` of pixel (x, y): `(y * width + x) * 4 + c`. */
  function Idx(w: int, x: int, y: int, c: int): int
  {
    (y * w + x) * 4 + c
  }

  predicate InImage(img: Image, x: int, y: int)
  {
    0 <= x < img.width && 0 <= y < img.height
  }

  predicate IsChannel(c: int) { 0 <= c < 4 }

  /** Channel `c` of pixel (x, y), or 0 for a position outside the buffer. */
  function Get(img: Image, x: int, y: int, c: int): int
  {
    var i := Idx(img.width, x, y, c);
    if InImage(img, x, y) && IsChannel(c) && 0 <= i < |img.data| then img.data[i] else 0
  }

  predicate SameSize(a: Image, b: Image)
  {
    a.width == b.width && a.height == b.height
  }

  lemma MulAtLeast(k: int, d: int)
    requires k >= 1 && d >= 0
    ensures k * d >= d
  {
    if k > 1 {
      MulAtLeast(k - 1, d);
      assert k * d == (k - 1) * d + d;
    }
  }

  /** Quotient and remainder are determined by the division identity. */
  lemma DivModUnique(a: int, d: int, q: int, r: int)
    requires d > 0 && 0 <= r < d && a == q * d + r
    ensures a / d == q && a % d == r
  {
    var q', r' := a / d, a % d;
    assert a == q' * d + r';
    if q' > q {
      MulAtLeast(q' - q, d);
      assert false;
    } else if q' < q {
      MulAtLeast(q - q', d);
      assert false;
    }
  }

  /** The offset of a channel of a pixel inside the image lies inside the buffer and decodes back. */
  lemma IdxInRange(w: nat, h: nat, x: int, y: int, c: int)
    requires 0 <= x < w && 0 <= y < h && 0 <= c < 4
    ensures 0 <= y * w + x < w * h
    ensures 0 <= Idx(w, x, y, c) < w * h * 4
    ensures Idx(w, x, y, c) / 4 == y * w + x && Idx(w, x, y, c) % 4 == c
    ensures (y * w + x) / w == y && (y * w + x) % w == x
  {
    var p := y * w + x;
    assert 0 <= y * w;
    if y + 1 < h {
      MulAtLeast(h - (y + 1), w);
      assert (h - (y + 1)) * w == h * w - y * w - w;
    }
    assert p < w * h;
    DivModUnique(p * 4 + c, 4, p, c);
    DivModUnique(p, w, y, x);
  }

  /** Every offset of the buffer is some channel of some pixel. */
  lemma Decode(w: nat, h: nat, i: int)
    requires 0 <= i < w * h * 4
    ensures w > 0
    ensures 0 <= (i / 4) % w < w && 0 <= (i / 4) / w < h
    ensures Idx(w, (i / 4) % w, (i / 4) / w, i % 4) == i
  {
    var p := i / 4;
    assert w > 0;
    assert p < w * h;
    var x, y := p % w, p / w;
    assert p == y * w + x;
    if y >= h {
      if y > h {
        MulAtLeast(y - h, w);
      }
      assert false;
    }
  }

  /** Inside a well-formed buffer, `Get` reads the byte at the pixel's offset. */
  lemma GetIsData(img: Image, x: int, y: int, c: int)
    requires Valid(img) && InImage(img, x, y) && IsChannel(c)
    ensures 0 <= Idx(img.width, x, y, c) < |img.data|
    ensures Get(img, x, y, c) == img.data[Idx(img.width, x, y, c)]
  {
    IdxInRange(img.width, img.height, x, y, c);
  }

  /** Every read of a well-formed buffer is a byte. */
  lemma GetIsByte(img: Image, x: int, y: int, c: int)
    requires Valid(img)
    ensures IsByte(Get(img, x, y, c))
  {
  }

  /**
   * Builds the buffer whose channel `c` at pixel (x, y) is `f(x, y, c)`:
   * the pointwise form of a filter.
   */
  function BuildImage(w: nat, h: nat, f: (int, int, int) -> int): (r: Image)
    requires forall x, y, c | 0 <= x < w && 0 <= y < h && IsChannel(c) :: IsByte(f(x, y, c))
    ensures Valid(r) && r.width == w && r.height == h
    ensures forall x, y, c | 0 <= x < w && 0 <= y < h && IsChannel(c) :: Get(r, x, y, c) == f(x, y, c)
  {
    var r := Image(w, h, seq(w * h * 4, i => if w == 0 then 0 else f((i / 4) % w, (i / 4) / w, i % 4)));
    BuildImageFacts(w, h, f, r);
    r
  }

  lemma BuildImageFacts(w: nat, h: nat, f: (int, int, int) -> int, r: Image)
    requires forall x, y, c | 0 <= x < w && 0 <= y < h && IsChannel(c) :: IsByte(f(x, y, c))
    requires r == Image(w, h, seq(w * h * 4, i => if w == 0 then 0 else f((i / 4) % w, (i / 4) / w, i % 4)))
    ensures Valid(r)
    ensures forall x, y, c | 0 <= x < w && 0 <= y < h && IsChannel(c) :: Get(r, x, y, c) == f(x, y, c)
  {
    forall i | 0 <= i < |r.data|
      ensures IsByte(r.data[i])
    {
      Decode(w, h, i);
    }
    forall x, y, c | 0 <= x < w && 0 <= y < h && IsChannel(c)
      ensures Get(r, x, y, c) == f(x, y, c)
    {
      IdxInRange(w, h, x, y, c);
    }
  }

  /** Two well-formed buffers of one shape that agree on every read are equal. */
  lemma Extensionality(a: Image, b: Image)
    requires Valid(a) && Valid(b) && SameSize(a, b)
    requires forall x, y, c | InImage(a, x, y) && IsChannel(c) :: Get(a, x, y, c) == Get(b, x, y, c)
    ensures a == b
  {
    forall i | 0 <= i < |a.data|
      ensures a.data[i] == b.data[i]
    {
      Decode(a.width, a.height, i);
      var x, y, c := (i / 4) % a.width, (i / 4) / a.width, i % 4;
      GetIsData(a, x, y, c);
      GetIsData(b, x, y, c);
    }
  }

  predicate AllBytes(s: seq<int>)
  {
    forall i | 0 <= i < |s| :: IsByte(s[i])
  }

  /** The pixel count `width * height`. */
  function PixelCount(img: Image): nat { img.width * img.height }

  /** Channel `c` of every pixel, in buffer order. */
  function Channel(img: Image, c: int): (s: seq<int>)
    requires Valid(img) && IsChannel(c)
    ensures |s| == PixelCount(img) && AllBytes(s)
    ensures forall p | 0 <= p < |s| :: s[p] == img.data[4 * p + c]
  {
    seq(img.width * img.height, p requires 0 <= p < img.width * img.height => img.data[4 * p + c])
  }

  /** `(r + g + b) / 3`, the exact mean of the colour channels of pixel (x, y). */
  function RgbMean(img: Image, x: int, y: int): real
  {
    (Get(img, x, y, 0) + Get(img, x, y, 1) + Get(img, x, y, 2)) as real / 3.0
  }

  /** `after` holds the alpha byte of `before` at every pixel. */
  ghost predicate AlphaKept(before: Image, after: Image)
  {
    forall x, y | InImage(before, x, y) :: Get(after, x, y, 3) == Get(before, x, y, 3)
  }

  /** Pixel (x, y) lies at least `radius` pixels away from every edge. */
  predicate Interior(img: Image, radius: int, x: int, y: int)
  {
    radius <= x < img.width - radius && radius <= y < img.height - radius
  }

  /** Every pixel within `radius` of an edge keeps all four bytes. */
  ghost predicate BorderKept(before: Image, after: Image, radius: int)
  {
    forall x, y, c | InImage(before, x, y) && IsChannel(c) && !Interior(before, radius, x, y) ::
      Get(after, x, y, c) == Get(before, x, y, c)
  }

  /** An image too narrow or too short to have an interior pixel is all border, so keeping the border keeps it whole. */
  lemma NoInteriorUnchanged(before: Image, after: Image, radius: int)
    requires Valid(before) && Valid(after) && SameSize(after, before) && BorderKept(before, after, radius)
    requires before.width <= 2 * radius || before.height <= 2 * radius
    ensures after == before
  {
    forall x, y, c | InImage(after, x, y) && IsChannel(c)
      ensures Get(after, x, y, c) == Get(before, x, y, c)
    {
      assert !Interior(before, radius, x, y);
    }
    Extensionality(after, before);
  }

  /**
   * The (2 * radius + 1)-square neighbourhood of (x, y) in channel `c`, row
   * offset first, as the convolution loops visit it.
   */
  function Window(img: Image, x: int, y: int, radius: nat, c: int): (s: seq<seq<real>>)
    ensures |s| == 2 * radius + 1
    ensures forall ky | 0 <= ky < |s| :: |s[ky]| == 2 * radius + 1
    ensures forall ky, kx | 0 <= ky < |s| && 0 <= kx < |s[ky]| ::
      s[ky][kx] == Get(img, x - radius + kx, y - radius + ky, c) as real
  {
    seq(2 * radius + 1, ky => seq(2 * radius + 1, kx => Get(img, x - radius + kx, y - radius + ky, c) as real))
  }
}
