/**
 * The single-channel histogram of the image utilities. A scan of the
 * buffer's first bytes (offsets below `min(1000, data.length)`, so at most
 * the first 250 pixels) decides whether the image is gray; if every scanned
 * pixel has R = G = B, every pixel is bucketed by its R byte, otherwise by
 * its rounded RGB mean. The 256 buckets hold counts, not shares.
 */
module CreateHistogram {
  import opened Numeric
  import opened Sums
  import opened PixelBuffer
  import opened Tallies

  /** Offsets below this bound are inspected by the gray scan. */
  function ScanLimit(data: seq<int>): int { Min(1000, |data|) }

  /** Pixel starting at offset `i` has R = G = B. */
  predicate GrayAt(data: seq<int>, i: int)
    requires 0 <= i && i + 2 < |data|
  {
    data[i] == data[i + 1] && data[i + 1] == data[i + 2]
  }

  /** The scan loop from offset `i`, stepping by 4 and stopping at the first non-gray pixel. */
  function ScanFrom(data: seq<int>, i: nat): bool
    requires |data| % 4 == 0 && i % 4 == 0
    decreases ScanLimit(data) - i
  {
    if i >= ScanLimit(data) then true
    else if data[i] != data[i + 1] || data[i + 1] != data[i + 2] then false
    else ScanFrom(data, i + 4)
  }

  /** The scan from offset `i` succeeds exactly when every scanned pixel from `i` on is gray. */
  lemma {:induction false} ScanFromMeans(data: seq<int>, i: nat)
    requires |data| % 4 == 0 && i % 4 == 0
    ensures ScanFrom(data, i) <==>
      forall p | i <= 4 * p < ScanLimit(data) :: GrayAt(data, 4 * p)
    decreases ScanLimit(data) - i
  {
    if i < ScanLimit(data) {
      ScanFromMeans(data, i + 4);
      var k := i / 4;
      assert i == 4 * k;
      assert ScanFrom(data, i) == (GrayAt(data, 4 * k) && ScanFrom(data, i + 4));
    }
  }

  /** The image counts as gray: the scan finds no pixel with differing channels. */
  function IsGrayscale(img: Image): bool
    requires Valid(img)
  {
    ScanFrom(img.data, 0)
  }

  /** `Math.round((r + g + b) / 3)`, which is always a bucket index. */
  function AverageKey(r: int, g: int, b: int): (k: int)
    requires IsByte(r) && IsByte(g) && IsByte(b)
    ensures IsByte(k)
  {
    RoundHalfUpWithin((r + g + b) as real / 3.0, 0, 255);
    RoundHalfUp((r + g + b) as real / 3.0)
  }

  /** The bucket of each pixel in the colour branch. */
  function AverageKeys(img: Image): (s: seq<int>)
    requires Valid(img)
    ensures |s| == PixelCount(img) && AllBytes(s)
  {
    var r, g, b := Channel(img, 0), Channel(img, 1), Channel(img, 2);
    seq(PixelCount(img), p requires 0 <= p < PixelCount(img) => AverageKey(r[p], g[p], b[p]))
  }

  /** The bucket of each pixel: its R byte if the scan found the image gray, its rounded mean otherwise. */
  function Keys(img: Image): (s: seq<int>)
    requires Valid(img)
    ensures |s| == PixelCount(img) && AllBytes(s)
  {
    if IsGrayscale(img) then Channel(img, 0) else AverageKeys(img)
  }

  /**
   * `createHistogram(imageData)`: 256 buckets, one increment per pixel, so
   * bucket `v` counts the pixels whose key is `v` and the buckets add up to
   * the pixel count.
   */
  function CreateHistogram(img: Image): (h: seq<real>)
    requires Valid(img)
    ensures |h| == 256
    ensures forall v | 0 <= v < 256 :: h[v] == multiset(Keys(img))[v] as real
    ensures Sum(h) == PixelCount(img) as real
  {
    var keys := Keys(img);
    TallyFacts(keys);
    Tally(keys)
  }

  /**
   * The gray decision rests on the scanned pixels only: when those are gray,
   * every pixel, scanned or not, is bucketed by its R byte.
   */
  lemma GrayDecision(img: Image)
    requires Valid(img)
    ensures IsGrayscale(img) <==>
      forall p | 0 <= 4 * p < ScanLimit(img.data) :: GrayAt(img.data, 4 * p)
    ensures IsGrayscale(img) ==> forall p | 0 <= p < PixelCount(img) :: Keys(img)[p] == img.data[4 * p]
  {
    ScanFromMeans(img.data, 0);
  }

  /** For an image whose every pixel is gray, both branches give the same keys, hence the same histogram. */
  lemma FullyGrayAgrees(img: Image)
    requires Valid(img)
    requires forall p | 0 <= p < PixelCount(img) :: GrayAt(img.data, 4 * p)
    ensures IsGrayscale(img)
    ensures Keys(img) == AverageKeys(img)
  {
    var n := PixelCount(img);
    ScanFromMeans(img.data, 0);
    var r := Channel(img, 0);
    var a := AverageKeys(img);
    forall p | 0 <= p < n
      ensures a[p] == r[p]
    {
      assert GrayAt(img.data, 4 * p);
      var v := r[p];
      assert (v + v + v) as real / 3.0 == v as real;
    }
  }
}
