/**
 * Per-channel colour histograms: for each of R, G and B, 256 buckets whose
 * bucket `v` is the share of pixels whose channel value is `v`; and their
 * cumulative form, whose entry `i` is the share of pixels with value at
 * most `i`. Both divide by `width * height`, which must be positive.
 */
module ColorHistogram {
  import opened Sums
  import opened Sorting
  import opened PixelBuffer
  import opened Tallies

  datatype Histograms = Histograms(red: seq<real>, green: seq<real>, blue: seq<real>)

  /** The histogram of channel `c`: 0 for red, 1 for green, 2 for blue. */
  function Of(hs: Histograms, c: int): seq<real>
  {
    if c == 0 then hs.red else if c == 1 then hs.green else hs.blue
  }

  /** The counted buckets of one channel, each divided by the pixel count. */
  function Normalised(img: Image, c: int): (h: seq<real>)
    requires Valid(img) && 0 <= c < 3 && PixelCount(img) > 0
    ensures |h| == 256
    ensures forall v | 0 <= v < 256 :: h[v] == multiset(Channel(img, c))[v] as real / PixelCount(img) as real
  {
    var vals := Channel(img, c);
    var h := Scale(Tally(vals), PixelCount(img) as real);
    ShareFacts(vals, PixelCount(img), h);
    h
  }

  /** Dividing the tally of `vals` by `n` gives, in bucket `v`, the share of values equal to `v`. */
  lemma ShareFacts(vals: seq<int>, n: nat, h: seq<real>)
    requires AllBytes(vals) && n > 0 && h == Scale(Tally(vals), n as real)
    ensures forall v | 0 <= v < 256 :: h[v] == multiset(vals)[v] as real / n as real
  {
    forall v | 0 <= v < 256
      ensures h[v] == multiset(vals)[v] as real / n as real
    {
      TallyCounts(vals, v);
    }
  }

  /**
   * `calculateColorHistograms(imageData)`: bucket `v` of each channel is the
   * number of pixels whose value in that channel is `v`, divided by the
   * pixel count.
   */
  function CalculateColorHistograms(img: Image): (hs: Histograms)
    requires Valid(img) && PixelCount(img) > 0
    ensures forall c | 0 <= c < 3 :: |Of(hs, c)| == 256
    ensures forall c, v | 0 <= c < 3 && 0 <= v < 256 ::
      Of(hs, c)[v] == multiset(Channel(img, c))[v] as real / PixelCount(img) as real
  {
    var hs := Histograms(Normalised(img, 0), Normalised(img, 1), Normalised(img, 2));
    HistogramsFacts(img, hs);
    hs
  }

  /** Histograms built channel by channel from `Normalised` hold the shares of each channel. */
  lemma HistogramsFacts(img: Image, hs: Histograms)
    requires Valid(img) && PixelCount(img) > 0
    requires hs == Histograms(Normalised(img, 0), Normalised(img, 1), Normalised(img, 2))
    ensures forall c | 0 <= c < 3 :: |Of(hs, c)| == 256
    ensures forall c, v | 0 <= c < 3 && 0 <= v < 256 ::
      Of(hs, c)[v] == multiset(Channel(img, c))[v] as real / PixelCount(img) as real
  {
    forall c | 0 <= c < 3
      ensures Of(hs, c) == Normalised(img, c)
    {
    }
  }

  /** Before the division, each channel's counts add up to the pixel count. */
  lemma RawCountsTotal(img: Image, c: int)
    requires Valid(img) && 0 <= c < 3
    ensures Sum(Tally(Channel(img, c))) == PixelCount(img) as real
  {
    TallyTotal(Channel(img, c));
  }

  /** Every bucket is a share: between 0 and 1. */
  lemma HistogramBucketBounds(img: Image, c: int, v: int)
    requires Valid(img) && PixelCount(img) > 0 && 0 <= c < 3 && 0 <= v < 256
    ensures 0.0 <= Of(CalculateColorHistograms(img), c)[v] <= 1.0
  {
    var vals := Channel(img, c);
    assert multiset(vals)[v] <= |multiset(vals)|;
    ShareWithin(multiset(vals)[v], PixelCount(img));
  }

  lemma ShareWithin(k: nat, n: nat)
    requires 0 < n && k <= n
    ensures 0.0 <= k as real / n as real <= 1.0
  {
  }

  /** The buckets of each channel sum to 1. */
  lemma HistogramSumsToOne(img: Image, c: int)
    requires Valid(img) && PixelCount(img) > 0 && 0 <= c < 3
    ensures Sum(Of(CalculateColorHistograms(img), c)) == 1.0
  {
    var n := PixelCount(img);
    var t := Tally(Channel(img, c));
    var h := Of(CalculateColorHistograms(img), c);
    assert h == Normalised(img, c);
    assert h == Scale(t, n as real);
    RawCountsTotal(img, c);
    SumScale(t, n as real);
    WholeShare(n);
  }

  lemma WholeShare(n: nat)
    requires 0 < n
    ensures n as real / n as real == 1.0
  {
  }

  /**
   * `calculateCumulativeHistograms(imageData)`: the running sums of each
   * channel's histogram, so entry `i` is the share of pixels whose value in
   * that channel is at most `i`.
   */
  function CalculateCumulativeHistograms(img: Image): (cs: Histograms)
    requires Valid(img) && PixelCount(img) > 0
    ensures forall c | 0 <= c < 3 :: |Of(cs, c)| == 256
    ensures forall c, i | 0 <= c < 3 && 0 <= i < 256 ::
      Of(cs, c)[i] == CountAtMost(Channel(img, c), i) as real / PixelCount(img) as real
  {
    var hs := CalculateColorHistograms(img);
    var cs := Histograms(Cumulative(hs.red), Cumulative(hs.green), Cumulative(hs.blue));
    CumulativeHistogramFacts(img, hs, cs);
    cs
  }

  /** Running sums taken channel by channel turn bucket shares into at-most shares. */
  lemma CumulativeHistogramFacts(img: Image, hs: Histograms, cs: Histograms)
    requires Valid(img) && PixelCount(img) > 0
    requires forall c | 0 <= c < 3 :: |Of(hs, c)| == 256
    requires forall c, v | 0 <= c < 3 && 0 <= v < 256 ::
      Of(hs, c)[v] == multiset(Channel(img, c))[v] as real / PixelCount(img) as real
    requires cs == Histograms(Cumulative(hs.red), Cumulative(hs.green), Cumulative(hs.blue))
    ensures forall c | 0 <= c < 3 :: |Of(cs, c)| == 256
    ensures forall c, i | 0 <= c < 3 && 0 <= i < 256 ::
      Of(cs, c)[i] == CountAtMost(Channel(img, c), i) as real / PixelCount(img) as real
  {
    forall c | 0 <= c < 3
      ensures Of(cs, c) == Cumulative(Of(hs, c))
      ensures forall i | 0 <= i < 256 ::
        Of(cs, c)[i] == CountAtMost(Channel(img, c), i) as real / PixelCount(img) as real
    {
      CumulativeFacts(Channel(img, c), PixelCount(img), Of(hs, c));
    }
  }

  /** The running sums of the shares of `vals` are the shares of values at most each index. */
  lemma CumulativeFacts(vals: seq<int>, n: nat, h: seq<real>)
    requires AllBytes(vals) && n > 0 && |h| == 256
    requires forall v | 0 <= v < 256 :: h[v] == multiset(vals)[v] as real / n as real
    ensures forall i | 0 <= i < 256 :: Cumulative(h)[i] == CountAtMost(vals, i) as real / n as real
  {
    var t := Tally(vals);
    forall v | 0 <= v < 256
      ensures h[v] == Scale(t, n as real)[v]
    {
      TallyCounts(vals, v);
    }
    assert h == Scale(t, n as real);
    forall i | 0 <= i < 256
      ensures Cumulative(h)[i] == CountAtMost(vals, i) as real / n as real
    {
      CumulativePrefix(h, i);
      assert h[..i + 1] == Scale(t[..i + 1], n as real);
      SumScale(t[..i + 1], n as real);
      TallyPrefix(vals, i);
    }
  }

  /** The cumulative histogram never decreases. */
  lemma CumulativeMonotone(img: Image, c: int, i: int, j: int)
    requires Valid(img) && PixelCount(img) > 0 && 0 <= c < 3 && 0 <= i <= j < 256
    ensures Of(CalculateCumulativeHistograms(img), c)[i] <= Of(CalculateCumulativeHistograms(img), c)[j]
  {
    CountAtMostMonotone(Channel(img, c), i, j);
    ShareMonotone(CountAtMost(Channel(img, c), i), CountAtMost(Channel(img, c), j), PixelCount(img));
  }

  lemma ShareMonotone(a: nat, b: nat, n: nat)
    requires 0 < n && a <= b
    ensures a as real / n as real <= b as real / n as real
  {
  }

  /** The last cumulative entry is 1: every pixel has a value at most 255. */
  lemma CumulativeLast(img: Image, c: int)
    requires Valid(img) && PixelCount(img) > 0 && 0 <= c < 3
    ensures Of(CalculateCumulativeHistograms(img), c)[255] == 1.0
  {
    var n := PixelCount(img);
    CountAtMostBounds(Channel(img, c));
    assert CountAtMost(Channel(img, c), 255) == n;
    WholeShare(n);
  }
}
