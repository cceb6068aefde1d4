/**
 * Per-channel image statistics: one pass accumulates, for each of R, G and
 * B, the sum, the sum of squares, the minimum (starting from 255) and the
 * maximum (starting from 0); the mean, the population variance and the
 * standard deviation follow, and an overall brightness, contrast and
 * dynamic range summarise the three channels. The pixel count
 * `width * height` must be positive.
 *
 * `Math.sqrt` is not modelled: it is a parameter `sqrt` of which only
 * `RootLike` is assumed.
 */
module ImageStats {
  import opened Numeric
  import opened PixelBuffer

  /** The running accumulators of one channel. */
  datatype Accumulator = Accumulator(sum: int, sumSquared: int, min: int, max: int)

  /** `{ sum: 0, sumSquared: 0, min: 255, max: 0 }`. */
  const Start := Accumulator(0, 0, 255, 0)

  /** One value added to the accumulators. */
  function Step(a: Accumulator, v: int): Accumulator
  {
    Accumulator(a.sum + v, a.sumSquared + v * v, Min(a.min, v), Max(a.max, v))
  }

  /** The accumulators after the values of `vals`, in order. */
  function Accumulate(vals: seq<int>): Accumulator
  {
    if |vals| == 0 then Start else Step(Accumulate(vals[..|vals| - 1]), vals[|vals| - 1])
  }

  /** The values summed from the front: a reference definition of the running `sum`. */
  function Total(vals: seq<int>): int
  {
    if |vals| == 0 then 0 else vals[0] + Total(vals[1..])
  }

  /** The squares of the values summed from the front. */
  function SquareTotal(vals: seq<int>): int
  {
    if |vals| == 0 then 0 else vals[0] * vals[0] + SquareTotal(vals[1..])
  }

  lemma {:induction false} TotalsAppend(s: seq<int>, y: int)
    ensures Total(s + [y]) == Total(s) + y
    ensures SquareTotal(s + [y]) == SquareTotal(s) + y * y
  {
    if |s| == 0 {
      assert (s + [y])[1..] == [];
    } else {
      assert (s + [y])[1..] == s[1..] + [y];
      TotalsAppend(s[1..], y);
    }
  }

  /** The pass leaves the sum of the values in `sum` and the sum of their squares in `sumSquared`. */
  lemma {:induction false} AccumulateTotals(vals: seq<int>)
    ensures Accumulate(vals).sum == Total(vals)
    ensures Accumulate(vals).sumSquared == SquareTotal(vals)
  {
    if |vals| > 0 {
      var n := |vals| - 1;
      AccumulateTotals(vals[..n]);
      TotalsAppend(vals[..n], vals[n]);
      assert vals[..n] + [vals[n]] == vals;
    }
  }

  /**
   * After the pass over byte values, `min` and `max` bound every value and,
   * when there is at least one value, both occur among the values.
   */
  lemma {:induction false} ExtremesOfPass(vals: seq<int>)
    requires AllBytes(vals)
    ensures var a := Accumulate(vals);
      && (forall i | 0 <= i < |vals| :: a.min <= vals[i] <= a.max)
      && 0 <= a.min && a.max <= 255
      && (|vals| > 0 ==> (exists i | 0 <= i < |vals| :: vals[i] == a.min) && (exists j | 0 <= j < |vals| :: vals[j] == a.max))
  {
    if |vals| > 0 {
      var n := |vals| - 1;
      ExtremesOfPass(vals[..n]);
      var a := Accumulate(vals[..n]);
      if n > 0 {
        var i :| 0 <= i < n && vals[..n][i] == a.min;
        var j :| 0 <= j < n && vals[..n][j] == a.max;
        assert vals[i] == a.min && vals[j] == a.max;
      }
    }
  }

  /** Values within [lo, hi] sum to between `N * lo` and `N * hi`. */
  lemma {:induction false} SumWithin(vals: seq<int>, lo: int, hi: int)
    requires forall i | 0 <= i < |vals| :: lo <= vals[i] <= hi
    ensures |vals| * lo <= Accumulate(vals).sum <= |vals| * hi
  {
    if |vals| > 0 {
      var n := |vals| - 1;
      SumWithin(vals[..n], lo, hi);
      SumStep(|vals|, n, Accumulate(vals[..n]).sum, vals[n], lo, hi);
    }
  }

  lemma SumStep(m: int, n: int, s: int, y: int, lo: int, hi: int)
    requires m == n + 1 && n * lo <= s <= n * hi && lo <= y <= hi
    ensures m * lo <= s + y <= m * hi
  {
    assert m * lo == n * lo + lo && m * hi == n * hi + hi;
  }

  /**
   * The squared deviations from any `x` add up to a non-negative total:
   * `sumSquared - 2 * x * sum + N * x * x >= 0`.
   */
  lemma {:induction false} DeviationNonNegative(vals: seq<int>, x: int)
    ensures Accumulate(vals).sumSquared - 2 * x * Accumulate(vals).sum + |vals| * (x * x) >= 0
  {
    if |vals| > 0 {
      var n := |vals| - 1;
      var a := Accumulate(vals[..n]);
      DeviationNonNegative(vals[..n], x);
      DeviationStep(|vals|, n, a.sum, a.sumSquared, x, vals[n]);
    }
  }

  lemma DeviationStep(m: int, n: int, s: int, q: int, x: int, y: int)
    requires m == n + 1 && q - 2 * x * s + n * (x * x) >= 0
    ensures (q + y * y) - 2 * x * (s + y) + m * (x * x) >= 0
  {
    assert m * (x * x) == n * (x * x) + x * x;
    assert 2 * x * (s + y) == 2 * x * s + 2 * x * y;
    assert (y - x) * (y - x) == y * y - 2 * x * y + x * x;
  }

  /** `N * sumSquared >= sum * sum`: the integer form of a non-negative variance. */
  lemma {:induction false} SpreadNonNegative(vals: seq<int>)
    ensures |vals| * Accumulate(vals).sumSquared >= Accumulate(vals).sum * Accumulate(vals).sum
  {
    if |vals| > 0 {
      var n := |vals| - 1;
      var a, y := Accumulate(vals[..n]), vals[n];
      SpreadNonNegative(vals[..n]);
      DeviationNonNegative(vals[..n], y);
      SpreadStep(|vals|, n, a.sum, a.sumSquared, y);
    }
  }

  lemma SpreadStep(m: int, n: int, s: int, q: int, y: int)
    requires m == n + 1 && n * q >= s * s && q - 2 * y * s + n * (y * y) >= 0
    ensures m * (q + y * y) >= (s + y) * (s + y)
  {
    assert m * (q + y * y) - (s + y) * (s + y) == (n * q - s * s) + (q - 2 * y * s + n * (y * y));
  }

  /** The finished statistics of one channel. */
  datatype ChannelStats = ChannelStats(sum: int, sumSquared: int, min: int, max: int,
                                       mean: real, variance: real, stdDev: real)

  /** `mean = sum / N`, `variance = sumSquared / N - mean * mean`, `stdDev = sqrt(variance)`. */
  function Finish(a: Accumulator, n: nat, sqrt: real -> real): ChannelStats
    requires n > 0
  {
    var mean := a.sum as real / n as real;
    var variance := a.sumSquared as real / n as real - mean * mean;
    ChannelStats(a.sum, a.sumSquared, a.min, a.max, mean, variance, sqrt(variance))
  }

  /** The statistics of channel `c` over every pixel. */
  function StatsOf(img: Image, c: int, sqrt: real -> real): ChannelStats
    requires Valid(img) && IsChannel(c) && PixelCount(img) > 0
  {
    Finish(Accumulate(Channel(img, c)), PixelCount(img), sqrt)
  }

  datatype Overall = Overall(brightness: real, contrast: real, dynamicRange: int)

  datatype Stats = Stats(red: ChannelStats, green: ChannelStats, blue: ChannelStats, overall: Overall)

  /**
   * What the statistics of one channel say about its values: `sum` and
   * `sumSquared` are their totals, `min` and `max` bound them and are
   * attained, the mean lies between the two and the variance is not negative.
   */
  ghost predicate Summarises(vals: seq<int>, s: ChannelStats)
  {
    && s.sum == Total(vals) && s.sumSquared == SquareTotal(vals)
    && (forall p | 0 <= p < |vals| :: s.min <= vals[p] <= s.max)
    && (exists p | 0 <= p < |vals| :: vals[p] == s.min)
    && (exists p | 0 <= p < |vals| :: vals[p] == s.max)
    && 0 <= s.min && s.max <= 255
    && s.min as real <= s.mean <= s.max as real
    && s.variance >= 0.0
  }

  /**
   * `calculateImageStats(imageData)`: each channel's statistics summarise its
   * values; the overall brightness and dynamic range lie in [0, 255], and
   * with a square root that is never negative the overall contrast is not
   * negative either.
   */
  function CalculateImageStats(img: Image, sqrt: real -> real): (st: Stats)
    requires Valid(img) && PixelCount(img) > 0
    ensures st.red == StatsOf(img, 0, sqrt) && st.green == StatsOf(img, 1, sqrt) && st.blue == StatsOf(img, 2, sqrt)
    ensures Summarises(Channel(img, 0), st.red) && Summarises(Channel(img, 1), st.green)
         && Summarises(Channel(img, 2), st.blue)
    ensures 0.0 <= st.overall.brightness <= 255.0 && 0 <= st.overall.dynamicRange <= 255
    ensures RootLike(sqrt) ==> st.overall.contrast >= 0.0
  {
    var r, g, b := StatsOf(img, 0, sqrt), StatsOf(img, 1, sqrt), StatsOf(img, 2, sqrt);
    ChannelSummary(img, 0, sqrt);
    ChannelSummary(img, 1, sqrt);
    ChannelSummary(img, 2, sqrt);
    var o := Overall((r.mean + g.mean + b.mean) / 3.0,
                     (r.stdDev + g.stdDev + b.stdDev) / 3.0,
                     Max(r.max - r.min, Max(g.max - g.min, b.max - b.min)));
    OverallFacts(r, g, b, o, sqrt);
    Stats(r, g, b, o)
  }

  /** Three channel summaries bound the overall brightness, contrast and dynamic range. */
  lemma OverallFacts(r: ChannelStats, g: ChannelStats, b: ChannelStats, o: Overall, sqrt: real -> real)
    requires 0 <= r.min && r.max <= 255 && r.min as real <= r.mean <= r.max as real
    requires 0 <= g.min && g.max <= 255 && g.min as real <= g.mean <= g.max as real
    requires 0 <= b.min && b.max <= 255 && b.min as real <= b.mean <= b.max as real
    requires RootLike(sqrt) ==> r.stdDev >= 0.0 && g.stdDev >= 0.0 && b.stdDev >= 0.0
    requires o == Overall((r.mean + g.mean + b.mean) / 3.0,
                          (r.stdDev + g.stdDev + b.stdDev) / 3.0,
                          Max(r.max - r.min, Max(g.max - g.min, b.max - b.min)))
    ensures 0.0 <= o.brightness <= 255.0 && 0 <= o.dynamicRange <= 255
    ensures RootLike(sqrt) ==> o.contrast >= 0.0
  {
  }

  /** The statistics of each channel summarise its values; with a root-like `sqrt`, `stdDev` is not negative. */
  lemma ChannelSummary(img: Image, c: int, sqrt: real -> real)
    requires Valid(img) && IsChannel(c) && PixelCount(img) > 0
    ensures Summarises(Channel(img, c), StatsOf(img, c, sqrt))
    ensures RootLike(sqrt) ==> StatsOf(img, c, sqrt).stdDev >= 0.0
  {
    ChannelExtremes(img, c, sqrt);
    ChannelTotals(img, c, sqrt);
    ChannelMeanWithin(img, c, sqrt);
    ChannelVarianceNonNegative(img, c, sqrt);
  }

  /** Each channel's `min` and `max` bound every pixel's value in that channel, and both are attained. */
  lemma ChannelExtremes(img: Image, c: int, sqrt: real -> real)
    requires Valid(img) && IsChannel(c) && PixelCount(img) > 0
    ensures var st, vals := StatsOf(img, c, sqrt), Channel(img, c);
      && (forall p | 0 <= p < |vals| :: st.min <= vals[p] <= st.max)
      && (exists p | 0 <= p < |vals| :: vals[p] == st.min)
      && (exists p | 0 <= p < |vals| :: vals[p] == st.max)
      && 0 <= st.min && st.max <= 255
  {
    ExtremesOfPass(Channel(img, c));
  }

  /** Each channel's `sum` and `sumSquared` are the totals of its values and of their squares over every pixel. */
  lemma ChannelTotals(img: Image, c: int, sqrt: real -> real)
    requires Valid(img) && IsChannel(c) && PixelCount(img) > 0
    ensures StatsOf(img, c, sqrt).sum == Total(Channel(img, c))
    ensures StatsOf(img, c, sqrt).sumSquared == SquareTotal(Channel(img, c))
  {
    AccumulateTotals(Channel(img, c));
  }

  /** The mean lies between the minimum and the maximum. */
  lemma ChannelMeanWithin(img: Image, c: int, sqrt: real -> real)
    requires Valid(img) && IsChannel(c) && PixelCount(img) > 0
    ensures var st := StatsOf(img, c, sqrt);
      st.min as real <= st.mean <= st.max as real
  {
    var vals := Channel(img, c);
    var a := Accumulate(vals);
    ExtremesOfPass(vals);
    SumWithin(vals, a.min, a.max);
    MeanWithin(a.sum, |vals|, a.min, a.max);
  }

  /** The population variance is never negative. */
  lemma ChannelVarianceNonNegative(img: Image, c: int, sqrt: real -> real)
    requires Valid(img) && IsChannel(c) && PixelCount(img) > 0
    ensures StatsOf(img, c, sqrt).variance >= 0.0
  {
    var vals := Channel(img, c);
    SpreadNonNegative(vals);
    FinishVariance(Accumulate(vals), |vals|, PixelCount(img), sqrt);
  }

  lemma FinishVariance(a: Accumulator, m: int, n: nat, sqrt: real -> real)
    requires m == n && n > 0 && m * a.sumSquared >= a.sum * a.sum
    ensures Finish(a, n, sqrt).variance >= 0.0
  {
    VarianceNonNegative(a.sum, a.sumSquared, m, n);
  }

  lemma VarianceNonNegative(s: int, q: int, n: int, count: nat)
    requires n == count && n > 0 && n * q >= s * s
    ensures q as real / count as real - (s as real / count as real) * (s as real / count as real) >= 0.0
  {
    var m := s as real / n as real;
    var nr := n as real;
    assert m * nr == s as real;
    assert (q as real / nr) * nr == q as real;
    assert nr * (q as real) >= (m * nr) * (m * nr);
    assert nr * (q as real / nr - m * m) * nr == nr * (q as real) - (m * nr) * (m * nr);
  }
}
