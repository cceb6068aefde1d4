/**
 * Counting byte values into 256 buckets, and running (cumulative) sums of
 * bucket sequences. Bucket counts are kept as reals, as the source's number
 * arrays are; every count is a whole number.
 */
module Tallies {
  import opened Sums
  import opened Sorting
  import opened PixelBuffer

  /** 256 zero buckets, `new Array(256).fill(0)`. */
  function Zeros(): (z: seq<real>)
    ensures |z| == 256 && forall v | 0 <= v < 256 :: z[v] == 0.0
  {
    seq(256, v => 0.0)
  }

  /** The buckets after `histogram[value]++` for each value of `vals` in order. */
  function Tally(vals: seq<int>): (h: seq<real>)
    requires AllBytes(vals)
    ensures |h| == 256
  {
    if |vals| == 0 then Zeros()
    else
      var n := |vals| - 1;
      var h := Tally(vals[..n]);
      h[vals[n] := h[vals[n]] + 1.0]
  }

  /** Bucket `v` holds the number of occurrences of `v`. */
  lemma {:induction false} TallyCounts(vals: seq<int>, v: int)
    requires AllBytes(vals) && 0 <= v < 256
    ensures Tally(vals)[v] == multiset(vals)[v] as real
  {
    if |vals| > 0 {
      var n := |vals| - 1;
      TallyCounts(vals[..n], v);
      assert vals == vals[..n] + [vals[n]];
    }
  }

  lemma {:induction false} SumUpdate(s: seq<real>, k: int, d: real)
    requires 0 <= k < |s|
    ensures Sum(s[k := s[k] + d]) == Sum(s) + d
  {
    var n := |s| - 1;
    var t := s[k := s[k] + d];
    if k == n {
      assert t[..n] == s[..n];
    } else {
      assert t[..n] == s[..n][k := s[k] + d];
      SumUpdate(s[..n], k, d);
    }
  }

  lemma ZerosSum()
    ensures Sum(Zeros()) == 0.0
  {
    SumProportional(Zeros(), Zeros(), 0.0);
  }

  /** Each value lands in exactly one bucket: the buckets add up to the number of values. */
  lemma {:induction false} TallyTotal(vals: seq<int>)
    requires AllBytes(vals)
    ensures Sum(Tally(vals)) == |vals| as real
  {
    if |vals| == 0 {
      ZerosSum();
    } else {
      var n := |vals| - 1;
      TallyTotal(vals[..n]);
      SumUpdate(Tally(vals[..n]), vals[n], 1.0);
    }
  }

  /** Every bucket of the tally counts its value, and the buckets add up to the number of values. */
  lemma TallyFacts(vals: seq<int>)
    requires AllBytes(vals)
    ensures forall v | 0 <= v < 256 :: Tally(vals)[v] == multiset(vals)[v] as real
    ensures Sum(Tally(vals)) == |vals| as real
  {
    forall v | 0 <= v < 256
      ensures Tally(vals)[v] == multiset(vals)[v] as real
    {
      TallyCounts(vals, v);
    }
    TallyTotal(vals);
  }

  /** Raising the bound from `i - 1` to `i` adds the occurrences of `i`. */
  lemma {:induction false} CountAtMostStep(vals: seq<int>, i: int)
    ensures CountAtMost(vals, i) == CountAtMost(vals, i - 1) + multiset(vals)[i]
  {
    if |vals| > 0 {
      CountAtMostStep(vals[1..], i);
      assert vals == [vals[0]] + vals[1..];
    }
  }

  lemma {:induction false} CountAtMostBounds(vals: seq<int>)
    requires AllBytes(vals)
    ensures CountAtMost(vals, -1) == 0 && CountAtMost(vals, 255) == |vals|
  {
    if |vals| > 0 {
      CountAtMostBounds(vals[1..]);
    }
  }

  lemma {:induction false} CountAtMostMonotone(vals: seq<int>, i: int, j: int)
    requires i <= j
    ensures CountAtMost(vals, i) <= CountAtMost(vals, j)
  {
    if |vals| > 0 {
      CountAtMostMonotone(vals[1..], i, j);
    }
  }

  /** The first `i + 1` buckets hold the values at most `i`. */
  lemma {:induction false} TallyPrefix(vals: seq<int>, i: int)
    requires AllBytes(vals) && 0 <= i < 256
    ensures Sum(Tally(vals)[..i + 1]) == CountAtMost(vals, i) as real
  {
    var t := Tally(vals);
    assert t[..i + 1][..i] == t[..i];
    TallyCounts(vals, i);
    CountAtMostStep(vals, i);
    if i == 0 {
      CountAtMostBounds(vals);
    } else {
      TallyPrefix(vals, i - 1);
    }
  }

  /**
   * The running sums of `h`: the first entry is `h[0]` and each further
   * entry adds the next bucket to the previous one.
   */
  function Cumulative(h: seq<real>): (c: seq<real>)
    ensures |c| == |h|
  {
    if |h| == 0 then []
    else
      var c := Cumulative(h[..|h| - 1]);
      c + [if |h| == 1 then h[0] else c[|c| - 1] + h[|h| - 1]]
  }

  /** Entry `i` of the running sums is the sum of the first `i + 1` buckets. */
  lemma {:induction false} CumulativePrefix(h: seq<real>, i: int)
    requires 0 <= i < |h|
    ensures Cumulative(h)[i] == Sum(h[..i + 1])
  {
    var n := |h| - 1;
    if i < n {
      assert h[..n][..i + 1] == h[..i + 1];
      CumulativePrefix(h[..n], i);
    } else if n > 0 {
      CumulativePrefix(h[..n], n - 1);
      assert h[..n][..n] == h[..n];
      assert h[..n + 1] == h;
      assert Sum(h) == Sum(h[..n]) + h[n];
    } else {
      assert h[..1][..0] == [];
    }
  }
}
