/**
 * Finite sums over sequences and square matrices, and the facts about
 * weighted sums that the convolution filters need. A matrix sum is the sum of
 * its row sums; the reals are exact, so the order in which the source's loops
 * accumulate the terms does not change the value.
 */
module Sums {

  function Sum(s: seq<real>): real
  {
    if |s| == 0 then 0.0 else Sum(s[..|s| - 1]) + s[|s| - 1]
  }

  /** The sum of each row of a matrix. */
  function RowTotals(m: seq<seq<real>>): (r: seq<real>)
    ensures |r| == |m| && forall i | 0 <= i < |m| :: r[i] == Sum(m[i])
  {
    seq(|m|, i requires 0 <= i < |m| => Sum(m[i]))
  }

  /** The sum of all entries of a matrix. */
  function Sum2(m: seq<seq<real>>): real
  {
    Sum(RowTotals(m))
  }

  /** A square matrix of side `n`. */
  predicate IsSquare(m: seq<seq<real>>, n: nat)
  {
    |m| == n && forall i | 0 <= i < n :: |m[i]| == n
  }

  predicate SameShape(k: seq<seq<real>>, s: seq<seq<real>>)
  {
    |k| == |s| && forall i | 0 <= i < |k| :: |k[i]| == |s[i]|
  }

  /** The weighted sum of `b` with weights `a`. */
  function Dot(a: seq<real>, b: seq<real>): real
    requires |a| == |b|
  {
    if |a| == 0 then 0.0 else Dot(a[..|a| - 1], b[..|b| - 1]) + a[|a| - 1] * b[|b| - 1]
  }

  /** The weighted sum of each window row under the matching kernel row. */
  function RowDots(k: seq<seq<real>>, s: seq<seq<real>>): (r: seq<real>)
    requires SameShape(k, s)
    ensures |r| == |k| && forall i | 0 <= i < |k| :: r[i] == Dot(k[i], s[i])
  {
    seq(|k|, i requires 0 <= i < |k| => Dot(k[i], s[i]))
  }

  /** The weighted sum of a window `s` under the kernel `k`. */
  function Dot2(k: seq<seq<real>>, s: seq<seq<real>>): real
    requires SameShape(k, s)
  {
    Sum(RowDots(k, s))
  }

  /** Every entry divided by `d`. */
  function Scale(s: seq<real>, d: real): (r: seq<real>)
    requires d != 0.0
    ensures |r| == |s| && forall i | 0 <= i < |s| :: r[i] == s[i] / d
  {
    seq(|s|, i requires 0 <= i < |s| => s[i] / d)
  }

  function Scale2(m: seq<seq<real>>, d: real): (r: seq<seq<real>>)
    requires d != 0.0
    ensures SameShape(r, m) && forall i | 0 <= i < |m| :: r[i] == Scale(m[i], d)
  {
    seq(|m|, i requires 0 <= i < |m| => Scale(m[i], d))
  }

  lemma DivAdd(a: real, b: real, d: real)
    requires d != 0.0
    ensures (a + b) / d == a / d + b / d
  {
  }

  lemma MulAdd(v: real, a: real, b: real)
    ensures v * (a + b) == v * a + v * b
  {
  }

  /** Dividing every term by `d` divides the sum by `d`. */
  lemma {:induction false} SumScale(s: seq<real>, d: real)
    requires d != 0.0
    ensures Sum(Scale(s, d)) == Sum(s) / d
  {
    if |s| > 0 {
      var n := |s| - 1;
      assert Scale(s, d)[..n] == Scale(s[..n], d);
      SumScale(s[..n], d);
      DivAdd(Sum(s[..n]), s[n], d);
    }
  }

  lemma Sum2Scale(m: seq<seq<real>>, d: real)
    requires d != 0.0
    ensures Sum2(Scale2(m, d)) == Sum2(m) / d
  {
    var totals := RowTotals(m);
    forall i | 0 <= i < |m|
      ensures RowTotals(Scale2(m, d))[i] == Scale(totals, d)[i]
    {
      SumScale(m[i], d);
    }
    assert RowTotals(Scale2(m, d)) == Scale(totals, d);
    SumScale(totals, d);
  }

  /** A non-empty sum of positive terms is positive. */
  lemma {:induction false} SumPositive(s: seq<real>)
    requires |s| > 0 && forall i | 0 <= i < |s| :: s[i] > 0.0
    ensures Sum(s) > 0.0
  {
    if |s| > 1 {
      SumPositive(s[..|s| - 1]);
    }
  }

  lemma Sum2Positive(m: seq<seq<real>>)
    requires |m| > 0 && forall i | 0 <= i < |m| :: |m[i]| > 0
    requires forall i, j | 0 <= i < |m| && 0 <= j < |m[i]| :: m[i][j] > 0.0
    ensures Sum2(m) > 0.0
  {
    var totals := RowTotals(m);
    forall i | 0 <= i < |m|
      ensures totals[i] > 0.0
    {
      SumPositive(m[i]);
    }
    SumPositive(totals);
  }

  /** Raising terms never lowers the sum. */
  lemma {:induction false} SumMonotone(a: seq<real>, b: seq<real>)
    requires |a| == |b| && forall i | 0 <= i < |a| :: a[i] <= b[i]
    ensures Sum(a) <= Sum(b)
  {
    if |a| > 0 {
      SumMonotone(a[..|a| - 1], b[..|b| - 1]);
    }
  }

  lemma MulMonotone(k: real, x: real, y: real)
    requires k >= 0.0 && x <= y
    ensures k * x <= k * y
  {
    assert k * y - k * x == k * (y - x);
  }

  predicate NonNegative(k: seq<seq<real>>)
  {
    forall i, j | 0 <= i < |k| && 0 <= j < |k[i]| :: k[i][j] >= 0.0
  }

  /** Every sample of `s` is at most the matching sample of `t`. */
  predicate Below(s: seq<seq<real>>, t: seq<seq<real>>)
    requires SameShape(s, t)
  {
    forall i, j | 0 <= i < |s| && 0 <= j < |s[i]| :: s[i][j] <= t[i][j]
  }

  /** Every sample of the window is `v`. */
  predicate Filled(s: seq<seq<real>>, v: real)
  {
    forall i, j | 0 <= i < |s| && 0 <= j < |s[i]| :: s[i][j] == v
  }

  /** With non-negative weights, raising samples never lowers the weighted sum. */
  lemma {:induction false} DotMonotone(a: seq<real>, b: seq<real>, c: seq<real>)
    requires |a| == |b| == |c|
    requires forall i | 0 <= i < |a| :: a[i] >= 0.0 && b[i] <= c[i]
    ensures Dot(a, b) <= Dot(a, c)
  {
    if |a| > 0 {
      var n := |a| - 1;
      DotMonotone(a[..n], b[..n], c[..n]);
      MulMonotone(a[n], b[n], c[n]);
    }
  }

  lemma Dot2Monotone(k: seq<seq<real>>, s: seq<seq<real>>, t: seq<seq<real>>)
    requires SameShape(k, s) && SameShape(s, t) && NonNegative(k) && Below(s, t)
    ensures Dot2(k, s) <= Dot2(k, t)
  {
    forall i | 0 <= i < |k|
      ensures RowDots(k, s)[i] <= RowDots(k, t)[i]
    {
      DotMonotone(k[i], s[i], t[i]);
    }
    SumMonotone(RowDots(k, s), RowDots(k, t));
  }

  /** On a row whose samples are all `v`, the weighted sum is `v` times the total weight. */
  lemma {:induction false} DotUniform(a: seq<real>, b: seq<real>, v: real)
    requires |a| == |b| && forall i | 0 <= i < |b| :: b[i] == v
    ensures Dot(a, b) == v * Sum(a)
  {
    if |a| > 0 {
      var n := |a| - 1;
      DotUniform(a[..n], b[..n], v);
      MulAdd(v, Sum(a[..n]), a[n]);
    }
  }

  /** Terms that are each `v` times a matching term sum to `v` times the matching sum. */
  lemma {:induction false} SumProportional(a: seq<real>, b: seq<real>, v: real)
    requires |a| == |b| && forall i | 0 <= i < |a| :: a[i] == v * b[i]
    ensures Sum(a) == v * Sum(b)
  {
    if |a| > 0 {
      var n := |a| - 1;
      SumProportional(a[..n], b[..n], v);
      MulAdd(v, Sum(b[..n]), b[n]);
    }
  }

  /** On a window whose samples are all `v`, the weighted sum is `v` times the total weight. */
  lemma Dot2Uniform(k: seq<seq<real>>, s: seq<seq<real>>, v: real)
    requires SameShape(k, s) && Filled(s, v)
    ensures Dot2(k, s) == v * Sum2(k)
  {
    var dots, totals := RowDots(k, s), RowTotals(k);
    forall i | 0 <= i < |k|
      ensures dots[i] == v * totals[i]
    {
      DotUniform(k[i], s[i], v);
    }
    SumProportional(dots, totals, v);
  }

  /** The window of the same shape as `s` with every sample `v`. */
  function Constant(s: seq<seq<real>>, v: real): (t: seq<seq<real>>)
    ensures SameShape(s, t) && Filled(t, v)
  {
    seq(|s|, i requires 0 <= i < |s| => seq(|s[i]|, j => v))
  }

  /**
   * A weighted mean with non-negative weights summing to 1 lies between the
   * smallest and the largest sample.
   */
  lemma Dot2Within(k: seq<seq<real>>, s: seq<seq<real>>, lo: real, hi: real)
    requires SameShape(k, s) && NonNegative(k) && Sum2(k) == 1.0
    requires forall i, j | 0 <= i < |s| && 0 <= j < |s[i]| :: lo <= s[i][j] <= hi
    ensures lo <= Dot2(k, s) <= hi
  {
    var low, high := Constant(s, lo), Constant(s, hi);
    Dot2Monotone(k, low, s);
    Dot2Monotone(k, s, high);
    Dot2Uniform(k, low, lo);
    Dot2Uniform(k, high, hi);
  }
}
