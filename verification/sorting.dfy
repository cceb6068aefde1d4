/**
 * Ascending sort of a sequence of integers, and the rank counts that
 * characterise an order statistic. The comparator `(a, b) => a - b` sorts
 * numbers ascending; since the ascending permutation of a sequence is unique
 * (`SortedUnique`), insertion sort stands for any correct sort.
 */
module Sorting {

  predicate Sorted(s: seq<int>)
  {
    forall i, j | 0 <= i < j < |s| :: s[i] <= s[j]
  }

  /** `v` inserted into `s` before the first element not below it. */
  function Insert(v: int, s: seq<int>): (r: seq<int>)
    ensures |r| == |s| + 1
    ensures multiset(r) == multiset(s) + multiset{v}
    ensures r[0] == v || (|s| > 0 && r[0] == s[0])
  {
    if |s| == 0 then [v]
    else if v <= s[0] then [v] + s
    else
      assert s == [s[0]] + s[1..];
      [s[0]] + Insert(v, s[1..])
  }

  /** Inserting into a sorted sequence keeps it sorted. */
  lemma {:induction false} InsertSorted(v: int, s: seq<int>)
    requires Sorted(s)
    ensures Sorted(Insert(v, s))
  {
    if |s| > 0 && v > s[0] {
      var t := Insert(v, s[1..]);
      InsertSorted(v, s[1..]);
      assert t[0] >= s[0];
      assert Insert(v, s) == [s[0]] + t;
    }
  }

  /** The ascending permutation of `s`. */
  function Sort(s: seq<int>): (r: seq<int>)
    ensures Sorted(r) && multiset(r) == multiset(s) && |r| == |s|
  {
    if |s| == 0 then []
    else
      assert s == [s[0]] + s[1..];
      InsertSorted(s[0], Sort(s[1..]));
      Insert(s[0], Sort(s[1..]))
  }

  /** The head of a sorted sequence is at most each of its values. */
  lemma HeadIsLeast(a: seq<int>, x: int)
    requires Sorted(a) && x in multiset(a)
    ensures |a| > 0 && a[0] <= x
  {
    assert x in a;
  }

  lemma TailMultiset(a: seq<int>)
    requires |a| > 0
    ensures multiset(a[1..]) == multiset(a) - multiset{a[0]}
  {
    assert a == [a[0]] + a[1..];
  }

  lemma SortedTail(a: seq<int>)
    requires Sorted(a) && |a| > 0
    ensures Sorted(a[1..])
  {
  }

  /** Two sorted sequences holding the same values are equal. */
  lemma {:induction false} SortedUnique(a: seq<int>, b: seq<int>)
    requires Sorted(a) && Sorted(b) && multiset(a) == multiset(b)
    ensures a == b
  {
    assert |a| == |multiset(a)| == |multiset(b)| == |b|;
    if |a| > 0 {
      HeadIsLeast(b, a[0]);
      HeadIsLeast(a, b[0]);
      assert a[0] == b[0];
      TailMultiset(a);
      TailMultiset(b);
      SortedTail(a);
      SortedTail(b);
      SortedUnique(a[1..], b[1..]);
      assert a == [a[0]] + a[1..] == [b[0]] + b[1..] == b;
    }
  }

  /** How many elements of `s` are at most `v`. */
  function CountAtMost(s: seq<int>, v: int): (n: nat)
    ensures n <= |s|
  {
    if |s| == 0 then 0 else (if s[0] <= v then 1 else 0) + CountAtMost(s[1..], v)
  }

  /** How many elements of `s` are at least `v`. */
  function CountAtLeast(s: seq<int>, v: int): (n: nat)
    ensures n <= |s|
  {
    if |s| == 0 then 0 else (if s[0] >= v then 1 else 0) + CountAtLeast(s[1..], v)
  }

  lemma {:induction false} CountInsert(x: int, s: seq<int>, v: int)
    ensures CountAtMost(Insert(x, s), v) == (if x <= v then 1 else 0) + CountAtMost(s, v)
    ensures CountAtLeast(Insert(x, s), v) == (if x >= v then 1 else 0) + CountAtLeast(s, v)
  {
    if |s| == 0 {
    } else if x <= s[0] {
      assert ([x] + s)[1..] == s;
    } else {
      CountInsert(x, s[1..], v);
      assert ([s[0]] + Insert(x, s[1..]))[1..] == Insert(x, s[1..]);
    }
  }

  /** Sorting changes no rank count. */
  lemma {:induction false} CountSort(s: seq<int>, v: int)
    ensures CountAtMost(Sort(s), v) == CountAtMost(s, v)
    ensures CountAtLeast(Sort(s), v) == CountAtLeast(s, v)
  {
    if |s| > 0 {
      CountSort(s[1..], v);
      CountInsert(s[0], Sort(s[1..]), v);
    }
  }

  /** In a sorted sequence, the first `m + 1` elements are at most `s[m]`. */
  lemma {:induction false} SortedAtMost(s: seq<int>, m: int)
    requires Sorted(s) && 0 <= m < |s|
    ensures CountAtMost(s, s[m]) >= m + 1
  {
    if m > 0 {
      assert s[1..][m - 1] == s[m];
      SortedAtMost(s[1..], m - 1);
    }
  }

  /** Every element at least `v` counts. */
  lemma {:induction false} AllAtLeast(s: seq<int>, v: int)
    requires forall i | 0 <= i < |s| :: s[i] >= v
    ensures CountAtLeast(s, v) == |s|
  {
    if |s| > 0 {
      AllAtLeast(s[1..], v);
    }
  }

  /** In a sorted sequence, the last `|s| - m` elements are at least `s[m]`. */
  lemma {:induction false} SortedAtLeast(s: seq<int>, m: int)
    requires Sorted(s) && 0 <= m < |s|
    ensures CountAtLeast(s, s[m]) >= |s| - m
  {
    if m == 0 {
      AllAtLeast(s, s[0]);
    } else {
      assert s[1..][m - 1] == s[m];
      SortedAtLeast(s[1..], m - 1);
    }
  }
}
