/**
 Benchmark statistics (e2e/scripts/analyze_results.py), over the reals.
 */
module Percentile {

  predicate Sorted(s: seq<real>) { forall i, j :: 0 <= i <= j < |s| ==> s[i] <= s[j] }

  function Insert(x: real, s: seq<real>): seq<real>
  {
    if s == [] || x <= s[0] then [x] + s else [s[0]] + Insert(x, s[1..])
  }

  /** `sorted`. */
  function Sort(s: seq<real>): seq<real>
  {
    if s == [] then [] else Insert(s[0], Sort(s[1..]))
  }

  lemma {:induction false} InsertAdds(x: real, s: seq<real>)
    ensures multiset(Insert(x, s)) == multiset(s) + multiset{x}
  {
    if !(s == [] || x <= s[0]) {
      InsertAdds(x, s[1..]);
      assert s == [s[0]] + s[1..];
    }
  }

  lemma {:induction false} InsertAbove(x: real, s: seq<real>, low: real)
    requires low <= x && forall i :: 0 <= i < |s| ==> low <= s[i]
    ensures forall i :: 0 <= i < |Insert(x, s)| ==> low <= Insert(x, s)[i]
  {
    if !(s == [] || x <= s[0]) { InsertAbove(x, s[1..], low); }
  }

  lemma {:induction false} InsertSorts(x: real, s: seq<real>)
    requires Sorted(s)
    ensures Sorted(Insert(x, s))
  {
    if !(s == [] || x <= s[0]) {
      InsertSorts(x, s[1..]);
      InsertAbove(x, s[1..], s[0]);
    }
  }

  lemma {:induction false} SortSorts(s: seq<real>)
    ensures Sorted(Sort(s)) && multiset(Sort(s)) == multiset(s)
  {
    if s != [] {
      SortSorts(s[1..]);
      InsertSorts(s[0], Sort(s[1..]));
      InsertAdds(s[0], Sort(s[1..]));
      assert s == [s[0]] + s[1..];
    }
  }

  lemma HeadIsLeast(a: seq<real>, b: seq<real>)
    requires Sorted(a) && a != [] && b != [] && multiset(a) == multiset(b)
    ensures a[0] <= b[0]
  {
    assert b[0] in multiset(b);
    var i :| 0 <= i < |a| && a[i] == b[0];
  }

  lemma SameTail(a: seq<real>, b: seq<real>)
    requires a != [] && b != [] && a[0] == b[0] && multiset(a) == multiset(b)
    ensures multiset(a[1..]) == multiset(b[1..])
  {
    assert a == [a[0]] + a[1..] && b == [b[0]] + b[1..];
    assert multiset(a[1..]) == multiset(a) - multiset{a[0]};
    assert multiset(b[1..]) == multiset(b) - multiset{b[0]};
  }

  lemma SameLength(a: seq<real>, b: seq<real>)
    requires multiset(a) == multiset(b)
    ensures |a| == |b|
  {
    assert |multiset(a)| == |a| && |multiset(b)| == |b|;
  }

  lemma {:induction false} SortedIsUnique(a: seq<real>, b: seq<real>)
    requires Sorted(a) && Sorted(b) && multiset(a) == multiset(b)
    ensures a == b
  {
    SameLength(a, b);
    if a != [] {
      HeadIsLeast(a, b);
      HeadIsLeast(b, a);
      SameTail(a, b);
      SortedIsUnique(a[1..], b[1..]);
      assert a == [a[0]] + a[1..] && b == [b[0]] + b[1..];
    }
  }

  // ---------------------------------------------------------------- interpolation

  /** The point at fraction `t` between two values. */
  function Mix(a: real, t: real, b: real): real { a + t * (b - a) }

  lemma ScaleMonotone(a: real, b: real, d: real)
    requires a <= b && d >= 0.0
    ensures a * d <= b * d
  {}

  lemma MixMonotone(a: real, t: real, u: real, b: real)
    requires a <= b && t <= u
    ensures Mix(a, t, b) <= Mix(a, u, b) && Mix(a, 0.0, b) == a && Mix(a, 1.0, b) == b
  {
    ScaleMonotone(t, u, b - a);
  }

  /** Linear interpolation at a fractional index. */
  function Interpolate(s: seq<real>, k: real): real
    requires s != [] && k >= 0.0
  {
    var f := k.Floor;
    if f + 1 >= |s| then s[|s| - 1] else Mix(s[f], k - f as real, s[f + 1])
  }

  /** `_percentile`. */
  function PercentileOf(s: seq<real>, p: real): real
    requires p >= 0.0
  {
    if s == [] then 0.0 else Interpolate(s, Index(|s|, p))
  }

  /** The fractional index of a percentile among `n` values. */
  function Index(n: nat, p: real): (k: real)
    requires n > 0 && p >= 0.0
    ensures k >= 0.0
  {
    ScaleMonotone(0.0, p, (n - 1) as real);
    (n - 1) as real * p / 100.0
  }

  lemma Within(s: seq<real>, k: real)
    requires Sorted(s) && s != [] && k >= 0.0
    ensures var f := k.Floor;
            if f + 1 >= |s| then Interpolate(s, k) == s[|s| - 1] else s[f] <= Interpolate(s, k) <= s[f + 1]
  {
    hide Mix;
    var f := k.Floor;
    if f + 1 < |s| {
      assert s[f] <= s[f + 1];
      MixMonotone(s[f], 0.0, k - f as real, s[f + 1]);
      MixMonotone(s[f], k - f as real, 1.0, s[f + 1]);
    }
  }

  /** Monotone in the index, within a segment and across their borders. */
  lemma InterpolateMonotone(s: seq<real>, k: real, l: real)
    requires Sorted(s) && s != [] && 0.0 <= k <= l
    ensures Interpolate(s, k) <= Interpolate(s, l)
  {
    hide Mix;
    var f, g := k.Floor, l.Floor;
    Within(s, k);
    Within(s, l);
    if f == g {
      if f + 1 < |s| {
        assert s[f] <= s[f + 1];
        MixMonotone(s[f], k - f as real, l - f as real, s[f + 1]);
      }
    } else if g + 1 < |s| {
      assert s[f + 1] <= s[g];
    } else if f + 1 < |s| {
      assert s[f + 1] <= s[|s| - 1];
    }
  }

  lemma FloorOf(n: int, t: real)
    requires 0.0 <= t < 1.0
    ensures (n as real + t).Floor == n
  {}

  /** Between two neighbours the value moves in proportion, from the one to the other. */
  lemma InterpolateIsLinear(s: seq<real>, i: nat, t: real)
    requires i + 1 < |s| && 0.0 <= t <= 1.0
    ensures Interpolate(s, i as real + t) == (1.0 - t) * s[i] + t * s[i + 1]
  {
    if t < 1.0 {
      FloorOf(i, t);
      assert s[i] + t * (s[i + 1] - s[i]) == (1.0 - t) * s[i] + t * s[i + 1];
    } else {
      FloorOf(i + 1, 0.0);
      assert i as real + t == (i + 1) as real;
    }
  }

  /** The 50th percentile is the median: the middle value, or the mean of the two in the middle. */
  lemma MedianIs(s: seq<real>)
    requires s != []
    ensures var n := |s|;
            PercentileOf(s, 50.0) == if n % 2 == 1 then s[n / 2] else (s[n / 2 - 1] + s[n / 2]) / 2.0
  {
    hide Interpolate;
    var n, m := |s|, |s| / 2;
    if n % 2 == 1 {
      assert Index(n, 50.0) == m as real;
      if m + 1 < n {
        InterpolateIsLinear(s, m, 0.0);
        assert m as real + 0.0 == m as real;
      } else {
        InterpolateLast(s);
      }
    } else {
      assert Index(n, 50.0) == (m - 1) as real + 0.5;
      InterpolateIsLinear(s, m - 1, 0.5);
    }
  }

  lemma InterpolateLast(s: seq<real>)
    requires s != []
    ensures Interpolate(s, (|s| - 1) as real) == s[|s| - 1]
  {
    FloorOf(|s| - 1, 0.0);
  }

  lemma IndexMonotone(n: nat, p: real, q: real)
    requires n > 0 && 0.0 <= p <= q
    ensures Index(n, p) <= Index(n, q)
  {
    ScaleMonotone(p, q, (n - 1) as real);
    DivideMonotone((n - 1) as real * p, (n - 1) as real * q);
  }

  lemma DivideMonotone(x: real, y: real)
    requires x <= y
    ensures x / 100.0 <= y / 100.0
  {}

  /** The percentile is the minimum at 0 and the maximum at 100. */
  lemma PercentileEnds(s: seq<real>)
    requires s != []
    ensures PercentileOf(s, 0.0) == s[0] && PercentileOf(s, 100.0) == s[|s| - 1]
  {
    assert Index(|s|, 0.0) == 0.0;
    assert Index(|s|, 100.0) == (|s| - 1) as real;
    assert (0.0).Floor == 0 && ((|s| - 1) as real).Floor == |s| - 1;
  }

  /** The percentile is monotone in `p`. */
  lemma PercentileMonotone(s: seq<real>, p: real, q: real)
    requires Sorted(s) && s != [] && 0.0 <= p <= q
    ensures PercentileOf(s, p) <= PercentileOf(s, q)
  {
    hide Interpolate, Index;
    IndexMonotone(|s|, p, q);
    InterpolateMonotone(s, Index(|s|, p), Index(|s|, q));
  }

  /** The order of the measurements is irrelevant. */
  lemma PercentileOrderFree(a: seq<real>, b: seq<real>, p: real)
    requires multiset(a) == multiset(b) && p >= 0.0
    ensures PercentileOf(Sort(a), p) == PercentileOf(Sort(b), p)
  {
    SortSorts(a);
    SortSorts(b);
    SortedIsUnique(Sort(a), Sort(b));
  }

  // ---------------------------------------------------------------- rounding and the statistics

  /** The nearest integer, the even one of two. */
  function RoundHalfEven(x: real): int
  {
    var f := x.Floor;
    var d := x - f as real;
    if d < 0.5 then f else if d > 0.5 then f + 1 else if f % 2 == 0 then f else f + 1
  }

  /** `round(x, 2)`. */
  function Round2(x: real): real { RoundHalfEven(x * 100.0) as real / 100.0 }

  lemma RoundMonotone(x: real, y: real)
    requires x <= y
    ensures Round2(x) <= Round2(y)
  {
    var a, b := x * 100.0, y * 100.0;
    assert a.Floor <= b.Floor;
    assert RoundHalfEven(a) <= RoundHalfEven(b);
  }

  /** Rounding goes to the nearest integer, and to an even one from the middle. */
  lemma RoundIsNearest(x: real)
    ensures var n := RoundHalfEven(x);
            -0.5 <= n as real - x <= 0.5 && (n as real - x == 0.5 || n as real - x == -0.5 ==> n % 2 == 0)
  {}

  function Sum(s: seq<real>): real
  {
    if s == [] then 0.0 else Sum(s[..|s| - 1]) + s[|s| - 1]
  }

  lemma {:induction false} SumWithin(s: seq<real>, lo: real, hi: real)
    requires forall i :: 0 <= i < |s| ==> lo <= s[i] <= hi
    ensures |s| as real * lo <= Sum(s) <= |s| as real * hi
  {
    if s != [] {
      SumWithin(s[..|s| - 1], lo, hi);
      var n := |s| as real;
      assert n * lo == (n - 1.0) * lo + lo && n * hi == (n - 1.0) * hi + hi;
    }
  }

  function Mean(s: seq<real>): real
    requires s != []
  {
    Sum(s) / |s| as real
  }

  /** How far the values are from `m`. */
  function Deviations(s: seq<real>, m: real): (r: seq<real>)
    ensures |r| == |s| && forall i :: 0 <= i < |r| ==> r[i] == s[i] - m
  {
    seq(|s|, i requires 0 <= i < |s| => s[i] - m)
  }

  lemma {:induction false} SumOfDeviations(s: seq<real>, m: real)
    ensures Sum(Deviations(s, m)) == Sum(s) - |s| as real * m
  {
    if s != [] {
      var n := |s| - 1;
      assert Deviations(s, m)[..n] == Deviations(s[..n], m);
      SumOfDeviations(s[..n], m);
      assert |s| as real * m == n as real * m + m;
    }
  }

  /** The mean is the one value from which the deviations cancel out. */
  lemma MeanIff(s: seq<real>, m: real)
    requires s != []
    ensures Mean(s) == m <==> Sum(Deviations(s, m)) == 0.0
  {
    hide Sum;
    SumOfDeviations(s, m);
    var n := |s| as real;
    assert Mean(s) * n == Sum(s);
    if m * n == Sum(s) { SameQuotient(m, n, Sum(s)); }
  }

  lemma SameQuotient(m: real, n: real, x: real)
    requires n > 0.0 && m * n == x
    ensures x / n == m
  {}

  lemma {:induction false} SumAppend(a: seq<real>, b: seq<real>)
    ensures Sum(a + b) == Sum(a) + Sum(b)
  {
    if b == [] {
      assert a + b == a;
    } else {
      assert (a + b)[..|a + b| - 1] == a + b[..|b| - 1];
      SumAppend(a, b[..|b| - 1]);
    }
  }

  lemma DivideWithin(x: real, n: real, lo: real, hi: real)
    requires n > 0.0 && n * lo <= x <= n * hi
    ensures lo <= x / n <= hi
  {
    var q := x / n;
    assert x == n * q;
    if q < lo { ScaleStrict(q, lo, n); }
    if q > hi { ScaleStrict(hi, q, n); }
  }

  lemma ScaleStrict(a: real, b: real, n: real)
    requires a < b && n > 0.0
    ensures n * a < n * b
  {}

  lemma MeanWithin(s: seq<real>)
    requires Sorted(s) && s != []
    ensures s[0] <= Mean(s) <= s[|s| - 1]
  {
    SumWithin(s, s[0], s[|s| - 1]);
    DivideWithin(Sum(s), |s| as real, s[0], s[|s| - 1]);
  }

  datatype Stats = Stats(count: nat, min: real, max: real, mean: real, median: real, p95: real, p99: real)

  /** `_compute_stats`, without the standard deviation; empty data gives nothing. */
  function ComputeStats(values: seq<real>): Stats
    requires values != []
  {
    SortSorts(values);
    var s := Sort(values);
    assert |multiset(s)| == |multiset(values)|;
    Stats(|values|, Round2(s[0]), Round2(s[|s| - 1]), Round2(Mean(s)), Round2(PercentileOf(s, 50.0)),
          Round2(PercentileOf(s, 95.0)), Round2(PercentileOf(s, 99.0)))
  }

  /** The rounded statistics are ordered, and the rounded mean lies between the rounded extremes. */
  lemma StatsOrdered(values: seq<real>)
    requires values != []
    ensures var r := ComputeStats(values);
            r.min <= r.median <= r.p95 <= r.p99 <= r.max && r.min <= r.mean <= r.max
  {
    hide PercentileOf, Round2, Sum, Mean, Sort;
    SortSorts(values);
    var s := Sort(values);
    assert s != [] by { assert |multiset(s)| == |multiset(values)|; }
    PercentileEnds(s);
    MeanWithin(s);
    PercentileMonotone(s, 0.0, 50.0);
    PercentileMonotone(s, 50.0, 95.0);
    PercentileMonotone(s, 95.0, 99.0);
    PercentileMonotone(s, 99.0, 100.0);
    RoundMonotone(s[0], PercentileOf(s, 50.0));
    RoundMonotone(PercentileOf(s, 50.0), PercentileOf(s, 95.0));
    RoundMonotone(PercentileOf(s, 95.0), PercentileOf(s, 99.0));
    RoundMonotone(PercentileOf(s, 99.0), s[|s| - 1]);
    RoundMonotone(s[0], Mean(s));
    RoundMonotone(Mean(s), s[|s| - 1]);
  }

  lemma PercentileAtRank(s: seq<real>, m: nat, p: nat)
    requires |s| == 100 * m + 1 && p <= 100
    ensures PercentileOf(s, p as real) == s[p * m]
  {
    hide Interpolate;
    var k := p * m;
    assert (100 * m) as real * p as real == (100 * k) as real by { assert 100 * m * p == 100 * k; }
    assert Index(|s|, p as real) == k as real;
    RankFits(m, p);
    if k + 1 < |s| {
      InterpolateIsLinear(s, k, 0.0);
      assert k as real + 0.0 == k as real;
    } else {
      InterpolateLast(s);
    }
  }

  lemma RankFits(m: nat, p: nat)
    requires p <= 100
    ensures 0 <= p * m <= 100 * m
  {}

  /** Of a hundred times `m` measurements and one, the statistics are those of the ranks they are named for. */
  lemma StatsAtRanks(values: seq<real>, m: nat)
    requires |values| == 100 * m + 1
    ensures var r, s := ComputeStats(values), Sort(values);
            && r.count == |s| == |values|
            && r.min == Round2(s[0]) && r.max == Round2(s[100 * m])
            && r.median == Round2(s[50 * m]) && r.p95 == Round2(s[95 * m]) && r.p99 == Round2(s[99 * m])
            && r.mean == Round2(Mean(s))
  {
    hide PercentileOf, Round2, Mean, Sort, Sum;
    SortSorts(values);
    var s := Sort(values);
    SameLength(s, values);
    PercentileAtRank(s, m, 50);
    PercentileAtRank(s, m, 95);
    PercentileAtRank(s, m, 99);
  }

  /** The statistics do not depend on the order of the measurements. */
  lemma StatsOrderFree(a: seq<real>, b: seq<real>)
    requires a != [] && b != [] && multiset(a) == multiset(b)
    ensures ComputeStats(a) == ComputeStats(b)
  {
    SortSorts(a);
    SortSorts(b);
    SortedIsUnique(Sort(a), Sort(b));
    assert |multiset(a)| == |multiset(b)|;
  }
}
