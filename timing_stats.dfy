/** The statistics PerfTimer::reportStats and PerfTimer::_standardDeviation
    compute over the recorded samples (nanoseconds): total, mean, population
    variance, fastest and slowest run. Every statistic but the total is defined
    only for a non-empty sequence of samples. */
module TimingStats {

  /** The total, a left fold from 0 as std::accumulate does. Samples that
      are all non-negative give a non-negative total. */
  function Sum(s: seq<int>): (r: int)
    ensures (forall i :: 0 <= i < |s| ==> 0 <= s[i]) ==> 0 <= r
  {
    if s == [] then 0 else Sum(s[..|s| - 1]) + s[|s| - 1]
  }

  /** The average: the value that, taken once per sample, makes up the
      total. */
  function Mean(s: seq<int>): (r: real)
    requires |s| > 0
    ensures r * |s| as real == Sum(s) as real
  {
    Sum(s) as real / |s| as real
  }

  /** The sum of the squared deviations of the samples from `m`. */
  function SquaredDeviations(s: seq<int>, m: real): real
  {
    if s == [] then 0.0
    else
      var d := s[|s| - 1] as real - m;
      SquaredDeviations(s[..|s| - 1], m) + d * d
  }

  /** The population variance: squared deviations from the mean, divided by
      the number of samples (not by one less). It is never negative, so the
      root the source reports exists. */
  function Variance(s: seq<int>): (r: real)
    requires |s| > 0
    ensures 0.0 <= r
  {
    SquaredDeviationsNonNegative(s, Mean(s));
    SquaredDeviations(s, Mean(s)) / |s| as real
  }

  /** The fastest run. */
  function Min(s: seq<int>): (r: int)
    requires |s| > 0
    ensures r in s
    ensures forall i :: 0 <= i < |s| ==> r <= s[i]
  {
    if |s| == 1 then s[0]
    else
      var m := Min(s[..|s| - 1]);
      if s[|s| - 1] < m then s[|s| - 1] else m
  }

  /** The slowest run. */
  function Max(s: seq<int>): (r: int)
    requires |s| > 0
    ensures r in s
    ensures forall i :: 0 <= i < |s| ==> s[i] <= r
  {
    if |s| == 1 then s[0]
    else
      var m := Max(s[..|s| - 1]);
      if m < s[|s| - 1] then s[|s| - 1] else m
  }

  /** The total of a concatenation is the sum of the totals; in particular a
      new sample adds exactly its own value to the total. */
  lemma {:induction false} SumAppend(a: seq<int>, b: seq<int>)
    ensures Sum(a + b) == Sum(a) + Sum(b)
  {
    if b == [] {
      assert a + b == a;
    } else {
      SumAppend(a, b[..|b| - 1]);
      assert (a + b)[..|a + b| - 1] == a + b[..|b| - 1];
    }
  }

  /** Samples that all lie between `lo` and `hi` have a total between
      `|s| * lo` and `|s| * hi`. */
  lemma {:induction false} SumBounded(s: seq<int>, lo: int, hi: int)
    requires forall i :: 0 <= i < |s| ==> lo <= s[i] <= hi
    ensures |s| * lo <= Sum(s) <= |s| * hi
  {
    if s != [] {
      SumBounded(s[..|s| - 1], lo, hi);
      assert (|s| - 1) * lo + lo == |s| * lo;
      assert (|s| - 1) * hi + hi == |s| * hi;
    }
  }

  /** The average lies between the fastest and the slowest run. */
  lemma MeanBetweenMinAndMax(s: seq<int>)
    requires |s| > 0
    ensures Min(s) as real <= Mean(s) <= Max(s) as real
  {
    var lo, hi := Min(s), Max(s);
    SumBounded(s, lo, hi);
    MeanBounds(Sum(s), |s|, lo, hi);
  }

  /** Dividing `n * lo <= total <= n * hi` by a positive `n`, over the reals. */
  lemma MeanBounds(total: int, n: int, lo: int, hi: int)
    requires 0 < n && n * lo <= total <= n * hi
    ensures lo as real <= total as real / n as real <= hi as real
  {
  }

  /** The squared deviations never add up to a negative number. */
  lemma {:induction false} SquaredDeviationsNonNegative(s: seq<int>, m: real)
    ensures 0.0 <= SquaredDeviations(s, m)
  {
    if s != [] {
      SquaredDeviationsNonNegative(s[..|s| - 1], m);
    }
  }

  /** Samples that all equal `m` do not deviate from it. */
  lemma {:induction false} SquaredDeviationsOfConstant(s: seq<int>, m: real)
    requires forall i :: 0 <= i < |s| ==> s[i] as real == m
    ensures SquaredDeviations(s, m) == 0.0
  {
    if s != [] {
      SquaredDeviationsOfConstant(s[..|s| - 1], m);
    }
  }

  /** A run of identical samples totals `|s|` times that sample. */
  lemma {:induction false} SumConstant(s: seq<int>, c: int)
    requires forall i :: 0 <= i < |s| ==> s[i] == c
    ensures Sum(s) == |s| * c
  {
    if s != [] {
      SumConstant(s[..|s| - 1], c);
    }
  }

  /** Identical runs have zero variance, and so a zero standard deviation;
      their average is the common run time. */
  lemma VarianceOfConstant(s: seq<int>, c: int)
    requires |s| > 0
    requires forall i :: 0 <= i < |s| ==> s[i] == c
    ensures Mean(s) == c as real
    ensures Variance(s) == 0.0
  {
    SumConstant(s, c);
    ConstantMean(|s|, c);
    SquaredDeviationsOfConstant(s, c as real);
  }

  lemma ConstantMean(n: int, c: int)
    requires 0 < n
    ensures (n * c) as real / n as real == c as real
  {
  }

  /** A worked example: samples of 100, 200
      and 300 ns total 600 ns, average 200 ns and have a population variance
      of 20000/3 ns² (a sample variance would be 10000 ns²). */
  lemma ExampleStatistics()
    ensures Sum([100, 200, 300]) == 600
    ensures Mean([100, 200, 300]) == 200.0
    ensures Variance([100, 200, 300]) == 20000.0 / 3.0
    ensures Min([100, 200, 300]) == 100 && Max([100, 200, 300]) == 300
  {
    var s: seq<int> := [100, 200, 300];
    assert s[..2] == [100, 200] && s[..2][..1] == [100] && s[..2][..1][..0] == [];
    assert Sum(s[..2][..1]) == 100;
    assert Sum(s[..2]) == 300;
    assert Sum(s) == 600;
    assert SquaredDeviations(s[..2][..1], 200.0) == 10000.0;
    assert SquaredDeviations(s[..2], 200.0) == 10000.0;
    assert SquaredDeviations(s, 200.0) == 20000.0;
  }
}
