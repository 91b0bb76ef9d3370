/**
  The day's WPM samples and the figures derived from them: the running
  average and the consistency score (100 minus the coefficient of variation
  as a percentage, floored at 0). Arithmetic is exact over `real`; the
  square root is a parameter.
 */
module Statistics {

  /** `reduce(0, +)` over the samples. */
  function Sum(h: seq<int>): int
  {
    if h == [] then 0 else h[0] + Sum(h[1..])
  }

  /**
    `reduce` folds from the left: appending a sample adds it to the sum, so
    the recursive definition above agrees with it.
   */
  lemma {:induction false} SumAppend(h: seq<int>, x: int)
    ensures Sum(h + [x]) == Sum(h) + x
  {
    if h != [] {
      assert (h + [x])[1..] == h[1..] + [x];
      SumAppend(h[1..], x);
    } else {
      assert [x][1..] == [];
    }
  }

  /** `Double(sum) / Double(count)`, for a non-empty history: the value that, counted once per sample, makes up the sum. */
  function Average(h: seq<int>): (avg: real)
    requires |h| > 0
    ensures avg * (|h| as real) == Sum(h) as real
  {
    (Sum(h) as real) / (|h| as real)
  }

  /** A square root on the non-negative reals returns a non-negative value. */
  ghost predicate SqrtNonNegative(sqrt: real -> real)
  {
    forall x :: 0.0 <= x ==> 0.0 <= sqrt(x)
  }

  /** Sum of `pow(sample - mean, 2)` over the samples. */
  function SquaredDeviations(h: seq<int>, mean: real): (r: real)
    ensures 0.0 <= r
  {
    if h == [] then 0.0
    else
      var d := h[0] as real - mean;
      SquareNonNegative(d);
      d * d + SquaredDeviations(h[1..], mean)
  }

  lemma SquareNonNegative(d: real)
    ensures 0.0 <= d * d
  {
    if d < 0.0 {
      assert d * d == (-d) * (-d);
    }
  }

  /** Population variance of the samples around `mean`. */
  function Variance(h: seq<int>, mean: real): (v: real)
    requires |h| > 0
    ensures 0.0 <= v
  {
    SquaredDeviations(h, mean) / (|h| as real)
  }

  /**
    `max(0, 100 - (stdDev / mean * 100))` with `stdDev = sqrt(variance)`.
    The division needs a positive mean; the caller passes the day's average,
    which is positive because every sample is.
   */
  function Consistency(h: seq<int>, mean: real, sqrt: real -> real): (c: real)
    requires |h| > 0 && 0.0 < mean
    ensures 0.0 <= c
    ensures SqrtNonNegative(sqrt) ==> c <= 100.0
  {
    var stdDev := sqrt(Variance(h, mean));
    var score := 100.0 - (stdDev / mean * 100.0);
    if score < 0.0 then 0.0 else score
  }

  /** Positive samples bounded by `bound` sum to at least their count and at most count times bound. */
  lemma {:induction false} SumBounds(h: seq<int>, bound: int)
    requires forall i :: 0 <= i < |h| ==> 0 < h[i] <= bound
    ensures |h| <= Sum(h) <= |h| * bound
  {
    if h != [] {
      SumBounds(h[1..], bound);
    }
  }

  /**
    The average of positive samples bounded by `bound` lies between 1 and
    `bound`; in particular it is positive whenever the history is non-empty.
   */
  lemma AverageBounds(h: seq<int>, bound: int)
    requires |h| > 0
    requires forall i :: 0 <= i < |h| ==> 0 < h[i] <= bound
    ensures 1.0 <= Average(h) <= bound as real
  {
    SumBounds(h, bound);
    QuotientBounds(Sum(h) as real, |h| as real, 1.0, bound as real);
  }

  /** Dividing by a positive `n` keeps a value between `lo * n` and `hi * n` between `lo` and `hi`. */
  lemma QuotientBounds(s: real, n: real, lo: real, hi: real)
    requires 0.0 < n && lo * n <= s <= hi * n
    ensures lo <= s / n <= hi
  {
    var q := s / n;
    assert q * n == s;
  }

  /** A history of identical samples has zero spread around its average. */
  lemma {:induction false} ConstantHistoryNoDeviation(h: seq<int>, x: int)
    requires forall i :: 0 <= i < |h| ==> h[i] == x
    ensures SquaredDeviations(h, x as real) == 0.0
  {
    if h != [] {
      ConstantHistoryNoDeviation(h[1..], x);
    }
  }

  /** The sum of `|h|` copies of `x`. */
  lemma {:induction false} ConstantHistorySum(h: seq<int>, x: int)
    requires forall i :: 0 <= i < |h| ==> h[i] == x
    ensures Sum(h) == |h| * x
  {
    if h != [] {
      ConstantHistorySum(h[1..], x);
    }
  }

  /** Typing at a perfectly steady rate scores full consistency. */
  lemma ConstantHistoryFullConsistency(h: seq<int>, x: int, sqrt: real -> real)
    requires |h| > 0 && x > 0
    requires forall i :: 0 <= i < |h| ==> h[i] == x
    requires sqrt(0.0) == 0.0
    ensures Average(h) == x as real
    ensures Consistency(h, Average(h), sqrt) == 100.0
  {
    ConstantHistorySum(h, x);
    assert Average(h) == x as real by {
      var n := |h| as real;
      assert (Sum(h) as real) == n * (x as real);
    }
    ConstantHistoryNoDeviation(h, x);
  }

}
