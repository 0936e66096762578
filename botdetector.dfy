/** The bot test: requests whose inter-arrival times are too regular are
    taken for automation. Timestamps are exact reals here. */
module BotDetector {

  /** The test runs only when at least this many requests are in the window. */
  const MIN_SAMPLES: nat := 5
  /** Variance of the intervals strictly below this is bot-like. */
  const ABUSE_VARIANCE_THRESHOLD: real := 0.05
  /** The variance used when there is only one interval. */
  const SINGLE_INTERVAL_VARIANCE: real := 1.0

  /** `[ts[i] - ts[i-1] for i in range(1, len(ts))]`. */
  function Intervals(ts: seq<real>): (r: seq<real>)
    ensures |r| == if ts == [] then 0 else |ts| - 1
    ensures forall i :: 0 <= i < |r| ==> r[i] == ts[i + 1] - ts[i]
  {
    if |ts| <= 1 then [] else seq(|ts| - 1, i requires 0 <= i < |ts| - 1 => ts[i + 1] - ts[i])
  }

  function Sum(xs: seq<real>): real {
    if xs == [] then 0.0 else xs[0] + Sum(xs[1..])
  }

  /** The intervals telescope: together they span from the first request to
      the last. */
  lemma {:induction false} IntervalsSpan(ts: seq<real>)
    requires ts != []
    ensures Sum(Intervals(ts)) == ts[|ts| - 1] - ts[0]
  {
    if |ts| > 1 {
      IntervalsSpan(ts[1..]);
      var iv := Intervals(ts);
      var rest := Intervals(ts[1..]);
      assert |iv| == |rest| + 1;
      assert forall i :: 0 <= i < |rest| ==> iv[1..][i] == rest[i];
      assert iv[1..] == rest;
      assert Sum(iv) == iv[0] + Sum(rest);
    }
  }

  function Mean(xs: seq<real>): (m: real)
    requires xs != []
    ensures (|xs| as real) * m == Sum(xs)
  {
    Sum(xs) / (|xs| as real)
  }

  /** A square is never negative. */
  lemma Square(d: real)
    ensures d * d >= 0.0
  {
    if d < 0.0 {
      var e := -d;
      assert e * e > 0.0;
      assert d * d == e * e;
    }
  }

  /** Sum of squared deviations from `m`; never negative. */
  function SumSquares(xs: seq<real>, m: real): (r: real)
    ensures r >= 0.0
  {
    if xs == [] then 0.0
    else
      Square(xs[0] - m);
      (xs[0] - m) * (xs[0] - m) + SumSquares(xs[1..], m)
  }

  /** `statistics.variance`: the unbiased sample variance (divisor n - 1). */
  function SampleVariance(xs: seq<real>): (v: real)
    requires |xs| >= 2
    ensures v >= 0.0
  {
    SumSquares(xs, Mean(xs)) / ((|xs| - 1) as real)
  }

  /** `variance(intervals) if len(intervals) > 1 else 1`: the sample variance,
      or the single-interval value, which is never below the threshold. */
  function IntervalVariance(iv: seq<real>): (v: real)
    ensures v >= 0.0
    ensures |iv| <= 1 ==> v == SINGLE_INTERVAL_VARIANCE && v >= ABUSE_VARIANCE_THRESHOLD
  {
    if |iv| > 1 then SampleVariance(iv) else SINGLE_INTERVAL_VARIANCE
  }

  /** The verdict on the requests in the rate-limit window: at least
      `MIN_SAMPLES` of them, with interval variance below the threshold. */
  predicate IsBotLike(recent: seq<real>)
    ensures IsBotLike(recent) ==> |Intervals(recent)| >= MIN_SAMPLES - 1
  {
    |recent| >= MIN_SAMPLES && IntervalVariance(Intervals(recent)) < ABUSE_VARIANCE_THRESHOLD
  }

  /** Fewer than `MIN_SAMPLES` requests never fire the test; with enough of
      them there are at least four intervals, so the single-interval value is
      never used and the verdict is exactly "sample variance below the
      threshold". */
  lemma BotLikeIff(recent: seq<real>)
    ensures IsBotLike(recent) <==>
              |recent| >= MIN_SAMPLES && |Intervals(recent)| >= 4 &&
              SampleVariance(Intervals(recent)) < ABUSE_VARIANCE_THRESHOLD
  {
  }

  lemma {:induction false} SumConstant(xs: seq<real>, c: real)
    requires forall i :: 0 <= i < |xs| ==> xs[i] == c
    ensures Sum(xs) == (|xs| as real) * c
  {
    if xs != [] {
      SumConstant(xs[1..], c);
    }
  }

  lemma {:induction false} SumSquaresAtValue(xs: seq<real>, c: real)
    requires forall i :: 0 <= i < |xs| ==> xs[i] == c
    ensures SumSquares(xs, c) == 0.0
  {
    if xs != [] {
      SumSquaresAtValue(xs[1..], c);
    }
  }

  /** Equal intervals have variance zero. */
  lemma ConstantHasZeroVariance(xs: seq<real>, c: real)
    requires |xs| >= 2
    requires forall i :: 0 <= i < |xs| ==> xs[i] == c
    ensures SampleVariance(xs) == 0.0
  {
    SumConstant(xs, c);
    var n := |xs| as real;
    assert Mean(xs) == (n * c) / n == c;
    SumSquaresAtValue(xs, c);
  }

  /** Perfectly periodic requests (any period, e.g. every 0.1 s) are
      bot-like as soon as `MIN_SAMPLES` of them are in the window. */
  lemma EvenSpacingIsBotLike(recent: seq<real>, period: real)
    requires |recent| >= MIN_SAMPLES
    requires forall i :: 0 <= i < |recent| - 1 ==> recent[i + 1] - recent[i] == period
    ensures IsBotLike(recent)
  {
    var iv := Intervals(recent);
    ConstantHasZeroVariance(iv, period);
  }
}
