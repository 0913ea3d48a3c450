/** The verdict of a benchmark comparison: the ratio interval of one case, the
    overall status, and how often a verdict can be wrong. */
module Verdict {
  import opened ConfidenceInterval
  import opened Options
  import opened OrderStatistics
  import opened Sets

  datatype Status =
    | Failed | Incompatible | Regression | NotRun | Inconclusive | Characterization | StructuralMatch | Pass

  datatype Direction = Slower | Faster | Unresolved

  datatype Performance = Performance(baseline: real, candidate: real, difference: real, ratio: real,
                                     low: real, high: real, direction: Direction)

  datatype Row = Row(status: Status, reason: string, performance: Option<Performance>)

  /** One more than the allowed slowdown. */
  function Limit(limitPpm: nat): (l: real)
    ensures l > 0.0 && 1_000_000.0 * l == (1_000_000 + limitPpm) as real
  {
    1.0 + limitPpm as real / PPM as real
  }

  function Measure(base: seq<real>, candidate: seq<real>, b: (real, real), c: (real, real)): Performance
    requires base != [] && candidate != [] && b.0 > 0.0 && b.1 > 0.0 && Median(base) > 0.0
  {
    var low, high := c.0 / b.1, c.1 / b.0;
    Performance(Median(base), Median(candidate), Median(candidate) - Median(base),
                Median(candidate) / Median(base), low, high,
                if low > 1.0 then Slower else if high < 1.0 then Faster else Unresolved)
  }

  /** The verdict on a baseline and a candidate interval. */
  function Decide(b: (real, real), c: (real, real), portable: bool, reviewed: bool, limit: real): (Status, string)
    requires b.0 > 0.0 && b.1 > 0.0
  {
    if portable then (Characterization, "portable_descriptive_only")
    else if !reviewed then (Inconclusive, "threshold_review_required")
    else if c.0 / b.1 > limit then (Regression, "reviewed_threshold_exceeded")
    else if c.1 / b.0 <= limit then (Pass, "reviewed_threshold_satisfied")
    else (Inconclusive, "threshold_overlaps_confidence_interval")
  }

  /** The last part of the comparison of one case, from the two populations of
      run medians on. */
  function Judge(base: seq<real>, candidate: seq<real>, alpha: real,
                 portable: bool, reviewed: bool, limitPpm: nat): Row
  {
    var bi, ci := IntervalOf(base, alpha), IntervalOf(candidate, alpha);
    if bi.None? || ci.None? then Row(Inconclusive, "insufficient_confidence", None)
    else if bi.value.0 <= 0.0 then Row(Inconclusive, "zero_baseline", None)
    else
      BaselinePositive(base, alpha);
      var verdict := Decide(bi.value, ci.value, portable, reviewed, Limit(limitPpm));
      Row(verdict.0, verdict.1, Some(Measure(base, candidate, bi.value, ci.value)))
  }

  lemma BaselinePositive(base: seq<real>, alpha: real)
    requires IntervalOf(base, alpha).Some? && IntervalOf(base, alpha).value.0 > 0.0
    ensures base != [] && IntervalOf(base, alpha).value.1 > 0.0 && Median(base) > 0.0
  {
  }

  method CompareCase(base: seq<real>, candidate: seq<real>, confidence: nat, family: nat,
                     portable: bool, reviewed: bool, limitPpm: nat) returns (row: Row)
    requires confidence <= 1_000_000 && family > 0
    ensures row == Judge(base, candidate, Alpha(confidence, family), portable, reviewed, limitPpm)
  {
    row := Row(Inconclusive, "", None);
    var bi := Interval(base, confidence, family);
    var ci := Interval(candidate, confidence, family);
    if bi.None? || ci.None? {
      return row.(reason := "insufficient_confidence");
    }
    if bi.value.0 <= 0.0 {
      return row.(reason := "zero_baseline");
    }
    BaselinePositive(base, Alpha(confidence, family));
    row := Weigh(Measure(base, candidate, bi.value, ci.value), bi.value, ci.value, portable, reviewed, limitPpm);
  }

  /** The verdict on a measured ratio interval. */
  method Weigh(p: Performance, b: (real, real), c: (real, real), portable: bool, reviewed: bool, limitPpm: nat)
    returns (row: Row)
    requires b.0 > 0.0 && b.1 > 0.0 && p.low == c.0 / b.1 && p.high == c.1 / b.0
    ensures var verdict := Decide(b, c, portable, reviewed, Limit(limitPpm));
            row == Row(verdict.0, verdict.1, Some(p))
  {
    row := Row(Inconclusive, "", Some(p));
    if portable {
      return row.(reason := "portable_descriptive_only", status := Characterization);
    }
    if !reviewed {
      return row.(reason := "threshold_review_required");
    }
    if p.low > Limit(limitPpm) {
      return row.(reason := "reviewed_threshold_exceeded", status := Regression);
    }
    if p.high <= Limit(limitPpm) {
      return row.(reason := "reviewed_threshold_satisfied", status := Pass);
    }
    row := row.(reason := "threshold_overlaps_confidence_interval");
  }

  // ---- What a verdict means ----

  lemma RatioAbove(c: real, b: real, limit: real)
    requires b > 0.0
    ensures c / b > limit <==> c > limit * b
  {
  }

  lemma ProductGrowsWith(limit: real, x: real, y: real)
    requires limit >= 0.0 && x <= y
    ensures limit * x <= limit * y
  {
  }

  predicate Holds(i: (real, real), x: real) {
    i.0 <= x <= i.1
  }

  predicate Contradicts(status: Status, limit: real, b: real, c: real) {
    (status == Regression && c <= limit * b) || (status == Pass && c > limit * b)
  }

  lemma DecisionIsSound(bi: (real, real), ci: (real, real), portable: bool, reviewed: bool, limit: real,
                        b: real, c: real)
    requires 0.0 < bi.0 <= bi.1 && limit > 0.0 && Holds(bi, b) && Holds(ci, c)
    ensures !Contradicts(Decide(bi, ci, portable, reviewed, limit).0, limit, b, c)
  {
    RatioAbove(ci.0, bi.1, limit);
    RatioAbove(ci.1, bi.0, limit);
    ProductGrowsWith(limit, b, bi.1);
    ProductGrowsWith(limit, bi.0, b);
  }

  lemma JudgeDecides(base: seq<real>, candidate: seq<real>, alpha: real, portable: bool, reviewed: bool, limitPpm: nat)
    requires IntervalOf(base, alpha).Some? && IntervalOf(candidate, alpha).Some?
    ensures var bi, ci := IntervalOf(base, alpha).value, IntervalOf(candidate, alpha).value;
            var status := Judge(base, candidate, alpha, portable, reviewed, limitPpm).status;
            if bi.0 <= 0.0 then status == Inconclusive
            else bi.1 > 0.0 && status == Decide(bi, ci, portable, reviewed, Limit(limitPpm)).0
  {
  }

  /** Every baseline and candidate value the two intervals allow is on the side
      of the limit that the verdict says. */
  lemma VerdictIsSound(base: seq<real>, candidate: seq<real>, alpha: real, portable: bool, reviewed: bool,
                       limitPpm: nat, b: real, c: real)
    requires IntervalOf(base, alpha).Some? && Holds(IntervalOf(base, alpha).value, b)
    requires IntervalOf(candidate, alpha).Some? && Holds(IntervalOf(candidate, alpha).value, c)
    ensures !Contradicts(Judge(base, candidate, alpha, portable, reviewed, limitPpm).status, Limit(limitPpm), b, c)
  {
    JudgeDecides(base, candidate, alpha, portable, reviewed, limitPpm);
    var bi, ci := IntervalOf(base, alpha).value, IntervalOf(candidate, alpha).value;
    if bi.0 > 0.0 {
      DecisionIsSound(bi, ci, portable, reviewed, Limit(limitPpm), b, c);
    }
  }

  /** A verdict that contradicts two values has left one of them out. */
  lemma ContradictionIsOutside(base: seq<real>, candidate: seq<real>, alpha: real, portable: bool, reviewed: bool,
                               limitPpm: nat, b: real, c: real)
    requires Contradicts(Judge(base, candidate, alpha, portable, reviewed, limitPpm).status, Limit(limitPpm), b, c)
    ensures IntervalOf(base, alpha).Some? && IntervalOf(candidate, alpha).Some?
    ensures Outside(b, IntervalOf(base, alpha).value) || Outside(c, IntervalOf(candidate, alpha).value)
  {
    if IntervalOf(base, alpha).Some? && IntervalOf(candidate, alpha).Some?
       && Holds(IntervalOf(base, alpha).value, b) && Holds(IntervalOf(candidate, alpha).value, c) {
      VerdictIsSound(base, candidate, alpha, portable, reviewed, limitPpm, b, c);
    }
  }

  lemma RatioBounds(c0: real, c: real, c1: real, b0: real, b: real, b1: real)
    requires 0.0 < b0 <= b <= b1 && 0.0 <= c0 <= c <= c1
    ensures c0 / b1 <= c / b <= c1 / b0
  {
    var r := c / b;
    assert r * b == c;
    assert r >= 0.0;
    ProductGrowsWith(r, b, b1);
    ProductGrowsWith(r, b0, b);
    QuotientAtMost(c0, b1, r);
    QuotientAtLeast(c1, b0, r);
  }

  lemma QuotientAtLeast(a: real, d: real, x: real)
    requires d > 0.0 && x * d <= a
    ensures x <= a / d
  {
  }

  lemma IntervalHoldsMedian(values: seq<real>, alpha: real)
    requires IntervalOf(values, alpha).Some?
    ensures values != [] && Holds(IntervalOf(values, alpha).value, Median(values))
    ensures IntervalOf(values, alpha).value.0 in values
  {
    var k := Rank(|values|, Budget(alpha, |values|), |values| / 2);
    MedianWithin(values, k);
    SortedMember(values, k - 1);
  }

  /** The reported ratio of medians lies in the reported interval. */
  lemma RatioIsReported(base: seq<real>, candidate: seq<real>, alpha: real,
                        portable: bool, reviewed: bool, limitPpm: nat)
    requires forall x :: x in candidate ==> x >= 0.0
    ensures var p := Judge(base, candidate, alpha, portable, reviewed, limitPpm).performance;
            p.Some? ==> p.value.low <= p.value.ratio <= p.value.high
  {
    var b, c := IntervalOf(base, alpha), IntervalOf(candidate, alpha);
    if b.Some? && c.Some? && b.value.0 > 0.0 {
      IntervalHoldsMedian(base, alpha);
      IntervalHoldsMedian(candidate, alpha);
      RatioBounds(c.value.0, Median(candidate), c.value.1, b.value.0, Median(base), b.value.1);
    }
  }

  // ---- When a verdict is given ----

  /** Every pair of values from the two intervals is above the allowed slowdown, or none is. */
  ghost predicate AllAbove(bi: (real, real), ci: (real, real), limitPpm: nat) {
    forall b, c :: Holds(bi, b) && Holds(ci, c) ==> 1_000_000.0 * c > (1_000_000 + limitPpm) as real * b
  }

  ghost predicate AllWithin(bi: (real, real), ci: (real, real), limitPpm: nat) {
    forall b, c :: Holds(bi, b) && Holds(ci, c) ==> 1_000_000.0 * c <= (1_000_000 + limitPpm) as real * b
  }

  lemma LimitInPpm(limitPpm: nat, b: real, c: real)
    ensures c > Limit(limitPpm) * b <==> 1_000_000.0 * c > (1_000_000 + limitPpm) as real * b
  {
    var l, d := Limit(limitPpm), (1_000_000 + limitPpm) as real;
    assert d * b == 1_000_000.0 * (l * b);
  }

  lemma AboveIsAll(bi: (real, real), ci: (real, real), limitPpm: nat)
    requires 0.0 < bi.0 <= bi.1 && ci.0 <= ci.1
    ensures ci.0 / bi.1 > Limit(limitPpm) <==> AllAbove(bi, ci, limitPpm)
  {
    var l := Limit(limitPpm);
    RatioAbove(ci.0, bi.1, l);
    LimitInPpm(limitPpm, bi.1, ci.0);
    assert Holds(bi, bi.1) && Holds(ci, ci.0);
    forall b, c | Holds(bi, b) && Holds(ci, c)
      ensures ci.0 / bi.1 > l ==> 1_000_000.0 * c > (1_000_000 + limitPpm) as real * b
    {
      ProductGrowsWith(l, b, bi.1);
      LimitInPpm(limitPpm, b, c);
    }
  }

  lemma WithinIsAll(bi: (real, real), ci: (real, real), limitPpm: nat)
    requires 0.0 < bi.0 <= bi.1 && ci.0 <= ci.1
    ensures ci.1 / bi.0 <= Limit(limitPpm) <==> AllWithin(bi, ci, limitPpm)
  {
    var l := Limit(limitPpm);
    RatioAbove(ci.1, bi.0, l);
    LimitInPpm(limitPpm, bi.0, ci.1);
    assert Holds(bi, bi.0) && Holds(ci, ci.1);
    forall b, c | Holds(bi, b) && Holds(ci, c)
      ensures ci.1 / bi.0 <= l ==> 1_000_000.0 * c <= (1_000_000 + limitPpm) as real * b
    {
      ProductGrowsWith(l, bi.0, b);
      LimitInPpm(limitPpm, b, c);
    }
  }

  /** Without two intervals over a positive baseline there is no verdict and nothing is published. */
  lemma NoVerdict(base: seq<real>, candidate: seq<real>, alpha: real, portable: bool, reviewed: bool, limitPpm: nat)
    ensures var row := Judge(base, candidate, alpha, portable, reviewed, limitPpm);
            var bi, ci := IntervalOf(base, alpha), IntervalOf(candidate, alpha);
            && (bi.None? || ci.None? ==> row == Row(Inconclusive, "insufficient_confidence", None))
            && (bi.Some? && ci.Some? && bi.value.0 <= 0.0 ==> row == Row(Inconclusive, "zero_baseline", None))
            && (bi.Some? && ci.Some? && bi.value.0 > 0.0 <==> row.performance.Some?)
  {
  }

  /** The verdict is exact: a reviewed controlled case is a regression exactly when every
      pair of values is above the limit, and passes exactly when none is. */
  lemma VerdictIsExact(base: seq<real>, candidate: seq<real>, alpha: real, portable: bool, reviewed: bool,
                       limitPpm: nat)
    requires IntervalOf(base, alpha).Some? && IntervalOf(candidate, alpha).Some?
    requires IntervalOf(base, alpha).value.0 > 0.0
    ensures var row := Judge(base, candidate, alpha, portable, reviewed, limitPpm);
            var bi, ci := IntervalOf(base, alpha).value, IntervalOf(candidate, alpha).value;
            && (row.status == Characterization <==> portable)
            && (row.status == Regression <==> !portable && reviewed && AllAbove(bi, ci, limitPpm))
            && (row.status == Pass <==> !portable && reviewed && AllWithin(bi, ci, limitPpm))
            && (row.status in {Characterization, Regression, Pass, Inconclusive})
            && row.reason == match row.status
               case Characterization => "portable_descriptive_only"
               case Regression => "reviewed_threshold_exceeded"
               case Pass => "reviewed_threshold_satisfied"
               case _ => if reviewed then "threshold_overlaps_confidence_interval" else "threshold_review_required"
  {
    var bi, ci := IntervalOf(base, alpha).value, IntervalOf(candidate, alpha).value;
    IntervalOrdered(base, alpha);
    IntervalOrdered(candidate, alpha);
    AboveIsAll(bi, ci, limitPpm);
    WithinIsAll(bi, ci, limitPpm);
    RatioOrder(bi, ci, Limit(limitPpm));
  }

  lemma RatioOrder(b: (real, real), c: (real, real), limit: real)
    requires 0.0 < b.0 <= b.1 && c.0 <= c.1 && limit > 0.0
    ensures c.0 / b.1 > limit ==> c.1 / b.0 > limit
  {
    if c.0 / b.1 > limit { StaysAbove(c.0, b.1, c.1, b.0, limit); }
  }

  /** What is published over a baseline and a candidate median and interval: both medians,
      their difference and ratio, and the two ends of the ratio interval. */
  predicate Publishes(p: Performance, mb: real, mc: real, bi: (real, real), ci: (real, real)) {
    && p.baseline == mb && p.candidate == mc && mb + p.difference == mc && p.ratio * mb == mc
    && p.low * bi.1 == ci.0 && p.high * bi.0 == ci.1
  }

  lemma PerformanceIsExact(base: seq<real>, candidate: seq<real>, alpha: real, portable: bool, reviewed: bool,
                           limitPpm: nat)
    requires Judge(base, candidate, alpha, portable, reviewed, limitPpm).performance.Some?
    ensures base != [] && candidate != []
    ensures Publishes(Judge(base, candidate, alpha, portable, reviewed, limitPpm).performance.value,
                      Median(base), Median(candidate),
                      IntervalOf(base, alpha).value, IntervalOf(candidate, alpha).value)
  {
    BaselinePositive(base, alpha);
    MeasureIsExact(Judge(base, candidate, alpha, portable, reviewed, limitPpm).performance.value,
                   Median(base), Median(candidate), IntervalOf(base, alpha).value, IntervalOf(candidate, alpha).value);
  }

  lemma MeasureIsExact(p: Performance, mb: real, mc: real, bi: (real, real), ci: (real, real))
    requires mb > 0.0 && bi.0 > 0.0 && bi.1 > 0.0 && p.baseline == mb && p.candidate == mc
    requires p.difference == mc - mb && p.ratio == mc / mb && p.low == ci.0 / bi.1 && p.high == ci.1 / bi.0
    ensures Publishes(p, mb, mc, bi, ci)
  {
    DividedBack(mc, mb);
    DividedBack(ci.0, bi.1);
    DividedBack(ci.1, bi.0);
  }

  lemma DividedBack(x: real, d: real)
    requires d > 0.0
    ensures x / d * d == x
  {
  }

  /** The published direction is exact: `Slower` when every value of the candidate interval is
      above every value of the baseline interval, `Faster` when every one is below. */
  lemma DirectionIsExact(base: seq<real>, candidate: seq<real>, alpha: real, portable: bool, reviewed: bool,
                         limitPpm: nat)
    requires Judge(base, candidate, alpha, portable, reviewed, limitPpm).performance.Some?
    ensures var p := Judge(base, candidate, alpha, portable, reviewed, limitPpm).performance.value;
            var bi, ci := IntervalOf(base, alpha).value, IntervalOf(candidate, alpha).value;
            && (p.direction == Slower <==> forall b, c :: Holds(bi, b) && Holds(ci, c) ==> c > b)
            && (p.direction == Faster <==> forall b, c :: Holds(bi, b) && Holds(ci, c) ==> c < b)
  {
    var bi, ci := IntervalOf(base, alpha).value, IntervalOf(candidate, alpha).value;
    BaselinePositive(base, alpha);
    IntervalOrdered(base, alpha);
    IntervalOrdered(candidate, alpha);
    AboveOne(ci.0, bi.1);
    AboveOne(ci.1, bi.0);
    assert Holds(bi, bi.0) && Holds(bi, bi.1) && Holds(ci, ci.0) && Holds(ci, ci.1);
  }

  lemma AboveOne(c: real, b: real)
    requires b > 0.0
    ensures c / b > 1.0 <==> c > b
    ensures c / b < 1.0 <==> c < b
  {
    var q := c / b;
    assert c == q * b;
    assert q > 1.0 ==> q * b > b;
    assert q < 1.0 ==> q * b < b;
  }

  lemma SortedMember(s: seq<real>, i: nat)
    requires i < |s|
    ensures Sort(s)[i] in s
  {
    SortPermutes(s);
    assert Sort(s)[i] in multiset(Sort(s));
  }

  // ---- Raising the confidence or adding cases ----

  lemma {:induction false} RankShrinks(n: nat, small: real, large: real, m: nat)
    requires small <= large
    ensures Rank(n, small, m) <= Rank(n, large, m)
  {
    if m > 0 && !Fits(n, m, large) { RankShrinks(n, small, large, m - 1); }
  }

  lemma IntervalWidens(values: seq<real>, small: real, large: real)
    requires small <= large && IntervalOf(values, small).Some?
    ensures IntervalOf(values, large).Some?
    ensures IntervalOf(values, small).value.0 <= IntervalOf(values, large).value.0
    ensures IntervalOf(values, large).value.1 <= IntervalOf(values, small).value.1
  {
    var n := |values|;
    BudgetGrows(small, large, n);
    RankShrinks(n, Budget(small, n), Budget(large, n), n / 2);
    BoundsNest(values, Rank(n, Budget(small, n), n / 2), Rank(n, Budget(large, n), n / 2));
  }

  lemma BudgetGrows(small: real, large: real, n: nat)
    requires small <= large
    ensures Budget(small, n) <= Budget(large, n)
  {
  }

  lemma StaysAbove(c: real, b: real, c': real, b': real, limit: real)
    requires c <= c' && 0.0 < b' <= b && limit > 0.0 && c / b > limit
    ensures c' / b' > limit
  {
    RatioAbove(c, b, limit);
    RatioAbove(c', b', limit);
    ProductGrowsWith(limit, b', b);
  }

  lemma StaysWithin(c: real, b: real, c': real, b': real, limit: real)
    requires c' <= c && 0.0 < b <= b' && limit > 0.0 && c / b <= limit
    ensures c' / b' <= limit
  {
  }

  /** A verdict on wider intervals is the same verdict or none. */
  lemma WiderNeverFlips(b: (real, real), c: (real, real), b': (real, real), c': (real, real),
                        portable: bool, reviewed: bool, limit: real)
    requires 0.0 < b.0 <= b'.0 <= b'.1 <= b.1 && c.0 <= c'.0 <= c'.1 <= c.1 && limit > 0.0
    ensures var wide := Decide(b, c, portable, reviewed, limit).0;
            wide == Inconclusive || wide == Decide(b', c', portable, reviewed, limit).0
  {
    if c.0 / b.1 > limit {
      StaysAbove(c.0, b.1, c'.0, b'.1, limit);
    } else if c.1 / b.0 <= limit {
      StaysWithin(c.1, b.0, c'.1, b'.0, limit);
      StaysWithin(c'.1, b'.0, c'.0, b'.1, limit);
    }
  }

  /** A smaller error share can only turn a verdict into inconclusive. */
  lemma StricterNeverFlips(base: seq<real>, candidate: seq<real>, small: real, large: real,
                           portable: bool, reviewed: bool, limitPpm: nat)
    requires small <= large
    ensures var strict := Judge(base, candidate, small, portable, reviewed, limitPpm).status;
            strict == Inconclusive || strict == Judge(base, candidate, large, portable, reviewed, limitPpm).status
  {
    if IntervalOf(base, small).Some? && IntervalOf(candidate, small).Some? && IntervalOf(base, small).value.0 > 0.0 {
      IntervalWidens(base, small, large);
      IntervalWidens(candidate, small, large);
      IntervalOrdered(base, large);
      IntervalOrdered(candidate, large);
      WiderNeverFlips(IntervalOf(base, small).value, IntervalOf(candidate, small).value,
                      IntervalOf(base, large).value, IntervalOf(candidate, large).value,
                      portable, reviewed, Limit(limitPpm));
    }
  }

  lemma IntervalOrdered(values: seq<real>, alpha: real)
    requires IntervalOf(values, alpha).Some?
    ensures IntervalOf(values, alpha).value.0 <= IntervalOf(values, alpha).value.1
  {
  }

  lemma AlphaShrinks(confidence: nat, family: nat, confidence': nat, family': nat)
    requires confidence <= confidence' <= 1_000_000 && 0 < family <= family'
    ensures Alpha(confidence', family') <= Alpha(confidence, family)
  {
    var e, e' := (PPM - confidence) as real, (PPM - confidence') as real;
    var d, d' := (PPM * 2 * family) as real, (PPM * 2 * family') as real;
    SmallerQuotient(e', d', e, d);
  }

  lemma SmallerQuotient(a: real, x: real, b: real, y: real)
    requires 0.0 <= a <= b && 0.0 < y <= x
    ensures a / x <= b / y
  {
  }

  /** Raising the confidence or declaring more cases never flips a verdict. */
  lemma ConfidenceNeverFlips(base: seq<real>, candidate: seq<real>, confidence: nat, family: nat,
                             confidence': nat, family': nat, portable: bool, reviewed: bool, limitPpm: nat)
    requires confidence <= confidence' <= 1_000_000 && 0 < family <= family'
    ensures var strict := Judge(base, candidate, Alpha(confidence', family'), portable, reviewed, limitPpm).status;
            || strict == Inconclusive
            || strict == Judge(base, candidate, Alpha(confidence, family), portable, reviewed, limitPpm).status
  {
    AlphaShrinks(confidence, family, confidence', family');
    StricterNeverFlips(base, candidate, Alpha(confidence', family'), Alpha(confidence, family),
                       portable, reviewed, limitPpm);
  }

  // ---- How often a verdict is wrong ----

  /** Case i compares population 2i with population 2i + 1. The verdict is wrong
      when it contradicts the true medians. */
  ghost predicate WrongVerdict<T(!new)>(pops: seq<Population<T>>, limits: seq<nat>, alpha: real,
                                        portable: bool, reviewed: bool, o: T, i: nat)
    requires |pops| == 2 * |limits| && i < |limits|
  {
    var base, candidate := pops[2 * i], pops[2 * i + 1];
    Contradicts(Judge(base.sample(o), candidate.sample(o), alpha, portable, reviewed, limits[i]).status,
                Limit(limits[i]), base.theta, candidate.theta)
  }

  ghost function WrongOutcomes<T(!new)>(pops: seq<Population<T>>, limits: seq<nat>, alpha: real,
                                        portable: bool, reviewed: bool, omega: set<T>): set<T>
    requires |pops| == 2 * |limits|
  {
    set o | o in omega && exists i :: 0 <= i < |limits| && WrongVerdict(pops, limits, alpha, portable, reviewed, o, i)
  }

  lemma WrongVerdictMisses<T(!new)>(pops: seq<Population<T>>, limits: seq<nat>, alpha: real,
                                    portable: bool, reviewed: bool, o: T, i: nat)
    requires |pops| == 2 * |limits| && i < |limits|
    requires WrongVerdict(pops, limits, alpha, portable, reviewed, o, i)
    ensures Misses(pops[2 * i], alpha, o) || Misses(pops[2 * i + 1], alpha, o)
  {
    var base, candidate := pops[2 * i], pops[2 * i + 1];
    ContradictionIsOutside(base.sample(o), candidate.sample(o), alpha, portable, reviewed, limits[i],
                           base.theta, candidate.theta);
  }

  /** Over all declared cases together, however they depend on each other, the
      probability that any regression or pass verdict contradicts the true
      medians is at most what the confidence leaves. */
  lemma WrongVerdictsAreRare<T(!new)>(pops: seq<Population<T>>, ms: seq<nat>, limits: seq<nat>, omega: set<T>,
                                      confidence: nat, portable: bool, reviewed: bool)
    requires confidence <= 1_000_000 && limits != [] && |pops| == |ms| == 2 * |limits|
    requires forall i :: 0 <= i < |pops| ==> Fair(pops[i], omega, ms[i])
    ensures |WrongOutcomes(pops, limits, Alpha(confidence, |limits|), portable, reviewed, omega)| as real
            <= (1_000_000 - confidence) as real / 1_000_000.0 * |omega| as real
  {
    var alpha := Alpha(confidence, |limits|);
    var wrong := WrongOutcomes(pops, limits, alpha, portable, reviewed, omega);
    forall o | o in wrong ensures o in AnyMissed(pops, alpha, omega) {
      var i :| 0 <= i < |limits| && WrongVerdict(pops, limits, alpha, portable, reviewed, o, i);
      WrongVerdictMisses(pops, limits, alpha, portable, reviewed, o, i);
    }
    SubsetSize(wrong, AnyMissed(pops, alpha, omega));
    FamilyCoverage(pops, ms, omega, confidence, |limits|);
  }

  // ---- The overall status ----

  const Priority: seq<Status> :=
    [Failed, Incompatible, Regression, NotRun, Inconclusive, Characterization, StructuralMatch, Pass]

  function ExitCode(s: Status): nat {
    match s
    case Pass | StructuralMatch | Characterization => 0
    case Regression => 1
    case Incompatible | Failed => 2
    case NotRun => 3
    case Inconclusive => 4
  }

  predicate Has(rows: seq<Row>, status: Status) {
    exists r :: r in rows && r.status == status
  }

  /** The first status in the list that any row has. */
  method OverallStatus(rows: seq<Row>) returns (status: Status)
    requires rows != []
    ensures status ==
            if Has(rows, Failed) then Failed else if Has(rows, Incompatible) then Incompatible
            else if Has(rows, Regression) then Regression else if Has(rows, NotRun) then NotRun
            else if Has(rows, Inconclusive) then Inconclusive
            else if Has(rows, Characterization) then Characterization
            else if Has(rows, StructuralMatch) then StructuralMatch else Pass
    ensures Has(rows, status)
    ensures status == Pass <==> forall r :: r in rows ==> r.status == Pass
    ensures ExitCode(status) ==
            if Has(rows, Failed) || Has(rows, Incompatible) then 2 else if Has(rows, Regression) then 1
            else if Has(rows, NotRun) then 3 else if Has(rows, Inconclusive) then 4 else 0
    ensures ExitCode(status) == 0 <==> forall r :: r in rows ==> ExitCode(r.status) == 0
  {
    assert rows[0] in rows && Has(rows, rows[0].status);
    for k := 0 to |Priority|
      invariant forall j :: 0 <= j < k ==> !Has(rows, Priority[j])
    {
      if Has(rows, Priority[k]) {
        FirstIsWorst(rows, k);
        return Priority[k];
      }
    }
    PriorityIsComplete(rows[0].status);
    status := Pass;
  }

  lemma FirstIsWorst(rows: seq<Row>, k: nat)
    requires k < |Priority| && Has(rows, Priority[k]) && forall j :: 0 <= j < k ==> !Has(rows, Priority[j])
    ensures Priority[k] ==
            if Has(rows, Failed) then Failed else if Has(rows, Incompatible) then Incompatible
            else if Has(rows, Regression) then Regression else if Has(rows, NotRun) then NotRun
            else if Has(rows, Inconclusive) then Inconclusive
            else if Has(rows, Characterization) then Characterization
            else if Has(rows, StructuralMatch) then StructuralMatch else Pass
    ensures Priority[k] == Pass <==> forall r :: r in rows ==> r.status == Pass
    ensures ExitCode(Priority[k]) ==
            if Has(rows, Failed) || Has(rows, Incompatible) then 2 else if Has(rows, Regression) then 1
            else if Has(rows, NotRun) then 3 else if Has(rows, Inconclusive) then 4 else 0
    ensures ExitCode(Priority[k]) == 0 <==> forall r :: r in rows ==> ExitCode(r.status) == 0
  {
    var p := Priority;
    assert p[0] == Failed && p[1] == Incompatible && p[2] == Regression && p[3] == NotRun;
    assert p[4] == Inconclusive && p[5] == Characterization && p[6] == StructuralMatch && p[7] == Pass;
    forall r | r in rows ensures Has(rows, r.status) {
    }
  }

  lemma PriorityIsComplete(s: Status)
    ensures exists k :: 0 <= k < |Priority| && Priority[k] == s
  {
    var k := match s
      case Failed => 0 case Incompatible => 1 case Regression => 2 case NotRun => 3
      case Inconclusive => 4 case Characterization => 5 case StructuralMatch => 6 case Pass => 7;
    assert Priority[k] == s;
  }
}
