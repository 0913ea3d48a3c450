/** The exact order-statistic interval of the benchmark comparison, and the
    coverage it guarantees for one population and for a whole family of cases. */
module ConfidenceInterval {
  import opened Binomial
  import opened Options
  import opened OrderStatistics
  import opened Sets

  const PPM: nat := 1_000_000

  /** The error allowed to one population: two populations for every case share
      what the confidence leaves. */
  function Alpha(confidence: nat, family: nat): (a: real)
    requires confidence <= 1_000_000 && family > 0
    ensures a >= 0.0 && a * (2_000_000 * family) as real == (1_000_000 - confidence) as real
  {
    (PPM - confidence) as real / (PPM * 2 * family) as real
  }

  /** How many of the 2^n above/below patterns an error fraction allows. */
  function Budget(alpha: real, n: nat): real {
    alpha * Pow2(n) as real
  }

  /** The two tails of length k stay within the budget. */
  predicate Fits(n: nat, k: nat, budget: real) {
    (2 * Tail(n, k)) as real <= budget
  }

  /** The largest rank up to m whose two tails fit. */
  function Rank(n: nat, budget: real, m: nat): (k: nat)
    ensures k <= m && (k > 0 ==> Fits(n, k, budget))
  {
    if m == 0 || Fits(n, m, budget) then m else Rank(n, budget, m - 1)
  }

  function IntervalOf(values: seq<real>, alpha: real): Option<(real, real)> {
    var k := Rank(|values|, Budget(alpha, |values|), |values| / 2);
    if k == 0 then None else Some(Bounds(values, k))
  }

  lemma {:induction false} TailGrows(n: nat, j: nat, k: nat)
    requires j <= k
    ensures Tail(n, j) <= Tail(n, k)
  {
    if j < k { TailGrows(n, j, k - 1); }
  }

  lemma FitsShrinks(n: nat, j: nat, k: nat, budget: real)
    requires j <= k && Fits(n, k, budget)
    ensures Fits(n, j, budget)
  {
    TailGrows(n, j, k);
  }

  /** Once a rank stops fitting no larger one fits, so the early exit is sound. */
  lemma {:induction false} RankAt(n: nat, budget: real, m: nat, k: nat)
    requires k <= m
    requires k > 0 ==> Fits(n, k, budget)
    requires k < m ==> !Fits(n, k + 1, budget)
    ensures Rank(n, budget, m) == k
  {
    if k < m {
      if Fits(n, m, budget) {
        FitsShrinks(n, k + 1, m, budget);
      }
      RankAt(n, budget, m - 1, k);
    }
  }

  lemma QuotientAtMost(a: real, d: real, alpha: real)
    requires d > 0.0
    ensures a / d <= alpha <==> a <= alpha * d
  {
  }

  // ---- One population ----

  /** Samples on the side of the threshold that the pattern says; a sample equal
      to the threshold may be counted on either side. */
  predicate Consistent(values: seq<real>, side: seq<bool>, theta: real) {
    && |values| == |side|
    && forall i :: 0 <= i < |side| ==> if side[i] then values[i] <= theta else values[i] >= theta
  }

  predicate Outside(theta: real, b: (real, real)) {
    theta < b.0 || b.1 < theta
  }

  lemma {:induction false} PatternCounts(values: seq<real>, side: seq<bool>, theta: real)
    requires Consistent(values, side, theta)
    ensures Under(values, theta, true) <= Trues(side) <= Under(values, theta, false)
  {
    if side != [] { PatternCounts(values[1..], side[1..], theta); }
  }

  /** The interval misses the threshold only for patterns in one of the tails. */
  lemma MissLeans(values: seq<real>, side: seq<bool>, theta: real, k: nat)
    requires Consistent(values, side, theta) && 1 <= k <= |values|
    requires Outside(theta, Bounds(values, k))
    ensures side in Few(|values|, k) + Many(|values|, k)
  {
    var n, ordered := |values|, Sort(values);
    PatternsAreAll(n, side);
    PatternCounts(values, side, theta);
    UnderSort(values, theta, true);
    UnderSort(values, theta, false);
    UnderAt(ordered, theta, false, k - 1);
    UnderAt(ordered, theta, true, n - k);
  }

  /** Samples strictly on the side the pattern says. */
  function Spread(side: seq<bool>, theta: real): (values: seq<real>)
    ensures Consistent(values, side, theta)
  {
    seq(|side|, i requires 0 <= i < |side| => if side[i] then theta - 1.0 else theta + 1.0)
  }

  lemma {:induction false} SpreadCounts(side: seq<bool>, theta: real, strict: bool)
    ensures Under(Spread(side, theta), theta, strict) == Trues(side)
  {
    if side != [] {
      SpreadCounts(side[1..], theta, strict);
      assert Spread(side, theta)[1..] == Spread(side[1..], theta);
    }
  }

  /** For spread samples, every pattern in a tail is missed. */
  lemma LeanMisses(side: seq<bool>, theta: real, k: nat)
    requires 1 <= k <= |side| && side in Few(|side|, k) + Many(|side|, k)
    ensures Outside(theta, Bounds(Spread(side, theta), k))
  {
    var n, ordered := |side|, Sort(Spread(side, theta));
    SpreadCounts(side, theta, true);
    SpreadCounts(side, theta, false);
    UnderSort(Spread(side, theta), theta, true);
    UnderSort(Spread(side, theta), theta, false);
    UnderAt(ordered, theta, false, k - 1);
    UnderAt(ordered, theta, true, n - k);
  }

  ghost predicate Samples(n: nat, theta: real, sample: seq<bool> -> seq<real>) {
    forall p :: p in Patterns(n) ==> Consistent(sample(p), p, theta)
  }

  /** The patterns whose samples leave the threshold outside the rank-k interval. */
  ghost function MissedPatterns(n: nat, k: nat, theta: real, sample: seq<bool> -> seq<real>): set<seq<bool>>
  {
    set p | p in Patterns(n) && OutsideRank(theta, sample(p), k)
  }

  predicate OutsideRank(theta: real, values: seq<real>, k: nat) {
    1 <= k <= |values| && Outside(theta, Bounds(values, k))
  }

  lemma MissedAreLeaning(n: nat, k: nat, theta: real, sample: seq<bool> -> seq<real>)
    requires 1 <= k <= n && Samples(n, theta, sample)
    ensures |MissedPatterns(n, k, theta, sample)| <= 2 * Tail(n, k)
  {
    LeaningCount(n, k);
    var missed := MissedPatterns(n, k, theta, sample);
    forall p | p in missed ensures p in Few(n, k) + Many(n, k) {
      PatternsAreAll(n, p);
      MissLeans(sample(p), p, theta, k);
    }
    SubsetSize(missed, Few(n, k) + Many(n, k));
  }

  lemma LeaningAreMissed(n: nat, k: nat) returns (sample: seq<bool> -> seq<real>)
    requires 1 <= k && 2 * k <= n
    ensures Samples(n, 0.0, sample)
    ensures |MissedPatterns(n, k, 0.0, sample)| >= 2 * Tail(n, k)
  {
    LeaningCount(n, k);
    sample := (p: seq<bool>) => Spread(p, 0.0);
    forall p | p in Few(n, k) + Many(n, k) ensures p in MissedPatterns(n, k, 0.0, sample) {
      PatternsAreAll(n, p);
      LeanMisses(p, 0.0, k);
    }
    SubsetSize(Few(n, k) + Many(n, k), MissedPatterns(n, k, 0.0, sample));
  }

  /** Whatever the samples are, at most `budget` of the above/below patterns miss
      the threshold. */
  ghost predicate Covers(n: nat, k: nat, budget: real) {
    forall theta: real, sample: seq<bool> -> seq<real> :: Samples(n, theta, sample) ==>
      |MissedPatterns(n, k, theta, sample)| as real <= budget
  }

  lemma FitsCovers(n: nat, k: nat, budget: real)
    requires Fits(n, k, budget) && 1 <= k <= n
    ensures Covers(n, k, budget)
  {
    forall theta: real, sample: seq<bool> -> seq<real> | Samples(n, theta, sample)
      ensures |MissedPatterns(n, k, theta, sample)| as real <= budget
    {
      MissedAreLeaning(n, k, theta, sample);
    }
  }

  lemma CoversFits(n: nat, k: nat, budget: real)
    requires Covers(n, k, budget) && 1 <= k && 2 * k <= n
    ensures Fits(n, k, budget)
  {
    var sample := LeaningAreMissed(n, k);
    assert |MissedPatterns(n, k, 0.0, sample)| as real <= budget;
  }

  /** The test of the loop is exact: a rank fits exactly when its interval covers. */
  lemma FitsIsCoverage(n: nat, k: nat, budget: real)
    requires 1 <= k && 2 * k <= n
    ensures Fits(n, k, budget) <==> Covers(n, k, budget)
  {
    if Fits(n, k, budget) { FitsCovers(n, k, budget); }
    if Covers(n, k, budget) { CoversFits(n, k, budget); }
  }

  // ---- Which interval comes back ----

  /** Whatever the samples are, the rank-k interval misses the threshold in at most the share of
      the above/below patterns that the confidence leaves to one side of one case. */
  ghost predicate CoversEnough(n: nat, k: nat, confidence: nat, family: nat) {
    forall theta: real, sample: seq<bool> -> seq<real> :: Samples(n, theta, sample) ==>
      |MissedPatterns(n, k, theta, sample)| * (2_000_000 * family) <= (1_000_000 - confidence) * |Patterns(n)|
  }

  /** The k-th sample from below, and the k-th from above, by counting. */
  predicate FromBelow(values: seq<real>, k: nat, x: real) {
    x in values && Under(values, x, true) < k <= Under(values, x, false)
  }

  predicate FromAbove(values: seq<real>, k: nat, x: real) {
    x in values && |values| - Under(values, x, false) < k <= |values| - Under(values, x, true)
  }

  /** A rank that covers while no larger one up to the middle does. */
  ghost predicate IsRank(n: nat, k: nat, confidence: nat, family: nat) {
    && 1 <= k <= n / 2 && CoversEnough(n, k, confidence, family)
    && forall j :: k < j <= n / 2 ==> !CoversEnough(n, j, confidence, family)
  }

  /** The narrowest interval between a sample and its counterpart from the other end that
      covers, or none when not even the widest does. */
  ghost predicate IsInterval(values: seq<real>, confidence: nat, family: nat, r: Option<(real, real)>) {
    match r
    case None => forall k :: 1 <= k <= |values| / 2 ==> !CoversEnough(|values|, k, confidence, family)
    case Some(i) => exists k :: IsRank(|values|, k, confidence, family)
                                && FromBelow(values, k, i.0) && FromAbove(values, k, i.1)
  }

  lemma ShareIsBudget(count: nat, confidence: nat, family: nat, n: nat)
    requires confidence <= 1_000_000 && family > 0
    ensures count as real <= Budget(Alpha(confidence, family), n)
            <==> count * (2_000_000 * family) <= (1_000_000 - confidence) * Pow2(n)
  {
    CrossMultiply(count, Alpha(confidence, family), 2_000_000 * family, 1_000_000 - confidence, Pow2(n));
  }

  lemma CrossMultiply(count: nat, alpha: real, d: nat, e: nat, p: nat)
    requires d > 0 && alpha * d as real == e as real
    ensures count as real <= alpha * p as real <==> count * d <= e * p
  {
    RealProduct(count, d);
    RealProduct(e, p);
    assert (alpha * p as real) * d as real == e as real * p as real;
    ScaledOrder(count as real, alpha * p as real, d as real);
  }

  lemma ScaledOrder(x: real, y: real, d: real)
    requires d > 0.0
    ensures x <= y <==> x * d <= y * d
  {
  }

  lemma FitsIsEnough(n: nat, k: nat, confidence: nat, family: nat)
    requires confidence <= 1_000_000 && family > 0 && 1 <= k <= n / 2
    ensures Fits(n, k, Budget(Alpha(confidence, family), n)) <==> CoversEnough(n, k, confidence, family)
  {
    var budget := Budget(Alpha(confidence, family), n);
    FitsIsCoverage(n, k, budget);
    PatternsCount(n);
    forall theta: real, sample: seq<bool> -> seq<real> | Samples(n, theta, sample)
      ensures |MissedPatterns(n, k, theta, sample)| as real <= budget
              <==> |MissedPatterns(n, k, theta, sample)| * (2_000_000 * family)
                   <= (1_000_000 - confidence) * |Patterns(n)|
    {
      ShareIsBudget(|MissedPatterns(n, k, theta, sample)|, confidence, family, n);
    }
  }

  lemma {:induction false} RankIsLargest(n: nat, budget: real, m: nat, j: nat)
    requires Rank(n, budget, m) < j <= m
    ensures !Fits(n, j, budget)
  {
    if j < m { RankIsLargest(n, budget, m - 1, j); }
  }

  lemma RankIsRank(n: nat, confidence: nat, family: nat, k: nat)
    requires confidence <= 1_000_000 && family > 0
    requires k == Rank(n, Budget(Alpha(confidence, family), n), n / 2)
    ensures k > 0 ==> IsRank(n, k, confidence, family)
    ensures forall j :: k < j <= n / 2 ==> !CoversEnough(n, j, confidence, family)
  {
    var budget := Budget(Alpha(confidence, family), n);
    forall j | k < j <= n / 2 ensures !CoversEnough(n, j, confidence, family) {
      RankIsLargest(n, budget, n / 2, j);
      FitsIsEnough(n, j, confidence, family);
    }
    if k > 0 { FitsIsEnough(n, k, confidence, family); }
  }

  lemma FromBelowIs(values: seq<real>, k: nat, x: real)
    requires 1 <= k <= |values|
    ensures FromBelow(values, k, x) <==> x == Sort(values)[k - 1]
  {
    SortedByCount(values, k - 1, x);
  }

  lemma FromAboveIs(values: seq<real>, k: nat, x: real)
    requires 1 <= k <= |values|
    ensures FromAbove(values, k, x) <==> x == Sort(values)[|values| - k]
  {
    SortedByCount(values, |values| - k, x);
  }

  lemma BoundsByCount(values: seq<real>, k: nat, i: (real, real))
    requires 1 <= k <= |values|
    ensures FromBelow(values, k, i.0) && FromAbove(values, k, i.1) <==> i == Bounds(values, k)
  {
    FromBelowIs(values, k, i.0);
    FromAboveIs(values, k, i.1);
  }

  /** The interval is the narrowest one that covers. */
  lemma IntervalIsExact(values: seq<real>, confidence: nat, family: nat)
    requires confidence <= 1_000_000 && family > 0
    ensures IsInterval(values, confidence, family, IntervalOf(values, Alpha(confidence, family)))
  {
    var n := |values|;
    var k := Rank(n, Budget(Alpha(confidence, family), n), n / 2);
    RankIsRank(n, confidence, family, k);
    if k > 0 { BoundsByCount(values, k, Bounds(values, k)); }
  }

  lemma RankIsUnique(n: nat, k: nat, k': nat, confidence: nat, family: nat)
    requires IsRank(n, k, confidence, family) && IsRank(n, k', confidence, family)
    ensures k == k'
  {
  }

  /** There is only one such interval. */
  lemma IntervalIsUnique(values: seq<real>, confidence: nat, family: nat,
                         r: Option<(real, real)>, r': Option<(real, real)>)
    requires IsInterval(values, confidence, family, r) && IsInterval(values, confidence, family, r')
    ensures r == r'
  {
    if r.Some? && r'.Some? {
      var k: nat :| IsRank(|values|, k, confidence, family)
                    && FromBelow(values, k, r.value.0) && FromAbove(values, k, r.value.1);
      var k': nat :| IsRank(|values|, k', confidence, family)
                     && FromBelow(values, k', r'.value.0) && FromAbove(values, k', r'.value.1);
      RankIsUnique(|values|, k, k', confidence, family);
      BoundsByCount(values, k, r.value);
      BoundsByCount(values, k, r'.value);
    }
  }

  /** Where the search stops, the interval is found. */
  lemma SearchStops(values: seq<real>, confidence: nat, family: nat, alpha: real, k: nat)
    requires confidence <= 1_000_000 && family > 0 && alpha == Alpha(confidence, family) && k <= |values| / 2
    requires k > 0 ==> Fits(|values|, k, Budget(alpha, |values|))
    requires k < |values| / 2 ==> !Fits(|values|, k + 1, Budget(alpha, |values|))
    ensures var r := if k == 0 then None else Some(Bounds(values, k));
            r == IntervalOf(values, alpha) && IsInterval(values, confidence, family, r)
  {
    RankAt(|values|, Budget(alpha, |values|), |values| / 2, k);
    IntervalIsExact(values, confidence, family);
  }

  /** The running tail with early exit finds the largest rank that fits. */
  method Interval(values: seq<real>, confidence: nat, family: nat) returns (chosen: Option<(real, real)>)
    requires confidence <= 1_000_000 && family > 0
    ensures IsInterval(values, confidence, family, chosen)
    ensures chosen == IntervalOf(values, Alpha(confidence, family))
  {
    var ordered := Sort(values);
    var n := |ordered|;
    var alpha := Alpha(confidence, family);
    ghost var budget := Budget(alpha, n);
    chosen := None;
    var tail := 0;
    for k := 1 to n / 2 + 1
      invariant tail == Tail(n, k - 1)
      invariant k > 1 ==> Fits(n, k - 1, budget)
      invariant chosen == if k == 1 then None else Some(Bounds(values, k - 1))
    {
      tail := tail + Comb(n, k - 1);
      QuotientAtMost((2 * tail) as real, Pow2(n) as real, alpha);
      if (2 * tail) as real / Pow2(n) as real <= alpha {
        chosen := Some((ordered[k - 1], ordered[n - k]));
      } else {
        SearchStops(values, confidence, family, alpha, k - 1);
        return;
      }
    }
    SearchStops(values, confidence, family, alpha, n / 2);
  }

  // ---- A family of populations over one space of equally likely outcomes ----

  /** Every run of the whole comparison is an outcome; each population reads its
      own samples, and the side of its true median they fall on, from it. */
  datatype Population<!T> = Population(n: nat, theta: real, sample: T -> seq<real>, side: T -> seq<bool>)

  /** Every above/below pattern of the population is equally likely. Nothing is
      said about how two populations depend on each other. */
  ghost predicate Fair<T(!new)>(pop: Population<T>, omega: set<T>, m: nat) {
    && (forall o :: o in omega ==>
         |pop.side(o)| == pop.n && Consistent(pop.sample(o), pop.side(o), pop.theta))
    && (forall p :: p in Patterns(pop.n) ==> |OutcomesWith(pop, omega, {p})| == m)
  }

  ghost function OutcomesWith<T(!new)>(pop: Population<T>, omega: set<T>, ps: set<seq<bool>>): set<T> {
    set o | o in omega && pop.side(o) in ps
  }

  lemma OutcomesSplit<T(!new)>(pop: Population<T>, omega: set<T>, ps: set<seq<bool>>, p: seq<bool>)
    requires p in ps
    ensures |OutcomesWith(pop, omega, ps)| == |OutcomesWith(pop, omega, {p})| + |OutcomesWith(pop, omega, ps - {p})|
  {
    var one, rest := OutcomesWith(pop, omega, {p}), OutcomesWith(pop, omega, ps - {p});
    assert OutcomesWith(pop, omega, ps) == one + rest;
    UnionSize(one, rest);
  }

  lemma {:induction false} OutcomesCount<T(!new)>(pop: Population<T>, omega: set<T>, m: nat, ps: set<seq<bool>>)
    requires Fair(pop, omega, m) && ps <= Patterns(pop.n)
    ensures |OutcomesWith(pop, omega, ps)| == m * |ps|
  {
    if ps == {} {
      assert OutcomesWith(pop, omega, ps) == {};
    } else {
      var p :| p in ps;
      OutcomesCount(pop, omega, m, ps - {p});
      OutcomesSplit(pop, omega, ps, p);
      OneMore(m, |ps - {p}|);
    }
  }

  lemma OneMore(m: nat, a: nat)
    ensures m * (a + 1) == m * a + m
  {
  }

  lemma OutcomesTotal<T(!new)>(pop: Population<T>, omega: set<T>, m: nat)
    requires Fair(pop, omega, m)
    ensures |omega| == m * Pow2(pop.n)
  {
    forall o | o in omega ensures pop.side(o) in Patterns(pop.n) {
      PatternsAreAll(pop.n, pop.side(o));
    }
    assert OutcomesWith(pop, omega, Patterns(pop.n)) == omega;
    OutcomesCount(pop, omega, m, Patterns(pop.n));
    PatternsCount(pop.n);
  }

  /** The outcomes in which the returned interval leaves out the true median. */
  ghost predicate Misses<T(!new)>(pop: Population<T>, alpha: real, o: T) {
    var i := IntervalOf(pop.sample(o), alpha);
    i.Some? && Outside(pop.theta, i.value)
  }

  ghost function Missed<T(!new)>(pop: Population<T>, alpha: real, omega: set<T>): set<T> {
    set o | o in omega && Misses(pop, alpha, o)
  }

  lemma MissedOutcomes<T(!new)>(pop: Population<T>, omega: set<T>, m: nat, alpha: real, k: nat)
    requires Fair(pop, omega, m) && 1 <= k && k == Rank(pop.n, Budget(alpha, pop.n), pop.n / 2)
    ensures |Missed(pop, alpha, omega)| <= m * (2 * Tail(pop.n, k))
  {
    LeaningCount(pop.n, k);
    var leaning := Few(pop.n, k) + Many(pop.n, k);
    forall o | o in Missed(pop, alpha, omega) ensures o in OutcomesWith(pop, omega, leaning) {
      MissLeans(pop.sample(o), pop.side(o), pop.theta, k);
    }
    SubsetSize(Missed(pop, alpha, omega), OutcomesWith(pop, omega, leaning));
    OutcomesCount(pop, omega, m, leaning);
    ProductGrows(m, |leaning|, 2 * Tail(pop.n, k));
  }

  lemma ProductGrows(m: nat, a: nat, b: nat)
    requires a <= b
    ensures m * a <= m * b
  {
  }

  lemma ScaleFraction(c: nat, m: nat, a: nat, budget: real, alpha: real, b: nat, w: nat)
    requires c <= m * a && a as real <= budget && budget == alpha * b as real && w == m * b
    ensures c as real <= alpha * w as real
  {
    RealProduct(m, a);
    RealProduct(m, b);
    RealsGrow(m as real, a as real, budget);
    assert m as real * (alpha * b as real) == alpha * (m as real * b as real);
  }

  lemma RealProduct(m: nat, a: nat)
    ensures (m * a) as real == m as real * a as real
  {
  }

  lemma RealsGrow(m: real, a: real, b: real)
    requires m >= 0.0 && a <= b
    ensures m * a <= m * b
  {
  }

  lemma NoIntervalNoMiss<T(!new)>(pop: Population<T>, omega: set<T>, m: nat, alpha: real)
    requires Fair(pop, omega, m) && Rank(pop.n, Budget(alpha, pop.n), pop.n / 2) == 0
    ensures Missed(pop, alpha, omega) == {}
  {
    forall o | o in omega ensures !Misses(pop, alpha, o) {
      assert |pop.side(o)| == pop.n && Consistent(pop.sample(o), pop.side(o), pop.theta);
    }
  }

  lemma NotNegative(a: real, n: nat)
    requires a >= 0.0
    ensures a * n as real >= 0.0
  {
  }

  /** The outcomes that miss, and all outcomes, as numbers. */
  lemma MissedNumbers<T(!new)>(pop: Population<T>, omega: set<T>, m: nat, alpha: real, k: nat)
    returns (tail: nat, patterns: nat)
    requires Fair(pop, omega, m) && 1 <= k && k == Rank(pop.n, Budget(alpha, pop.n), pop.n / 2)
    ensures |Missed(pop, alpha, omega)| <= m * tail && |omega| == m * patterns
    ensures tail as real <= alpha * patterns as real
  {
    tail, patterns := 2 * Tail(pop.n, k), Pow2(pop.n);
    RankFits(pop.n, Budget(alpha, pop.n), pop.n / 2, k);
    FittingTail(pop.n, k, alpha, tail, patterns);
    MissedOutcomes(pop, omega, m, alpha, k);
    OutcomesTotal(pop, omega, m);
  }

  lemma RankFits(n: nat, budget: real, m: nat, k: nat)
    requires 1 <= k == Rank(n, budget, m)
    ensures Fits(n, k, budget)
  {
  }

  lemma FittingTail(n: nat, k: nat, alpha: real, tail: nat, patterns: nat)
    requires Fits(n, k, Budget(alpha, n)) && tail == 2 * Tail(n, k) && patterns == Pow2(n)
    ensures tail as real <= alpha * patterns as real
  {
  }

  /** One population misses with probability at most its share of the error. */
  lemma PopulationCoverage<T(!new)>(pop: Population<T>, omega: set<T>, m: nat, alpha: real)
    requires Fair(pop, omega, m) && alpha >= 0.0
    ensures |Missed(pop, alpha, omega)| as real <= alpha * |omega| as real
  {
    var missed, size := |Missed(pop, alpha, omega)|, |omega|;
    var k := Rank(pop.n, Budget(alpha, pop.n), pop.n / 2);
    if k == 0 {
      NoIntervalNoMiss(pop, omega, m, alpha);
      NotNegative(alpha, size);
    } else {
      var tail, patterns := MissedNumbers(pop, omega, m, alpha, k);
      ScaleFraction(missed, m, tail, alpha * patterns as real, alpha, patterns, size);
    }
  }

  ghost function AnyMissed<T(!new)>(pops: seq<Population<T>>, alpha: real, omega: set<T>): set<T> {
    set o | o in omega && exists i :: 0 <= i < |pops| && Misses(pops[i], alpha, o)
  }

  lemma AnyMissedSplits<T(!new)>(pops: seq<Population<T>>, alpha: real, omega: set<T>)
    requires pops != []
    ensures |AnyMissed(pops, alpha, omega)|
            <= |AnyMissed(pops[..|pops| - 1], alpha, omega)| + |Missed(pops[|pops| - 1], alpha, omega)|
  {
    var last := |pops| - 1;
    var rest := pops[..last];
    var a, b := AnyMissed(rest, alpha, omega), Missed(pops[last], alpha, omega);
    forall o | o in AnyMissed(pops, alpha, omega) ensures o in a + b {
      var i :| 0 <= i < |pops| && Misses(pops[i], alpha, o);
      if i < last { assert rest[i] == pops[i]; }
    }
    SubsetSize(AnyMissed(pops, alpha, omega), a + b);
    UnionSize(a, b);
  }

  ghost function Shares(n: nat, share: real): real {
    if n == 0 then 0.0 else Shares(n - 1, share) + share
  }

  lemma {:induction false} SharesProduct(n: nat, share: real)
    ensures Shares(n, share) == n as real * share
  {
    if n > 0 {
      SharesProduct(n - 1, share);
      assert n as real * share == (n - 1) as real * share + share;
    }
  }

  /** The errors of any number of populations add up, however they depend. */
  lemma {:induction false} UnionBound<T(!new)>(pops: seq<Population<T>>, omega: set<T>, alpha: real, share: real)
    requires forall i :: 0 <= i < |pops| ==> |Missed(pops[i], alpha, omega)| as real <= share
    ensures |AnyMissed(pops, alpha, omega)| as real <= Shares(|pops|, share)
    decreases |pops|
  {
    if pops == [] {
      assert AnyMissed(pops, alpha, omega) == {};
    } else {
      UnionBound(pops[..|pops| - 1], omega, alpha, share);
      AnyMissedSplits(pops, alpha, omega);
    }
  }

  lemma ShareOfError(confidence: nat, family: nat, x: real)
    requires confidence <= 1_000_000 && family > 0
    ensures (2 * family) as real * (Alpha(confidence, family) * x)
            == (1_000_000 - confidence) as real / 1_000_000.0 * x
  {
  }

  /** Over both populations of every case, all returned intervals hold their true
      medians at once with at least the stated confidence. */
  lemma FamilyCoverage<T(!new)>(pops: seq<Population<T>>, ms: seq<nat>, omega: set<T>, confidence: nat, family: nat)
    requires confidence <= 1_000_000 && family > 0 && |pops| == |ms| == 2 * family
    requires forall i :: 0 <= i < |pops| ==> Fair(pops[i], omega, ms[i])
    ensures |AnyMissed(pops, Alpha(confidence, family), omega)| as real
            <= (1_000_000 - confidence) as real / 1_000_000.0 * |omega| as real
  {
    var alpha := Alpha(confidence, family);
    forall i | 0 <= i < |pops| ensures |Missed(pops[i], alpha, omega)| as real <= alpha * |omega| as real {
      PopulationCoverage(pops[i], omega, ms[i], alpha);
    }
    UnionBound(pops, omega, alpha, alpha * |omega| as real);
    SharesProduct(2 * family, alpha * |omega| as real);
    ShareOfError(confidence, family, |omega| as real);
  }
}
