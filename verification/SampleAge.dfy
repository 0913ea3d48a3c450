/** The cross-rate age check of the golden-scenario validator: the reference
    records of one supercycle, the worst age they show, and what that says about
    every consumer release of an unbounded run. */
module SampleAge {
  import opened NumberTheory

  /** A release in the reference order. Rates and phases are numbered in the
      order in which the contract lists them. */
  datatype Record = Record(tick: nat, rate: nat, phase: nat)

  predicate Before(a: Record, b: Record) {
    || a.tick < b.tick
    || (a.tick == b.tick && (a.rate < b.rate || (a.rate == b.rate && a.phase < b.phase)))
  }

  predicate Sorted(rs: seq<Record>) {
    forall i, j :: 0 <= i < j < |rs| ==> Before(rs[i], rs[j])
  }

  /** `phases[i]` is the rate of phase i and `periods[r]` the period of rate r. */
  predicate Timing(phases: seq<nat>, periods: seq<nat>) {
    && (forall r :: 0 <= r < |periods| ==> periods[r] > 0)
    && (forall i :: 0 <= i < |phases| ==> phases[i] < |periods|)
  }

  predicate IsRelease(r: Record, phases: seq<nat>, periods: seq<nat>, horizon: nat)
    requires Timing(phases, periods)
  {
    && r.phase < |phases| && r.rate == phases[r.phase]
    && r.tick < horizon && r.tick % periods[r.rate] == 0
  }

  ghost predicate ReferenceRecords(rs: seq<Record>, phases: seq<nat>, periods: seq<nat>, horizon: nat) {
    && Timing(phases, periods)
    && Sorted(rs)
    && forall r :: r in rs <==> IsRelease(r, phases, periods, horizon)
  }

  function Insert(r: Record, rs: seq<Record>): (out: seq<Record>)
    requires Sorted(rs) && r !in rs
    ensures Sorted(out) && forall x :: x in out <==> x == r || x in rs
  {
    if rs == [] then [r]
    else if Before(r, rs[0]) then
      assert ([r] + rs)[1..] == rs;
      [r] + rs
    else
      assert rs == [rs[0]] + rs[1..];
      var rest := Insert(r, rs[1..]);
      assert forall x :: x in rest ==> Before(rs[0], x);
      [rs[0]] + rest
  }

  /** The sorted list of every release of every phase in one horizon. */
  method BuildRecords(phases: seq<nat>, periods: seq<nat>, horizon: nat) returns (rs: seq<Record>)
    requires Timing(phases, periods)
    ensures ReferenceRecords(rs, phases, periods, horizon)
  {
    rs := [];
    for i := 0 to |phases|
      invariant Sorted(rs)
      invariant forall r :: r in rs <==> r.phase < i && IsRelease(r, phases, periods, horizon)
    {
      var period, tick := periods[phases[i]], 0;
      while tick < horizon
        invariant tick % period == 0 && Sorted(rs)
        invariant forall r :: r in rs <==>
                    IsRelease(r, phases, periods, horizon) && (r.phase < i || (r.phase == i && r.tick < tick))
      {
        rs := Insert(Record(tick, phases[i], i), rs);
        forall t: nat | tick < t < tick + period ensures t % period != 0 {
          DivisionIsUnique(t, period, tick / period, t - tick);
        }
        DivisionIsUnique(tick + period, period, tick / period + 1, 0);
        tick := tick + period;
      }
    }
  }

  // ---- Ages in the endless schedule ----

  /** Age seen at tick t by a consumer of a producer with period p. When the
      producer comes later in a tick, the sample of the same tick is not there yet. */
  function AgeAt(p: nat, after: bool, t: nat): nat
    requires p > 0
  {
    if after && t % p == 0 then p else t % p
  }

  predicate Precedes(after: bool, s: nat, t: nat) {
    s < t || (s == t && !after)
  }

  /** s is the most recent producer release before the consumer release at t. */
  ghost predicate LatestSample(p: nat, after: bool, s: nat, t: nat)
    requires p > 0
  {
    && s % p == 0 && Precedes(after, s, t)
    && forall u: nat :: s < u && u % p == 0 ==> !Precedes(after, u, t)
  }

  lemma LatestSampleAge(p: nat, after: bool, s: nat, t: nat)
    requires p > 0 && s % p == 0 && Precedes(after, s, t) && !Precedes(after, s + p, t)
    ensures t - s == AgeAt(p, after, t)
  {
    assert s == (s / p) * p;
    if t - s < p {
      DivisionIsUnique(t, p, s / p, t - s);
    } else {
      DivisionIsUnique(t, p, s / p + 1, 0);
    }
  }

  lemma NextRelease(p: nat, s: nat)
    requires p > 0 && s % p == 0
    ensures (s + p) % p == 0
  {
    DivisionIsUnique(s + p, p, s / p + 1, 0);
  }

  /** The largest age that can occur. */
  function WorstCase(p: nat, c: nat, after: bool): int
    requires p > 0 && c > 0
  {
    if after then p else p - Gcd(p, c)
  }

  /** No release of the endless schedule is older than the worst case. */
  lemma AgeNeverExceeds(p: nat, c: nat, after: bool, t: nat)
    requires p > 0 && c > 0 && t % c == 0
    ensures AgeAt(p, after, t) <= WorstCase(p, c, after)
  {
    var g := Gcd(p, c);
    var x, y := GcdIsCombination(p, c);
    DividesIffNoRemainder(c, t);
    DividesTransitive(g, c, t);
    assert t % p == 1 * t + (-(t / p)) * p;
    DividesCombination(g, t, p, 1, -(t / p));
    DividesCombination(g, p, t % p, 1, -1);
    var k :| p - t % p == k * g;
    MultipleBounds(k, g);
  }

  /** Any multiple of c can be moved into any supercycle, keeping its remainder. */
  lemma ShiftIntoCycle(p: nat, c: nat, horizon: nat, cycle: nat, u: int, r: int) returns (t: nat)
    requires p > 0 && c > 0 && horizon > 0
    requires Divides(p, horizon) && Divides(c, horizon)
    requires 0 <= r < p && Divides(p, u - r) && Divides(c, u)
    ensures cycle * horizon <= t < (cycle + 1) * horizon
    ensures t % c == 0 && t % p == r
  {
    t := cycle * horizon + u % horizon;
    var shift := cycle - u / horizon;
    assert t == 1 * u + shift * horizon;
    DividesCombination(c, u, horizon, 1, shift);
    DividesIffNoRemainder(c, t);
    DividesCombination(p, u - r, horizon, 1, shift);
    var k :| 1 * (u - r) + shift * horizon == k * p;
    DivisionIsUnique(t, p, k, r);
  }

  lemma NegatedCombination(g: int, p: int, c: int, x: int, y: int)
    requires g == x * p + y * c
    ensures Divides(p, (-y) * c - (p - g)) && Divides(c, (-y) * c)
  {
    assert (-y) * c - (p - g) == (x - 1) * p;
  }

  /** Every supercycle holds a consumer release of exactly that age. */
  lemma WorstCaseRecurs(p: nat, c: nat, after: bool, horizon: nat, cycle: nat) returns (t: nat)
    requires p > 0 && c > 0 && horizon > 0
    requires horizon % p == 0 && horizon % c == 0
    ensures cycle * horizon <= t < (cycle + 1) * horizon
    ensures t % c == 0 && AgeAt(p, after, t) == WorstCase(p, c, after)
  {
    DividesIffNoRemainder(p, horizon);
    DividesIffNoRemainder(c, horizon);
    if after {
      DividesItself(c);
      DividesItself(p);
      t := ShiftIntoCycle(p, c, horizon, cycle, 0, 0);
    } else {
      var g := Gcd(p, c);
      var x, y := GcdIsCombination(p, c);
      NegatedCombination(g, p, c, x, y);
      var k :| p == k * g;
      MultipleBounds(k, g);
      t := ShiftIntoCycle(p, c, horizon, cycle, (-y) * c, p - g);
    }
  }

  /** Every consumer release of an endless run reads a sample at most `bound` old. */
  ghost predicate AgesWithin(p: nat, c: nat, after: bool, bound: int)
    requires p > 0 && c > 0
  {
    forall s: nat, t: nat :: LatestSample(p, after, s, t) && t % c == 0 ==> t - s <= bound
  }

  /** A bound holds for the ages of an unbounded run exactly when it is at least
      the worst case. */
  lemma BoundIsExact(p: nat, c: nat, after: bool, horizon: nat, bound: int)
    requires p > 0 && c > 0 && horizon > 0
    requires horizon % p == 0 && horizon % c == 0
    ensures WorstCase(p, c, after) <= bound <==> AgesWithin(p, c, after, bound)
  {
    if WorstCase(p, c, after) <= bound {
      forall s: nat, t: nat | t % c == 0 && LatestSample(p, after, s, t) ensures t - s <= bound {
        NextRelease(p, s);
        LatestSampleAge(p, after, s, t);
        AgeNeverExceeds(p, c, after, t);
      }
    } else {
      var t := WorstCaseRecurs(p, c, after, horizon, 1);
      var s := SampleFor(p, after, t);
      assert t - s > bound;
    }
  }

  /** From the second supercycle on every consumer release has a latest sample. */
  lemma SampleFor(p: nat, after: bool, t: nat) returns (s: nat)
    requires p > 0 && t > 0
    ensures LatestSample(p, after, s, t) && t - s == AgeAt(p, after, t)
  {
    var age := AgeAt(p, after, t);
    var q := if after && t % p == 0 then t / p - 1 else t / p;
    assert t == (t / p) * p + t % p;
    if after && t % p == 0 {
      MultipleBounds(t / p, p);
    }
    s := q * p;
    DivisionIsUnique(s, p, q, 0);
    forall u: nat | s < u && u % p == 0 ensures !Precedes(after, u, t) {
      assert u == (u / p) * p;
      assert u - s == (u / p - q) * p;
      MultipleBounds(u / p - q, p);
    }
  }

  // ---- The scan over the reference records ----

  /** The producer's records, by index and tick, in order. */
  ghost predicate SourcesOf(rs: seq<Record>, a: nat, sources: seq<(nat, nat)>, n: nat) {
    && n <= |rs|
    && (forall k :: 0 <= k < |sources| ==>
         sources[k].0 < n && rs[sources[k].0].phase == a && rs[sources[k].0].tick == sources[k].1)
    && (forall k, m :: 0 <= k < m < |sources| ==> sources[k].0 < sources[m].0)
    && (forall i :: 0 <= i < n && rs[i].phase == a ==> exists k :: 0 <= k < |sources| && sources[k].0 == i)
  }

  method Sources(rs: seq<Record>, a: nat) returns (sources: seq<(nat, nat)>)
    ensures SourcesOf(rs, a, sources, |rs|)
  {
    sources := [];
    for i := 0 to |rs|
      invariant SourcesOf(rs, a, sources, i)
    {
      ghost var was := sources;
      if rs[i].phase == a {
        sources := sources + [(i, rs[i].tick)];
      }
      forall j | 0 <= j < i + 1 && rs[j].phase == a ensures exists k :: 0 <= k < |sources| && sources[k].0 == j {
        if j < i {
          var k :| 0 <= k < |was| && was[k].0 == j;
          assert sources[k].0 == j;
        } else {
          assert sources[|was|].0 == j;
        }
      }
    }
  }

  /** The ticks of the first n records of the producer that stand before index i. */
  function TicksBefore(sources: seq<(nat, nat)>, n: nat, i: nat): seq<nat>
    requires n <= |sources|
  {
    if n == 0 then []
    else TicksBefore(sources, n - 1, i) + (if sources[n - 1].0 < i then [sources[n - 1].1] else [])
  }

  /** The last of them, if there is one, is the last source before index i. */
  ghost predicate PriorOf(sources: seq<(nat, nat)>, prior: seq<nat>, n: nat, i: nat) {
    && n <= |sources|
    && (prior == [] ==> forall k :: 0 <= k < n ==> sources[k].0 >= i)
    && (prior != [] ==>
         exists k :: 0 <= k < n && sources[k].0 < i && sources[k].1 == prior[|prior| - 1]
                     && forall m :: k < m < n ==> sources[m].0 >= i)
  }

  method Prior(sources: seq<(nat, nat)>, i: nat) returns (prior: seq<nat>)
    ensures prior == TicksBefore(sources, |sources|, i)
    ensures PriorOf(sources, prior, |sources|, i)
  {
    prior := [];
    for n := 0 to |sources|
      invariant prior == TicksBefore(sources, n, i)
      invariant PriorOf(sources, prior, n, i)
    {
      if sources[n].0 < i {
        prior := prior + [sources[n].1];
      }
    }
  }

  ghost predicate Channel(rs: seq<Record>, phases: seq<nat>, periods: seq<nat>, horizon: nat, a: nat, b: nat) {
    && ReferenceRecords(rs, phases, periods, horizon)
    && horizon > 0 && a < |phases| && b < |phases| && phases[a] != phases[b]
    && horizon % periods[phases[a]] == 0 && horizon % periods[phases[b]] == 0
  }

  /** A record that precedes another one stands before it in the list. */
  lemma RecordIndex(rs: seq<Record>, r: Record, i: nat) returns (j: nat)
    requires Sorted(rs) && r in rs && i < |rs|
    ensures j < |rs| && rs[j] == r && (Before(r, rs[i]) <==> j < i)
  {
    j :| 0 <= j < |rs| && rs[j] == r;
  }

  /** The last producer record before a consumer record is its latest sample. */
  lemma LastPriorIsLatest(rs: seq<Record>, phases: seq<nat>, periods: seq<nat>, horizon: nat, a: nat, b: nat,
                          j: nat, i: nat)
    requires Channel(rs, phases, periods, horizon, a, b)
    requires j < i < |rs| && rs[j].phase == a && rs[i].phase == b
    requires forall m :: j < m < i ==> rs[m].phase != a
    ensures rs[i].tick - rs[j].tick == AgeAt(periods[phases[a]], phases[a] > phases[b], rs[i].tick)
  {
    var p, after, s, t := periods[phases[a]], phases[a] > phases[b], rs[j].tick, rs[i].tick;
    assert rs[j] in rs && rs[i] in rs;
    assert Before(rs[j], rs[i]);
    NextRelease(p, s);
    if Precedes(after, s + p, t) {
      var next := Record(s + p, phases[a], a);
      assert IsRelease(next, phases, periods, horizon);
      var m := RecordIndex(rs, next, i);
      var n := RecordIndex(rs, next, j);
      assert false;
    }
    LatestSampleAge(p, after, s, t);
  }

  /** Only the release at tick zero of an earlier rate has no prior sample. */
  lemma NoPriorAtStart(rs: seq<Record>, phases: seq<nat>, periods: seq<nat>, horizon: nat, a: nat, b: nat, i: nat)
    requires Channel(rs, phases, periods, horizon, a, b)
    requires i < |rs| && rs[i].phase == b
    requires forall m :: 0 <= m < i ==> rs[m].phase != a
    ensures rs[i].tick == 0 && phases[a] > phases[b]
  {
    var start := Record(0, phases[a], a);
    assert rs[i] in rs;
    assert IsRelease(start, phases, periods, horizon);
    var m := RecordIndex(rs, start, i);
  }

  /** The last producer release of the horizon is one period before its end. */
  lemma LastSource(rs: seq<Record>, phases: seq<nat>, periods: seq<nat>, horizon: nat, a: nat, b: nat, j: nat)
    requires Channel(rs, phases, periods, horizon, a, b)
    requires j < |rs| && rs[j].phase == a
    requires forall m :: j < m < |rs| ==> rs[m].phase != a
    ensures rs[j].tick == horizon - periods[phases[a]]
  {
    var p, s := periods[phases[a]], rs[j].tick;
    assert rs[j] in rs;
    NextRelease(p, s);
    if s + p < horizon {
      var next := Record(s + p, phases[a], a);
      assert IsRelease(next, phases, periods, horizon);
      var m := RecordIndex(rs, next, j);
      assert false;
    }
    assert horizon == (horizon / p) * p && s == (s / p) * p;
    assert horizon - s == (horizon / p - s / p) * p;
    MultipleBounds(horizon / p - s / p, p);
    MultipleBounds(horizon / p - s / p - 1, p);
  }

  lemma SomeSource(rs: seq<Record>, phases: seq<nat>, periods: seq<nat>, horizon: nat, a: nat, b: nat,
                   sources: seq<(nat, nat)>)
    requires Channel(rs, phases, periods, horizon, a, b)
    requires SourcesOf(rs, a, sources, |rs|)
    ensures sources != []
    ensures sources[|sources| - 1].1 == horizon - periods[phases[a]]
  {
    var start := Record(0, phases[a], a);
    assert IsRelease(start, phases, periods, horizon);
    var i :| 0 <= i < |rs| && rs[i] == start;
    var k :| 0 <= k < |sources| && sources[k].0 == i;
    var j := sources[|sources| - 1].0;
    assert forall m :: j < m < |rs| ==> rs[m].phase != a;
    LastSource(rs, phases, periods, horizon, a, b, j);
  }

  /** The age the scan uses at one consumer record: over the first supercycle and
      over a repeating one it is at most the endless-schedule age, and one of the
      two is exactly that age. */
  lemma ScannedAge(rs: seq<Record>, phases: seq<nat>, periods: seq<nat>, horizon: nat, a: nat, b: nat,
                   sources: seq<(nat, nat)>, prior: seq<nat>, i: nat)
    requires Channel(rs, phases, periods, horizon, a, b)
    requires SourcesOf(rs, a, sources, |rs|) && sources != []
    requires i < |rs| && rs[i].phase == b && PriorOf(sources, prior, |sources|, i)
    ensures var age := AgeAt(periods[phases[a]], phases[a] > phases[b], rs[i].tick);
            var first := rs[i].tick - (if prior != [] then prior[|prior| - 1] else 0);
            var again := rs[i].tick - (if prior != [] then prior[|prior| - 1] else sources[|sources| - 1].1 - horizon);
            first <= age && again == age
  {
    if prior != [] {
      var k :| 0 <= k < |sources| && sources[k].0 < i && sources[k].1 == prior[|prior| - 1]
               && forall m :: k < m < |sources| ==> sources[m].0 >= i;
      var j := sources[k].0;
      assert forall m :: j < m < i ==> rs[m].phase != a;
      LastPriorIsLatest(rs, phases, periods, horizon, a, b, j, i);
    } else {
      assert forall m :: 0 <= m < i ==> rs[m].phase != a;
      NoPriorAtStart(rs, phases, periods, horizon, a, b, i);
      SomeSource(rs, phases, periods, horizon, a, b, sources);
    }
  }

  /** The worst age over one supercycle is the worst case of the endless schedule. */
  method WorstAge(rs: seq<Record>, ghost phases: seq<nat>, ghost periods: seq<nat>, horizon: nat, a: nat, b: nat)
    returns (worst: int)
    requires Channel(rs, phases, periods, horizon, a, b)
    ensures worst == WorstCase(periods[phases[a]], periods[phases[b]], phases[a] > phases[b])
  {
    ghost var p, c, after := periods[phases[a]], periods[phases[b]], phases[a] > phases[b];
    worst := 0;
    var sources := Sources(rs, a);
    SomeSource(rs, phases, periods, horizon, a, b, sources);
    for i := 0 to |rs|
      invariant 0 <= worst <= WorstCase(p, c, after) || worst == 0
      invariant forall k :: 0 <= k < i && rs[k].phase == b ==> AgeAt(p, after, rs[k].tick) <= worst
    {
      if rs[i].phase == b {
        var prior := Prior(sources, i);
        var first := rs[i].tick - (if prior != [] then prior[|prior| - 1] else 0);
        var again := rs[i].tick - (if prior != [] then prior[|prior| - 1] else sources[|sources| - 1].1 - horizon);
        ScannedAge(rs, phases, periods, horizon, a, b, sources, prior, i);
        assert rs[i] in rs;
        AgeNeverExceeds(p, c, after, rs[i].tick);
        worst := Max(worst, Max(first, again));
      }
    }
    ghost var t := WorstCaseRecurs(p, c, after, horizon, 0);
    assert IsRelease(Record(t, phases[b], b), phases, periods, horizon);
    ghost var k :| 0 <= k < |rs| && rs[k] == Record(t, phases[b], b);
  }

  function Max(x: int, y: int): int {
    if x >= y then x else y
  }

  /** The check of one channel: with the supercycle the least common multiple of
      all periods, it accepts exactly when no consumer release of an unbounded
      run ever reads a sample older than the channel allows. */
  method CheckChannelAge(phases: seq<nat>, periods: seq<nat>, supercycle: nat, a: nat, b: nat,
                         maxAge: int, maxTicks: int)
    returns (ok: bool)
    requires Timing(phases, periods) && a < |phases| && b < |phases|
    ensures ok <==> && phases[a] != phases[b] && supercycle == LcmAll(periods)
                    && maxAge <= maxTicks
                    && AgesWithin(periods[phases[a]], periods[phases[b]], phases[a] > phases[b], maxAge)
  {
    if phases[a] == phases[b] || supercycle != LcmAll(periods) {
      return false;
    }
    LcmAllIsCommon(periods, phases[a]);
    LcmAllIsCommon(periods, phases[b]);
    DividesIffNoRemainder(periods[phases[a]], supercycle);
    DividesIffNoRemainder(periods[phases[b]], supercycle);
    var rs := BuildRecords(phases, periods, supercycle);
    var worst := WorstAge(rs, phases, periods, supercycle, a, b);
    ok := worst <= maxAge <= maxTicks;
    BoundIsExact(periods[phases[a]], periods[phases[b]], phases[a] > phases[b], supercycle, maxAge);
  }
}
