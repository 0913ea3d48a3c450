/** The XDMA qualification run, which produces hardware evidence: submissions with
    their polling loops, warmup and measured iterations, and the evidence written at
    the end. The device is arbitrary: it may refuse a submission, stay busy for any
    number of polls, fail a poll or return a wrong completion. */
module XdmaRun {
  import opened HardwareEvidence
  import opened Options

  /** What the device does with one submission. */
  datatype Behaviour = Behaviour(accepts: bool, busyPolls: nat, polls: bool, completes: bool)

  predicate Succeeds(b: Behaviour) {
    b.accepts && b.polls && b.completes
  }

  ghost predicate Steady(log: seq<int>) {
    forall i, j :: 0 <= i < j < |log| ==> log[i] <= log[j]
  }

  class Device {
    const behaviour: nat -> Behaviour
    /** How far the clock moves before its n-th reading. */
    const delay: nat -> nat
    var now: int
    var readings: nat
    var busy: nat
    /** Submissions offered so far, accepted so far, and completed so far. */
    var offered: nat
    var submissions: nat
    var completions: nat
    /** All clock readings so far. */
    ghost var log: seq<int>

    /** The clock is steady. */
    ghost predicate Valid()
      reads this
    {
      Steady(log) && (log != [] ==> log[|log| - 1] == now)
    }

    constructor (behaviour: nat -> Behaviour, delay: nat -> nat, start: int)
      ensures this.behaviour == behaviour && Valid()
      ensures offered == submissions == completions == 0 && log == []
    {
      this.behaviour, this.delay := behaviour, delay;
      now, readings, busy, offered, submissions, completions := start, 0, 0, 0, 0, 0;
      log := [];
    }

    method Now() returns (t: int)
      requires Valid()
      modifies this`now, this`readings, this`log
      ensures Valid() && log == old(log) + [t]
    {
      now := now + delay(readings);
      readings := readings + 1;
      t := now;
      log := log + [t];
    }

    method Submit() returns (ok: bool)
      modifies this`busy, this`offered, this`submissions
      ensures offered == old(offered) + 1
      ensures ok == behaviour(old(offered)).accepts
      ensures submissions == old(submissions) + (if ok then 1 else 0)
      ensures busy == behaviour(old(offered)).busyPolls
    {
      var b := behaviour(offered);
      ok, busy := b.accepts, b.busyPolls;
      offered := offered + 1;
      if ok {
        submissions := submissions + 1;
      }
    }

    /** Polls for the completion of the last submission. */
    method Poll() returns (ok: bool, count: nat, good: bool)
      requires offered > 0
      modifies this`busy, this`completions
      ensures old(busy) > 0 ==> ok && count == 0 && busy == old(busy) - 1 && completions == old(completions)
      ensures old(busy) == 0 ==> busy == 0
      ensures old(busy) == 0 ==> ok == behaviour(offered - 1).polls && good == behaviour(offered - 1).completes
      ensures old(busy) == 0 && ok ==> count == 1 && completions == old(completions) + 1
      ensures old(busy) == 0 && !ok ==> count == 0 && completions == old(completions)
    {
      if busy > 0 {
        busy := busy - 1;
        return true, 0, false;
      }
      var b := behaviour(offered - 1);
      ok, good := b.polls, b.completes;
      count := if ok then 1 else 0;
      completions := completions + count;
    }
  }

  datatype Timing = Timing(submitNs: int, waitNs: int, pollNs: int, pollCount: nat)

  predicate Plausible(t: Timing) {
    t.submitNs >= 0 && t.waitNs >= 0 && t.pollNs >= 0 && t.pollCount >= 1
  }

  /** The time inside polls that each lie between two readings, one poll after the other. */
  ghost function PollTime(log: seq<int>, from: nat, to: nat): int
    requires to <= |log|
  {
    if to < from + 2 then 0 else PollTime(log, from, to - 2) + (log[to - 1] - log[to - 2])
  }

  /** A submission reads the clock before and after submitting and around every poll, from
      reading r on. The submit call lasts between the first two readings and the wait from the
      second to the last. */
  ghost predicate TimedAt(t: Timing, log: seq<int>, r: nat, polls: nat) {
    var to := r + 2 + 2 * polls;
    && to <= |log|
    && t == Timing(log[r + 1] - log[r], log[to - 1] - log[r + 1], PollTime(log, r + 2, to), polls)
  }

  lemma {:induction false} PollTimeKept(log: seq<int>, more: seq<int>, from: nat, to: nat)
    requires to <= |log|
    ensures PollTime(log + more, from, to) == PollTime(log, from, to)
  {
    if to >= from + 2 { PollTimeKept(log, more, from, to - 2); }
  }

  lemma TimedKept(t: Timing, log: seq<int>, more: seq<int>, r: nat, polls: nat)
    requires TimedAt(t, log, r, polls)
    ensures TimedAt(t, log + more, r, polls)
  {
    PollTimeKept(log, more, r + 2, r + 2 + 2 * polls);
  }

  lemma {:induction false} PollTimeNotNegative(log: seq<int>, from: nat, to: nat)
    requires to <= |log| && Steady(log)
    ensures PollTime(log, from, to) >= 0
  {
    if to >= from + 2 { PollTimeNotNegative(log, from, to - 2); }
  }

  lemma TimedIsPlausible(t: Timing, log: seq<int>, r: nat, polls: nat)
    requires TimedAt(t, log, r, polls) && Steady(log) && polls > 0
    ensures Plausible(t)
  {
    PollTimeNotNegative(log, r + 2, r + 2 + 2 * polls);
  }

  lemma OneMorePoll(log: seq<int>, from: nat, begin: int, end: int)
    requires from <= |log|
    ensures PollTime(log + [begin] + [end], from, |log| + 2) == PollTime(log, from, |log|) + (end - begin)
  {
    var more := log + [begin] + [end];
    assert more == log + [begin, end];
    PollTimeKept(log, [begin, end], from, |log|);
    assert more[|log|] == begin && more[|log| + 1] == end;
  }

  /** Where the polling loop stands after reading the clock at begin and end of the submit call. */
  ghost predicate Polled(t: Timing, log: seq<int>, before: seq<int>, begin: int, end: int, busy: nat, b: Behaviour) {
    var r := |before|;
    && before <= log && |log| == r + 2 + 2 * t.pollCount && log[r] == begin && log[r + 1] == end
    && t.submitNs == end - begin && t.pollNs == PollTime(log, r + 2, |log|)
    && t.pollCount + busy == b.busyPolls
  }

  lemma PolledFirst(before: seq<int>, begin: int, end: int, b: Behaviour)
    ensures Polled(Timing(end - begin, 0, 0, 0), before + [begin] + [end], before, begin, end, b.busyPolls, b)
  {
  }

  lemma PolledAgain(t: Timing, log: seq<int>, before: seq<int>, begin: int, end: int, busy: nat, b: Behaviour,
                    pollBegin: int, pollEnd: int, t': Timing)
    requires Polled(t, log, before, begin, end, busy, b)
    requires t' == t.(pollNs := t.pollNs + (pollEnd - pollBegin), pollCount := t.pollCount + 1)
    ensures busy > 0 ==> Polled(t', log + [pollBegin] + [pollEnd], before, begin, end, busy - 1, b)
    ensures busy == 0 ==>
      Submitted(t'.(waitNs := pollEnd - end), before, log + [pollBegin] + [pollEnd], b.busyPolls + 1)
  {
    OneMorePoll(log, |before| + 2, pollBegin, pollEnd);
  }

  /** One poll between two clock readings. */
  method PollOnce(d: Device, t: Timing) returns (status: bool, count: nat, good: bool, pollEnd: int, t': Timing,
                                                 ghost pollBegin: int)
    requires d.Valid() && d.offered > 0
    modifies d
    ensures d.Valid() && d.offered == old(d.offered) && d.submissions == old(d.submissions)
    ensures d.log == old(d.log) + [pollBegin] + [pollEnd]
    ensures t' == t.(pollNs := t.pollNs + (pollEnd - pollBegin), pollCount := t.pollCount + 1)
    ensures old(d.busy) > 0 ==>
      status && count == 0 && d.busy == old(d.busy) - 1 && d.completions == old(d.completions)
    ensures old(d.busy) == 0 ==>
      && status == d.behaviour(d.offered - 1).polls && good == d.behaviour(d.offered - 1).completes
      && (status ==> count == 1 && d.completions == old(d.completions) + 1)
  {
    var begin := d.Now();
    pollBegin := begin;
    status, count, good := d.Poll();
    pollEnd := d.Now();
    t' := t.(pollNs := t.pollNs + (pollEnd - begin), pollCount := t.pollCount + 1);
  }

  /** The readings and the timing of one submission. */
  ghost predicate Submitted(t: Timing, before: seq<int>, log: seq<int>, polls: nat) {
    before <= log && TimedAt(t, log, |before|, polls) && |log| == |before| + 2 + 2 * polls
  }

  /** Submits once and polls until the completion arrives. */
  method RunSubmission(d: Device) returns (passed: bool, t: Timing)
    requires d.Valid()
    modifies d
    ensures d.Valid() && d.offered == old(d.offered) + 1
    ensures passed <==> Succeeds(d.behaviour(old(d.offered)))
    ensures passed ==> Submitted(t, old(d.log), d.log, d.behaviour(old(d.offered)).busyPolls + 1)
    ensures passed ==> d.submissions == old(d.submissions) + 1 && d.completions == old(d.completions) + 1
  {
    ghost var before, b := d.log, d.behaviour(d.offered);
    var begin := d.Now();
    var ok := d.Submit();
    var end := d.Now();
    t := Timing(end - begin, 0, 0, 0);
    if !ok {
      return false, t;
    }
    PolledFirst(before, begin, end, b);
    while true
      invariant d.Valid() && d.offered == old(d.offered) + 1
      invariant Polled(t, d.log, before, begin, end, d.busy, b)
      invariant d.submissions == old(d.submissions) + 1 && d.completions == old(d.completions)
      decreases d.busy
    {
      ghost var log, busy := d.log, d.busy;
      var status, count, good, pollEnd, next, pollBegin := PollOnce(d, t);
      PolledAgain(t, log, before, begin, end, busy, b, pollBegin, pollEnd, next);
      t := next;
      if !status {
        return false, t;
      }
      if count != 0 {
        t := t.(waitNs := pollEnd - end);
        return good, t;
      }
    }
  }

  function ToSample(iteration: int, direction: string, t: Timing): Sample {
    Sample(Int(iteration), Text(direction), Int(t.submitNs), Int(t.waitNs), Int(t.pollNs), Int(t.pollCount))
  }

  const LABELS: set<string> := {"h2c", "c2h"}

  /** Sample number k of a complete run: two per iteration, upload first. */
  predicate InPlace(s: Sample, k: nat) {
    && s.Sample? && s.iteration == Int(k / 2) && s.stage == Text(if k % 2 == 0 then "h2c" else "c2h")
    && AtLeast(s.submitNs, 0) && AtLeast(s.waitNs, 0) && AtLeast(s.pollNs, 0) && AtLeast(s.pollCount, 1)
  }

  ghost predicate InOrder(samples: seq<Sample>) {
    forall k :: 0 <= k < |samples| ==> InPlace(samples[k], k)
  }

  // ---- What the clock shows ----

  /** The clock readings that the first n submissions take, from how often each was polled. */
  ghost function Readings(polls: seq<nat>, n: nat): nat
    requires n <= |polls|
  {
    if n == 0 then 0 else Readings(polls, n - 1) + 2 + 2 * polls[n - 1]
  }

  lemma {:induction false} ReadingsKept(polls: seq<nat>, more: seq<nat>, n: nat)
    requires n <= |polls|
    ensures Readings(polls + more, n) == Readings(polls, n)
  {
    if n > 0 { ReadingsKept(polls, more, n - 1); }
  }

  /** Sample k is the timing of submission 2 * warmup + k: two per iteration, upload first. */
  ghost predicate Measured(s: Sample, k: nat, log: seq<int>, first: nat, polls: seq<nat>, warmup: nat) {
    var n := 2 * warmup + k;
    n < |polls| && s.Sample?
    && s.iteration == Int(k / 2) && s.stage == Text(if k % 2 == 0 then "h2c" else "c2h")
    && s.submitNs.Int? && s.waitNs.Int? && s.pollNs.Int? && s.pollCount == Int(polls[n])
    && TimedAt(Timing(s.submitNs.i, s.waitNs.i, s.pollNs.i, polls[n]), log, first + Readings(polls, n), polls[n])
  }

  ghost predicate AllMeasured(samples: seq<Sample>, log: seq<int>, first: nat, polls: seq<nat>, warmup: nat) {
    forall k :: 0 <= k < |samples| ==> Measured(samples[k], k, log, first, polls, warmup)
  }

  lemma MeasuredKept(s: Sample, k: nat, log: seq<int>, more: seq<int>, first: nat, polls: seq<nat>, further: seq<nat>,
                     warmup: nat)
    requires Measured(s, k, log, first, polls, warmup)
    ensures Measured(s, k, log + more, first, polls + further, warmup)
  {
    var n := 2 * warmup + k;
    ReadingsKept(polls, further, n);
    TimedKept(Timing(s.submitNs.i, s.waitNs.i, s.pollNs.i, polls[n]), log, more, first + Readings(polls, n), polls[n]);
  }

  lemma MeasuredNew(k: nat, t: Timing, log: seq<int>, first: nat, polls: seq<nat>, warmup: nat, i: nat)
    requires 2 * warmup + k < |polls| && i == k / 2
    requires TimedAt(t, log, first + Readings(polls, 2 * warmup + k), polls[2 * warmup + k])
    ensures Measured(ToSample(i, if k % 2 == 0 then "h2c" else "c2h", t), k, log, first, polls, warmup)
  {
  }

  lemma ReadingsPair(polls: seq<nat>, p: nat, q: nat)
    ensures var n := |polls|;
            && Readings(polls + [p, q], n) == Readings(polls, n)
            && Readings(polls + [p, q], n + 1) == Readings(polls, n) + 2 + 2 * p
            && Readings(polls + [p, q], n + 2) == Readings(polls, n) + 4 + 2 * p + 2 * q
  {
    var n, all := |polls|, polls + [p, q];
    ReadingsKept(polls, [p, q], n);
    assert all[n] == p && all[n + 1] == q;
    assert Readings(all, n + 2) == Readings(all, n + 1) + 2 + 2 * all[n + 1];
  }

  /** The readings and the timings of an upload and a download. */
  ghost predicate BothSubmitted(up: Timing, down: Timing, before: seq<int>, log: seq<int>, p: nat, q: nat) {
    && before <= log && |log| == |before| + 4 + 2 * p + 2 * q
    && TimedAt(up, log, |before|, p) && TimedAt(down, log, |before| + 2 + 2 * p, q)
  }

  lemma SubmittedTwice(up: Timing, down: Timing, before: seq<int>, between: seq<int>, log: seq<int>, p: nat, q: nat)
    requires Submitted(up, before, between, p) && Submitted(down, between, log, q)
    ensures BothSubmitted(up, down, before, log, p, q)
  {
    assert log == between + log[|between|..];
    TimedKept(up, between, log[|between|..], |before|, p);
  }

  /** Where the run stands before an iteration. */
  ghost predicate Progress(samples: seq<Sample>, log: seq<int>, first: nat, polls: seq<nat>, warmup: nat,
                           iteration: nat) {
    && |polls| == 2 * iteration && |log| == first + Readings(polls, |polls|)
    && |samples| == (if iteration <= warmup then 0 else 2 * (iteration - warmup))
    && AllMeasured(samples, log, first, polls, warmup)
  }

  lemma ProgressInWarmup(samples: seq<Sample>, log: seq<int>, log': seq<int>, first: nat, polls: seq<nat>,
                         warmup: nat, iteration: nat, up: Timing, down: Timing, p: nat, q: nat)
    requires Progress(samples, log, first, polls, warmup, iteration) && iteration < warmup
    requires BothSubmitted(up, down, log, log', p, q)
    ensures Progress(samples, log', first, polls + [p, q], warmup, iteration + 1)
  {
    ReadingsPair(polls, p, q);
  }

  /** The two samples of one more iteration. */
  lemma ProgressMeasured(samples: seq<Sample>, log: seq<int>, log': seq<int>, first: nat, polls: seq<nat>,
                         warmup: nat, i: nat, up: Timing, down: Timing, p: nat, q: nat)
    requires Progress(samples, log, first, polls, warmup, warmup + i)
    requires BothSubmitted(up, down, log, log', p, q)
    ensures Progress(samples + [ToSample(i, "h2c", up), ToSample(i, "c2h", down)], log', first, polls + [p, q],
                     warmup, warmup + i + 1)
  {
    var all := samples + [ToSample(i, "h2c", up), ToSample(i, "c2h", down)];
    ReadingsPair(polls, p, q);
    assert log' == log + log'[|log|..];
    forall k | 0 <= k < |all| ensures Measured(all[k], k, log', first, polls + [p, q], warmup) {
      if k < |samples| {
        MeasuredKept(samples[k], k, log, log'[|log|..], first, polls, [p, q], warmup);
      } else {
        MeasuredNew(k, if k == 2 * i then up else down, log', first, polls + [p, q], warmup, i);
      }
    }
  }

  lemma MeasuredInOrder(samples: seq<Sample>, log: seq<int>, first: nat, polls: seq<nat>, warmup: nat)
    requires AllMeasured(samples, log, first, polls, warmup) && Steady(log)
    requires forall n :: 0 <= n < |polls| ==> polls[n] > 0
    ensures InOrder(samples)
  {
    forall k | 0 <= k < |samples| ensures InPlace(samples[k], k) {
      var s, n := samples[k], 2 * warmup + k;
      assert Measured(s, k, log, first, polls, warmup);
      TimedIsPlausible(Timing(s.submitNs.i, s.waitNs.i, s.pollNs.i, polls[n]),
                       log, first + Readings(polls, n), polls[n]);
    }
  }

  // ---- The run ----

  datatype Settings = Settings(warmup: nat, iterations: nat)

  predicate ValidSettings(o: Settings) {
    o.warmup <= 1_000_000 && 1 <= o.iterations <= 1_000_000
  }

  /** Iteration i goes through: both submissions succeed and the bytes come back as
      they were sent. */
  predicate GoesThrough(behaviour: nat -> Behaviour, returned: nat -> bool, i: nat) {
    Succeeds(behaviour(2 * i)) && Succeeds(behaviour(2 * i + 1)) && returned(i)
  }

  ghost predicate Flawless(behaviour: nat -> Behaviour, returned: nat -> bool, n: nat) {
    forall i: nat :: i < n ==> GoesThrough(behaviour, returned, i)
  }

  /** How often the device lets itself be polled for every submission. */
  ghost predicate PollsOf(polls: seq<nat>, behaviour: nat -> Behaviour) {
    forall n :: 0 <= n < |polls| ==> polls[n] == behaviour(n).busyPolls + 1
  }

  lemma PollsOfPair(polls: seq<nat>, behaviour: nat -> Behaviour, p: nat, q: nat, i: nat)
    requires PollsOf(polls, behaviour) && |polls| == 2 * i
    requires p == behaviour(2 * i).busyPolls + 1 && q == behaviour(2 * i + 1).busyPolls + 1
    ensures PollsOf(polls + [p, q], behaviour)
  {
  }

  /** One iteration; the download is skipped once the upload has failed. */
  method RunIteration(d: Device, returned: nat -> bool, i: nat)
    returns (passed: bool, up: Timing, down: Timing, ghost p: nat, ghost q: nat)
    requires d.Valid() && d.offered == d.submissions == d.completions == 2 * i
    modifies d
    ensures d.Valid()
    ensures p == d.behaviour(2 * i).busyPolls + 1 && q == d.behaviour(2 * i + 1).busyPolls + 1
    ensures passed <==> GoesThrough(d.behaviour, returned, i)
    ensures passed ==> BothSubmitted(up, down, old(d.log), d.log, p, q)
    ensures passed ==> d.offered == d.submissions == d.completions == 2 * (i + 1)
  {
    p, q := d.behaviour(2 * i).busyPolls + 1, d.behaviour(2 * i + 1).busyPolls + 1;
    passed, up := RunSubmission(d);
    down := Timing(0, 0, 0, 0);
    if passed {
      ghost var between := d.log;
      passed, down := RunSubmission(d);
      if passed {
        SubmittedTwice(up, down, old(d.log), between, d.log, p, q);
      }
    }
    passed := passed && returned(i);
  }

  ghost predicate WrittenBy(o: Settings, e: Evidence) {
    && e.warmup == Int(o.warmup) && e.measurement == Int(o.iterations)
    && InOrder(e.samples) && |e.samples| == 2 * o.iterations
    && HealthyCounts(e.health, 2 * (o.warmup + o.iterations))
  }

  lemma ProgressWritten(o: Settings, samples: seq<Sample>, log: seq<int>, first: nat, polls: seq<nat>,
                        behaviour: nat -> Behaviour, health: Health)
    requires Progress(samples, log, first, polls, o.warmup, o.warmup + o.iterations) && Steady(log)
    requires PollsOf(polls, behaviour) && HealthyCounts(health, 2 * (o.warmup + o.iterations))
    ensures WrittenBy(o, Evidence(Int(o.warmup), Int(o.iterations), health, samples))
  {
    MeasuredInOrder(samples, log, first, polls, o.warmup);
  }

  /** The warmup and measure loop writes evidence exactly after a flawless run. */
  method Run(o: Settings, d: Device, returned: nat -> bool) returns (r: Option<Evidence>, ghost polls: seq<nat>)
    requires ValidSettings(o) && d.Valid()
    requires d.offered == d.submissions == d.completions == 0
    modifies d
    ensures r.Some? <==> Flawless(d.behaviour, returned, o.warmup + o.iterations)
    ensures r.Some? ==> WrittenBy(o, r.value)
    ensures r.Some? ==> |polls| == 2 * (o.warmup + o.iterations) && PollsOf(polls, d.behaviour)
    ensures r.Some? ==> AllMeasured(r.value.samples, d.log, |old(d.log)|, polls, o.warmup)
  {
    ghost var first := |d.log|;
    polls := [];
    var samples: seq<Sample> := [];
    var total := o.warmup + o.iterations;
    var passed := true;
    var iteration := 0;
    while iteration < total && passed
      invariant iteration <= total && d.Valid()
      invariant passed ==> Flawless(d.behaviour, returned, iteration)
      invariant !passed ==> !Flawless(d.behaviour, returned, total)
      invariant passed ==> d.offered == d.submissions == d.completions == 2 * iteration
      invariant passed ==> PollsOf(polls, d.behaviour)
      invariant passed ==> Progress(samples, d.log, first, polls, o.warmup, iteration)
    {
      var number := iteration - (if iteration < o.warmup then iteration else o.warmup);
      ghost var log := d.log;
      var up, down;
      ghost var p, q;
      passed, up, down, p, q := RunIteration(d, returned, iteration);
      if passed {
        PollsOfPair(polls, d.behaviour, p, q, iteration);
      }
      if iteration >= o.warmup {
        if passed {
          ProgressMeasured(samples, log, d.log, first, polls, o.warmup, number, up, down, p, q);
        }
        samples := samples + [ToSample(number, "h2c", up), ToSample(number, "c2h", down)];
      } else if passed {
        ProgressInWarmup(samples, log, d.log, first, polls, o.warmup, iteration, up, down, p, q);
      }
      polls := polls + [p, q];
      iteration := iteration + 1;
    }
    if !passed {
      return None, polls;
    }
    var health := Health(Int(d.submissions), Int(d.completions), Int(0), Int(0), Int(0));
    ProgressWritten(o, samples, d.log, first, polls, d.behaviour, health);
    return Some(Evidence(Int(o.warmup), Int(o.iterations), health, samples)), polls;
  }

  lemma OrderCovers(samples: seq<Sample>, m: nat)
    requires InOrder(samples) && |samples| == 2 * m
    ensures Covers(samples, m, LABELS)
  {
    forall k | 0 <= k < |samples| ensures InGrid(samples[k], m, LABELS) {
      assert InPlace(samples[k], k);
    }
    forall c | c in Cells(m, LABELS) ensures ExactlyOnce(samples, c) {
      CellOnce(samples, m, c);
    }
  }

  lemma CellOnce(samples: seq<Sample>, m: nat, c: Cell)
    requires InOrder(samples) && |samples| == 2 * m && 0 <= c.0 < m && c.1 in LABELS
    ensures ExactlyOnce(samples, c)
  {
    var k := 2 * c.0 + (if c.1 == "h2c" then 0 else 1);
    assert InPlace(samples[k], k);
    assert NamedBy(samples, k, c);
    forall i, j | NamedBy(samples, i, c) && NamedBy(samples, j, c) ensures i == j {
      OnlyHere(samples, i, c);
      OnlyHere(samples, j, c);
    }
  }

  lemma OnlyHere(samples: seq<Sample>, i: int, c: Cell)
    requires InOrder(samples) && NamedBy(samples, i, c)
    ensures i == 2 * c.0 + (if c.1 == "h2c" then 0 else 1)
  {
  }

  /** The producer allows a run without warmup, the validator does not: the evidence
      of a complete run is accepted exactly when there was at least one warmup. */
  lemma CompleteRunIsAccepted(o: Settings, e: Evidence)
    requires ValidSettings(o) && WrittenBy(o, e)
    ensures Accepted(e, {"h2c", "c2h"}) <==> o.warmup >= 1
  {
    assert |LABELS| == 2;
    OrderCovers(e.samples, o.iterations);
  }

  /** A flawless run without warmup whose evidence the validator rejects. */
  lemma RunWithoutWarmupIsRejected(t: Timing, u: Timing)
    requires Plausible(t) && Plausible(u)
    ensures var e := Evidence(Int(0), Int(1), Health(Int(2), Int(2), Int(0), Int(0), Int(0)),
                              [ToSample(0, "h2c", t), ToSample(0, "c2h", u)]);
            ValidSettings(Settings(0, 1)) && WrittenBy(Settings(0, 1), e) && !Accepted(e, {"h2c", "c2h"})
  {
  }
}
