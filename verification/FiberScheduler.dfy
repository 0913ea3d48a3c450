/** The small cooperative fiber scheduler: fibers that sleep a fixed number of
    times, a list of sleepers, and a loop that resumes the earliest one. */
module FiberScheduler {

  datatype Sleeper = Sleeper(wake: int, fiber: nat)

  /** One turn of the loop: who was resumed, for which wake time, and when. */
  datatype Resume = Resume(fiber: nat, wake: int, at: int)

  predicate Distinct(s: seq<Sleeper>) {
    forall i, j :: 0 <= i < j < |s| ==> s[i].fiber != s[j].fiber
  }

  predicate Sleeping(s: seq<Sleeper>, f: nat) {
    exists i :: 0 <= i < |s| && s[i].fiber == f
  }

  /** Resumes still owed to the sleeping fibers. */
  ghost function Owed(s: seq<Sleeper>, left: seq<nat>): nat
    requires Known(s, |left|)
  {
    if s == [] then 0 else left[s[0].fiber] + 1 + Owed(s[1..], left)
  }

  lemma {:induction false} OwedWithout(s: seq<Sleeper>, left: seq<nat>, k: nat)
    requires Known(s, |left|)
    requires k < |s|
    ensures Owed(s, left) == Owed(s[..k] + s[k + 1..], left) + left[s[k].fiber] + 1
  {
    if k == 0 {
      assert s[..0] + s[1..] == s[1..];
    } else {
      OwedWithout(s[1..], left, k - 1);
      assert (s[..k] + s[k + 1..])[1..] == s[1..][..k - 1] + s[1..][k..];
    }
  }

  lemma {:induction false} OwedAppend(s: seq<Sleeper>, left: seq<nat>, x: Sleeper)
    requires x.fiber < |left| && Known(s, |left|)
    ensures Owed(s + [x], left) == Owed(s, left) + left[x.fiber] + 1
  {
    if s == [] {
      assert s + [x] == [x];
    } else {
      OwedAppend(s[1..], left, x);
      assert (s + [x])[1..] == s[1..] + [x];
    }
  }

  lemma {:induction false} OwedIgnores(s: seq<Sleeper>, left: seq<nat>, f: nat, n: nat)
    requires f < |left| && Known(s, |left|) && forall i :: 0 <= i < |s| ==> s[i].fiber != f
    ensures Owed(s, left[f := n]) == Owed(s, left)
  {
    if s != [] { OwedIgnores(s[1..], left, f, n); }
  }

  lemma {:induction false} EarliestExists(s: seq<Sleeper>) returns (k: nat)
    requires s != []
    ensures Earliest(s, k)
  {
    k := 0;
    for n := 1 to |s|
      invariant k < n && forall j :: 0 <= j < n ==> s[k].wake <= s[j].wake
    {
      if s[n].wake < s[k].wake { k := n; }
    }
  }

  /** Resumes of fiber f in a trace. */
  ghost function Count(trace: seq<Resume>, f: nat): nat {
    if trace == [] then 0
    else Count(trace[..|trace| - 1], f) + (if trace[|trace| - 1].fiber == f then 1 else 0)
  }

  lemma CountAppend(trace: seq<Resume>, r: Resume, f: nat)
    ensures Count(trace + [r], f) == Count(trace, f) + (if r.fiber == f then 1 else 0)
  {
  }

  predicate Earliest(s: seq<Sleeper>, k: nat) {
    k < |s| && forall j :: 0 <= j < |s| ==> s[k].wake <= s[j].wake
  }

  predicate Known(s: seq<Sleeper>, n: nat) {
    forall i :: 0 <= i < |s| ==> s[i].fiber < n
  }

  /** Every fiber was resumed as often as it has slept through. */
  ghost predicate Accounted(s: seq<Sleeper>, left: seq<nat>, trace: seq<Resume>, iters: seq<nat>) {
    && |left| == |iters| && Distinct(s) && Known(s, |left|)
    && forall f: nat :: Count(trace, f) + (if f < |left| && Sleeping(s, f) then 1 + left[f] else 0)
                        == if f < |iters| then iters[f] else 0
  }

  /** The fiber at position k leaves the list; if it still has sleeps ahead it
      comes back at the end with one less. */
  function ListAfter(s: seq<Sleeper>, left: seq<nat>, k: nat, wake: int): seq<Sleeper>
    requires k < |s| && Known(s, |left|)
  {
    s[..k] + s[k + 1..] + (if left[s[k].fiber] > 0 then [Sleeper(wake, s[k].fiber)] else [])
  }

  function LeftAfter(s: seq<Sleeper>, left: seq<nat>, k: nat): seq<nat>
    requires k < |s| && Known(s, |left|)
  {
    var f := s[k].fiber;
    if left[f] > 0 then left[f := left[f] - 1] else left
  }

  lemma TurnAccounts(s: seq<Sleeper>, left: seq<nat>, trace: seq<Resume>, iters: seq<nat>, k: nat, wake: int, r: Resume)
    requires Accounted(s, left, trace, iters) && k < |s| && r.fiber == s[k].fiber
    ensures Accounted(ListAfter(s, left, k, wake), LeftAfter(s, left, k), trace + [r], iters)
  {
    var f := s[k].fiber;
    var rest, left', s' := s[..k] + s[k + 1..], LeftAfter(s, left, k), ListAfter(s, left, k, wake);
    SleepingWithout(s, k, f);
    assert Sleeping(s, f);
    forall g: nat
      ensures Count(trace + [r], g) + (if g < |left'| && Sleeping(s', g) then 1 + left'[g] else 0)
              == if g < |iters| then iters[g] else 0
    {
      CountAppend(trace, r, g);
      SleepingWithout(s, k, g);
      if left[f] > 0 {
        SleepingAppend(rest, Sleeper(wake, f), g);
      } else {
        assert s' == rest;
      }
    }
    assert forall i :: 0 <= i < |rest| ==> rest[i].fiber != f;
  }

  lemma TurnOwes(s: seq<Sleeper>, left: seq<nat>, k: nat, wake: int)
    requires Distinct(s) && Known(s, |left|) && k < |s|
    ensures Known(ListAfter(s, left, k, wake), |LeftAfter(s, left, k)|)
    ensures Owed(ListAfter(s, left, k, wake), LeftAfter(s, left, k)) + 1 == Owed(s, left)
  {
    var f, rest := s[k].fiber, s[..k] + s[k + 1..];
    OwedWithout(s, left, k);
    if left[f] > 0 {
      var left' := left[f := left[f] - 1];
      OwedIgnores(rest, left, f, left[f] - 1);
      OwedAppend(rest, left', Sleeper(wake, f));
    } else {
      assert rest + [] == rest;
    }
  }

  /** Never early, and in the order of the wake times. */
  ghost predicate Orderly(trace: seq<Resume>) {
    && (forall i :: 0 <= i < |trace| ==> trace[i].at >= trace[i].wake)
    && (forall i, j :: 0 <= i < j < |trace| ==> trace[i].wake <= trace[j].wake)
  }

  /** The past is in order and no sleeper is overdue with respect to it. */
  ghost predicate InTime(s: seq<Sleeper>, trace: seq<Resume>, now: int) {
    && Orderly(trace)
    && (trace != [] ==> trace[|trace| - 1].wake <= now)
    && (trace != [] ==> forall i :: 0 <= i < |s| ==> trace[|trace| - 1].wake <= s[i].wake)
  }

  lemma TurnInTime(s: seq<Sleeper>, left: seq<nat>, trace: seq<Resume>, before: int, k: nat, r: Resume,
                   now: int, wake: int)
    requires Known(s, |left|) && InTime(s, trace, before) && Earliest(s, k)
    requires r.wake == s[k].wake <= r.at <= now <= wake
    ensures InTime(ListAfter(s, left, k, wake), trace + [r], now)
  {
  }

  /** Between two resumes of the same fiber lies at least one full sleep, and the
      current sleep of a fiber began after its last resume. */
  ghost predicate Rested(s: seq<Sleeper>, trace: seq<Resume>, duration: nat) {
    && Spaced(trace, duration)
    && (forall i, j :: 0 <= i < |s| && 0 <= j < |trace| && s[i].fiber == trace[j].fiber ==>
         trace[j].at + duration <= s[i].wake)
  }

  ghost predicate Spaced(trace: seq<Resume>, duration: nat) {
    forall i, j :: 0 <= i < j < |trace| && trace[i].fiber == trace[j].fiber ==> trace[i].at + duration <= trace[j].at
  }

  lemma TurnRests(s: seq<Sleeper>, left: seq<nat>, trace: seq<Resume>, k: nat, r: Resume, duration: nat, wake: int)
    requires Known(s, |left|) && Distinct(s) && Rested(s, trace, duration) && k < |s|
    requires r.fiber == s[k].fiber && s[k].wake <= r.at && r.at + duration <= wake
    ensures Rested(ListAfter(s, left, k, wake), trace + [r], duration)
  {
    var s', t := ListAfter(s, left, k, wake), trace + [r];
    forall i, j | 0 <= i < |s'| && 0 <= j < |t| && s'[i].fiber == t[j].fiber
      ensures t[j].at + duration <= s'[i].wake
    {
      if i < |s| - 1 {
        var m := if i < k then i else i + 1;
        assert s'[i] == s[m] && m != k;
        assert s[m].fiber != s[k].fiber;
      } else if j < |trace| {
        assert trace[j].at + duration <= s[k].wake;
      }
    }
  }

  /** A turn resumed the k-th sleeper, which was an earliest one, in time. */
  ghost predicate Resumed(s: seq<Sleeper>, left: seq<nat>, s': seq<Sleeper>, left': seq<nat>, k: nat, r: Resume,
                          now: int, wake: int)
  {
    && Known(s, |left|) && Earliest(s, k)
    && r.fiber == s[k].fiber && r.wake == s[k].wake <= r.at <= now <= wake
    && s' == ListAfter(s, left, k, wake) && left' == LeftAfter(s, left, k)
  }

  lemma TurnKeeps(s: seq<Sleeper>, left: seq<nat>, s': seq<Sleeper>, left': seq<nat>, trace: seq<Resume>,
                  iters: seq<nat>, k: nat, r: Resume, before: int, now: int, duration: nat, wake: int)
    requires Accounted(s, left, trace, iters) && InTime(s, trace, before) && Rested(s, trace, duration)
    requires wake == now + duration
    requires Resumed(s, left, s', left', k, r, now, wake)
    ensures Accounted(s', left', trace + [r], iters)
    ensures InTime(s', trace + [r], now) && Rested(s', trace + [r], duration)
    ensures Owed(s', left') + 1 == Owed(s, left)
  {
    TurnAccounts(s, left, trace, iters, k, wake, r);
    TurnInTime(s, left, trace, before, k, r, now, wake);
    TurnRests(s, left, trace, k, r, duration, wake);
    TurnOwes(s, left, k, wake);
  }

  class Scheduler {
    const duration: nat
    /** How far the clock moves before its n-th reading: any monotone clock. */
    const delay: nat -> nat
    var now: int
    var readings: nat
    var sleepers: seq<Sleeper>
    /** Sleeps that fiber f still has ahead after the current one. */
    var left: seq<nat>
    ghost var iters: seq<nat>
    ghost var trace: seq<Resume>

    constructor (duration: nat, delay: nat -> nat, start: int)
      ensures Valid() && sleepers == [] && iters == [] && trace == []
      ensures this.duration == duration && this.delay == delay
    {
      this.duration, this.delay := duration, delay;
      now, readings, sleepers, left := start, 0, [], [];
      iters, trace := [], [];
    }

    /** Every fiber was resumed as often as it has slept through. */
    ghost predicate Valid()
      reads this
    {
      Accounted(sleepers, left, trace, iters)
    }

    /** What the loop keeps: the past is in order and no sleeper is overdue with
        respect to it. */
    ghost predicate Timely()
      reads this
    {
      InTime(sleepers, trace, now) && Rested(sleepers, trace, duration)
    }

    method Now() returns (t: int)
      modifies this`now, this`readings
      ensures t == now >= old(now)
    {
      now := now + delay(readings);
      readings := readings + 1;
      t := now;
    }

    method SleepUntil(t: int)
      modifies this`now, this`readings
      ensures now >= old(now) && now >= t
    {
      if now < t {
        now := t;
      }
      var late := Now();
    }

    /** The awaiter: the fiber goes to sleep for the fixed duration. */
    method Suspend(f: nat)
      modifies this`now, this`readings, this`sleepers
      ensures now >= old(now)
      ensures sleepers == old(sleepers) + [Sleeper(now + duration, f)]
    {
      var t := Now();
      sleepers := sleepers + [Sleeper(t + duration, f)];
    }

    /** Starts a fiber, which runs up to its first sleep, if it has one. */
    method Spawn(n: nat)
      requires Valid() && trace == []
      modifies this
      ensures Valid() && trace == [] && iters == old(iters) + [n] && now >= old(now)
      ensures sleepers == old(sleepers) + (if n > 0 then [Sleeper(now + duration, old(|left|))] else [])
      ensures left == old(left) + [if n > 0 then n - 1 else 0]
    {
      var f := |left|;
      iters := iters + [n];
      assert !Sleeping(sleepers, f);
      if n == 0 {
        left := left + [0];
      } else {
        left := left + [n - 1];
        Suspend(f);
        forall g | 0 <= g < |iters| ensures Sleeping(sleepers, g) <==> g == f || Sleeping(old(sleepers), g) {
          SleepingAppend(old(sleepers), sleepers[|sleepers| - 1], g);
        }
      }
    }

    /** Continues a fiber after a sleep: it sleeps again or is finished. */
    method Continue(f: nat)
      requires f < |left|
      modifies this`now, this`readings, this`sleepers, this`left
      ensures now >= old(now)
      ensures sleepers == old(sleepers) + (if old(left[f]) > 0 then [Sleeper(now + duration, f)] else [])
      ensures left == if old(left[f]) > 0 then old(left)[f := old(left[f]) - 1] else old(left)
    {
      if left[f] > 0 {
        left := left[f := left[f] - 1];
        Suspend(f);
      }
    }

    /** Takes an earliest sleeper out of the list; ties are broken arbitrarily. */
    method PopEarliest() returns (item: Sleeper, ghost k: nat)
      requires sleepers != []
      modifies this`sleepers
      ensures Earliest(old(sleepers), k) && item == old(sleepers)[k]
      ensures sleepers == old(sleepers)[..k] + old(sleepers)[k + 1..]
    {
      ghost var e := EarliestExists(sleepers);
      var i :| 0 <= i < |sleepers| && Earliest(sleepers, i);
      item, k := sleepers[i], i;
      sleepers := sleepers[..i] + sleepers[i + 1..];
    }

    /** Waits for a wake time unless it has passed. */
    method AwaitWake(wake: int)
      modifies this`now, this`readings
      ensures now >= old(now) && now >= wake
    {
      var t := Now();
      if wake > t {
        SleepUntil(wake);
      }
    }

    /** Resumes an earliest sleeper, the k-th, once its time has come. */
    method ResumeEarliest() returns (ghost k: nat, ghost r: Resume)
      requires sleepers != [] && Known(sleepers, |left|)
      modifies this
      ensures Resumed(old(sleepers), old(left), sleepers, left, k, r, now, now + duration)
      ensures trace == old(trace) + [r] && iters == old(iters)
    {
      var item;
      item, k := PopEarliest();
      AwaitWake(item.wake);
      r := Resume(item.fiber, item.wake, now);
      trace := trace + [r];
      Continue(item.fiber);
    }

    /** One turn of the loop resumes one fiber, once, and not before its time. */
    method Turn()
      requires Valid() && Timely() && sleepers != []
      modifies this
      ensures Valid() && Timely() && iters == old(iters)
      ensures |trace| == old(|trace|) + 1
      ensures Owed(sleepers, left) + 1 == old(Owed(sleepers, left))
    {
      ghost var k, r := ResumeEarliest();
      TurnKeeps(old(sleepers), old(left), sleepers, left, old(trace), iters, k, r,
                old(now), now, duration, now + duration);
    }

    /** The loop runs dry: every fiber was resumed exactly as often as it sleeps,
        never before its wake time, with a full sleep between its resumes, and the
        wake times never decrease. */
    method Run()
      requires Valid() && trace == []
      modifies this
      ensures Valid() && sleepers == [] && iters == old(iters)
      ensures forall f :: 0 <= f < |iters| ==> Count(trace, f) == iters[f]
      ensures Orderly(trace) && Spaced(trace, duration)
      ensures |trace| == old(Owed(sleepers, left))
    {
      while sleepers != []
        invariant Valid() && Timely() && iters == old(iters)
        invariant |trace| + Owed(sleepers, left) == old(Owed(sleepers, left))
        decreases Owed(sleepers, left)
      {
        Turn();
      }
    }
  }

  lemma SleepingAppend(s: seq<Sleeper>, x: Sleeper, g: nat)
    ensures Sleeping(s + [x], g) <==> g == x.fiber || Sleeping(s, g)
  {
    if i :| 0 <= i < |s| && s[i].fiber == g {
      assert (s + [x])[i].fiber == g;
    }
    if g == x.fiber { assert (s + [x])[|s|].fiber == g; }
  }

  lemma SleepingWithout(s: seq<Sleeper>, k: nat, g: nat)
    requires Distinct(s) && k < |s|
    ensures Distinct(s[..k] + s[k + 1..])
    ensures Sleeping(s[..k] + s[k + 1..], g) <==> g != s[k].fiber && Sleeping(s, g)
  {
    var r := s[..k] + s[k + 1..];
    if i :| 0 <= i < |s| && s[i].fiber == g && i != k {
      assert r[if i < k then i else i - 1] == s[i];
    }
  }
}
