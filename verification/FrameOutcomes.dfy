/** Exactly when an execution of the frame graph is safe and comes to its end, in terms
    of its passes, the timeline it starts with and the number of workers in the pool. */
module FrameOutcomes {
  import opened FrameProtocol
  import opened FrameRuns

  // ---- Two workers ----

  lemma {:induction false} FirstGpu(passes: seq<Pass>, k: nat) returns (f: nat)
    requires k < |passes| && passes[k].gpu
    ensures f <= k && passes[f].gpu && forall j :: 0 <= j < f ==> !passes[j].gpu
  {
    f := 0;
    while !passes[f].gpu
      invariant f <= k && forall j :: 0 <= j < f ==> !passes[j].gpu
      decreases k - f
    {
      f := f + 1;
    }
  }

  /** Worker 0 has resumed the fiber of the first GPU pass, which parked, and has not
      yet looked whether it is done. */
  ghost predicate Poised(passes: seq<Pass>, c0: nat, g0: nat, n: nat, s: State, f: nat) {
    && n >= 2 && Reached(passes, c0, g0, n, s) && Lone(passes, s, 1)
    && |s.workers| == n && s.workers[0] == Holding(f)
    && f < |passes| && passes[f].gpu && s.fibers[f].Parked?
    && (forall w :: 2 <= w < n ==> s.workers[w].Idle?)
  }

  lemma OnlyInQueue(passes: seq<Pass>, c0: nat, g0: nat, n: nat, s: State, f: nat)
    requires Early(passes, c0, g0, n, s) && f < |passes| && s.pc == AfterLoop(passes, f + 1)
    requires passes[f].gpu && forall j :: 0 <= j < f ==> !passes[j].gpu
    ensures s.ready != [] && s.ready[0] == f && s.fibers[f].Queued? && !s.bodies[f].Fenced?
  {
    assert PassInv(passes, s, f);
    assert f in s.ready;
    var j := s.ready[0];
    assert j in s.ready;
    assert PassInv(passes, s, j);
  }

  lemma Poise(passes: seq<Pass>, c0: nat, g0: nat, n: nat, f: nat) returns (s: State)
    requires n >= 2 && f < |passes| && passes[f].gpu && forall j :: 0 <= j < f ==> !passes[j].gpu
    ensures Poised(passes, c0, g0, n, s, f)
  {
    s := ReachSubmit(passes, c0, g0, n, f);
    s := PassGo(passes, c0, g0, n, s);
    OnlyInQueue(passes, c0, g0, n, s, f);
    TakeKeepsLone(passes, c0, g0, s, 0);
    s := Go(passes, c0, g0, n, s, WorkerStep(0));
    OtherActs(passes, s, f);
  }

  lemma OtherActs(passes: seq<Pass>, s: State, f: nat)
    requires Lone(passes, s, 0) && |s.workers| >= 2
    requires s.workers[0] == Holding(f) && f < |s.fibers| && s.fibers[f].Parked?
    requires forall w :: 1 <= w < |s.workers| ==> s.workers[w].Idle?
    ensures Lone(passes, s, 1)
  {
  }

  /** Everything else is over; the parked fiber is due. */
  lemma Wait(passes: seq<Pass>, c0: nat, g0: nat, n: nat, s: State, f: nat) returns (t: State)
    requires Poised(passes, c0, g0, n, s, f) && Startable(passes, c0, f)
    ensures Poised(passes, c0, g0, n, t, f) && AtRest(passes, t, 1)
    ensures t.pc == Drain && t.ready == [] && t.workers[1].Idle? && t.bodies[f] == Fenced
  {
    t := RunToRest(passes, c0, g0, n, s, 1);
    assert Rests(t, t.workers[0]);
    RestingPool(passes, c0, g0, t, 1);
    RestingBody(passes, c0, g0, t, 1, f);
  }

  /** Two workers come to hold the same fiber at its end. */
  lemma BothEnd(passes: seq<Pass>, c0: nat, g0: nat, n: nat, s: State, f: nat) returns (t: State)
    requires Poised(passes, c0, g0, n, s, f) && s.pc == Drain && s.ready == []
    requires s.workers[1].Idle? && s.bodies[f] == Fenced
    ensures Reached(passes, c0, g0, n, t)
    ensures t == s.(fibers := s.fibers[f := Ended], workers := s.workers[0 := Ending(f)][1 := Ending(f)])
  {
    t := Go(passes, c0, g0, n, s, WakeStep(f));
    t := Go(passes, c0, g0, n, t, WorkerStep(1));
    t := Go(passes, c0, g0, n, t, WorkerStep(1));
    t := Go(passes, c0, g0, n, t, WorkerStep(0));
    assert t.ready == [];
    assert t.fibers == s.fibers[f := Ended];
    assert t.workers == s.workers[0 := Ending(f)][1 := Ending(f)];
  }

  /** Both destroy its frame and both count it off. */
  lemma CountedTwice(passes: seq<Pass>, c0: nat, g0: nat, n: nat, s: State, f: nat) returns (t: State)
    requires n >= 2 && Reached(passes, c0, g0, n, s) && f < |passes| && |s.workers| == n
    requires s.fibers[f].Ended? && s.workers[0] == s.workers[1] == Ending(f)
    ensures Reached(passes, c0, g0, n, t)
    ensures t == s.(fibers := s.fibers[f := Destroyed], workers := s.workers[0 := Idle][1 := Idle],
                    pending := s.pending - 2, faulted := true)
  {
    t := Go(passes, c0, g0, n, s, WorkerStep(1));
    t := Go(passes, c0, g0, n, t, WorkerStep(0));
    assert t.fibers == s.fibers[f := Destroyed];
    assert t.workers == s.workers[0 := Idle][1 := Idle];
  }

  /** With two workers one fiber can be counted off twice, and its destroyed frame is
      touched; what remains is the state before with the counter one too low. */
  lemma Race(passes: seq<Pass>, c0: nat, g0: nat, n: nat, k: nat) returns (s: State, t: State, f: nat)
    requires n >= 2 && Startable(passes, c0, k)
    ensures Poised(passes, c0, g0, n, s, f) && AtRest(passes, s, 1)
    ensures s.pc == Drain && s.ready == [] && s.workers[1].Idle?
    ensures Reached(passes, c0, g0, n, t) && !Safe(passes, t)
    ensures t == s.(fibers := s.fibers[f := Destroyed], workers := s.workers[0 := Idle][1 := Idle],
                    pending := s.pending - 2, faulted := true)
  {
    f := FirstGpu(passes, k);
    s := Poise(passes, c0, g0, n, f);
    s := Wait(passes, c0, g0, n, s, f);
    t := BothEnd(passes, c0, g0, n, s, f);
    t := CountedTwice(passes, c0, g0, n, t, f);
    assert t.workers == s.workers[0 := Idle][1 := Idle];
    assert t.fibers == s.fibers[f := Destroyed];
  }

  // ---- The race on two passes ----

  predicate TwoPasses(passes: seq<Pass>) {
    |passes| == 2 && passes[0] == Pass(true, true) && passes[1] == Pass(true, true)
  }

  /** The state after i steps of the main loop alone. */
  function MainAfter(i: nat): State {
    var bodies := [if i >= 1 then Waiting else Unsubmitted, if i >= 5 then Waiting else Unsubmitted];
    var fibers := [if i >= 4 then Queued else NoFiber, if i >= 8 then Queued else NoFiber];
    State(if i < 4 then PcAfter(0, i) else if i < 8 then PcAfter(1, i - 4) else Drain,
          (if i >= 3 then 1 else 0) + (if i >= 7 then 1 else 0), 0,
          (if i >= 4 then 1 else 0) + (if i >= 8 then 1 else 0), bodies, fibers,
          (if i >= 4 then [0] else []) + (if i >= 8 then [1] else []), [Idle, Idle], false)
  }

  function PcAfter(pass: nat, i: nat): Main {
    if i == 0 then Submit(pass) else if i == 1 then Cpu(pass) else if i == 2 then Signal(pass) else Register(pass)
  }

  lemma MainAfterNext(passes: seq<Pass>, i: nat)
    requires TwoPasses(passes) && i < 8
    ensures Shaped(passes, MainAfter(i)) && Enabled(passes, MainAfter(i), MainStep)
    ensures StepMain(passes, MainAfter(i)) == MainAfter(i + 1)
  {
  }

  lemma TwoSubmitted(passes: seq<Pass>)
    requires TwoPasses(passes)
    ensures Reached(passes, 0, 0, 2, MainAfter(8))
  {
    InitReached(passes, 0, 0, 2);
    assert Init(passes, 0, 0, 2) == MainAfter(0);
    for i := 0 to 8
      invariant Reached(passes, 0, 0, 2, MainAfter(i))
    {
      MainAfterNext(passes, i);
      var s := Go(passes, 0, 0, 2, MainAfter(i), MainStep);
    }
  }

  function AtDrain(first: Body, gpu: nat, fibers: seq<Fiber>, ready: seq<nat>, workers: seq<Worker>): State {
    State(Drain, 2, gpu, 2, [first, Waiting], fibers, ready, workers, false)
  }

  /** Both fibers park, the first GPU body runs, and both workers find its fiber done. */
  function DrainAfter(i: nat): State {
    if i == 0 then AtDrain(Waiting, 0, [Queued, Queued], [0, 1], [Idle, Idle])
    else if i == 1 then AtDrain(Waiting, 0, [Parked, Queued], [1], [Holding(0), Idle])
    else if i == 2 then AtDrain(Waiting, 0, [Parked, Parked], [], [Holding(0), Holding(1)])
    else if i == 3 then AtDrain(Waiting, 0, [Parked, Parked], [], [Holding(0), Idle])
    else if i == 4 then AtDrain(Running, 0, [Parked, Parked], [], [Holding(0), Idle])
    else if i == 5 then AtDrain(Finished, 0, [Parked, Parked], [], [Holding(0), Idle])
    else if i == 6 then AtDrain(Signalled, 1, [Parked, Parked], [], [Holding(0), Idle])
    else if i == 7 then AtDrain(Fenced, 1, [Parked, Parked], [], [Holding(0), Idle])
    else if i == 8 then AtDrain(Fenced, 1, [Woken, Parked], [0], [Holding(0), Idle])
    else if i == 9 then AtDrain(Fenced, 1, [Ended, Parked], [], [Holding(0), Holding(0)])
    else if i == 10 then AtDrain(Fenced, 1, [Ended, Parked], [], [Holding(0), Ending(0)])
    else AtDrain(Fenced, 1, [Ended, Parked], [], [Ending(0), Ending(0)])
  }

  function DrainStep(i: nat): Step {
    if i == 0 || i == 10 then WorkerStep(0)
    else if 3 <= i < 7 then BodyStep(0)
    else if i == 7 then WakeStep(0)
    else WorkerStep(1)
  }

  ghost predicate Follows(passes: seq<Pass>, i: nat) {
    && Shaped(passes, DrainAfter(i)) && Enabled(passes, DrainAfter(i), DrainStep(i))
    && Next(passes, DrainAfter(i), DrainStep(i)) == DrainAfter(i + 1)
  }

  lemma BothPark(passes: seq<Pass>, i: nat)
    requires TwoPasses(passes) && i < 3
    ensures Follows(passes, i)
  {
  }

  lemma FirstRuns(passes: seq<Pass>, i: nat)
    requires TwoPasses(passes) && 3 <= i < 7
    ensures Follows(passes, i)
  {
  }

  lemma BothFindItDone(passes: seq<Pass>, i: nat)
    requires TwoPasses(passes) && 7 <= i < 11
    ensures Follows(passes, i)
  {
  }

  lemma BothEnding(passes: seq<Pass>)
    requires TwoPasses(passes)
    ensures Reached(passes, 0, 0, 2, DrainAfter(11))
  {
    TwoSubmitted(passes);
    assert MainAfter(8) == DrainAfter(0);
    for i := 0 to 11
      invariant Reached(passes, 0, 0, 2, DrainAfter(i))
    {
      if i < 3 {
        BothPark(passes, i);
      } else if i < 7 {
        FirstRuns(passes, i);
      } else {
        BothFindItDone(passes, i);
      }
      var s := Go(passes, 0, 0, 2, DrainAfter(i), DrainStep(i));
    }
  }

  /** Two passes with both functions and two workers: the buffers are freed although
      the second GPU body has not even started. */
  lemma EarlyFree(passes: seq<Pass>) returns (s: State)
    requires TwoPasses(passes)
    ensures Reached(passes, 0, 0, 2, s)
    ensures s.pc == Free(0) && s.bodies[1] == Waiting
  {
    BothEnding(passes);
    s := DrainAfter(11);
    s := CountedTwice(passes, 0, 0, 2, s, 0);
    s := Go(passes, 0, 0, 2, s, MainStep);
  }

  // ---- Safety is exact ----

  ghost predicate AlwaysSafe(passes: seq<Pass>, c0: nat, g0: nat, n: nat) {
    forall s :: Reached(passes, c0, g0, n, s) ==> Safe(passes, s)
  }

  lemma SafeWithOneWorker(passes: seq<Pass>, c0: nat, g0: nat, n: nat, s: State)
    requires n <= 1 && SafeStart(passes, c0) && Reached(passes, c0, g0, n, s)
    ensures Safe(passes, s)
  {
    var start := Init(passes, c0, g0, n);
    InitKeeps(passes, c0, g0, n);
    var steps :| Runs(passes, start, steps, s);
    RunKeeps(passes, c0, g0, start, steps, s);
    LoneIsSafe(passes, c0, g0, s);
  }

  lemma ReachedCalm(passes: seq<Pass>, c0: nat, g0: nat, n: nat, s: State)
    requires Reached(passes, c0, g0, n, s) && forall k :: !Startable(passes, c0, k)
    ensures Calm(passes, s)
  {
    var start := Init(passes, c0, g0, n);
    InitKeeps(passes, c0, g0, n);
    var steps :| Runs(passes, start, steps, s);
    CalmRuns(passes, c0, g0, start, steps, s);
  }

  /** Every interleaving is safe exactly when, for each pass with a GPU function, the
      timeline value left by earlier executions plus the signals before that pass stays
      within its index, and the pool has one worker or no GPU body ever starts. */
  lemma SafetyIsExact(passes: seq<Pass>, c0: nat, g0: nat, n: nat)
    ensures AlwaysSafe(passes, c0, g0, n) <==>
            SafeStart(passes, c0) && (n <= 1 || forall k :: !Startable(passes, c0, k))
  {
    if !SafeStart(passes, c0) {
      var s := UnsafeStart(passes, c0, g0, n);
    } else if n > 1 && exists k :: Startable(passes, c0, k) {
      var k :| Startable(passes, c0, k);
      var s, t, f := Race(passes, c0, g0, n, k);
    } else {
      forall s | Reached(passes, c0, g0, n, s) ensures Safe(passes, s) {
        if n <= 1 {
          SafeWithOneWorker(passes, c0, g0, n, s);
        } else {
          ReachedCalm(passes, c0, g0, n, s);
          CalmIsSafe(passes, c0, g0, s);
        }
      }
    }
  }

  // ---- Completion is exact ----

  ghost predicate EnoughSignals(passes: seq<Pass>, c0: nat) {
    forall k :: 0 <= k < |passes| && passes[k].gpu ==> Startable(passes, c0, k)
  }

  predicate NoGpu(passes: seq<Pass>) {
    forall k :: 0 <= k < |passes| ==> !passes[k].gpu
  }

  ghost predicate Halted(passes: seq<Pass>, s: State)
    requires Shaped(passes, s)
  {
    forall step :: !Enabled(passes, s, step)
  }

  /** Every run that cannot be extended has come to the end. */
  ghost predicate MustFinish(passes: seq<Pass>, c0: nat, g0: nat, n: nat) {
    forall s :: Reached(passes, c0, g0, n, s) && Halted(passes, s) ==> s.pc == Done
  }

  lemma NoGpuFinishes(passes: seq<Pass>, c0: nat, g0: nat, n: nat, s: State)
    requires NoGpu(passes) && Reached(passes, c0, g0, n, s) && Halted(passes, s)
    ensures s.pc == Done
  {
    ReachedCalm(passes, c0, g0, n, s);
    assert !Enabled(passes, s, MainStep);
    forall k | 0 <= k < |s.fibers| ensures Waits(s.fibers[k]) == 0 {
      assert PassInv(passes, s, k);
    }
    TotalOfNothing(s.fibers, Waits);
  }

  /** With one worker and enough signals no reachable state before the end is stuck. */
  lemma NeverStuck(passes: seq<Pass>, c0: nat, g0: nat, s: State)
    requires Reached(passes, c0, g0, 1, s) && EnoughSignals(passes, c0) && Halted(passes, s)
    ensures s.pc == Done
  {
    var start := Init(passes, c0, g0, 1);
    InitKeeps(passes, c0, g0, 1);
    var steps :| Runs(passes, start, steps, s);
    RunKeeps(passes, c0, g0, start, steps, s);
    RestingPool(passes, c0, g0, s, 0);
    if s.pc == Drain {
      var k := SomethingCounts(s.fibers, Waits);
      assert !Enabled(passes, s, WakeStep(k));
      assert PassInv(passes, s, k);
      RestingBody(passes, c0, g0, s, 0, k);
    }
  }

  /** One worker, or none, and not enough signals. */
  lemma StuckWaiting(passes: seq<Pass>, c0: nat, g0: nat, n: nat) returns (s: State)
    requires !NoGpu(passes) && (n == 0 || !EnoughSignals(passes, c0))
    ensures Reached(passes, c0, g0, n, s) && Halted(passes, s) && s.pc != Done
  {
    InitReached(passes, c0, g0, n);
    InitKeeps(passes, c0, g0, n);
    s := RunToRest(passes, c0, g0, n, Init(passes, c0, g0, n), 0);
    RestingPool(passes, c0, g0, s, 0);
    var k :| 0 <= k < |passes| && passes[k].gpu && (n == 0 || !Startable(passes, c0, k));
    assert PassInv(passes, s, k);
    if n > 0 {
      NothingFenced(passes, c0, g0, s, k);
    }
    forall step ensures !Enabled(passes, s, step) {
      assert Enabled(passes, s, step) ==> !Allowed(s, 0, step);
    }
  }

  /** Two workers: after the race the counter is below zero and nothing moves. */
  lemma StuckAfterRace(passes: seq<Pass>, c0: nat, g0: nat, n: nat) returns (t: State)
    requires !NoGpu(passes) && n >= 2 && EnoughSignals(passes, c0)
    ensures Reached(passes, c0, g0, n, t) && Halted(passes, t) && t.pc != Done
  {
    var k :| 0 <= k < |passes| && passes[k].gpu;
    var s, f;
    s, t, f := Race(passes, c0, g0, n, k);
    forall j | 0 <= j < |passes| && passes[j].gpu
      ensures s.bodies[j] == Fenced && (j != f ==> s.fibers[j].Destroyed?)
    {
      RestingBody(passes, c0, g0, s, 1, j);
      assert j != f ==> Allowed(s, 1, WakeStep(j));
      assert Enabled(passes, s, WakeStep(j)) ==> !Allowed(s, 1, WakeStep(j));
    }
    OneLeft(passes, c0, g0, s, f);
    forall step ensures !Enabled(passes, t, step) {
      match step
      case MainStep =>
      case BodyStep(j) => if j < |passes| { assert PassInv(passes, s, j); }
      case WakeStep(j) => if j < |passes| { assert PassInv(passes, s, j); }
      case WorkerStep(w) =>
    }
  }

  lemma OneLeft(passes: seq<Pass>, c0: nat, g0: nat, s: State, f: nat)
    requires Inv(passes, c0, g0, s) && Lone(passes, s, 1) && f < |passes| && Waits(s.fibers[f]) == 1
    requires forall j :: 0 <= j < |passes| && passes[j].gpu && j != f ==> s.fibers[j].Destroyed?
    ensures s.pending == 1
  {
    TotalUpdate(s.fibers, Waits, f, Destroyed);
    var rest := s.fibers[f := Destroyed];
    forall j | 0 <= j < |rest| ensures Waits(rest[j]) == 0 {
      assert PassInv(passes, s, j);
    }
    TotalOfNothing(rest, Waits);
  }

  /** Every run comes to its end exactly when no pass has a GPU function, or the pool
      has exactly one worker and the timeline reaches every GPU body. */
  lemma CompletionIsExact(passes: seq<Pass>, c0: nat, g0: nat, n: nat)
    ensures MustFinish(passes, c0, g0, n) <==> NoGpu(passes) || (n == 1 && EnoughSignals(passes, c0))
  {
    if NoGpu(passes) {
      forall s | Reached(passes, c0, g0, n, s) && Halted(passes, s) ensures s.pc == Done {
        NoGpuFinishes(passes, c0, g0, n, s);
      }
    } else if n == 0 || !EnoughSignals(passes, c0) {
      var s := StuckWaiting(passes, c0, g0, n);
    } else if n >= 2 {
      var s := StuckAfterRace(passes, c0, g0, n);
    } else {
      forall s | Reached(passes, c0, g0, n, s) && Halted(passes, s) ensures s.pc == Done {
        NeverStuck(passes, c0, g0, s);
      }
    }
  }

  /** A pass without functions leaves the timeline short: this graph hangs. */
  lemma HangingGraph(n: nat)
    ensures !MustFinish([Pass(false, false), Pass(true, true)], 0, 0, n)
  {
    var passes := [Pass(false, false), Pass(true, true)];
    assert Signals(passes, 1) == 0 && Signals(passes, 2) == 1;
    assert passes[1].gpu && !Startable(passes, 0, 1);
    CompletionIsExact(passes, 0, 0, n);
  }

  // ---- The timelines at the end ----

  function Gpu(p: Pass): nat {
    if p.gpu then 1 else 0
  }

  /** At the end the CPU timeline has counted every signalling pass once, and with one
      worker the GPU timeline every GPU pass. */
  lemma FinalTimelines(passes: seq<Pass>, c0: nat, g0: nat, n: nat, s: State)
    requires Reached(passes, c0, g0, n, s) && s.pc == Done
    ensures s.cpu == c0 + Signals(passes, |passes|)
    ensures n <= 1 ==> s.gpu == g0 + Total(passes, Gpu)
  {
    if n <= 1 {
      var start := Init(passes, c0, g0, n);
      InitKeeps(passes, c0, g0, n);
      var steps :| Runs(passes, start, steps, s);
      RunKeeps(passes, c0, g0, start, steps, s);
      forall k | 0 <= k < |passes| ensures Counted(s.bodies[k]) == Gpu(passes[k]) {
        assert PassInv(passes, s, k);
      }
      SameTotal(passes, s.bodies);
    }
  }

  lemma {:induction false} SameTotal(passes: seq<Pass>, bodies: seq<Body>)
    requires |passes| == |bodies| && forall k :: 0 <= k < |passes| ==> Counted(bodies[k]) == Gpu(passes[k])
    ensures Total(bodies, Counted) == Total(passes, Gpu)
  {
    if passes != [] { SameTotal(passes[1..], bodies[1..]); }
  }

  // ---- The intended use, and its limits ----

  ghost predicate AllFunctional(passes: seq<Pass>) {
    forall k :: 0 <= k < |passes| ==> passes[k].cpu || passes[k].gpu
  }

  lemma {:induction false} AllSignal(passes: seq<Pass>, m: nat)
    requires AllFunctional(passes) && m <= |passes|
    ensures Signals(passes, m) == m
  {
    if m > 0 { AllSignal(passes, m - 1); }
  }

  /** When every pass has a function, a first execution is safe and finishes with one
      worker, is unsafe with more as soon as a pass has a GPU function, and so is a
      second execution with any number. */
  lemma FirstAndSecondExecute(passes: seq<Pass>, g0: nat, n: nat)
    requires AllFunctional(passes)
    ensures AlwaysSafe(passes, 0, 0, 1) && MustFinish(passes, 0, 0, 1)
    ensures n >= 2 ==> (AlwaysSafe(passes, 0, 0, n) <==> NoGpu(passes))
    ensures AlwaysSafe(passes, Signals(passes, |passes|), g0, n) <==> NoGpu(passes)
  {
    forall k | 0 <= k <= |passes| ensures Signals(passes, k) == k { AllSignal(passes, k); }
    assert EnoughSignals(passes, 0);
    if k :| 0 <= k < |passes| && passes[k].gpu {
      assert Startable(passes, 0, k);
    }
    SafetyIsExact(passes, 0, 0, 1);
    SafetyIsExact(passes, 0, 0, n);
    CompletionIsExact(passes, 0, 0, 1);
    SafetyIsExact(passes, |passes|, g0, n);
  }
}
