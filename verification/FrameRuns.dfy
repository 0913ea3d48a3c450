/** Runs of the frame-graph protocol: what a safe state is, how runs are put together,
    why every run is finite, and where a run ends up when only one worker acts. */
module FrameRuns {
  import opened FrameProtocol

  // ---- Safety: when GPU bodies start, buffers are freed and frames are touched ----

  /** GPU body k runs only after the CPU stages of passes 0..k are done, freeing starts
      only after every GPU body has finished, and no destroyed frame is touched. */
  ghost predicate Safe(passes: seq<Pass>, s: State) {
    && Shaped(passes, s)
    && (forall k :: 0 <= k < |passes| && Started(s.bodies[k]) ==> SignalledPasses(passes, s.pc) >= k + 1)
    && (s.pc.Free? || s.pc.Done? ==> forall k :: 0 <= k < |passes| && passes[k].gpu ==> s.bodies[k] == Fenced)
    && !s.faulted
  }

  /** The earlier count is covered by passes that never signal. */
  ghost predicate SafeStart(passes: seq<Pass>, c0: nat) {
    forall k :: 0 <= k < |passes| && passes[k].gpu ==> c0 + Signals(passes, k) <= k
  }

  /** The timeline reaches the GPU body of pass k in the end. */
  predicate Startable(passes: seq<Pass>, c0: nat, k: nat) {
    k < |passes| && passes[k].gpu && c0 + Signals(passes, |passes|) >= k + 1
  }

  lemma {:induction false} SignalsGrow(passes: seq<Pass>, i: nat, j: nat)
    requires i <= j <= |passes|
    ensures Signals(passes, i) <= Signals(passes, j) <= Signals(passes, i) + (j - i)
  {
    if i < j { SignalsGrow(passes, i, j - 1); }
  }

  /** A started body has its CPU stages behind it. */
  lemma StartedInOrder(passes: seq<Pass>, c0: nat, g0: nat, s: State, k: nat)
    requires Inv(passes, c0, g0, s) && SafeStart(passes, c0) && k < |passes| && Started(s.bodies[k])
    ensures SignalledPasses(passes, s.pc) >= k + 1
  {
    assert PassInv(passes, s, k);
    if SignalledPasses(passes, s.pc) <= k {
      SignalsGrow(passes, SignalledPasses(passes, s.pc), k);
    }
  }

  lemma LoneIsSafe(passes: seq<Pass>, c0: nat, g0: nat, s: State)
    requires Inv(passes, c0, g0, s) && SafeStart(passes, c0) && Lone(passes, s, 0)
    ensures Safe(passes, s)
  {
    forall k | 0 <= k < |passes|
      ensures Started(s.bodies[k]) ==> SignalledPasses(passes, s.pc) >= k + 1
      ensures passes[k].gpu && (s.pc.Free? || s.pc.Done?) ==> s.bodies[k] == Fenced
    {
      assert PassInv(passes, s, k);
      if Started(s.bodies[k]) {
        StartedInOrder(passes, c0, g0, s, k);
      }
    }
  }

  // ---- No GPU body ever starts ----

  /** No fiber has come to its end. */
  ghost predicate Calm(passes: seq<Pass>, s: State) {
    && !s.faulted
    && s.pending == Total(s.fibers, Waits)
    && (forall k :: 0 <= k < |s.fibers| ==> s.fibers[k].NoFiber? || s.fibers[k].Queued? || s.fibers[k].Parked?)
    && (forall w :: 0 <= w < |s.workers| ==> !s.workers[w].Ending?)
    && (s.pc.Free? || s.pc.Done? ==> forall k :: 0 <= k < |passes| ==> !passes[k].gpu)
  }

  lemma NothingFenced(passes: seq<Pass>, c0: nat, g0: nat, s: State, k: nat)
    requires Inv(passes, c0, g0, s) && k < |passes| && !Startable(passes, c0, k)
    ensures !Started(s.bodies[k])
  {
    assert PassInv(passes, s, k);
    SignalsGrow(passes, SignalledPasses(passes, s.pc), |passes|);
  }

  lemma MainStaysCalm(passes: seq<Pass>, c0: nat, g0: nat, s: State)
    requires Inv(passes, c0, g0, s) && Calm(passes, s) && Enabled(passes, s, MainStep)
    ensures Calm(passes, StepMain(passes, s))
  {
    if s.pc.Register? {
      assert PassInv(passes, s, s.pc.i);
      TotalUpdate(s.fibers, Waits, s.pc.i, Queued);
    } else if s.pc.Drain? {
      forall k | 0 <= k < |passes| ensures !passes[k].gpu {
        assert PassInv(passes, s, k);
        TotalAtLeast(s.fibers, Waits, k);
      }
    }
  }

  lemma TakeStaysCalm(passes: seq<Pass>, c0: nat, g0: nat, s: State, w: nat)
    requires Inv(passes, c0, g0, s) && Calm(passes, s) && Enabled(passes, s, WorkerStep(w)) && s.workers[w].Idle?
    requires !Startable(passes, c0, s.ready[0])
    ensures Calm(passes, StepWorker(passes, s, w))
  {
    var k := s.ready[0];
    NothingFenced(passes, c0, g0, s, k);
    assert PassInv(passes, s, k);
    TotalUpdate(s.fibers, Waits, k, Resumed(s, k));
  }

  lemma CalmStays(passes: seq<Pass>, c0: nat, g0: nat, s: State, step: Step)
    requires Inv(passes, c0, g0, s) && Calm(passes, s) && Enabled(passes, s, step)
    requires forall k :: !Startable(passes, c0, k)
    ensures Calm(passes, Next(passes, s, step))
  {
    match step
    case MainStep => MainStaysCalm(passes, c0, g0, s);
    case BodyStep(k) =>
    case WakeStep(k) => NothingFenced(passes, c0, g0, s, k);
    case WorkerStep(w) => if s.workers[w].Idle? { TakeStaysCalm(passes, c0, g0, s, w); }
  }

  lemma {:induction false} CalmRuns(passes: seq<Pass>, c0: nat, g0: nat, s: State, steps: seq<Step>, t: State)
    requires Inv(passes, c0, g0, s) && Calm(passes, s) && Runs(passes, s, steps, t)
    requires forall k :: !Startable(passes, c0, k)
    ensures Inv(passes, c0, g0, t) && Calm(passes, t)
    decreases |steps|
  {
    if steps != [] {
      StepKeeps(passes, c0, g0, s, steps[0]);
      CalmStays(passes, c0, g0, s, steps[0]);
      CalmRuns(passes, c0, g0, Next(passes, s, steps[0]), steps[1..], t);
    }
  }

  lemma CalmIsSafe(passes: seq<Pass>, c0: nat, g0: nat, s: State)
    requires Inv(passes, c0, g0, s) && SafeStart(passes, c0) && Calm(passes, s)
    ensures Safe(passes, s)
  {
    forall k | 0 <= k < |passes| && Started(s.bodies[k]) ensures SignalledPasses(passes, s.pc) >= k + 1 {
      StartedInOrder(passes, c0, g0, s, k);
    }
  }

  // ---- Building runs ----

  lemma {:induction false} RunConcat(passes: seq<Pass>, s: State, a: seq<Step>, t: State, b: seq<Step>, u: State)
    requires Shaped(passes, s) && Shaped(passes, t) && Runs(passes, s, a, t) && Runs(passes, t, b, u)
    ensures Runs(passes, s, a + b, u)
    decreases |a|
  {
    if a == [] {
      assert a + b == b;
    } else {
      assert (a + b)[1..] == a[1..] + b;
      RunConcat(passes, Next(passes, s, a[0]), a[1..], t, b, u);
    }
  }

  /** State s is reached in an execution with n workers. */
  ghost predicate Reached(passes: seq<Pass>, c0: nat, g0: nat, n: nat, s: State) {
    && Inv(passes, c0, g0, s)
    && Shaped(passes, Init(passes, c0, g0, n))
    && exists steps :: Runs(passes, Init(passes, c0, g0, n), steps, s)
  }

  lemma InitReached(passes: seq<Pass>, c0: nat, g0: nat, n: nat)
    ensures Reached(passes, c0, g0, n, Init(passes, c0, g0, n))
  {
    InitKeeps(passes, c0, g0, n);
    var none: seq<Step> := [];
    assert Runs(passes, Init(passes, c0, g0, n), none, Init(passes, c0, g0, n));
  }

  lemma Go(passes: seq<Pass>, c0: nat, g0: nat, n: nat, s: State, step: Step) returns (t: State)
    requires Reached(passes, c0, g0, n, s) && Enabled(passes, s, step)
    ensures t == Next(passes, s, step) && Reached(passes, c0, g0, n, t)
  {
    t := Next(passes, s, step);
    var start := Init(passes, c0, g0, n);
    var steps :| Runs(passes, start, steps, s);
    assert Runs(passes, t, [step][1..], t);
    RunConcat(passes, start, steps, s, [step], t);
    StepKeeps(passes, c0, g0, s, step);
  }

  /** Only the main loop has moved. */
  ghost predicate Early(passes: seq<Pass>, c0: nat, g0: nat, n: nat, s: State) {
    && Reached(passes, c0, g0, n, s) && Lone(passes, s, 0)
    && s.workers == seq(n, i => Idle)
    && (forall k :: 0 <= k < |s.fibers| ==> s.fibers[k].NoFiber? || s.fibers[k].Queued?)
    && (forall k :: 0 <= k < |s.bodies| ==> !Started(s.bodies[k]))
  }

  function NextPc(passes: seq<Pass>, pc: Main): Main {
    match pc
    case Submit(i) => Cpu(i) case Cpu(i) => Signal(i) case Signal(i) => Register(i)
    case Register(i) => AfterLoop(passes, i + 1)
    case _ => pc
  }

  lemma MainGo(passes: seq<Pass>, c0: nat, g0: nat, n: nat, s: State) returns (t: State)
    requires Early(passes, c0, g0, n, s) && (s.pc.Submit? || s.pc.Cpu? || s.pc.Signal? || s.pc.Register?)
    ensures Early(passes, c0, g0, n, t) && t.pc == NextPc(passes, s.pc)
  {
    t := Go(passes, c0, g0, n, s, MainStep);
    MainKeepsLone(passes, c0, g0, s, 0);
  }

  lemma PassGo(passes: seq<Pass>, c0: nat, g0: nat, n: nat, s: State) returns (t: State)
    requires Early(passes, c0, g0, n, s) && s.pc.Submit?
    ensures Early(passes, c0, g0, n, t) && t.pc == AfterLoop(passes, s.pc.i + 1)
  {
    t := MainGo(passes, c0, g0, n, s);
    t := MainGo(passes, c0, g0, n, t);
    t := MainGo(passes, c0, g0, n, t);
    t := MainGo(passes, c0, g0, n, t);
  }

  /** The main loop alone can always go on to submit pass i. */
  lemma {:induction false} ReachSubmit(passes: seq<Pass>, c0: nat, g0: nat, n: nat, i: nat) returns (s: State)
    requires i < |passes|
    ensures Early(passes, c0, g0, n, s) && s.pc == Submit(i)
  {
    if i == 0 {
      s := Init(passes, c0, g0, n);
      InitReached(passes, c0, g0, n);
      InitKeeps(passes, c0, g0, n);
    } else {
      s := ReachSubmit(passes, c0, g0, n, i - 1);
      s := PassGo(passes, c0, g0, n, s);
    }
  }

  /** With the timeline ahead a GPU body starts before its CPU stage. */
  lemma UnsafeStart(passes: seq<Pass>, c0: nat, g0: nat, n: nat) returns (s: State)
    requires !SafeStart(passes, c0)
    ensures Reached(passes, c0, g0, n, s) && !Safe(passes, s)
  {
    var k :| 0 <= k < |passes| && passes[k].gpu && c0 + Signals(passes, k) > k;
    s := ReachSubmit(passes, c0, g0, n, k);
    s := MainGo(passes, c0, g0, n, s);
    assert PassInv(passes, s, k);
    s := Go(passes, c0, g0, n, s, BodyStep(k));
    assert Started(s.bodies[k]);
  }

  // ---- Every run is finite ----

  function MainRank(passes: seq<Pass>, pc: Main): nat {
    var n := |passes|;
    match pc
    case Submit(i) => if i <= n then 4 * (n - i) + n + 2 else 0
    case Cpu(i) => if i <= n then 4 * (n - i) + n + 1 else 0
    case Signal(i) => if i <= n then 4 * (n - i) + n else 0
    case Register(i) => if i < n then 4 * (n - i) + n - 1 else 0
    case Drain => n + 1
    case Free(i) => if i < n then n - i else 0
    case Done => 0
  }

  function BodyRank(b: Body): nat {
    match b
    case Unsubmitted => 5 case Waiting => 4 case Running => 3 case Finished => 2 case Signalled => 1 case Fenced => 0
  }

  /** Taking a fiber costs its worker two more steps. */
  function FiberRank(f: Fiber): nat {
    match f
    case NoFiber => 9 case Queued => 8 case Parked => 5 case Woken => 4 case Ended => 1 case Destroyed => 0
  }

  function WorkerRank(x: Worker): nat {
    match x
    case Idle => 0 case Holding(_) => 2 case Ending(_) => 1
  }

  function Measure(passes: seq<Pass>, s: State): nat {
    MainRank(passes, s.pc) + Total(s.bodies, BodyRank) + Total(s.fibers, FiberRank) + Total(s.workers, WorkerRank)
  }

  lemma MainShrinks(passes: seq<Pass>, c0: nat, g0: nat, s: State)
    requires Inv(passes, c0, g0, s) && Enabled(passes, s, MainStep)
    ensures Measure(passes, StepMain(passes, s)) < Measure(passes, s)
  {
    var t := StepMain(passes, s);
    assert MainRank(passes, t.pc) < MainRank(passes, s.pc);
    if s.pc.Submit? && passes[s.pc.i].gpu {
      assert PassInv(passes, s, s.pc.i);
      TotalUpdate(s.bodies, BodyRank, s.pc.i, Waiting);
    } else if s.pc.Register? && passes[s.pc.i].gpu {
      assert PassInv(passes, s, s.pc.i);
      TotalUpdate(s.fibers, FiberRank, s.pc.i, Queued);
    }
  }

  lemma TakeShrinks(passes: seq<Pass>, c0: nat, g0: nat, s: State, w: nat)
    requires Inv(passes, c0, g0, s) && Enabled(passes, s, WorkerStep(w)) && s.workers[w].Idle?
    ensures Measure(passes, StepWorker(passes, s, w)) < Measure(passes, s)
  {
    var k := s.ready[0];
    assert PassInv(passes, s, k);
    TotalUpdate(s.workers, WorkerRank, w, Holding(k));
    TotalUpdate(s.fibers, FiberRank, k, Resumed(s, k));
  }

  lemma HandBackShrinks(passes: seq<Pass>, c0: nat, g0: nat, s: State, w: nat)
    requires Inv(passes, c0, g0, s) && Enabled(passes, s, WorkerStep(w)) && !s.workers[w].Idle?
    ensures Measure(passes, StepWorker(passes, s, w)) < Measure(passes, s)
  {
    var k := s.workers[w].k;
    TotalUpdate(s.workers, WorkerRank, w, Idle);
    TotalUpdate(s.workers, WorkerRank, w, Ending(k));
    TotalUpdate(s.fibers, FiberRank, k, Destroyed);
  }

  /** Every step, of whatever thread, brings the execution closer to its end. */
  lemma StepShrinks(passes: seq<Pass>, c0: nat, g0: nat, s: State, step: Step)
    requires Inv(passes, c0, g0, s) && Enabled(passes, s, step)
    ensures Measure(passes, Next(passes, s, step)) < Measure(passes, s)
  {
    match step
    case MainStep => MainShrinks(passes, c0, g0, s);
    case BodyStep(k) => TotalUpdate(s.bodies, BodyRank, k, StepBody(passes, s, k).bodies[k]);
    case WakeStep(k) => TotalUpdate(s.fibers, FiberRank, k, Woken);
    case WorkerStep(w) =>
      if s.workers[w].Idle? {
        TakeShrinks(passes, c0, g0, s, w);
      } else {
        HandBackShrinks(passes, c0, g0, s, w);
      }
  }

  /** No interleaving is longer than the initial measure. */
  lemma {:induction false} RunsAreFinite(passes: seq<Pass>, c0: nat, g0: nat, s: State, steps: seq<Step>, t: State)
    requires Inv(passes, c0, g0, s) && Runs(passes, s, steps, t)
    ensures |steps| + Measure(passes, t) <= Measure(passes, s)
    decreases |steps|
  {
    if steps != [] {
      StepShrinks(passes, c0, g0, s, steps[0]);
      StepKeeps(passes, c0, g0, s, steps[0]);
      RunsAreFinite(passes, c0, g0, Next(passes, s, steps[0]), steps[1..], t);
    }
  }

  // ---- What is left when only worker a acts and can do no more ----

  ghost predicate AtRest(passes: seq<Pass>, s: State, a: nat)
    requires Shaped(passes, s)
  {
    forall step :: Enabled(passes, s, step) ==> !Allowed(s, a, step)
  }

  lemma {:induction false} RunToRest(passes: seq<Pass>, c0: nat, g0: nat, n: nat, s: State, a: nat) returns (t: State)
    requires Reached(passes, c0, g0, n, s) && Lone(passes, s, a)
    ensures Reached(passes, c0, g0, n, t) && Lone(passes, t, a) && AtRest(passes, t, a)
    ensures |t.workers| == |s.workers|
    ensures forall w :: 0 <= w < |s.workers| && w != a ==> t.workers[w] == s.workers[w]
    decreases Measure(passes, s)
  {
    t := s;
    if step :| Enabled(passes, s, step) && Allowed(s, a, step) {
      StepKeepsLone(passes, c0, g0, s, a, step);
      StepShrinks(passes, c0, g0, s, step);
      t := Go(passes, c0, g0, n, s, step);
      t := RunToRest(passes, c0, g0, n, t, a);
    }
  }

  lemma RestingPool(passes: seq<Pass>, c0: nat, g0: nat, s: State, a: nat)
    requires Inv(passes, c0, g0, s) && Lone(passes, s, a) && AtRest(passes, s, a)
    ensures s.pc == Done || (s.pc == Drain && s.pending > 0)
    ensures a < |s.workers| ==> s.workers[a].Idle? && s.ready == []
  {
    assert !Enabled(passes, s, MainStep);
    assert !Enabled(passes, s, WorkerStep(a));
  }

  lemma RestingBody(passes: seq<Pass>, c0: nat, g0: nat, s: State, a: nat, k: nat)
    requires Inv(passes, c0, g0, s) && Lone(passes, s, a) && AtRest(passes, s, a) && k < |passes| && passes[k].gpu
    ensures Startable(passes, c0, k) ==> s.bodies[k] == Fenced
    ensures a < |s.workers| ==> s.fibers[k].Parked? || s.fibers[k].Destroyed?
  {
    RestingPool(passes, c0, g0, s, a);
    assert PassInv(passes, s, k);
    assert !Enabled(passes, s, BodyStep(k));
  }
}
