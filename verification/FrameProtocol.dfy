/** One `execute` of the CPU/GPU frame graph as interleaved steps of the main
    loop, the detached GPU bodies and the fiber pool that waits for the fences. */
module FrameProtocol {

  /** Whether a pass has a CPU function and a GPU function. */
  datatype Pass = Pass(cpu: bool, gpu: bool)

  /** Where the main loop stands. `Signal(i)` follows the CPU function of pass i. */
  datatype Main = Submit(i: nat) | Cpu(i: nat) | Signal(i: nat) | Register(i: nat) | Drain | Free(i: nat) | Done

  /** A GPU body: waiting on the CPU timeline, running, finished, having signalled
      the GPU timeline, and having signalled its fence. */
  datatype Body = Unsubmitted | Waiting | Running | Finished | Signalled | Fenced

  /** The fiber that waits for a fence: in the ready queue, parked with the poller,
      back in the ready queue, run to its end, and its frame destroyed. */
  datatype Fiber = NoFiber | Queued | Parked | Woken | Ended | Destroyed

  /** A worker of the pool: between resuming a fiber and testing whether it is done,
      and between that test and destroying the frame, other threads may step in. */
  datatype Worker = Idle | Holding(k: nat) | Ending(k: nat)

  /** `pending` is a 64-bit unsigned counter in the pool; below zero stands for a
      counter that has wrapped. `faulted` says that a destroyed frame was touched. */
  datatype State = State(pc: Main, cpu: nat, gpu: nat, pending: int, bodies: seq<Body>, fibers: seq<Fiber>,
                         ready: seq<nat>, workers: seq<Worker>, faulted: bool)

  datatype Step = MainStep | BodyStep(k: nat) | WakeStep(k: nat) | WorkerStep(w: nat)

  function Functional(p: Pass): nat {
    if p.cpu || p.gpu then 1 else 0
  }

  /** How many of the first m passes signal the CPU timeline. */
  function Signals(passes: seq<Pass>, m: nat): nat
    requires m <= |passes|
  {
    if m == 0 then 0 else Signals(passes, m - 1) + Functional(passes[m - 1])
  }

  function AfterLoop(passes: seq<Pass>, i: nat): Main {
    if i < |passes| then Submit(i) else Drain
  }

  /** The timelines are never reset, so they start at whatever earlier executions left;
      the pool has n workers. */
  function Init(passes: seq<Pass>, c0: nat, g0: nat, n: nat): State {
    State(AfterLoop(passes, 0), c0, g0, 0,
          seq(|passes|, i => Unsubmitted), seq(|passes|, i => NoFiber), [], seq(n, i => Idle), false)
  }

  predicate Shaped(passes: seq<Pass>, s: State) {
    && |s.bodies| == |s.fibers| == |passes|
    && (forall i :: 0 <= i < |s.ready| ==> s.ready[i] < |passes|)
    && (forall w :: 0 <= w < |s.workers| && !s.workers[w].Idle? ==> s.workers[w].k < |passes|)
    && match s.pc
       case Submit(i) => i < |passes|
       case Cpu(i) => i < |passes|
       case Signal(i) => i < |passes|
       case Register(i) => i < |passes|
       case Free(i) => i < |passes|
       case _ => true
  }

  predicate Enabled(passes: seq<Pass>, s: State, step: Step)
    requires Shaped(passes, s)
  {
    match step
    case MainStep => s.pc != Done && (s.pc == Drain ==> s.pending == 0)
    case BodyStep(k) =>
      && k < |passes| && !s.bodies[k].Unsubmitted? && !s.bodies[k].Fenced?
      && (s.bodies[k] == Waiting ==> s.cpu >= k + 1)
    case WakeStep(k) => k < |passes| && s.fibers[k].Parked? && s.bodies[k].Fenced?
    case WorkerStep(w) => w < |s.workers| && (s.workers[w].Idle? ==> s.ready != [])
  }

  function StepMain(passes: seq<Pass>, s: State): State
    requires Shaped(passes, s) && Enabled(passes, s, MainStep)
  {
    match s.pc
    case Submit(i) => s.(pc := Cpu(i), bodies := if passes[i].gpu then s.bodies[i := Waiting] else s.bodies)
    case Cpu(i) => s.(pc := Signal(i))
    case Signal(i) => s.(pc := Register(i), cpu := s.cpu + Functional(passes[i]))
    case Register(i) =>
      var next := s.(pc := AfterLoop(passes, i + 1));
      if passes[i].gpu then next.(fibers := s.fibers[i := Queued], ready := s.ready + [i], pending := s.pending + 1)
      else next
    case Drain => s.(pc := if passes == [] then Done else Free(0))
    case Free(i) => s.(pc := if i + 1 < |passes| then Free(i + 1) else Done)
  }

  function StepBody(passes: seq<Pass>, s: State, k: nat): State
    requires Shaped(passes, s) && Enabled(passes, s, BodyStep(k))
  {
    match s.bodies[k]
    case Waiting => s.(bodies := s.bodies[k := Running])
    case Running => s.(bodies := s.bodies[k := Finished])
    case Finished => s.(bodies := s.bodies[k := Signalled], gpu := s.gpu + 1)
    case Signalled => s.(bodies := s.bodies[k := Fenced])
  }

  /** The poller puts a parked fiber whose fence is signalled back into the queue. */
  function StepWake(passes: seq<Pass>, s: State, k: nat): State
    requires Shaped(passes, s) && Enabled(passes, s, WakeStep(k))
  {
    s.(fibers := s.fibers[k := Woken], ready := s.ready + [k])
  }

  /** A new fiber parks unless its fence is signalled; a woken one runs to its end. */
  function Resumed(s: State, k: nat): Fiber
    requires k < |s.fibers| == |s.bodies|
  {
    if s.fibers[k] == Queued && s.bodies[k] != Fenced then Parked else Ended
  }

  /** A worker takes the front of the queue and resumes it; then it tests whether the
      fiber is done; then it destroys the frame and counts it off. */
  function StepWorker(passes: seq<Pass>, s: State, w: nat): State
    requires Shaped(passes, s) && Enabled(passes, s, WorkerStep(w))
  {
    match s.workers[w]
    case Idle =>
      var k := s.ready[0];
      s.(ready := s.ready[1..], fibers := s.fibers[k := Resumed(s, k)], workers := s.workers[w := Holding(k)])
    case Holding(k) =>
      if s.fibers[k].Ended? || s.fibers[k].Destroyed? then
        s.(workers := s.workers[w := Ending(k)], faulted := s.faulted || s.fibers[k].Destroyed?)
      else s.(workers := s.workers[w := Idle])
    case Ending(k) =>
      s.(fibers := s.fibers[k := Destroyed], pending := s.pending - 1, workers := s.workers[w := Idle],
         faulted := s.faulted || s.fibers[k].Destroyed?)
  }

  function Next(passes: seq<Pass>, s: State, step: Step): (s': State)
    requires Shaped(passes, s) && Enabled(passes, s, step)
    ensures Shaped(passes, s') && |s'.workers| == |s.workers|
  {
    match step
    case MainStep => StepMain(passes, s)
    case BodyStep(k) => StepBody(passes, s, k)
    case WakeStep(k) => StepWake(passes, s, k)
    case WorkerStep(w) => StepWorker(passes, s, w)
  }

  /** The steps lead from s to t. */
  predicate Runs(passes: seq<Pass>, s: State, steps: seq<Step>, t: State)
    requires Shaped(passes, s)
    decreases |steps|
  {
    if steps == [] then s == t
    else Enabled(passes, s, steps[0]) && Runs(passes, Next(passes, s, steps[0]), steps[1..], t)
  }

  // ---- Sums over threads ----

  function Total<T>(xs: seq<T>, weight: T -> nat): nat {
    if xs == [] then 0 else weight(xs[0]) + Total(xs[1..], weight)
  }

  lemma {:induction false} TotalUpdate<T>(xs: seq<T>, weight: T -> nat, k: nat, x: T)
    requires k < |xs|
    ensures Total(xs[k := x], weight) + weight(xs[k]) == Total(xs, weight) + weight(x)
  {
    if k > 0 {
      TotalUpdate(xs[1..], weight, k - 1, x);
      assert xs[k := x][1..] == xs[1..][k - 1 := x];
    } else {
      assert xs[k := x][1..] == xs[1..];
    }
  }

  lemma {:induction false} TotalAtLeast<T>(xs: seq<T>, weight: T -> nat, k: nat)
    requires k < |xs|
    ensures weight(xs[k]) <= Total(xs, weight)
  {
    if k > 0 { TotalAtLeast(xs[1..], weight, k - 1); }
  }

  lemma {:induction false} TotalOfNothing<T>(xs: seq<T>, weight: T -> nat)
    requires forall k :: 0 <= k < |xs| ==> weight(xs[k]) == 0
    ensures Total(xs, weight) == 0
  {
    if xs != [] { TotalOfNothing(xs[1..], weight); }
  }

  lemma {:induction false} SomethingCounts<T>(xs: seq<T>, weight: T -> nat) returns (k: nat)
    requires Total(xs, weight) > 0
    ensures k < |xs| && weight(xs[k]) > 0
  {
    if weight(xs[0]) > 0 {
      k := 0;
    } else {
      k := SomethingCounts(xs[1..], weight);
      k := k + 1;
    }
  }

  /** A fiber that was registered and not yet destroyed. */
  function Waits(f: Fiber): nat {
    if f.NoFiber? || f.Destroyed? then 0 else 1
  }

  /** A body that has signalled the GPU timeline. */
  function Counted(b: Body): nat {
    if b.Signalled? || b.Fenced? then 1 else 0
  }

  // ---- What every step keeps ----

  /** How many passes the main loop has signalled, submitted and registered. */
  function SignalledPasses(passes: seq<Pass>, pc: Main): nat {
    match pc
    case Submit(i) => i case Cpu(i) => i case Signal(i) => i
    case Register(i) => i + 1
    case _ => |passes|
  }

  function SubmittedPasses(passes: seq<Pass>, pc: Main): nat {
    match pc
    case Submit(i) => i
    case Cpu(i) => i + 1 case Signal(i) => i + 1 case Register(i) => i + 1
    case _ => |passes|
  }

  function RegisteredPasses(passes: seq<Pass>, pc: Main): nat {
    match pc
    case Submit(i) => i case Cpu(i) => i case Signal(i) => i case Register(i) => i
    case _ => |passes|
  }

  predicate Started(b: Body) {
    !b.Unsubmitted? && !b.Waiting?
  }

  predicate PassInv(passes: seq<Pass>, s: State, k: nat)
    requires Shaped(passes, s) && k < |passes|
  {
    && (s.bodies[k] != Unsubmitted <==> passes[k].gpu && k < SubmittedPasses(passes, s.pc))
    && (s.fibers[k] != NoFiber <==> passes[k].gpu && k < RegisteredPasses(passes, s.pc))
    && (Started(s.bodies[k]) ==> s.cpu >= k + 1)
    && (s.fibers[k].Woken? || s.fibers[k].Ended? || s.fibers[k].Destroyed? ==> s.bodies[k].Fenced?)
    && (k in s.ready <==> s.fibers[k].Queued? || s.fibers[k].Woken?)
    && (s.workers == [] ==> s.fibers[k].NoFiber? || s.fibers[k].Queued?)
  }

  /** A worker holds only fibers that have left the queue. */
  predicate WorkerInv(s: State, x: Worker) {
    match x
    case Idle => true
    case Holding(k) => k < |s.fibers| && !s.fibers[k].NoFiber? && !s.fibers[k].Queued?
    case Ending(k) => k < |s.fibers| && (s.fibers[k].Ended? || s.fibers[k].Destroyed?)
  }

  predicate NoRepeats(ready: seq<nat>) {
    forall i, j :: 0 <= i < j < |ready| ==> ready[i] != ready[j]
  }

  /** Holds whatever the number of workers. */
  ghost predicate Inv(passes: seq<Pass>, c0: nat, g0: nat, s: State) {
    && Shaped(passes, s)
    && s.cpu == c0 + Signals(passes, SignalledPasses(passes, s.pc))
    && s.gpu == g0 + Total(s.bodies, Counted)
    && NoRepeats(s.ready)
    && (forall k :: 0 <= k < |passes| ==> PassInv(passes, s, k))
    && (forall w :: 0 <= w < |s.workers| ==> WorkerInv(s, s.workers[w]))
  }

  lemma InitKeeps(passes: seq<Pass>, c0: nat, g0: nat, n: nat)
    ensures Inv(passes, c0, g0, Init(passes, c0, g0, n)) && Lone(passes, Init(passes, c0, g0, n), 0)
  {
    var s := Init(passes, c0, g0, n);
    TotalOfNothing(s.bodies, Counted);
    TotalOfNothing(s.fibers, Waits);
  }

  lemma SubmitKeeps(passes: seq<Pass>, c0: nat, g0: nat, s: State)
    requires Inv(passes, c0, g0, s) && s.pc.Submit?
    ensures Inv(passes, c0, g0, StepMain(passes, s))
  {
    assert PassInv(passes, s, s.pc.i);
    TotalUpdate(s.bodies, Counted, s.pc.i, Waiting);
    forall k | 0 <= k < |passes| ensures PassInv(passes, StepMain(passes, s), k) {
      assert PassInv(passes, s, k);
    }
  }

  lemma SignalKeeps(passes: seq<Pass>, c0: nat, g0: nat, s: State)
    requires Inv(passes, c0, g0, s) && (s.pc.Cpu? || s.pc.Signal?)
    ensures Inv(passes, c0, g0, StepMain(passes, s))
  {
    forall k | 0 <= k < |passes| ensures PassInv(passes, StepMain(passes, s), k) {
      assert PassInv(passes, s, k);
    }
  }

  lemma RegisterKeepsPass(passes: seq<Pass>, s: State, j: nat)
    requires Shaped(passes, s) && s.pc.Register? && j < |passes|
    requires PassInv(passes, s, s.pc.i) && PassInv(passes, s, j)
    ensures PassInv(passes, StepMain(passes, s), j)
  {
  }

  lemma RegisterKeeps(passes: seq<Pass>, c0: nat, g0: nat, s: State)
    requires Inv(passes, c0, g0, s) && s.pc.Register?
    ensures Inv(passes, c0, g0, StepMain(passes, s))
  {
    var t := StepMain(passes, s);
    assert PassInv(passes, s, s.pc.i);
    forall k | 0 <= k < |passes| ensures PassInv(passes, t, k) {
      RegisterKeepsPass(passes, s, k);
    }
    forall w | 0 <= w < |s.workers| ensures WorkerInv(t, t.workers[w]) {
      assert WorkerInv(s, s.workers[w]);
    }
  }

  lemma DrainKeeps(passes: seq<Pass>, c0: nat, g0: nat, s: State)
    requires Inv(passes, c0, g0, s) && (s.pc.Drain? || s.pc.Free?) && Enabled(passes, s, MainStep)
    ensures Inv(passes, c0, g0, StepMain(passes, s))
  {
    forall k | 0 <= k < |passes| ensures PassInv(passes, StepMain(passes, s), k) {
      assert PassInv(passes, s, k);
    }
  }

  lemma MainKeeps(passes: seq<Pass>, c0: nat, g0: nat, s: State)
    requires Inv(passes, c0, g0, s) && Enabled(passes, s, MainStep)
    ensures Inv(passes, c0, g0, StepMain(passes, s))
  {
    match s.pc
    case Submit(i) => SubmitKeeps(passes, c0, g0, s);
    case Cpu(i) => SignalKeeps(passes, c0, g0, s);
    case Signal(i) => SignalKeeps(passes, c0, g0, s);
    case Register(i) => RegisterKeeps(passes, c0, g0, s);
    case _ => DrainKeeps(passes, c0, g0, s);
  }

  lemma BodyKeepsGpu(s: State, g0: nat, k: nat, passes: seq<Pass>)
    requires Shaped(passes, s) && Enabled(passes, s, BodyStep(k)) && s.gpu == g0 + Total(s.bodies, Counted)
    ensures var t := StepBody(passes, s, k); t.gpu == g0 + Total(t.bodies, Counted)
  {
    TotalUpdate(s.bodies, Counted, k, StepBody(passes, s, k).bodies[k]);
  }

  lemma BodyKeepsPass(passes: seq<Pass>, s: State, k: nat, j: nat)
    requires Shaped(passes, s) && Enabled(passes, s, BodyStep(k)) && j < |passes|
    requires PassInv(passes, s, k) && PassInv(passes, s, j)
    ensures PassInv(passes, StepBody(passes, s, k), j)
  {
  }

  lemma BodyKeeps(passes: seq<Pass>, c0: nat, g0: nat, s: State, k: nat)
    requires Inv(passes, c0, g0, s) && Enabled(passes, s, BodyStep(k))
    ensures Inv(passes, c0, g0, StepBody(passes, s, k))
  {
    var t := StepBody(passes, s, k);
    BodyKeepsGpu(s, g0, k, passes);
    forall j | 0 <= j < |passes| ensures PassInv(passes, t, j) {
      BodyKeepsPass(passes, s, k, j);
    }
    forall w | 0 <= w < |s.workers| ensures WorkerInv(t, t.workers[w]) {
      assert WorkerInv(s, s.workers[w]);
    }
  }

  lemma WakeKeeps(passes: seq<Pass>, c0: nat, g0: nat, s: State, k: nat)
    requires Inv(passes, c0, g0, s) && Enabled(passes, s, WakeStep(k))
    ensures Inv(passes, c0, g0, StepWake(passes, s, k))
  {
    var t := StepWake(passes, s, k);
    assert PassInv(passes, s, k);
    forall j | 0 <= j < |passes| ensures PassInv(passes, t, j) {
      assert PassInv(passes, s, j);
    }
    forall w | 0 <= w < |s.workers| ensures WorkerInv(t, t.workers[w]) {
      assert WorkerInv(s, s.workers[w]);
    }
  }

  lemma TakeKeeps(passes: seq<Pass>, c0: nat, g0: nat, s: State, w: nat)
    requires Inv(passes, c0, g0, s) && Enabled(passes, s, WorkerStep(w)) && s.workers[w].Idle?
    ensures Inv(passes, c0, g0, StepWorker(passes, s, w))
  {
    var t, k := StepWorker(passes, s, w), s.ready[0];
    assert PassInv(passes, s, k);
    forall j | 0 <= j < |passes| ensures PassInv(passes, t, j) {
      assert PassInv(passes, s, j);
      assert s.ready == [k] + t.ready;
    }
    forall v | 0 <= v < |s.workers| ensures WorkerInv(t, t.workers[v]) {
      assert WorkerInv(s, s.workers[v]);
    }
  }

  lemma TestKeeps(passes: seq<Pass>, c0: nat, g0: nat, s: State, w: nat)
    requires Inv(passes, c0, g0, s) && Enabled(passes, s, WorkerStep(w)) && s.workers[w].Holding?
    ensures Inv(passes, c0, g0, StepWorker(passes, s, w))
  {
    var t := StepWorker(passes, s, w);
    forall j | 0 <= j < |passes| ensures PassInv(passes, t, j) {
      assert PassInv(passes, s, j);
    }
    forall v | 0 <= v < |s.workers| ensures WorkerInv(t, t.workers[v]) {
      assert WorkerInv(s, s.workers[v]);
    }
  }

  lemma DestroyKeepsPass(passes: seq<Pass>, s: State, w: nat, j: nat)
    requires Shaped(passes, s) && Enabled(passes, s, WorkerStep(w)) && s.workers[w].Ending? && j < |passes|
    requires WorkerInv(s, s.workers[w]) && PassInv(passes, s, j)
    ensures PassInv(passes, StepWorker(passes, s, w), j)
  {
  }

  lemma DestroyKeeps(passes: seq<Pass>, c0: nat, g0: nat, s: State, w: nat)
    requires Inv(passes, c0, g0, s) && Enabled(passes, s, WorkerStep(w)) && s.workers[w].Ending?
    ensures Inv(passes, c0, g0, StepWorker(passes, s, w))
  {
    var t := StepWorker(passes, s, w);
    forall j | 0 <= j < |passes| ensures PassInv(passes, t, j) {
      DestroyKeepsPass(passes, s, w, j);
    }
    forall v | 0 <= v < |s.workers| ensures WorkerInv(t, t.workers[v]) {
      assert WorkerInv(s, s.workers[v]);
    }
  }

  /** Every step of every thread keeps the invariant. */
  lemma StepKeeps(passes: seq<Pass>, c0: nat, g0: nat, s: State, step: Step)
    requires Inv(passes, c0, g0, s) && Enabled(passes, s, step)
    ensures Inv(passes, c0, g0, Next(passes, s, step))
  {
    match step
    case MainStep => MainKeeps(passes, c0, g0, s);
    case BodyStep(k) => BodyKeeps(passes, c0, g0, s, k);
    case WakeStep(k) => WakeKeeps(passes, c0, g0, s, k);
    case WorkerStep(w) =>
      match s.workers[w] {
        case Idle => TakeKeeps(passes, c0, g0, s, w);
        case Holding(_) => TestKeeps(passes, c0, g0, s, w);
        case Ending(_) => DestroyKeeps(passes, c0, g0, s, w);
      }
  }

  // ---- One worker at a time ----

  /** A worker that does nothing, or has resumed a fiber that is parked since. */
  predicate Rests(s: State, x: Worker) {
    x.Idle? || (x.Holding? && x.k < |s.fibers| && s.fibers[x.k].Parked?)
  }

  /** The acting worker deals with a fiber whose frame exists. */
  predicate Attends(s: State, x: Worker) {
    match x
    case Idle => true
    case Holding(k) => k < |s.fibers| && !s.fibers[k].Destroyed?
    case Ending(k) => k < |s.fibers| && s.fibers[k].Ended?
  }

  predicate AttendedBy(s: State, a: nat, k: nat) {
    a < |s.workers| && (s.workers[a] == Holding(k) || s.workers[a] == Ending(k))
  }

  /** Only worker a acts: the counter is right, no frame is touched too late, and the
      main loop drains only when every fiber is gone. */
  ghost predicate Lone(passes: seq<Pass>, s: State, a: nat) {
    && !s.faulted
    && s.pending == Total(s.fibers, Waits)
    && (forall w :: 0 <= w < |s.workers| && w != a ==> Rests(s, s.workers[w]))
    && (a < |s.workers| ==> Attends(s, s.workers[a]))
    && (forall k :: 0 <= k < |s.fibers| && s.fibers[k].Ended? ==> AttendedBy(s, a, k))
    && (s.pc.Free? || s.pc.Done? ==>
         forall k :: 0 <= k < |passes| && k < |s.fibers| && passes[k].gpu ==> s.fibers[k].Destroyed?)
  }

  /** What may happen while only worker a acts. */
  predicate Allowed(s: State, a: nat, step: Step) {
    match step
    case WorkerStep(w) => w == a
    case WakeStep(k) => forall w :: 0 <= w < |s.workers| && w != a ==> s.workers[w] != Holding(k)
    case _ => true
  }

  lemma MainKeepsLone(passes: seq<Pass>, c0: nat, g0: nat, s: State, a: nat)
    requires Inv(passes, c0, g0, s) && Lone(passes, s, a) && Enabled(passes, s, MainStep)
    ensures Lone(passes, StepMain(passes, s), a)
  {
    if s.pc.Register? {
      assert PassInv(passes, s, s.pc.i);
      TotalUpdate(s.fibers, Waits, s.pc.i, Queued);
      forall w | 0 <= w < |s.workers| ensures WorkerInv(s, s.workers[w]) {}
    } else if s.pc.Drain? {
      forall k | 0 <= k < |passes| && passes[k].gpu ensures s.fibers[k].Destroyed? {
        assert PassInv(passes, s, k);
        TotalAtLeast(s.fibers, Waits, k);
      }
    }
  }

  lemma WakeKeepsLone(passes: seq<Pass>, c0: nat, g0: nat, s: State, a: nat, k: nat)
    requires Inv(passes, c0, g0, s) && Lone(passes, s, a)
    requires Enabled(passes, s, WakeStep(k)) && Allowed(s, a, WakeStep(k))
    ensures Lone(passes, StepWake(passes, s, k), a)
  {
    TotalUpdate(s.fibers, Waits, k, Woken);
  }

  lemma TakeKeepsLone(passes: seq<Pass>, c0: nat, g0: nat, s: State, a: nat)
    requires Inv(passes, c0, g0, s) && Lone(passes, s, a)
    requires Enabled(passes, s, WorkerStep(a)) && s.workers[a].Idle?
    ensures Lone(passes, StepWorker(passes, s, a), a)
  {
    var k := s.ready[0];
    assert PassInv(passes, s, k);
    TotalUpdate(s.fibers, Waits, k, Resumed(s, k));
  }

  lemma HandBackKeepsLone(passes: seq<Pass>, c0: nat, g0: nat, s: State, a: nat)
    requires Inv(passes, c0, g0, s) && Lone(passes, s, a)
    requires Enabled(passes, s, WorkerStep(a)) && !s.workers[a].Idle?
    ensures Lone(passes, StepWorker(passes, s, a), a)
  {
    var k := s.workers[a].k;
    TotalUpdate(s.fibers, Waits, k, Destroyed);
  }

  lemma StepKeepsLone(passes: seq<Pass>, c0: nat, g0: nat, s: State, a: nat, step: Step)
    requires Inv(passes, c0, g0, s) && Lone(passes, s, a) && Enabled(passes, s, step) && Allowed(s, a, step)
    ensures Lone(passes, Next(passes, s, step), a)
    ensures forall w :: 0 <= w < |s.workers| && w != a ==> Next(passes, s, step).workers[w] == s.workers[w]
  {
    match step
    case MainStep => MainKeepsLone(passes, c0, g0, s, a);
    case BodyStep(k) =>
    case WakeStep(k) => WakeKeepsLone(passes, c0, g0, s, a, k);
    case WorkerStep(w) =>
      if s.workers[w].Idle? {
        TakeKeepsLone(passes, c0, g0, s, a);
      } else {
        HandBackKeepsLone(passes, c0, g0, s, a);
      }
  }

  /** Every interleaving keeps the invariant, and with a single worker the pending
      count is the number of fibers not yet destroyed. */
  lemma {:induction false} RunKeeps(passes: seq<Pass>, c0: nat, g0: nat, s: State, steps: seq<Step>, t: State)
    requires Inv(passes, c0, g0, s) && Runs(passes, s, steps, t)
    ensures Inv(passes, c0, g0, t) && |t.workers| == |s.workers|
    ensures |s.workers| <= 1 && Lone(passes, s, 0) ==> Lone(passes, t, 0)
    decreases |steps|
  {
    if steps != [] {
      StepKeeps(passes, c0, g0, s, steps[0]);
      if |s.workers| <= 1 && Lone(passes, s, 0) {
        StepKeepsLone(passes, c0, g0, s, 0, steps[0]);
      }
      RunKeeps(passes, c0, g0, Next(passes, s, steps[0]), steps[1..], t);
    }
  }
}
