/** What the resource-conflict check of the golden-scenario validator buys: the
    result of a tick, and of a whole run, does not depend on the order in which
    an executor takes the released phases. */
module Confluence {
  import opened Graphs
  import opened PhaseGraph
  import opened Sets

  datatype Phase = Phase(id: Node, rate: string, inputs: seq<string>, writes: seq<string>)

  predicate UniqueIds(phases: seq<Phase>) {
    forall i, j :: 0 <= i < j < |phases| ==> phases[i].id != phases[j].id
  }

  /** The graph belongs to the phases, and edges stay within a rate. */
  ghost predicate PhaseGraphOf(g: Graph, phases: seq<Phase>) {
    && UniqueIds(phases)
    && WellFormed(g)
    && g.Keys == (set p | p in phases :: p.id)
    && forall p, q :: p in phases && q in phases && Edge(g, p.id, q.id) ==> p.rate == q.rate
  }

  predicate Touches(p: Phase, r: string) {
    r in p.inputs || r in p.writes
  }

  predicate Conflict(p: Phase, q: Phase) {
    || (exists r :: r in p.writes && Touches(q, r))
    || (exists r :: r in q.writes && r in p.inputs)
  }

  ghost predicate Ordered(g: Graph, p: Phase, q: Phase) {
    Reaches(g, p.id, q.id) || Reaches(g, q.id, p.id)
  }

  ghost predicate ConflictsOrdered(phases: seq<Phase>, g: Graph) {
    forall i, j :: 0 <= i < j < |phases| && Conflict(phases[i], phases[j]) ==> Ordered(g, phases[i], phases[j])
  }

  /** The nested loop over unordered pairs of phases. */
  method CheckConflicts(phases: seq<Phase>, g: Graph) returns (ok: bool)
    requires PhaseGraphOf(g, phases) && Acyclic(g)
    ensures ok <==> ConflictsOrdered(phases, g)
  {
    for i := 0 to |phases|
      invariant forall k, j :: 0 <= k < i && k < j < |phases| && Conflict(phases[k], phases[j]) ==>
                  Ordered(g, phases[k], phases[j])
    {
      var p := phases[i];
      assert p in phases;
      for j := i + 1 to |phases|
        invariant forall k :: i < k < j && Conflict(p, phases[k]) ==> Ordered(g, p, phases[k])
      {
        var q := phases[j];
        assert q in phases;
        if Conflict(p, q) && !ReachesNow(g, p.id, q.id) && !ReachesNow(g, q.id, p.id) {
          return false;
        }
      }
    }
    ok := true;
  }

  // ---- What phases do ----

  /** A phase sees only the cells it declares. `write` gives the new value of
      each cell it writes, `report` the sample or record it emits. */
  datatype Body = Body(write: (map<string, int>, string) -> int, report: map<string, int> -> int)

  datatype World = World(cells: map<string, int>, log: map<Node, seq<int>>)

  function View(p: Phase, cells: map<string, int>): map<string, int> {
    map r | r in cells && Touches(p, r) :: cells[r]
  }

  function LogOf(w: World, id: Node): seq<int> {
    if id in w.log then w.log[id] else []
  }

  function Exec(p: Phase, b: Body, w: World): World {
    var view := View(p, w.cells);
    World(map r | r in w.cells :: if r in p.writes then b.write(view, r) else w.cells[r],
          w.log[p.id := LogOf(w, p.id) + [b.report(view)]])
  }

  function Run(order: seq<Phase>, bodies: Node -> Body, w: World): World {
    if order == [] then w
    else Run(order[1..], bodies, Exec(order[0], bodies(order[0].id), w))
  }

  // ---- Schedules ----

  function Released(phases: seq<Phase>, rates: set<string>): set<Phase> {
    set p | p in phases && p.rate in rates
  }

  ghost predicate Enumerates(order: seq<Phase>, s: set<Phase>) {
    && (forall p :: p in order <==> p in s)
    && (forall i, j :: 0 <= i < j < |order| ==> order[i].id != order[j].id)
  }

  /** An order an executor may take: it breaks no edge. */
  ghost predicate Schedule(order: seq<Phase>, s: set<Phase>, g: Graph) {
    && Enumerates(order, s)
    && forall i, j :: 0 <= i < j < |order| ==> !Edge(g, order[j].id, order[i].id)
  }

  ghost predicate KeepsReachability(order: seq<Phase>, g: Graph) {
    forall i, j :: 0 <= i < j < |order| ==> !Reaches(g, order[j].id, order[i].id)
  }

  // ---- Soundness: an accepted graph is confluent ----

  /** A phase does not disturb what an independent phase sees. */
  lemma ViewUndisturbed(p: Phase, q: Phase, b: Body, w: World)
    requires !Conflict(p, q)
    ensures View(p, Exec(q, b, w).cells) == View(p, w.cells)
    ensures View(q, Exec(p, b, w).cells) == View(q, w.cells)
  {
  }

  lemma IndependentCells(p: Phase, q: Phase, bp: Body, bq: Body, w: World)
    requires !Conflict(p, q)
    ensures Exec(p, bp, Exec(q, bq, w)).cells == Exec(q, bq, Exec(p, bp, w)).cells
  {
    ViewUndisturbed(p, q, bq, w);
    ViewUndisturbed(p, q, bp, w);
    assert forall r :: r in p.writes ==> r !in q.writes;
  }

  lemma IndependentLogs(p: Phase, q: Phase, bp: Body, bq: Body, w: World)
    requires p.id != q.id && !Conflict(p, q)
    ensures Exec(p, bp, Exec(q, bq, w)).log == Exec(q, bq, Exec(p, bp, w)).log
  {
    ViewUndisturbed(p, q, bq, w);
    ViewUndisturbed(p, q, bp, w);
  }

  lemma IndependentPhasesCommute(p: Phase, q: Phase, bodies: Node -> Body, w: World)
    requires p.id != q.id && !Conflict(p, q)
    ensures Exec(p, bodies(p.id), Exec(q, bodies(q.id), w)) == Exec(q, bodies(q.id), Exec(p, bodies(p.id), w))
  {
    IndependentCells(p, q, bodies(p.id), bodies(q.id), w);
    IndependentLogs(p, q, bodies(p.id), bodies(q.id), w);
  }

  lemma {:induction false} RunConcat(a: seq<Phase>, b: seq<Phase>, bodies: Node -> Body, w: World)
    ensures Run(a + b, bodies, w) == Run(b, bodies, Run(a, bodies, w))
  {
    if a == [] {
      assert a + b == b;
    } else {
      assert (a + b)[1..] == a[1..] + b;
      RunConcat(a[1..], b, bodies, Exec(a[0], bodies(a[0].id), w));
    }
  }

  /** A phase moves to the front past phases it does not conflict with. */
  lemma {:induction false} MoveToFront(a: seq<Phase>, p: Phase, bodies: Node -> Body, w: World)
    requires forall q :: q in a ==> q.id != p.id && !Conflict(p, q)
    ensures Run(a + [p], bodies, w) == Run([p] + a, bodies, w)
  {
    if a != [] {
      var q := a[0];
      var wq := Exec(q, bodies(q.id), w);
      calc {
        Run(a + [p], bodies, w);
        { assert (a + [p])[1..] == a[1..] + [p]; }
        Run(a[1..] + [p], bodies, wq);
        { MoveToFront(a[1..], p, bodies, wq); }
        Run([p] + a[1..], bodies, wq);
        { assert ([p] + a[1..])[1..] == a[1..]; }
        Run(a[1..], bodies, Exec(p, bodies(p.id), wq));
        { IndependentPhasesCommute(p, q, bodies, w); }
        Run(a[1..], bodies, Exec(q, bodies(q.id), Exec(p, bodies(p.id), w)));
        Run(a, bodies, Exec(p, bodies(p.id), w));
        { assert ([p] + a)[1..] == a; }
        Run([p] + a, bodies, w);
      }
    } else {
      assert a + [p] == [p] + a;
    }
  }

  /** Removing the occurrence of one phase from an enumeration. */
  lemma EnumeratesWithout(order: seq<Phase>, k: nat, s: set<Phase>)
    requires Enumerates(order, s) && k < |order|
    ensures Enumerates(order[..k] + order[k + 1..], s - {order[k]})
  {
  }

  lemma KeepsReachabilityWithout(order: seq<Phase>, k: nat, g: Graph)
    requires KeepsReachability(order, g) && k < |order|
    ensures KeepsReachability(order[..k] + order[k + 1..], g)
  {
  }

  /** Running position k first changes nothing when the phases before it are
      independent of it. */
  lemma PullForward(order: seq<Phase>, k: nat, bodies: Node -> Body, w: World)
    requires k < |order|
    requires forall i :: 0 <= i < k ==> order[i].id != order[k].id && !Conflict(order[k], order[i])
    ensures Run(order, bodies, w)
         == Run(order[..k] + order[k + 1..], bodies, Exec(order[k], bodies(order[k].id), w))
  {
    var p, before, after := order[k], order[..k], order[k + 1..];
    var w' := Exec(p, bodies(p.id), w);
    calc {
      Run(order, bodies, w);
      { assert order == (before + [p]) + after; RunConcat(before + [p], after, bodies, w); }
      Run(after, bodies, Run(before + [p], bodies, w));
      { MoveToFront(before, p, bodies, w); }
      Run(after, bodies, Run([p] + before, bodies, w));
      { assert ([p] + before)[1..] == before; }
      Run(after, bodies, Run(before, bodies, w'));
      { RunConcat(before, after, bodies, w'); }
      Run(before + after, bodies, w');
    }
  }

  ghost predicate ConflictsOrderedIn(s: set<Phase>, g: Graph) {
    forall p, q :: p in s && q in s && p.id != q.id && Conflict(p, q) ==> Ordered(g, p, q)
  }

  /** Whatever the second order puts before the head of the first is unordered
      with it, and therefore independent of it. */
  lemma OvertakenAreIndependent(s: set<Phase>, g: Graph, o1: seq<Phase>, o2: seq<Phase>, k: nat, i: nat)
    requires Enumerates(o1, s) && KeepsReachability(o1, g)
    requires Enumerates(o2, s) && KeepsReachability(o2, g)
    requires ConflictsOrderedIn(s, g)
    requires i < k < |o2| && o1 != [] && o2[k] == o1[0]
    ensures o2[i].id != o2[k].id && !Conflict(o2[k], o2[i])
  {
  }

  /** The head of the first order can be run first in the second order too. */
  lemma BringHeadForward(s: set<Phase>, g: Graph, o1: seq<Phase>, o2: seq<Phase>, bodies: Node -> Body, w: World)
    returns (rest: seq<Phase>)
    requires Enumerates(o1, s) && KeepsReachability(o1, g)
    requires Enumerates(o2, s) && KeepsReachability(o2, g)
    requires ConflictsOrderedIn(s, g) && o1 != []
    ensures Enumerates(rest, s - {o1[0]}) && KeepsReachability(rest, g)
    ensures Run(o2, bodies, w) == Run(rest, bodies, Exec(o1[0], bodies(o1[0].id), w))
  {
    assert o1[0] in o1;
    var k :| 0 <= k < |o2| && o2[k] == o1[0];
    forall i | 0 <= i < k ensures o2[i].id != o2[k].id && !Conflict(o2[k], o2[i]) {
      OvertakenAreIndependent(s, g, o1, o2, k, i);
    }
    rest := o2[..k] + o2[k + 1..];
    PullForward(o2, k, bodies, w);
    EnumeratesWithout(o2, k, s);
    KeepsReachabilityWithout(o2, k, g);
  }

  lemma TailOfOrder(s: set<Phase>, g: Graph, order: seq<Phase>)
    requires Enumerates(order, s) && KeepsReachability(order, g) && order != []
    ensures Enumerates(order[1..], s - {order[0]}) && KeepsReachability(order[1..], g)
  {
  }

  lemma {:induction false} EnumerationLength(order: seq<Phase>, s: set<Phase>)
    requires Enumerates(order, s)
    ensures |order| == |s|
  {
    if order == [] {
      assert s == {};
    } else {
      assert order[0] in order;
      assert order[..0] + order[1..] == order[1..];
      EnumeratesWithout(order, 0, s);
      EnumerationLength(order[1..], s - {order[0]});
    }
  }

  lemma {:induction false} ReachOrdersAgree(s: set<Phase>, g: Graph, o1: seq<Phase>, o2: seq<Phase>,
                                            bodies: Node -> Body, w: World)
    requires Enumerates(o1, s) && KeepsReachability(o1, g)
    requires Enumerates(o2, s) && KeepsReachability(o2, g)
    requires ConflictsOrderedIn(s, g)
    ensures Run(o1, bodies, w) == Run(o2, bodies, w)
    decreases |o1|
  {
    if o1 == [] {
      EnumerationLength(o1, s);
      EnumerationLength(o2, s);
    } else {
      var rest := BringHeadForward(s, g, o1, o2, bodies, w);
      TailOfOrder(s, g, o1);
      ReachOrdersAgree(s - {o1[0]}, g, o1[1..], rest, bodies, Exec(o1[0], bodies(o1[0].id), w));
    }
  }

  /** Along a walk the positions in a schedule increase, because the walk stays
      within one rate and hence within the released phases. */
  lemma {:induction false} WalkFollowsSchedule(phases: seq<Phase>, g: Graph, rates: set<string>, order: seq<Phase>,
                                               walk: seq<Node>, i: nat, k: nat) returns (m: nat)
    requires PhaseGraphOf(g, phases) && Acyclic(g)
    requires Schedule(order, Released(phases, rates), g)
    requires i < |order| && |walk| >= 2 && k < |walk| && walk[0] == order[i].id
    requires forall n :: 0 <= n < |walk| - 1 ==> Edge(g, walk[n], walk[n + 1])
    ensures m < |order| && order[m].id == walk[k] && (if k == 0 then m == i else i < m)
  {
    if k == 0 {
      m := i;
    } else {
      var a := WalkFollowsSchedule(phases, g, rates, order, walk, i, k - 1);
      assert Edge(g, walk[k - 1], walk[k - 1 + 1]);
      assert walk[k] in g.Keys;
      var q :| q in phases && q.id == walk[k];
      assert order[a] in order;
      assert q in Released(phases, rates);
      m :| 0 <= m < |order| && order[m] == q;
      EdgeReaches(g, walk[k - 1], walk[k]);
    }
  }

  lemma SchedulesKeepReachability(phases: seq<Phase>, g: Graph, rates: set<string>, order: seq<Phase>)
    requires PhaseGraphOf(g, phases) && Acyclic(g)
    requires Schedule(order, Released(phases, rates), g)
    ensures KeepsReachability(order, g)
  {
    forall i, j | 0 <= i < j < |order| ensures !Reaches(g, order[j].id, order[i].id) {
      if Reaches(g, order[j].id, order[i].id) {
        var walk :| Walk(g, walk, order[j].id, order[i].id);
        var m := WalkFollowsSchedule(phases, g, rates, order, walk, j, |walk| - 1);
        assert false;
      }
    }
  }

  /** Confluence of one tick: when the graph and conflict checks accept, any two
      schedules of the phases of any released rates give the same world. */
  lemma TickIsConfluent(phases: seq<Phase>, g: Graph, rates: set<string>, o1: seq<Phase>, o2: seq<Phase>,
                        bodies: Node -> Body, w: World)
    requires PhaseGraphOf(g, phases) && Acyclic(g) && ConflictsOrdered(phases, g)
    requires Schedule(o1, Released(phases, rates), g)
    requires Schedule(o2, Released(phases, rates), g)
    ensures Run(o1, bodies, w) == Run(o2, bodies, w)
  {
    SchedulesKeepReachability(phases, g, rates, o1);
    SchedulesKeepReachability(phases, g, rates, o2);
    var s := Released(phases, rates);
    forall p, q | p in s && q in s && p.id != q.id && Conflict(p, q) ensures Ordered(g, p, q) {
      var i :| 0 <= i < |phases| && phases[i] == p;
      var j :| 0 <= j < |phases| && phases[j] == q;
      if j < i { assert Conflict(phases[j], phases[i]); }
    }
    ReachOrdersAgree(s, g, o1, o2, bodies, w);
  }

  // ---- Whole runs ----

  function ReleasedAt(phases: seq<Phase>, periods: map<string, nat>, tick: nat): set<Phase> {
    Released(phases, set r | r in periods && periods[r] > 0 && tick % periods[r] == 0)
  }

  /** One schedule for each tick from `tick` on. */
  ghost predicate TickSchedules(orders: seq<seq<Phase>>, phases: seq<Phase>, periods: map<string, nat>,
                                g: Graph, tick: nat)
  {
    forall t :: 0 <= t < |orders| ==> Schedule(orders[t], ReleasedAt(phases, periods, tick + t), g)
  }

  function RunTicks(orders: seq<seq<Phase>>, bodies: Node -> Body, w: World): World {
    if orders == [] then w else RunTicks(orders[1..], bodies, Run(orders[0], bodies, w))
  }

  /** Confluence of a run of any length, whatever order each tick takes. */
  lemma {:induction false} RunIsConfluent(phases: seq<Phase>, periods: map<string, nat>, g: Graph, tick: nat,
                                          a: seq<seq<Phase>>, b: seq<seq<Phase>>, bodies: Node -> Body, w: World)
    requires PhaseGraphOf(g, phases) && Acyclic(g) && ConflictsOrdered(phases, g)
    requires |a| == |b|
    requires TickSchedules(a, phases, periods, g, tick) && TickSchedules(b, phases, periods, g, tick)
    ensures RunTicks(a, bodies, w) == RunTicks(b, bodies, w)
    decreases |a|
  {
    if a != [] {
      var rates := set r | r in periods && periods[r] > 0 && tick % periods[r] == 0;
      assert Schedule(a[0], ReleasedAt(phases, periods, tick + 0), g);
      assert Schedule(b[0], ReleasedAt(phases, periods, tick + 0), g);
      TickIsConfluent(phases, g, rates, a[0], b[0], bodies, w);
      forall t | 0 <= t < |a| - 1
        ensures Schedule(a[1..][t], ReleasedAt(phases, periods, tick + 1 + t), g)
        ensures Schedule(b[1..][t], ReleasedAt(phases, periods, tick + 1 + t), g)
      {
        assert Schedule(a[t + 1], ReleasedAt(phases, periods, tick + (t + 1)), g);
        assert Schedule(b[t + 1], ReleasedAt(phases, periods, tick + (t + 1)), g);
      }
      RunIsConfluent(phases, periods, g, tick + 1, a[1..], b[1..], bodies, Run(a[0], bodies, w));
    }
  }

  // ---- Exactness: a rejected pair really can differ ----

  /** A node of a nonempty set that no other node of the set reaches. */
  lemma SourceOf(s: set<Phase>, g: Graph) returns (p: Phase)
    requires s != {} && WellFormed(g) && Acyclic(g)
    requires forall q :: q in s ==> q.id in g
    ensures p in s && forall q :: q in s ==> !Reaches(g, q.id, p.id)
  {
    p :| p in s;
    var rest := s - {p};
    while rest != {}
      invariant p in s && rest <= s
      invariant forall q :: q in s - rest ==> |Descendants(g, q.id)| <= |Descendants(g, p.id)|
      decreases rest
    {
      var q :| q in rest;
      if |Descendants(g, q.id)| > |Descendants(g, p.id)| { p := q; }
      rest := rest - {q};
    }
    assert s - rest == s;
    forall q | q in s ensures !Reaches(g, q.id, p.id) {
      if Reaches(g, q.id, p.id) {
        DescendantsGrowUpwards(g, q.id, p.id);
      }
    }
  }

  lemma DescendantsGrowUpwards(g: Graph, a: Node, b: Node)
    requires WellFormed(g) && Acyclic(g) && Reaches(g, a, b) && b in g
    ensures |Descendants(g, b)| < |Descendants(g, a)|
  {
    forall x | x in Descendants(g, b) ensures x in Descendants(g, a) {
      ReachesTransitive(g, a, b, x);
    }
    assert b in Descendants(g, a) && b !in Descendants(g, b);
    SubsetSize(Descendants(g, b), Descendants(g, a) - {b});
  }

  /** Every set of phases of an acyclic graph has an order that keeps reachability. */
  lemma {:induction false} TopologicalOrder(s: set<Phase>, g: Graph) returns (order: seq<Phase>)
    requires WellFormed(g) && Acyclic(g)
    requires forall q :: q in s ==> q.id in g
    requires forall p, q :: p in s && q in s && p.id == q.id ==> p == q
    ensures Enumerates(order, s) && KeepsReachability(order, g)
    decreases s
  {
    if s == {} {
      order := [];
    } else {
      var p := SourceOf(s, g);
      var rest := TopologicalOrder(s - {p}, g);
      order := [p] + rest;
      forall i, j | 0 <= i < j < |order|
        ensures order[i].id != order[j].id && !Reaches(g, order[j].id, order[i].id)
      {
        assert order[j] == rest[j - 1] && rest[j - 1] in rest;
        if i > 0 { assert order[i] == rest[i - 1]; }
      }
    }
  }

  /** Two orders may be joined when nothing in the second reaches the first. */
  lemma JoinOrders(a: seq<Phase>, s: set<Phase>, b: seq<Phase>, t: set<Phase>, g: Graph)
    requires Enumerates(a, s) && KeepsReachability(a, g)
    requires Enumerates(b, t) && KeepsReachability(b, g)
    requires forall p, q :: p in s && q in t ==> p.id != q.id && !Reaches(g, q.id, p.id)
    ensures Enumerates(a + b, s + t) && KeepsReachability(a + b, g)
  {
  }

  /** Phase q and everything it reaches. */
  ghost function Late(s: set<Phase>, g: Graph, q: Phase): set<Phase> {
    set x | x in s && (x == q || Reaches(g, q.id, x.id))
  }

  ghost predicate NodesOf(s: set<Phase>, g: Graph) {
    forall p :: p in s ==> p.id in g && forall q :: q in s && p.id == q.id ==> p == q
  }

  lemma ReleasedIds(phases: seq<Phase>, g: Graph, rates: set<string>)
    requires PhaseGraphOf(g, phases)
    ensures NodesOf(Released(phases, rates), g)
  {
  }

  lemma LateComesLast(s: set<Phase>, g: Graph, q: Phase, x: Phase, y: Phase)
    requires NodesOf(s, g) && q in s && x in s - Late(s, g, q) && y in Late(s, g, q)
    ensures x.id != y.id && !Reaches(g, y.id, x.id)
  {
    if y != q && Reaches(g, y.id, x.id) {
      ReachesTransitive(g, q.id, y.id, x.id);
    }
  }

  lemma OrderWithLast(s: set<Phase>, g: Graph, q: Phase) returns (first: seq<Phase>, last: seq<Phase>)
    requires NodesOf(s, g) && Acyclic(g) && WellFormed(g) && q in s
    ensures Enumerates(first, s - Late(s, g, q)) && Enumerates(last, Late(s, g, q))
    ensures Enumerates(first + last, s) && KeepsReachability(first + last, g)
  {
    var late := Late(s, g, q);
    first := TopologicalOrder(s - late, g);
    last := TopologicalOrder(late, g);
    forall x, y | x in s - late && y in late ensures x.id != y.id && !Reaches(g, y.id, x.id) {
      LateComesLast(s, g, q, x, y);
    }
    JoinOrders(first, s - late, last, late, g);
    assert (s - late) + late == s;
  }

  /** When q does not reach p there is a schedule that takes p first. */
  lemma ScheduleWithFirst(phases: seq<Phase>, g: Graph, rates: set<string>, p: Phase, q: Phase)
    returns (order: seq<Phase>, i: nat, j: nat)
    requires PhaseGraphOf(g, phases) && Acyclic(g)
    requires p in Released(phases, rates) && q in Released(phases, rates)
    requires p.id != q.id && !Reaches(g, q.id, p.id)
    ensures Schedule(order, Released(phases, rates), g)
    ensures i < j < |order| && order[i] == p && order[j] == q
  {
    var s := Released(phases, rates);
    ReleasedIds(phases, g, rates);
    var first, last := OrderWithLast(s, g, q);
    order := first + last;
    ReachabilityOrderIsSchedule(order, s, g);
    assert p in first && q in last;
    i :| 0 <= i < |first| && first[i] == p;
    var n :| 0 <= n < |last| && last[n] == q;
    j := |first| + n;
  }

  lemma ReachabilityOrderIsSchedule(order: seq<Phase>, s: set<Phase>, g: Graph)
    requires Enumerates(order, s) && KeepsReachability(order, g)
    ensures Schedule(order, s, g)
  {
    forall i, j | 0 <= i < j < |order| ensures !Edge(g, order[j].id, order[i].id) {
      if Edge(g, order[j].id, order[i].id) { EdgeReaches(g, order[j].id, order[i].id); }
    }
  }

  /** Bodies that tell which of two phases ran first: `writer` sets its cells to
      one, `reader` reports cell `r`, and every other effect keeps its cell. */
  function Probe(writer: Node, r: string): Node -> Body {
    (id: Node) => Body((view: map<string, int>, c: string) =>
                         if id == writer then 1 else if c in view then view[c] else 0,
                       (view: map<string, int>) => if r in view then view[r] else 0)
  }

  lemma {:induction false} ProbeReport(order: seq<Phase>, writer: Phase, reader: Phase, r: string, w: World)
    requires r in w.cells && r in writer.writes && Touches(reader, r)
    requires writer.id != reader.id
    requires forall p :: p in order && p.id == writer.id ==> p == writer
    requires forall p :: p in order && p.id == reader.id ==> p == reader
    requires forall a, b :: 0 <= a < b < |order| ==> order[a].id != order[b].id
    ensures reader !in order ==> LogOf(Run(order, Probe(writer.id, r), w), reader.id) == LogOf(w, reader.id)
    ensures forall i, j :: 0 <= i < |order| && 0 <= j < |order| && order[i] == writer && order[j] == reader ==>
              LogOf(Run(order, Probe(writer.id, r), w), reader.id)
              == LogOf(w, reader.id) + [if i < j then 1 else w.cells[r]]
    ensures writer !in order ==> forall j :: 0 <= j < |order| && order[j] == reader ==>
              LogOf(Run(order, Probe(writer.id, r), w), reader.id) == LogOf(w, reader.id) + [w.cells[r]]
    decreases |order|
  {
    if order != [] {
      var bodies := Probe(writer.id, r);
      var w1 := Exec(order[0], bodies(order[0].id), w);
      assert order[0] in order;
      assert w1.cells[r] == if order[0] == writer then 1 else w.cells[r];
      ProbeReport(order[1..], writer, reader, r, w1);
    }
  }

  ghost predicate Disagree(o1: seq<Phase>, o2: seq<Phase>, bodies: Node -> Body, w: World) {
    Run(o1, bodies, w) != Run(o2, bodies, w)
  }

  lemma ScheduledIdsAreDistinct(phases: seq<Phase>, g: Graph, rates: set<string>, order: seq<Phase>, p: Phase)
    requires PhaseGraphOf(g, phases) && Schedule(order, Released(phases, rates), g) && p in order
    ensures forall q :: q in order && q.id == p.id ==> q == p
    ensures forall a, b :: 0 <= a < b < |order| ==> order[a].id != order[b].id
  {
  }

  lemma ProbeSchedule(phases: seq<Phase>, g: Graph, rates: set<string>, writer: Phase, reader: Phase, r: string,
                      order: seq<Phase>, i: nat, j: nat, w: World)
    requires PhaseGraphOf(g, phases)
    requires Schedule(order, Released(phases, rates), g)
    requires r in writer.writes && Touches(reader, r) && writer.id != reader.id
    requires i < |order| && j < |order| && order[i] == writer && order[j] == reader
    requires r in w.cells && LogOf(w, reader.id) == []
    ensures LogOf(Run(order, Probe(writer.id, r), w), reader.id) == [if i < j then 1 else w.cells[r]]
  {
    ScheduledIdsAreDistinct(phases, g, rates, order, writer);
    ScheduledIdsAreDistinct(phases, g, rates, order, reader);
    ProbeReport(order, writer, reader, r, w);
  }

  /** An unordered conflicting pair has bodies and two schedules that differ. */
  lemma WriterAndReaderDiffer(phases: seq<Phase>, g: Graph, writer: Phase, reader: Phase, r: string)
    returns (rates: set<string>, o1: seq<Phase>, o2: seq<Phase>, bodies: Node -> Body, w: World)
    requires PhaseGraphOf(g, phases) && Acyclic(g)
    requires writer in phases && reader in phases && writer.id != reader.id
    requires !Ordered(g, writer, reader)
    requires r in writer.writes && Touches(reader, r)
    ensures Schedule(o1, Released(phases, rates), g) && Schedule(o2, Released(phases, rates), g)
    ensures Disagree(o1, o2, bodies, w)
  {
    rates := {writer.rate, reader.rate};
    var i1, j1, i2, j2;
    o1, i1, j1 := ScheduleWithFirst(phases, g, rates, writer, reader);
    o2, j2, i2 := ScheduleWithFirst(phases, g, rates, reader, writer);
    bodies := Probe(writer.id, r);
    w := World(map[r := 0], map[]);
    assert LogOf(w, reader.id) == [];
    ProbeSchedule(phases, g, rates, writer, reader, r, o1, i1, j1, w);
    ProbeSchedule(phases, g, rates, writer, reader, r, o2, i2, j2, w);
  }

  /** The conflict check is exact: it rejects exactly the phase graphs for which
      some phase bodies make two schedules of some tick end differently. */
  lemma RejectedConflictDiffers(phases: seq<Phase>, g: Graph)
    returns (rates: set<string>, o1: seq<Phase>, o2: seq<Phase>, bodies: Node -> Body, w: World)
    requires PhaseGraphOf(g, phases) && Acyclic(g) && !ConflictsOrdered(phases, g)
    ensures Schedule(o1, Released(phases, rates), g) && Schedule(o2, Released(phases, rates), g)
    ensures Disagree(o1, o2, bodies, w)
  {
    var i, j :| 0 <= i < j < |phases| && Conflict(phases[i], phases[j]) && !Ordered(g, phases[i], phases[j]);
    var p, q := phases[i], phases[j];
    if r :| r in p.writes && Touches(q, r) {
      rates, o1, o2, bodies, w := WriterAndReaderDiffer(phases, g, p, q, r);
    } else {
      var r :| r in q.writes && r in p.inputs;
      rates, o1, o2, bodies, w := WriterAndReaderDiffer(phases, g, q, p, r);
    }
  }

  ghost predicate Confluent(phases: seq<Phase>, g: Graph) {
    forall rates: set<string>, o1: seq<Phase>, o2: seq<Phase>, bodies: Node -> Body, w: World ::
      Schedule(o1, Released(phases, rates), g) && Schedule(o2, Released(phases, rates), g) ==>
        !Disagree(o1, o2, bodies, w)
  }

  lemma ConflictCheckIsExact(phases: seq<Phase>, g: Graph)
    requires PhaseGraphOf(g, phases) && Acyclic(g)
    ensures ConflictsOrdered(phases, g) <==> Confluent(phases, g)
  {
    if ConflictsOrdered(phases, g) {
      forall rates: set<string>, o1: seq<Phase>, o2: seq<Phase>, bodies: Node -> Body, w: World |
        Schedule(o1, Released(phases, rates), g) && Schedule(o2, Released(phases, rates), g)
        ensures !Disagree(o1, o2, bodies, w)
      {
        TickIsConfluent(phases, g, rates, o1, o2, bodies, w);
      }
    } else {
      var rates, o1, o2, bodies, w := RejectedConflictDiffers(phases, g);
    }
  }

  // ---- The checks together ----

  function RateMap(phases: seq<Phase>): (m: map<Node, string>)
    requires UniqueIds(phases)
    ensures m.Keys == set p | p in phases :: p.id
    ensures forall p :: p in phases ==> m[p.id] == p.rate
  {
    map p | p in phases :: p.id := p.rate
  }

  method HasUniqueIds(phases: seq<Phase>) returns (ok: bool)
    ensures ok <==> UniqueIds(phases)
  {
    var ids: set<Node> := {};
    for n := 0 to |phases|
      invariant UniqueIds(phases[..n])
      invariant ids == set p | p in phases[..n] :: p.id
    {
      var p := phases[n];
      assert phases[..n + 1] == phases[..n] + [p];
      if p.id in ids {
        var q :| q in phases[..n] && q.id == p.id;
        return false;
      }
      ids := ids + {p.id};
    }
    assert phases[..|phases|] == phases;
    ok := true;
  }

  /** The phase section of the validator: it accepts exactly the contracts whose
      edges are well formed and acyclic and whose ticks are confluent. */
  method ValidatePhases(phases: seq<Phase>, edges: seq<seq<Node>>) returns (ok: bool)
    ensures ok <==> phases != [] && UniqueIds(phases) && EdgesAccepted(edges, RateMap(phases))
                    && Acyclic(EdgeGraph(edges, RateMap(phases)))
                    && Confluent(phases, EdgeGraph(edges, RateMap(phases)))
  {
    var unique := HasUniqueIds(phases);
    if phases == [] || !unique {
      return false;
    }
    var rateOf := RateMap(phases);
    var built, g := BuildAdjacency(edges, rateOf);
    if !built {
      return false;
    }
    var acyclic := AcceptsPhases(g);
    if !acyclic {
      return false;
    }
    assert PhaseGraphOf(g, phases) by {
      forall p, q | p in phases && q in phases && Edge(g, p.id, q.id) ensures p.rate == q.rate {
        assert [p.id, q.id] in edges;
      }
    }
    ok := CheckConflicts(phases, g);
    ConflictCheckIsExact(phases, g);
  }
}
