/** The arithmetic envelope of the golden vehicle: how far position and velocity
    can get in n ticks, and the closed form of a run of constant acceleration. */
module Envelope {

  datatype Motion = Motion(x: int, v: int)

  function Abs(z: int): nat {
    if z < 0 then -z else z
  }

  /** One tick: the velocity moves first, the position with the new velocity. */
  function Step(m: Motion, a: int): Motion {
    Motion(m.x + (m.v + a), m.v + a)
  }

  function Iterate(m: Motion, acc: seq<int>): Motion {
    if acc == [] then m else Step(Iterate(m, acc[..|acc| - 1]), acc[|acc| - 1])
  }

  lemma IterateSnoc(m: Motion, acc: seq<int>, a: int)
    ensures Iterate(m, acc + [a]) == Step(Iterate(m, acc), a)
  {
  }

  lemma {:induction false} IterateJoin(m: Motion, p: seq<int>, q: seq<int>)
    ensures Iterate(m, p + q) == Iterate(Iterate(m, p), q)
    decreases |q|
  {
    if q == [] {
      assert p + q == p;
    } else {
      var q', a := q[..|q| - 1], q[|q| - 1];
      assert p + q == (p + q') + [a] && q == q' + [a];
      IterateJoin(m, p, q');
      IterateSnoc(m, p + q', a);
      IterateSnoc(Iterate(m, p), q', a);
    }
  }

  // ---------------------------------------------------------------- weighted sums

  function Sum(acc: seq<int>): int {
    if acc == [] then 0 else acc[0] + Sum(acc[1..])
  }

  /** The sum of (|acc| - i) * acc[i]. */
  function Weighted(acc: seq<int>): int {
    if acc == [] then 0 else |acc| * acc[0] + Weighted(acc[1..])
  }

  lemma {:induction false} SumsSnoc(acc: seq<int>, a: int)
    ensures Sum(acc + [a]) == Sum(acc) + a
    ensures Weighted(acc + [a]) == Weighted(acc) + Sum(acc) + a
  {
    if acc != [] {
      assert (acc + [a])[1..] == acc[1..] + [a];
      SumsSnoc(acc[1..], a);
      Distribute(|acc|, acc[0]);
    }
  }

  lemma Distribute(n: int, a: int)
    ensures (n + 1) * a == n * a + a
  {}

  /** Iterating is the weighted sum: an early acceleration counts for every later tick. */
  lemma {:induction false} IterationIsWeightedSum(m: Motion, acc: seq<int>)
    ensures Iterate(m, acc).v == m.v + Sum(acc)
    ensures Iterate(m, acc).x == m.x + |acc| * m.v + Weighted(acc)
    decreases |acc|
  {
    if acc != [] {
      var acc', a := acc[..|acc| - 1], acc[|acc| - 1];
      assert acc == acc' + [a];
      IterationIsWeightedSum(m, acc');
      SumsSnoc(acc', a);
      Distribute(|acc'|, m.v);
    }
  }

  // ---------------------------------------------------------------- segments

  function Constant(n: nat, a: int): seq<int> {
    seq(n, _ => a)
  }

  /** The closed form of n ticks of constant acceleration. */
  function Advance(m: Motion, n: nat, a: int): Motion {
    Motion(m.x + n * m.v + (a * n * (n + 1)) / 2, m.v + n * a)
  }

  lemma Triangle(n: nat, a: int)
    ensures (a * (n + 1) * (n + 2)) / 2 == (a * n * (n + 1)) / 2 + a * (n + 1)
  {
  }

  lemma {:induction false} SegmentIsIteration(m: Motion, n: nat, a: int)
    ensures Advance(m, n, a) == Iterate(m, Constant(n, a))
  {
    if n == 0 {
      assert Constant(n, a) == [];
    } else {
      assert Constant(n, a) == Constant(n - 1, a) + [a];
      SegmentIsIteration(m, n - 1, a);
      IterateSnoc(m, Constant(n - 1, a), a);
      Triangle(n - 1, a);
      Distribute(n - 1, m.v);
      Distribute(n - 1, a);
      assert a * n == n * a;
    }
  }

  datatype Segment = Segment(length: nat, acceleration: int)

  function Expand(segments: seq<Segment>): seq<int> {
    if segments == [] then []
    else Expand(segments[..|segments| - 1])
         + Constant(segments[|segments| - 1].length, segments[|segments| - 1].acceleration)
  }

  /** The piecewise oracle: jumping segment by segment lands where the tick by tick
      iteration does, and both are the weighted sum over the listed accelerations. */
  method RunSegments(m: Motion, segments: seq<Segment>) returns (r: Motion, acc: seq<int>)
    ensures acc == Expand(segments)
    ensures r == Iterate(m, acc)
    ensures r == Motion(m.x + |acc| * m.v + Weighted(acc), m.v + Sum(acc))
  {
    r, acc := m, [];
    for i := 0 to |segments|
      invariant acc == Expand(segments[..i])
      invariant r == Iterate(m, acc)
    {
      var s := segments[i];
      assert segments[..i + 1][..i] == segments[..i];
      SegmentIsIteration(r, s.length, s.acceleration);
      IterateJoin(m, acc, Constant(s.length, s.acceleration));
      r := Advance(r, s.length, s.acceleration);
      acc := acc + Constant(s.length, s.acceleration);
    }
    assert segments[..|segments|] == segments;
    IterationIsWeightedSum(m, acc);
  }

  // ---------------------------------------------------------------- the envelope

  predicate Bounded(acc: seq<int>, amax: nat) {
    forall i :: 0 <= i < |acc| ==> Abs(acc[i]) <= amax
  }

  function XMax(x0: nat, v0: nat, amax: nat, n: nat): int {
    x0 + n * v0 + (amax * n * (n + 1)) / 2
  }

  function VMax(v0: nat, amax: nat, n: nat): int {
    v0 + n * amax
  }

  lemma NextBound(x0: nat, v0: nat, amax: nat, n: nat)
    ensures VMax(v0, amax, n + 1) == VMax(v0, amax, n) + amax
    ensures XMax(x0, v0, amax, n + 1) == XMax(x0, v0, amax, n) + VMax(v0, amax, n + 1)
    ensures VMax(v0, amax, n + 1) >= 0
  {
  }

  lemma {:induction false} WithinBounds(m: Motion, acc: seq<int>, x0: nat, v0: nat, amax: nat)
    requires Abs(m.x) <= x0 && Abs(m.v) <= v0 && Bounded(acc, amax)
    ensures Abs(Iterate(m, acc).x) <= XMax(x0, v0, amax, |acc|)
    ensures Abs(Iterate(m, acc).v) <= VMax(v0, amax, |acc|)
    decreases |acc|
  {
    if acc != [] {
      var acc', a := acc[..|acc| - 1], acc[|acc| - 1];
      assert acc == acc' + [a];
      WithinBounds(m, acc', x0, v0, amax);
      NextBound(x0, v0, amax, |acc'|);
    }
  }

  lemma {:induction false} BoundsGrow(x0: nat, v0: nat, amax: nat, k: nat, n: nat)
    requires k <= n
    ensures XMax(x0, v0, amax, k) <= XMax(x0, v0, amax, n)
    ensures VMax(v0, amax, k) <= VMax(v0, amax, n)
    decreases n
  {
    if k < n {
      BoundsGrow(x0, v0, amax, k, n - 1);
      NextBound(x0, v0, amax, n - 1);
    }
  }

  ghost predicate Encloses(x0: nat, v0: nat, amax: nat, n: nat, xmax: int, vmax: int) {
    forall m: Motion, acc: seq<int> ::
      Abs(m.x) <= x0 && Abs(m.v) <= v0 && |acc| <= n && Bounded(acc, amax) ==>
        Abs(Iterate(m, acc).x) <= xmax && Abs(Iterate(m, acc).v) <= vmax
  }

  ghost predicate Attained(x0: nat, v0: nat, amax: nat, n: nat, target: Motion) {
    exists m: Motion, acc: seq<int> ::
      Abs(m.x) <= x0 && Abs(m.v) <= v0 && |acc| <= n && Bounded(acc, amax) && Iterate(m, acc) == target
  }

  /** No start and no acceleration within the limits leaves the envelope at any tick,
      and both of its corners are reached. */
  ghost predicate Tight(x0: nat, v0: nat, amax: nat, n: nat, xmax: int, vmax: int) {
    && Encloses(x0, v0, amax, n, xmax, vmax)
    && Attained(x0, v0, amax, n, Motion(xmax, vmax))
    && Attained(x0, v0, amax, n, Motion(-xmax, -vmax))
  }

  lemma BoundsEnclose(x0: nat, v0: nat, amax: nat, n: nat)
    ensures Encloses(x0, v0, amax, n, XMax(x0, v0, amax, n), VMax(v0, amax, n))
  {
    forall m: Motion, acc: seq<int> | Abs(m.x) <= x0 && Abs(m.v) <= v0 && |acc| <= n && Bounded(acc, amax)
      ensures Abs(Iterate(m, acc).x) <= XMax(x0, v0, amax, n) && Abs(Iterate(m, acc).v) <= VMax(v0, amax, n)
    {
      WithinBounds(m, acc, x0, v0, amax);
      BoundsGrow(x0, v0, amax, |acc|, n);
    }
  }

  method Repeat(m: Motion, n: nat, a: int) returns (p: Motion)
    ensures p == Iterate(m, Constant(n, a))
  {
    var px, pv := m.x, m.v;
    for i := 0 to n
      invariant Motion(px, pv) == Iterate(m, Constant(i, a))
    {
      assert Constant(i + 1, a) == Constant(i, a) + [a];
      IterateSnoc(m, Constant(i, a), a);
      pv := pv + a;
      px := px + pv;
    }
    p := Motion(px, pv);
  }

  /** The path of constant extreme acceleration, tick by tick, ends in a corner. */
  method ExtremalPath(up: bool, x0: nat, v0: nat, amax: nat, n: nat) returns (p: Motion)
    ensures Attained(x0, v0, amax, n, p)
    ensures p == if up then Motion(XMax(x0, v0, amax, n), VMax(v0, amax, n))
                 else Motion(-XMax(x0, v0, amax, n), -VMax(v0, amax, n))
  {
    if up {
      p := Repeat(Motion(x0, v0), n, amax);
      SegmentIsIteration(Motion(x0, v0), n, amax);
      ConstantAttains(x0, v0, amax, n, Motion(x0, v0), amax);
    } else {
      p := Repeat(Motion(0 - x0, 0 - v0), n, 0 - amax);
      SegmentIsIteration(Motion(0 - x0, 0 - v0), n, 0 - amax);
      ConstantAttains(x0, v0, amax, n, Motion(0 - x0, 0 - v0), 0 - amax);
      Mirror(v0, amax, n);
    }
  }

  lemma ConstantAttains(x0: nat, v0: nat, amax: nat, n: nat, m: Motion, a: int)
    requires Abs(m.x) <= x0 && Abs(m.v) <= v0 && Abs(a) <= amax
    ensures Attained(x0, v0, amax, n, Iterate(m, Constant(n, a)))
  {
    assert Bounded(Constant(n, a), amax);
  }

  lemma {:induction false} Mirror(v0: int, a: int, n: nat)
    ensures n * -v0 == -(n * v0) && n * -a == -(n * a)
    ensures (-a * n * (n + 1)) / 2 == -((a * n * (n + 1)) / 2)
  {
    if n > 0 {
      Mirror(v0, a, n - 1);
      Triangle(n - 1, a);
      Triangle(n - 1, -a);
    }
  }

  lemma TightIsUnique(x0: nat, v0: nat, amax: nat, n: nat, p: int, q: int, xmax: int, vmax: int)
    requires Tight(x0, v0, amax, n, p, q) && Tight(x0, v0, amax, n, xmax, vmax)
    ensures p == xmax && q == vmax
  {
  }

  datatype Field = Field(initial: int, maximum: int)

  predicate WellBounded(f: Field) {
    0 <= f.initial <= f.maximum < 0x8000_0000
  }

  /** The envelope part of the contract check: the stored maxima are accepted exactly
      when they are the tight envelope; the extremal and the segment cross-checks are
      consequences and never reject on their own. */
  method CheckEnvelope(x: Field, v: Field, a: Field, n: int) returns (ok: bool)
    ensures ok <==>
      && WellBounded(x) && WellBounded(v) && WellBounded(a) && 1 <= n <= 1024 && a.maximum == 4
      && Tight(x.initial, v.initial, a.maximum, n, x.maximum, v.maximum)
  {
    if !(WellBounded(x) && WellBounded(v) && WellBounded(a)) || !(1 <= n <= 1024) {
      return false;
    }
    var xmax, vmax := XMax(x.initial, v.initial, a.maximum, n), VMax(v.initial, a.maximum, n);
    var up := ExtremalPath(true, x.initial, v.initial, a.maximum, n);
    var down := ExtremalPath(false, x.initial, v.initial, a.maximum, n);
    BoundsEnclose(x.initial, v.initial, a.maximum, n);
    assert Tight(x.initial, v.initial, a.maximum, n, xmax, vmax);
    if !(xmax == x.maximum && vmax == v.maximum && a.maximum == 4) {
      if Tight(x.initial, v.initial, a.maximum, n, x.maximum, v.maximum) {
        TightIsUnique(x.initial, v.initial, a.maximum, n, xmax, vmax, x.maximum, v.maximum);
      }
      return false;
    }
    if up != Motion(xmax, vmax) || down != Motion(-xmax, -vmax) {
      return false;
    }
    var segments := if n >= 11 then [Segment(1, -4), Segment(3, 4), Segment(7, -1), Segment(n - 11, 2)]
                    else [Segment(n, -4)];
    var r, acc := RunSegments(Motion(17, -9), segments);
    LengthOfOracle(n);
    return r == Motion(17 + n * -9 + Weighted(acc), -9 + Sum(acc));
  }

  lemma ExpandSnoc(segments: seq<Segment>, k: nat)
    requires k < |segments|
    ensures |Expand(segments[..k + 1])| == |Expand(segments[..k])| + segments[k].length
  {
    assert segments[..k + 1][..k] == segments[..k];
  }

  lemma LengthOfOracle(n: int)
    requires 1 <= n
    ensures |Expand(if n >= 11 then [Segment(1, -4), Segment(3, 4), Segment(7, -1), Segment(n - 11, 2)]
                    else [Segment(n, -4)])| == n
  {
    var s := if n >= 11 then [Segment(1, -4), Segment(3, 4), Segment(7, -1), Segment(n - 11, 2)] else [Segment(n, -4)];
    assert s[..0] == [] && s[..|s|] == s;
    ExpandSnoc(s, 0);
    if n >= 11 {
      ExpandSnoc(s, 1);
      ExpandSnoc(s, 2);
      ExpandSnoc(s, 3);
    }
  }
}
