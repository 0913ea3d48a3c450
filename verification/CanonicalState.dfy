/** Canonicalisation of a simulation image: timing and tuning data are blanked
    so that two runs with the same configuration give the same bytes. */
module CanonicalState {
  import opened Bytes
  import opened NumberTheory
  import opened SnapshotFile

  /** What a reader has left: the remaining bytes, or nothing after a failed read. */
  datatype Left = Good(bytes: Bytes) | Bad

  /** Widths of the scalars of an image: those before the phases, those of each
      phase, and those after the cost window. */
  datatype Layout = Layout(clock: seq<nat>, phase: seq<nat>, governor: seq<nat>)

  datatype PhaseImage = PhaseImage(samples: Vector, scalars: seq<nat>)

  datatype Image = Image(clock: seq<nat>, phases: seq<PhaseImage>, costWindow: Vector, governor: seq<nat>)

  predicate ScalarsFit(vs: seq<nat>, ws: seq<nat>) {
    |vs| == |ws| && forall i :: 0 <= i < |ws| ==> InWidth(vs[i], ws[i])
  }

  predicate InWidth(v: nat, w: nat) {
    v < Pow256(w)
  }

  predicate PhaseFits(p: PhaseImage, ws: seq<nat>) {
    Elements(p.samples, 8) && ScalarsFit(p.scalars, ws)
  }

  predicate PhasesFit(ps: seq<PhaseImage>, ws: seq<nat>) {
    PhasesShaped(ps, |ws|) && forall i :: 0 <= i < |ps| ==> PhaseFits(ps[i], ws)
  }

  predicate ImageFits(m: Image, layout: Layout) {
    && ScalarsFit(m.clock, layout.clock)
    && |m.phases| < Pow256(8) && PhasesFit(m.phases, layout.phase)
    && Elements(m.costWindow, 8) && ScalarsFit(m.governor, layout.governor)
  }

  predicate PhasesShaped(ps: seq<PhaseImage>, n: nat) {
    forall i :: 0 <= i < |ps| ==> |ps[i].scalars| == n
  }

  predicate ImageShaped(m: Image, layout: Layout) {
    |m.clock| == |layout.clock| && PhasesShaped(m.phases, |layout.phase|) && |m.governor| == |layout.governor|
  }

  // ---- Layout ----

  function EncodeScalars(vs: seq<nat>, ws: seq<nat>): Bytes
    requires |vs| == |ws|
  {
    if vs == [] then [] else Encode(vs[0], ws[0]) + EncodeScalars(vs[1..], ws[1..])
  }

  function EncodePhase(p: PhaseImage, ws: seq<nat>): Bytes
    requires |p.scalars| == |ws|
  {
    EncodeVector(p.samples, 8) + EncodeScalars(p.scalars, ws)
  }

  function EncodePhases(ps: seq<PhaseImage>, ws: seq<nat>): Bytes
    requires PhasesShaped(ps, |ws|)
  {
    if ps == [] then [] else EncodePhases(ps[..|ps| - 1], ws) + EncodePhase(ps[|ps| - 1], ws)
  }

  function EncodeImage(m: Image, layout: Layout): Bytes
    requires ImageShaped(m, layout)
  {
    EncodeScalars(m.clock, layout.clock) + (Encode(|m.phases|, 8)
      + (EncodePhases(m.phases, layout.phase)
      + (EncodeVector(m.costWindow, 8) + EncodeScalars(m.governor, layout.governor))))
  }

  // ---- Reading: a failed read gives zero and leaves nothing ----

  function TakeScalar(left: Left, w: nat): (nat, Left) {
    if left.Bad? || |left.bytes| < w then (0, Bad)
    else (Decode(left.bytes[..w]), Good(left.bytes[w..]))
  }

  function TakeVector(left: Left, w: nat): (Vector, Left)
    requires w > 0
  {
    var (n, rest) := TakeScalar(left, 8);
    if rest.Bad? || n > |rest.bytes| / w then ([], Bad)
    else
      CountFits(n, w, |rest.bytes|);
      (DecodeAll(rest.bytes, n, w), Good(rest.bytes[n * w..]))
  }

  lemma CountFits(n: nat, w: nat, max: nat)
    requires w > 0
    ensures n <= max / w <==> n * w <= max
  {
    var k := n - max / w;
    assert k * w == n * w - (max / w) * w;
    MultipleBounds(k, w);
    MultipleBounds(1 - k, w);
  }

  function TakeScalars(left: Left, ws: seq<nat>): (r: (seq<nat>, Left))
    ensures |r.0| == |ws|
    decreases |ws|
  {
    if ws == [] then ([], left)
    else
      var (v, rest) := TakeScalar(left, ws[0]);
      var (vs, last) := TakeScalars(rest, ws[1..]);
      ([v] + vs, last)
  }

  function TakePhase(left: Left, ws: seq<nat>): (r: (PhaseImage, Left))
    ensures |r.0.scalars| == |ws|
  {
    var (samples, rest) := TakeVector(left, 8);
    var (scalars, last) := TakeScalars(rest, ws);
    (PhaseImage(samples, scalars), last)
  }

  function TakePhases(left: Left, n: nat, ws: seq<nat>): (r: (seq<PhaseImage>, Left))
    ensures |r.0| == n && PhasesShaped(r.0, |ws|)
  {
    if n == 0 then ([], left)
    else
      var (ps, rest) := TakePhases(left, n - 1, ws);
      var (p, last) := TakePhase(rest, ws);
      (ps + [p], last)
  }

  function TakeImage(left: Left, layout: Layout): (r: (Image, Left))
    ensures ImageShaped(r.0, layout)
  {
    var (clock, l1) := TakeScalars(left, layout.clock);
    var (count, l2) := TakeScalar(l1, 8);
    var (phases, l3) := TakePhases(l2, count, layout.phase);
    var (costWindow, l4) := TakeVector(l3, 8);
    var (governor, l5) := TakeScalars(l4, layout.governor);
    (Image(clock, phases, costWindow, governor), l5)
  }

  // ---- Reading inverts the layout ----

  lemma ScalarBack(v: nat, w: nat, rest: Bytes)
    requires v < Pow256(w)
    ensures TakeScalar(Good(Encode(v, w) + rest), w) == (v, Good(rest))
  {
  }

  lemma ScalarSound(bs: Bytes, w: nat)
    requires TakeScalar(Good(bs), w).1.Good?
    ensures var (v, rest) := TakeScalar(Good(bs), w);
            v < Pow256(w) && bs == Encode(v, w) + rest.bytes
  {
    var head := bs[..w];
    assert |head| == w && bs == head + bs[w..];
    EncodeDecode(head);
  }

  lemma VectorBack(vs: Vector, w: nat, rest: Bytes)
    requires w > 0 && Elements(vs, w)
    ensures TakeVector(Good(EncodeVector(vs, w) + rest), w) == (vs, Good(rest))
  {
    var body := EncodeAll(vs, w) + rest;
    assert EncodeVector(vs, w) + rest == Encode(|vs|, 8) + body;
    ScalarBack(|vs|, 8, body);
    AllReadsBack(vs, w, rest);
    EncodeAllLength(vs, w);
    CountFits(|vs|, w, |body|);
    assert body[|vs| * w..] == rest;
  }

  lemma JoinVector(vs: Vector, w: nat, rest: Bytes)
    ensures Encode(|vs|, 8) + (EncodeAll(vs, w) + rest) == EncodeVector(vs, w) + rest
  {
  }

  lemma VectorSound(bs: Bytes, w: nat)
    requires w > 0 && TakeVector(Good(bs), w).1.Good?
    ensures var (vs, rest) := TakeVector(Good(bs), w);
            Elements(vs, w) && bs == EncodeVector(vs, w) + rest.bytes
  {
    var (n, rest) := TakeScalar(Good(bs), 8);
    ScalarSound(bs, 8);
    CountFits(n, w, |rest.bytes|);
    var vs, last := DecodeAll(rest.bytes, n, w), rest.bytes[n * w..];
    PayloadSound(rest.bytes, n, w, n * w, vs);
    JoinVector(vs, w, last);
  }

  lemma TakeScalarsCons(left: Left, ws: seq<nat>, v: nat, rest: Left, vs: seq<nat>, last: Left)
    requires ws != [] && TakeScalar(left, ws[0]) == (v, rest) && TakeScalars(rest, ws[1..]) == (vs, last)
    ensures TakeScalars(left, ws) == ([v] + vs, last)
  {
  }

  lemma EncodeScalarsCons(v: nat, vs: seq<nat>, ws: seq<nat>, rest: Bytes)
    requires |vs| + 1 == |ws|
    ensures EncodeScalars([v] + vs, ws) + rest == Encode(v, ws[0]) + (EncodeScalars(vs, ws[1..]) + rest)
  {
  }

  lemma {:induction false} ScalarsBack(vs: seq<nat>, ws: seq<nat>, rest: Bytes)
    requires ScalarsFit(vs, ws)
    ensures TakeScalars(Good(EncodeScalars(vs, ws) + rest), ws) == (vs, Good(rest))
  {
    if vs == [] {
      assert EncodeScalars(vs, ws) + rest == rest;
    } else {
      var v, others := vs[0], vs[1..];
      assert vs == [v] + others;
      assert InWidth(v, ws[0]);
      var tail := EncodeScalars(others, ws[1..]) + rest;
      EncodeScalarsCons(v, others, ws, rest);
      ScalarsBack(others, ws[1..], rest);
      ScalarBack(v, ws[0], tail);
      TakeScalarsCons(Good(Encode(v, ws[0]) + tail), ws, v, Good(tail), others, Good(rest));
    }
  }

  lemma {:induction false} ScalarsStayBad(ws: seq<nat>)
    ensures ws != [] ==> TakeScalars(Bad, ws).1 == Bad
  {
    if |ws| > 1 { ScalarsStayBad(ws[1..]); }
  }

  lemma ScalarsFitCons(v: nat, vs: seq<nat>, ws: seq<nat>)
    requires ws != [] && InWidth(v, ws[0]) && ScalarsFit(vs, ws[1..])
    ensures ScalarsFit([v] + vs, ws)
  {
  }

  lemma {:induction false} ScalarsSound(bs: Bytes, ws: seq<nat>)
    requires TakeScalars(Good(bs), ws).1.Good?
    ensures var r := TakeScalars(Good(bs), ws);
            ScalarsFit(r.0, ws) && bs == EncodeScalars(r.0, ws) + r.1.bytes
  {
    if ws != [] {
      var first := TakeScalar(Good(bs), ws[0]);
      ScalarsStayBad(ws[1..]);
      TakeScalarsCons(Good(bs), ws, first.0, first.1, TakeScalars(first.1, ws[1..]).0, TakeScalars(first.1, ws[1..]).1);
      var tail := first.1.bytes;
      ScalarSound(bs, ws[0]);
      ScalarsSound(tail, ws[1..]);
      var others := TakeScalars(Good(tail), ws[1..]);
      ScalarsFitCons(first.0, others.0, ws);
      EncodeScalarsCons(first.0, others.0, ws, others.1.bytes);
    }
  }

  lemma PhaseBack(p: PhaseImage, ws: seq<nat>, rest: Bytes)
    requires PhaseFits(p, ws)
    ensures TakePhase(Good(EncodePhase(p, ws) + rest), ws) == (p, Good(rest))
  {
    var tail := EncodeScalars(p.scalars, ws) + rest;
    assert EncodePhase(p, ws) + rest == EncodeVector(p.samples, 8) + tail;
    VectorBack(p.samples, 8, tail);
    ScalarsBack(p.scalars, ws, rest);
  }

  lemma BadStaysBad(ws: seq<nat>)
    ensures TakeScalars(Bad, ws).1 == Bad && TakePhase(Bad, ws).1 == Bad
  {
  }

  lemma PhaseSound(bs: Bytes, ws: seq<nat>)
    requires TakePhase(Good(bs), ws).1.Good?
    ensures var (p, rest) := TakePhase(Good(bs), ws);
            PhaseFits(p, ws) && bs == EncodePhase(p, ws) + rest.bytes
  {
    BadStaysBad(ws);
    var (samples, rest) := TakeVector(Good(bs), 8);
    VectorSound(bs, 8);
    ScalarsSound(rest.bytes, ws);
  }

  lemma LastPhase(ps: seq<PhaseImage>, p: PhaseImage, ws: seq<nat>, rest: Bytes)
    requires PhaseFits(p, ws) && PhasesFit(ps, ws)
    ensures PhasesFit(ps + [p], ws)
    ensures EncodePhases(ps + [p], ws) + rest == EncodePhases(ps, ws) + (EncodePhase(p, ws) + rest)
  {
    assert (ps + [p])[..|ps|] == ps;
  }

  lemma {:induction false} PhasesBack(ps: seq<PhaseImage>, ws: seq<nat>, rest: Bytes)
    requires PhasesFit(ps, ws)
    ensures TakePhases(Good(EncodePhases(ps, ws) + rest), |ps|, ws) == (ps, Good(rest))
    decreases |ps|
  {
    if ps == [] {
      assert EncodePhases(ps, ws) + rest == rest;
    } else {
      var others, p := ps[..|ps| - 1], ps[|ps| - 1];
      assert ps == others + [p];
      LastPhase(others, p, ws, rest);
      PhasesBack(others, ws, EncodePhase(p, ws) + rest);
      PhaseBack(p, ws, rest);
    }
  }

  lemma {:induction false} PhasesStayBad(n: nat, ws: seq<nat>)
    ensures TakePhases(Bad, n, ws).1 == Bad
  {
    if n > 0 {
      BadStaysBad(ws);
      PhasesStayBad(n - 1, ws);
    }
  }

  lemma JoinPhase(bs: Bytes, ps: seq<PhaseImage>, rest: Bytes, p: PhaseImage, last: Bytes, ws: seq<nat>)
    requires PhasesFit(ps, ws) && bs == EncodePhases(ps, ws) + rest
    requires PhaseFits(p, ws) && rest == EncodePhase(p, ws) + last
    ensures PhasesFit(ps + [p], ws) && bs == EncodePhases(ps + [p], ws) + last
  {
    LastPhase(ps, p, ws, last);
  }

  lemma TakePhasesSnoc(left: Left, n: nat, ws: seq<nat>, ps: seq<PhaseImage>, rest: Left, p: PhaseImage, last: Left)
    requires TakePhases(left, n, ws) == (ps, rest) && TakePhase(rest, ws) == (p, last)
    ensures TakePhases(left, n + 1, ws) == (ps + [p], last)
  {
  }

  lemma {:induction false} PhasesSound(bs: Bytes, n: nat, ws: seq<nat>)
    requires TakePhases(Good(bs), n, ws).1.Good?
    ensures var r := TakePhases(Good(bs), n, ws);
            PhasesFit(r.0, ws) && bs == EncodePhases(r.0, ws) + r.1.bytes
  {
    if n > 0 {
      var before := TakePhases(Good(bs), n - 1, ws);
      var step := TakePhase(before.1, ws);
      TakePhasesSnoc(Good(bs), n - 1, ws, before.0, before.1, step.0, step.1);
      BadStaysBad(ws);
      PhasesSound(bs, n - 1, ws);
      PhaseSound(before.1.bytes, ws);
      JoinPhase(bs, before.0, before.1.bytes, step.0, step.1.bytes, ws);
    }
  }

  /** An image reads back from its bytes. */
  lemma ImageBack(m: Image, layout: Layout)
    requires ImageFits(m, layout)
    ensures TakeImage(Good(EncodeImage(m, layout)), layout) == (m, Good([]))
  {
    var t4 := EncodeScalars(m.governor, layout.governor);
    var t3 := EncodeVector(m.costWindow, 8) + t4;
    var t2 := EncodePhases(m.phases, layout.phase) + t3;
    var t1 := Encode(|m.phases|, 8) + t2;
    ScalarsBack(m.clock, layout.clock, t1);
    ScalarBack(|m.phases|, 8, t2);
    PhasesBack(m.phases, layout.phase, t3);
    VectorBack(m.costWindow, 8, t4);
    assert t4 + [] == t4;
    ScalarsBack(m.governor, layout.governor, []);
  }

  /** Bytes that read without failure and to the end are an image. */
  lemma ImageSound(bs: Bytes, layout: Layout)
    requires TakeImage(Good(bs), layout).1 == Good([])
    ensures var m := TakeImage(Good(bs), layout).0;
            ImageFits(m, layout) && bs == EncodeImage(m, layout)
  {
    BadStaysBad(layout.governor);
    var (clock, l1) := TakeScalars(Good(bs), layout.clock);
    var (count, l2) := TakeScalar(l1, 8);
    var (phases, l3) := TakePhases(l2, count, layout.phase);
    PhasesStayBad(count, layout.phase);
    ScalarsSound(bs, layout.clock);
    ScalarSound(l1.bytes, 8);
    PhasesSound(l2.bytes, count, layout.phase);
    var (costWindow, l4) := TakeVector(l3, 8);
    VectorSound(l3.bytes, 8);
    ScalarsSound(l4.bytes, layout.governor);
    var (governor, l5) := TakeScalars(l4, layout.governor);
    assert EncodeScalars(governor, layout.governor) + [] == EncodeScalars(governor, layout.governor);
  }

  // ---- Canonical images ----

  function Zeros(n: nat): (z: seq<nat>)
    ensures |z| == n && forall i :: 0 <= i < n ==> z[i] == 0
  {
    seq(n, i => 0)
  }

  /** Element count and enabled flag stay, the tuning data is blanked. */
  function CanonScalars(vs: seq<nat>): (r: seq<nat>)
    ensures |r| == |vs| && forall i :: 0 <= i < |vs| ==> r[i] == if i < 2 then vs[i] else 0
  {
    seq(|vs|, i requires 0 <= i < |vs| => if i < 2 then vs[i] else 0)
  }

  function CanonPhase(p: PhaseImage): PhaseImage {
    PhaseImage([], CanonScalars(p.scalars))
  }

  function CanonPhases(ps: seq<PhaseImage>): (r: seq<PhaseImage>)
    ensures |r| == |ps| && forall i :: 0 <= i < |ps| ==> r[i] == CanonPhase(ps[i])
  {
    seq(|ps|, i requires 0 <= i < |ps| => CanonPhase(ps[i]))
  }

  function Canon(m: Image): Image {
    Image(m.clock, CanonPhases(m.phases), Zeros(|m.costWindow|), Zeros(|m.governor|))
  }

  function Canonical(raw: Bytes, layout: Layout): Result<Bytes> {
    if raw == [] then Ok(raw)
    else
      var (m, left) := TakeImage(Good(raw), layout);
      if left == Good([]) then Ok(EncodeImage(Canon(m), layout)) else Err
  }

  lemma CanonFits(m: Image, layout: Layout)
    requires ImageFits(m, layout)
    ensures ImageFits(Canon(m), layout) && Canon(Canon(m)) == Canon(m)
  {
    assert PhasesFit(CanonPhases(m.phases), layout.phase);
    CanonPhasesTwice(m.phases);
  }

  lemma CanonPhasesTwice(ps: seq<PhaseImage>)
    ensures CanonPhases(CanonPhases(ps)) == CanonPhases(ps)
  {
    forall i | 0 <= i < |ps| ensures CanonPhase(CanonPhase(ps[i])) == CanonPhase(ps[i]) {
      assert CanonScalars(CanonScalars(ps[i].scalars)) == CanonScalars(ps[i].scalars);
    }
  }

  lemma CanonicalOfImage(m: Image, layout: Layout)
    requires ImageFits(m, layout)
    ensures Canonical(EncodeImage(m, layout), layout) == Ok(EncodeImage(Canon(m), layout))
  {
    ImageBack(m, layout);
    assert |Encode(|m.phases|, 8)| == 8;
  }

  /** Exactly the empty state and the well-formed images are accepted. */
  lemma AcceptsExactlyImages(raw: Bytes, layout: Layout)
    ensures Canonical(raw, layout).Ok? <==>
            raw == [] || exists m :: ImageFits(m, layout) && raw == EncodeImage(m, layout)
  {
    if raw != [] && Canonical(raw, layout).Ok? {
      ImageSound(raw, layout);
    }
    if m :| ImageFits(m, layout) && raw == EncodeImage(m, layout) {
      CanonicalOfImage(m, layout);
    }
  }

  /** Canonicalising twice changes nothing more. */
  lemma CanonicalIsIdempotent(raw: Bytes, layout: Layout)
    requires Canonical(raw, layout).Ok?
    ensures Canonical(Canonical(raw, layout).value, layout) == Canonical(raw, layout)
  {
    if raw != [] {
      ImageSound(raw, layout);
      var m := TakeImage(Good(raw), layout).0;
      CanonFits(m, layout);
      CanonicalOfImage(Canon(m), layout);
    }
  }

  predicate SamePhase(p: PhaseImage, q: PhaseImage) {
    && |p.scalars| == |q.scalars|
    && forall i :: 0 <= i < |p.scalars| && i < 2 ==> p.scalars[i] == q.scalars[i]
  }

  predicate SameConfiguration(a: Image, b: Image) {
    && a.clock == b.clock
    && |a.phases| == |b.phases|
    && (forall i :: 0 <= i < |a.phases| ==> SamePhase(a.phases[i], b.phases[i]))
    && |a.costWindow| == |b.costWindow| && |a.governor| == |b.governor|
  }

  lemma CanonPhaseEqual(p: PhaseImage, q: PhaseImage)
    ensures CanonPhase(p) == CanonPhase(q) <==> SamePhase(p, q)
  {
  }

  lemma CanonEqual(a: Image, b: Image)
    ensures Canon(a) == Canon(b) <==> SameConfiguration(a, b)
  {
    forall i | 0 <= i < |a.phases| && i < |b.phases|
      ensures CanonPhases(a.phases)[i] == CanonPhases(b.phases)[i] <==> SamePhase(a.phases[i], b.phases[i])
    {
      CanonPhaseEqual(a.phases[i], b.phases[i]);
    }
    if Canon(a) == Canon(b) {
      assert |Zeros(|a.costWindow|)| == |Zeros(|b.costWindow|)| && |Zeros(|a.governor|)| == |Zeros(|b.governor|)|;
    }
    if SameConfiguration(a, b) {
      assert CanonPhases(a.phases) == CanonPhases(b.phases);
    }
  }

  lemma EncodeImageInjective(a: Image, b: Image, layout: Layout)
    requires ImageFits(a, layout) && ImageFits(b, layout)
    ensures EncodeImage(a, layout) == EncodeImage(b, layout) <==> a == b
  {
    ImageBack(a, layout);
    ImageBack(b, layout);
  }

  /** Two images become equal bytes exactly when they agree on frame, seed, step
      counts, phases with their element counts and enabled flags, and the length
      of the cost window. */
  lemma CanonicalKeepsConfiguration(a: Image, b: Image, layout: Layout)
    requires ImageFits(a, layout) && ImageFits(b, layout)
    ensures Canonical(EncodeImage(a, layout), layout) == Canonical(EncodeImage(b, layout), layout)
            <==> SameConfiguration(a, b)
  {
    CanonicalOfImage(a, layout);
    CanonicalOfImage(b, layout);
    CanonFits(a, layout);
    CanonFits(b, layout);
    EncodeImageInjective(Canon(a), Canon(b), layout);
    CanonEqual(a, b);
  }

  // ---- The reader and the transformation ----

  class Reader {
    const data: Bytes
    var offset: nat
    var valid: bool

    constructor (data: Bytes)
      ensures this.data == data && Valid() && Remaining() == Good(data)
    {
      this.data := data;
      offset, valid := 0, true;
    }

    ghost predicate Valid()
      reads this
    {
      offset <= |data| && (!valid ==> offset == |data|)
    }

    function Remaining(): Left
      requires Valid()
      reads this
    {
      if valid then Good(data[offset..]) else Bad
    }

    /** No read failed and nothing is left. */
    predicate Exhausted()
      requires Valid()
      reads this
      ensures Exhausted() <==> Remaining() == Good([])
    {
      assert offset == |data| <==> data[offset..] == [];
      valid && |data| - offset == 0
    }

    method Read(w: nat) returns (v: nat)
      requires Valid()
      modifies this
      ensures Valid() && (v, Remaining()) == TakeScalar(old(Remaining()), w)
    {
      if !valid || w > |data| - offset {
        v, offset, valid := 0, |data|, false;
        return;
      }
      assert data[offset..][..w] == data[offset..offset + w];
      v := Decode(data[offset..offset + w]);
      offset := offset + w;
    }

    method ReadVector(w: nat) returns (vs: Vector)
      requires Valid() && w > 0
      modifies this
      ensures Valid() && (vs, Remaining()) == TakeVector(old(Remaining()), w)
    {
      var n := Read(8);
      if !valid || n > (|data| - offset) / w {
        vs, offset, valid := [], |data|, false;
        return;
      }
      CountFits(n, w, |data| - offset);
      vs := DecodeAll(data[offset..], n, w);
      assert data[offset..][n * w..] == data[offset + n * w..];
      offset := offset + n * w;
    }
  }

  lemma {:induction false} TakeScalarsSnoc(left: Left, ws: seq<nat>, n: nat)
    requires n < |ws|
    ensures var (vs, rest) := TakeScalars(left, ws[..n]);
            var (v, last) := TakeScalar(rest, ws[n]);
            TakeScalars(left, ws[..n + 1]) == (vs + [v], last)
    decreases n
  {
    if n == 0 {
      assert ws[..1][1..] == [];
      var v := TakeScalar(left, ws[0]).0;
      assert [] + [v] == [v] + [];
    } else {
      var (v, rest) := TakeScalar(left, ws[0]);
      TakeScalarsSnoc(rest, ws[1..], n - 1);
      assert ws[..n + 1][1..] == ws[1..][..n] && ws[..n][1..] == ws[1..][..n - 1];
      var (vs, l) := TakeScalars(rest, ws[1..][..n - 1]);
      var u := TakeScalar(l, ws[n]).0;
      assert [v] + (vs + [u]) == ([v] + vs) + [u];
    }
  }

  lemma {:induction false} EncodeScalarsSnoc(vs: seq<nat>, ws: seq<nat>, n: nat)
    requires |vs| == |ws| && n < |ws|
    ensures EncodeScalars(vs[..n + 1], ws[..n + 1]) == EncodeScalars(vs[..n], ws[..n]) + Encode(vs[n], ws[n])
  {
    if n == 0 {
      EncodeScalarsFirst(vs, ws, 1);
      assert Encode(vs[0], ws[0]) + [] == [] + Encode(vs[0], ws[0]);
    } else {
      EncodeScalarsSnoc(vs[1..], ws[1..], n - 1);
      EncodeScalarsFirst(vs, ws, n);
      EncodeScalarsFirst(vs, ws, n + 1);
    }
  }

  lemma EncodeScalarsFirst(vs: seq<nat>, ws: seq<nat>, n: nat)
    requires |vs| == |ws| && 1 <= n <= |ws|
    ensures EncodeScalars(vs[..n], ws[..n]) == Encode(vs[0], ws[0]) + EncodeScalars(vs[1..][..n - 1], ws[1..][..n - 1])
  {
    assert vs[..n][1..] == vs[1..][..n - 1] && ws[..n][1..] == ws[1..][..n - 1];
  }

  method ReadScalars(reader: Reader, ws: seq<nat>) returns (vs: seq<nat>)
    requires reader.Valid()
    modifies reader
    ensures reader.Valid() && (vs, reader.Remaining()) == TakeScalars(old(reader.Remaining()), ws)
  {
    vs := [];
    for n := 0 to |ws|
      invariant reader.Valid() && (vs, reader.Remaining()) == TakeScalars(old(reader.Remaining()), ws[..n])
    {
      TakeScalarsSnoc(old(reader.Remaining()), ws, n);
      var v := reader.Read(ws[n]);
      vs := vs + [v];
    }
    assert ws[..|ws|] == ws;
  }

  method WriteScalars(writer: OutFile, vs: seq<nat>, ws: seq<nat>)
    requires |vs| == |ws|
    modifies writer
    ensures writer.data == old(writer.data) + EncodeScalars(vs, ws)
  {
    for n := 0 to |ws|
      invariant writer.data == old(writer.data) + EncodeScalars(vs[..n], ws[..n])
    {
      EncodeScalarsSnoc(vs, ws, n);
      writer.WriteScalar(vs[n], ws[n]);
    }
    assert ws[..|ws|] == ws && vs[..|vs|] == vs;
  }

  method ReadPhase(reader: Reader, ws: seq<nat>) returns (p: PhaseImage)
    requires reader.Valid()
    modifies reader
    ensures reader.Valid() && (p, reader.Remaining()) == TakePhase(old(reader.Remaining()), ws)
  {
    var samples := reader.ReadVector(8);
    var scalars := ReadScalars(reader, ws);
    p := PhaseImage(samples, scalars);
  }

  /** The phase without samples and with blank tuning data. */
  method WriteCanonicalPhase(writer: OutFile, p: PhaseImage, ws: seq<nat>) returns (ghost c: PhaseImage)
    requires |p.scalars| == |ws|
    modifies writer
    ensures c == CanonPhase(p) && writer.data == old(writer.data) + EncodePhase(c, ws)
  {
    c := CanonPhase(p);
    writer.WriteVector([], 8);
    WriteScalars(writer, CanonScalars(p.scalars), ws);
  }

  lemma OneMorePhase(before: Bytes, ps: seq<PhaseImage>, p: PhaseImage, ws: seq<nat>)
    requires PhasesShaped(ps, |ws|) && |p.scalars| == |ws|
    ensures before + EncodePhases(ps, ws) + EncodePhase(p, ws) == before + EncodePhases(ps + [p], ws)
  {
  }

  lemma CanonPhasesSnoc(ps: seq<PhaseImage>, p: PhaseImage)
    ensures CanonPhases(ps + [p]) == CanonPhases(ps) + [CanonPhase(p)]
  {
  }

  method CopyPhases(reader: Reader, writer: OutFile, count: nat, ws: seq<nat>)
    returns (ghost phases: seq<PhaseImage>, ghost canon: seq<PhaseImage>)
    requires reader.Valid()
    modifies reader, writer
    ensures reader.Valid() && (phases, reader.Remaining()) == TakePhases(old(reader.Remaining()), count, ws)
    ensures canon == CanonPhases(phases) && PhasesShaped(canon, |ws|)
    ensures writer.data == old(writer.data) + EncodePhases(canon, ws)
  {
    ghost var start, before := reader.Remaining(), writer.data;
    phases, canon := [], [];
    for i := 0 to count
      invariant reader.Valid() && (phases, reader.Remaining()) == TakePhases(start, i, ws)
      invariant canon == CanonPhases(phases) && PhasesShaped(canon, |ws|)
      invariant writer.data == before + EncodePhases(canon, ws)
    {
      ghost var rest := reader.Remaining();
      var p := ReadPhase(reader, ws);
      TakePhasesSnoc(start, i, ws, phases, rest, p, reader.Remaining());
      ghost var c := WriteCanonicalPhase(writer, p, ws);
      OneMorePhase(before, canon, c, ws);
      CanonPhasesSnoc(phases, p);
      phases, canon := phases + [p], canon + [c];
    }
  }

  lemma AssembleImage(raw: Bytes, layout: Layout, m: Image, l1: Left, l2: Left, l3: Left, l4: Left, l5: Left,
                      count: nat)
    requires (m.clock, l1) == TakeScalars(Good(raw), layout.clock)
    requires (count, l2) == TakeScalar(l1, 8)
    requires (m.phases, l3) == TakePhases(l2, count, layout.phase)
    requires (m.costWindow, l4) == TakeVector(l3, 8)
    requires (m.governor, l5) == TakeScalars(l4, layout.governor)
    ensures TakeImage(Good(raw), layout) == (m, l5)
  {
  }

  lemma AssembleBytes(m: Image, layout: Layout)
    requires ImageShaped(m, layout)
    ensures EncodeScalars(m.clock, layout.clock) + Encode(|m.phases|, 8) + EncodePhases(m.phases, layout.phase)
            + EncodeVector(m.costWindow, 8) + EncodeScalars(m.governor, layout.governor) == EncodeImage(m, layout)
  {
    Reassociate(EncodeScalars(m.clock, layout.clock), Encode(|m.phases|, 8), EncodePhases(m.phases, layout.phase),
                EncodeVector(m.costWindow, 8), EncodeScalars(m.governor, layout.governor));
  }

  lemma Reassociate(a: Bytes, b: Bytes, c: Bytes, d: Bytes, e: Bytes)
    ensures a + b + c + d + e == a + (b + (c + (d + e)))
  {
  }

  lemma CanonicalFrom(raw: Bytes, layout: Layout, m: Image, left: Left)
    requires raw != [] && TakeImage(Good(raw), layout) == (m, left)
    ensures ImageShaped(Canon(m), layout)
    ensures Canonical(raw, layout) == if left == Good([]) then Ok(EncodeImage(Canon(m), layout)) else Err
  {
  }

  /** The part after the phases, blanked. */
  method CopyTail(reader: Reader, writer: OutFile, ws: seq<nat>)
    returns (costWindow: Vector, governor: seq<nat>, ghost between: Left)
    requires reader.Valid()
    modifies reader, writer
    ensures reader.Valid()
    ensures (costWindow, between) == TakeVector(old(reader.Remaining()), 8)
    ensures (governor, reader.Remaining()) == TakeScalars(between, ws)
    ensures writer.data == old(writer.data) + EncodeVector(Zeros(|costWindow|), 8) + EncodeScalars(Zeros(|ws|), ws)
  {
    costWindow := reader.ReadVector(8);
    writer.WriteVector(Zeros(|costWindow|), 8);
    between := reader.Remaining();
    governor := ReadScalars(reader, ws);
    WriteScalars(writer, Zeros(|ws|), ws);
  }

  /** The part before the phases, kept. */
  method CopyHead(reader: Reader, writer: OutFile, ws: seq<nat>)
    returns (clock: seq<nat>, phaseCount: nat, ghost between: Left)
    requires reader.Valid() && writer.data == []
    modifies reader, writer
    ensures reader.Valid()
    ensures (clock, between) == TakeScalars(old(reader.Remaining()), ws)
    ensures (phaseCount, reader.Remaining()) == TakeScalar(between, 8)
    ensures writer.data == EncodeScalars(clock, ws) + Encode(phaseCount, 8)
  {
    clock := ReadScalars(reader, ws);
    WriteScalars(writer, clock, ws);
    assert writer.data == EncodeScalars(clock, ws);
    between := reader.Remaining();
    phaseCount := reader.Read(8);
    writer.WriteScalar(phaseCount, 8);
  }

  method Canonicalize(raw: Bytes, layout: Layout) returns (r: Result<Bytes>)
    ensures r == Canonical(raw, layout)
  {
    if raw == [] {
      return Ok(raw);
    }
    var reader := new Reader(raw);
    var writer := new OutFile();
    var clock, phaseCount, l1 := CopyHead(reader, writer, layout.clock);
    ghost var l2 := reader.Remaining();
    ghost var phases, canon := CopyPhases(reader, writer, phaseCount, layout.phase);
    ghost var l3 := reader.Remaining();
    var costWindow, governor, l4 := CopyTail(reader, writer, layout.governor);
    ghost var m := Image(clock, phases, costWindow, governor);
    AssembleImage(raw, layout, m, l1, l2, l3, l4, reader.Remaining(), phaseCount);
    CanonicalFrom(raw, layout, m, reader.Remaining());
    AssembleBytes(Image(clock, canon, Zeros(|costWindow|), Zeros(|layout.governor|)), layout);
    r := if reader.Exhausted() then Ok(writer.data) else Err;
  }
}
