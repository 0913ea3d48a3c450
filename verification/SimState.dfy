/** The simulation state of the demo, field by field, and what canonicalisation does to it. */
module SimState {
  import opened Bytes
  import opened CanonicalState
  import opened SnapshotFile

  datatype PhaseState = PhaseState(samples: Vector, elemCount: nat, enabled: nat, chunk: nat, totalChunks: nat,
                                   chunkSkew: nat, chunkCusum: nat, pinned: nat)

  /** Doubles are kept as their 64-bit patterns. */
  datatype State = State(frame: nat, rngSeed: nat, subSteps: nat, preSteps: nat, phases: seq<PhaseState>,
                         costWindow: Vector, costHead: nat, costCount: nat, costSum: nat, primed: nat, rung: nat,
                         bursts: nat, extraSteps: nat, recoveredMs: nat, precoveredMs: nat)

  predicate Octet(v: nat) {
    v < 256
  }

  predicate Word(v: nat) {
    v < 0x1_0000_0000_0000_0000
  }

  predicate PhaseInRange(p: PhaseState) {
    && Words(p.samples) && Word(p.elemCount) && Octet(p.enabled) && Word(p.chunk) && Word(p.totalChunks)
    && Word(p.chunkSkew) && Word(p.chunkCusum) && Octet(p.pinned)
  }

  predicate InRange(s: State) {
    && Word(s.frame) && Word(s.rngSeed) && Word(s.subSteps) && Word(s.preSteps)
    && Word(|s.phases|) && (forall i :: 0 <= i < |s.phases| ==> PhaseInRange(s.phases[i]))
    && Words(s.costWindow) && Word(s.costHead) && Word(s.costCount) && Word(s.costSum) && Octet(s.primed)
    && Word(s.rung) && Word(s.bursts) && Word(s.extraSteps) && Word(s.recoveredMs) && Word(s.precoveredMs)
  }

  // ---- The bytes of a state ----

  function ClockBytes(s: State): Bytes {
    Encode(s.frame, 8) + Encode(s.rngSeed, 8) + Encode(s.subSteps, 8) + Encode(s.preSteps, 8)
  }

  function TuningBytes(p: PhaseState): Bytes {
    Encode(p.elemCount, 8) + Encode(p.enabled, 1) + Encode(p.chunk, 8) + Encode(p.totalChunks, 8)
    + Encode(p.chunkSkew, 8) + Encode(p.chunkCusum, 8) + Encode(p.pinned, 1)
  }

  function PhasesBytes(ps: seq<PhaseState>): Bytes {
    if ps == [] then []
    else
      var p := ps[|ps| - 1];
      PhasesBytes(ps[..|ps| - 1]) + (EncodeVector(p.samples, 8) + TuningBytes(p))
  }

  function GovernorBytes(s: State): Bytes {
    Encode(s.costHead, 8) + Encode(s.costCount, 8) + Encode(s.costSum, 8) + Encode(s.primed, 1) + Encode(s.rung, 8)
    + Encode(s.bursts, 8) + Encode(s.extraSteps, 8) + Encode(s.recoveredMs, 8) + Encode(s.precoveredMs, 8)
  }

  function StateBytes(s: State): Bytes {
    ClockBytes(s) + Encode(|s.phases|, 8) + PhasesBytes(s.phases) + EncodeVector(s.costWindow, 8) + GovernorBytes(s)
  }

  // ---- The state with its timing and tuning data blanked ----

  function BlankedPhase(p: PhaseState): PhaseState {
    PhaseState([], p.elemCount, p.enabled, 0, 0, 0, 0, 0)
  }

  function BlankedPhases(ps: seq<PhaseState>): (r: seq<PhaseState>)
    ensures |r| == |ps| && forall i :: 0 <= i < |ps| ==> r[i] == BlankedPhase(ps[i])
  {
    seq(|ps|, i requires 0 <= i < |ps| => BlankedPhase(ps[i]))
  }

  function Blanked(s: State): State {
    State(s.frame, s.rngSeed, s.subSteps, s.preSteps, BlankedPhases(s.phases), Zeros(|s.costWindow|),
          0, 0, 0, 0, 0, 0, 0, 0, 0)
  }

  // ---- The state as an image ----

  const SimLayout := Layout([8, 8, 8, 8], [8, 1, 8, 8, 8, 8, 1], [8, 8, 8, 1, 8, 8, 8, 8, 8])

  function PhaseImageOf(p: PhaseState): PhaseImage {
    PhaseImage(p.samples, [p.elemCount, p.enabled, p.chunk, p.totalChunks, p.chunkSkew, p.chunkCusum, p.pinned])
  }

  function PhaseImagesOf(ps: seq<PhaseState>): (r: seq<PhaseImage>)
    ensures |r| == |ps| && forall i :: 0 <= i < |ps| ==> r[i] == PhaseImageOf(ps[i])
  {
    seq(|ps|, i requires 0 <= i < |ps| => PhaseImageOf(ps[i]))
  }

  function ImageOf(s: State): (m: Image)
    ensures ImageShaped(m, SimLayout)
  {
    Image([s.frame, s.rngSeed, s.subSteps, s.preSteps], PhaseImagesOf(s.phases), s.costWindow,
          [s.costHead, s.costCount, s.costSum, s.primed, s.rung, s.bursts, s.extraSteps, s.recoveredMs, s.precoveredMs])
  }

  function PhaseOf(p: PhaseImage): PhaseState
    requires |p.scalars| == 7
  {
    var v := p.scalars;
    PhaseState(p.samples, v[0], v[1], v[2], v[3], v[4], v[5], v[6])
  }

  function PhasesOf(ps: seq<PhaseImage>): (r: seq<PhaseState>)
    requires PhasesShaped(ps, 7)
    ensures |r| == |ps| && forall i :: 0 <= i < |ps| ==> r[i] == PhaseOf(ps[i])
  {
    seq(|ps|, i requires 0 <= i < |ps| => PhaseOf(ps[i]))
  }

  function StateOf(m: Image): State
    requires ImageShaped(m, SimLayout)
  {
    var c, g := m.clock, m.governor;
    State(c[0], c[1], c[2], c[3], PhasesOf(m.phases), m.costWindow,
          g[0], g[1], g[2], g[3], g[4], g[5], g[6], g[7], g[8])
  }

  lemma PhaseOfImage(p: PhaseImage)
    requires |p.scalars| == 7
    ensures PhaseImageOf(PhaseOf(p)) == p
  {
  }

  /** Every image of the layout is the image of a state. */
  lemma StateOfImage(m: Image)
    requires ImageShaped(m, SimLayout)
    ensures ImageOf(StateOf(m)) == m
  {
    var s := StateOf(m);
    forall i | 0 <= i < |m.phases| ensures PhaseImagesOf(s.phases)[i] == m.phases[i] {
      PhaseOfImage(m.phases[i]);
    }
    assert PhaseImagesOf(s.phases) == m.phases;
    assert ImageOf(s).clock == m.clock && ImageOf(s).governor == m.governor;
  }

  lemma WidthIsRange(v: nat)
    ensures InWidth(v, 1) <==> Octet(v)
    ensures InWidth(v, 8) <==> Word(v)
  {
    Powers();
  }

  lemma WidthsAreRanges()
    ensures forall v: nat :: InWidth(v, 1) <==> Octet(v)
    ensures forall v: nat :: InWidth(v, 8) <==> Word(v)
  {
    forall v: nat ensures (InWidth(v, 1) <==> Octet(v)) && (InWidth(v, 8) <==> Word(v)) {
      WidthIsRange(v);
    }
  }

  lemma PhaseFitsInRange(p: PhaseState)
    ensures PhaseFits(PhaseImageOf(p), [8, 1, 8, 8, 8, 8, 1]) <==> PhaseInRange(p)
  {
    ElementsOf(p.samples);
    WidthsAreRanges();
    var vs, ws := PhaseImageOf(p).scalars, [8, 1, 8, 8, 8, 8, 1];
    SevenFit(vs, ws);
  }

  lemma SevenFit(vs: seq<nat>, ws: seq<nat>)
    requires |vs| == |ws| == 7
    ensures ScalarsFit(vs, ws) <==>
            && InWidth(vs[0], ws[0]) && InWidth(vs[1], ws[1]) && InWidth(vs[2], ws[2]) && InWidth(vs[3], ws[3])
            && InWidth(vs[4], ws[4]) && InWidth(vs[5], ws[5]) && InWidth(vs[6], ws[6])
  {
  }

  lemma NineFit(vs: seq<nat>, ws: seq<nat>)
    requires |vs| == |ws| == 9
    ensures ScalarsFit(vs, ws) <==>
            && InWidth(vs[0], ws[0]) && InWidth(vs[1], ws[1]) && InWidth(vs[2], ws[2]) && InWidth(vs[3], ws[3])
            && InWidth(vs[4], ws[4]) && InWidth(vs[5], ws[5]) && InWidth(vs[6], ws[6]) && InWidth(vs[7], ws[7])
            && InWidth(vs[8], ws[8])
  {
  }

  lemma FourFit(vs: seq<nat>, ws: seq<nat>)
    requires |vs| == |ws| == 4
    ensures ScalarsFit(vs, ws) <==>
            InWidth(vs[0], ws[0]) && InWidth(vs[1], ws[1]) && InWidth(vs[2], ws[2]) && InWidth(vs[3], ws[3])
  {
  }

  lemma PhasesFitInRange(ps: seq<PhaseState>)
    ensures PhasesFit(PhaseImagesOf(ps), [8, 1, 8, 8, 8, 8, 1])
            <==> forall i :: 0 <= i < |ps| ==> PhaseInRange(ps[i])
  {
    var ms := PhaseImagesOf(ps);
    forall i | 0 <= i < |ps| ensures PhaseFits(ms[i], [8, 1, 8, 8, 8, 8, 1]) <==> PhaseInRange(ps[i]) {
      PhaseFitsInRange(ps[i]);
    }
  }

  lemma ImageFitsInRange(s: State)
    ensures ImageFits(ImageOf(s), SimLayout) <==> InRange(s)
  {
    Powers();
    PhasesFitInRange(s.phases);
    ElementsOf(s.costWindow);
    WidthsAreRanges();
    FourFit(ImageOf(s).clock, SimLayout.clock);
    NineFit(ImageOf(s).governor, SimLayout.governor);
  }

  // ---- The image and the state have the same bytes ----

  lemma TwoScalars(vs: seq<nat>, ws: seq<nat>)
    requires |vs| == |ws| && |vs| >= 2
    ensures EncodeScalars(vs[..2], ws[..2]) == Encode(vs[0], ws[0]) + Encode(vs[1], ws[1])
  {
    EncodeScalarsSnoc(vs, ws, 0);
    EncodeScalarsSnoc(vs, ws, 1);
    assert [] + Encode(vs[0], ws[0]) == Encode(vs[0], ws[0]);
  }

  lemma FourScalars(vs: seq<nat>, ws: seq<nat>)
    requires |vs| == |ws| == 4
    ensures EncodeScalars(vs, ws)
         == Encode(vs[0], ws[0]) + Encode(vs[1], ws[1]) + Encode(vs[2], ws[2]) + Encode(vs[3], ws[3])
  {
    TwoScalars(vs, ws);
    EncodeScalarsSnoc(vs, ws, 2);
    EncodeScalarsSnoc(vs, ws, 3);
    assert vs[..4] == vs && ws[..4] == ws;
  }

  lemma SevenScalars(vs: seq<nat>, ws: seq<nat>)
    requires |vs| == |ws| == 7
    ensures EncodeScalars(vs, ws)
         == Encode(vs[0], ws[0]) + Encode(vs[1], ws[1]) + Encode(vs[2], ws[2]) + Encode(vs[3], ws[3])
            + Encode(vs[4], ws[4]) + Encode(vs[5], ws[5]) + Encode(vs[6], ws[6])
  {
    FourScalars(vs[..4], ws[..4]);
    EncodeScalarsSnoc(vs, ws, 4);
    EncodeScalarsSnoc(vs, ws, 5);
    EncodeScalarsSnoc(vs, ws, 6);
    assert vs[..7] == vs && ws[..7] == ws;
  }

  lemma NineScalars(vs: seq<nat>, ws: seq<nat>)
    requires |vs| == |ws| == 9
    ensures EncodeScalars(vs, ws)
         == Encode(vs[0], ws[0]) + Encode(vs[1], ws[1]) + Encode(vs[2], ws[2]) + Encode(vs[3], ws[3])
            + Encode(vs[4], ws[4]) + Encode(vs[5], ws[5]) + Encode(vs[6], ws[6]) + Encode(vs[7], ws[7])
            + Encode(vs[8], ws[8])
  {
    SevenScalars(vs[..7], ws[..7]);
    EncodeScalarsSnoc(vs, ws, 7);
    EncodeScalarsSnoc(vs, ws, 8);
    assert vs[..9] == vs && ws[..9] == ws;
  }

  lemma PhaseImageBytes(p: PhaseState)
    ensures EncodePhase(PhaseImageOf(p), [8, 1, 8, 8, 8, 8, 1]) == EncodeVector(p.samples, 8) + TuningBytes(p)
  {
    SevenScalars(PhaseImageOf(p).scalars, [8, 1, 8, 8, 8, 8, 1]);
  }

  lemma {:induction false} PhaseImagesBytes(ps: seq<PhaseState>)
    ensures EncodePhases(PhaseImagesOf(ps), [8, 1, 8, 8, 8, 8, 1]) == PhasesBytes(ps)
    decreases |ps|
  {
    if ps != [] {
      var rest := ps[..|ps| - 1];
      PhaseImagesBytes(rest);
      PhaseImageBytes(ps[|ps| - 1]);
      assert PhaseImagesOf(ps)[..|ps| - 1] == PhaseImagesOf(rest);
    }
  }

  lemma ImageBytes(s: State)
    ensures EncodeImage(ImageOf(s), SimLayout) == StateBytes(s)
  {
    FourScalars(ImageOf(s).clock, SimLayout.clock);
    PhaseImagesBytes(s.phases);
    NineScalars(ImageOf(s).governor, SimLayout.governor);
    Reassociate(ClockBytes(s), Encode(|s.phases|, 8), PhasesBytes(s.phases), EncodeVector(s.costWindow, 8),
                GovernorBytes(s));
  }

  lemma BlankedImage(s: State)
    ensures Canon(ImageOf(s)) == ImageOf(Blanked(s))
  {
    var m, b := Canon(ImageOf(s)), ImageOf(Blanked(s));
    forall i | 0 <= i < |s.phases| ensures m.phases[i] == b.phases[i] {
      assert CanonScalars(PhaseImageOf(s.phases[i]).scalars) == PhaseImageOf(BlankedPhase(s.phases[i])).scalars;
    }
    assert m.phases == b.phases;
    assert m.governor == b.governor;
  }

  // ---- Canonicalisation ----

  /** The bytes of a state become the bytes of the state with exactly the samples, the tuning
      data and the governor blanked. */
  lemma StateIsBlanked(s: State)
    requires InRange(s)
    ensures Canonical(StateBytes(s), SimLayout) == Ok(StateBytes(Blanked(s)))
  {
    ImageFitsInRange(s);
    ImageBytes(s);
    CanonicalOfImage(ImageOf(s), SimLayout);
    BlankedImage(s);
    ImageBytes(Blanked(s));
  }

  /** Nothing else is accepted but the empty state. */
  lemma AcceptedIsState(raw: Bytes) returns (s: State)
    requires raw != [] && Canonical(raw, SimLayout).Ok?
    ensures InRange(s) && raw == StateBytes(s)
  {
    ImageSound(raw, SimLayout);
    var m := TakeImage(Good(raw), SimLayout).0;
    s := StateOf(m);
    StateOfImage(m);
    ImageFitsInRange(s);
    ImageBytes(s);
  }

  predicate SameSetup(p: PhaseState, q: PhaseState) {
    p.elemCount == q.elemCount && p.enabled == q.enabled
  }

  lemma SameImages(a: State, b: State)
    ensures SameConfiguration(ImageOf(a), ImageOf(b)) <==>
            && a.frame == b.frame && a.rngSeed == b.rngSeed && a.subSteps == b.subSteps && a.preSteps == b.preSteps
            && |a.phases| == |b.phases| && (forall i :: 0 <= i < |a.phases| ==> SameSetup(a.phases[i], b.phases[i]))
            && |a.costWindow| == |b.costWindow|
  {
    var m, n := ImageOf(a), ImageOf(b);
    assert m.clock[0] == a.frame && m.clock[1] == a.rngSeed && m.clock[2] == a.subSteps && m.clock[3] == a.preSteps;
    assert n.clock[0] == b.frame && n.clock[1] == b.rngSeed && n.clock[2] == b.subSteps && n.clock[3] == b.preSteps;
    if |a.phases| == |b.phases| {
      forall i | 0 <= i < |a.phases|
        ensures SamePhase(m.phases[i], n.phases[i]) <==> SameSetup(a.phases[i], b.phases[i])
      {
        SamePhases(a.phases[i], b.phases[i]);
      }
    }
  }

  lemma SamePhases(p: PhaseState, q: PhaseState)
    ensures SamePhase(PhaseImageOf(p), PhaseImageOf(q)) <==> SameSetup(p, q)
  {
    var v, w := PhaseImageOf(p).scalars, PhaseImageOf(q).scalars;
    assert v[0] == p.elemCount && v[1] == p.enabled && w[0] == q.elemCount && w[1] == q.enabled;
  }

  /** Two states give the same bytes exactly when they agree on frame, seed, step counts,
      phases with their element counts and enabled flags, and the length of the cost window. */
  lemma SameBytesSameSetup(a: State, b: State)
    requires InRange(a) && InRange(b)
    ensures Canonical(StateBytes(a), SimLayout) == Canonical(StateBytes(b), SimLayout) <==>
            && a.frame == b.frame && a.rngSeed == b.rngSeed && a.subSteps == b.subSteps && a.preSteps == b.preSteps
            && |a.phases| == |b.phases| && (forall i :: 0 <= i < |a.phases| ==> SameSetup(a.phases[i], b.phases[i]))
            && |a.costWindow| == |b.costWindow|
  {
    SameImages(a, b);
    SameBytes(a, b, ImageOf(a), ImageOf(b));
  }

  lemma SameBytes(a: State, b: State, m: Image, n: Image)
    requires InRange(a) && InRange(b) && m == ImageOf(a) && n == ImageOf(b)
    ensures Canonical(StateBytes(a), SimLayout) == Canonical(StateBytes(b), SimLayout) <==> SameConfiguration(m, n)
  {
    ImageFitsInRange(a);
    ImageFitsInRange(b);
    ImageBytes(a);
    ImageBytes(b);
    CanonicalKeepsConfiguration(m, n, SimLayout);
  }

  /** The transformation as the demo uses it. */
  method CanonicalizeSimState(raw: Bytes) returns (r: Result<Bytes>)
    ensures r.Ok? <==> raw == [] || exists s :: InRange(s) && raw == StateBytes(s)
    ensures raw == [] ==> r == Ok([])
    ensures forall s :: InRange(s) && raw == StateBytes(s) ==> r == Ok(StateBytes(Blanked(s)))
    ensures r == Canonical(raw, SimLayout)
  {
    r := Canonicalize(raw, SimLayout);
    forall s | InRange(s) && raw == StateBytes(s) ensures r == Ok(StateBytes(Blanked(s))) {
      StateIsBlanked(s);
    }
    if raw != [] && r.Ok? {
      ghost var s := AcceptedIsState(raw);
    }
  }
}
