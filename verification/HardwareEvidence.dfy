/** Hardware evidence: what its validator accepts. */
module HardwareEvidence {
  import Sets

  const MAX_MEASUREMENT_ITERATIONS: nat := 1_000_000

  /** A field of a JSON object: an integer, a string, or anything else, which
      includes a missing field and a boolean. */
  datatype Field = Int(i: int) | Text(s: string) | Unusable

  datatype Sample =
    | NotAnObject
    | Sample(iteration: Field, stage: Field, submitNs: Field, waitNs: Field, pollNs: Field, pollCount: Field)

  datatype Health =
    | NoHealth
    | Health(submissions: Field, completions: Field, timeouts: Field, errors: Field, losses: Field)

  datatype Evidence = Evidence(warmup: Field, measurement: Field, health: Health, samples: seq<Sample>)

  type Cell = (int, string)

  predicate AtLeast(f: Field, least: int) {
    f.Int? && f.i >= least
  }

  predicate IsCounter(f: Field, n: int) {
    f == Int(n)
  }

  // ---------------------------------------------------------------- what is promised

  /** The measured stages: every iteration with every label. */
  ghost function Cells(m: nat, labels: set<string>): set<Cell> {
    set i: int, l | 0 <= i < m && l in labels :: (i, l)
  }

  predicate InGrid(s: Sample, m: int, labels: set<string>) {
    && s.Sample? && AtLeast(s.iteration, 0) && s.iteration.i < m && s.stage.Text? && s.stage.s in labels
    && AtLeast(s.submitNs, 0) && AtLeast(s.waitNs, 0) && AtLeast(s.pollNs, 0) && AtLeast(s.pollCount, 1)
  }

  function CellOf(s: Sample): Cell
    requires s.Sample? && s.iteration.Int? && s.stage.Text?
  {
    (s.iteration.i, s.stage.s)
  }

  ghost predicate AllInGrid(samples: seq<Sample>, m: int, labels: set<string>) {
    forall i :: 0 <= i < |samples| ==> InGrid(samples[i], m, labels)
  }

  ghost predicate NamedBy(samples: seq<Sample>, i: int, c: Cell) {
    && 0 <= i < |samples| && samples[i].Sample? && samples[i].iteration.Int? && samples[i].stage.Text?
    && CellOf(samples[i]) == c
  }

  ghost predicate ExactlyOnce(samples: seq<Sample>, c: Cell) {
    && (exists i :: NamedBy(samples, i, c))
    && (forall i, j :: NamedBy(samples, i, c) && NamedBy(samples, j, c) ==> i == j)
  }

  /** The samples and the measured stages correspond one to one. */
  ghost predicate Covers(samples: seq<Sample>, m: nat, labels: set<string>) {
    && AllInGrid(samples, m, labels)
    && forall c :: c in Cells(m, labels) ==> ExactlyOnce(samples, c)
  }

  predicate HealthyCounts(h: Health, n: int) {
    && h.Health? && IsCounter(h.submissions, n) && IsCounter(h.completions, n)
    && IsCounter(h.timeouts, 0) && IsCounter(h.errors, 0) && IsCounter(h.losses, 0)
  }

  ghost predicate Accepted(e: Evidence, labels: set<string>) {
    && AtLeast(e.warmup, 1) && AtLeast(e.measurement, 1) && e.measurement.i <= 1_000_000
    && Covers(e.samples, e.measurement.i, labels)
    && HealthyCounts(e.health, (e.warmup.i + e.measurement.i) * |labels|)
  }

  // ---------------------------------------------------------------- counting cells

  ghost function Row(i: int, labels: set<string>): set<Cell> {
    set l | l in labels :: (i, l)
  }

  lemma {:induction false} RowSize(i: int, labels: set<string>)
    ensures |Row(i, labels)| == |labels|
  {
    if l :| l in labels {
      RowSize(i, labels - {l});
      assert Row(i, labels) == Row(i, labels - {l}) + {(i, l)};
    } else {
      assert labels == {} && Row(i, labels) == {};
    }
  }

  lemma {:induction false} CellCount(m: nat, labels: set<string>)
    ensures |Cells(m, labels)| == m * |labels|
  {
    if m == 0 {
      assert Cells(m, labels) == {};
    } else {
      CellCount(m - 1, labels);
      RowSize(m - 1, labels);
      assert Cells(m, labels) == Cells(m - 1, labels) + Row(m - 1, labels);
      assert Cells(m - 1, labels) !! Row(m - 1, labels);
      Sets.UnionSize(Cells(m - 1, labels), Row(m - 1, labels));
      MoreRows(m, |labels|);
    }
  }

  lemma MoreRows(m: int, n: int)
    ensures m * n == (m - 1) * n + n
  {}

  // ---------------------------------------------------------------- what the scan collects

  ghost predicate NoRepeats(samples: seq<Sample>) {
    forall i, j, c :: NamedBy(samples, i, c) && NamedBy(samples, j, c) ==> i == j
  }

  ghost predicate Named(samples: seq<Sample>, c: Cell) {
    exists i :: NamedBy(samples, i, c)
  }

  lemma NamedSnoc(samples: seq<Sample>, s: Sample, c: Cell)
    ensures Named(samples + [s], c) <==> Named(samples, c) || NamedBy([s], 0, c)
  {
    var all := samples + [s];
    if i :| NamedBy(samples, i, c) {
      assert NamedBy(all, i, c);
    }
    if NamedBy([s], 0, c) {
      assert NamedBy(all, |samples|, c);
    }
    if i :| NamedBy(all, i, c) {
      assert NamedBy(samples, i, c) || NamedBy([s], 0, c);
    }
  }

  lemma NoRepeatsSnoc(samples: seq<Sample>, s: Sample)
    ensures NoRepeats(samples + [s]) <==>
            NoRepeats(samples) && forall c :: NamedBy([s], 0, c) ==> !Named(samples, c)
  {
    var all, n := samples + [s], |samples|;
    if NoRepeats(all) {
      forall i, j, c | NamedBy(samples, i, c) && NamedBy(samples, j, c) ensures i == j {
        assert NamedBy(all, i, c) && NamedBy(all, j, c);
      }
      forall c | NamedBy([s], 0, c) ensures !Named(samples, c) {
        assert NamedBy(all, n, c);
        if i :| NamedBy(samples, i, c) {
          assert NamedBy(all, i, c);
        }
      }
    }
    if NoRepeats(samples) && forall c :: NamedBy([s], 0, c) ==> !Named(samples, c) {
      forall i, j, c | NamedBy(all, i, c) && NamedBy(all, j, c) ensures i == j {
        assert i < n ==> NamedBy(samples, i, c);
        assert j < n ==> NamedBy(samples, j, c);
        assert (i == n || j == n) ==> NamedBy([s], 0, c);
      }
    }
  }

  /** Pigeonhole: distinct samples in the grid, as many as there are cells, name
      every cell; and a one-to-one cover has that many distinct cells. */
  lemma CoverIsCounting(samples: seq<Sample>, seen: set<Cell>, m: nat, labels: set<string>)
    requires forall c :: c in seen <==> Named(samples, c)
    ensures Covers(samples, m, labels) <==>
            AllInGrid(samples, m, labels) && NoRepeats(samples) && |seen| == m * |labels|
  {
    var cells := Cells(m, labels);
    CellCount(m, labels);
    if AllInGrid(samples, m, labels) {
      forall c | c in seen ensures c in cells {
        var i :| NamedBy(samples, i, c);
        assert InGrid(samples[i], m, labels);
      }
      if NoRepeats(samples) && |seen| == m * |labels| {
        SameSizeSubset(seen, cells);
      }
      if Covers(samples, m, labels) {
        forall c | c in cells ensures c in seen {
          assert ExactlyOnce(samples, c);
        }
        assert seen == cells;
        forall i, j, c | NamedBy(samples, i, c) && NamedBy(samples, j, c) ensures i == j {
          assert Named(samples, c);
          assert ExactlyOnce(samples, c);
        }
      }
    }
  }

  lemma SameSizeSubset(a: set<Cell>, b: set<Cell>)
    requires a <= b && |a| == |b|
    ensures a == b
  {
    Sets.UnionSize(a, b - a);
    assert a + (b - a) == b;
  }

  lemma {:induction false} NoRepeatsCount(samples: seq<Sample>, seen: set<Cell>, m: nat, labels: set<string>)
    requires AllInGrid(samples, m, labels) && NoRepeats(samples)
    requires forall c :: c in seen <==> Named(samples, c)
    ensures |seen| == |samples|
    decreases |samples|
  {
    if samples == [] {
      if c :| c in seen {
        assert Named(samples, c);
      }
    } else {
      var n := |samples| - 1;
      var init, s := samples[..n], samples[n];
      assert samples == init + [s];
      assert InGrid(s, m, labels);
      NoRepeatsSnoc(init, s);
      var c := CellOf(s);
      assert NamedBy([s], 0, c);
      NamedSnoc(init, s, c);
      forall d ensures d in seen - {c} <==> Named(init, d) {
        NamedSnoc(init, s, d);
      }
      NoRepeatsCount(init, seen - {c}, m, labels);
    }
  }

  // ---------------------------------------------------------------- the validator

  method ScanSamples(samples: seq<Sample>, m: int, labels: set<string>) returns (errors: nat, seen: set<Cell>)
    ensures errors == 0 <==> AllInGrid(samples, m, labels) && NoRepeats(samples)
    ensures forall c :: c in seen <==> Named(samples, c)
  {
    errors, seen := 0, {};
    for n := 0 to |samples|
      invariant errors == 0 <==> AllInGrid(samples[..n], m, labels) && NoRepeats(samples[..n])
      invariant forall c :: c in seen <==> Named(samples[..n], c)
    {
      var e, named := ScanOne(samples[n], m, labels, seen);
      assert samples[..n + 1] == samples[..n] + [samples[n]];
      ScanStep(samples[..n], samples[n], m, labels, seen, named);
      errors, seen := errors + e, seen + named;
    }
    assert samples[..|samples|] == samples;
  }

  ghost predicate IsNamed(s: Sample, named: set<Cell>) {
    named == if s.Sample? && s.iteration.Int? && s.stage.Text? then {CellOf(s)} else {}
  }

  lemma ScanStep(init: seq<Sample>, s: Sample, m: int, labels: set<string>, seen: set<Cell>, named: set<Cell>)
    requires forall c :: c in seen <==> Named(init, c)
    requires IsNamed(s, named)
    ensures AllInGrid(init + [s], m, labels) && NoRepeats(init + [s]) <==>
            AllInGrid(init, m, labels) && NoRepeats(init) && InGrid(s, m, labels) && seen !! named
    ensures forall c :: c in seen + named <==> Named(init + [s], c)
  {
    var all := init + [s];
    NoRepeatsSnoc(init, s);
    forall c ensures NamedBy([s], 0, c) <==> c in named {}
    forall c ensures c in seen + named <==> Named(all, c) {
      NamedSnoc(init, s, c);
    }
    assert AllInGrid(all, m, labels) <==> AllInGrid(init, m, labels) && InGrid(s, m, labels) by {
      assert forall i :: 0 <= i < |init| ==> all[i] == init[i];
      assert all[|init|] == s;
    }
  }

  method ScanOne(s: Sample, m: int, labels: set<string>, seen: set<Cell>) returns (errors: nat, named: set<Cell>)
    ensures IsNamed(s, named)
    ensures errors == 0 <==> InGrid(s, m, labels) && seen !! named
  {
    errors, named := 0, {};
    if s.NotAnObject? {
      return 1, {};
    }
    if !s.iteration.Int? || s.iteration.i < 0 || s.iteration.i >= m {
      errors := errors + 1;
    }
    if !s.stage.Text? || s.stage.s !in labels {
      errors := errors + 1;
    }
    if s.iteration.Int? && s.stage.Text? {
      if CellOf(s) in seen {
        errors := errors + 1;
      }
      named := {CellOf(s)};
    }
    if !AtLeast(s.submitNs, 0) { errors := errors + 1; }
    if !AtLeast(s.waitNs, 0) { errors := errors + 1; }
    if !AtLeast(s.pollNs, 0) { errors := errors + 1; }
    if !AtLeast(s.pollCount, 1) { errors := errors + 1; }
  }

  method CheckHealth(h: Health) returns (errors: nat)
    ensures errors == 0 <==>
      && h.Health? && AtLeast(h.submissions, 0) && AtLeast(h.completions, 0)
      && IsCounter(h.timeouts, 0) && IsCounter(h.errors, 0) && IsCounter(h.losses, 0)
  {
    if h.NoHealth? {
      return 1;
    }
    errors := 0;
    var fields := [h.submissions, h.completions, h.timeouts, h.errors, h.losses];
    for k := 0 to 5
      invariant errors == 0 <==> forall i :: 0 <= i < k ==> AtLeast(fields[i], 0)
    {
      if !AtLeast(fields[k], 0) {
        errors := errors + 1;
      }
    }
    assert errors == 0 <==> AtLeast(fields[0], 0) && AtLeast(fields[1], 0) && AtLeast(fields[2], 0)
                            && AtLeast(fields[3], 0) && AtLeast(fields[4], 0);
    if AtLeast(h.timeouts, 0) && h.timeouts.i != 0 { errors := errors + 1; }
    if AtLeast(h.errors, 0) && h.errors.i != 0 { errors := errors + 1; }
    if AtLeast(h.losses, 0) && h.losses.i != 0 { errors := errors + 1; }
  }

  lemma CoverNeedsSamples(samples: seq<Sample>, m: nat, labels: set<string>)
    requires Covers(samples, m, labels) && m >= 1 && labels != {}
    ensures samples != []
  {
    var l :| l in labels;
    assert (0, l) in Cells(m, labels);
    assert ExactlyOnce(samples, (0, l));
  }

  /** No error is reported exactly when every measured stage has its one sample and
      the health counters account for warmup and measurement. */
  method ValidateEvidence(e: Evidence, labels: set<string>) returns (errors: nat)
    requires labels != {}
    ensures errors == 0 <==> Accepted(e, labels)
  {
    errors := 0;
    if !AtLeast(e.warmup, 1) {
      errors := errors + 1;
    }
    if !AtLeast(e.measurement, 1) || e.measurement.i > MAX_MEASUREMENT_ITERATIONS {
      errors := errors + 1;
    }
    var h := CheckHealth(e.health);
    errors := errors + h;
    if e.samples == [] {
      if AtLeast(e.measurement, 1) && Covers(e.samples, e.measurement.i, labels) {
        CoverNeedsSamples(e.samples, e.measurement.i, labels);
      }
      return errors + 1;
    }
    if !AtLeast(e.measurement, 1) {
      return;
    }
    var m := e.measurement.i;
    var expected := m * |labels|;
    var scan, seen := ScanSamples(e.samples, m, labels);
    CoverIsCounting(e.samples, seen, m, labels);
    if AllInGrid(e.samples, m, labels) && NoRepeats(e.samples) {
      NoRepeatsCount(e.samples, seen, m, labels);
    }
    errors := errors + scan;
    if |e.samples| != expected {
      errors := errors + 1;
    }
    if |seen| != expected {
      errors := errors + 1;
    }
    var c := CheckSubmissions(e, m, |labels|);
    errors := errors + c;
  }

  method CheckSubmissions(e: Evidence, m: int, width: nat) returns (errors: nat)
    ensures errors == 0 <==> e.warmup.Int? ==>
      && e.health.Health?
      && e.health.submissions == e.health.completions == Int((e.warmup.i + m) * width)
      && (e.warmup.i + m) * width >= 0
  {
    errors := 0;
    if e.warmup.Int? {
      var expected := (e.warmup.i + m) * width;
      if e.health.NoHealth? || !AtLeast(e.health.submissions, 0) || e.health.submissions.i != expected {
        errors := errors + 1;
      }
      if e.health.NoHealth? || !AtLeast(e.health.completions, 0) || e.health.completions.i != expected {
        errors := errors + 1;
      }
    }
  }
}
