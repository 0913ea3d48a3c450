/** Sample timelines of a benchmark bundle and nearest-rank percentiles. */
module NearestRank {
  import opened OrderStatistics

  // ---------------------------------------------------------------- percentiles

  /** The position of percentile p among n sorted samples, as the bundle checker
      computes it with exact integers. */
  function Index(n: nat, p: nat): int {
    (n * p + 99) / 100 - 1
  }

  const WORD: nat := 0x1_0000_0000_0000_0000

  /** The same position as the profile demo computes it with 64-bit unsigned numbers. */
  function WordIndex(n: nat, p: nat): int {
    var rank := ((n * p + 99) % WORD) / 100;
    if rank == 0 then 0 else rank - 1
  }

  lemma Ceiling(product: nat)
    ensures 100 * ((product + 99) / 100 - 1) < product <= 100 * ((product + 99) / 100)
  {}

  lemma IndexInRange(n: nat, p: nat)
    requires 1 <= n && 1 <= p <= 100
    ensures 0 <= Index(n, p) < n
  {
    SmallProduct(n, p, n);
    Ceiling(n * p);
    assert n * p >= 1;
  }

  const FRAME_PERIOD: nat := 1_000_000
  const MAXIMUM_FRAMES: nat := 3_600_000

  /** How many frames the profile demo runs for a duration in nanoseconds, a 64-bit
      number; zero where it refuses the duration. */
  function FrameCount(duration: nat): (frames: nat)
    ensures frames <= MAXIMUM_FRAMES
  {
    var frames := ((duration + FRAME_PERIOD - 1) % WORD) / FRAME_PERIOD;
    if frames == 0 || frames > MAXIMUM_FRAMES then 0 else frames
  }

  /** The frames are the periods that a duration begins, when there are at most an hour of them. */
  lemma FrameCountIsCeiling(duration: nat, frames: nat)
    requires duration <= 0x7FFF_FFFF_FFFF_FFFF && frames > 0
    ensures FrameCount(duration) == frames <==>
            frames <= 3_600_000 && (frames - 1) * 1_000_000 < duration <= frames * 1_000_000
  {
    assert (duration + 999_999) % WORD == duration + 999_999;
  }

  lemma SmallProduct(n: nat, p: nat, max: nat)
    requires n <= max && p <= 100
    ensures n * p <= max * 100
  {
  }

  /** On every number of frames that the demo can run, its 64-bit position is the
      position of the bundle checker, and one of the samples. */
  lemma IndexesAgree(duration: nat, p: nat)
    requires FrameCount(duration) > 0 && 1 <= p <= 100
    ensures WordIndex(FrameCount(duration), p) == Index(FrameCount(duration), p)
    ensures 0 <= Index(FrameCount(duration), p) < FrameCount(duration)
  {
    var n := FrameCount(duration);
    SmallProduct(n, p, MAXIMUM_FRAMES);
    IndexInRange(n, p);
    assert (n * p + 99) % WORD == n * p + 99;
  }

  function Percentile(s: seq<real>, p: nat): real
    requires s != [] && 1 <= p <= 100
  {
    IndexInRange(|s|, p);
    Sort(s)[Index(|s|, p)]
  }

  /** The nearest rank is the least sample with at least p percent of the samples at
      or below it; below it there are fewer than p percent. */
  lemma PercentileIsLeast(s: seq<real>, p: nat, y: real)
    requires s != [] && 1 <= p <= 100
    ensures Percentile(s, p) in s
    ensures 100 * Under(s, Percentile(s, p), false) >= |s| * p
    ensures Percentile(s, p) <= y <==> 100 * Under(s, y, false) >= |s| * p
  {
    var t, k := Sort(s), Index(|s|, p);
    IndexInRange(|s|, p);
    Ceiling(|s| * p);
    UnderSort(s, t[k], false);
    UnderSort(s, y, false);
    UnderAt(t, t[k], false, k);
    UnderAt(t, y, false, k);
    SortPermutes(s);
    assert t[k] in multiset(t);
  }

  lemma IndexGrows(n: nat, p: nat, q: nat)
    requires p <= q
    ensures Index(n, p) <= Index(n, q)
  {
    assert n * p <= n * q;
  }

  lemma SortedAt(s: seq<real>, i: nat, j: nat)
    requires i <= j < |s|
    ensures Sort(s)[i] <= Sort(s)[j]
  {}

  lemma PercentilesAreOrdered(s: seq<real>, p: nat, q: nat)
    requires s != [] && 1 <= p <= q <= 100
    ensures Sort(s)[0] <= Percentile(s, p) <= Percentile(s, q) <= Sort(s)[|s| - 1]
  {
    var n := |s|;
    IndexInRange(n, p);
    IndexInRange(n, q);
    IndexGrows(n, p, q);
    SortedAt(s, 0, Index(n, p));
    SortedAt(s, Index(n, p), Index(n, q));
    SortedAt(s, Index(n, q), n - 1);
  }

  // ---------------------------------------------------------------- the timeline

  const MAX_INT: nat := 0x7FFF_FFFF_FFFF_FFFF

  datatype Sample = Sample(index: int, start: int, end: int, duration: int)

  /** The ranges that the schema of a sample has already enforced. */
  predicate InSchema(s: Sample) {
    && 0 <= s.index <= 0x7FFF_FFFF_FFFF_FFFF && 0 <= s.start <= 0x7FFF_FFFF_FFFF_FFFF
    && 0 <= s.end <= 0x7FFF_FFFF_FFFF_FFFF && 0 <= s.duration <= 0x7FFF_FFFF_FFFF_FFFF
  }

  predicate Consistent(s: Sample, n: nat) {
    s.index == n && s.start <= s.end && s.duration == s.end - s.start
  }

  /** Numbered in order, and no two samples overlap. */
  ghost predicate Timeline(samples: seq<Sample>) {
    && (forall i :: 0 <= i < |samples| ==> Consistent(samples[i], i))
    && (forall i, j :: 0 <= i < j < |samples| ==> samples[i].end <= samples[j].start)
  }

  function Total(durations: seq<int>): int {
    if durations == [] then 0 else Total(durations[..|durations| - 1]) + durations[|durations| - 1]
  }

  function Durations(samples: seq<Sample>): (d: seq<int>)
    ensures |d| == |samples|
  {
    seq(|samples|, i requires 0 <= i < |samples| => samples[i].duration)
  }

  lemma DurationsSnoc(samples: seq<Sample>, n: nat)
    requires n < |samples|
    ensures Durations(samples[..n + 1]) == Durations(samples[..n]) + [samples[n].duration]
    ensures Total(Durations(samples[..n + 1])) == Total(Durations(samples[..n])) + samples[n].duration
  {
    var d := Durations(samples[..n + 1]);
    assert d == Durations(samples[..n]) + [samples[n].duration];
    assert d[..n] == Durations(samples[..n]);
  }

  /** One more sample fits when it starts no earlier than the one before it ends. */
  lemma TimelineSnoc(samples: seq<Sample>, n: nat)
    requires n < |samples| && Timeline(samples[..n])
    ensures Timeline(samples[..n + 1]) <==>
            Consistent(samples[n], n) && (n > 0 ==> samples[n - 1].end <= samples[n].start)
  {
    var p, q := samples[..n], samples[..n + 1];
    assert forall i :: 0 <= i < n ==> p[i] == samples[i] && q[i] == samples[i];
    assert q[n] == samples[n];
    if n > 0 && Consistent(samples[n], n) && samples[n - 1].end <= samples[n].start {
      forall i | 0 <= i < n ensures samples[i].end <= samples[n].start {
        assert Consistent(p[n - 1], n - 1);
        assert i < n - 1 ==> p[i].end <= p[n - 1].start;
      }
    }
  }

  lemma TimelinePrefix(samples: seq<Sample>, n: nat)
    requires n <= |samples| && Timeline(samples)
    ensures Timeline(samples[..n])
  {
    var p := samples[..n];
    assert forall i :: 0 <= i < n ==> p[i] == samples[i];
  }

  /** Disjoint samples together last no longer than the span they lie in. */
  lemma {:induction false} TotalWithinSpan(samples: seq<Sample>, n: nat)
    requires Timeline(samples) && 1 <= n <= |samples|
    ensures Total(Durations(samples[..n])) <= samples[n - 1].end - samples[0].start
  {
    DurationsSnoc(samples, n - 1);
    assert Consistent(samples[n - 1], n - 1);
    if n == 1 {
      assert Durations(samples[..0]) == [];
    } else {
      assert samples[n - 2].end <= samples[n - 1].start;
      TotalWithinSpan(samples, n - 1);
    }
  }

  /** The timeline part of the bundle check accepts exactly the timelines: its own
      check of the duration total never rejects one. */
  method CheckTimeline(samples: seq<Sample>) returns (ok: bool, durations: seq<int>)
    requires forall i :: 0 <= i < |samples| ==> InSchema(samples[i])
    ensures ok <==> Timeline(samples)
    ensures ok ==> durations == Durations(samples)
    ensures ok && samples != [] ==> Total(durations) <= samples[|samples| - 1].end - samples[0].start
  {
    durations := [];
    var previous := 0;
    for n := 0 to |samples|
      invariant previous == if n == 0 then 0 else samples[n - 1].end
      invariant Timeline(samples[..n])
      invariant durations == Durations(samples[..n])
    {
      var s := samples[n];
      assert InSchema(s);
      TimelineSnoc(samples, n);
      if Timeline(samples) {
        TimelinePrefix(samples, n + 1);
      }
      if !(s.index == n && previous <= s.start <= s.end) || s.duration != s.end - s.start {
        return false, [];
      }
      DurationsSnoc(samples, n);
      previous := s.end;
      durations := durations + [s.duration];
    }
    assert samples[..|samples|] == samples;
    if samples != [] {
      TotalWithinSpan(samples, |samples|);
    }
    if Total(durations) > MAX_INT {
      return false, [];
    }
    ok := true;
  }
}
