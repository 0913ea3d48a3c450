/** Sorting, order statistics and medians of exact numbers. */
module OrderStatistics {

  predicate Ascending(s: seq<real>) {
    forall i, j :: 0 <= i < j < |s| ==> s[i] <= s[j]
  }

  function Insert(x: real, s: seq<real>): (r: seq<real>)
    requires Ascending(s)
    ensures Ascending(r) && |r| == |s| + 1
    ensures r[0] == if s == [] || x <= s[0] then x else s[0]
  {
    if s == [] then [x]
    else if x <= s[0] then [x] + s
    else
      var rest := Insert(x, s[1..]);
      assert forall i :: 0 <= i < |rest| ==> rest[0] <= rest[i];
      [s[0]] + rest
  }

  function Sort(s: seq<real>): (r: seq<real>)
    ensures Ascending(r) && |r| == |s|
  {
    if s == [] then [] else Insert(s[0], Sort(s[1..]))
  }

  lemma {:induction false} InsertAdds(x: real, s: seq<real>)
    requires Ascending(s)
    ensures multiset(Insert(x, s)) == multiset(s) + multiset{x}
  {
    if s != [] && x > s[0] {
      InsertAdds(x, s[1..]);
      assert s == [s[0]] + s[1..];
    }
  }

  lemma {:induction false} SortPermutes(s: seq<real>)
    ensures multiset(Sort(s)) == multiset(s)
  {
    if s != [] {
      SortPermutes(s[1..]);
      InsertAdds(s[0], Sort(s[1..]));
      assert s == [s[0]] + s[1..];
    }
  }

  /** How many samples lie under a threshold; `strict` leaves out equality. */
  function Under(s: seq<real>, theta: real, strict: bool): (c: nat)
    ensures c <= |s|
  {
    if s == [] then 0 else (if IsUnder(s[0], theta, strict) then 1 else 0) + Under(s[1..], theta, strict)
  }

  predicate IsUnder(x: real, theta: real, strict: bool) {
    x < theta || (x == theta && !strict)
  }

  lemma {:induction false} UnderInsert(x: real, s: seq<real>, theta: real, strict: bool)
    requires Ascending(s)
    ensures Under(Insert(x, s), theta, strict) == Under([x] + s, theta, strict)
  {
    assert ([x] + s)[1..] == s;
    if s != [] && x > s[0] {
      var rest := Insert(x, s[1..]);
      UnderInsert(x, s[1..], theta, strict);
      assert ([s[0]] + rest)[1..] == rest;
      assert ([x] + s[1..])[1..] == s[1..];
    }
  }

  lemma {:induction false} UnderSort(s: seq<real>, theta: real, strict: bool)
    ensures Under(Sort(s), theta, strict) == Under(s, theta, strict)
  {
    if s != [] {
      UnderSort(s[1..], theta, strict);
      UnderInsert(s[0], Sort(s[1..]), theta, strict);
      assert ([s[0]] + Sort(s[1..]))[1..] == Sort(s[1..]);
    }
  }

  /** In ascending order, position j is under the threshold exactly when more
      than j samples are. */
  lemma {:induction false} UnderAt(s: seq<real>, theta: real, strict: bool, j: nat)
    requires Ascending(s) && j < |s|
    ensures IsUnder(s[j], theta, strict) <==> Under(s, theta, strict) > j
  {
    if IsUnder(s[0], theta, strict) {
      if j > 0 { UnderAt(s[1..], theta, strict, j - 1); }
    } else if |s| > 1 {
      UnderAt(s[1..], theta, strict, 0);
    }
  }

  /** The mean of the two middle samples. */
  function Median(s: seq<real>): real
    requires s != []
  {
    var r, n := Sort(s), |s|;
    (r[(n - 1) / 2] + r[n / 2]) / 2.0
  }

  /** The least sample with at least half of the samples at or below it. */
  ghost predicate LowerMiddle(s: seq<real>, x: real) {
    && x in s && 2 * Under(s, x, false) >= |s|
    && forall y :: y in s && 2 * Under(s, y, false) >= |s| ==> x <= y
  }

  /** The greatest sample with at least half of the samples at or above it. */
  ghost predicate UpperMiddle(s: seq<real>, x: real) {
    && x in s && 2 * (|s| - Under(s, x, true)) >= |s|
    && forall y :: y in s && 2 * (|s| - Under(s, y, true)) >= |s| ==> y <= x
  }

  /** Position k of the sorted samples, by counting: fewer than k + 1 samples lie below
      its value, and at least k + 1 lie at or below it. */
  lemma SortedByCount(s: seq<real>, k: nat, x: real)
    requires k < |s|
    ensures x == Sort(s)[k] <==> x in s && Under(s, x, true) <= k < Under(s, x, false)
  {
    var t := Sort(s);
    SortPermutes(s);
    assert t[k] in multiset(t);
    UnderSort(s, x, true);
    UnderSort(s, x, false);
    UnderAt(t, x, true, k);
    UnderAt(t, x, false, k);
  }

  lemma MiddlesOf(s: seq<real>)
    requires s != []
    ensures LowerMiddle(s, Sort(s)[(|s| - 1) / 2]) && UpperMiddle(s, Sort(s)[|s| / 2])
  {
    var n, t := |s|, Sort(s);
    SortedByCount(s, (n - 1) / 2, t[(n - 1) / 2]);
    SortedByCount(s, n / 2, t[n / 2]);
    forall y | y in s
      ensures 2 * Under(s, y, false) >= n ==> t[(n - 1) / 2] <= y
      ensures 2 * (n - Under(s, y, true)) >= n ==> y <= t[n / 2]
    {
      UnderSort(s, y, false);
      UnderSort(s, y, true);
      UnderAt(t, y, false, (n - 1) / 2);
      UnderAt(t, y, true, n / 2);
    }
  }

  /** The median is the mean of the two middles. */
  lemma MedianIsMiddle(s: seq<real>, low: real, high: real)
    requires LowerMiddle(s, low) && UpperMiddle(s, high)
    ensures Median(s) == (low + high) / 2.0
  {
    MiddlesOf(s);
  }

  /** One run of samples is the other turned round: a lead becomes a lag. */
  predicate Mirrors(s: seq<real>, t: seq<real>) {
    |s| == |t| && forall i :: 0 <= i < |s| ==> t[i] == 0.0 - s[i]
  }

  lemma {:induction false} UnderMirrored(s: seq<real>, t: seq<real>, x: real, strict: bool)
    requires Mirrors(s, t)
    ensures Under(t, 0.0 - x, strict) == |s| - Under(s, x, !strict)
  {
    if s != [] {
      UnderMirrored(s[1..], t[1..], x, strict);
    }
  }

  lemma MirroredPlace(s: seq<real>, t: seq<real>, k: nat, x: real, y: real)
    requires Mirrors(s, t) && k < |s| && y == 0.0 - x
    requires x in s && Under(s, x, true) <= |s| - 1 - k < Under(s, x, false)
    ensures y in t && Under(t, y, true) <= k < Under(t, y, false)
  {
    var i :| 0 <= i < |s| && s[i] == x;
    assert t[i] == y;
    UnderMirrored(s, t, x, true);
    UnderMirrored(s, t, x, false);
  }

  /** What stands at position k from the end stands, negated, at position k of the mirrored samples. */
  lemma SortMirrors(s: seq<real>, t: seq<real>, k: nat, x: real, y: real)
    requires Mirrors(s, t) && k < |s| && x == Sort(s)[|s| - 1 - k] && y == 0.0 - x
    ensures Sort(t)[k] == y
  {
    SortedByCount(s, |s| - 1 - k, x);
    MirroredPlace(s, t, k, x, y);
    SortedByCount(t, k, y);
  }

  /** Turning the samples round turns the median round. */
  lemma MedianMirrors(s: seq<real>, t: seq<real>)
    requires s != [] && Mirrors(s, t)
    ensures Median(t) == 0.0 - Median(s)
  {
    var n, r := |s|, Sort(s);
    SortMirrors(s, t, (n - 1) / 2, r[n / 2], 0.0 - r[n / 2]);
    SortMirrors(s, t, n / 2, r[(n - 1) / 2], 0.0 - r[(n - 1) / 2]);
  }

  /** The interval between the k-th sample from either end. */
  function Bounds(s: seq<real>, k: nat): (real, real)
    requires 1 <= k <= |s|
  {
    (Sort(s)[k - 1], Sort(s)[|s| - k])
  }

  lemma MedianWithin(s: seq<real>, k: nat)
    requires 1 <= k && 2 * k <= |s|
    ensures Bounds(s, k).0 <= Median(s) <= Bounds(s, k).1
  {
  }

  /** A wider rank gives a wider interval. */
  lemma BoundsNest(s: seq<real>, j: nat, k: nat)
    requires 1 <= j <= k && 2 * k <= |s|
    ensures Bounds(s, j).0 <= Bounds(s, k).0 <= Bounds(s, k).1 <= Bounds(s, j).1
  {
  }
}
