/** Above/below patterns of n samples, and how many of them lean to one side. */
module Binomial {
  import opened Sets

  function Pow2(n: nat): (p: nat)
    ensures p > 0
  {
    if n == 0 then 1 else 2 * Pow2(n - 1)
  }

  /** Binomial coefficients by Pascal's rule. */
  function Comb(n: nat, k: nat): nat {
    if k == 0 then 1 else if n == 0 then 0 else Comb(n - 1, k - 1) + Comb(n - 1, k)
  }

  /** The first k terms of row n. */
  function Tail(n: nat, k: nat): nat {
    if k == 0 then 0 else Tail(n, k - 1) + Comb(n, k - 1)
  }

  lemma {:induction false} TailPascal(n: nat, k: nat)
    requires n > 0 && k > 0
    ensures Tail(n, k) == Tail(n - 1, k - 1) + Tail(n - 1, k)
  {
    if k > 1 { TailPascal(n, k - 1); }
  }

  /** All above/below patterns of length n. */
  ghost function Patterns(n: nat): set<seq<bool>> {
    if n == 0 then {[]} else Prepend(true, Patterns(n - 1)) + Prepend(false, Patterns(n - 1))
  }

  ghost function Prepend(b: bool, s: set<seq<bool>>): set<seq<bool>> {
    set p | p in s :: [b] + p
  }

  function Trues(p: seq<bool>): (c: nat)
    ensures c <= |p|
  {
    if p == [] then 0 else (if p[0] then 1 else 0) + Trues(p[1..])
  }

  lemma PrependMember(b: bool, s: set<seq<bool>>, p: seq<bool>)
    ensures p in Prepend(b, s) <==> |p| > 0 && p[0] == b && p[1..] in s
  {
    if |p| > 0 && p[0] == b && p[1..] in s {
      assert p == [b] + p[1..];
    }
  }

  lemma {:induction false} PatternsAreAll(n: nat, p: seq<bool>)
    ensures p in Patterns(n) <==> |p| == n
  {
    if n > 0 {
      PrependMember(true, Patterns(n - 1), p);
      PrependMember(false, Patterns(n - 1), p);
      if |p| > 0 { PatternsAreAll(n - 1, p[1..]); }
    }
  }

  lemma {:induction false} PrependSize(b: bool, s: set<seq<bool>>)
    ensures |Prepend(b, s)| == |s|
  {
    if s != {} {
      var x :| x in s;
      var rest := s - {x};
      PrependSize(b, rest);
      assert Prepend(b, s) == Prepend(b, rest) + {[b] + x};
      forall y | y in rest ensures [b] + y != [b] + x {
        assert ([b] + y)[1..] == y && ([b] + x)[1..] == x;
      }
    }
  }

  lemma {:induction false} PatternsCount(n: nat)
    ensures |Patterns(n)| == Pow2(n)
  {
    if n > 0 {
      PatternsCount(n - 1);
      PrependSize(true, Patterns(n - 1));
      PrependSize(false, Patterns(n - 1));
      PrependDisjoint(Patterns(n - 1), Patterns(n - 1));
    }
  }

  lemma PrependDisjoint(s: set<seq<bool>>, t: set<seq<bool>>)
    ensures Prepend(true, s) !! Prepend(false, t)
  {
    forall p | p in Prepend(true, s) ensures p !in Prepend(false, t) {
      PrependMember(true, s, p);
      PrependMember(false, t, p);
    }
  }

  /** Patterns with fewer than k trues. */
  ghost function Few(n: nat, k: nat): set<seq<bool>> {
    set p | p in Patterns(n) && Trues(p) < k
  }

  /** Patterns with fewer than k falses. */
  ghost function Many(n: nat, k: nat): set<seq<bool>> {
    set p | p in Patterns(n) && n - Trues(p) < k
  }

  lemma FewSplits(n: nat, k: nat)
    requires n > 0 && k > 0
    ensures Few(n, k) == Prepend(true, Few(n - 1, k - 1)) + Prepend(false, Few(n - 1, k))
  {
  }

  lemma SplitCount(n: nat, k: nat)
    requires n > 0 && k > 0
    ensures |Few(n, k)| == |Few(n - 1, k - 1)| + |Few(n - 1, k)|
  {
    var a, b := Few(n - 1, k - 1), Few(n - 1, k);
    FewSplits(n, k);
    PrependSize(true, a);
    PrependSize(false, b);
    PrependDisjoint(a, b);
    UnionSize(Prepend(true, a), Prepend(false, b));
  }

  lemma FewOfNone(k: nat)
    requires k > 0
    ensures |Few(0, k)| == 1
  {
    assert Patterns(0) == {[]};
    assert Few(0, k) == {[]};
  }

  /** The tail counts the patterns with fewer than k trues. */
  lemma {:induction false} FewCount(n: nat, k: nat)
    ensures |Few(n, k)| == Tail(n, k)
  {
    if k == 0 {
      assert Few(n, k) == {};
    } else if n == 0 {
      FewOfNone(k);
      TailOfEmptyRow(k);
    } else {
      FewCount(n - 1, k - 1);
      FewCount(n - 1, k);
      SplitCount(n, k);
      TailPascal(n, k);
    }
  }

  lemma {:induction false} TailOfEmptyRow(k: nat)
    requires k > 0
    ensures Tail(0, k) == 1
  {
    if k > 1 { TailOfEmptyRow(k - 1); }
  }

  function Flip(p: seq<bool>): (q: seq<bool>)
    ensures |q| == |p| && forall i :: 0 <= i < |p| ==> q[i] == !p[i]
  {
    seq(|p|, i requires 0 <= i < |p| => !p[i])
  }

  lemma {:induction false} FlipTrues(p: seq<bool>)
    ensures Trues(Flip(p)) == |p| - Trues(p)
  {
    if p != [] {
      FlipTrues(p[1..]);
      assert Flip(p)[1..] == Flip(p[1..]);
    }
  }

  lemma {:induction false} FlipSize(s: set<seq<bool>>)
    ensures |set p | p in s :: Flip(p)| == |s|
  {
    if s != {} {
      var x :| x in s;
      var rest := s - {x};
      FlipSize(rest);
      assert (set p | p in s :: Flip(p)) == (set p | p in rest :: Flip(p)) + {Flip(x)};
      forall y | y in rest ensures Flip(y) != Flip(x) {
        assert Flip(Flip(y)) == y && Flip(Flip(x)) == x;
      }
    }
  }

  lemma ManyCount(n: nat, k: nat)
    ensures |Many(n, k)| == Tail(n, k)
  {
    FewCount(n, k);
    FlipSize(Few(n, k));
    var flipped := set p | p in Few(n, k) :: Flip(p);
    forall p ensures p in Many(n, k) <==> p in flipped {
      PatternsAreAll(n, p);
      PatternsAreAll(n, Flip(p));
      FlipTrues(p);
      assert Flip(Flip(p)) == p;
      if q :| q in Few(n, k) && p == Flip(q) {
        assert Flip(p) == q;
        PatternsAreAll(n, q);
      }
    }
    assert Many(n, k) == flipped;
  }

  /** Patterns that lean too far to either side: two tails, disjoint up to the middle. */
  lemma LeaningCount(n: nat, k: nat)
    ensures |Few(n, k) + Many(n, k)| <= 2 * Tail(n, k)
    ensures k <= n / 2 ==> |Few(n, k) + Many(n, k)| == 2 * Tail(n, k)
  {
    FewCount(n, k);
    ManyCount(n, k);
    var few, rest := Few(n, k), Many(n, k) - Few(n, k);
    assert few + Many(n, k) == few + rest;
    UnionSize(few, rest);
    SubsetSize(rest, Many(n, k));
    if k <= n / 2 {
      assert rest == Many(n, k);
    }
  }
}
