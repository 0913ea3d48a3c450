/** Divisibility, greatest common divisors and least common multiples. */
module NumberTheory {

  ghost predicate Divides(d: int, n: int) {
    exists k: int :: n == k * d
  }

  lemma MultipleBounds(k: int, d: int)
    requires d > 0
    ensures k >= 1 ==> k * d >= d
    ensures k <= -1 ==> k * d <= -d
    ensures k > 0 <==> k * d > 0
  {
  }

  lemma SmallMultipleIsZero(k: int, d: int)
    requires d > 0 && -d < k * d < d
    ensures k == 0
  {
  }

  lemma DivisionIsUnique(n: int, d: int, q: int, r: int)
    requires d > 0 && 0 <= r < d && n == q * d + r
    ensures n / d == q && n % d == r
  {
    var q', r' := n / d, n % d;
    assert n == q' * d + r';
    assert (q - q') * d == q * d - q' * d;
    SmallMultipleIsZero(q - q', d);
  }

  lemma DividesIffNoRemainder(d: int, n: int)
    requires d > 0
    ensures Divides(d, n) <==> n % d == 0
  {
    if Divides(d, n) {
      var k :| n == k * d;
      DivisionIsUnique(n, d, k, 0);
    }
    if n % d == 0 {
      assert n == (n / d) * d;
    }
  }

  /** A linear combination of multiples is a multiple. */
  lemma DividesCombination(d: int, a: int, b: int, x: int, y: int)
    requires Divides(d, a) && Divides(d, b)
    ensures Divides(d, x * a + y * b)
  {
    var i :| a == i * d;
    var j :| b == j * d;
    assert x * a + y * b == (x * i + y * j) * d;
  }

  lemma DividesTransitive(a: int, b: int, c: int)
    requires Divides(a, b) && Divides(b, c)
    ensures Divides(a, c)
  {
    var i :| b == i * a;
    var j :| c == j * b;
    assert c == (j * i) * a;
  }

  lemma DividesItself(d: int)
    ensures Divides(d, d) && Divides(d, 0)
  {
    assert d == 1 * d;
    assert 0 == 0 * d;
  }

  /** Euclid's algorithm. */
  function Gcd(a: nat, b: nat): (g: nat)
    ensures a + b > 0 ==> g > 0
    decreases b
  {
    if b == 0 then a else Gcd(b, a % b)
  }

  /** One step of the extended algorithm. */
  lemma EuclidStep(a: int, b: int, q: int, r: int, x: int, y: int)
    requires a == q * b + r
    ensures y * a + (x - y * q) * b == x * b + y * r
  {
  }

  /** The result divides both arguments and is a combination of them. */
  lemma {:induction false} GcdIsCombination(a: nat, b: nat) returns (x: int, y: int)
    ensures Divides(Gcd(a, b), a) && Divides(Gcd(a, b), b)
    ensures Gcd(a, b) == x * a + y * b
    decreases b
  {
    if b == 0 {
      x, y := 1, 0;
      DividesItself(a);
    } else {
      var q, r := a / b, a % b;
      assert a == q * b + r;
      var x', y' := GcdIsCombination(b, r);
      x, y := y', x' - y' * q;
      EuclidStep(a, b, q, r, x', y');
      DividesCombination(Gcd(b, r), b, r, q, 1);
    }
  }

  lemma GcdIsGreatest(a: nat, b: nat, d: int)
    requires Divides(d, a) && Divides(d, b)
    ensures Divides(d, Gcd(a, b))
  {
    var x, y := GcdIsCombination(a, b);
    DividesCombination(d, a, b, x, y);
  }

  function Lcm(a: nat, b: nat): nat
    requires a > 0 && b > 0
  {
    a * b / Gcd(a, b)
  }

  lemma Swap(i: int, j: int, g: int, a: int, b: int)
    requires a == i * g && b == j * g
    ensures i * b == j * a && (i * b) * g == a * b
  {
  }

  /** The cofactors of the greatest common divisor give the least common multiple. */
  lemma LcmByCofactors(a: nat, b: nat) returns (i: int, j: int)
    requires a > 0 && b > 0
    ensures a == i * Gcd(a, b) && b == j * Gcd(a, b)
    ensures Lcm(a, b) == i * b == j * a > 0
  {
    var g := Gcd(a, b);
    var x, y := GcdIsCombination(a, b);
    i :| a == i * g;
    j :| b == j * g;
    Swap(i, j, g, a, b);
    DivisionIsUnique(a * b, g, i * b, 0);
    MultipleBounds(i, g);
    MultipleBounds(i, b);
  }

  lemma LcmIsLeast(a: nat, b: nat)
    requires a > 0 && b > 0
    ensures Lcm(a, b) > 0 && Divides(a, Lcm(a, b)) && Divides(b, Lcm(a, b))
    ensures forall m: int :: Divides(a, m) && Divides(b, m) ==> Divides(Lcm(a, b), m)
  {
    var i, j := LcmByCofactors(a, b);
    forall m: int | Divides(a, m) && Divides(b, m) ensures Divides(Lcm(a, b), m) {
      LcmDivides(a, b, i, j, m);
    }
  }

  lemma LcmDivides(a: nat, b: nat, i: int, j: int, m: int)
    requires a > 0 && b > 0
    requires a == i * Gcd(a, b) && b == j * Gcd(a, b) && Lcm(a, b) == i * b == j * a
    requires Divides(a, m) && Divides(b, m)
    ensures Divides(Lcm(a, b), m)
  {
    var p :| m == p * a;
    var q :| m == q * b;
    var x, y := GcdIsCombination(a, b);
    CofactorIdentity(Gcd(a, b), i, j, x, y);
    SplitMultiple(m, i, j, x, y, p, q, a, b, Lcm(a, b));
  }

  lemma CofactorIdentity(g: int, i: int, j: int, x: int, y: int)
    requires g > 0 && g == x * (i * g) + y * (j * g)
    ensures x * i + y * j == 1
  {
  }

  lemma SplitMultiple(m: int, i: int, j: int, x: int, y: int, p: int, q: int, a: int, b: int, l: int)
    requires x * i + y * j == 1 && m == p * a && m == q * b && l == i * b && l == j * a
    ensures Divides(l, m)
  {
    calc {
      m;
      (x * i + y * j) * m;
      (x * i) * m + (y * j) * m;
      (x * i) * (q * b) + (y * j) * (p * a);
      { Regroup(x, i, q, b); Regroup(y, j, p, a); }
      (x * q) * l + (y * p) * l;
      (x * q + y * p) * l;
    }
  }

  lemma Regroup(x: int, i: int, q: int, b: int)
    ensures (x * i) * (q * b) == (x * q) * (i * b)
  {
  }

  /** The least common multiple of a list of periods. */
  function LcmAll(s: seq<nat>): (l: nat)
    requires forall i :: 0 <= i < |s| ==> s[i] > 0
    ensures l > 0
  {
    if s == [] then 1
    else LcmIsLeast(s[0], LcmAll(s[1..])); Lcm(s[0], LcmAll(s[1..]))
  }

  lemma {:induction false} LcmAllIsCommon(s: seq<nat>, k: nat)
    requires forall i :: 0 <= i < |s| ==> s[i] > 0
    requires k < |s|
    ensures Divides(s[k], LcmAll(s))
  {
    LcmIsLeast(s[0], LcmAll(s[1..]));
    if k > 0 {
      LcmAllIsCommon(s[1..], k - 1);
      DividesTransitive(s[k], LcmAll(s[1..]), LcmAll(s));
    }
  }

  /** No smaller number is a multiple of every period. */
  lemma {:induction false} LcmAllIsLeast(s: seq<nat>, m: int)
    requires forall i :: 0 <= i < |s| ==> s[i] > 0
    requires forall i :: 0 <= i < |s| ==> Divides(s[i], m)
    ensures Divides(LcmAll(s), m)
  {
    if s == [] {
      assert m == m * 1;
    } else {
      LcmAllIsLeast(s[1..], m);
      LcmIsLeast(s[0], LcmAll(s[1..]));
    }
  }
}
