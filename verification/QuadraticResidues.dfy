// Euler's criterion modulo a prime that is 5 modulo 8, as 2^255 - 19 is: 2 is not a square,
// so it supplies the second candidate of the square root in section 5.1.3 of RFC 8032.

module QuadraticResidues {
  import opened PrimeField

  ghost predicate FiveModEight(p: int) {
    Prime(p) && p % 8 == 5
  }

  function Half(p: int): int {
    (p - 1) / 2
  }

  // ---- Two is not a square -------------------------------------------------

  // The even numbers 2, 4, …, 2n, those above half of p folded back below it.
  function Folded(p: int, n: nat): (s: seq<int>)
    ensures |s| == n
    ensures forall i :: 0 <= i < n ==> s[i] == Fold(p, i + 1)
  {
    seq(n, i => Fold(p, i + 1))
  }

  function Fold(p: int, j: int): int {
    if 2 * j <= Half(p) then 2 * j else p - 2 * j
  }

  function Sign(p: int, n: nat): int {
    if n == 0 then 1 else if 2 * n <= Half(p) then Sign(p, n - 1) else -Sign(p, n - 1)
  }

  lemma FoldedIsPermutation(p: int)
    requires p % 8 == 5 && p >= 5
    ensures DistinctUpTo(Folded(p, Half(p)), Half(p))
  {
  }

  lemma {:induction false} ProdOfFolded(p: int, n: nat)
    requires FiveModEight(p)
    ensures Cong(p, Prod(Folded(p, n)), Sign(p, n) * (Pow(2, n) * Factorial(n)))
  {
    if n == 0 {
      CongRefl(p, 1);
    } else {
      var m := n - 1;
      ProdOfFolded(p, m);
      ProdSplits(Folded(p, n), m);
      assert Folded(p, n)[..m] + Folded(p, n)[m + 1..] == Folded(p, m);
      var sign := if 2 * n <= Half(p) then 1 else -1;
      FromWitness(p, Fold(p, n), sign * (2 * n), if 2 * n <= Half(p) then 0 else 1);
      CongMul(p, Fold(p, n), sign * (2 * n), Prod(Folded(p, m)), Sign(p, m) * (Pow(2, m) * Factorial(m)));
      Regroup(sign, 2 * n, Sign(p, m), Pow(2, m) * Factorial(m));
      Regroup(2, n, Pow(2, m), Factorial(m));
    }
  }

  lemma {:induction false} SignAlternates(p: int, m: nat, n: nat)
    requires p == 8 * m + 5
    ensures n <= 2 * m + 1 ==> Sign(p, n) == 1
    ensures n > 2 * m + 1 ==> Sign(p, n) == if (n - 2 * m - 1) % 2 == 0 then 1 else -1
  {
    assert Half(p) == 4 * m + 2;
    if n > 0 {
      SignAlternates(p, m, n - 1);
    }
  }

  // An odd number of the even numbers lies above half.
  lemma SignAtHalf(p: int)
    requires p % 8 == 5 && p >= 5
    ensures Sign(p, Half(p)) == -1
  {
    hide Sign;
    var m := (p - 5) / 8;
    SignAlternates(p, m, 4 * m + 2);
    assert (4 * m + 2 - 2 * m - 1) % 2 == 1;
  }

  lemma TwoIsNotASquare(p: int)
    requires FiveModEight(p)
    ensures Cong(p, Pow(2, Half(p)), -1)
  {
    var h := Half(p);
    var f, t := Factorial(h), Pow(2, h);
    assert h < p;
    FoldedIsPermutation(p);
    ProdOfPermutation(Folded(p, h), h);
    hide DistinctUpTo, Pow, Factorial, Prod, Sign, Half, Cong;
    ProdOfFolded(p, h);
    SignAtHalf(p);
    FactorialIsUnit(p, h);
    MinusOneCancels(p, f, t);
  }

  lemma MinusOneCancels(p: int, f: int, t: int)
    requires Prime(p) && !Cong(p, f, 0) && Cong(p, f, -1 * (t * f))
    ensures Cong(p, t, -1)
  {
    assert -1 * (t * f) == f * (-t) && f * 1 == f;
    Cancel(p, f, 1, -t);
    var k := Witness(p, 1, -t);
    FromWitness(p, t, -1, k);
  }

  // ---- Euler's criterion ---------------------------------------------------

  lemma SquaresPass(p: int, x: int, a: int)
    requires FiveModEight(p) && Cong(p, x * x, a) && !Cong(p, x, 0)
    ensures Cong(p, Pow(a, Half(p)), 1)
  {
    CongSym(p, x * x, a);
    CongPow(p, a, x * x, Half(p));
    PowOfSquare(x, Half(p));
    Fermat(p, x);
    CongTrans(p, Pow(a, Half(p)), Pow(x, p - 1), 1);
  }

  // The square root of one is one or minus one.
  lemma RootsOfOne(p: int, u: int)
    requires Prime(p) && Cong(p, u * u, 1)
    ensures Cong(p, u, 1) || Cong(p, u, -1)
  {
    assert (u - 1) * (u + 1) == u * u - 1;
    if !Cong(p, u - 1, 0) {
      Euclid(p, u - 1, u + 1);
    }
  }

  lemma RootSquares(p: int, a: int, m: nat)
    requires p == 8 * m + 5
    ensures Pow(a, 2 * m + 1) * Pow(a, 2 * m + 1) == Pow(a, Half(p))
    ensures Pow(a, m + 1) * Pow(a, m + 1) == a * Pow(a, 2 * m + 1)
  {
    PowAdd(a, 2 * m + 1, 2 * m + 1);
    PowAdd(a, m + 1, m + 1);
    assert Pow(a, 2 * m + 2) == a * Pow(a, 2 * m + 1);
  }

  // What passes has a root: a^((p+3)/8), times 2^((p-1)/4) when its square is -a.
  lemma PassersAreSquares(p: int, a: int) returns (r: int)
    requires FiveModEight(p) && Cong(p, Pow(a, Half(p)), 1)
    ensures Cong(p, r * r, a)
  {
    var m := (p - 5) / 8;
    assert p == 8 * m + 5;
    var u, x, s := Pow(a, 2 * m + 1), Pow(a, m + 1), Pow(2, 2 * m + 1);
    RootSquares(p, a, m);
    RootSquares(p, 2, m);
    TwoIsNotASquare(p);
    hide Pow;
    RootsOfOne(p, u);
    CongRefl(p, a);
    if Cong(p, u, 1) {
      CongMul(p, a, a, u, 1);
      r := x;
    } else {
      CongMul(p, a, a, u, -1);
      CongMul(p, s * s, -1, x * x, -a);
      Regroup(s, s, x, x);
      r := s * x;
    }
  }
}
