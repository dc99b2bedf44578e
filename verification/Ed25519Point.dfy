// Field arithmetic and the curve -x^2 + y^2 = 1 + d*x^2*y^2 of Ed25519 (section 5.1 of RFC
// 8032): which y belong to a point.

module Ed25519Point {
  import opened Prelude
  import opened PrimeField
  import opened QuadraticResidues

  // The field's prime, large enough for the curve constant's denominator to be invertible.
  ghost predicate EdwardsField(p: int) {
    FiveModEight(p) && p > 121666
  }

  // ---- Field arithmetic ----------------------------------------------------

  // A remainder truncated toward zero, as the source's % computes it.
  function TruncatedRemainder(a: int, p: int): int
    requires p >= 2
  {
    if a >= 0 then a % p else -((-a) % p)
  }

  lemma TruncatedIsCong(a: int, p: int)
    requires p >= 2
    ensures -p < TruncatedRemainder(a, p) < p && Cong(p, TruncatedRemainder(a, p), a)
  {
    ModIsCong(p, a);
    ModIsCong(p, -a);
    if a < 0 {
      var k := Witness(p, (-a) % p, -a);
      assert p * (-k) == -(p * k);
      FromWitness(p, TruncatedRemainder(a, p), a, -k);
    }
  }

  // The residue of any integer, negative ones included.
  method ModP(a: int, p: int) returns (r: int)
    requires p >= 2
    ensures r == a % p
  {
    r := TruncatedRemainder(a, p);
    TruncatedIsCong(a, p);
    ModIsCong(p, a);
    CongSym(p, a % p, a);
    CongTrans(p, r, a, a % p);
    if r < 0 {
      r := r + p;
      FromWitness(p, r, r - p, 1);
      CongTrans(p, r, r - p, a % p);
    }
    ResiduesAreUnique(p, r, a % p);
  }

  function PowerMod(p: int, base: int, exponent: int): int
    requires p >= 2
  {
    if exponent <= 0 then 1 else Pow(base, exponent) % p
  }

  // What the square-and-multiply loop keeps: the product so far and the power still to be
  // taken make the goal.
  ghost predicate Remaining(p: int, result: int, x: int, n: nat, goal: int)
    requires p >= 2
  {
    Cong(p, result * Pow(x, n), goal)
  }

  // Square and multiply.
  method PowModP(base: int, exponent: int, p: int) returns (result: int)
    requires p >= 2
    ensures result == PowerMod(p, base, exponent)
  {
    hide Remaining, Pow, PowerMod;
    result := 1;
    var x := ModP(base, p);
    var n := exponent;
    PowerWithout(p, base, exponent);
    if exponent >= 0 {
      PowerStart(p, base, exponent);
    }
    while n > 0
      invariant if exponent <= 0 then n == exponent && result == 1 else 0 <= n
      invariant 0 <= result < p
      invariant exponent > 0 ==> Remaining(p, result, x, n, Pow(base, exponent))
    {
      ghost var before, y := result, x;
      if n % 2 == 1 {
        result := ModP(result * x, p);
      }
      x := ModP(x * x, p);
      PowerStep(p, before, y, n, Pow(base, exponent), result, x);
      n := n / 2;
    }
    if exponent > 0 {
      PowerEnd(p, base, exponent, result, x);
    }
  }

  lemma PowerWithout(p: int, base: int, exponent: int)
    requires p >= 2
    ensures exponent <= 0 ==> PowerMod(p, base, exponent) == 1
  {
  }

  lemma PowerStart(p: int, base: int, exponent: nat)
    requires p >= 2
    ensures Remaining(p, 1, base % p, exponent, Pow(base, exponent))
  {
    ModIsCong(p, base);
    CongPow(p, base % p, base, exponent);
  }

  lemma PowerEnd(p: int, base: int, exponent: nat, result: int, x: int)
    requires p >= 2 && exponent > 0 && 0 <= result < p
    requires Remaining(p, result, x, 0, Pow(base, exponent))
    ensures result == PowerMod(p, base, exponent)
  {
    assert Pow(x, 0) == 1;
    hide Pow, Cong;
    ResidueOf(p, result, Pow(base, exponent));
  }

  lemma ResidueOf(p: int, a: int, b: int)
    requires p >= 2 && 0 <= a < p && Cong(p, a, b)
    ensures a == b % p
  {
    hide Cong;
    ModIsCong(p, b);
    CongSym(p, b % p, b);
    CongTrans(p, a, b, b % p);
    ResiduesAreUnique(p, a, b % p);
  }

  // One round, whose products stand for plain numbers.
  lemma PowerStep(p: int, result: int, x: int, n: nat, goal: int, next: int, square: int)
    requires p >= 2 && n > 0 && Remaining(p, result, x, n, goal)
    requires next == if n % 2 == 1 then (result * x) % p else result
    requires square == (x * x) % p
    ensures Remaining(p, next, square, n / 2, goal)
  {
    var half := n / 2;
    ModIsCong(p, x * x);
    CongPow(p, square, x * x, half);
    PowOfSquare(x, half);
    var power, rest := Pow(x, 2 * half), Pow(square, half);
    if n % 2 == 1 {
      ModIsCong(p, result * x);
      PowOneMore(x, 2 * half);
      RoundKeeps(p, next, result * x, rest, power, goal, result * Pow(x, n)) by {
        assert (result * x) * power == result * (x * power);
      }
    } else {
      CongRefl(p, result);
      RoundKeeps(p, next, result, rest, power, goal, result * Pow(x, n));
    }
  }

  lemma PowOneMore(x: int, n: nat)
    ensures Pow(x, n + 1) == x * Pow(x, n)
  {
  }

  lemma RoundKeeps(p: int, next: int, product: int, rest: int, power: int, goal: int, whole: int)
    requires p >= 2 && Cong(p, next, product) && Cong(p, rest, power)
    requires product * power == whole && Cong(p, whole, goal)
    ensures Cong(p, next * rest, goal)
  {
    hide Cong;
    CongMul(p, next, product, rest, power);
    CongTrans(p, next * rest, whole, goal);
  }

  // ---- The curve -----------------------------------------------------------

  // d = -121665/121666.
  function CurveD(p: int): int
    requires p >= 2
  {
    (-121665 * PowerMod(p, 121666, p - 2)) % p
  }

  ghost predicate OnCurveAt(p: int, x: int, y: int)
    requires p >= 2
  {
    Cong(p, -(x * x) + y * y, 1 + CurveD(p) * (x * x) * (y * y))
  }

  // Some point of the curve has this y.
  ghost predicate IsCurveY(p: int, y: int)
    requires p >= 2
  {
    exists x :: OnCurveAt(p, x, y)
  }

  lemma NotZero(p: int, a: int)
    requires 0 < a < p
    ensures !Cong(p, a, 0)
  {
    if Cong(p, a, 0) {
      ResiduesAreUnique(p, a, 0);
    }
  }

  function Denominator(p: int, y: int): int
    requires p >= 2
  {
    CurveD(p) * (y * y) + 1
  }

  // The curve equation solved for x^2.
  lemma Rearranged(p: int, x: int, y: int)
    requires p >= 2
    ensures OnCurveAt(p, x, y) <==> Cong(p, (x * x) * Denominator(p, y), y * y - 1)
  {
    var xx, yy, d := x * x, y * y, CurveD(p);
    assert (-xx + yy) - (1 + d * xx * yy) == (yy - 1) - xx * (d * yy + 1);
    if OnCurveAt(p, x, y) {
      assert Cong(p, yy - 1, xx * (d * yy + 1));
      CongSym(p, yy - 1, xx * (d * yy + 1));
    }
    if Cong(p, xx * (d * yy + 1), yy - 1) {
      CongSym(p, xx * (d * yy + 1), yy - 1);
    }
  }

  lemma CurveDIsQuotient(p: int)
    requires EdwardsField(p)
    ensures Cong(p, CurveD(p) * 121666, -121665)
  {
    var inverse := PowerMod(p, 121666, p - 2);
    NotZero(p, 121666);
    InverseByPowerMod(p, 121666);
    ModIsCong(p, -121665 * inverse);
    CongRefl(p, 121666);
    CongRefl(p, -121665);
    QuotientTimes(p, -121665, -121665, inverse, 121666, 121666, CurveD(p));
  }

  // d is not -1, so no point of the curve makes the denominator vanish.
  lemma CurveDIsNotMinusOne(p: int)
    requires EdwardsField(p)
    ensures !Cong(p, CurveD(p) + 1, 0)
  {
    CurveDIsQuotient(p);
    hide CurveD, Prime;
    if Cong(p, CurveD(p) + 1, 0) {
      CongRefl(p, 121666);
      CongMul(p, CurveD(p) + 1, 0, 121666, 121666);
      CongAdd(p, (CurveD(p) + 1) * 121666, 0, CurveD(p) * 121666, -121665);
      assert (CurveD(p) + 1) * 121666 - CurveD(p) * 121666 == 121666;
      NotZero(p, 1);
    }
  }

  lemma DenominatorIsNotZero(p: int, x: int, y: int)
    requires EdwardsField(p) && OnCurveAt(p, x, y)
    ensures !Cong(p, Denominator(p, y), 0)
  {
    var den := Denominator(p, y);
    Rearranged(p, x, y);
    CurveDIsNotMinusOne(p);
    assert den - CurveD(p) * (y * y - 1) == CurveD(p) + 1;
    hide CurveD, Prime, OnCurveAt;
    if Cong(p, den, 0) {
      CongRefl(p, x * x);
      CongMul(p, x * x, x * x, den, 0);
      CongSym(p, (x * x) * den, y * y - 1);
      CongTrans(p, y * y - 1, (x * x) * den, 0);
      CongRefl(p, CurveD(p));
      CongMul(p, CurveD(p), CurveD(p), y * y - 1, 0);
      CongAdd(p, den, 0, CurveD(p) * (y * y - 1), 0);
    }
  }

  // Over a denominator that does not vanish, the points at y are the roots of the quotient.
  lemma PointsAreRoots(p: int, x: int, y: int, quotient: int)
    requires Prime(p) && !Cong(p, Denominator(p, y), 0)
    requires Cong(p, quotient * Denominator(p, y), y * y - 1)
    ensures OnCurveAt(p, x, y) <==> Cong(p, x * x, quotient)
  {
    Rearranged(p, x, y);
    hide Prime, OnCurveAt, Denominator, Cong;
    DividesAsQuotient(p, x * x, Denominator(p, y), y * y - 1, quotient);
  }

  lemma DividesAsQuotient(p: int, a: int, den: int, num: int, quotient: int)
    requires Prime(p) && !Cong(p, den, 0) && Cong(p, quotient * den, num)
    ensures Cong(p, a * den, num) <==> Cong(p, a, quotient)
  {
    assert p >= 2;
    hide Prime, Cong;
    if Cong(p, a * den, num) {
      CongSym(p, quotient * den, num);
      CongTrans(p, a * den, num, quotient * den);
      assert a * den == den * a && quotient * den == den * quotient;
      Cancel(p, den, a, quotient);
    }
    if Cong(p, a, quotient) {
      CongRefl(p, den);
      CongMul(p, a, quotient, den, den);
      CongTrans(p, a * den, quotient * den, num);
    }
  }

  lemma PowerModIsCong(p: int, a: int, e: nat)
    requires p >= 2
    ensures Cong(p, PowerMod(p, a, e), Pow(a, e))
  {
    if e == 0 {
      CongRefl(p, 1);
    } else {
      ModIsCong(p, Pow(a, e));
    }
  }

  lemma InverseByPowerMod(p: int, a: int)
    requires Prime(p) && !Cong(p, a, 0)
    ensures Cong(p, PowerMod(p, a, p - 2) * a, 1)
  {
    var inverse := PowerMod(p, a, p - 2);
    InverseByPower(p, a);
    PowerModIsCong(p, a, p - 2);
    hide Prime, Pow, PowerMod;
    CongRefl(p, a);
    CongMul(p, inverse, Pow(a, p - 2), a, a);
    CongTrans(p, inverse * a, Pow(a, p - 2) * a, 1);
  }

  lemma DenominatorIsCong(p: int, y: int, yy: int)
    requires p >= 2 && Cong(p, yy, y * y)
    ensures Cong(p, (CurveD(p) * yy + 1) % p, Denominator(p, y))
  {
    var d := CurveD(p);
    ModIsCong(p, d * yy + 1);
    hide CurveD;
    CongRefl(p, d);
    CongMul(p, d, d, yy, y * y);
    CongRefl(p, 1);
    CongAdd(p, d * yy, d * (y * y), 1, 1);
    CongTrans(p, (d * yy + 1) % p, d * yy + 1, d * (y * y) + 1);
  }

  // A numerator times an inverse, times what was inverted, is the numerator again.
  lemma QuotientTimes(p: int, a: int, b: int, inverse: int, x: int, y: int, quotient: int)
    requires p >= 2 && Cong(p, a, b) && Cong(p, inverse * x, 1) && Cong(p, x, y)
    requires Cong(p, quotient, a * inverse)
    ensures Cong(p, quotient * y, b)
  {
    CongSym(p, x, y);
    CongMul(p, quotient, a * inverse, y, x);
    CongMul(p, a, b, inverse * x, 1);
    assert (a * inverse) * x == a * (inverse * x) && b * 1 == b;
    CongTrans(p, quotient * y, a * (inverse * x), b);
  }

  // The computed quotient: numerator times the power p - 2 of the denominator.
  lemma QuotientDivides(p: int, y: int, yy: int, denominator: int, quotient: int)
    requires Prime(p) && Cong(p, yy, y * y)
    requires denominator == (CurveD(p) * yy + 1) % p && denominator != 0
    requires quotient == ((yy - 1) * PowerMod(p, denominator, p - 2)) % p
    ensures !Cong(p, Denominator(p, y), 0)
    ensures Cong(p, quotient * Denominator(p, y), y * y - 1)
  {
    var inverse := PowerMod(p, denominator, p - 2);
    ModIsCong(p, CurveD(p) * yy + 1);
    NotZero(p, denominator);
    InverseByPowerMod(p, denominator);
    ModIsCong(p, (yy - 1) * inverse);
    DenominatorIsCong(p, y, yy);
    CongRefl(p, 1);
    CongAdd(p, yy, y * y, 1, 1);
    hide Prime, CurveD, PowerMod, Denominator;
    if Cong(p, Denominator(p, y), 0) { CongTrans(p, denominator, Denominator(p, y), 0); }
    QuotientTimes(p, yy - 1, y * y - 1, inverse, denominator, Denominator(p, y), quotient);
  }

  lemma ResidueOneIffCong(p: int, a: int)
    requires p >= 2
    ensures a % p == 1 <==> Cong(p, a, 1)
  {
    ModIffCong(p, a, 1);
    ModIsCong(p, 1);
    ResiduesAreUnique(p, 1 % p, 1);
  }

  lemma CriterionIsCong(p: int, a: int)
    requires p >= 3
    ensures PowerMod(p, a, Half(p)) == 1 <==> Cong(p, Pow(a, Half(p)), 1)
  {
    hide Pow;
    ResidueOneIffCong(p, Pow(a, Half(p)));
  }

  // Zero or passing Euler's criterion is being a square.
  lemma SquareIffPasses(p: int, a: int)
    requires FiveModEight(p) && 0 <= a < p
    ensures (exists x :: Cong(p, x * x, a)) <==> a == 0 || PowerMod(p, a, Half(p)) == 1
  {
    CriterionIsCong(p, a);
    hide PowerMod, Pow;
    if a == 0 {
      CongRefl(p, 0);
      assert Cong(p, 0 * 0, a);
    } else if Cong(p, Pow(a, Half(p)), 1) {
      var x := PassersAreSquares(p, a);
    }
    if x :| Cong(p, x * x, a) && a != 0 {
      RootOfNonzero(p, x, a);
      SquaresPass(p, x, a);
    }
  }

  lemma RootOfNonzero(p: int, x: int, a: int)
    requires p >= 2 && 0 < a < p && Cong(p, x * x, a)
    ensures !Cong(p, x, 0)
  {
    NotZero(p, a);
    if Cong(p, x, 0) {
      CongMul(p, x, 0, x, 0);
      CongSym(p, x * x, a);
      CongTrans(p, a, x * x, 0);
    }
  }

  // ---- When the denominator vanishes ---------------------------------------

  // -1 has a root, 2^((p-1)/4), because 2 has none.
  lemma RootOfMinusOne(p: int) returns (i: int)
    requires FiveModEight(p)
    ensures Cong(p, i * i, -1)
  {
    var m := (p - 5) / 8;
    i := Pow(2, 2 * m + 1);
    RootSquares(p, 2, m);
    TwoIsNotASquare(p);
  }

  lemma CurveDIsNotZero(p: int)
    requires EdwardsField(p)
    ensures !Cong(p, CurveD(p), 0)
  {
    CurveDIsQuotient(p);
    hide CurveD, Prime;
    NotZero(p, 121665);
    if Cong(p, CurveD(p), 0) {
      CongRefl(p, 121666);
      CongMul(p, CurveD(p), 0, 121666, 121666);
      CongSym(p, CurveD(p) * 121666, -121665);
      CongTrans(p, -121665, CurveD(p) * 121666, 0);
      CongRefl(p, 0);
      CongAdd(p, 0, 0, -121665, 0);
    }
  }

  lemma SquareOfInverse(p: int, inverse: int, x: int)
    requires p >= 2 && Cong(p, inverse * x, 1)
    ensures Cong(p, (inverse * inverse) * (x * x), 1)
  {
    CongMul(p, inverse * x, 1, inverse * x, 1);
    Regroup(inverse, x, inverse, x);
  }

  // With i^2 = -1: what times a square is -1 is itself a square.
  lemma CofactorIsSquare(p: int, a: int, i: int, inverse: int, x: int)
    requires p >= 2 && Cong(p, i * i, -1) && Cong(p, inverse * x, 1)
    requires Cong(p, a * (x * x), -1)
    ensures Cong(p, (i * inverse) * (i * inverse), a)
  {
    var v := inverse * inverse;
    SquareOfInverse(p, inverse, x);
    Regroup(i, inverse, i, inverse);
    hide Cong;
    CongRefl(p, v);
    CongMul(p, i * i, -1, v, v);
    CongMul(p, a * (x * x), -1, v, v);
    CongRefl(p, a);
    CongMul(p, a, a, v * (x * x), 1);
    assert a * (x * x) * v == a * (v * (x * x)) && a * 1 == a;
    CongSym(p, a * (x * x) * v, -1 * v);
    CongTrans(p, (i * inverse) * (i * inverse), -1 * v, a * (x * x) * v);
    CongTrans(p, (i * inverse) * (i * inverse), a * (x * x) * v, a);
  }

  // A square times the square of i over its root is -1.
  lemma SquareHasCofactor(p: int, a: int, i: int, inverse: int, x: int)
    requires p >= 2 && Cong(p, i * i, -1) && Cong(p, inverse * x, 1) && Cong(p, x * x, a)
    ensures Cong(p, a * ((i * inverse) * (i * inverse)), -1)
  {
    var v, w := inverse * inverse, (i * inverse) * (i * inverse);
    SquareOfInverse(p, inverse, x);
    Regroup(i, inverse, i, inverse);
    hide Cong;
    CongSym(p, x * x, a);
    CongRefl(p, w);
    CongMul(p, a, x * x, w, w);
    CongMul(p, i * i, -1, v * (x * x), 1);
    assert (x * x) * ((i * i) * v) == (i * i) * (v * (x * x));
    CongTrans(p, a * w, (x * x) * w, -1);
  }

  lemma Inverse(p: int, x: int) returns (inverse: int)
    requires Prime(p) && !Cong(p, x, 0)
    ensures Cong(p, inverse * x, 1)
  {
    InverseByPower(p, x);
    inverse := Pow(x, p - 2);
  }

  lemma VanishesAt(p: int, y: int)
    requires p >= 2
    ensures Cong(p, Denominator(p, y), 0) <==> Cong(p, CurveD(p) * (y * y), -1)
  {
  }

  // The denominator vanishes for some y exactly when d is a square, that is when it passes
  // Euler's criterion; so over a field whose d does not, it never does.
  lemma DenominatorVanishesIff(p: int)
    requires EdwardsField(p)
    ensures (exists y :: Cong(p, Denominator(p, y), 0)) <==> PowerMod(p, CurveD(p), Half(p)) == 1
  {
    var d := CurveD(p);
    var i := RootOfMinusOne(p);
    CurveDIsNotZero(p);
    ModIsCong(p, -121665 * PowerMod(p, 121666, p - 2));
    CongRefl(p, 0);
    SquareIffPasses(p, d);
    hide CurveD, Denominator, PowerMod, Pow, Prime;
    if y :| Cong(p, Denominator(p, y), 0) {
      VanishesAt(p, y);
      RootIsNotZero(p, d, y);
      var inverse := Inverse(p, y);
      CofactorIsSquare(p, d, i, inverse, y);
    }
    if x :| Cong(p, x * x, d) {
      RootOfNonzero(p, x, d);
      var inverse := Inverse(p, x);
      SquareHasCofactor(p, d, i, inverse, x);
      VanishesAt(p, i * inverse);
    }
  }

  lemma RootIsNotZero(p: int, d: int, y: int)
    requires p >= 2 && Cong(p, d * (y * y), -1)
    ensures !Cong(p, y, 0)
  {
    if Cong(p, y, 0) {
      CongMul(p, y, 0, y, 0);
      CongRefl(p, d);
      CongMul(p, d, d, y * y, 0);
      CongSym(p, d * (y * y), -1);
      CongTrans(p, -1, d * (y * y), 0);
      FromWitness(p, p - 1, -1, 1);
      CongTrans(p, p - 1, -1, 0);
      NotZero(p, p - 1);
    }
  }

  // Accepts exactly the canonical y of curve points.
  method IsOnCurve(y: int, p: int) returns (onCurve: bool)
    requires EdwardsField(p) && 0 <= y < p
    ensures onCurve <==> IsCurveY(p, y)
  {
    var power := PowModP(121666, p - 2, p);
    var d := ModP(-121665 * power, p);
    var yy := ModP(y * y, p);
    var denominator := ModP(d * yy + 1, p);
    ModIsCong(p, y * y);
    if denominator == 0 {
      NoPointAtZero(p, y, yy);
      return false;
    }
    var inverse := PowModP(denominator, p - 2, p);
    var xSquared := ModP((yy - 1) * inverse, p);
    ModIsCong(p, (yy - 1) * inverse);
    QuotientDivides(p, y, yy, denominator, xSquared);
    CurveIffSquare(p, y, xSquared);
    SquareIffPasses(p, xSquared);
    if xSquared == 0 {
      return true;
    }
    var criterion := PowModP(xSquared, (p - 1) / 2, p);
    return criterion == 1;
  }

  lemma CurveIffSquare(p: int, y: int, quotient: int)
    requires Prime(p) && !Cong(p, Denominator(p, y), 0)
    requires Cong(p, quotient * Denominator(p, y), y * y - 1)
    ensures IsCurveY(p, y) <==> exists x :: Cong(p, x * x, quotient)
  {
    assert p >= 2;
    hide Denominator, Prime, OnCurveAt;
    forall x ensures OnCurveAt(p, x, y) <==> Cong(p, x * x, quotient) {
      PointsAreRoots(p, x, y, quotient);
    }
  }

  lemma NoPointAtZero(p: int, y: int, yy: int)
    requires EdwardsField(p) && Cong(p, yy, y * y) && (CurveD(p) * yy + 1) % p == 0
    ensures !IsCurveY(p, y)
  {
    forall x ensures !OnCurveAt(p, x, y) {
      if OnCurveAt(p, x, y) {
        DenominatorIsNotZero(p, x, y);
        CongRefl(p, CurveD(p));
        CongSym(p, yy, y * y);
        CongMul(p, CurveD(p), CurveD(p), y * y, yy);
        CongRefl(p, 1);
        CongAdd(p, CurveD(p) * (y * y), CurveD(p) * yy, 1, 1);
        CongTrans(p, Denominator(p, y), CurveD(p) * yy + 1, 0);
      }
    }
  }
}
