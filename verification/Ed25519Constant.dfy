// The comment beside the curve constant: at 2^255 - 19 it is not a square, so the denominator of
// the key check vanishes for no y.

module Ed25519Constant {
  import opened Ed25519Encoding
  import opened Ed25519Point
  import opened PrimeField
  import opened QuadraticResidues

  // A root of 2*d at the field of the curve.
  const ROOT_OF_TWO_D := 0x5531cdb02f53976_ef34bf39cfb54948_2449c01e5e3ea252_a3b885e46ebd673d

  lemma Doubled(n: nat, power: int)
    requires Pow(2, n) == power
    ensures Pow(2, 2 * n) == power * power
  {
    PowAdd(2, n, n);
  }

  lemma FieldPIsLiteral()
    ensures FieldP() == 0x7fffffffffffffff_ffffffffffffffff_ffffffffffffffff_ffffffffffffffed
  {
    PowEight();
    assert Pow(2, 256) == 2 * Pow(2, 255);
    hide Pow;
    Doubled(8, 0x100);
    Doubled(16, 0x1_0000);
    Doubled(32, 0x1_0000_0000);
    Doubled(64, 0x1_0000_0000_0000_0000);
    Doubled(128, 0x1_0000_0000_0000_0000_0000_0000_0000_0000);
  }

  lemma RootSquaredTimes(p: int)
    requires p == FieldP() && p >= 2
    ensures Cong(p, (ROOT_OF_TWO_D * ROOT_OF_TWO_D) * 121666, -243330)
  {
    FieldPIsLiteral();
  }

  lemma RootOfTwoDSquares(p: int)
    requires p == FieldP() && EdwardsField(p)
    ensures Cong(p, ROOT_OF_TWO_D * ROOT_OF_TWO_D, 2 * CurveD(p))
  {
    var d, root := CurveD(p), ROOT_OF_TWO_D;
    RootSquaredTimes(p);
    CurveDIsQuotient(p);
    NotZero(p, 121666);
    hide CurveD, Cong, Prime, FieldP, ROOT_OF_TWO_D;
    CongRefl(p, 2);
    CongMul(p, 2, 2, d * 121666, -121665);
    CongSym(p, 2 * (d * 121666), -243330);
    CongTrans(p, (root * root) * 121666, -243330, 2 * (d * 121666));
    assert (root * root) * 121666 == 121666 * (root * root) && 2 * (d * 121666) == 121666 * (2 * d);
    Cancel(p, 121666, root * root, 2 * d);
  }

  // 2*d is a square and 2 is not, so d is not.
  lemma CofactorOfTwoFails(p: int, a: int, root: int)
    requires FiveModEight(p) && Cong(p, root * root, 2 * a) && !Cong(p, a, 0)
    ensures Cong(p, Pow(a, Half(p)), -1)
  {
    var h := Half(p);
    assert 0 < h;
    RootIsNotZeroOf(p, root, a);
    SquaresPass(p, root, 2 * a);
    PowOfProduct(2, a, h);
    TwoIsNotASquare(p);
    hide Pow, Cong, Prime;
    CongRefl(p, Pow(a, h));
    CongMul(p, Pow(2, h), -1, Pow(a, h), Pow(a, h));
    CongSym(p, Pow(2, h) * Pow(a, h), -1 * Pow(a, h));
    CongTrans(p, -1 * Pow(a, h), Pow(2, h) * Pow(a, h), 1);
    CongRefl(p, 0);
    CongAdd(p, 0, 0, -1 * Pow(a, h), 1);
  }

  lemma RootIsNotZeroOf(p: int, root: int, a: int)
    requires FiveModEight(p) && Cong(p, root * root, 2 * a) && !Cong(p, a, 0)
    ensures !Cong(p, root, 0)
  {
    assert p > 2;
    NotZero(p, 2);
    hide Cong;
    if Cong(p, root, 0) {
      CongMul(p, root, 0, root, 0);
      CongSym(p, root * root, 2 * a);
      CongTrans(p, 2 * a, root * root, 0);
      Euclid(p, 2, a);
    }
  }

  lemma CurveDFails()
    requires Prime(FieldP())
    ensures PowerMod(FieldP(), CurveD(FieldP()), Half(FieldP())) != 1
  {
    var p := FieldP();
    FieldPIsEdwards();
    RootOfTwoDSquares(p);
    CurveDIsNotZero(p);
    hide FieldP, Cong, CurveD, PowerMod, Pow, ROOT_OF_TWO_D, Prime;
    CofactorOfTwoFails(p, CurveD(p), ROOT_OF_TWO_D);
    CriterionIsCong(p, CurveD(p));
    MinusOneIsNotOne(p, Pow(CurveD(p), Half(p)));
  }

  lemma MinusOneIsNotOne(p: int, a: int)
    requires p > 2 && Cong(p, a, -1)
    ensures !Cong(p, a, 1)
  {
    if Cong(p, a, 1) {
      CongAdd(p, a, 1, a, -1);
      NotZero(p, 2);
      CongSym(p, a - a, 2);
    }
  }

  // The denominator vanishes for no y, so the check divides whenever y is canonical.
  lemma DenominatorNeverVanishes(y: int)
    requires Prime(FieldP())
    ensures !Cong(FieldP(), Denominator(FieldP(), y), 0)
  {
    FieldPIsEdwards();
    CurveDFails();
    DenominatorVanishesIff(FieldP());
    hide FieldP, CurveD, PowerMod, Denominator;
  }
}
