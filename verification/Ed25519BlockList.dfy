// Which encodings the key check refuses as small-order: exactly those that decode, by section
// 5.1.3 of RFC 8032, to a point of an order that divides eight.

module Ed25519BlockList {
  import opened Ed25519Constant
  import opened Ed25519Encoding
  import opened Ed25519Point
  import opened Ed25519SmallOrder
  import opened PrimeField
  import opened QuadraticResidues

  const OCTIC_Y := 0x05fc536d880238b1_3933c6d305acdfd5_f098eff289f4c345_b027b2c28f95e826

  // The square of OCTIC_Y modulo 2^255 - 19.
  const OCTIC_YY := 0x76b9125b8bd5b257_c2c2ebc2ba609c05_6bdf9e34b4f0a103_ae4791859c155291

  // ---- The values of the listed encodings ----------------------------------

  lemma ReadEight(b: seq<int>)
    requires |b| >= 8
    ensures LittleEndian(b) ==
      b[0] + 0x100 * b[1] + 0x1_0000 * b[2] + 0x100_0000 * b[3] + 0x1_0000_0000 * b[4]
      + 0x100_0000_0000 * b[5] + 0x1_0000_0000_0000 * b[6] + 0x100_0000_0000_0000 * b[7]
      + 0x1_0000_0000_0000_0000 * LittleEndian(b[8..])
  {
    ReadFour(b);
    ReadFour(b[4..]);
    assert b[4..][4..] == b[8..];
    hide LittleEndian;
  }

  lemma ReadFour(b: seq<int>)
    requires |b| >= 4
    ensures LittleEndian(b) ==
      b[0] + 0x100 * b[1] + 0x1_0000 * b[2] + 0x100_0000 * b[3] + 0x1_0000_0000 * LittleEndian(b[4..])
  {
    assert b[1..][1..] == b[2..] && b[2..][1..] == b[3..] && b[3..][1..] == b[4..];
    assert LittleEndian(b) == b[0] + 256 * LittleEndian(b[1..]);
    assert LittleEndian(b[1..]) == b[1] + 256 * LittleEndian(b[2..]);
    assert LittleEndian(b[2..]) == b[2] + 256 * LittleEndian(b[3..]);
    assert LittleEndian(b[3..]) == b[3] + 256 * LittleEndian(b[4..]);
  }

  lemma ReadAll(b: seq<int>)
    requires |b| == 32
    ensures LittleEndian(b) ==
      Word(b, 0) + 0x1_0000_0000_0000_0000 * (Word(b, 8)
      + 0x1_0000_0000_0000_0000 * (Word(b, 16) + 0x1_0000_0000_0000_0000 * Word(b, 24)))
  {
    ReadEight(b);
    ReadEight(b[8..]);
    ReadEight(b[16..]);
    ReadEight(b[24..]);
    assert b[8..][8..] == b[16..] && b[16..][8..] == b[24..] && b[24..][8..] == [];
    assert LittleEndian([]) == 0;
    hide LittleEndian;
  }

  function Word(b: seq<int>, i: nat): int
    requires i + 8 <= |b|
  {
    b[i] + 0x100 * b[i + 1] + 0x1_0000 * b[i + 2] + 0x100_0000 * b[i + 3] + 0x1_0000_0000 * b[i + 4]
    + 0x100_0000_0000 * b[i + 5] + 0x1_0000_0000_0000 * b[i + 6] + 0x100_0000_0000_0000 * b[i + 7]
  }

  lemma OcticWords()
    ensures Word(Octic(), 0) == 0xb027b2c28f95e826 && Word(Octic(), 8) == 0xf098eff289f4c345
    ensures Word(Octic(), 16) == 0x3933c6d305acdfd5 && Word(Octic(), 24) == 0x05fc536d880238b1
  {
  }

  lemma OtherOcticWords()
    ensures Word(OtherOctic(), 0) == 0x4fd84d3d706a17c7 && Word(OtherOctic(), 8) == 0x0f67100d760b3cba
    ensures Word(OtherOctic(), 16) == 0xc6cc392cfa53202a && Word(OtherOctic(), 24) == 0x7a03ac9277fdc74e
  {
  }

  lemma OcticReads()
    ensures LittleEndian(Octic()) == OCTIC_Y
  {
    hide LittleEndian, Octic, Word;
    OcticWords();
    ReadAll(Octic());
  }

  lemma OtherOcticReads()
    ensures LittleEndian(OtherOctic()) == FieldP() - OCTIC_Y
  {
    hide LittleEndian, OtherOctic, Word, FieldP;
    OtherOcticWords();
    ReadAll(OtherOctic());
    FieldPIsLiteral();
  }

  lemma ZeroReads()
    ensures LittleEndian(ZERO) == 0
  {
    RepeatedZero(30);
    PaddedValue(0, 0, 0);
    hide Padded, LittleEndian;
  }

  // ---- The quartic has two roots -------------------------------------------

  ghost predicate SolvesQuartic(p: int, yy: int)
    requires p >= 2
  {
    Cong(p, 121665 * (yy * yy) - 243332 * yy + 121666, 0)
  }

  lemma ClearsDenominator(p: int, yy: int)
    requires EdwardsField(p)
    ensures Cong(p, CurveD(p) * (yy * yy) + 2 * yy - 1, 0) <==> SolvesQuartic(p, yy)
  {
    var d, w := CurveD(p), yy * yy;
    CurveDIsQuotient(p);
    NotZero(p, 121666);
    assert Cong(p, d * 121666 + 121665, 0);
    hide CurveD;
    var quartic, cleared := d * w + 2 * yy - 1, 121665 * w - 243332 * yy + 121666;
    assert (d * 121666 + 121665) * w == 121666 * (d * w) + 121665 * w;
    if Cong(p, quartic, 0) {
      Combine(p, quartic, -121666, d * 121666 + 121665, w, cleared);
    }
    if Cong(p, cleared, 0) {
      Combine(p, cleared, -1, d * 121666 + 121665, w, 121666 * quartic);
      ZeroFactor(p, 121666, quartic);
    }
  }

  lemma OcticSolves(p: int)
    requires p == FieldP() && p >= 2
    ensures Cong(p, OCTIC_Y * OCTIC_Y, OCTIC_YY)
    ensures SolvesQuartic(p, OCTIC_YY)
  {
    FieldPIsLiteral();
  }

  // Were there another root, -1/d would be a square.
  lemma OtherRootIsSquare(p: int, d: int, y: int, octic: int, yy: int, w: int)
    requires Prime(p) && p > 121666 && Cong(p, d * 121666 + 121665, 0)
    requires yy == y * y && Cong(p, octic * octic - w, 0)
    requires Cong(p, 121665 * (w * w) - 243332 * w + 121666, 0)
    requires Cong(p, 121665 * (yy + w) - 243332, 0)
    ensures Cong(p, d * ((y * octic) * (y * octic)) + 1, 0)
  {
    NotZero(p, 121666);
    hide Cong, Prime;
    var factor, known := 121665 * (yy + w) - 243332, 121665 * (w * w) - 243332 * w + 121666;
    assert factor * w == 121665 * (yy * w) + 121665 * (w * w) - 243332 * w;
    Combine(p, factor, w, known, -1, 121665 * (yy * w) - 121666);
    var g := (y * octic) * (y * octic);
    Regroup(y, octic, y, octic);
    assert (octic * octic - w) * (121665 * yy) == 121665 * g - 121665 * (yy * w);
    Combine(p, octic * octic - w, 121665 * yy, 121665 * (yy * w) - 121666, 1, 121665 * g - 121666);
    assert (d * 121666 + 121665) * g == 121666 * (d * g) + 121665 * g;
    Combine(p, d * 121666 + 121665, g, 121665 * g - 121666, -1, 121666 * (d * g + 1));
    ZeroFactor(p, 121666, d * g + 1);
  }

  lemma RootsDiffer(p: int, a: int, w: int)
    requires Prime(p) && SolvesQuartic(p, a) && SolvesQuartic(p, w) && !Cong(p, a - w, 0)
    ensures Cong(p, 121665 * (a + w) - 243332, 0)
  {
    var first, second := 121665 * (a * a) - 243332 * a + 121666, 121665 * (w * w) - 243332 * w + 121666;
    assert p >= 2;
    hide Cong, Prime;
    SquaresApart(a, w);
    Combine(p, first, 1, second, -1, (a - w) * (121665 * (a + w) - 243332));
    ZeroFactor(p, a - w, 121665 * (a + w) - 243332);
  }

  lemma SquaresApart(a: int, w: int)
    ensures (a - w) * (121665 * (a + w) - 243332) == 121665 * (a * a) - 121665 * (w * w) - 243332 * a + 243332 * w
  {
    assert (a - w) * (a + w) == a * a - w * w;
    assert (a - w) * (121665 * (a + w) - 243332) == 121665 * ((a - w) * (a + w)) - 243332 * (a - w);
  }

  lemma OneSquareSolves(y: int)
    requires Prime(FieldP()) && SolvesQuartic(FieldP(), y * y)
    ensures Cong(FieldP(), y * y - OCTIC_YY, 0)
  {
    var p := FieldP();
    FieldPIsEdwards();
    OcticSolves(p);
    CurveDIsQuotient(p);
    DenominatorNeverVanishes(y * OCTIC_Y);
    assert Cong(p, CurveD(p) * 121666 + 121665, 0) && Cong(p, OCTIC_Y * OCTIC_Y - OCTIC_YY, 0);
    hide FieldP, CurveD, OCTIC_Y, OCTIC_YY, EdwardsField, Prime;
    if !Cong(p, y * y - OCTIC_YY, 0) {
      RootsDiffer(p, y * y, OCTIC_YY);
      hide Cong;
      OtherRootIsSquare(p, CurveD(p), y, OCTIC_Y, y * y, OCTIC_YY);
    }
  }

  lemma RootsOfSquare(p: int, y: int, root: int)
    requires Prime(p) && 0 <= y < p && 0 < root < p && Cong(p, y * y, root * root)
    ensures y == root || y == p - root
  {
    assert (y - root) * (y + root) == y * y - root * root;
    ZeroFactor(p, y - root, y + root);
    if Cong(p, y - root, 0) {
      ResiduesAreUnique(p, y, root);
    } else {
      FromWitness(p, y, p - root, 0 + (y + root) / p - 1);
      ResiduesAreUnique(p, y, p - root);
    }
  }

  lemma OcticIsInField()
    ensures 1 < OCTIC_Y < FieldP() - OCTIC_Y
  {
    FieldPIsLiteral();
  }

  // The y of small order are five.
  lemma SmallOrderYIff(y: int)
    requires Prime(FieldP()) && 0 <= y < FieldP()
    ensures IsSmallOrderY(FieldP(), y) <==>
              y == 0 || y == 1 || y == FieldP() - 1 || y == OCTIC_Y || y == FieldP() - OCTIC_Y
  {
    var p := FieldP();
    FieldPIsEdwards();
    OcticIsInField();
    OcticSolves(p);
    ClearsDenominator(p, y * y);
    hide FieldP, CurveD, OCTIC_Y, OCTIC_YY, EdwardsField;
    if IsSmallOrderY(p, y) {
      if Cong(p, y, 0) {
        ResiduesAreUnique(p, y, 0);
      } else if Cong(p, y * y, 1) {
        OneOrMinusOne(p, y);
      } else {
        OneSquareSolves(y);
        CongSym(p, OCTIC_Y * OCTIC_Y, OCTIC_YY);
        CongTrans(p, y * y, OCTIC_YY, OCTIC_Y * OCTIC_Y);
        RootsOfSquare(p, y, OCTIC_Y);
      }
    } else if y == 0 || y == 1 || y == p - 1 || y == OCTIC_Y || y == p - OCTIC_Y {
      ListedAreSmall(p, y);
    }
  }

  lemma FieldIsOdd(p: int)
    requires EdwardsField(p)
    ensures p >= 2 && p % 2 == 1
  {
  }

  lemma ListedAreSmall(p: int, y: int)
    requires p == FieldP() && EdwardsField(p)
    requires y == 0 || y == 1 || y == p - 1 || y == OCTIC_Y || y == p - OCTIC_Y
    ensures IsSmallOrderY(p, y)
  {
    hide FieldP, CurveD, OCTIC_Y, EdwardsField, Cong;
    FieldIsOdd(p);
    if y == OCTIC_Y || y == p - OCTIC_Y {
      OcticIsSmall(p, y);
    } else if y == 0 {
      CongRefl(p, 0);
    } else {
      CongRefl(p, 1);
      OtherRoot(p, 1);
    }
  }

  lemma OcticIsSmall(p: int, y: int)
    requires p == FieldP() && EdwardsField(p) && (y == OCTIC_Y || y == p - OCTIC_Y)
    ensures IsSmallOrderY(p, y)
  {
    hide FieldP, CurveD, OCTIC_Y, OCTIC_YY, EdwardsField, Cong, SolvesQuartic;
    FieldIsOdd(p);
    OcticSolves(p);
    ClearsDenominator(p, y * y);
    OtherRoot(p, OCTIC_Y);
    CongRefl(p, OCTIC_Y * OCTIC_Y);
    CongTrans(p, y * y, OCTIC_Y * OCTIC_Y, OCTIC_YY);
    SolvesAlike(p, y * y, OCTIC_YY);
  }

  lemma SolvesAlike(p: int, a: int, w: int)
    requires p >= 2 && Cong(p, a, w) && SolvesQuartic(p, w)
    ensures SolvesQuartic(p, a)
  {
    var first, second := 121665 * (a * a) - 243332 * a + 121666, 121665 * (w * w) - 243332 * w + 121666;
    assert Cong(p, a - w, 0);
    hide Cong;
    SquaresApart(a, w);
    Combine(p, second, 1, a - w, 121665 * (a + w) - 243332, first);
  }

  // ---- The list ------------------------------------------------------------

  // Each such y belongs to a point.
  lemma SmallOrderYHasPoint(p: int, y: int)
    requires EdwardsField(p) && IsSmallOrderY(p, y)
    ensures IsCurveY(p, y)
  {
    var d, yy := CurveD(p), y * y;
    var i := RootOfMinusOne(p);
    AsZeros(p, i, y, 0, 0);
    AsZeros(p, i * y, y, 0, 0);
    AsZeros(p, 0, y, 0, 0);
    assert Cong(p, i * i + 1, 0);
    assert Cong(p, yy - 1, 0) <==> Cong(p, yy, 1);
    hide CurveD, OnCurveAt, Doubles, EdwardsField, Cong;
    if Cong(p, y, 0) {
      Multiple(p, y, y, yy);
      assert yy * (1 - d * (i * i)) == yy - d * ((i * i) * yy);
      Combine(p, i * i + 1, -1, yy, 1 - d * (i * i), -(i * i) + yy - 1 - d * ((i * i) * yy));
      assert OnCurveAt(p, i, y);
    } else if Cong(p, yy, 1) {
      assert -(0 * 0) + yy - 1 - d * ((0 * 0) * yy) == yy - 1;
      assert OnCurveAt(p, 0, y);
    } else {
      Regroup(i, y, i, y);
      DiagonalIsOnCurve(p, d, i * i, yy);
      assert OnCurveAt(p, i * y, y);
    }
  }

  lemma DiagonalIsOnCurve(p: int, d: int, ii: int, yy: int)
    requires p >= 2 && Cong(p, ii + 1, 0) && Cong(p, d * (yy * yy) + 2 * yy - 1, 0)
    ensures var xx := ii * yy; Cong(p, -xx + yy - 1 - d * (xx * yy), 0)
  {
    hide Cong;
    DiagonalTerms(d, ii, yy);
    var xx := ii * yy;
    Combine(p, ii + 1, -yy - d * (yy * yy), d * (yy * yy) + 2 * yy - 1, 1, -xx + yy - 1 - d * (xx * yy));
  }

  lemma DiagonalTerms(d: int, ii: int, yy: int)
    ensures (ii + 1) * (-yy - d * (yy * yy)) ==
            -(ii * yy) - yy - d * ((ii * yy) * yy) - d * (yy * yy)
  {
    var w := yy * yy;
    assert (ii * yy) * yy == ii * w;
    assert ii * (d * w) == d * (ii * w);
    assert (ii + 1) * (-yy - d * w) == -(ii * yy) - yy - ii * (d * w) - d * w;
  }

  // A listed encoding has one of the five y, and a set sign bit only with y = 0 and the two
  // that solve the quartic.
  lemma ListedValues(raw: seq<int>)
    requires raw in SmallOrderEncodings()
    ensures |raw| == 32 && IsBytes(raw)
    ensures var y := YOf(raw);
            || (y == 0 || y == OCTIC_Y || y == FieldP() - OCTIC_Y)
            || ((y == 1 || y == FieldP() - 1) && SignOf(raw) == 0)
  {
    hide FieldP, LittleEndian, Octic, OtherOctic, SmallOrderEncodings, Masked, OCTIC_Y, IsBytes, Repeated;
    ListedMasks(raw);
    ListedEnds(raw);
    MaskedEnds(raw);
    ZeroReads();
    OneIsOne();
    MinusOneIsMinusOne();
    OcticReads();
    OtherOcticReads();
  }

  lemma MaskedEnds(raw: seq<int>)
    requires |raw| == 32 && IsBytes(raw)
    ensures Masked(raw)[0] == raw[0] && (SignOf(raw) == 0 || SignOf(raw) == 1)
    ensures SignOf(raw) == 1 <==> raw[31] >= 128
  {
  }

  // Conversely an encoding of one of the five y is listed, unless y^2 = 1 and the sign bit is set.
  lemma ValuesAreListed(raw: seq<int>)
    requires |raw| == 32 && IsBytes(raw)
    requires var y := YOf(raw);
             || (y == 0 || y == OCTIC_Y || y == FieldP() - OCTIC_Y)
             || ((y == 1 || y == FieldP() - 1) && SignOf(raw) == 0)
    ensures raw in SmallOrderEncodings()
  {
    hide FieldP, Padded, LittleEndian, Octic, OtherOctic, SmallOrderEncodings, Masked, OCTIC_Y, IsBytes;
    PaddedValue(0, 0, 0);
    ZeroReads();
    OneIsOne();
    MinusOneIsMinusOne();
    OcticReads();
    OtherOcticReads();
    OcticsAreBytes();
    OcticIsInField();
    MaskedIsBytes(raw);
    var mask := if YOf(raw) == 0 then ZERO else if YOf(raw) == 1 then ONE
                else if YOf(raw) == OCTIC_Y then Octic()
                else if YOf(raw) == FieldP() - OCTIC_Y then OtherOctic() else MINUS_ONE;
    LittleEndianIsInjective(Masked(raw), mask);
    MaskDetermines(raw, mask);
    SignedIsListed(mask);
    SignOfSigned(mask);
  }

  lemma MaskedIsBytes(raw: seq<int>)
    requires |raw| == 32 && IsBytes(raw)
    ensures IsBytes(Masked(raw)) && YOf(raw) == LittleEndian(Masked(raw))
  {
    hide LittleEndian;
  }

  lemma SignOfSigned(b: seq<int>)
    requires |b| == 32 && IsBytes(b)
    ensures SignOf(Signed(b)) >= 1
  {
  }

  lemma SignedIsListed(b: seq<int>)
    requires b == ZERO || b == ONE || b == Octic() || b == OtherOctic() || b == MINUS_ONE
    ensures |b| == 32 && b in SmallOrderEncodings()
    ensures b == ZERO || b == Octic() || b == OtherOctic() ==> Signed(b) in SmallOrderEncodings()
  {
    hide Padded, Octic, OtherOctic;
  }

  lemma ListedDecodes(y: int, sign: int)
    requires Prime(FieldP()) && (sign == 0 || sign == 1)
    requires || (y == 0 || y == OCTIC_Y || y == FieldP() - OCTIC_Y)
             || ((y == 1 || y == FieldP() - 1) && sign == 0)
    ensures 0 <= y < FieldP()
    ensures exists x :: Decodes(FieldP(), y, sign, x) && OrderDividesEight(FieldP(), x, y)
  {
    var p := FieldP();
    FieldPIsEdwards();
    OcticIsInField();
    hide FieldP, OCTIC_Y, EdwardsField;
    SmallOrderYIff(y);
    SmallOrderYHasPoint(p, y);
    if Cong(p, y * y, 1) { OneOrMinusOne(p, y); }
    DecodableIff(p, y, sign);
    hide IsSmallOrderY, OrderDividesEight, IsCurveY;
    var x :| Decodes(p, y, sign, x);
    SmallOrderIff(p, x, y);
  }

  lemma DecodedValues(y: int, sign: int, x: int)
    requires Prime(FieldP()) && 0 <= y < FieldP() && (sign == 0 || sign == 1)
    requires Decodes(FieldP(), y, sign, x) && OrderDividesEight(FieldP(), x, y)
    ensures || (y == 0 || y == OCTIC_Y || y == FieldP() - OCTIC_Y)
            || ((y == 1 || y == FieldP() - 1) && sign == 0)
  {
    var p := FieldP();
    FieldPIsEdwards();
    hide FieldP, OCTIC_Y, EdwardsField;
    SmallOrderIff(p, x, y);
    SmallOrderYIff(y);
    DecodableIff(p, y, sign);
    UnitsSquare(p);
  }

  lemma UnitsSquare(p: int)
    requires EdwardsField(p)
    ensures Cong(p, 1 * 1, 1) && Cong(p, (p - 1) * (p - 1), 1)
  {
    FieldIsOdd(p);
    hide EdwardsField;
    CongRefl(p, 1);
    OtherRoot(p, 1);
  }

  // The list holds exactly the encodings of points whose order divides eight.
  lemma ListedIff(raw: seq<int>)
    requires Prime(FieldP()) && |raw| == 32 && IsBytes(raw)
    ensures raw in SmallOrderEncodings() <==>
              && YOf(raw) < FieldP()
              && exists x :: Decodes(FieldP(), YOf(raw), SignOf(raw), x)
                             && OrderDividesEight(FieldP(), x, YOf(raw))
  {
    var p, y, sign := FieldP(), YOf(raw), SignOf(raw);
    FieldPIsEdwards();
    OcticIsInField();
    LittleEndianIsNatural(Masked(raw));
    MaskedEnds(raw);
    hide FieldP, LittleEndian, Masked, OCTIC_Y, EdwardsField, SmallOrderEncodings;
    if raw in SmallOrderEncodings() {
      ListedValues(raw);
      ListedDecodes(y, sign);
    } else if y < p {
      forall x | Decodes(p, y, sign, x) ensures !OrderDividesEight(p, x, y) {
        if OrderDividesEight(p, x, y) {
          DecodedValues(y, sign, x);
          ValuesAreListed(raw);
        }
      }
    }
  }

  // So what is not listed and decodes is a point of another order.
  lemma UnlistedIsNotSmall(raw: seq<int>, x: int)
    requires Prime(FieldP()) && |raw| == 32 && IsBytes(raw)
    requires raw !in SmallOrderEncodings() && YOf(raw) < FieldP()
    requires Decodes(FieldP(), YOf(raw), SignOf(raw), x)
    ensures !OrderDividesEight(FieldP(), x, YOf(raw))
  {
    ListedIff(raw);
    hide FieldP, LittleEndian, Masked, OCTIC_Y, SmallOrderEncodings, OrderDividesEight, Decodes;
  }
}
