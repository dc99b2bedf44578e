// The block list of the key check: at 2^255 - 19 it holds exactly the encodings of the points
// whose order divides eight.

module Ed25519SmallOrder {
  import opened Ed25519Constant
  import opened Ed25519Encoding
  import opened Ed25519Point
  import opened PrimeField
  import opened QuadraticResidues

  // ---- Doubling ------------------------------------------------------------

  // (u, v) is the double of (x, y), by section 5.1.4 of RFC 8032 with its divisions multiplied
  // out.
  ghost predicate Doubles(p: int, x: int, y: int, u: int, v: int)
    requires p >= 2
  {
    && Cong(p, u * (1 + CurveD(p) * (x * x) * (y * y)), 2 * (x * y))
    && Cong(p, v * (1 - CurveD(p) * (x * x) * (y * y)), x * x + y * y)
  }

  // Doubling the point three times gives the neutral element (0, 1).
  ghost predicate OrderDividesEight(p: int, x: int, y: int)
    requires p >= 2
  {
    exists u, v, s, t ::
      && OnCurveAt(p, u, v) && Doubles(p, x, y, u, v)
      && OnCurveAt(p, s, t) && Doubles(p, u, v, s, t)
      && Doubles(p, s, t, 0, 1)
  }

  // The y the list is derived from.
  ghost predicate IsSmallOrderY(p: int, y: int)
    requires p >= 2
  {
    || Cong(p, y, 0) || Cong(p, y * y, 1)
    || Cong(p, CurveD(p) * ((y * y) * (y * y)) + 2 * (y * y) - 1, 0)
  }

  // A combination of zeros is zero.
  lemma Combine(p: int, a: int, m: int, b: int, n: int, sum: int)
    requires p >= 2 && Cong(p, a, 0) && Cong(p, b, 0) && sum == a * m + b * n
    ensures Cong(p, sum, 0)
  {
    CongRefl(p, m);
    CongRefl(p, n);
    CongMul(p, a, 0, m, m);
    CongMul(p, b, 0, n, n);
    CongAdd(p, a * m, 0, b * n, 0);
  }

  lemma Multiple(p: int, a: int, m: int, product: int)
    requires p >= 2 && Cong(p, a, 0) && product == a * m
    ensures Cong(p, product, 0)
  {
    CongRefl(p, m);
    CongMul(p, a, 0, m, m);
  }

  lemma ZeroFactor(p: int, a: int, b: int)
    requires Prime(p) && Cong(p, a * b, 0)
    ensures Cong(p, a, 0) || Cong(p, b, 0)
  {
    if !Cong(p, a, 0) { Euclid(p, a, b); }
  }

  lemma ZeroHalf(p: int, a: int)
    requires Prime(p) && p > 2 && Cong(p, 2 * a, 0)
    ensures Cong(p, a, 0)
  {
    NotZero(p, 2);
    Euclid(p, 2, a);
  }

  // Being on the curve and being a double, as expressions that vanish.
  lemma AsZeros(p: int, x: int, y: int, u: int, v: int)
    requires p >= 2
    ensures var d, xx, yy := CurveD(p), x * x, y * y;
            && (OnCurveAt(p, x, y) <==> Cong(p, -xx + yy - 1 - d * (xx * yy), 0))
            && (Doubles(p, x, y, u, v) <==>
                 && Cong(p, u + d * (xx * yy) * u - 2 * (x * y), 0)
                 && Cong(p, v - d * (xx * yy) * v - xx - yy, 0))
  {
    var d, xx, yy := CurveD(p), x * x, y * y;
    hide CurveD;
    ZeroTerms(d, xx, yy, x * y, u, v);
  }

  lemma ZeroTerms(d: int, xx: int, yy: int, xy: int, u: int, v: int)
    ensures -xx + yy - (1 + d * xx * yy) == -xx + yy - 1 - d * (xx * yy)
    ensures u * (1 + d * xx * yy) - 2 * xy == u + d * (xx * yy) * u - 2 * xy
    ensures v * (1 - d * xx * yy) - (xx + yy) == v - d * (xx * yy) * v - xx - yy
  {
    var g := d * (xx * yy);
    assert d * xx * yy == g;
    assert u * (1 + g) == u + g * u && v * (1 - g) == v - g * v;
  }

  // ---- Identities ----------------------------------------------------------

  lemma DoubleAtZero(s: int, g: int, w: int)
    ensures 2 * w == (s + g * s - 2 * w) * -1 + s * (1 + g)
  {
    assert s * (1 + g) == s + g * s;
  }

  lemma CurveAtZero(d: int, xx: int, yy: int)
    ensures yy - 1 == (-xx + yy - 1 - d * (xx * yy)) * 1 + xx * (1 + d * yy)
  {
    assert xx * (d * yy) == d * (xx * yy);
    assert xx * (1 + d * yy) == xx + xx * (d * yy);
  }

  lemma NeutralTerms(d: int, w: int, xx: int, yy: int)
    ensures 2 * xx == (-2 * xx - 2 * (d * w)) * -1 + w * (-2 * d)
    ensures 1 - yy - xx == (1 - (d * w) * 1 - xx - yy) * 1 + w * d
    ensures -2 * xx - 2 * (d * w) == (-xx + yy - 1 - d * w) * 1 + (1 - (d * w) * 1 - xx - yy) * 1
  {
    assert w * (-2 * d) == -2 * (d * w);
  }

  lemma NoWidth(g: int, x: int, y: int)
    ensures 0 + g * 0 - 2 * (x * y) == x * (-2 * y) == y * (-2 * x)
  {
    var w := x * y;
    assert x * (-2 * y) == -2 * w && y * (-2 * x) == -2 * w;
  }

  lemma UprightTerms(d: int, xx: int, yy: int)
    ensures 1 - d * (xx * yy) * 1 - xx - yy == (yy - 1) * -1 + xx * (-1 - d * yy)
  {
    assert xx * (d * yy) == d * (xx * yy);
    assert xx * (-1 - d * yy) == -xx - xx * (d * yy);
  }

  lemma FlatTerms(d: int, xx: int, yy: int)
    ensures -1 - d * (xx * yy) * -1 - xx - yy ==
            (-xx + yy - 1 - d * (xx * yy)) * 1 + yy * (2 * (d * xx) - 2)
  {
    assert yy * (d * xx) == d * (xx * yy);
    assert yy * (2 * (d * xx) - 2) == 2 * (yy * (d * xx)) - 2 * yy;
  }

  // ---- Halving the neutral element three times -----------------------------

  // What doubles to (0, 1) is (0, 1) or (0, -1).
  lemma HalvesOfNeutral(p: int, s: int, t: int)
    requires EdwardsField(p) && OnCurveAt(p, s, t) && Doubles(p, s, t, 0, 1)
    ensures Cong(p, s, 0) && Cong(p, t * t, 1)
  {
    var d, ss, tt := CurveD(p), s * s, t * t;
    AsZeros(p, s, t, 0, 1);
    hide CurveD, OnCurveAt, Doubles;
    Multiple(p, 0 + d * (ss * tt) * 0 - 2 * (s * t), -1, 2 * (s * t));
    ZeroHalf(p, s * t);
    Regroup(s, s, t, t);
    Regroup(s, t, s, t);
    Multiple(p, s * t, s * t, ss * tt);
    hide Cong;
    NeutralTerms(d, ss * tt, ss, tt);
    var curve, double := -ss + tt - 1 - d * (ss * tt), 1 - d * (ss * tt) * 1 - ss - tt;
    Combine(p, curve, 1, double, 1, -2 * ss - 2 * (d * (ss * tt)));
    Combine(p, -2 * ss - 2 * (d * (ss * tt)), -1, ss * tt, -2 * d, 2 * ss);
    ZeroHalf(p, ss);
    ZeroFactor(p, s, s);
    Combine(p, double, 1, ss * tt, d, 1 - tt - ss);
    Combine(p, 1 - tt - ss, -1, ss, -1, tt - 1);
    ZeroDifference(p, tt, 1);
  }

  lemma ZeroDifference(p: int, a: int, b: int)
    requires p >= 2
    ensures Cong(p, a - b, 0) <==> Cong(p, a, b)
  {
  }

  // What doubles to one of those has v = 0, or is one of them.
  lemma HalvesOfUnit(p: int, u: int, v: int, s: int, t: int)
    requires EdwardsField(p) && OnCurveAt(p, u, v) && Doubles(p, u, v, s, t)
    requires Cong(p, s, 0)
    ensures Cong(p, v, 0) || (Cong(p, u, 0) && Cong(p, v * v, 1))
  {
    var d, uu, vv := CurveD(p), u * u, v * v;
    AsZeros(p, u, v, s, t);
    assert p > 2;
    hide CurveD, OnCurveAt, Doubles, Cong;
    DoubleAtZero(s, d * (uu * vv), u * v);
    Combine(p, s + d * (uu * vv) * s - 2 * (u * v), -1, s, 1 + d * (uu * vv), 2 * (u * v));
    ZeroHalf(p, u * v);
    ZeroFactor(p, u, v);
    if Cong(p, u, 0) {
      Multiple(p, u, u, uu);
      CurveAtZero(d, uu, vv);
      Combine(p, -uu + vv - 1 - d * (uu * vv), 1, uu, 1 + d * vv, vv - 1);
      ZeroDifference(p, vv, 1);
    }
  }

  lemma QuarticFromCurve(d: int, xx: int, yy: int)
    ensures d * (yy * yy) + 2 * yy - 1 == (-xx + yy - 1 - d * (xx * yy)) + (xx + yy) * (1 + d * yy)
  {
    assert (xx + yy) * (1 + d * yy) == xx + yy + d * (xx * yy) + d * (yy * yy);
  }

  // What doubles to a point with v = 0 solves the quartic.
  lemma HalvesOfFlat(p: int, x: int, y: int, u: int, v: int)
    requires EdwardsField(p) && OnCurveAt(p, x, y) && Doubles(p, x, y, u, v) && Cong(p, v, 0)
    ensures var yy := y * y; Cong(p, CurveD(p) * (yy * yy) + 2 * yy - 1, 0)
  {
    var d, xx, yy := CurveD(p), x * x, y * y;
    AsZeros(p, x, y, u, v);
    hide CurveD, OnCurveAt, Doubles, Cong, EdwardsField;
    var double := v - d * (xx * yy) * v - xx - yy;
    assert xx + yy == double * -1 + v * (1 - d * (xx * yy));
    Combine(p, double, -1, v, 1 - d * (xx * yy), xx + yy);
    QuarticFromCurve(d, xx, yy);
    Combine(p, -xx + yy - 1 - d * (xx * yy), 1, xx + yy, 1 + d * yy, d * (yy * yy) + 2 * yy - 1);
  }

  // What doubles to a point with a zero coordinate has a y of small order.
  lemma SmallOrderHalves(p: int, x: int, y: int, u: int, v: int)
    requires EdwardsField(p) && OnCurveAt(p, x, y) && Doubles(p, x, y, u, v)
    requires Cong(p, v, 0) || Cong(p, u, 0)
    ensures IsSmallOrderY(p, y)
  {
    assert p >= 2;
    if Cong(p, v, 0) {
      HalvesOfFlat(p, x, y, u, v);
    } else {
      HalvesOfUnit(p, x, y, u, v);
    }
    hide EdwardsField, OnCurveAt, Doubles, Cong;
  }

  lemma SmallOrderHasSmallOrderY(p: int, x: int, y: int)
    requires EdwardsField(p) && OnCurveAt(p, x, y) && OrderDividesEight(p, x, y)
    ensures IsSmallOrderY(p, y)
  {
    assert p >= 2;
    hide EdwardsField, OnCurveAt, Doubles, Cong, IsSmallOrderY;
    var u, v, s, t :|
      && OnCurveAt(p, u, v) && Doubles(p, x, y, u, v)
      && OnCurveAt(p, s, t) && Doubles(p, u, v, s, t)
      && Doubles(p, s, t, 0, 1);
    HalvesOfNeutral(p, s, t);
    HalvesOfUnit(p, u, v, s, t);
    SmallOrderHalves(p, x, y, u, v);
  }

  // ---- Doubling a small-order y three times --------------------------------

  lemma FlatPoint(p: int, u: int)
    requires p >= 2 && Cong(p, u * u, -1)
    ensures OnCurveAt(p, u, 0) && Doubles(p, u, 0, 0, -1)
  {
    var d, uu := CurveD(p), u * u;
    AsZeros(p, u, 0, 0, -1);
    hide CurveD, OnCurveAt, Doubles;
    assert uu * (0 * 0) == 0 && u * 0 == 0;
    CongSym(p, uu, -1);
    CongRefl(p, 0);
  }

  lemma UprightPoints(p: int)
    requires p >= 2
    ensures OnCurveAt(p, 0, 1) && Doubles(p, 0, 1, 0, 1)
    ensures OnCurveAt(p, 0, -1) && Doubles(p, 0, -1, 0, 1)
  {
    hide CurveD;
    CongRefl(p, 0);
    CongRefl(p, 1);
  }

  lemma FlatDouble(p: int, d: int, x: int, y: int, xx: int, yy: int)
    requires p >= 2 && Cong(p, y, 0) && Cong(p, yy, 0) && Cong(p, -xx + yy - 1 - d * (xx * yy), 0)
    ensures Cong(p, 0 + d * (xx * yy) * 0 - 2 * (x * y), 0)
    ensures Cong(p, -1 - d * (xx * yy) * -1 - xx - yy, 0)
  {
    hide Cong;
    NoWidth(d * (xx * yy), x, y);
    Multiple(p, y, -2 * x, 0 + d * (xx * yy) * 0 - 2 * (x * y));
    FlatTerms(d, xx, yy);
    Combine(p, -xx + yy - 1 - d * (xx * yy), 1, yy, 2 * (d * xx) - 2, -1 - d * (xx * yy) * -1 - xx - yy);
  }

  // y = 0: the double is (0, -1).
  lemma FlatHasOrderFour(p: int, x: int, y: int)
    requires p >= 2 && OnCurveAt(p, x, y) && Cong(p, y, 0)
    ensures OrderDividesEight(p, x, y)
  {
    UprightPoints(p);
    AsZeros(p, x, y, 0, -1);
    hide CurveD, OnCurveAt, Doubles, Cong;
    Multiple(p, y, y, y * y);
    FlatDouble(p, CurveD(p), x, y, x * x, y * y);
    assert Doubles(p, x, y, 0, -1) && Doubles(p, 0, -1, 0, 1) && Doubles(p, 0, 1, 0, 1);
  }

  lemma UprightDouble(p: int, d: int, x: int, y: int, xx: int, yy: int)
    requires p >= 2 && Cong(p, x, 0) && Cong(p, xx, 0) && Cong(p, yy - 1, 0)
    ensures Cong(p, 0 + d * (xx * yy) * 0 - 2 * (x * y), 0)
    ensures Cong(p, 1 - d * (xx * yy) * 1 - xx - yy, 0)
  {
    hide Cong;
    NoWidth(d * (xx * yy), x, y);
    UprightTerms(d, xx, yy);
    Multiple(p, x, -2 * y, 0 + d * (xx * yy) * 0 - 2 * (x * y));
    Combine(p, yy - 1, -1, xx, -1 - d * yy, 1 - d * (xx * yy) * 1 - xx - yy);
  }

  // y^2 = 1: then x = 0, and the double is (0, 1).
  lemma UprightHasOrderTwo(p: int, x: int, y: int)
    requires EdwardsField(p) && OnCurveAt(p, x, y) && Cong(p, y * y, 1)
    ensures OrderDividesEight(p, x, y)
  {
    assert Cong(p, y * y - 1, 0);
    UprightPoints(p);
    OnlyZeroAtUnit(p, x, y);
    AsZeros(p, x, y, 0, 1);
    Multiple(p, x, x, x * x);
    hide CurveD, OnCurveAt, Doubles, EdwardsField, Cong;
    UprightDouble(p, CurveD(p), x, y, x * x, y * y);
    assert Doubles(p, x, y, 0, 1) && Doubles(p, 0, 1, 0, 1);
  }

  // The quartic makes x^2 = -y^2.
  lemma QuarticIsDiagonal(p: int, x: int, y: int)
    requires EdwardsField(p) && OnCurveAt(p, x, y)
    requires var yy := y * y; Cong(p, CurveD(p) * (yy * yy) + 2 * yy - 1, 0)
    ensures Cong(p, x * x + y * y, 0)
  {
    var d, xx, yy := CurveD(p), x * x, y * y;
    AsZeros(p, x, y, 0, 0);
    DenominatorIsNotZero(p, x, y);
    var quartic, curve := d * (yy * yy) + 2 * yy - 1, -xx + yy - 1 - d * (xx * yy);
    assert Denominator(p, y) == d * yy + 1;
    hide CurveD, OnCurveAt, Doubles, Cong, Denominator;
    QuarticFromCurve(d, xx, yy);
    assert (d * yy + 1) * (xx + yy) == quartic * 1 + curve * -1 by {
      assert (d * yy + 1) * (xx + yy) == (xx + yy) * (1 + d * yy);
    }
    Combine(p, quartic, 1, curve, -1, (d * yy + 1) * (xx + yy));
    ZeroFactor(p, d * yy + 1, xx + yy);
  }

  // With u = x / y, (u, 0) is the double.
  lemma DiagonalDoubles(p: int, x: int, y: int, inverse: int)
    requires p >= 2 && Cong(p, inverse * y, 1) && Cong(p, x * x + y * y, 0)
    requires var yy := y * y; Cong(p, CurveD(p) * (yy * yy) + 2 * yy - 1, 0)
    ensures Doubles(p, x, y, x * inverse, 0)
    ensures Cong(p, (x * inverse) * (x * inverse), -1)
  {
    var d, xx, yy, u := CurveD(p), x * x, y * y, x * inverse;
    AsZeros(p, x, y, u, 0);
    SquareOfInverse(p, inverse, y);
    hide CurveD, OnCurveAt, Doubles;
    assert Cong(p, inverse * y - 1, 0) && Cong(p, (inverse * inverse) * yy - 1, 0);
    DiagonalFirst(p, d, x, y, xx, yy, inverse);
    Multiple(p, xx + yy, -1, 0 - d * (xx * yy) * 0 - xx - yy);
    DiagonalSquare(p, x, inverse, xx, yy);
  }

  lemma DiagonalFirst(p: int, d: int, x: int, y: int, xx: int, yy: int, inverse: int)
    requires p >= 2 && Cong(p, inverse * y - 1, 0) && Cong(p, xx + yy, 0) && yy == y * y
    requires Cong(p, d * (yy * yy) + 2 * yy - 1, 0)
    ensures var u := x * inverse; Cong(p, u + d * (xx * yy) * u - 2 * (x * y), 0)
  {
    hide Cong;
    var weight := 1 + d * (xx * yy) - 2 * yy;
    WeightTerms(d, xx, yy);
    Combine(p, d * (yy * yy) + 2 * yy - 1, -1, xx + yy, d * yy, weight);
    WeightedTerms(weight, d * (xx * yy), x, y, yy, inverse);
    Combine(p, weight, x * inverse, inverse * y - 1, 2 * (x * y),
            x * inverse + d * (xx * yy) * (x * inverse) - 2 * (x * y));
  }

  lemma WeightTerms(d: int, xx: int, yy: int)
    ensures 1 + d * (xx * yy) - 2 * yy == (d * (yy * yy) + 2 * yy - 1) * -1 + (xx + yy) * (d * yy)
  {
    assert xx * (d * yy) == d * (xx * yy) && yy * (d * yy) == d * (yy * yy);
    assert (xx + yy) * (d * yy) == xx * (d * yy) + yy * (d * yy);
  }

  lemma WeightedTerms(weight: int, dxy: int, x: int, y: int, yy: int, inverse: int)
    requires weight == 1 + dxy - 2 * yy && yy == y * y
    ensures var u := x * inverse;
            u + dxy * u - 2 * (x * y) == weight * u + (inverse * y - 1) * (2 * (x * y))
  {
    var u := x * inverse;
    assert weight * u == u + dxy * u - 2 * (yy * u);
    assert yy * u == (inverse * y) * (x * y);
    assert (inverse * y - 1) * (2 * (x * y)) == 2 * ((inverse * y) * (x * y)) - 2 * (x * y);
  }

  lemma DiagonalSquare(p: int, x: int, inverse: int, xx: int, yy: int)
    requires p >= 2 && xx == x * x && Cong(p, xx + yy, 0) && Cong(p, (inverse * inverse) * yy - 1, 0)
    ensures Cong(p, (x * inverse) * (x * inverse), -1)
  {
    var v := inverse * inverse;
    Regroup(x, inverse, x, inverse);
    assert (xx + yy) * v == xx * v + v * yy;
    Combine(p, xx + yy, v, v * yy - 1, -1, (x * inverse) * (x * inverse) + 1);
  }

  // The quartic: the double is (u, 0) with u^2 = -1.
  lemma DiagonalHasOrderEight(p: int, x: int, y: int)
    requires EdwardsField(p) && OnCurveAt(p, x, y)
    requires var yy := y * y; Cong(p, CurveD(p) * (yy * yy) + 2 * yy - 1, 0)
    ensures OrderDividesEight(p, x, y)
  {
    QuarticIsNotZero(p, y);
    var inverse := Inverse(p, y);
    QuarticIsDiagonal(p, x, y);
    UprightPoints(p);
    hide CurveD, OnCurveAt, Doubles, EdwardsField, Cong;
    DiagonalDoubles(p, x, y, inverse);
    FlatPoint(p, x * inverse);
    assert Doubles(p, x, y, x * inverse, 0) && Doubles(p, x * inverse, 0, 0, -1) && Doubles(p, 0, -1, 0, 1);
  }

  lemma QuarticIsNotZero(p: int, y: int)
    requires EdwardsField(p)
    requires var yy := y * y; Cong(p, CurveD(p) * (yy * yy) + 2 * yy - 1, 0)
    ensures !Cong(p, y, 0)
  {
    var d, yy := CurveD(p), y * y;
    NotZero(p, 1);
    hide CurveD, Cong;
    if Cong(p, y, 0) {
      Multiple(p, y, y, yy);
      assert yy * (d * yy + 2) == d * (yy * yy) + 2 * yy;
      Combine(p, d * (yy * yy) + 2 * yy - 1, -1, yy, d * yy + 2, 1);
    }
  }

  // A point of the curve has an order that divides eight exactly when its y is 0, or 1 or -1, or
  // solves the quartic.
  lemma SmallOrderIff(p: int, x: int, y: int)
    requires EdwardsField(p) && OnCurveAt(p, x, y)
    ensures OrderDividesEight(p, x, y) <==> IsSmallOrderY(p, y)
  {
    assert p >= 2;
    if OrderDividesEight(p, x, y) {
      SmallOrderHasSmallOrderY(p, x, y);
    } else if Cong(p, y, 0) {
      FlatHasOrderFour(p, x, y);
    } else if Cong(p, y * y, 1) {
      UprightHasOrderTwo(p, x, y);
    } else if IsSmallOrderY(p, y) {
      DiagonalHasOrderEight(p, x, y);
    }
  }
}
