// The public-key check for Ed25519: which 32-byte encodings name a usable point, and how that
// compares with decoding by section 5.1.3 of RFC 8032.

module Ed25519Encoding {
  import opened Ed25519Point
  import opened Prelude
  import opened PrimeField
  import opened QuadraticResidues

  datatype KeyRefusal = SmallOrder | NonCanonical | NotOnCurve

  // ---- Encodings -----------------------------------------------------------

  predicate IsBytes(b: seq<int>) {
    forall k | 0 <= k < |b| :: 0 <= b[k] < 256
  }

  function LittleEndian(b: seq<int>): int {
    if b == [] then 0 else b[0] + 256 * LittleEndian(b[1..])
  }

  // The top bit of the last byte is the sign of x.
  function Masked(raw: seq<int>): (b: seq<int>)
    requires |raw| == 32
    ensures |b| == 32
  {
    raw[31 := raw[31] % 128]
  }

  function YOf(raw: seq<int>): int
    requires |raw| == 32
  {
    LittleEndian(Masked(raw))
  }

  function SignOf(raw: seq<int>): int
    requires |raw| == 32
  {
    raw[31] / 128
  }

  method DecodeY(raw: seq<int>) returns (y: int)
    requires |raw| == 32 && IsBytes(raw)
    ensures y == YOf(raw) && y >= 0
  {
    var bytes := raw[31 := raw[31] % 128];
    y := 0;
    var k := 32;
    while k > 0
      invariant 0 <= k <= 32
      invariant y == LittleEndian(bytes[k..]) && y >= 0
    {
      k := k - 1;
      y := y * 256 + bytes[k];
      assert bytes[k..][1..] == bytes[k + 1..];
    }
    assert bytes[0..] == bytes;
  }

  // ---- The table of small-order encodings ----------------------------------

  function Repeated(n: nat, value: int): (s: seq<int>)
    ensures |s| == n
  {
    if n == 0 then [] else [value] + Repeated(n - 1, value)
  }

  // First byte, a run of thirty equal ones, last byte.
  function Padded(first: int, middle: int, last: int): (s: seq<int>)
    ensures |s| == 32 && s[0] == first && s[31] == last
  {
    [first] + Repeated(30, middle) + [last]
  }

  // The same y with the sign bit set.
  function Signed(b: seq<int>): seq<int>
    requires |b| == 32
  {
    b[31 := b[31] + 128]
  }

  const ZERO := Padded(0, 0, 0)

  const ONE := Padded(1, 0, 0)

  const MINUS_ONE := Padded(0xec, 0xff, 0x7f)

  function Octic(): (s: seq<int>)
    ensures |s| == 32 && s[0] == 0x26 && s[31] == 0x05
  {
    [0x26, 0xe8, 0x95, 0x8f, 0xc2, 0xb2, 0x27, 0xb0, 0x45, 0xc3, 0xf4, 0x89, 0xf2, 0xef, 0x98, 0xf0,
    0xd5, 0xdf, 0xac, 0x05, 0xd3, 0xc6, 0x33, 0x39, 0xb1, 0x38, 0x02, 0x88, 0x6d, 0x53, 0xfc, 0x05]
  }

  function OtherOctic(): (s: seq<int>)
    ensures |s| == 32 && s[0] == 0xc7 && s[31] == 0x7a
  {
    [0xc7, 0x17, 0x6a, 0x70, 0x3d, 0x4d, 0xd8, 0x4f, 0xba, 0x3c, 0x0b, 0x76, 0x0d, 0x10, 0x67, 0x0f,
    0x2a, 0x20, 0x53, 0xfa, 0x2c, 0x39, 0xcc, 0xc6, 0x4e, 0xc7, 0xfd, 0x77, 0x92, 0xac, 0x03, 0x7a]
  }

  function Listed(zero: seq<int>, one: seq<int>, octic: seq<int>, other: seq<int>, minusOne: seq<int>)
    : set<seq<int>>
    requires |zero| == |octic| == |other| == 32
  {
    {zero, Signed(zero), one, octic, Signed(octic), other, Signed(other), minusOne}
  }

  // y = 0 and both y of order 8 are listed with either sign, y = 1 and y = -1 only without.
  function SmallOrderEncodings(): set<seq<int>> {
    Listed(ZERO, ONE, Octic(), OtherOctic(), MINUS_ONE)
  }

  // Refuses small-order encodings, y outside the field, and y without a curve point, in this
  // order, and nothing else.
  method AssertUsablePoint(raw: seq<int>, p: int) returns (error: Option<KeyRefusal>)
    requires |raw| == 32 && IsBytes(raw) && EdwardsField(p)
    ensures error == Some(SmallOrder) <==> raw in SmallOrderEncodings()
    ensures error == Some(NonCanonical) <==> raw !in SmallOrderEncodings() && YOf(raw) >= p
    ensures error == Some(NotOnCurve) <==>
              raw !in SmallOrderEncodings() && YOf(raw) < p && !IsCurveY(p, YOf(raw))
  {
    hide SmallOrderEncodings;
    if raw in SmallOrderEncodings() {
      return Some(SmallOrder);
    }
    var y := DecodeY(raw);
    if y >= p {
      return Some(NonCanonical);
    }
    var onCurve := IsOnCurve(y, p);
    return if onCurve then None else Some(NotOnCurve);
  }

  lemma {:induction false} LittleEndianIsInjective(a: seq<int>, b: seq<int>)
    requires IsBytes(a) && IsBytes(b) && |a| == |b| && LittleEndian(a) == LittleEndian(b)
    ensures a == b
  {
    if a != [] {
      assert a[0] == b[0];
      LittleEndianIsInjective(a[1..], b[1..]);
      assert a == [a[0]] + a[1..] && b == [b[0]] + b[1..];
    }
  }

  // A stored key is the only accepted encoding of its y and sign.
  lemma AcceptedEncodingIsUnique(p: int, a: seq<int>, b: seq<int>)
    requires p >= 2 && |a| == |b| == 32 && IsBytes(a) && IsBytes(b)
    requires 0 <= YOf(a) < p && 0 <= YOf(b) < p
    requires Cong(p, YOf(a), YOf(b)) && SignOf(a) == SignOf(b)
    ensures a == b
  {
    ResiduesAreUnique(p, YOf(a), YOf(b));
    LittleEndianIsInjective(Masked(a), Masked(b));
    forall k | 0 <= k < 32 ensures a[k] == b[k] {
      assert Masked(a)[k] == Masked(b)[k];
    }
  }

  // A point of the curve with this y and with x of this parity.
  ghost predicate Decodes(p: int, y: int, sign: int, x: int)
    requires p >= 2
  {
    0 <= x < p && x % 2 == sign && OnCurveAt(p, x, y)
  }

  // Decoding as section 5.1.3 of RFC 8032 defines it asks more than the check: with x = 0,
  // that is with y^2 = 1, the sign bit must be clear.
  lemma DecodableIff(p: int, y: int, sign: int)
    requires EdwardsField(p) && (sign == 0 || sign == 1)
    ensures (exists x :: Decodes(p, y, sign, x)) <==>
              IsCurveY(p, y) && (sign == 0 || !Cong(p, y * y, 1))
  {
    if x :| Decodes(p, y, sign, x) {
      if Cong(p, y * y, 1) {
        OnlyZeroAtUnit(p, x, y);
        ResiduesAreUnique(p, x, 0);
      }
    }
    if IsCurveY(p, y) && (sign == 0 || !Cong(p, y * y, 1)) {
      var x :| OnCurveAt(p, x, y);
      assert p % 2 == 1;
      BothSigns(p, x, y, sign);
    }
  }

  lemma OnlyZeroAtUnit(p: int, x: int, y: int)
    requires EdwardsField(p) && OnCurveAt(p, x, y) && Cong(p, y * y, 1)
    ensures Cong(p, x, 0)
  {
    var den := Denominator(p, y);
    Rearranged(p, x, y);
    DenominatorIsNotZero(p, x, y);
    hide Denominator, OnCurveAt;
    CongRefl(p, 1);
    CongAdd(p, y * y, 1, 1, 1);
    CongTrans(p, (x * x) * den, y * y - 1, 0);
    assert (x * x) * den == den * (x * x);
    Euclid(p, den, x * x);
    if !Cong(p, x, 0) { Euclid(p, x, x); }
  }

  // The other root of a nonzero one has the other parity.
  lemma OtherRoot(p: int, r: int)
    requires p >= 2 && p % 2 == 1
    ensures Cong(p, (p - r) * (p - r), r * r)
    ensures (p - r) % 2 != r % 2
  {
    assert (p - r) * (p - r) - r * r == p * (p - 2 * r);
    FromWitness(p, (p - r) * (p - r), r * r, p - 2 * r);
  }

  lemma BothSigns(p: int, x: int, y: int, sign: int)
    requires p >= 2 && p % 2 == 1 && OnCurveAt(p, x, y) && (sign == 0 || sign == 1)
    requires sign == 0 || !Cong(p, y * y, 1)
    ensures exists z :: Decodes(p, y, sign, z)
  {
    var r := x % p;
    ModIsCong(p, x);
    CongMul(p, r, x, r, x);
    SameSquareSamePoint(p, x, r, y);
    OtherRoot(p, r);
    hide OnCurveAt, Cong;
    if r % 2 == sign {
      assert Decodes(p, y, sign, r);
    } else if r == 0 {
      UnitAtZero(p, y);
    } else {
      SameSquareSamePoint(p, r, p - r, y);
      assert Decodes(p, y, sign, p - r);
    }
  }

  lemma SameSquareSamePoint(p: int, x: int, z: int, y: int)
    requires p >= 2 && OnCurveAt(p, x, y) && Cong(p, z * z, x * x)
    ensures OnCurveAt(p, z, y)
  {
    var den := Denominator(p, y);
    Rearranged(p, x, y);
    Rearranged(p, z, y);
    CongRefl(p, den);
    CongMul(p, z * z, x * x, den, den);
    CongTrans(p, (z * z) * den, (x * x) * den, y * y - 1);
  }

  lemma UnitAtZero(p: int, y: int)
    requires p >= 2 && OnCurveAt(p, 0, y)
    ensures Cong(p, y * y, 1)
  {
  }

  // ---- At the field of the curve -------------------------------------------

  function FieldP(): int {
    Pow(2, 255) - 19
  }

  lemma {:induction false} PowIsPositive(b: int, n: nat)
    requires b >= 1
    ensures Pow(b, n) >= 1
  {
    if n > 0 {
      PowIsPositive(b, n - 1);
      ProductAtLeast(b, Pow(b, n - 1));
    }
  }

  lemma FieldPIsEdwards()
    requires Prime(FieldP())
    ensures EdwardsField(FieldP())
  {
    PowIsPositive(2, 235);
    PowAdd(2, 20, 235);
    PowTwenty();
    hide Prime, Pow;
    assert Pow(2, 255) == 1048576 * Pow(2, 235);
  }

  lemma PowTwenty()
    ensures Pow(2, 20) == 1048576
  {
    assert Pow(2, 10) == 1024;
    PowAdd(2, 10, 10);
  }

  lemma {:induction false} RepeatedZero(n: nat)
    ensures LittleEndian(Repeated(n, 0) + [0]) == 0
  {
    if n > 0 {
      RepeatedZero(n - 1);
      assert (Repeated(n, 0) + [0])[1..] == Repeated(n - 1, 0) + [0];
    }
  }

  lemma {:induction false} RepeatedTop(n: nat)
    ensures LittleEndian(Repeated(n, 0xff) + [0x7f]) == Pow(2, 8 * n + 7) - 1
  {
    if n == 0 {
      assert Pow(2, 7) == 128;
    } else {
      RepeatedTop(n - 1);
      PowAdd(2, 8, 8 * n - 1);
      assert Pow(2, 8) == 256;
      assert (Repeated(n, 0xff) + [0x7f])[1..] == Repeated(n - 1, 0xff) + [0x7f];
    }
  }

  lemma {:induction false} RepeatedBytes(n: nat, value: int)
    requires 0 <= value < 256
    ensures IsBytes(Repeated(n, value))
  {
    if n > 0 {
      RepeatedBytes(n - 1, value);
    }
  }

  lemma PaddedValue(first: int, middle: int, last: int)
    requires 0 <= first < 256 && 0 <= middle < 256 && 0 <= last < 128
    ensures var b := Padded(first, middle, last);
            && IsBytes(b) && Masked(b) == b
            && LittleEndian(b) == first + 256 * LittleEndian(Repeated(30, middle) + [last])
  {
    RepeatedBytes(30, middle);
    hide Repeated;
    assert Padded(first, middle, last)[1..] == Repeated(30, middle) + [last];
  }

  lemma OneIsOne()
    ensures IsBytes(ONE) && Masked(ONE) == ONE && YOf(ONE) == LittleEndian(ONE) == 1
  {
    hide Repeated, LittleEndian, Padded;
    RepeatedZero(30);
    PaddedValue(1, 0, 0);
  }

  lemma MinusOneIsMinusOne()
    ensures IsBytes(MINUS_ONE) && Masked(MINUS_ONE) == MINUS_ONE
    ensures YOf(MINUS_ONE) == LittleEndian(MINUS_ONE) == FieldP() - 1
  {
    hide Repeated, LittleEndian, Padded, Pow;
    RepeatedTop(30);
    PaddedValue(0xec, 0xff, 0x7f);
    PowAdd(2, 8, 247);
    PowEight();
  }

  lemma PowEight()
    ensures Pow(2, 8) == 256
  {
  }

  // The first and last bytes tell the listed encodings apart.
  lemma ListedEnds(b: seq<int>)
    requires b in SmallOrderEncodings()
    ensures |b| == 32
    ensures (b[0], b[31]) in
      {(0, 0), (0, 0x80), (1, 0), (0x26, 0x05), (0x26, 0x85), (0xc7, 0x7a), (0xc7, 0xfa), (0xec, 0x7f)}
  {
    hide Padded, Octic, OtherOctic;
  }

  // y = 1 with the sign bit set: a curve point has this y, none has this y and this sign.
  lemma AcceptedButNotDecodable(p: int)
    requires EdwardsField(p)
    ensures var raw := Signed(ONE);
            && IsBytes(raw) && raw !in SmallOrderEncodings()
            && YOf(raw) == 1 && SignOf(raw) == 1 && IsCurveY(p, 1)
            && !exists x :: Decodes(p, 1, 1, x)
  {
    SignedOneReads();
    OneIsCurveY(p);
    CongRefl(p, 1);
    hide Decodes, IsCurveY, Signed, SmallOrderEncodings, YOf, SignOf;
    DecodableIff(p, 1, 1);
  }

  lemma SignedOneReads()
    ensures IsBytes(Signed(ONE)) && YOf(Signed(ONE)) == 1 && SignOf(Signed(ONE)) == 1
    ensures Signed(ONE) !in SmallOrderEncodings()
  {
    hide SmallOrderEncodings, Padded, LittleEndian;
    OneIsOne();
    assert Masked(Signed(ONE)) == ONE;
    if Signed(ONE) in SmallOrderEncodings() {
      ListedEnds(Signed(ONE));
    }
  }

  lemma OneIsCurveY(p: int)
    requires p >= 2
    ensures IsCurveY(p, 1)
  {
    CongRefl(p, 0);
    Rearranged(p, 0, 1);
    assert OnCurveAt(p, 0, 1);
  }

  ghost predicate SharesListedY(raw: seq<int>)
    requires |raw| == 32
  {
    exists t :: t in SmallOrderEncodings() && |t| == 32 && YOf(t) == YOf(raw)
  }

  lemma MaskDetermines(raw: seq<int>, b: seq<int>)
    requires |raw| == |b| == 32 && IsBytes(raw) && Masked(raw) == b
    ensures raw == b || raw == Signed(b)
  {
    forall k | 0 <= k < 31 ensures raw[k] == b[k] { assert raw[k] == Masked(raw)[k]; }
    assert b[31] == raw[31] % 128;
    assert raw[31] == b[31] || raw[31] == b[31] + 128;
  }

  lemma YDeterminesMask(raw: seq<int>, t: seq<int>)
    requires |raw| == |t| == 32 && IsBytes(raw) && IsBytes(t) && YOf(raw) == YOf(t)
    ensures Masked(raw) == Masked(t)
  {
    LittleEndianIsInjective(Masked(raw), Masked(t));
  }

  lemma BothSignsMask(b: seq<int>)
    requires |b| == 32 && IsBytes(b) && b[31] < 128
    ensures IsBytes(Signed(b)) && |Signed(b)| == 32 && Masked(Signed(b)) == Masked(b) == b
  {
  }

  lemma OcticsAreBytes()
    ensures IsBytes(Octic()) && IsBytes(OtherOctic())
  {
  }

  predicate Unsigned(b: seq<int>) {
    |b| == 32 && IsBytes(b) && b[31] < 128
  }

  predicate OneOf(
      t: seq<int>, a: seq<int>, b: seq<int>, c: seq<int>, d: seq<int>, e: seq<int>)
  {
    t == a || t == b || t == c || t == d || t == e
  }

  lemma MasksOfSigns(a: seq<int>, b: seq<int>, c: seq<int>, d: seq<int>, e: seq<int>, t: seq<int>)
    requires Unsigned(a) && Unsigned(b) && Unsigned(c) && Unsigned(d) && Unsigned(e)
    requires t in Listed(a, b, c, d, e)
    ensures |t| == 32 && IsBytes(t) && OneOf(Masked(t), a, b, c, d, e)
  {
    BothSignsMask(a);
    BothSignsMask(b);
    BothSignsMask(c);
    BothSignsMask(d);
    BothSignsMask(e);
    hide Signed, Masked, IsBytes;
  }

  // Without their sign bits the listed encodings are five.
  lemma ListedMasks(t: seq<int>)
    requires t in SmallOrderEncodings()
    ensures |t| == 32 && IsBytes(t)
    ensures OneOf(Masked(t), ZERO, ONE, Octic(), OtherOctic(), MINUS_ONE)
  {
    PaddedValue(0, 0, 0);
    OneIsOne();
    MinusOneIsMinusOne();
    OcticsAreBytes();
    hide Padded, LittleEndian, Masked, IsBytes, Octic, OtherOctic, Listed, OneOf;
    MasksOfSigns(ZERO, ONE, Octic(), OtherOctic(), MINUS_ONE, t);
  }

  // An encoding that is not listed shares its y with a listed one exactly when y^2 = 1, and
  // then it is the listed one with the sign bit set.
  lemma SharesListedYIff(raw: seq<int>)
    requires Prime(FieldP()) && |raw| == 32 && IsBytes(raw)
    requires raw !in SmallOrderEncodings() && YOf(raw) < FieldP()
    ensures SharesListedY(raw) <==> Cong(FieldP(), YOf(raw) * YOf(raw), 1)
    ensures SharesListedY(raw) ==> SignOf(raw) == 1
  {
    FieldPIsEdwards();
    if SharesListedY(raw) {
      var t :| t in SmallOrderEncodings() && |t| == 32 && YOf(t) == YOf(raw);
      ListedMasks(t);
      YDeterminesMask(raw, t);
      MaskDetermines(raw, Masked(t));
      UnlistedHasUnitMask(raw);
      UnitMaskSquares(raw);
    }
    if Cong(FieldP(), YOf(raw) * YOf(raw), 1) {
      UnitsAreListed(raw);
    }
  }

  lemma UnlistedHasUnitMask(raw: seq<int>)
    requires |raw| == 32 && raw !in SmallOrderEncodings() && IsBytes(raw)
    requires OneOf(Masked(raw), ZERO, ONE, Octic(), OtherOctic(), MINUS_ONE)
    requires raw == Masked(raw) || raw == Signed(Masked(raw))
    ensures raw == Signed(ONE) || raw == Signed(MINUS_ONE)
    ensures Masked(raw) == ONE || Masked(raw) == MINUS_ONE
    ensures SignOf(raw) == 1
  {
    hide Padded, Octic, OtherOctic;
  }

  lemma UnitMaskSquares(raw: seq<int>)
    requires EdwardsField(FieldP()) && |raw| == 32 && (Masked(raw) == ONE || Masked(raw) == MINUS_ONE)
    ensures Cong(FieldP(), YOf(raw) * YOf(raw), 1)
  {
    var p, y := FieldP(), YOf(raw);
    OneIsOne();
    MinusOneIsMinusOne();
    hide FieldP, Padded, LittleEndian;
    CongRefl(p, 1);
    if y == p - 1 {
      OtherRoot(p, 1);
    }
  }

  lemma UnitsAreListed(raw: seq<int>)
    requires EdwardsField(FieldP()) && |raw| == 32 && IsBytes(raw) && YOf(raw) < FieldP()
    requires Cong(FieldP(), YOf(raw) * YOf(raw), 1)
    ensures SharesListedY(raw)
  {
    LittleEndianIsNatural(Masked(raw));
    OneOrMinusOne(FieldP(), YOf(raw));
    hide FieldP, LittleEndian, EdwardsField, Cong;
    UnitYsAreListed(raw);
  }

  lemma UnitYsAreListed(raw: seq<int>)
    requires |raw| == 32 && (YOf(raw) == 1 || YOf(raw) == FieldP() - 1)
    ensures SharesListedY(raw)
  {
    OneIsOne();
    MinusOneIsMinusOne();
    BothUnitsListed();
    hide FieldP, Padded, LittleEndian, SmallOrderEncodings, YOf;
  }

  lemma BothUnitsListed()
    ensures ONE in SmallOrderEncodings() && MINUS_ONE in SmallOrderEncodings()
  {
  }

  lemma OneOrMinusOne(p: int, y: int)
    requires Prime(p) && 0 <= y < p && Cong(p, y * y, 1)
    ensures y == 1 || y == p - 1
  {
    RootsOfOne(p, y);
    hide Prime, Cong;
    if Cong(p, y, 1) {
      ResiduesAreUnique(p, y, 1);
    } else {
      FromWitness(p, -1, p - 1, -1);
      CongTrans(p, y, -1, p - 1);
      ResiduesAreUnique(p, y, p - 1);
    }
  }

  lemma {:induction false} LittleEndianIsNatural(b: seq<int>)
    requires IsBytes(b)
    ensures LittleEndian(b) >= 0
  {
    if b != [] {
      LittleEndianIsNatural(b[1..]);
    }
  }

  // What the check accepts decodes by section 5.1.3 of RFC 8032 exactly when no listed
  // encoding has its y.
  lemma AcceptedDecodesIff(raw: seq<int>)
    requires Prime(FieldP()) && |raw| == 32 && IsBytes(raw)
    requires raw !in SmallOrderEncodings() && YOf(raw) < FieldP() && IsCurveY(FieldP(), YOf(raw))
    ensures (exists x :: Decodes(FieldP(), YOf(raw), SignOf(raw), x)) <==> !SharesListedY(raw)
  {
    FieldPIsEdwards();
    SharesListedYIff(raw);
    hide FieldP, IsCurveY, Decodes, SharesListedY, SmallOrderEncodings;
    DecodableIff(FieldP(), YOf(raw), SignOf(raw));
  }
}
