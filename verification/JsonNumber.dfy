// Numbers as JSON.stringify prints them (ECMA-262, Number::toString with radix 10)
// and as a JSON reader decodes them, over UTF-16 code units.

module CodeUnits {
  type CodeUnit = u: int | 0 <= u < 0x1_0000
  type Text = seq<CodeUnit>

  const QUOTE: CodeUnit := 0x22
  const COMMA: CodeUnit := 0x2C
  const MINUS: CodeUnit := 0x2D
  const PLUS: CodeUnit := 0x2B
  const DOT: CodeUnit := 0x2E
  const ZERO: CodeUnit := 0x30
  const COLON: CodeUnit := 0x3A
  const OPEN_BRACKET: CodeUnit := 0x5B
  const BACKSLASH: CodeUnit := 0x5C
  const CLOSE_BRACKET: CodeUnit := 0x5D
  const LOWER_E: CodeUnit := 0x65
  const OPEN_BRACE: CodeUnit := 0x7B
  const CLOSE_BRACE: CodeUnit := 0x7D

  predicate IsDigit(c: CodeUnit) {
    0x30 <= c <= 0x39
  }

  predicate AllDigits(t: Text) {
    forall i :: 0 <= i < |t| ==> IsDigit(t[i])
  }

  // The code units a printed number is made of.
  predicate IsNumberUnit(c: CodeUnit) {
    IsDigit(c) || c == MINUS || c == PLUS || c == DOT || c == LOWER_E
  }
}

module JsonNumber {
  import opened CodeUnits
  import opened Prelude

  // A finite number: either zero, or (-1)^negative * 0.d1 d2 ... dk * 10^point, the
  // shortest decimal that names it. `digits` are the code units of d1 ... dk.
  datatype Num = Zero(negative: bool) | Finite(negative: bool, digits: Text, point: int)
  {
    predicate Valid() {
      Finite? ==>
        && |digits| > 0 && AllDigits(digits)
        && digits[0] != ZERO && digits[|digits| - 1] != ZERO
    }

    // Negative zero and zero are the same JSON number.
    function Canonical(): Num {
      if Zero? then Zero(false) else this
    }
  }

  function Zeros(n: nat): (t: Text)
    ensures |t| == n && forall i :: 0 <= i < n ==> t[i] == ZERO
  {
    seq(n, i => ZERO)
  }

  function PrintNat(n: nat): (t: Text)
    ensures |t| > 0 && AllDigits(t)
  {
    var last: CodeUnit := ZERO + n % 10;
    if n < 10 then [last] else PrintNat(n / 10) + [last]
  }

  function PrintExponent(e: int): Text {
    if e > 0 then [LOWER_E, PLUS] + PrintNat(e) else [LOWER_E, MINUS] + PrintNat(-e)
  }

  // The magnitude of a nonzero number, case by case as Number::toString defines it.
  function PrintMagnitude(ds: Text, n: int): Text
    requires |ds| > 0
  {
    var k := |ds|;
    if k <= n <= 21 then ds + Zeros(n - k)
    else if 0 < n <= 21 then ds[..n] + [DOT] + ds[n..]
    else if -6 < n <= 0 then [ZERO, DOT] + Zeros(-n) + ds
    else if k == 1 then ds + PrintExponent(n - 1)
    else ds[..1] + [DOT] + ds[1..] + PrintExponent(n - 1)
  }

  function PrintNum(x: Num): Text
    requires x.Valid()
  {
    match x
    case Zero(_) => [ZERO]
    case Finite(negative, ds, n) => (if negative then [MINUS] else []) + PrintMagnitude(ds, n)
  }

  // ---- Reading -------------------------------------------------------------

  // Index of the first occurrence of `c`, or the length.
  function Find(t: Text, c: CodeUnit): (i: nat)
    ensures i <= |t|
    ensures i < |t| ==> t[i] == c
    ensures forall j :: 0 <= j < i ==> t[j] != c
  {
    if t == [] || t[0] == c then 0 else 1 + Find(t[1..], c)
  }

  function ReadNat(t: Text): int {
    if t == [] then 0 else ReadNat(t[..|t| - 1]) * 10 + (t[|t| - 1] - ZERO)
  }

  function ReadExponent(t: Text): Option<int> {
    if t == [] then Some(0)
    else if |t| >= 3 && t[0] == LOWER_E && AllDigits(t[2..]) then
      if t[1] == PLUS then Some(ReadNat(t[2..]))
      else if t[1] == MINUS then Some(-ReadNat(t[2..]))
      else None
    else None
  }

  function StripTrailing(ds: Text): Text {
    if ds != [] && ds[|ds| - 1] == ZERO then StripTrailing(ds[..|ds| - 1]) else ds
  }

  // The number 0.ds * 10^point, in its shortest form.
  function Normalize(negative: bool, ds: Text, point: int): Num {
    if ds == [] then Zero(negative)
    else if ds[0] == ZERO then Normalize(negative, ds[1..], point - 1)
    else Finite(negative, StripTrailing(ds), point)
  }

  // The digits before and after the decimal point.
  function SplitPoint(mantissa: Text): (Text, Text) {
    var d := Find(mantissa, DOT);
    (mantissa[..d], if d < |mantissa| then mantissa[d + 1..] else [])
  }

  function Assemble(negative: bool, whole: Text, frac: Text, exponent: Option<int>): Option<Num> {
    if whole == [] || !AllDigits(whole) || !AllDigits(frac) || exponent.None? then None
    else Some(Normalize(negative, whole + frac, |whole| + exponent.value))
  }

  // Reads `int [frac] [exp]` as an exact decimal.
  function ReadMagnitude(negative: bool, t: Text): Option<Num> {
    var e := Find(t, LOWER_E);
    var parts := SplitPoint(t[..e]);
    Assemble(negative, parts.0, parts.1, ReadExponent(t[e..]))
  }

  function ReadNum(t: Text): Option<Num> {
    if t != [] && t[0] == MINUS then ReadMagnitude(true, t[1..]) else ReadMagnitude(false, t)
  }

  // ---- The reader inverts the printer --------------------------------------

  lemma {:induction false} ReadPrintNat(n: nat)
    ensures ReadNat(PrintNat(n)) == n
  {
    var t := PrintNat(n);
    if n >= 10 {
      ReadPrintNat(n / 10);
      assert t[..|t| - 1] == PrintNat(n / 10);
    } else {
      assert t[..|t| - 1] == [];
    }
  }

  lemma ReadPrintExponent(e: int)
    requires e != 0
    ensures ReadExponent(PrintExponent(e)) == Some(e)
  {
    var magnitude := if e > 0 then e else -e;
    ReadPrintNat(magnitude);
    assert PrintExponent(e)[2..] == PrintNat(magnitude);
  }

  lemma FindPast(a: Text, c: CodeUnit, b: Text)
    requires c !in a
    ensures Find(a + b, c) == |a| + Find(b, c)
  {
    if a == [] {
      assert a + b == b;
    } else {
      assert (a + b)[1..] == a[1..] + b;
      FindPast(a[1..], c, b);
    }
  }

  lemma {:induction false} StripTrailingZeros(ds: Text, m: nat)
    requires |ds| > 0 && ds[|ds| - 1] != ZERO
    ensures StripTrailing(ds + Zeros(m)) == ds
  {
    var t := ds + Zeros(m);
    if m > 0 {
      assert t[..|t| - 1] == ds + Zeros(m - 1);
      StripTrailingZeros(ds, m - 1);
    } else {
      assert t == ds;
    }
  }

  lemma {:induction false} NormalizeLeadingZeros(negative: bool, m: nat, ds: Text, point: int)
    requires |ds| > 0 && ds[0] != ZERO
    ensures Normalize(negative, Zeros(m) + ds, point) == Finite(negative, StripTrailing(ds), point - m)
  {
    var t := Zeros(m) + ds;
    if m > 0 {
      assert t[1..] == Zeros(m - 1) + ds;
      NormalizeLeadingZeros(negative, m - 1, ds, point - 1);
    } else {
      assert t == ds;
    }
  }

  lemma SplitsAtPoint(whole: Text, frac: Text)
    requires AllDigits(whole)
    ensures SplitPoint(whole) == (whole, [])
    ensures SplitPoint(whole + [DOT] + frac) == (whole, frac)
  {
    FindPast(whole, DOT, []);
    assert whole + [] == whole;
    var t := whole + [DOT] + frac;
    FindPast(whole, DOT, [DOT] + frac);
    assert t == whole + ([DOT] + frac);
    assert t[|whole| + 1..] == frac;
  }

  lemma ReadsMantissaAndExponent(negative: bool, mantissa: Text, exp: Text)
    requires LOWER_E !in mantissa
    requires exp == [] || exp[0] == LOWER_E
    ensures var parts := SplitPoint(mantissa);
            ReadMagnitude(negative, mantissa + exp)
              == Assemble(negative, parts.0, parts.1, ReadExponent(exp))
  {
    FindPast(mantissa, LOWER_E, exp);
    var t := mantissa + exp;
    assert t[..|mantissa|] == mantissa;
    assert t[|mantissa|..] == exp;
  }

  lemma ReadWhole(negative: bool, whole: Text, exp: Text)
    requires AllDigits(whole)
    requires exp == [] || exp[0] == LOWER_E
    ensures ReadMagnitude(negative, whole + exp)
              == Assemble(negative, whole, [], ReadExponent(exp))
  {
    SplitsAtPoint(whole, []);
    ReadsMantissaAndExponent(negative, whole, exp);
  }

  lemma ReadPointed(negative: bool, whole: Text, frac: Text, exp: Text)
    requires AllDigits(whole) && AllDigits(frac)
    requires exp == [] || exp[0] == LOWER_E
    ensures ReadMagnitude(negative, whole + [DOT] + frac + exp)
              == Assemble(negative, whole, frac, ReadExponent(exp))
  {
    SplitsAtPoint(whole, frac);
    ReadsMantissaAndExponent(negative, whole + [DOT] + frac, exp);
  }

  lemma NormalizeShortest(negative: bool, ds: Text, m: nat, point: int)
    requires Finite(negative, ds, point).Valid()
    ensures Normalize(negative, ds, point) == Finite(negative, ds, point)
    ensures Normalize(negative, ds + Zeros(m), point) == Finite(negative, ds, point)
    ensures Normalize(negative, Zeros(m) + ds, point + m) == Finite(negative, ds, point)
  {
    StripTrailingZeros(ds, m);
    StripTrailingZeros(ds, 0);
    assert ds + Zeros(0) == ds;
    NormalizeLeadingZeros(negative, m, ds, point + m);
  }

  lemma ReadPrintInteger(negative: bool, ds: Text, n: int)
    requires Finite(negative, ds, n).Valid() && |ds| <= n <= 21
    ensures ReadMagnitude(negative, PrintMagnitude(ds, n)) == Some(Finite(negative, ds, n))
  {
    var whole := ds + Zeros(n - |ds|);
    NormalizeShortest(negative, ds, n - |ds|, n);
    ReadWhole(negative, whole, []);
    assert whole + [] == whole == PrintMagnitude(ds, n);
  }

  lemma ReadSplitDigits(negative: bool, whole: Text, frac: Text)
    requires whole != [] && Finite(negative, whole + frac, |whole|).Valid()
    requires AllDigits(whole) && AllDigits(frac)
    ensures ReadMagnitude(negative, whole + [DOT] + frac)
         == Some(Finite(negative, whole + frac, |whole|))
  {
    hide ReadMagnitude, Normalize;
    NormalizeShortest(negative, whole + frac, 0, |whole|);
    ReadPointed(negative, whole, frac, []);
    assert whole + [DOT] + frac + [] == whole + [DOT] + frac;
  }

  lemma ReadPrintDecimal(negative: bool, ds: Text, n: int)
    requires Finite(negative, ds, n).Valid() && 0 < n < |ds| && n <= 21
    ensures ReadMagnitude(negative, PrintMagnitude(ds, n)) == Some(Finite(negative, ds, n))
  {
    hide ReadMagnitude;
    assert ds[..n] + ds[n..] == ds;
    ReadSplitDigits(negative, ds[..n], ds[n..]);
  }

  lemma ReadPrintFraction(negative: bool, ds: Text, n: int)
    requires Finite(negative, ds, n).Valid() && -6 < n <= 0
    ensures ReadMagnitude(negative, PrintMagnitude(ds, n)) == Some(Finite(negative, ds, n))
  {
    var frac := Zeros(-n) + ds;
    NormalizeShortest(negative, ds, 1 - n, n);
    assert [ZERO] + frac == Zeros(1 - n) + ds;
    assert [ZERO] + [DOT] + frac + [] == [ZERO, DOT] + Zeros(-n) + ds;
    calc {
      ReadMagnitude(negative, PrintMagnitude(ds, n));
      ReadMagnitude(negative, [ZERO] + [DOT] + frac + []);
      { ReadPointed(negative, [ZERO], frac, []); }
      Assemble(negative, [ZERO], frac, Some(0));
      Some(Normalize(negative, Zeros(1 - n) + ds, 1));
    }
  }

  lemma ReadPrintOneDigitScientific(negative: bool, ds: Text, n: int)
    requires Finite(negative, ds, n).Valid() && (n > 21 || n <= -6) && |ds| == 1
    ensures ReadMagnitude(negative, PrintMagnitude(ds, n)) == Some(Finite(negative, ds, n))
  {
    var exp := PrintExponent(n - 1);
    ReadPrintExponent(n - 1);
    NormalizeShortest(negative, ds, 0, n);
    ReadWhole(negative, ds, exp);
    assert ds + [] == ds;
  }

  lemma ReadPrintScientific(negative: bool, ds: Text, n: int)
    requires Finite(negative, ds, n).Valid() && (n > 21 || n <= -6) && |ds| > 1
    ensures ReadMagnitude(negative, PrintMagnitude(ds, n)) == Some(Finite(negative, ds, n))
  {
    var whole, frac, exp := ds[..1], ds[1..], PrintExponent(n - 1);
    NormalizeShortest(negative, ds, 0, n);
    assert whole + frac == ds;
    assert ReadExponent(exp) == Some(n - 1) by { ReadPrintExponent(n - 1); }
    assert PrintMagnitude(ds, n) == whole + [DOT] + frac + exp;
    ReadPointed(negative, whole, frac, exp);
  }

  lemma ReadPrintMagnitude(negative: bool, ds: Text, n: int)
    requires Finite(negative, ds, n).Valid()
    ensures ReadMagnitude(negative, PrintMagnitude(ds, n)) == Some(Finite(negative, ds, n))
  {
    if |ds| <= n <= 21 {
      ReadPrintInteger(negative, ds, n);
    } else if 0 < n <= 21 {
      ReadPrintDecimal(negative, ds, n);
    } else if -6 < n <= 0 {
      ReadPrintFraction(negative, ds, n);
    } else if |ds| == 1 {
      ReadPrintOneDigitScientific(negative, ds, n);
    } else {
      ReadPrintScientific(negative, ds, n);
    }
  }

  lemma ReadPrintZero()
    ensures ReadNum([ZERO]) == Some(Zero(false))
  {
    ReadWhole(false, [ZERO], []);
    assert [ZERO] + [] == [ZERO];
    assert [ZERO][1..] == [];
    assert Normalize(false, [ZERO], 1) == Normalize(false, [], 0);
  }

  // Every finite number survives printing and reading; -0 comes back as 0.
  lemma ReadPrintNum(x: Num)
    requires x.Valid()
    ensures ReadNum(PrintNum(x)) == Some(x.Canonical())
  {
    hide ReadMagnitude, PrintMagnitude;
    match x
    case Zero(_) => ReadPrintZero();
    case Finite(negative, ds, n) =>
      var t := PrintMagnitude(ds, n);
      ReadPrintMagnitude(negative, ds, n);
      PrintMagnitudeUnits(ds, n);
      assert negative ==> PrintNum(x)[1..] == t;
      assert !negative ==> PrintNum(x) == t;
  }

  predicate AllNumberUnits(t: Text) {
    forall i :: 0 <= i < |t| ==> IsNumberUnit(t[i])
  }

  lemma PrintMagnitudeUnits(ds: Text, n: int)
    requires |ds| > 0 && AllDigits(ds)
    ensures var t := PrintMagnitude(ds, n); |t| > 0 && IsDigit(t[0]) && AllNumberUnits(t)
  {
    var e := PrintExponent(n - 1);
    assert AllNumberUnits(e);
    assert AllNumberUnits(ds);
  }

  // A printed number is a nonempty run of number units starting with a digit or a minus.
  lemma PrintNumUnits(x: Num)
    requires x.Valid()
    ensures var t := PrintNum(x);
            |t| > 0 && (IsDigit(t[0]) || t[0] == MINUS) && AllNumberUnits(t)
  {
    match x
    case Zero(_) =>
    case Finite(negative, ds, n) => PrintMagnitudeUnits(ds, n);
  }
}
