// The form of the printed text: which numbers get an exponent and where the decimal point
// stands, and which code units of a string are escaped and how.

module JsonForm {
  import opened CodeUnits
  import opened JsonNumber
  import opened JsonText

  // ---- Numbers -------------------------------------------------------------

  // An exponent appears exactly for magnitudes from 10^21 on and below 10^-6.
  lemma ExponentIff(ds: Text, point: int)
    requires ds != [] && AllDigits(ds)
    ensures LOWER_E in PrintMagnitude(ds, point) <==> point > 21 || point < -5
  {
    var t, k := PrintMagnitude(ds, point), |ds|;
    if point > 21 || point < -5 {
      assert t[if k == 1 then 1 else k + 1] == LOWER_E;
    } else {
      forall i | 0 <= i < |t| ensures t[i] != LOWER_E {}
    }
  }

  // Without an exponent the digits are written out, around a point only where one is needed.
  lemma WithoutExponent(ds: Text, point: int)
    requires ds != [] && AllDigits(ds) && -5 <= point <= 21
    ensures var t, k := PrintMagnitude(ds, point), |ds|;
            if point >= k then
              |t| == point && t[..k] == ds && forall i :: k <= i < point ==> t[i] == ZERO
            else if point > 0 then
              |t| == k + 1 && t[..point] == ds[..point] && t[point] == DOT && t[point + 1..] == ds[point..]
            else
              && |t| == 2 - point + k && t[0] == ZERO && t[1] == DOT
              && (forall i :: 2 <= i < 2 - point ==> t[i] == ZERO) && t[2 - point..] == ds
  {
  }

  // With one, a single digit stands before the point.
  lemma WithExponent(ds: Text, point: int)
    requires ds != [] && AllDigits(ds) && (point > 21 || point < -5)
    ensures var t, k := PrintMagnitude(ds, point), |ds|;
            var mantissa := if k == 1 then 1 else k + 1;
            && |t| > mantissa && t[0] == ds[0] && (k > 1 ==> t[1] == DOT && t[2..mantissa] == ds[1..])
            && t[mantissa..] == PrintExponent(point - 1)
  {
    hide PrintExponent;
    assert PrintExponent(point - 1) != [] by { ExponentForm(point - 1); }
    if |ds| > 1 {
      var head := ds[..1] + [DOT] + ds[1..];
      assert PrintMagnitude(ds, point) == head + PrintExponent(point - 1);
      assert head[2..] == ds[1..];
    }
  }

  // The exponent has its sign and no leading zero.
  lemma ExponentForm(e: int)
    requires e != 0
    ensures var t := PrintExponent(e);
            && |t| > 2 && t[0] == LOWER_E && t[1] == (if e > 0 then PLUS else MINUS)
            && AllDigits(t[2..]) && t[2] != ZERO && ReadNat(t[2..]) == if e > 0 then e else -e
  {
    var n := if e > 0 then e else -e;
    ReadPrintNat(n);
    NoLeadingZero(n);
    hide PrintNat, ReadNat;
    assert PrintExponent(e)[2..] == PrintNat(n);
  }

  lemma {:induction false} NoLeadingZero(n: nat)
    requires n > 0
    ensures PrintNat(n)[0] != ZERO
  {
    if n >= 10 {
      NoLeadingZero(n / 10);
    }
  }

  // A minus sign comes first exactly for a nonzero negative number.
  lemma SignIff(x: Num)
    requires x.Valid()
    ensures PrintNum(x) != [] && (PrintNum(x)[0] == MINUS <==> x.Finite? && x.negative)
  {
  }

  // ---- Strings -------------------------------------------------------------

  predicate IsSurrogate(c: CodeUnit) {
    0xD800 <= c <= 0xDFFF
  }

  // Printed as it is.
  predicate Plain(c: CodeUnit) {
    c >= 0x20 && c != '"' as int && c != '\\' as int && !IsSurrogate(c)
  }

  predicate IsLowerHex(c: CodeUnit) {
    '0' as int <= c <= '9' as int || 'a' as int <= c <= 'f' as int
  }

  // A unit is printed as it is, or by the letter JSON has for it, or by its four digits.
  lemma UnitForm(c: CodeUnit)
    ensures Plain(c) <==> EscapeUnit(c) == [c]
    ensures !Plain(c) ==>
      var t := EscapeUnit(c);
      && t[0] == '\\' as int
      && if c == 0x08 then t[1..] == ['b' as int]
         else if c == 0x09 then t[1..] == ['t' as int]
         else if c == 0x0A then t[1..] == ['n' as int]
         else if c == 0x0C then t[1..] == ['f' as int]
         else if c == 0x0D then t[1..] == ['r' as int]
         else if c == '"' as int || c == '\\' as int then t[1..] == [c]
         else |t| == 6 && t[1] == 'u' as int && forall i :: 2 <= i < 6 ==> IsLowerHex(t[i])
  {
  }

  // One half of a surrogate pair.
  predicate InPair(s: Text, i: int) {
    && 0 <= i < |s|
    && (|| (i + 1 < |s| && IsHighSurrogate(s[i]) && IsLowSurrogate(s[i + 1]))
        || (i > 0 && IsHighSurrogate(s[i - 1]) && IsLowSurrogate(s[i])))
  }

  // Nothing in the string needs escaping, and no surrogate stands alone.
  predicate NeedsNoEscape(s: Text) {
    forall i :: 0 <= i < |s| ==> Plain(s[i]) || InPair(s, i)
  }

  // Exactly such a string is printed as it is.
  lemma {:induction false} RawIff(s: Text)
    ensures |EscapeAll(s)| >= |s|
    ensures EscapeAll(s) == s <==> NeedsNoEscape(s)
  {
    hide NeedsNoEscape;
    if s == [] {
      RawNothing();
    } else if StartsWithPair(s) {
      RawIff(s[2..]);
      RawRest(s, 2);
      assert EscapeAll(s) == s[..2] + EscapeAll(s[2..]) && s == s[..2] + s[2..];
      assert EscapeAll(s)[2..] == EscapeAll(s[2..]);
    } else {
      RawIff(s[1..]);
      RawRest(s, 1);
      UnitForm(s[0]);
      assert s == [s[0]] + s[1..];
      RawFirst(s, EscapeUnit(s[0]), EscapeAll(s[1..]));
    }
  }

  lemma RawNothing()
    ensures NeedsNoEscape([])
  {
  }

  lemma RawFirst(s: Text, unit: Text, rest: Text)
    requires s != [] && |rest| >= |s| - 1 && unit != [] && (unit == [s[0]] || |unit| >= 2)
    ensures unit + rest == s <==> unit == [s[0]] && rest == s[1..]
  {
    if unit == [s[0]] {
      assert (unit + rest)[1..] == rest;
      assert s == [s[0]] + s[1..];
    } else {
      assert |unit + rest| > |s|;
    }
  }

  // What a string needs after its first unit, or after its first pair.
  lemma RawRest(s: Text, n: nat)
    requires 0 < n <= |s| && n == if StartsWithPair(s) then 2 else 1
    ensures NeedsNoEscape(s) <==> NeedsNoEscape(s[n..]) && (n == 2 || Plain(s[0]))
  {
    var rest := s[n..];
    forall i | 0 <= i < |rest| ensures InPair(rest, i) == InPair(s, n + i) && rest[i] == s[n + i] {}
    assert n == 2 ==> InPair(s, 0) && InPair(s, 1);
    assert n == 1 ==> !InPair(s, 0);
    if NeedsNoEscape(rest) {
      forall i | n <= i < |s| ensures Plain(s[i]) || InPair(s, i) {
        assert InPair(rest, i - n) == InPair(s, n + (i - n)) && rest[i - n] == s[i];
      }
    }
  }
}
