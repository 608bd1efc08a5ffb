/** Decimal digits: natural numbers as text, and canonical decimal numbers, each of
    which has one accepted spelling. A canonical number has no superfluous leading
    zero in its whole part, no trailing zero in its fraction, and no minus sign on
    zero, so that comparing texts compares values. */
module Decimals {
  import opened Wrappers
  import opened Timeframes

  predicate IsDigit(c: char) {
    '0' <= c <= '9'
  }

  predicate Digits(s: string) {
    forall i :: 0 <= i < |s| ==> IsDigit(s[i])
  }

  function DigitOf(c: char): (d: nat)
    requires IsDigit(c)
    ensures d < 10
  {
    c as int - '0' as int
  }

  function Pow10(n: nat): (p: nat)
    ensures p >= 1
  {
    if n == 0 then 1 else 10 * Pow10(n - 1)
  }

  function Number(s: string): nat
    requires Digits(s)
  {
    if s == "" then 0 else 10 * Number(s[..|s| - 1]) + DigitOf(s[|s| - 1])
  }

  lemma {:induction false} NumberBound(s: string)
    requires Digits(s)
    ensures Number(s) < Pow10(|s|)
  {
    if s != "" {
      NumberBound(s[..|s| - 1]);
    }
  }

  lemma TenTimes(k: int, n: nat)
    ensures 10 * (k * Pow10(n)) == k * Pow10(n + 1)
  {
    assert Pow10(n + 1) == 10 * Pow10(n);
  }

  lemma {:induction false} NumberOfJoin(a: string, b: string)
    requires Digits(a) && Digits(b)
    ensures Digits(a + b) && Number(a + b) == Number(a) * Pow10(|b|) + Number(b)
  {
    if b == "" {
      assert a + b == a;
    } else {
      var n := |b| - 1;
      NumberOfJoin(a, b[..n]);
      assert (a + b)[..|a + b| - 1] == a + b[..n];
      TenTimes(Number(a), n);
    }
  }

  /** Digit strings of one length are determined by their number. */
  lemma {:induction false} SameLengthSameDigits(a: string, b: string)
    requires Digits(a) && Digits(b) && |a| == |b| && Number(a) == Number(b)
    ensures a == b
  {
    if a != "" {
      var n := |a| - 1;
      assert DigitOf(a[n]) == DigitOf(b[n]) && Number(a[..n]) == Number(b[..n]);
      SameLengthSameDigits(a[..n], b[..n]);
      assert a == a[..n] + [a[n]] && b == b[..n] + [b[n]];
    }
  }

  /** A whole number without superfluous zeros. */
  predicate Plain(s: string) {
    s != "" && Digits(s) && (s == "0" || s[0] != '0')
  }

  lemma {:induction false} PlainAtLeast(s: string)
    requires Plain(s) && s[0] != '0'
    ensures Number(s) >= Pow10(|s| - 1)
  {
    if |s| > 1 {
      var n := |s| - 1;
      assert Plain(s[..n]) by {
        assert s[..n][0] == s[0];
      }
      PlainAtLeast(s[..n]);
    } else {
      assert s[..0] == "";
    }
  }

  lemma {:induction false} Pow10Grows(m: nat, n: nat)
    requires m <= n
    ensures Pow10(m) <= Pow10(n)
  {
    if m < n {
      Pow10Grows(m, n - 1);
    }
  }

  lemma LongerIsLarger(a: string, b: string)
    requires Plain(a) && Plain(b) && |a| < |b|
    ensures Number(a) < Number(b)
  {
    NumberBound(a);
    Pow10Grows(|a|, |b| - 1);
    PlainAtLeast(b);
  }

  /** Plain whole numbers are determined by their value. */
  lemma PlainIsUnique(a: string, b: string)
    requires Plain(a) && Plain(b) && Number(a) == Number(b)
    ensures a == b
  {
    if |a| < |b| {
      LongerIsLarger(a, b);
    } else if |b| < |a| {
      LongerIsLarger(b, a);
    } else {
      SameLengthSameDigits(a, b);
    }
  }

  // ----- naturals as text --------------------------------------------------

  function ToText(n: nat): string {
    var last := [(n % 10 + '0' as int) as char];
    if n < 10 then last else ToText(n / 10) + last
  }

  lemma {:induction false} ToTextIsPlain(n: nat)
    ensures Plain(ToText(n)) && Number(ToText(n)) == n
    ensures n > 0 ==> ToText(n)[0] != '0'
  {
    var s := ToText(n);
    if n >= 10 {
      ToTextIsPlain(n / 10);
      assert s[..|s| - 1] == ToText(n / 10);
    } else {
      assert s[..0] == "";
    }
  }

  /** The leading digits and what follows them. */
  function SpanDigits(s: string): (r: (string, string))
    ensures Digits(r.0) && s == r.0 + r.1
    ensures r.1 == "" || !IsDigit(r.1[0])
  {
    if s == "" || !IsDigit(s[0]) then ("", s)
    else
      var (digits, rest) := SpanDigits(s[1..]);
      ([s[0]] + digits, rest)
  }

  lemma {:induction false} SpanOf(digits: string, rest: string)
    requires Digits(digits) && (rest == "" || !IsDigit(rest[0]))
    ensures SpanDigits(digits + rest) == (digits, rest)
  {
    if digits == "" {
      assert digits + rest == rest;
    } else {
      assert (digits + rest)[1..] == digits[1..] + rest;
      assert [digits[0]] + digits[1..] == digits;
      SpanOf(digits[1..], rest);
    }
  }

  // ----- canonical decimals ------------------------------------------------

  datatype Decimal = Decimal(negative: bool, whole: string, fraction: string)

  /** No superfluous zeros, and no negative zero. */
  predicate Canonical(d: Decimal) {
    && Plain(d.whole) && Digits(d.fraction)
    && (d.fraction != "" ==> d.fraction[|d.fraction| - 1] != '0')
    && !(d.negative && d.whole == "0" && d.fraction == "")
  }

  function Spelling(d: Decimal): string {
    (if d.negative then "-" else "") + d.whole + (if d.fraction == "" then "" else "." + d.fraction)
  }

  function ParseUnsigned(s: string, negative: bool): Option<Decimal> {
    var (whole, rest) := SpanDigits(s);
    if !Plain(whole) then None
    else if rest == "" then Some(Decimal(negative, whole, ""))
    else
      var fraction := rest[1..];
      if rest[0] == '.' && fraction != "" && Digits(fraction) && fraction[|fraction| - 1] != '0' then
        Some(Decimal(negative, whole, fraction))
      else None
  }

  /** The accepted pattern, read from left to right. */
  function ParseDecimal(s: string): Option<Decimal> {
    if s == "-0" then None
    else if s != "" && s[0] == '-' then ParseUnsigned(s[1..], true)
    else ParseUnsigned(s, false)
  }

  function Unsigned(d: Decimal): string {
    d.whole + (if d.fraction == "" then "" else "." + d.fraction)
  }

  lemma SpellingIs(d: Decimal)
    ensures Spelling(d) == if d.negative then "-" + Unsigned(d) else Unsigned(d)
    ensures d.negative ==> Spelling(d)[1..] == Unsigned(d)
  {
  }

  lemma UnsignedParses(d: Decimal, negative: bool)
    requires Canonical(d)
    ensures ParseUnsigned(Unsigned(d), negative) == Some(d.(negative := negative))
    ensures Unsigned(d) != "" && Unsigned(d)[0] != '-'
  {
    SpanOf(d.whole, if d.fraction == "" then "" else "." + d.fraction);
    assert d.fraction != "" ==> ("." + d.fraction)[1..] == d.fraction;
    assert IsDigit(d.whole[0]);
  }

  lemma SpellingParses(d: Decimal)
    requires Canonical(d)
    ensures ParseDecimal(Spelling(d)) == Some(d)
  {
    SpellingIs(d);
    UnsignedParses(d, d.negative);
    assert Spelling(d) == "-0" ==> d.negative && Unsigned(d) == "0";
    if d.negative {
      NotNegativeZero(d);
    }
  }

  lemma NotNegativeZero(d: Decimal)
    requires Canonical(d) && d.negative
    ensures Unsigned(d) != "0"
  {
    assert d.fraction == "" ==> Unsigned(d) == d.whole;
    assert d.fraction != "" ==> |Unsigned(d)| > 1;
  }

  lemma ParsedIsUnsigned(s: string, negative: bool, d: Decimal)
    requires ParseUnsigned(s, negative) == Some(d)
    ensures s == Unsigned(d)
  {
    Assembled(SpanDigits(s).0, SpanDigits(s).1, d);
  }

  lemma Assembled(whole: string, rest: string, d: Decimal)
    requires d.whole == whole
    requires if rest == "" then d.fraction == "" else rest[0] == '.' && rest[1..] == d.fraction && d.fraction != ""
    ensures whole + rest == Unsigned(d)
  {
    if rest != "" {
      assert rest == "." + rest[1..];
    } else {
      assert whole + rest == whole;
    }
  }

  lemma ParsedIsPlain(s: string, negative: bool, d: Decimal)
    requires ParseUnsigned(s, negative) == Some(d)
    ensures d.negative == negative && Plain(d.whole) && Digits(d.fraction)
    ensures d.fraction != "" ==> d.fraction[|d.fraction| - 1] != '0'
  {
  }

  lemma ParsedIsSpelling(s: string, d: Decimal)
    requires ParseDecimal(s) == Some(d)
    ensures Canonical(d) && s == Spelling(d)
  {
    SpellingIs(d);
    if s[0] == '-' {
      ParsedIsUnsigned(s[1..], true, d);
      ParsedIsPlain(s[1..], true, d);
      assert s == "-" + s[1..];
      assert d.whole == "0" && d.fraction == "" ==> Unsigned(d) == "0";
    } else {
      ParsedIsUnsigned(s, false, d);
      ParsedIsPlain(s, false, d);
    }
  }

  /** The accepted texts are exactly the spellings of canonical decimals. */
  lemma AcceptedIffSpelling(s: string, d: Decimal)
    ensures ParseDecimal(s) == Some(d) <==> Canonical(d) && s == Spelling(d)
  {
    if Canonical(d) {
      SpellingParses(d);
    }
    if ParseDecimal(s) == Some(d) {
      ParsedIsSpelling(s, d);
    }
  }

  /** All digits as one number; the value is this, signed, over a power of ten. */
  function Unscaled(d: Decimal): nat
    requires Canonical(d)
  {
    Number(d.whole) * Pow10(|d.fraction|) + Number(d.fraction)
  }

  function Signed(d: Decimal): int
    requires Canonical(d)
  {
    if d.negative then 0 - Unscaled(d) else Unscaled(d)
  }

  /** Both stand for the same number: compared by cross-multiplication. */
  predicate SameValue(a: Decimal, b: Decimal)
    requires Canonical(a) && Canonical(b)
  {
    Signed(a) * Pow10(|b.fraction|) == Signed(b) * Pow10(|a.fraction|)
  }

  // ----- one value, one spelling -------------------------------------------

  lemma {:induction false} Pow10Adds(m: nat, n: nat)
    ensures Pow10(m + n) == Pow10(m) * Pow10(n)
  {
    if n > 0 {
      Pow10Adds(m, n - 1);
      assert 10 * (Pow10(m) * Pow10(n - 1)) == Pow10(m) * (10 * Pow10(n - 1));
    }
  }

  lemma CancelFactor(x: int, y: int, p: int)
    requires p > 0 && x * p == y * p
    ensures x == y
  {
    assert p * (x - y) == 0;
    ProductGrows(p, x - y);
  }

  lemma RoundMultiple(x: int, y: int, q: int, p: int)
    requires p > 0 && x * (10 * q * p) == y * p
    ensures y % 10 == 0
  {
    assert x * (10 * q * p) == 10 * (x * q) * p;
    CancelFactor(10 * (x * q), y, p);
  }

  /** A fraction that does not end in zero is not a multiple of ten. */
  lemma FractionIsNotRound(d: Decimal)
    requires Canonical(d) && d.fraction != ""
    ensures Unscaled(d) % 10 != 0 && Unscaled(d) > 0
  {
    var n := |d.fraction| - 1;
    var last := DigitOf(d.fraction[n]);
    assert Unscaled(d) == 10 * (Number(d.whole) * Pow10(n) + Number(d.fraction[..n])) + last by {
      assert 10 * (Number(d.whole) * Pow10(n)) == Number(d.whole) * (10 * Pow10(n));
    }
  }

  /** With fewer fraction digits, the other would end in a zero. */
  lemma FractionsAsLong(a: Decimal, b: Decimal)
    requires Canonical(a) && Canonical(b)
    requires Unscaled(a) * Pow10(|b.fraction|) == Unscaled(b) * Pow10(|a.fraction|)
    ensures |b.fraction| <= |a.fraction|
  {
    if |b.fraction| > |a.fraction| {
      var m := |b.fraction| - |a.fraction|;
      Pow10Adds(m, |a.fraction|);
      FractionIsNotRound(b);
      RoundMultiple(Unscaled(a), Unscaled(b), Pow10(m - 1), Pow10(|a.fraction|));
    }
  }

  lemma ZeroIsPlain(d: Decimal)
    requires Canonical(d) && Unscaled(d) == 0
    ensures !d.negative
  {
    if d.fraction != "" {
      FractionIsNotRound(d);
    } else {
      assert Pow10(0) == 1 && Number(d.whole) == 0;
      assert Number("0") == 0 by {
        assert "0"[..0] == "";
      }
      PlainIsUnique(d.whole, "0");
    }
  }

  lemma ProductIsZero(x: int, p: int)
    requires p > 0 && x >= 0
    ensures x * p >= 0 && (x * p == 0 ==> x == 0)
  {
    assert p * x == x * p;
    ProductGrows(p, x);
  }

  lemma SignsAgree(x: int, y: int, p: int, q: int, negX: bool, negY: bool)
    requires x >= 0 && y >= 0 && p > 0 && q > 0
    requires (if negX then 0 - x else x) * p == (if negY then 0 - y else y) * q
    ensures x * p == y * q
    ensures negX != negY ==> x == 0 && y == 0
  {
    ProductIsZero(x, p);
    ProductIsZero(y, q);
    assert (0 - x) * p == -(x * p) && (0 - y) * q == -(y * q);
  }

  lemma SameSign(a: Decimal, b: Decimal)
    requires Canonical(a) && Canonical(b) && SameValue(a, b)
    ensures a.negative == b.negative
    ensures Unscaled(a) * Pow10(|b.fraction|) == Unscaled(b) * Pow10(|a.fraction|)
  {
    SignsAgree(Unscaled(a), Unscaled(b), Pow10(|b.fraction|), Pow10(|a.fraction|), a.negative, b.negative);
    if a.negative && !b.negative {
      ZeroIsPlain(a);
    } else if b.negative && !a.negative {
      ZeroIsPlain(b);
    }
  }

  lemma SameParts(p: int, q: int, r: int, s: int, t: int)
    requires 0 <= r < p && 0 <= t < p && q * p + r == s * p + t
    ensures q == s && r == t
  {
    assert p * q == q * p && p * s == s * p;
    DivisionIsUnique(p, q, r);
    DivisionIsUnique(p, s, t);
  }

  lemma SamePartsFromUnscaled(a: Decimal, b: Decimal)
    requires Canonical(a) && Canonical(b) && |a.fraction| == |b.fraction| && Unscaled(a) == Unscaled(b)
    ensures a.whole == b.whole && a.fraction == b.fraction
  {
    var p := Pow10(|a.fraction|);
    NumberBound(a.fraction);
    NumberBound(b.fraction);
    SameParts(p, Number(a.whole), Number(a.fraction), Number(b.whole), Number(b.fraction));
    PlainIsUnique(a.whole, b.whole);
    SameLengthSameDigits(a.fraction, b.fraction);
  }

  /** Canonical decimals of one value are one decimal. */
  lemma SameValueSameDecimal(a: Decimal, b: Decimal)
    requires Canonical(a) && Canonical(b)
    ensures SameValue(a, b) <==> a == b
  {
    if SameValue(a, b) {
      SameSign(a, b);
      FractionsAsLong(a, b);
      FractionsAsLong(b, a);
      CancelFactor(Unscaled(a), Unscaled(b), Pow10(|a.fraction|));
      SamePartsFromUnscaled(a, b);
    }
  }

  /** Every value has only one accepted spelling. */
  lemma OneSpellingPerValue(s: string, t: string)
    requires ParseDecimal(s).Some? && ParseDecimal(t).Some?
    ensures Canonical(ParseDecimal(s).value) && Canonical(ParseDecimal(t).value)
    ensures SameValue(ParseDecimal(s).value, ParseDecimal(t).value) <==> s == t
  {
    ParsedIsSpelling(s, ParseDecimal(s).value);
    ParsedIsSpelling(t, ParseDecimal(t).value);
    SameValueSameDecimal(ParseDecimal(s).value, ParseDecimal(t).value);
  }
}
