/**
 * Money amounts and their text form.
 *
 * BudgetLite keeps every amount as a Foundation `Decimal` and stores it in the
 * entity as the string `NSDecimalNumber(decimal:).stringValue`, reading it back
 * with `Decimal(string:)`. Here an amount is an exact integer number of cents
 * (a fixed-point decimal with two fractional digits), `Serialize` is the
 * canonical text form and `Parse` the simple decimal-literal grammar
 *   `-`? digit* (`.` digit{0,2})?   with at least one digit.
 */
module Money {
  import opened Wrappers

  /** An amount in minor units: 1250 is 12.50. */
  type Cents = int

  predicate IsDigit(c: char) {
    '0' <= c <= '9'
  }

  predicate AllDigits(s: string) {
    forall i :: 0 <= i < |s| ==> IsDigit(s[i])
  }

  function DigitValue(c: char): (d: nat)
    requires IsDigit(c)
    ensures d < 10
  {
    (c as int) - ('0' as int)
  }

  function DigitChar(d: nat): (c: char)
    requires d < 10
    ensures IsDigit(c) && DigitValue(c) == d
  {
    (('0' as int) + d) as char
  }

  /** The number written by a string of decimal digits, most significant first; "" is 0. */
  function DigitsValue(s: string): nat
    requires AllDigits(s)
  {
    if s == [] then 0 else DigitsValue(s[..|s| - 1]) * 10 + DigitValue(s[|s| - 1])
  }

  /** The shortest decimal numeral of `n` (no leading zeros; "0" for zero). */
  function Numeral(n: nat): (s: string)
    ensures s != [] && AllDigits(s)
    ensures DigitsValue(s) == n
    ensures |s| > 1 ==> s[0] != '0'
  {
    if n < 10 then [DigitChar(n)]
    else
      var prefix := Numeral(n / 10);
      var s := prefix + [DigitChar(n % 10)];
      assert s[..|s| - 1] == prefix;
      s
  }

  /** The value of at most two fractional digits, in cents: "5" is 50, "05" is 5. */
  function FractionValue(f: string): (v: nat)
    requires AllDigits(f) && |f| <= 2
    ensures v < 100
  {
    if |f| == 0 then 0
    else if |f| == 1 then DigitValue(f[0]) * 10
    else DigitValue(f[0]) * 10 + DigitValue(f[1])
  }

  /** The fractional digits written for `frac` cents: trailing zeros are dropped. */
  function FractionText(frac: nat): (f: string)
    requires frac < 100
    ensures AllDigits(f) && |f| <= 2
    ensures FractionValue(f) == frac
    ensures frac == 0 <==> f == []
  {
    if frac == 0 then []
    else if frac % 10 == 0 then [DigitChar(frac / 10)]
    else [DigitChar(frac / 10), DigitChar(frac % 10)]
  }

  /** Index of the first '.' in `s`, or `|s|` when there is none. */
  function DotIndex(s: string): (k: nat)
    ensures k <= |s|
    ensures forall i :: 0 <= i < k ==> s[i] != '.'
    ensures k < |s| ==> s[k] == '.'
  {
    if s == [] then 0
    else if s[0] == '.' then 0
    else 1 + DotIndex(s[1..])
  }

  /** The canonical text of a non-negative amount, as `NSDecimalNumber.stringValue` writes it. */
  function SerializeUnsigned(n: nat): string {
    var f := FractionText(n % 100);
    Numeral(n / 100) + (if f == [] then [] else ['.'] + f)
  }

  /** The canonical text of an amount: "12.5", "0.05", "-3". */
  function Serialize(c: Cents): (r: string)
    ensures r != [] && (r[0] == '-' <==> c < 0)
  {
    if c < 0 then ['-'] + SerializeUnsigned(-c) else SerializeUnsigned(c)
  }

  /** Reads an unsigned decimal literal; `None` when the text is not one. */
  function ParseUnsigned(s: string): Option<nat> {
    var k := DotIndex(s);
    var whole := s[..k];
    var frac := if k < |s| then s[k + 1..] else [];
    if AllDigits(whole) && AllDigits(frac) && |frac| <= 2 && |whole| + |frac| > 0
    then Some(DigitsValue(whole) * 100 + FractionValue(frac))
    else None
  }

  /** The model of `Decimal(string:)`: `None` for text that is not a decimal literal. */
  function Parse(s: string): (r: Option<Cents>)
    ensures s == [] ==> r.None?
    ensures r.Some? && s[0] == '-' ==> r.value <= 0
    ensures r.Some? && s[0] != '-' ==> r.value >= 0
  {
    if |s| > 0 && s[0] == '-' then
      match ParseUnsigned(s[1..])
      case Some(n) => Some(-(n as int))
      case None => None
    else ParseUnsigned(s)
  }

  lemma {:induction false} DotIndexAfterDigits(digits: string, rest: string)
    requires AllDigits(digits)
    ensures DotIndex(digits + ['.'] + rest) == |digits|
  {
    if digits != [] {
      assert (digits + ['.'] + rest)[1..] == digits[1..] + ['.'] + rest;
      DotIndexAfterDigits(digits[1..], rest);
    }
  }

  lemma {:induction false} DotIndexOfDigits(digits: string)
    requires AllDigits(digits)
    ensures DotIndex(digits) == |digits|
  {
    if digits != [] {
      DotIndexOfDigits(digits[1..]);
    }
  }

  lemma UnsignedRoundTrip(n: nat)
    ensures ParseUnsigned(SerializeUnsigned(n)) == Some(n)
  {
    var w := Numeral(n / 100);
    var f := FractionText(n % 100);
    var s := SerializeUnsigned(n);
    if f == [] {
      assert s == w;
      DotIndexOfDigits(w);
      assert s[..|w|] == w;
    } else {
      assert s == w + ['.'] + f;
      DotIndexAfterDigits(w, f);
      assert s[..|w|] == w;
      assert s[|w| + 1..] == f;
    }
  }

  /** Writing an amount and reading it back gives the same amount. */
  lemma RoundTrip(c: Cents)
    ensures Parse(Serialize(c)) == Some(c)
  {
    if c < 0 {
      NegativeRoundTrip(c);
    } else {
      NonNegativeRoundTrip(c);
    }
  }

  lemma NegativeRoundTrip(c: Cents)
    requires c < 0
    ensures Parse(Serialize(c)) == Some(c)
  {
    var n: nat := -c;
    assert Serialize(c) == ['-'] + SerializeUnsigned(n);
    MinusRoundTrip(n);
  }

  /** A minus sign before the text of a magnitude reads back as its negation. */
  lemma MinusRoundTrip(n: nat)
    ensures Parse(['-'] + SerializeUnsigned(n)) == Some(-(n as int))
  {
    var u := SerializeUnsigned(n);
    UnsignedRoundTrip(n);
    assert (['-'] + u)[1..] == u;
  }

  lemma NonNegativeRoundTrip(c: Cents)
    requires c >= 0
    ensures Parse(Serialize(c)) == Some(c)
  {
    UnsignedRoundTrip(c);
    var w := Numeral(c / 100);
    assert Serialize(c)[0] == w[0];
    assert IsDigit(w[0]);
  }
}
