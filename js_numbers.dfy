/**
 * The part of JavaScript's number conversions that the front end depends on:
 * `Number(s)` applied to an identifier string and `String(n)` applied to an
 * integer. Identifiers are integers, so a number is either a finite integer
 * or one of the non-finite values (`NaN`, `Infinity`, `-Infinity`).
 */
module JsNumbers {
  import opened Text

  datatype Number = Finite(value: int) | NonFinite

  predicate IsDigit(c: char)
  {
    '0' <= c <= '9'
  }

  /** A non-empty run of decimal digits. */
  predicate IsDigits(s: string)
  {
    s != [] && forall i :: 0 <= i < |s| ==> IsDigit(s[i])
  }

  function DigitValue(c: char): nat
    requires IsDigit(c)
  {
    c as int - '0' as int
  }

  function DigitChar(d: nat): (c: char)
    requires d < 10
    ensures IsDigit(c) && DigitValue(c) == d
  {
    ('0' as int + d) as char
  }

  /** The value of a run of decimal digits, most significant first. */
  function DigitsValue(s: string): nat
    requires forall i :: 0 <= i < |s| ==> IsDigit(s[i])
  {
    if s == [] then 0 else 10 * DigitsValue(s[..|s| - 1]) + DigitValue(s[|s| - 1])
  }

  /** `Number(s)` for the inputs an identifier can take: surrounding whitespace
      is ignored, a blank string is zero, an optionally signed run of decimal
      digits is its integer value, and anything else is not finite. */
  function ParseNumber(s: string): (r: Number)
    ensures (forall i :: 0 <= i < |s| ==> IsSpace(s[i])) ==> r == Finite(0)
  {
    var t := Trim(s);
    TrimEmptyIffBlank(s);
    if t == [] then Finite(0)
    else if t[0] == '-' then (if IsDigits(t[1..]) then Finite(-(DigitsValue(t[1..]) as int)) else NonFinite)
    else if t[0] == '+' then (if IsDigits(t[1..]) then Finite(DigitsValue(t[1..])) else NonFinite)
    else if IsDigits(t) then Finite(DigitsValue(t))
    else NonFinite
  }

  /** A character other than whitespace, a digit or a sign anywhere in the
      string makes the conversion non-finite: `Number("abc")` is `NaN`. */
  lemma {:induction false} ParseNumberRejectsOtherChar(s: string, i: nat)
    requires i < |s|
    requires !IsSpace(s[i]) && !IsDigit(s[i]) && s[i] != '+' && s[i] != '-'
    ensures ParseNumber(s) == NonFinite
  {
    var t := Trim(s);
    TrimSpec(s);
    var a := |s| - |TrimStart(s)|;
    assert a <= i < a + |t|;
    assert t[i - a] == s[i];
    if i - a > 0 {
      assert t[1..][i - a - 1] == s[i];
    }
  }

  /** The decimal digits of a natural number, without leading zeros. */
  function NaturalString(n: nat): (r: string)
    ensures IsDigits(r)
    ensures n > 0 ==> r[0] != '0'
  {
    if n < 10 then [DigitChar(n)] else NaturalString(n / 10) + [DigitChar(n % 10)]
  }

  /** `String(n)` for an integer `n`. */
  function Decimal(n: int): (r: string)
    ensures r != []
  {
    if n < 0 then "-" + NaturalString(-n) else NaturalString(n)
  }

  lemma {:induction false} NaturalStringValue(n: nat)
    ensures DigitsValue(NaturalString(n)) == n
  {
    if n >= 10 {
      NaturalStringValue(n / 10);
      var s := NaturalString(n);
      assert s[..|s| - 1] == NaturalString(n / 10);
    }
  }

  /** Reading back the decimal rendering of an integer gives that integer:
      `Number(String(n)) === n`. */
  lemma {:induction false} ParseDecimal(n: int)
    ensures ParseNumber(Decimal(n)) == Finite(n)
  {
    var d := Decimal(n);
    var digits := NaturalString(if n < 0 then -n else n);
    NaturalStringValue(if n < 0 then -n else n);
    assert Trimmed(d) by {
      assert !IsSpace(d[0]);
      assert IsDigit(d[|d| - 1]);
    }
    TrimOfTrimmed(d);
    if n < 0 {
      assert d[1..] == digits;
    }
  }
}
