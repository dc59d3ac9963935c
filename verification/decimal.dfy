/**
 Decimal rendering of Java integers, as string concatenation with a `long`
 and `"%s"` formatting of an `int` produce it (`Long.toString`,
 `Integer.toString`): an optional minus sign followed by the digits of the
 magnitude, without leading zeros. `ParseDecimal` is the inverse used to
 state that the rendering loses nothing.
 */
module Decimal {
  import opened Optional

  predicate IsDigit(c: char)
  {
    '0' <= c <= '9'
  }

  predicate AllDigits(s: string)
  {
    forall i :: 0 <= i < |s| ==> IsDigit(s[i])
  }

  function DigitChar(d: nat): (c: char)
    requires d < 10
    ensures IsDigit(c)
  {
    ['0', '1', '2', '3', '4', '5', '6', '7', '8', '9'][d]
  }

  function DigitValue(c: char): (d: nat)
    requires IsDigit(c)
    ensures d < 10
  {
    (c as int) - ('0' as int)
  }

  /** The value of a string of decimal digits, most significant first. */
  function DigitsValue(s: string): nat
    requires AllDigits(s)
  {
    if |s| == 0 then 0
    else DigitsValue(s[..|s| - 1]) * 10 + DigitValue(s[|s| - 1])
  }

  /** The decimal digits of a natural number: never empty, no leading zero. */
  function Digits(n: nat): (s: string)
    ensures |s| > 0 && AllDigits(s)
    ensures DigitsValue(s) == n
    ensures |s| > 1 ==> s[0] != '0'
  {
    if n < 10 then [DigitChar(n)]
    else
      var prefix := Digits(n / 10);
      assert (prefix + [DigitChar(n % 10)])[..|prefix|] == prefix;
      prefix + [DigitChar(n % 10)]
  }

  /** Java's decimal rendering of an integer. */
  function DecimalString(n: int): (s: string)
    ensures |s| > 0
    ensures n >= 0 <==> IsDigit(s[0])
    ensures n < 0 <==> s[0] == '-'
  {
    if n < 0 then "-" + Digits(-n) else Digits(n)
  }

  /** Digits as Java writes them: at least one, and no leading zero unless the number is 0. */
  predicate Canonical(s: string)
  {
    |s| > 0 && AllDigits(s) && (|s| > 1 ==> s[0] != '0')
  }

  /** Reads back exactly the strings Java writes: canonical digits, optionally after a minus sign,
      with "-0" rejected. */
  function ParseDecimal(s: string): Option<int>
  {
    if |s| > 1 && s[0] == '-' && Canonical(s[1..]) && s[1..] != "0" then Some(-(DigitsValue(s[1..]) as int))
    else if Canonical(s) then Some(DigitsValue(s) as int)
    else None
  }

  /** Rendering followed by parsing gives back the number. */
  lemma DecimalRoundTrip(n: int)
    ensures ParseDecimal(DecimalString(n)) == Some(n)
  {
    if n < 0 {
      assert DecimalString(n)[1..] == Digits(-n);
    }
  }

  /** A canonical digit string that does not start with '0' has a positive value. */
  lemma {:induction false} CanonicalPositive(s: string)
    requires Canonical(s) && s[0] != '0'
    ensures DigitsValue(s) >= 1
    decreases |s|
  {
    if |s| > 1 {
      var front := s[..|s| - 1];
      assert front[0] == s[0];
      CanonicalPositive(front);
    }
  }

  /** Canonical digits are the rendering of their own value. */
  lemma {:induction false} CanonicalDigits(s: string)
    requires Canonical(s)
    ensures Digits(DigitsValue(s)) == s
    decreases |s|
  {
    var last := s[|s| - 1];
    DigitCharValue(last);
    if |s| > 1 {
      var front := s[..|s| - 1];
      SplitLast(s);
      CanonicalPositive(front);
      CanonicalDigits(front);
      DigitsAppend(DigitsValue(front), DigitValue(last));
    }
  }

  /** The digit character of a digit's value is the digit itself. */
  lemma DigitCharValue(c: char)
    requires IsDigit(c)
    ensures DigitChar(DigitValue(c)) == c
  {
  }

  /** Canonical text of two or more digits is canonical text not starting with zero, then one digit. */
  lemma SplitLast(s: string)
    requires Canonical(s) && |s| > 1
    ensures Canonical(s[..|s| - 1]) && s[..|s| - 1][0] != '0'
    ensures s == s[..|s| - 1] + [s[|s| - 1]]
    ensures DigitsValue(s) == DigitsValue(s[..|s| - 1]) * 10 + DigitValue(s[|s| - 1])
  {
  }

  /** Rendering a number of two or more digits is rendering all but its last digit, then the last. */
  lemma DigitsAppend(a: nat, d: nat)
    requires a >= 1 && d < 10
    ensures Digits(a * 10 + d) == Digits(a) + [DigitChar(d)]
  {
    ShiftDigit(a, d);
  }

  lemma ShiftDigit(a: nat, d: nat)
    requires a >= 1 && d < 10
    ensures (a * 10 + d) / 10 == a && (a * 10 + d) % 10 == d && a * 10 + d >= 10
  {
  }

  /** Parsing followed by rendering gives back the text: whatever parses is exactly Java's rendering. */
  lemma ParsedIsRendering(s: string, n: int)
    requires ParseDecimal(s) == Some(n)
    ensures s == DecimalString(n)
  {
    if |s| > 1 && s[0] == '-' && Canonical(s[1..]) && s[1..] != "0" {
      var t := s[1..];
      if |t| == 1 {
        assert t[0] != '0';
      }
      CanonicalPositive(t);
      CanonicalDigits(t);
      assert s == "-" + t;
    } else {
      CanonicalDigits(s);
    }
  }

  /** Distinct numbers render as distinct strings. */
  lemma DecimalStringInjective(a: int, b: int)
    ensures DecimalString(a) == DecimalString(b) ==> a == b
  {
    DecimalRoundTrip(a);
    DecimalRoundTrip(b);
  }
}
