/**
 What a client call can end in other than a value. A status failure is the
 `LibraryApiException` that `exceptionForStatus` builds; the internal error is
 the client's own `RuntimeException` at the end of the retry loop; the transport
 and decode failures stand for exceptions that reach the caller from the HTTP
 client and the JSON mapper.
 */
module Errors {
  import opened Optional
  import opened Decimal

  datatype Failure =
    | StatusFailure(target: string, code: int)  // LibraryApiException: the server answered with a status the call rejects
    | TransportFailure                          // HttpClient.send threw: timeout, connection error, no answer
    | DecodeFailure                             // the JSON mapper could not read the body
    | InternalError                             // RuntimeException at the end of the retry loop

  datatype Outcome<+T> = Ok(value: T) | Err(failure: Failure)

  const RequestPrefix: string := "Http request to "
  const StatusInfix: string := " failed with status code "

  /** The exception message for a rejected status: the target and the code, rendered in decimal. */
  function StatusMessage(target: string, code: int): (m: string)
    ensures |m| == |RequestPrefix + target + StatusInfix| + |DecimalString(code)|
    ensures m[..|m| - |DecimalString(code)|] == RequestPrefix + target + StatusInfix
    ensures m[|m| - |DecimalString(code)|..] == DecimalString(code)
  {
    var head, digits := RequestPrefix + target + StatusInfix, DecimalString(code);
    assert (head + digits)[..|head|] == head;
    assert (head + digits)[|head|..] == digits;
    head + digits
  }

  /** The longest suffix of `s` made of digits. */
  function TrailingDigits(s: string): (d: string)
    ensures |d| <= |s| && AllDigits(d)
    ensures d == s[|s| - |d|..]
  {
    if |s| > 0 && IsDigit(s[|s| - 1]) then TrailingDigits(s[..|s| - 1]) + [s[|s| - 1]]
    else ""
  }

  /** Reads a status message back into its target and code; a minus sign before the
      trailing digits makes the code negative. */
  function ParseStatusMessage(m: string): Option<(string, int)>
  {
    var d := TrailingDigits(m);
    var head := m[..|m| - |d|];
    if |d| == 0 then None
    else if |head| > 0 && head[|head| - 1] == '-' then ParseHead(head[..|head| - 1], -(DigitsValue(d) as int))
    else ParseHead(head, DigitsValue(d))
  }

  /** Reads the part of a status message before the code. */
  function ParseHead(head: string, code: int): Option<(string, int)>
  {
    if |head| < |RequestPrefix| + |StatusInfix| then None
    else if head[..|RequestPrefix|] != RequestPrefix || head[|head| - |StatusInfix|..] != StatusInfix then None
    else Some((head[|RequestPrefix|..|head| - |StatusInfix|], code))
  }

  lemma {:induction false} TrailingDigitsAfterSeparator(x: string, d: string)
    requires |x| > 0 && !IsDigit(x[|x| - 1])
    requires AllDigits(d)
    ensures TrailingDigits(x + d) == d
    decreases |d|
  {
    if |d| > 0 {
      var front := d[..|d| - 1];
      assert (x + d)[..|x + d| - 1] == x + front;
      TrailingDigitsAfterSeparator(x, front);
      assert d == front + [d[|d| - 1]];
    } else {
      assert x + d == x;
    }
  }

  /** A status message names its target and code unambiguously: parsing gives both back. */
  lemma StatusMessageRoundTrip(target: string, code: int)
    ensures ParseStatusMessage(StatusMessage(target, code)) == Some((target, code))
  {
    var x := RequestPrefix + target + StatusInfix;
    if code >= 0 {
      assert StatusMessage(target, code) == x + Digits(code);
      ParseNonNegative(target, code);
    } else {
      assert StatusMessage(target, code) == (x + "-") + Digits(-code);
      ParseNegative(target, code);
    }
  }

  lemma ParseNonNegative(target: string, code: nat)
    ensures ParseStatusMessage(RequestPrefix + target + StatusInfix + Digits(code)) == Some((target, code))
  {
    var x := RequestPrefix + target + StatusInfix;
    ParseSpelledOut(x, Digits(code));
    ParseHeadOf(target, code);
  }

  lemma ParseNegative(target: string, code: int)
    requires code < 0
    ensures ParseStatusMessage(RequestPrefix + target + StatusInfix + "-" + Digits(-code)) == Some((target, code))
  {
    var x := RequestPrefix + target + StatusInfix;
    ParseSpelledOut(x + "-", Digits(-code));
    assert (x + "-")[..|x + "-"| - 1] == x;
    ParseHeadOf(target, code);
  }

  /** The digits after a non-digit are split off whole. */
  lemma ParseSpelledOut(x: string, d: string)
    requires |x| > 0 && !IsDigit(x[|x| - 1])
    requires |d| > 0 && AllDigits(d)
    ensures TrailingDigits(x + d) == d
    ensures (x + d)[..|x + d| - |d|] == x
  {
    TrailingDigitsAfterSeparator(x, d);
    assert (x + d)[..|x + d| - |d|] == x;
  }

  lemma ParseHeadOf(target: string, code: int)
    ensures ParseHead(RequestPrefix + target + StatusInfix, code) == Some((target, code))
  {
    SliceAroundMiddle(RequestPrefix, target, StatusInfix);
  }

  lemma SliceAroundMiddle(a: string, b: string, c: string)
    ensures var s := a + b + c;
      && s[..|a|] == a
      && s[|s| - |c|..] == c
      && s[|a|..|s| - |c|] == b
  {
  }

  /** Two status failures with the same message have the same target and code. */
  lemma StatusMessageInjective(t1: string, c1: int, t2: string, c2: int)
    requires StatusMessage(t1, c1) == StatusMessage(t2, c2)
    ensures t1 == t2 && c1 == c2
  {
    StatusMessageRoundTrip(t1, c1);
    StatusMessageRoundTrip(t2, c2);
  }
}
