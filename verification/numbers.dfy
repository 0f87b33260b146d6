/** Python's `int(text)` and `str(n)` for base-10 ASCII integers. */
module Numbers {
  import opened Wrappers
  import opened Text

  predicate IsDigit(c: char) {
    '0' <= c <= '9'
  }

  function DigitValue(c: char): (d: nat)
    requires IsDigit(c)
    ensures d < 10
  {
    c as int - '0' as int
  }

  function DigitChar(d: nat): (c: char)
    requires d < 10
    ensures IsDigit(c) && DigitValue(c) == d
  {
    ('0' as int + d) as char
  }

  /** Digits with single underscores between them, as `int()` accepts:
      "1_000" is one, "_1", "1_" and "1__0" are not. */
  predicate IsDigitRun(s: string) {
    && |s| > 0
    && IsDigit(s[0])
    && IsDigit(s[|s| - 1])
    && DigitsOrUnderscores(s)
    && forall i, j :: 0 <= i < |s| && 0 <= j < |s| && j == i + 1 ==> !(s[i] == '_' && s[j] == '_')
  }

  predicate DigitsOrUnderscores(s: string) {
    forall i :: 0 <= i < |s| ==> IsDigit(s[i]) || s[i] == '_'
  }

  /** The number a digit run denotes; underscores are ignored. */
  function RunValue(s: string): nat
    requires DigitsOrUnderscores(s)
  {
    if s == [] then 0
    else if s[|s| - 1] == '_' then RunValue(s[..|s| - 1])
    else 10 * RunValue(s[..|s| - 1]) + DigitValue(s[|s| - 1])
  }

  /** `str(n)` for a natural number: no sign, no leading zero. */
  function NatText(n: nat): (r: string)
    ensures |r| > 0
    ensures forall i :: 0 <= i < |r| ==> IsDigit(r[i])
    ensures |r| > 1 ==> r[0] != '0'
    ensures n < 10 <==> |r| == 1
  {
    if n < 10 then [DigitChar(n)] else NatText(n / 10) + [DigitChar(n % 10)]
  }

  /** `str(i)` for an integer. */
  function IntText(i: int): (r: string)
    ensures |r| > 0
    ensures forall k :: 0 <= k < |r| ==> IsDigit(r[k]) || (k == 0 && r[k] == '-')
    ensures r[0] == '-' <==> i < 0
  {
    if i < 0 then "-" + NatText(-i) else NatText(i)
  }

  /** `int(s)` for a string: surrounding whitespace, an optional sign and a
      digit run; anything else is the ValueError the callers catch. */
  function ParseInt(s: string): (r: Option<int>)
    ensures r.Some? ==> !IsBlank(s)
  {
    var t := Trim(s);
    if t == [] then None else ParseSigned(t)
  }

  /** `int()` on text with no surrounding whitespace. */
  function ParseSigned(t: string): Option<int>
    requires t != []
  {
    var signed := t[0] == '-' || t[0] == '+';
    var body := if signed then t[1..] else t;
    if !IsDigitRun(body) then None
    else if t[0] == '-' then Some(0 - RunValue(body))
    else Some(RunValue(body))
  }

  lemma {:induction false} NatTextValue(n: nat)
    ensures IsDigitRun(NatText(n))
    ensures RunValue(NatText(n)) == n
  {
    var r := NatText(n);
    if n >= 10 {
      NatTextValue(n / 10);
      assert r[..|r| - 1] == NatText(n / 10);
    }
  }

  /** Rendering an integer and parsing it back gives the integer. */
  lemma IntTextRoundTrip(i: int)
    ensures ParseInt(IntText(i)) == Some(i)
  {
    if i < 0 {
      NegativeRoundTrip(i);
    } else {
      NatTextValue(i);
      TrimIntText(i);
      ParseUnsigned(NatText(i));
    }
  }

  lemma NegativeRoundTrip(i: int)
    requires i < 0
    ensures ParseInt(IntText(i)) == Some(i)
  {
    NegativeText(i);
    NegativeParses(i);
  }

  lemma NegativeParses(i: int)
    requires i < 0
    ensures ParseSigned(['-'] + NatText(-i)) == Some(i)
  {
    NatTextValue(-i);
    ParseNegative(NatText(-i));
  }

  /** A negative number renders as a minus sign before its magnitude, and
      that text parses as the sign applied to the digits. */
  lemma NegativeText(i: int)
    requires i < 0
    ensures ParseInt(IntText(i)) == ParseSigned(['-'] + NatText(-i))
  {
    assert IntText(i) == ['-'] + NatText(-i);
    TrimIntText(i);
  }

  lemma ParseUnsigned(b: string)
    requires IsDigitRun(b) && Trim(b) == b
    ensures ParseInt(b) == Some(RunValue(b) as int)
  {
  }

  lemma ParseNegative(b: string)
    requires IsDigitRun(b)
    ensures ParseSigned(['-'] + b) == Some(0 - RunValue(b))
  {
    var t := ['-'] + b;
    assert t[0] == '-' && t[1..] == b;
  }

  lemma TrimIntText(i: int)
    ensures Trim(IntText(i)) == IntText(i)
  {
    var r := IntText(i);
    assert !IsSpace(r[0]) && !IsSpace(r[|r| - 1]);
    TrimTrimmed(r);
  }

  /** Distinct integers render differently. */
  lemma IntTextInjective(i: int, j: int)
    requires IntText(i) == IntText(j)
    ensures i == j
  {
    IntTextRoundTrip(i);
    IntTextRoundTrip(j);
  }

  /** Text without any digit never parses as an integer. */
  lemma {:induction false} ParseIntNeedsDigit(s: string)
    requires forall i :: 0 <= i < |s| ==> !IsDigit(s[i])
    ensures ParseInt(s) == None
  {
    var t := Trim(s);
    if t != [] {
      TrimIsStrip(s);
      var a, b := StripBySlice(s, Whitespace);
      assert t[|t| - 1] == s[b - 1];
      var signed := t[0] == '-' || t[0] == '+';
      var body := if signed then t[1..] else t;
      if body != [] {
        assert body[|body| - 1] == t[|t| - 1];
      }
    }
  }
}
