/** Decimal integers as `%d` prints them and `atoi` reads them. The values are exact: `atoi` promises nothing about a
    text whose value its result type does not hold. */
module Decimal {
  predicate IsDigit(c: char) { '0' <= c <= '9' }

  predicate AllDigits(s: string) { forall k :: 0 <= k < |s| ==> IsDigit(s[k]) }

  /** What `isspace` accepts. */
  predicate IsSpace(c: char) { c in {' ', '\t', '\n', '\r', '\U{0B}', '\U{0C}'} }

  function DigitOf(d: nat): (c: char)
    requires d < 10
    ensures IsDigit(c)
  {
    ('0' as int + d) as char
  }

  function ValueOf(c: char): (d: nat)
    requires IsDigit(c)
    ensures d < 10
  {
    c as int - '0' as int
  }

  function Digits(n: nat): (s: string)
    ensures |s| > 0 && AllDigits(s)
  {
    if n < 10 then [DigitOf(n)] else Digits(n / 10) + [DigitOf(n % 10)]
  }

  /** `%d`. */
  function Print(v: int): (s: string)
    ensures |s| > 0
  {
    if v < 0 then "-" + Digits(-v) else Digits(v)
  }

  function Value(s: string): nat
    requires AllDigits(s)
    decreases |s|
  {
    if s == "" then 0 else 10 * Value(s[..|s| - 1]) + ValueOf(s[|s| - 1])
  }

  /** The digits a text starts with. */
  function Leading(s: string): (d: string)
    ensures |d| <= |s| && d == s[..|d|] && AllDigits(d) && (|d| == |s| || !IsDigit(s[|d|]))
  {
    if s == "" || !IsDigit(s[0]) then "" else [s[0]] + Leading(s[1..])
  }

  function SkipSpaces(s: string): string {
    if s != "" && IsSpace(s[0]) then SkipSpaces(s[1..]) else s
  }

  /** `atoi`, `atol` and `String::toInt`. */
  function Parse(s: string): int {
    var t := SkipSpaces(s);
    if t != "" && t[0] == '-' then 0 - Value(Leading(t[1..]))
    else if t != "" && t[0] == '+' then Value(Leading(t[1..]))
    else Value(Leading(t))
  }

  lemma {:induction false} ValueOfDigits(n: nat)
    ensures Value(Digits(n)) == n
  {
    if n < 10 {
      assert Digits(n)[..0] == "";
    } else {
      ValueOfDigits(n / 10);
      var s := Digits(n);
      assert s[..|s| - 1] == Digits(n / 10);
    }
  }

  /** The digits of a text that continues with something else. */
  lemma {:induction false} LeadingOf(d: string, rest: string)
    requires AllDigits(d) && (rest == "" || !IsDigit(rest[0]))
    ensures Leading(d + rest) == d
    decreases |d|
  {
    if d == "" {
      assert d + rest == rest;
    } else {
      assert (d + rest)[1..] == d[1..] + rest;
      LeadingOf(d[1..], rest);
    }
  }

  /** What `atoi` makes of a number does not depend on what follows it. */
  lemma ParsePrefix(s: string, rest: string)
    requires s != "" && (IsDigit(s[0]) || s[0] == '-') && (rest == "" || !IsDigit(rest[0]))
    ensures Parse(s + rest) == Parse(s)
  {
    hide Value;
    var t := s + rest;
    assert t[0] == s[0] && SkipSpaces(t) == t && SkipSpaces(s) == s;
    if s[0] == '-' {
      assert t[1..] == s[1..] + rest;
      LeadingPrefix(s[1..], rest);
    } else {
      LeadingPrefix(s, rest);
    }
  }

  lemma {:induction false} LeadingPrefix(s: string, rest: string)
    requires rest == "" || !IsDigit(rest[0])
    ensures Leading(s + rest) == Leading(s)
    decreases |s|
  {
    if s == "" {
      assert s + rest == rest;
    } else {
      assert (s + rest)[1..] == s[1..] + rest;
      LeadingPrefix(s[1..], rest);
    }
  }

  lemma ParseUnsigned(d: string, rest: string)
    requires d != "" && AllDigits(d) && (rest == "" || !IsDigit(rest[0]))
    ensures Parse(d + rest) == Value(d)
  {
    hide Leading, Value;
    assert (d + rest)[0] == d[0] && IsDigit(d[0]);
    LeadingOf(d, rest);
  }

  lemma ParseNegative(d: string, rest: string)
    requires d != "" && AllDigits(d) && (rest == "" || !IsDigit(rest[0]))
    ensures Parse("-" + d + rest) == 0 - Value(d)
  {
    hide Leading, Value;
    var s := "-" + d + rest;
    assert s[0] == '-' && s[1..] == d + rest;
    LeadingOf(d, rest);
  }

  /** Reading what was printed gives the number back, whatever follows it that is not a digit. */
  lemma ParsePrint(v: int, rest: string)
    requires rest == "" || !IsDigit(rest[0])
    ensures Parse(Print(v) + rest) == v
  {
    hide Parse, Digits, Value;
    var n := if v < 0 then -v else v;
    ValueOfDigits(n);
    if v < 0 {
      ParseNegative(Digits(n), rest);
    } else {
      ParseUnsigned(Digits(n), rest);
    }
  }

  /** What a printed number looks like: a digit or a minus sign, then digits. */
  lemma PrintShape(v: int)
    ensures var s := Print(v); (IsDigit(s[0]) || s[0] == '-') && AllDigits(s[1..]) && (s[0] == '-' ==> |s| > 1)
  {
    hide Digits;
  }
}
