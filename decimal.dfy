/**
 * Decimal rendering of integers: the f-string conversions `f"{n}"` used by
 * ordinal, and the two-decimal price cells `f"{p:.2f}"` written by main,
 * here applied to a price held as integer cents.
 */
module Decimal {
  import opened Wrappers

  predicate IsDigit(c: char)
  {
    '0' <= c <= '9'
  }

  predicate AllDigits(s: string)
  {
    forall i :: 0 <= i < |s| ==> IsDigit(s[i])
  }

  function DigitChar(d: nat): (c: char)
    requires d < 10
    ensures IsDigit(c)
  {
    ('0' as int + d) as char
  }

  function DigitValue(c: char): (d: nat)
    requires IsDigit(c)
    ensures d < 10
  {
    c as int - '0' as int
  }

  /** The number a string of decimal digits denotes (most significant digit first). */
  function DigitsValue(s: string): nat
    requires AllDigits(s)
  {
    if s == [] then 0 else DigitsValue(s[..|s| - 1]) * 10 + DigitValue(s[|s| - 1])
  }

  /** str(n) for n >= 0: at least one digit and no leading zero. */
  function NatToString(n: nat): (s: string)
    ensures |s| >= 1 && AllDigits(s)
    ensures s[0] == '0' ==> s == "0"
    decreases n
  {
    if n < 10 then [DigitChar(n)] else NatToString(n / 10) + [DigitChar(n % 10)]
  }

  /** str(n) */
  function IntToString(n: int): string
  {
    if n < 0 then "-" + NatToString(-n) else NatToString(n)
  }

  /** int(s) for an optionally negative run of decimal digits; None where int() would raise. */
  function ParseInt(s: string): Option<int>
  {
    if |s| >= 2 && s[0] == '-' && AllDigits(s[1..]) then Some(-(DigitsValue(s[1..]) as int))
    else if |s| >= 1 && AllDigits(s) then Some(DigitsValue(s))
    else None
  }

  lemma {:induction false} NatToStringValue(n: nat)
    ensures DigitsValue(NatToString(n)) == n
    decreases n
  {
    if n >= 10 {
      NatToStringValue(n / 10);
      var s := NatToString(n);
      assert s[..|s| - 1] == NatToString(n / 10);
    }
  }

  /** Rendering an integer in decimal loses nothing: int(str(n)) == n. */
  lemma IntToStringRoundTrip(n: int)
    ensures ParseInt(IntToString(n)) == Some(n)
  {
    if n < 0 {
      var digits := NatToString(-n);
      var s := "-" + digits;
      NatToStringValue(-n);
      assert s[0] == '-' && s[1..] == digits;
      assert ParseInt(s) == Some(-(DigitsValue(digits) as int));
    } else {
      var s := NatToString(n);
      NatToStringValue(n);
      assert IsDigit(s[0]);
    }
  }

  /** f"{c / 100.0:.2f}": a minus sign for a negative amount, then its magnitude in two-decimal form. */
  function FormatCents(c: int): string
  {
    if c < 0 then "-" + UnsignedCents(-c) else UnsignedCents(c)
  }

  /** Whole units, a point and exactly two digits of cents. */
  function UnsignedCents(a: nat): string
  {
    NatToString(a / 100) + "." + [DigitChar(a % 100 / 10), DigitChar(a % 10)]
  }

  /** Reads an unsigned two-decimal amount (digits, a point, two digits) back into cents. */
  function ParseUnsignedCents(s: string): Option<nat>
  {
    if |s| >= 4 && s[|s| - 3] == '.' && AllDigits(s[..|s| - 3]) && AllDigits(s[|s| - 2..])
    then Some(DigitsValue(s[..|s| - 3]) * 100 + DigitsValue(s[|s| - 2..]))
    else None
  }

  /** Reads a two-decimal amount, optionally negative, back into cents. */
  function ParseCents(s: string): Option<int>
  {
    if |s| >= 1 && s[0] == '-' then
      match ParseUnsignedCents(s[1..])
      case Some(v) => Some(-(v as int))
      case None => None
    else
      match ParseUnsignedCents(s)
      case Some(v) => Some(v as int)
      case None => None
  }

  lemma TwoDigitsValue(x: nat, y: nat)
    requires x < 10 && y < 10
    ensures DigitsValue([DigitChar(x), DigitChar(y)]) == 10 * x + y
  {
    var s := [DigitChar(x), DigitChar(y)];
    assert s[..1] == [DigitChar(x)];
    assert [DigitChar(x)][..0] == [];
    assert DigitValue(DigitChar(x)) == x && DigitValue(DigitChar(y)) == y;
    assert DigitsValue([DigitChar(x)]) == x;
    assert DigitsValue(s) == DigitsValue(s[..1]) * 10 + y;
  }

  /** The last two decimal digits of a: its tens digit and its units digit make up a % 100. */
  lemma LastTwoDigits(a: nat)
    ensures a % 100 / 10 == a / 10 % 10
    ensures a % 100 == 10 * (a / 10 % 10) + a % 10
  {
    var q, r := a / 10, a % 10;
    var p, t := q / 10, q % 10;
    assert a == 100 * p + (10 * t + r);
    assert a % 100 == 10 * t + r;
  }

  /** The price cell renders the cents without loss, with two digits after the point. */
  lemma FormatCentsRoundTrip(c: int)
    ensures var s := FormatCents(c);
      |s| >= 4 && s[|s| - 3] == '.' && ParseCents(s) == Some(c)
  {
    var a: nat := if c < 0 then -c else c;
    var u := UnsignedCents(a);
    UnsignedCentsRoundTrip(a);
    if c < 0 {
      assert ("-" + u)[1..] == u;
    } else {
      assert u[0] == NatToString(a / 100)[0];
    }
  }

  lemma UnsignedCentsRoundTrip(a: nat)
    ensures var u := UnsignedCents(a);
      |u| >= 4 && u[|u| - 3] == '.' && IsDigit(u[0]) && ParseUnsignedCents(u) == Some(a)
  {
    var whole := NatToString(a / 100);
    var frac := [DigitChar(a % 100 / 10), DigitChar(a % 10)];
    var u := UnsignedCents(a);
    assert u[..|u| - 3] == whole;
    assert u[|u| - 2..] == frac;
    NatToStringValue(a / 100);
    TwoDigitsValue(a % 100 / 10, a % 10);
    LastTwoDigits(a);
  }
}
