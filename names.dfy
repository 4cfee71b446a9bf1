/**
 * The pure helpers of fetch_auctions.py: the display name built from a
 * player's slug and team (last_name_from_slug, display_name) and the
 * ordinal column labels of the CSV header (ordinal).
 */
module Names {
  import opened Wrappers
  import opened Text
  import opened Decimal

  /** last_name_from_slug: slug.split("-")[-1].capitalize() */
  function LastNameFromSlug(slug: string): string
  {
    Capitalize(LastSegment(slug, '-'))
  }

  /** display_name: f"{last_name_from_slug(slug)} ({team})" */
  function DisplayName(slug: string, team: string): string
  {
    LastNameFromSlug(slug) + " (" + team + ")"
  }

  /**
   * The last name is the text after the last '-' of the slug (the whole
   * slug when it has none), capitalised.
   */
  lemma LastNameFromSlugShape(slug: string)
    ensures var r := LastNameFromSlug(slug);
      && |r| <= |slug|
      && r == Capitalize(slug[|slug| - |r|..])
      && '-' !in slug[|slug| - |r|..]
      && (|r| < |slug| ==> slug[|slug| - |r| - 1] == '-')
      && (|r| == |slug| <==> '-' !in slug)
  {
    var segment := LastSegment(slug, '-');
    LastSegmentIsTailAfterSeparator(slug, '-');
    CapitalizeKeepsLetters(segment);
  }

  /**
   * The display name is the capitalised text after the last '-' of the
   * slug, then " (", the team and ")": "Celentano (CIN)" for
   * "roman-celentano" of CIN.
   */
  lemma DisplayNameShape(slug: string, team: string)
    ensures var r := DisplayName(slug, team);
      |r| >= |team| + 3 &&
      var n := |r| - |team| - 3;
      && n <= |slug|
      && r[n..] == " (" + team + ")"
      && r[..n] == Capitalize(slug[|slug| - n..])
      && '-' !in slug[|slug| - n..]
      && (n < |slug| ==> slug[|slug| - n - 1] == '-')
  {
    var name := LastNameFromSlug(slug);
    var tail := " (" + team + ")";
    LastNameFromSlugShape(slug);
    var suffix := slug[|slug| - |name|..];
    assert name == Capitalize(suffix) && '-' !in suffix;
    var r := DisplayName(slug, team);
    assert r == name + tail;
    assert |r| - |team| - 3 == |name|;
    assert r[|name|..] == tail && r[..|name|] == name;
  }

  /** The suffix ordinal appends: "th" for 11, 12, 13 (mod 100), else by the last digit. */
  function OrdinalSuffix(n: int): string
  {
    if 11 <= n % 100 <= 13 then "th"
    else if n % 10 == 1 then "st"
    else if n % 10 == 2 then "nd"
    else if n % 10 == 3 then "rd"
    else "th"
  }

  /** ordinal: 1 -> "1st", 2 -> "2nd", 11 -> "11th", 22 -> "22nd", ... */
  function Ordinal(n: int): string
  {
    IntToString(n) + OrdinalSuffix(n)
  }

  /**
   * The English rule read off the written number: "th" after a tens digit
   * of 1, otherwise "st", "nd", "rd" after a last digit of 1, 2, 3, and "th"
   * after any other digit.
   */
  function SpokenSuffix(digits: string): string
    requires |digits| >= 1
  {
    var last := digits[|digits| - 1];
    if |digits| >= 2 && digits[|digits| - 2] == '1' then "th"
    else if last == '1' then "st"
    else if last == '2' then "nd"
    else if last == '3' then "rd"
    else "th"
  }

  lemma {:induction false} NatToStringLastDigits(n: nat)
    ensures var s := NatToString(n);
      s[|s| - 1] == DigitChar(n % 10) &&
      (n < 10 <==> |s| == 1) &&
      (n >= 10 ==> s[|s| - 2] == DigitChar(n / 10 % 10))
  {
    if n >= 10 {
      NatToStringLastDigits(n / 10);
    }
  }

  lemma DigitCharInjective(x: nat, y: nat)
    requires x < 10 && y < 10
    ensures DigitChar(x) == DigitChar(y) <==> x == y
  {
  }

  /**
   * For the 1-based column numbers the header uses, ordinal agrees with the
   * spoken-English rule applied to the written number, and the number in
   * front of the suffix reads back as n.
   */
  lemma OrdinalMatchesSpokenRule(n: nat)
    ensures Ordinal(n) == NatToString(n) + SpokenSuffix(NatToString(n))
    ensures var o := Ordinal(n); |o| >= 3 && ParseInt(o[..|o| - 2]) == Some(n)
  {
    var s := NatToString(n);
    NatToStringLastDigits(n);
    LastTwoDigits(n);
    DigitCharInjective(n % 10, 1);
    DigitCharInjective(n % 10, 2);
    DigitCharInjective(n % 10, 3);
    if n >= 10 {
      DigitCharInjective(n / 10 % 10, 1);
    }
    assert OrdinalSuffix(n) == SpokenSuffix(s);
    var o := Ordinal(n);
    assert o[..|o| - 2] == s;
    IntToStringRoundTrip(n);
  }
}
