/**
 * String operations used by fetch_auctions.py, restricted to what the
 * script needs: ASCII case mapping (str.lower, str.capitalize),
 * str.split on one separator character, the `in` substring test and
 * Python's ordering of strings (`<`, code point by code point).
 */
module Text {

  // ---------------------------------------------------------------------------
  // Case mapping (ASCII letters only)
  // ---------------------------------------------------------------------------

  function LowerChar(c: char): char
  {
    if 'A' <= c <= 'Z' then (c as int + 32) as char else c
  }

  function UpperChar(c: char): char
  {
    if 'a' <= c <= 'z' then (c as int - 32) as char else c
  }

  /** str.lower() */
  function Lower(s: string): (r: string)
    ensures |r| == |s|
    ensures forall i :: 0 <= i < |s| ==> r[i] == LowerChar(s[i])
  {
    seq(|s|, i requires 0 <= i < |s| => LowerChar(s[i]))
  }

  /** Lower-casing works character by character: it distributes over concatenation. */
  lemma LowerAppend(a: string, b: string)
    ensures Lower(a + b) == Lower(a) + Lower(b)
  {
    assert forall i :: 0 <= i < |a + b| ==> Lower(a + b)[i] == (Lower(a) + Lower(b))[i];
  }

  /** str.capitalize(): first character upper case, all the others lower case. */
  function Capitalize(s: string): string
  {
    if s == [] then [] else [UpperChar(s[0])] + Lower(s[1..])
  }

  /** Lower-casing forgets whether a letter was upper-cased or lower-cased before. */
  lemma LowerForgetsCase(c: char)
    ensures LowerChar(UpperChar(c)) == LowerChar(c)
    ensures LowerChar(LowerChar(c)) == LowerChar(c)
  {
  }

  /** Capitalising keeps the length and only changes the case of letters. */
  lemma CapitalizeKeepsLetters(s: string)
    ensures |Capitalize(s)| == |s|
    ensures Lower(Capitalize(s)) == Lower(s)
  {
    if s != [] {
      var c := Capitalize(s);
      var t := Lower(s[1..]);
      assert c == [UpperChar(s[0])] + t;
      forall i | 0 <= i < |s|
        ensures Lower(c)[i] == Lower(s)[i]
      {
        if i == 0 {
          LowerForgetsCase(s[0]);
        } else {
          assert c[i] == t[i - 1] == LowerChar(s[i]);
          LowerForgetsCase(s[i]);
        }
      }
    }
  }

  // ---------------------------------------------------------------------------
  // str.split(sep) and its inverse, sep.join(parts)
  // ---------------------------------------------------------------------------

  /** sep.join(parts) */
  function Join(parts: seq<string>, sep: char): string
    requires |parts| >= 1
    decreases |parts|
  {
    if |parts| == 1 then parts[0] else parts[0] + [sep] + Join(parts[1..], sep)
  }

  /**
   * s.split(sep) for a one-character separator: always at least one part,
   * no part holds the separator, and joining the parts gives s back.
   */
  function Split(s: string, sep: char): (parts: seq<string>)
    ensures |parts| >= 1
    ensures forall i :: 0 <= i < |parts| ==> sep !in parts[i]
    ensures Join(parts, sep) == s
    decreases |s|
  {
    if s == [] then [[]]
    else
      var rest := Split(s[1..], sep);
      if s[0] == sep then
        assert Join([[]] + rest, sep) == [sep] + Join(rest, sep);
        [[]] + rest
      else
        var parts := [[s[0]] + rest[0]] + rest[1..];
        assert Join(parts, sep) == [s[0]] + Join(rest, sep) by {
          if |rest| > 1 {
            assert parts[1..] == rest[1..];
          }
        }
        parts
  }

  /** Split is the only way of cutting s into separator-free parts that join back to s. */
  lemma {:induction false} SplitUnique(s: string, sep: char, parts: seq<string>)
    requires |parts| >= 1
    requires forall i :: 0 <= i < |parts| ==> sep !in parts[i]
    requires Join(parts, sep) == s
    ensures parts == Split(s, sep)
    decreases |s|, |parts[0]|
  {
    if s == [] {
      assert |parts| == 1;
    } else if parts[0] == [] {
      assert |parts| > 1;
      assert s[0] == sep && s[1..] == Join(parts[1..], sep);
      SplitUnique(s[1..], sep, parts[1..]);
    } else {
      var tail := [parts[0][1..]] + parts[1..];
      assert s[0] == parts[0][0];
      assert s[0] != sep;
      assert Join(tail, sep) == s[1..] by {
        if |parts| > 1 {
          assert tail[1..] == parts[1..];
        }
      }
      assert forall i :: 0 <= i < |tail| ==> sep !in tail[i] by {
        assert forall c :: c in parts[0][1..] ==> c in parts[0];
      }
      SplitUnique(s[1..], sep, tail);
      assert parts[0] == [s[0]] + tail[0];
      assert parts == [[s[0]] + tail[0]] + tail[1..];
    }
  }

  /** The last part of a join is a suffix of it, preceded by the separator when there are several parts. */
  lemma {:induction false} JoinEndsWithLast(parts: seq<string>, sep: char)
    requires |parts| >= 1
    ensures var j, l := Join(parts, sep), parts[|parts| - 1];
      |l| <= |j| && j[|j| - |l|..] == l &&
      (|parts| > 1 ==> |l| < |j| && j[|j| - |l| - 1] == sep)
    decreases |parts|
  {
    if |parts| > 1 {
      JoinEndsWithLast(parts[1..], sep);
      var j, l := Join(parts, sep), parts[|parts| - 1];
      var jr := Join(parts[1..], sep);
      assert j == (parts[0] + [sep]) + jr;
      assert j[|j| - |jr|..] == jr;
      if |parts| == 2 {
        assert jr == l;
      }
    }
  }

  /** The text after the last occurrence of sep (all of s when sep does not occur): s.split(sep)[-1]. */
  function LastSegment(s: string, sep: char): string
  {
    var parts := Split(s, sep);
    parts[|parts| - 1]
  }

  lemma LastSegmentIsTailAfterSeparator(s: string, sep: char)
    ensures var r := LastSegment(s, sep);
      |r| <= |s| && r == s[|s| - |r|..] && sep !in r &&
      (|r| < |s| ==> s[|s| - |r| - 1] == sep) &&
      (|r| == |s| <==> sep !in s)
  {
    var parts := Split(s, sep);
    JoinEndsWithLast(parts, sep);
    var r := LastSegment(s, sep);
    if |parts| > 1 {
      assert s[|s| - |r| - 1] in s;
    }
  }

  // ---------------------------------------------------------------------------
  // Substring test: `sub in s`
  // ---------------------------------------------------------------------------

  predicate StartsWith(s: string, prefix: string)
  {
    |prefix| <= |s| && s[..|prefix|] == prefix
  }

  /** `sub in s`: sub starts at the front of s or somewhere in its tail. */
  predicate Contains(s: string, sub: string)
    decreases |s|
  {
    StartsWith(s, sub) || (s != [] && Contains(s[1..], sub))
  }

  /** The substring test finds sub exactly when sub occurs at some position of s. */
  lemma {:induction false} ContainsMeaning(s: string, sub: string)
    ensures Contains(s, sub) <==> exists i :: 0 <= i <= |s| && StartsWith(s[i..], sub)
    decreases |s|
  {
    assert s[0..] == s;
    if s != [] {
      ContainsMeaning(s[1..], sub);
      assert forall i :: 1 <= i <= |s| ==> s[i..] == s[1..][i - 1..];
      if Contains(s[1..], sub) {
        var i :| 0 <= i <= |s[1..]| && StartsWith(s[1..][i..], sub);
        assert StartsWith(s[i + 1..], sub);
      }
    }
  }

  // ---------------------------------------------------------------------------
  // Python's `<` on str
  // ---------------------------------------------------------------------------

  /** a < b: the first differing character decides; a proper prefix is smaller. */
  predicate StrLess(a: string, b: string)
    decreases |a|
  {
    if a == [] then b != []
    else b != [] && (a[0] < b[0] || (a[0] == b[0] && StrLess(a[1..], b[1..])))
  }

  lemma {:induction false} StrLessIrreflexive(a: string)
    ensures !StrLess(a, a)
    decreases |a|
  {
    if a != [] {
      StrLessIrreflexive(a[1..]);
    }
  }

  lemma {:induction false} StrLessTransitive(a: string, b: string, c: string)
    requires StrLess(a, b) && StrLess(b, c)
    ensures StrLess(a, c)
    decreases |a|
  {
    if a != [] && a[0] == b[0] && b[0] == c[0] {
      StrLessTransitive(a[1..], b[1..], c[1..]);
    }
  }

  lemma {:induction false} StrLessTotal(a: string, b: string)
    requires a != b
    ensures StrLess(a, b) || StrLess(b, a)
    decreases |a|
  {
    if a != [] && b != [] && a[0] == b[0] {
      assert a[1..] != b[1..] by {
        assert a == [a[0]] + a[1..] && b == [b[0]] + b[1..];
      }
      StrLessTotal(a[1..], b[1..]);
    }
  }
}
