/**
 * The parts of Kotlin's `String` library that the file layer relies on:
 * whitespace, `trim`, `isBlank`, `endsWith`, `removeSuffix`, decimal
 * rendering of an integer, and `compareTo`.
 */
module Strings {

  /** Kotlin's `Char.isWhitespace()` on the JVM: Java whitespace
      (U+0009..U+000D, U+001C..U+001F, U+0020) together with the Unicode
      space, line and paragraph separators. */
  predicate IsWhitespace(c: char)
    ensures IsWhitespace(c) ==> (c as int) < 0x10000
  {
    || ('\t' <= c <= '\r')
    || ('\U{001C}' <= c <= ' ')
    || c == '\U{00A0}' || c == '\U{1680}'
    || ('\U{2000}' <= c <= '\U{200A}')
    || c == '\U{2028}' || c == '\U{2029}' || c == '\U{202F}'
    || c == '\U{205F}' || c == '\U{3000}'
  }

  /** Kotlin's `isBlank()`: empty or whitespace only. Whitespace lies in the
      Basic Multilingual Plane, so a blank string has as many UTF-16 units as
      characters and looking at units or at characters gives the same
      answer. */
  predicate IsBlank(s: string)
    ensures IsBlank(s) ==> Utf16Length(s) == |s|
  {
    forall i :: 0 <= i < |s| ==> IsWhitespace(s[i])
  }

  /** Neither the first nor the last character is whitespace. */
  predicate NoOuterWhitespace(s: string)
  {
    |s| == 0 || (!IsWhitespace(s[0]) && !IsWhitespace(s[|s| - 1]))
  }

  /** Drops the leading whitespace: the result is a suffix of `s`, what was
      dropped is blank, and the result does not start with whitespace. */
  function TrimStart(s: string): (r: string)
    ensures |r| <= |s| && r == s[|s| - |r|..]
    ensures IsBlank(s[..|s| - |r|])
    ensures r == [] || !IsWhitespace(r[0])
    decreases |s|
  {
    if |s| > 0 && IsWhitespace(s[0]) then
      var p := s[1..];
      var r := TrimStart(p);
      assert s[..|s| - |r|] == [s[0]] + p[..|p| - |r|];
      BlankPrependWhitespace(s[0], p[..|p| - |r|]);
      assert p[|p| - |r|..] == s[|s| - |r|..];
      r
    else
      s
  }

  /** Drops the trailing whitespace: the result is a prefix of `s`, what was
      dropped is blank, and the result does not end with whitespace. */
  function TrimEnd(s: string): (r: string)
    ensures |r| <= |s| && r == s[..|r|]
    ensures IsBlank(s[|r|..])
    ensures r == [] || !IsWhitespace(r[|r| - 1])
    decreases |s|
  {
    if |s| > 0 && IsWhitespace(s[|s| - 1]) then
      var p := s[..|s| - 1];
      var r := TrimEnd(p);
      assert s[|r|..] == p[|r|..] + [s[|s| - 1]];
      BlankAppendWhitespace(p[|r|..], s[|s| - 1]);
      assert p[..|r|] == s[..|r|];
      r
    else
      s
  }

  /** Putting a whitespace character in front of a blank string keeps it
      blank. */
  lemma BlankPrependWhitespace(c: char, a: string)
    requires IsWhitespace(c) && IsBlank(a)
    ensures IsBlank([c] + a)
  {
    assert forall i :: 0 < i <= |a| ==> ([c] + a)[i] == a[i - 1];
  }

  /** Appending a whitespace character to a blank string keeps it blank. */
  lemma BlankAppendWhitespace(a: string, c: char)
    requires IsBlank(a) && IsWhitespace(c)
    ensures IsBlank(a + [c])
  {
    assert forall i :: 0 <= i < |a| ==> (a + [c])[i] == a[i];
  }

  /** Kotlin's `trim()`. */
  function Trim(s: string): (r: string)
    ensures |r| <= |s|
    ensures NoOuterWhitespace(r)
    ensures IsBlank(s) <==> r == []
    ensures NoOuterWhitespace(s) ==> r == s
  {
    var t := TrimStart(s);
    var r := TrimEnd(t);
    assert t == [] ==> s[..|s| - |t|] == s;
    assert r != [] ==> r[0] == t[0];
    r
  }

  /** Trimming only drops characters: what is left is a piece of `s`. */
  lemma TrimKeepsCharacters(s: string)
    ensures forall i :: 0 <= i < |Trim(s)| ==> Trim(s)[i] in s
  {
    var t := TrimStart(s);
    var r := TrimEnd(t);
    forall i | 0 <= i < |r| ensures r[i] in s {
      assert r[i] == t[i] == s[|s| - |t| + i];
    }
  }

  /** The number of UTF-16 code units a character takes: two for one
      outside the Basic Multilingual Plane. */
  function Utf16Units(c: char): nat
  {
    if (c as int) < 0x10000 then 1 else 2
  }

  /** Kotlin's `String.length`, which counts UTF-16 code units, not
      characters. */
  function Utf16Length(s: string): (n: nat)
    ensures |s| <= n <= 2 * |s|
    ensures n == |s| <==> forall i :: 0 <= i < |s| ==> (s[i] as int) < 0x10000
    decreases |s|
  {
    if s == [] then 0
    else
      var init := s[..|s| - 1];
      assert forall i :: 0 <= i < |init| ==> init[i] == s[i];
      Utf16Length(init) + Utf16Units(s[|s| - 1])
  }

  /** The length of a concatenation is the sum of the lengths. */
  lemma {:induction false} Utf16LengthAppend(a: string, b: string)
    ensures Utf16Length(a + b) == Utf16Length(a) + Utf16Length(b)
    decreases |b|
  {
    if b == [] {
      assert a + b == a;
    } else {
      var ab := a + b;
      assert ab[..|ab| - 1] == a + b[..|b| - 1];
      assert ab[|ab| - 1] == b[|b| - 1];
      Utf16LengthAppend(a, b[..|b| - 1]);
    }
  }

  /** A prefix or a suffix of a string is no longer than the string. */
  lemma Utf16LengthSplit(s: string, k: nat)
    requires k <= |s|
    ensures Utf16Length(s[..k]) <= Utf16Length(s)
    ensures Utf16Length(s[k..]) <= Utf16Length(s)
  {
    assert s == s[..k] + s[k..];
    Utf16LengthAppend(s[..k], s[k..]);
  }

  /** A string of characters outside the Basic Multilingual Plane has twice
      as many UTF-16 units as characters. */
  lemma {:induction false} Utf16LengthSupplementary(s: string)
    requires forall i :: 0 <= i < |s| ==> (s[i] as int) >= 0x10000
    ensures Utf16Length(s) == 2 * |s|
    decreases |s|
  {
    if s != [] {
      var init := s[..|s| - 1];
      assert forall i :: 0 <= i < |init| ==> init[i] == s[i];
      Utf16LengthSupplementary(init);
    }
  }

  /** Trimming never lengthens a string, in UTF-16 units either. */
  lemma TrimShortens(s: string)
    ensures Utf16Length(Trim(s)) <= Utf16Length(s)
  {
    var u := TrimStart(s);
    Utf16LengthSplit(s, |s| - |u|);
    Utf16LengthSplit(u, |TrimEnd(u)|);
  }

  /** Kotlin's `endsWith(suffix)` without `ignoreCase`: `s` is some prefix
      followed by exactly `suffix`. */
  predicate EndsWith(s: string, suffix: string)
    ensures EndsWith(s, suffix) <==> |suffix| <= |s| && s[..|s| - |suffix|] + suffix == s
  {
    |suffix| <= |s| && s[|s| - |suffix|..] == suffix
  }

  /** The same test, position by position: the last |suffix| characters of
      `s` are those of `suffix`. */
  lemma EndsWithByPosition(s: string, suffix: string)
    ensures EndsWith(s, suffix) <==>
      |suffix| <= |s| && forall i :: 0 <= i < |suffix| ==> s[|s| - |suffix| + i] == suffix[i]
  {
    if |suffix| <= |s| {
      var t := s[|s| - |suffix|..];
      assert forall i :: 0 <= i < |suffix| ==> t[i] == s[|s| - |suffix| + i];
    }
  }

  /** A name made by appending a suffix ends with it, whatever precedes it. */
  lemma EndsWithAppended(prefix: string, suffix: string)
    ensures EndsWith(prefix + suffix, suffix)
  {
    assert (prefix + suffix)[|prefix|..] == suffix;
  }

  /** Kotlin's `removeSuffix(suffix)`: case-sensitive. */
  function RemoveSuffix(s: string, suffix: string): (r: string)
    ensures EndsWith(s, suffix) ==> r + suffix == s
    ensures !EndsWith(s, suffix) ==> r == s
  {
    if EndsWith(s, suffix) then s[..|s| - |suffix|] else s
  }

  const JSON_EXTENSION: string := ".json"

  /** `Character.toUpperCase` on the characters it maps to an ASCII letter:
      'a'..'z', the dotless i (U+0131, to 'I') and the long s (U+017F, to
      'S'). Every other character is returned as it is: no other character
      has an ASCII letter as its upper case, so comparing the result with
      that of an ASCII character is exact. */
  function UpperCaseToAscii(c: char): (u: char)
    ensures 'a' <= c <= 'z' ==> (u as int) == (c as int) - 32
    ensures u != c ==> ('A' <= u <= 'Z' && ('a' <= c <= 'z' || c == '\U{0131}' || c == '\U{017F}'))
  {
    if 'a' <= c <= 'z' then ((c as int) - 32) as char
    else if c == '\U{0131}' then 'I'
    else if c == '\U{017F}' then 'S'
    else c
  }

  /** `endsWith(".json", ignoreCase = true)` on the JVM, which compares
      characters after upper-casing (`regionMatches`). Besides the ASCII
      letters of both cases, the long s (U+017F, whose upper case is 'S')
      matches 's'. */
  predicate EndsWithJsonIgnoringCase(s: string)
    ensures EndsWith(s, JSON_EXTENSION) ==> EndsWithJsonIgnoringCase(s)
    ensures EndsWith(s, ".JSON") ==> EndsWithJsonIgnoringCase(s)
  {
    && |s| >= 5
    && s[|s| - 5] == '.'
    && s[|s| - 4] in {'j', 'J'}
    && s[|s| - 3] in {'s', 'S', '\U{017F}'}
    && s[|s| - 2] in {'o', 'O'}
    && s[|s| - 1] in {'n', 'N'}
  }

  /** The case-insensitive test compares the last five characters with
      ".json" position by position after upper-casing. */
  lemma EndsWithJsonIgnoringCaseByPosition(s: string)
    ensures EndsWithJsonIgnoringCase(s) <==> (|s| >= 5 &&
      forall i :: 0 <= i < 5 ==> UpperCaseToAscii(s[|s| - 5 + i]) == UpperCaseToAscii(JSON_EXTENSION[i]))
  {
    if |s| >= 5 {
      assert UpperCaseToAscii('.') == '.' && UpperCaseToAscii('j') == 'J'
        && UpperCaseToAscii('s') == 'S' && UpperCaseToAscii('o') == 'O' && UpperCaseToAscii('n') == 'N';
      var e := JSON_EXTENSION;
      assert e[0] == '.' && e[1] == 'j' && e[2] == 's' && e[3] == 'o' && e[4] == 'n';
      var n := |s| - 5;
      assert (forall i :: 0 <= i < 5 ==> UpperCaseToAscii(s[n + i]) == UpperCaseToAscii(e[i]))
        <==> (UpperCaseToAscii(s[n]) == '.' && UpperCaseToAscii(s[n + 1]) == 'J'
          && UpperCaseToAscii(s[n + 2]) == 'S' && UpperCaseToAscii(s[n + 3]) == 'O'
          && UpperCaseToAscii(s[n + 4]) == 'N');
    }
  }

  function DigitChar(d: nat): (c: char)
    requires d < 10
    ensures '0' <= c <= '9'
    ensures (c as int) - ('0' as int) == d
  {
    (48 + d) as char
  }

  /** The number a string of decimal digits denotes. */
  function DecimalValue(s: string): nat
    requires forall i :: 0 <= i < |s| ==> '0' <= s[i] <= '9'
    decreases |s|
  {
    if s == [] then 0
    else DecimalValue(s[..|s| - 1]) * 10 + ((s[|s| - 1] as int) - ('0' as int))
  }

  /** Decimal rendering of a non-negative integer, as Kotlin's string
      template `"$n"` writes it: digits denoting `n`, no sign, no leading
      zero. */
  function NatToString(n: nat): (r: string)
    ensures 1 <= |r|
    ensures |r| == 1 <==> n < 10
    ensures forall i :: 0 <= i < |r| ==> '0' <= r[i] <= '9'
    ensures DecimalValue(r) == n
    ensures r[0] == '0' ==> n == 0
    decreases n
  {
    if n < 10 then
      var r := [DigitChar(n)];
      assert r[..0] == [];
      r
    else
      var p := NatToString(n / 10);
      var r := p + [DigitChar(n % 10)];
      assert r[..|r| - 1] == p;
      r
  }

  /** `Long.toString()`: a minus sign before the digits of a negative
      number. */
  function IntToString(n: int): (r: string)
    ensures 1 <= |r|
    ensures r[0] == '-' <==> n < 0
    ensures n >= 0 ==> (forall i :: 0 <= i < |r| ==> '0' <= r[i] <= '9') && DecimalValue(r) == n
    ensures n < 0 ==> (forall i :: 0 <= i < |r| - 1 ==> '0' <= r[1..][i] <= '9') && DecimalValue(r[1..]) == -n
  {
    if n < 0 then
      var d := NatToString(-n);
      assert ("-" + d)[1..] == d;
      "-" + d
    else NatToString(n)
  }

  /** Different numbers have different decimal renderings. */
  lemma {:induction false} NatToStringInjective(m: nat, n: nat)
    requires NatToString(m) == NatToString(n)
    ensures m == n
    decreases m
  {
    var a, b := NatToString(m), NatToString(n);
    if m < 10 && n < 10 {
      assert a[0] == DigitChar(m) && b[0] == DigitChar(n);
    } else if m >= 10 && n >= 10 {
      assert a == NatToString(m / 10) + [DigitChar(m % 10)];
      assert b == NatToString(n / 10) + [DigitChar(n % 10)];
      assert NatToString(m / 10) == a[..|a| - 1] == b[..|b| - 1] == NatToString(n / 10);
      assert DigitChar(m % 10) == a[|a| - 1] == b[|b| - 1] == DigitChar(n % 10);
      NatToStringInjective(m / 10, n / 10);
    }
  }

  /** `a.compareTo(b) <= 0`: lexicographic order by characters, a proper
      prefix coming first. */
  predicate LexLeq(a: string, b: string)
    ensures a <= b ==> LexLeq(a, b)
    ensures LexLeq(a, b) && |a| > 0 ==> |b| > 0 && a[0] <= b[0]
    decreases |a|
  {
    |a| == 0 || (|b| > 0 && (a[0] < b[0] || (a[0] == b[0] && LexLeq(a[1..], b[1..]))))
  }

  /** Names that agree on their first k characters and differ at position k
      are ordered by the characters at k. */
  lemma {:induction false} LexLeqFirstDifference(a: string, b: string, k: nat)
    requires k < |a| && k < |b| && a[..k] == b[..k] && a[k] != b[k]
    ensures LexLeq(a, b) <==> a[k] < b[k]
    decreases k
  {
    if k > 0 {
      assert a[0] == a[..k][0] == b[..k][0] == b[0];
      assert a[1..][..k - 1] == a[1..k] == b[1..k] == b[1..][..k - 1];
      LexLeqFirstDifference(a[1..], b[1..], k - 1);
    }
  }

  lemma {:induction false} LexLeqTotal(a: string, b: string)
    ensures LexLeq(a, b) || LexLeq(b, a)
    decreases |a|
  {
    if |a| > 0 && |b| > 0 && a[0] == b[0] {
      LexLeqTotal(a[1..], b[1..]);
    }
  }

  lemma {:induction false} LexLeqTransitive(a: string, b: string, c: string)
    requires LexLeq(a, b) && LexLeq(b, c)
    ensures LexLeq(a, c)
    decreases |a|
  {
    if |a| > 0 && a[0] == b[0] && b[0] == c[0] {
      LexLeqTransitive(a[1..], b[1..], c[1..]);
    }
  }

  lemma {:induction false} LexLeqAntisymmetric(a: string, b: string)
    requires LexLeq(a, b) && LexLeq(b, a)
    ensures a == b
    decreases |a|
  {
    if |a| > 0 {
      LexLeqAntisymmetric(a[1..], b[1..]);
      assert a == [a[0]] + a[1..];
      assert b == [b[0]] + b[1..];
    }
  }
}
