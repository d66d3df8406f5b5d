/**
 * The handful of Python string built-ins that the chat protocol is made of:
 * `str.split(":")`, `":".join(...)`, `str.strip()`, `int(str)`, `str(int)`,
 * the slice `s[:n]` and `str.startswith`. Strings are sequences of Unicode
 * scalar values, as Python's `str` is, so `len` is `|s|`.
 */
module PyText {

  datatype Option<T> = None | Some(value: T)

  /**
   * Python's `str.isspace()` for one character: the characters `strip()`
   * removes. None of them is a digit, a sign, an underscore or a colon.
   */
  predicate IsSpace(c: char)
    ensures IsSpace(c) ==> !IsNumeral(c) && c != ':'
  {
    || c == ' '
    || ('\t' <= c <= '\r')
    || ('\U{1C}' <= c <= '\U{1F}')
    || c == '\U{85}' || c == '\U{A0}' || c == '\U{1680}'
    || ('\U{2000}' <= c <= '\U{200A}')
    || c == '\U{2028}' || c == '\U{2029}' || c == '\U{202F}' || c == '\U{205F}' || c == '\U{3000}'
  }

  /**
   * The characters `int()` skips around a number. CPython first turns every
   * non-ASCII whitespace character of a `str` into a space, then skips only
   * the ASCII whitespace " \t\n\v\f\r"; so the information separators
   * U+001C..U+001F, which `isspace()` counts, are not skipped.
   */
  predicate IsIntSpace(c: char)
    ensures IsIntSpace(c) ==> IsSpace(c) && !IsNumeral(c)
    ensures c as int < 128 ==> (IsIntSpace(c) <==> c in " \t\n\U{B}\U{C}\r")
  {
    IsSpace(c) && !('\U{1C}' <= c <= '\U{1F}')
  }

  predicate IsDigit(c: char) {
    '0' <= c <= '9'
  }

  /** The characters of a number's text, besides the digits: signs and underscores. */
  predicate IsNumeral(c: char) {
    IsDigit(c) || c == '_' || c == '+' || c == '-'
  }

  /** `s.startswith(p)` */
  predicate StartsWith(s: string, p: string) {
    p <= s
  }

  /** `s.startswith(p)` compares `p` with the start of `s` character by character. */
  lemma StartsWithChars(s: string, p: string)
    ensures StartsWith(s, p) <==> |p| <= |s| && forall i | 0 <= i < |p| :: s[i] == p[i]
  {
    if |p| <= |s| && forall i | 0 <= i < |p| :: s[i] == p[i] {
      assert s[..|p|] == p;
    }
  }

  // ---------------------------------------------------------------------------
  // strip()

  /** The first index from `i` on whose character is not in `ws` (`|s|` if none): only `ws` characters are skipped. */
  function SkipLeft(s: string, ws: char -> bool, i: nat): (k: nat)
    requires i <= |s|
    ensures i <= k <= |s|
    ensures forall j | i <= j < k :: ws(s[j])
    ensures k == |s| || !ws(s[k])
    decreases |s| - i
  {
    if i < |s| && ws(s[i]) then SkipLeft(s, ws, i + 1) else i
  }

  /** The end of `s[lo..hi]` once its trailing characters in `ws` are dropped: only `ws` characters are dropped. */
  function SkipRight(s: string, ws: char -> bool, lo: nat, hi: nat): (k: nat)
    requires lo <= hi <= |s|
    ensures lo <= k <= hi
    ensures forall j | k <= j < hi :: ws(s[j])
    ensures k == lo || !ws(s[k - 1])
  {
    if lo < hi && ws(s[hi - 1]) then SkipRight(s, ws, lo, hi - 1) else hi
  }

  /**
   * Both ends stripped of the characters in `ws`: `s.strip()` with
   * `ws == IsSpace`. The result neither starts nor ends with such a
   * character; `StripInfix` says where in `s` it lies.
   */
  function Strip(s: string, ws: char -> bool): (r: string)
    ensures r == [] || (!ws(r[0]) && !ws(r[|r| - 1]))
  {
    var a := SkipLeft(s, ws, 0);
    s[a..SkipRight(s, ws, a, |s|)]
  }

  /** Every character of `s` outside `s[a..a + n]` is in `ws`. */
  predicate StrippedAround(s: string, ws: char -> bool, a: nat, n: nat)
    requires a + n <= |s|
  {
    && (forall i | 0 <= i < a :: ws(s[i]))
    && (forall i | a + n <= i < |s| :: ws(s[i]))
  }

  /**
   * `Strip` keeps an infix of `s` and everything it removes around that
   * infix is in `ws`; with the ends of the infix not in `ws`, that is the
   * longest such infix.
   */
  lemma StripInfix(s: string, ws: char -> bool)
    ensures var r := Strip(s, ws); exists a | 0 <= a <= |s| - |r| :: r == s[a..a + |r|] && StrippedAround(s, ws, a, |r|)
  {
    var a := SkipLeft(s, ws, 0);
    var r := Strip(s, ws);
    assert r == s[a..a + |r|] && StrippedAround(s, ws, a, |r|);
  }

  /** Text whose ends are not in `ws` is left alone. */
  lemma StripKeeps(s: string, ws: char -> bool)
    requires s == [] || (!ws(s[0]) && !ws(s[|s| - 1]))
    ensures Strip(s, ws) == s
  {
    assert SkipLeft(s, ws, 0) == 0;
    assert SkipRight(s, ws, 0, |s|) == |s|;
    assert s[0..|s|] == s;
  }

  /** Trailing characters in `ws` removed: `StripRight(s, IsSpace)` is `s.rstrip()`. */
  function StripRight(s: string, ws: char -> bool): (r: string)
    ensures r <= s
    ensures r == [] || !ws(r[|r| - 1])
    ensures forall i | |r| <= i < |s| :: ws(s[i])
  {
    s[..SkipRight(s, ws, 0, |s|)]
  }

  /** In `a + b`, where `a` does not end in `ws`, the trailing characters in `ws` all lie in `b`. */
  lemma {:induction false} SkipRightAfter(a: string, b: string, ws: char -> bool, hi: nat)
    requires a != [] && !ws(a[|a| - 1]) && hi <= |b|
    ensures SkipRight(a + b, ws, 0, |a| + hi) == |a| + SkipRight(b, ws, 0, hi)
  {
    if hi > 0 {
      assert (a + b)[|a| + hi - 1] == b[hi - 1];
      SkipRightAfter(a, b, ws, hi - 1);
    } else {
      assert (a + b)[|a| - 1] == a[|a| - 1];
    }
  }

  /** Text that does not start in `ws` is only stripped at its right end. */
  lemma StripUnspacedLeft(s: string, ws: char -> bool)
    requires s != [] && !ws(s[0])
    ensures Strip(s, ws) == StripRight(s, ws)
  {
    assert SkipLeft(s, ws, 0) == 0;
    var k := SkipRight(s, ws, 0, |s|);
    assert s[0..k] == s[..k];
  }

  /** Stripping the right end of `a + b`, where `a` does not end in `ws`, strips only `b`. */
  lemma StripRightAfter(a: string, b: string, ws: char -> bool)
    requires a != [] && !ws(a[|a| - 1])
    ensures StripRight(a + b, ws) == a + StripRight(b, ws)
  {
    SkipRightAfter(a, b, ws, |b|);
    var k := SkipRight(b, ws, 0, |b|);
    assert (a + b)[..|a| + k] == a + b[..k];
  }

  // ---------------------------------------------------------------------------
  // split(sep) and sep.join(parts)

  /** `s.split(sep)` for a one-character separator: every occurrence cuts, empty fields are kept. */
  function Split(s: string, sep: char): (r: seq<string>)
    ensures |r| >= 1
    ensures forall i | 0 <= i < |r| :: sep !in r[i]
  {
    if |s| == 0 then [""]
    else
      var rest := Split(s[1..], sep);
      if s[0] == sep then [""] + rest
      else [[s[0]] + rest[0]] + rest[1..]
  }

  /**
   * `sep.join(parts)`: fields that hold no separator are put together so
   * that `split` cuts them apart again (`JoinSplit` is the other direction).
   */
  function Join(sep: char, parts: seq<string>): (r: string)
    ensures |parts| >= 1 && (forall i | 0 <= i < |parts| :: sep !in parts[i]) ==> Split(r, sep) == parts
  {
    if |parts| == 0 then ""
    else if |parts| == 1 then
      if sep !in parts[0] then SplitNoSep(parts[0], sep); parts[0] else parts[0]
    else
      var tail := Join(sep, parts[1..]);
      if forall i | 0 <= i < |parts| :: sep !in parts[i] then
        assert forall i | 0 <= i < |parts| - 1 :: parts[1..][i] == parts[i + 1];
        SplitCons(parts[0], sep, tail, parts[1..]);
        assert [parts[0]] + parts[1..] == parts;
        parts[0] + [sep] + tail
      else parts[0] + [sep] + tail
  }

  /** A separator-free field and a separator in front of text add that field in front of its fields. */
  lemma SplitCons(field: string, sep: char, s: string, fields: seq<string>)
    requires sep !in field && Split(s, sep) == fields
    ensures Split(field + [sep] + s, sep) == [field] + fields
  {
    SplitAround(field, sep, s);
    SplitNoSep(field, sep);
  }

  /** Text without the separator is a single field. */
  lemma {:induction false} SplitNoSep(s: string, sep: char)
    requires sep !in s
    ensures Split(s, sep) == [s]
  {
    if |s| > 0 {
      SplitNoSep(s[1..], sep);
      assert [s[0]] + s[1..] == s;
    }
  }

  /** A separator cuts the text into the fields of its left side followed by those of its right side. */
  lemma {:induction false} SplitAround(a: string, sep: char, b: string)
    ensures Split(a + [sep] + b, sep) == Split(a, sep) + Split(b, sep)
  {
    if |a| == 0 {
      assert a + [sep] + b == [sep] + b;
      assert ([sep] + b)[1..] == b;
    } else {
      assert (a + [sep] + b)[1..] == a[1..] + [sep] + b;
      SplitAround(a[1..], sep, b);
    }
  }

  /** Text that holds the separator splits into at least two fields. */
  lemma SplitHasSep(s: string, sep: char)
    requires sep in s
    ensures |Split(s, sep)| >= 2
  {
    var k :| 0 <= k < |s| && s[k] == sep;
    assert s == s[..k] + [sep] + s[k + 1..];
    SplitAround(s[..k], sep, s[k + 1..]);
  }

  /** Joining the fields of a split gives back the text. */
  lemma {:induction false} JoinSplit(s: string, sep: char)
    ensures Join(sep, Split(s, sep)) == s
  {
    if |s| > 0 {
      var rest := Split(s[1..], sep);
      JoinSplit(s[1..], sep);
      if s[0] == sep {
        assert Split(s, sep) == [""] + rest;
        assert ([""] + rest)[1..] == rest;
      } else {
        var r := Split(s, sep);
        assert r[0] == [s[0]] + rest[0];
        assert r[1..] == rest[1..];
        if |rest| > 1 {
          assert Join(sep, rest) == rest[0] + [sep] + Join(sep, rest[1..]);
        }
      }
    }
  }

  // ---------------------------------------------------------------------------
  // int(s) and str(n)

  /**
   * The body of a decimal literal as `int()` accepts it: digits, with single
   * underscores allowed between digits (`1_000`).
   */
  predicate IsDigitText(s: string) {
    && |s| > 0
    && IsDigit(s[|s| - 1])
    && var t := s[..|s| - 1];
       t == [] || IsDigitText(t) || (t[|t| - 1] == '_' && IsDigitText(t[..|t| - 1]))
  }

  /** A digit text starts with a digit. */
  lemma {:induction false} DigitTextHead(s: string)
    requires IsDigitText(s)
    ensures IsDigit(s[0])
  {
    var t := s[..|s| - 1];
    if t != [] {
      if IsDigitText(t) {
        DigitTextHead(t);
      } else {
        DigitTextHead(t[..|t| - 1]);
      }
    }
  }

  /** The value of a digit text, underscores ignored. */
  function DigitsValue(s: string): nat {
    if |s| == 0 then 0
    else if s[|s| - 1] == '_' then DigitsValue(s[..|s| - 1])
    else DigitsValue(s[..|s| - 1]) * 10 + ((s[|s| - 1] as int - '0' as int) % 10)
  }

  /** Every character of a digit text is a digit or an underscore. */
  lemma {:induction false} DigitTextChars(s: string)
    requires IsDigitText(s)
    ensures forall i | 0 <= i < |s| :: IsDigit(s[i]) || s[i] == '_'
  {
    var t := s[..|s| - 1];
    if t != [] {
      if IsDigitText(t) {
        DigitTextChars(t);
      } else {
        DigitTextChars(t[..|t| - 1]);
        assert forall i | 0 <= i < |t| - 1 :: t[i] == t[..|t| - 1][i];
      }
      assert forall i | 0 <= i < |t| :: s[i] == t[i];
    }
  }

  /** A number's text, a sign then a digit text, holds only numeral characters. */
  lemma SignedDigitTextChars(t: string)
    requires |t| > 0 && (t[0] == '+' || t[0] == '-') && IsDigitText(t[1..])
    ensures forall i | 0 <= i < |t| :: IsNumeral(t[i])
  {
    DigitTextChars(t[1..]);
    forall i | 0 < i < |t| ensures IsNumeral(t[i]) {
      assert t[i] == t[1..][i - 1];
    }
  }

  /** If what survives stripping `ws` is all in `p`, then every character of `s` is in `ws` or in `p`. */
  lemma StripInside(s: string, ws: char -> bool, p: char -> bool)
    requires var t := Strip(s, ws); forall j | 0 <= j < |t| :: p(t[j])
    ensures forall i | 0 <= i < |s| :: ws(s[i]) || p(s[i])
  {
    var a := SkipLeft(s, ws, 0);
    var t := Strip(s, ws);
    forall i | a <= i < a + |t| ensures p(s[i]) {
      assert s[i] == t[i - a];
    }
  }

  /** A number's text with nothing around it: an optional sign and a digit text; anything else is `None`. */
  function ParseNumber(t: string): (r: Option<int>)
    ensures r.Some? ==> forall j | 0 <= j < |t| :: IsNumeral(t[j])
  {
    if |t| > 0 && (t[0] == '+' || t[0] == '-') then
      if IsDigitText(t[1..]) then
        SignedDigitTextChars(t);
        var v: int := DigitsValue(t[1..]);
        Some(if t[0] == '-' then -v else v)
      else None
    else if IsDigitText(t) then
      DigitTextChars(t);
      Some(DigitsValue(t))
    else None
  }

  /**
   * `int(s)`: whitespace skipped around an optional sign and a digit text;
   * anything else raises (`None`). A text holding any other character, a
   * letter, a colon or one of U+001C..U+001F, is never a number.
   */
  function ParseInt(s: string): (r: Option<int>)
    ensures r.Some? ==> forall i | 0 <= i < |s| :: IsIntSpace(s[i]) || IsNumeral(s[i])
  {
    var r := ParseNumber(Strip(s, IsIntSpace));
    if r.Some? then
      StripInside(s, IsIntSpace, IsNumeral);
      r
    else r
  }

  /** `int()` raises on any text holding a character that is neither whitespace to it nor part of a number. */
  lemma NonNumeralIsNotInt(s: string, i: nat)
    requires i < |s| && !IsIntSpace(s[i]) && !IsNumeral(s[i])
    ensures ParseInt(s).None?
  {
  }

  /** `int()` raises on any text holding one of the separators U+001C..U+001F, though `isspace()` is true of them. */
  lemma SeparatorIsNotInt(s: string, i: nat)
    requires i < |s| && '\U{1C}' <= s[i] <= '\U{1F}'
    ensures ParseInt(s).None?
  {
  }

  function DigitChar(d: nat): (c: char)
    requires d < 10
    ensures IsDigit(c) && c as int - '0' as int == d
  {
    ('0' as int + d) as char
  }

  function NatToString(n: nat): (r: string)
    ensures |r| > 0
    ensures forall i | 0 <= i < |r| :: IsDigit(r[i])
  {
    if n < 10 then [DigitChar(n)] else NatToString(n / 10) + [DigitChar(n % 10)]
  }

  /** `str(n)` for an integer: decimal digits, led by `-` when negative. */
  function IntToString(n: int): (r: string)
    ensures |r| > 0 && IsDigit(r[|r| - 1])
    ensures forall i | 0 <= i < |r| :: IsDigit(r[i]) || (i == 0 && r[i] == '-')
  {
    if n < 0 then "-" + NatToString(-n) else NatToString(n)
  }

  lemma {:induction false} NatToStringValue(n: nat)
    ensures IsDigitText(NatToString(n))
    ensures DigitsValue(NatToString(n)) == n
  {
    var s := NatToString(n);
    if n >= 10 {
      NatToStringValue(n / 10);
      assert s[..|s| - 1] == NatToString(n / 10);
    }
  }

  /** A digit text has no whitespace at its ends and is read as its value. */
  lemma ParseIntOfDigits(digits: string)
    requires IsDigitText(digits)
    ensures ParseInt(digits) == Some(DigitsValue(digits) as int)
  {
    DigitTextHead(digits);
    StripKeeps(digits, IsIntSpace);
  }

  /** `int(str(n)) == n`: the decimal text the server writes is read back as the same number. */
  lemma ParseIntToString(n: int)
    ensures ParseInt(IntToString(n)) == Some(n)
  {
    if n < 0 {
      ParseIntOfNegative(n);
    } else {
      NatToStringValue(n);
      ParseIntOfDigits(NatToString(n));
    }
  }

  /** `str(n)` of a negative `n` is `-` and the digits of `-n`, read back as `n`. */
  lemma ParseIntOfNegative(n: int)
    requires n < 0
    ensures ParseInt(IntToString(n)) == Some(n)
  {
    var m: nat := -n;
    var d := NatToString(m);
    assert IntToString(n) == "-" + d;
    NatToStringValue(m);
    ParseIntOfSignedDigits(d);
  }

  /** A sign followed by a digit text has no whitespace at its ends and is read as the signed value. */
  lemma ParseIntOfSignedDigits(d: string)
    requires IsDigitText(d)
    ensures ParseInt("-" + d) == Some(-(DigitsValue(d) as int))
  {
    var s := "-" + d;
    assert s[1..] == d;
    DigitTextHead(d);
    assert s[|s| - 1] == d[|d| - 1];
    StripKeeps(s, IsIntSpace);
  }

  // ---------------------------------------------------------------------------
  // s[:n]

  /** Python's `s[:n]`: a negative `n` counts from the end; out-of-range bounds clamp. */
  function Take(s: string, n: int): (r: string)
    ensures r <= s
    ensures n >= 0 ==> |r| == if n < |s| then n else |s|
    ensures n < 0 ==> |r| == if |s| + n > 0 then |s| + n else 0
  {
    if n >= 0 then (if n < |s| then s[..n] else s)
    else (if |s| + n > 0 then s[..|s| + n] else "")
  }
}
