/**
 * The pieces of Python's `str` behaviour that the library code relies on:
 * character classes of its regular expressions (`\d`, `\w`, `\s`),
 * `int()` and `str()` on decimal digits, `str.join`, `str.split`,
 * `str.strip` and `str.replace`.
 */
module Strings {

  /** `\d` of a regular expression (ASCII digits). */
  predicate IsDigit(c: char) {
    '0' <= c <= '9'
  }

  /** `\w` of a regular expression (ASCII letters, digits and `_`). */
  predicate IsWordChar(c: char) {
    'a' <= c <= 'z' || 'A' <= c <= 'Z' || IsDigit(c) || c == '_'
  }

  /**
   * Python 2's two string types. Their `isspace()` and `strip()` disagree on
   * the ASCII separators U+001C to U+001F, which only `unicode` counts as
   * whitespace (Python 3's `str` behaves as `unicode` here).
   */
  datatype StrType = Bytes | Unicode

  /**
   * `str.isspace()` for a character of a string of type `t`, over the ASCII
   * range. `IsWhitespace(Bytes, c)` is also the class `\s` of a regular
   * expression compiled without `re.UNICODE`, on either string type.
   */
  predicate IsWhitespace(t: StrType, c: char) {
    c == ' ' || c == '\t' || c == '\n' || c == '\r' || c == '\U{000B}' || c == '\U{000C}'
    || (t == Unicode && '\U{001C}' <= c <= '\U{001F}')
  }

  predicate AllDigits(s: string) {
    forall i :: 0 <= i < |s| ==> IsDigit(s[i])
  }

  function DigitValue(c: char): nat
    requires IsDigit(c)
  {
    c as int - '0' as int
  }

  function DigitChar(d: nat): (c: char)
    requires d < 10
    ensures IsDigit(c) && DigitValue(c) == d
  {
    ('0' as int + d) as char
  }

  /** `int(s)` for a string of decimal digits (leading zeros allowed). */
  function DigitsValue(s: string): nat
    requires AllDigits(s)
  {
    if |s| == 0 then 0 else 10 * DigitsValue(s[..|s| - 1]) + DigitValue(s[|s| - 1])
  }

  /** `str(n)` for a non-negative integer: the shortest decimal numeral of `n`. */
  function NatToString(n: nat): (r: string)
    ensures |r| > 0 && AllDigits(r) && DigitsValue(r) == n
    ensures |r| > 1 ==> r[0] != '0'
  {
    if n < 10 then [DigitChar(n)]
    else
      var prefix := NatToString(n / 10);
      var r := prefix + [DigitChar(n % 10)];
      assert r[..|r| - 1] == prefix;
      r
  }

  /** `str(i)` for any integer. */
  function IntToString(i: int): (r: string)
    ensures |r| > 0
    ensures forall k :: 0 <= k < |r| ==> IsDigit(r[k]) || r[k] == '-'
    ensures i >= 0 ==> r == NatToString(i)
  {
    if i < 0 then "-" + NatToString(-i) else NatToString(i)
  }

  /**
   * Length of the longest prefix of `s` whose characters all satisfy `p`:
   * what a greedy regular-expression repetition such as `\d+` consumes.
   */
  function RunLength(s: string, p: char -> bool): (k: nat)
    ensures k <= |s|
    ensures forall j :: 0 <= j < k ==> p(s[j])
    ensures k < |s| ==> !p(s[k])
  {
    if |s| == 0 || !p(s[0]) then 0 else 1 + RunLength(s[1..], p)
  }

  /** The prefix characterisation of `RunLength` determines it. */
  lemma RunLengthUnique(s: string, p: char -> bool, k: nat)
    requires k <= |s|
    requires forall j :: 0 <= j < k ==> p(s[j])
    requires k < |s| ==> !p(s[k])
    ensures RunLength(s, p) == k
  {
  }

  /** `sep.join(parts)`. */
  function Join(parts: seq<string>, sep: string): string {
    if |parts| == 0 then ""
    else if |parts| == 1 then parts[0]
    else parts[0] + sep + Join(parts[1..], sep)
  }

  /** Joining one more part appends the separator and that part. */
  lemma {:induction false} JoinSnoc(parts: seq<string>, x: string, sep: string)
    requires |parts| > 0
    ensures Join(parts + [x], sep) == Join(parts, sep) + sep + x
  {
    if |parts| > 1 {
      assert (parts + [x])[1..] == parts[1..] + [x];
      JoinSnoc(parts[1..], x, sep);
    }
  }

  /** Joining a concatenation joins the two halves with one separator between them. */
  lemma {:induction false} JoinAppend(a: seq<string>, b: seq<string>, sep: string)
    requires |a| > 0 && |b| > 0
    ensures Join(a + b, sep) == Join(a, sep) + sep + Join(b, sep)
  {
    if |a| > 1 {
      assert (a + b)[1..] == a[1..] + b;
      JoinAppend(a[1..], b, sep);
    }
  }

  /**
   * `s.split(c)`: the pieces between occurrences of `c`; there is always at
   * least one piece, and joining the pieces with `c` gives back `s`.
   */
  function Split(s: string, c: char): (r: seq<string>)
    ensures |r| > 0
    ensures forall i :: 0 <= i < |r| ==> c !in r[i]
    ensures Join(r, [c]) == s
  {
    if |s| == 0 then [""]
    else if s[0] == c then
      var rest := Split(s[1..], c);
      assert [c] + s[1..] == s;
      [""] + rest
    else
      var rest := Split(s[1..], c);
      var r := [[s[0]] + rest[0]] + rest[1..];
      assert r[1..] == rest[1..];
      assert Join(r, [c]) == [s[0]] + Join(rest, [c]);
      r
  }

  /** A piece without the separator splits to itself. */
  lemma {:induction false} SplitNoSeparator(s: string, c: char)
    requires c !in s
    ensures Split(s, c) == [s]
  {
    if |s| > 0 {
      SplitNoSeparator(s[1..], c);
    }
  }

  /** Splitting stops at the first separator. */
  lemma {:induction false} SplitAtSeparator(p: string, rest: string, c: char)
    requires c !in p
    ensures Split(p + [c] + rest, c) == [p] + Split(rest, c)
  {
    if |p| == 0 {
      assert p + [c] + rest == [c] + rest;
      assert ([c] + rest)[1..] == rest;
    } else {
      assert (p + [c] + rest)[1..] == p[1..] + [c] + rest;
      SplitAtSeparator(p[1..], rest, c);
      assert [p[0]] + p[1..] == p;
    }
  }

  /** `split` inverts `join` when no part holds the separator. */
  lemma {:induction false} SplitJoin(parts: seq<string>, c: char)
    requires |parts| > 0
    requires forall i :: 0 <= i < |parts| ==> c !in parts[i]
    ensures Split(Join(parts, [c]), c) == parts
  {
    if |parts| == 1 {
      SplitNoSeparator(parts[0], c);
    } else {
      SplitJoin(parts[1..], c);
      SplitAtSeparator(parts[0], Join(parts[1..], [c]), c);
      assert [parts[0]] + parts[1..] == parts;
    }
  }

  /** `s.lstrip()`: drops the leading whitespace. */
  function LStrip(t: StrType, s: string): (r: string)
    ensures |r| <= |s| && r == s[|s| - |r|..]
    ensures forall i :: 0 <= i < |s| - |r| ==> IsWhitespace(t, s[i])
    ensures r == [] || !IsWhitespace(t, r[0])
  {
    if |s| == 0 || !IsWhitespace(t, s[0]) then s else LStrip(t, s[1..])
  }

  /** `s.rstrip()`: drops the trailing whitespace. */
  function RStrip(t: StrType, s: string): (r: string)
    ensures |r| <= |s| && r == s[..|r|]
    ensures forall i :: |r| <= i < |s| ==> IsWhitespace(t, s[i])
    ensures r == [] || !IsWhitespace(t, r[|r| - 1])
  {
    if |s| == 0 || !IsWhitespace(t, s[|s| - 1]) then s else RStrip(t, s[..|s| - 1])
  }

  /** `s.strip()`. */
  function Strip(t: StrType, s: string): string {
    RStrip(t, LStrip(t, s))
  }

  predicate NoWhitespace(t: StrType, s: string) {
    forall i :: 0 <= i < |s| ==> !IsWhitespace(t, s[i])
  }

  /** A string without whitespace is its own strip. */
  lemma StripNoWhitespace(t: StrType, s: string)
    requires NoWhitespace(t, s)
    ensures Strip(t, s) == s
  {
    var l := LStrip(t, s);
    assert l == s by {
      if |s| > 0 {
        assert !IsWhitespace(t, s[0]);
      }
    }
    if |s| > 0 {
      assert !IsWhitespace(t, s[|s| - 1]);
    }
  }

  /** The non-whitespace characters of `s`, in order. */
  function NonWhitespace(t: StrType, s: string): string {
    if |s| == 0 then ""
    else (if IsWhitespace(t, s[0]) then "" else [s[0]]) + NonWhitespace(t, s[1..])
  }

  lemma {:induction false} NonWhitespaceAppend(t: StrType, a: string, b: string)
    ensures NonWhitespace(t, a + b) == NonWhitespace(t, a) + NonWhitespace(t, b)
  {
    if |a| > 0 {
      assert (a + b)[1..] == a[1..] + b;
      NonWhitespaceAppend(t, a[1..], b);
    } else {
      assert a + b == b;
    }
  }

  /** A string made of whitespace only has no non-whitespace characters. */
  lemma {:induction false} NonWhitespaceOfBlank(t: StrType, s: string)
    requires forall i :: 0 <= i < |s| ==> IsWhitespace(t, s[i])
    ensures NonWhitespace(t, s) == ""
  {
    if |s| > 0 {
      NonWhitespaceOfBlank(t, s[1..]);
    }
  }

  lemma {:induction false} LStripKeepsNonWhitespace(t: StrType, s: string)
    ensures NonWhitespace(t, LStrip(t, s)) == NonWhitespace(t, s)
  {
    if |s| > 0 && IsWhitespace(t, s[0]) {
      LStripKeepsNonWhitespace(t, s[1..]);
    }
  }

  lemma {:induction false} RStripKeepsNonWhitespace(t: StrType, s: string)
    ensures NonWhitespace(t, RStrip(t, s)) == NonWhitespace(t, s)
  {
    if |s| > 0 && IsWhitespace(t, s[|s| - 1]) {
      var init := s[..|s| - 1];
      RStripKeepsNonWhitespace(t, init);
      assert s == init + [s[|s| - 1]];
      NonWhitespaceAppend(t, init, [s[|s| - 1]]);
    }
  }

  /** Stripping removes whitespace only. */
  lemma StripKeepsNonWhitespace(t: StrType, s: string)
    ensures NonWhitespace(t, Strip(t, s)) == NonWhitespace(t, s)
  {
    LStripKeepsNonWhitespace(t, s);
    RStripKeepsNonWhitespace(t, LStrip(t, s));
  }

  /** `s.replace(c, t)` for a one-character pattern `c`. */
  function ReplaceAll(s: string, c: char, t: string): string {
    if |s| == 0 then ""
    else (if s[0] == c then t else [s[0]]) + ReplaceAll(s[1..], c, t)
  }

  lemma {:induction false} ReplaceAllAppend(a: string, b: string, c: char, t: string)
    ensures ReplaceAll(a + b, c, t) == ReplaceAll(a, c, t) + ReplaceAll(b, c, t)
  {
    if |a| > 0 {
      assert (a + b)[1..] == a[1..] + b;
      ReplaceAllAppend(a[1..], b, c, t);
    } else {
      assert a + b == b;
    }
  }

  /**
   * A character other than the pattern that the replacement does not hold
   * occurs in the result exactly when it occurs in the input.
   */
  lemma {:induction false} ReplaceAllKeeps(s: string, c: char, t: string, d: char)
    requires d != c && d !in t
    ensures d in ReplaceAll(s, c, t) <==> d in s
  {
    if |s| > 0 {
      ReplaceAllKeeps(s[1..], c, t, d);
      assert s == [s[0]] + s[1..];
    }
  }

  /** After replacing, the pattern occurs no more unless the replacement holds it. */
  lemma {:induction false} ReplaceAllRemoves(s: string, c: char, t: string)
    requires c !in t
    ensures c !in ReplaceAll(s, c, t)
  {
    if |s| > 0 {
      ReplaceAllRemoves(s[1..], c, t);
    }
  }
}
