/** String primitives of the JavaScript runtime that the token scripts rely on:
    `trim`, `startsWith`, `includes`, `split`, `join`, the regular expression
    `^\{.+\}$`, and number-to-text conversion. Strings are sequences of code points. */
module Text {

  /** The code points `String.prototype.trim` removes: ECMAScript WhiteSpace
      (including every space separator) and LineTerminator. */
  predicate IsJsWhitespace(c: char) {
    || c == '\t' || c == '\n' || c == '\U{000B}' || c == '\U{000C}' || c == '\r' || c == ' '
    || c == '\U{00A0}' || c == '\U{1680}' || ('\U{2000}' <= c <= '\U{200A}')
    || c == '\U{2028}' || c == '\U{2029}' || c == '\U{202F}' || c == '\U{205F}'
    || c == '\U{3000}' || c == '\U{FEFF}'
  }

  /** The code points a regular-expression `.` (without the `s` flag) does not match. */
  predicate IsLineTerminator(c: char) {
    c == '\n' || c == '\r' || c == '\U{2028}' || c == '\U{2029}'
  }

  predicate IsHexDigit(c: char) {
    ('0' <= c <= '9') || ('a' <= c <= 'f') || ('A' <= c <= 'F')
  }

  predicate IsDigit(c: char) {
    '0' <= c <= '9'
  }

  /** The index of the first character of `s` from `i` on that is not whitespace
      (`|s|` when there is none). */
  function TextStart(s: string, i: nat): (j: nat)
    requires i <= |s|
    ensures i <= j <= |s|
    ensures j == |s| || !IsJsWhitespace(s[j])
    decreases |s| - i
  {
    if i < |s| && IsJsWhitespace(s[i]) then TextStart(s, i + 1) else i
  }

  /** The index just past the last character of `s[lo..j]` that is not whitespace
      (`lo` when there is none). */
  function TextEnd(s: string, lo: nat, j: nat): (e: nat)
    requires lo <= j <= |s|
    ensures lo <= e <= j
    ensures e == lo || !IsJsWhitespace(s[e - 1])
    decreases j
  {
    if lo < j && IsJsWhitespace(s[j - 1]) then TextEnd(s, lo, j - 1) else j
  }

  /** `s.trim()`: `s` without its leading and trailing whitespace. */
  function Trim(s: string): (r: string)
    ensures r == [] || (!IsJsWhitespace(r[0]) && !IsJsWhitespace(r[|r| - 1]))
    ensures |r| <= |s|
  {
    var a := TextStart(s, 0);
    s[a..TextEnd(s, a, |s|)]
  }

  /** What `Trim` removes is whitespace, and only whitespace. */
  lemma {:induction false} TrimRemovesWhitespace(s: string)
    ensures exists a, e :: 0 <= a <= e <= |s| && Trim(s) == s[a..e]
                           && (forall k :: 0 <= k < a ==> IsJsWhitespace(s[k]))
                           && (forall k :: e <= k < |s| ==> IsJsWhitespace(s[k]))
  {
    var a := TextStart(s, 0);
    var e := TextEnd(s, a, |s|);
    LeadingWhitespace(s, 0);
    TrailingWhitespace(s, a, |s|);
    assert Trim(s) == s[a..e];
  }

  lemma {:induction false} LeadingWhitespace(s: string, i: nat)
    requires i <= |s|
    ensures forall k :: i <= k < TextStart(s, i) ==> IsJsWhitespace(s[k])
    decreases |s| - i
  {
    if i < |s| && IsJsWhitespace(s[i]) {
      LeadingWhitespace(s, i + 1);
    }
  }

  lemma {:induction false} TrailingWhitespace(s: string, lo: nat, j: nat)
    requires lo <= j <= |s|
    ensures forall k :: TextEnd(s, lo, j) <= k < j ==> IsJsWhitespace(s[k])
    decreases j
  {
    if lo < j && IsJsWhitespace(s[j - 1]) {
      TrailingWhitespace(s, lo, j - 1);
    }
  }

  /** A string that starts and ends with a non-whitespace character is its own trim. */
  lemma TrimOfTrimmed(s: string)
    requires s != [] && !IsJsWhitespace(s[0]) && !IsJsWhitespace(s[|s| - 1])
    ensures Trim(s) == s
  {
  }

  /** One leading space in front of an already trimmed text is all `Trim` removes. */
  lemma TrimLeadingSpace(x: string)
    requires x != [] && !IsJsWhitespace(x[0]) && !IsJsWhitespace(x[|x| - 1])
    ensures Trim(" " + x) == x
  {
    var s := " " + x;
    assert TextStart(s, 1) == 1;
    assert TextStart(s, 0) == 1;
    assert TextEnd(s, 1, |s|) == |s|;
    assert s[1..] == x;
  }

  /** `/^\{.+\}$/.test(s)`: a brace at each end and at least one character
      between them, none of which is a line terminator. */
  predicate IsBraced(s: string) {
    && |s| >= 3 && s[0] == '{' && s[|s| - 1] == '}'
    && forall k :: 1 <= k < |s| - 1 ==> !IsLineTerminator(s[k])
  }

  /** `s.includes(sub)`. */
  predicate Contains(s: string, sub: string)
    decreases |s|
  {
    sub <= s || (s != [] && Contains(s[1..], sub))
  }

  /** A string none of whose characters is `c` does not contain any string holding `c`. */
  lemma NotContainsChar(s: string, sub: string, k: nat, c: char)
    requires k < |sub| && sub[k] == c && c !in s
    ensures !Contains(s, sub)
    decreases |s|
  {
    if k < |s| {
      assert s[k] != sub[k];
    }
    if s != [] {
      NotContainsChar(s[1..], sub, k, c);
    }
  }

  /** `s.split(sep)` for a one-character separator: the pieces between
      separators, at least one, empty pieces kept. */
  function Split(s: string, sep: char): (parts: seq<string>)
    ensures |parts| >= 1
    decreases |s|
  {
    if s == [] then [""]
    else
      var rest := Split(s[1..], sep);
      if s[0] == sep then [""] + rest else [[s[0]] + rest[0]] + rest[1..]
  }

  /** No piece of a split holds the separator. */
  lemma {:induction false} SplitPieces(s: string, sep: char)
    ensures forall k :: 0 <= k < |Split(s, sep)| ==> sep !in Split(s, sep)[k]
    decreases |s|
  {
    if s != [] {
      SplitPieces(s[1..], sep);
    }
  }

  /** A piece free of the separator, then the separator, then the rest. */
  lemma {:induction false} SplitCons(x: string, sep: char, y: string)
    requires sep !in x
    ensures Split(x + [sep] + y, sep) == [x] + Split(y, sep)
    decreases |x|
  {
    if x == [] {
      assert x + [sep] + y == [sep] + y;
    } else {
      SplitCons(x[1..], sep, y);
      assert (x + [sep] + y)[1..] == x[1..] + [sep] + y;
      assert [x[0]] + x[1..] == x;
    }
  }

  /** A string without the separator splits into itself. */
  lemma {:induction false} SplitNoSeparator(s: string, sep: char)
    requires sep !in s
    ensures Split(s, sep) == [s]
    decreases |s|
  {
    if s != [] {
      SplitNoSeparator(s[1..], sep);
      assert [s[0]] + s[1..] == s;
    }
  }

  /** `parts.join(sep)`. */
  function Join(parts: seq<string>, sep: string): string
  {
    if |parts| == 0 then ""
    else if |parts| == 1 then parts[0]
    else parts[0] + sep + Join(parts[1..], sep)
  }

  /** Splitting a joined path gives back its segments, provided none of them holds
      the separator: the dotted path built by the walker addresses the same node. */
  lemma {:induction false} SplitJoin(parts: seq<string>, sep: char)
    requires |parts| >= 1
    requires forall k :: 0 <= k < |parts| ==> sep !in parts[k]
    ensures Split(Join(parts, [sep]), sep) == parts
  {
    if |parts| == 1 {
      SplitNoSeparator(parts[0], sep);
    } else {
      SplitJoin(parts[1..], sep);
      assert Join(parts, [sep]) == parts[0] + [sep] + Join(parts[1..], [sep]);
      SplitCons(parts[0], sep, Join(parts[1..], [sep]));
    }
  }

  function DigitChar(d: nat): char
    requires d < 10
  {
    ['0', '1', '2', '3', '4', '5', '6', '7', '8', '9'][d]
  }

  /** The decimal text of a natural number, as `String(n)` writes it. */
  function NatText(n: nat): (r: string)
    ensures |r| >= 1 && forall k :: 0 <= k < |r| ==> IsDigit(r[k])
  {
    if n < 10 then [DigitChar(n)] else NatText(n / 10) + [DigitChar(n % 10)]
  }

  /** The decimal text of an integer, as `String(n)` writes it. */
  function IntText(n: int): string
  {
    if n < 0 then "-" + NatText(-n) else NatText(n)
  }

  function DigitValue(c: char): nat
    requires IsDigit(c)
  {
    c as int - '0' as int
  }

  /** The value of a string of decimal digits, as `Number(s)` reads it. */
  function DecimalValue(s: string): nat
    requires forall k :: 0 <= k < |s| ==> IsDigit(s[k])
  {
    if s == [] then 0 else 10 * DecimalValue(s[..|s| - 1]) + DigitValue(s[|s| - 1])
  }

  /** Reading back the decimal text of `n` gives `n`. */
  lemma {:induction false} DecimalRoundTrip(n: nat)
    ensures DecimalValue(NatText(n)) == n
  {
    if n >= 10 {
      DecimalRoundTrip(n / 10);
      var t := NatText(n);
      assert t[..|t| - 1] == NatText(n / 10);
    }
  }
}
