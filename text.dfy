/**
 * String primitives shared by the PHP and JavaScript code: trimming with each
 * language's whitespace set, ASCII case mapping, `split`/`join`, substring
 * search and the UTF-8 byte length PHP's `strlen` reports.
 */
module Text {

  /** Characters that JavaScript's `String.prototype.trim` removes (white space and line terminators). */
  predicate IsJsWhite(c: char) {
    c == ' ' || c == '\t' || c == '\n' || c == '\r' || c == '\U{000B}' || c == '\U{000C}' ||
    c == '\U{00A0}' || c == '\U{1680}' || ('\U{2000}' <= c <= '\U{200A}') || c == '\U{2028}' ||
    c == '\U{2029}' || c == '\U{202F}' || c == '\U{205F}' || c == '\U{3000}' || c == '\U{FEFF}'
  }

  /** Characters that PHP's `trim` removes by default: " \t\n\r\0\x0B". */
  predicate IsPhpWhite(c: char) {
    c == ' ' || c == '\t' || c == '\n' || c == '\r' || c == '\0' || c == '\U{000B}'
  }

  /** Drops the leading characters for which `white` holds. */
  function TrimStart(s: string, white: char -> bool): (r: string)
    ensures |r| <= |s| && r == s[|s| - |r|..]
    ensures r == [] || !white(r[0])
    ensures forall i :: 0 <= i < |s| - |r| ==> white(s[i])
  {
    if s != [] && white(s[0]) then TrimStart(s[1..], white) else s
  }

  /** Drops the trailing characters for which `white` holds. */
  function TrimEnd(s: string, white: char -> bool): (r: string)
    ensures |r| <= |s| && r == s[..|r|]
    ensures r == [] || !white(r[|r| - 1])
    ensures forall i :: |r| <= i < |s| ==> white(s[i])
  {
    if s != [] && white(s[|s| - 1]) then TrimEnd(s[..|s| - 1], white) else s
  }

  /** Cutting `s` down to `s[i..j]` removes only `white` characters. */
  predicate WhiteCut(s: string, i: int, j: int, white: char -> bool) {
    0 <= i <= j <= |s| && (forall k :: 0 <= k < i ==> white(s[k])) && (forall k :: j <= k < |s| ==> white(s[k]))
  }

  /** Cutting white characters off the front of `s` and then off the back of the rest is one white cut of `s`. */
  lemma WhiteCutCompose(s: string, t: string, r: string, white: char -> bool)
    requires |t| <= |s| && t == s[|s| - |t|..]
    requires forall k :: 0 <= k < |s| - |t| ==> white(s[k])
    requires |r| <= |t| && r == t[..|r|]
    requires forall k :: |r| <= k < |t| ==> white(t[k])
    ensures WhiteCut(s, |s| - |t|, |s| - |t| + |r|, white) && r == s[|s| - |t|..|s| - |t| + |r|]
  {
    var i := |s| - |t|;
    forall k | i + |r| <= k < |s|
      ensures white(s[k])
    {
      assert s[k] == t[k - i];
    }
  }

  /** Both ends trimmed: the result is a slice of `s` that neither starts nor ends with a `white` character. */
  function Trim(s: string, white: char -> bool): (r: string)
    ensures |r| <= |s|
    ensures r == [] || (!white(r[0]) && !white(r[|r| - 1]))
    ensures exists i, j :: WhiteCut(s, i, j, white) && r == s[i..j]
  {
    var t := TrimStart(s, white);
    var r := TrimEnd(t, white);
    WhiteCutCompose(s, t, r, white);
    r
  }

  /** JavaScript `s.trim()`. */
  function JsTrim(s: string): string {
    Trim(s, IsJsWhite)
  }

  /** PHP `trim($s)`. */
  function PhpTrim(s: string): string {
    Trim(s, IsPhpWhite)
  }

  /** A string whose ends are not white comes back from Trim unchanged. */
  lemma TrimKeepsTrimmed(s: string, white: char -> bool)
    requires s == [] || (!white(s[0]) && !white(s[|s| - 1]))
    ensures Trim(s, white) == s
  {
  }

  /** A white character in front of or behind a string does not change what Trim returns. */
  lemma TrimIgnoresPadding(s: string, c: char, white: char -> bool)
    requires white(c)
    ensures Trim([c] + s, white) == Trim(s, white)
    ensures Trim(s + [c], white) == Trim(s, white)
  {
    assert ([c] + s)[1..] == s;
    assert (s + [c])[..|s|] == s;
    TrimEndPadded(s, c, white);
    TrimStartPaddedEnd(s, c, white);
  }

  lemma {:induction false} TrimEndPadded(s: string, c: char, white: char -> bool)
    requires white(c)
    ensures TrimEnd(s + [c], white) == TrimEnd(s, white)
  {
    assert (s + [c])[..|s|] == s;
  }

  lemma {:induction false} TrimStartPaddedEnd(s: string, c: char, white: char -> bool)
    requires white(c)
    ensures Trim(s + [c], white) == Trim(s, white)
    decreases |s|
  {
    if s != [] && white(s[0]) {
      assert (s + [c])[1..] == s[1..] + [c];
      TrimStartPaddedEnd(s[1..], c, white);
    } else if s == [] {
      assert TrimStart([c], white) == TrimStart([], white) by {
        assert [c][1..] == [];
      }
    } else {
      assert TrimStart(s + [c], white) == s + [c];
      TrimEndPadded(s, c, white);
    }
  }

  /** Trimming keeps only characters of `s`: whatever holds of every character of `s` holds of every character of the result. */
  lemma TrimKeepsProperty(s: string, white: char -> bool, p: char -> bool)
    requires forall j :: 0 <= j < |s| ==> p(s[j])
    ensures forall j :: 0 <= j < |Trim(s, white)| ==> p(Trim(s, white)[j])
  {
    var t := TrimStart(s, white);
    var r := TrimEnd(t, white);
    forall j | 0 <= j < |r|
      ensures p(r[j])
    {
      assert r[j] == t[j] == s[|s| - |t| + j];
    }
  }

  /** PHP `empty($s)` for a string: the empty string and "0". */
  predicate PhpEmpty(s: string) {
    s == "" || s == "0"
  }

  /** ASCII upper case to lower case; every other character is kept (PHP 8 `strtolower`). */
  function LowerChar(c: char): char {
    if 'A' <= c <= 'Z' then (c as int + 32) as char else c
  }

  /** ASCII lower case to upper case; every other character is kept. */
  function UpperChar(c: char): char {
    if 'a' <= c <= 'z' then (c as int - 32) as char else c
  }

  predicate IsUpperAscii(c: char) {
    'A' <= c <= 'Z'
  }

  /** Lower-cases every ASCII letter of `s`. */
  function Lower(s: string): (r: string)
    ensures |r| == |s|
    ensures forall i :: 0 <= i < |s| ==> r[i] == LowerChar(s[i])
  {
    seq(|s|, i requires 0 <= i < |s| => LowerChar(s[i]))
  }

  lemma LowerConcat(a: string, b: string)
    ensures Lower(a + b) == Lower(a) + Lower(b)
  {
  }

  /** The number of characters of `s` satisfying `p`. */
  function Count(s: string, p: char -> bool): nat
    ensures Count(s, p) <= |s|
  {
    if s == [] then 0 else (if p(s[0]) then 1 else 0) + Count(s[1..], p)
  }

  lemma {:induction false} CountConcat(a: string, b: string, p: char -> bool)
    ensures Count(a + b, p) == Count(a, p) + Count(b, p)
    decreases |a|
  {
    if a != [] {
      assert (a + b)[1..] == a[1..] + b;
      CountConcat(a[1..], b, p);
    } else {
      assert a + b == b;
    }
  }

  /**
   * JavaScript `s.split(sep)` for a set of single-character separators: the
   * pieces between consecutive separators, always at least one piece, none of
   * them holding a separator, one more piece than there are separators.
   */
  function Split(s: string, isSep: char -> bool): (parts: seq<string>)
    ensures |parts| == 1 + Count(s, isSep)
    ensures forall k, j :: 0 <= k < |parts| && 0 <= j < |parts[k]| ==> !isSep(parts[k][j])
    decreases |s|
  {
    if s == [] then [[]]
    else if isSep(s[0]) then [[]] + Split(s[1..], isSep)
    else
      var rest := Split(s[1..], isSep);
      [[s[0]] + rest[0]] + rest[1..]
  }

  /** JavaScript `parts.join(sep)` / PHP `implode($sep, $parts)`. */
  function Join(parts: seq<string>, sep: string): string {
    if |parts| == 0 then []
    else if |parts| == 1 then parts[0]
    else parts[0] + sep + Join(parts[1..], sep)
  }

  /** A string without separators splits into itself alone. */
  lemma {:induction false} SplitNoSeparator(s: string, isSep: char -> bool)
    requires forall j :: 0 <= j < |s| ==> !isSep(s[j])
    ensures Split(s, isSep) == [s]
    decreases |s|
  {
    if s != [] {
      SplitNoSeparator(s[1..], isSep);
      assert [s[0]] + s[1..] == s;
    }
  }

  /** Splitting `a + [c] + b` at separator `c`, where `a` has no separator, yields `a` followed by the pieces of `b`. */
  lemma {:induction false} SplitAfterPrefix(a: string, c: char, b: string, isSep: char -> bool)
    requires isSep(c)
    requires forall j :: 0 <= j < |a| ==> !isSep(a[j])
    ensures Split(a + [c] + b, isSep) == [a] + Split(b, isSep)
    decreases |a|
  {
    if a == [] {
      assert a + [c] + b == [c] + b;
      assert ([c] + b)[1..] == b;
    } else {
      assert (a + [c] + b)[1..] == a[1..] + [c] + b;
      SplitAfterPrefix(a[1..], c, b, isSep);
      assert [a[0]] + a[1..] == a;
    }
  }

  /** Joining separator-free pieces with one separator character and splitting again gives the pieces back. */
  lemma {:induction false} SplitJoin(parts: seq<string>, c: char, isSep: char -> bool)
    requires |parts| >= 1
    requires isSep(c)
    requires forall k, j :: 0 <= k < |parts| && 0 <= j < |parts[k]| ==> !isSep(parts[k][j])
    ensures Split(Join(parts, [c]), isSep) == parts
    decreases |parts|
  {
    if |parts| == 1 {
      SplitNoSeparator(parts[0], isSep);
    } else {
      SplitJoin(parts[1..], c, isSep);
      SplitAfterPrefix(parts[0], c, Join(parts[1..], [c]), isSep);
      assert [parts[0]] + parts[1..] == parts;
    }
  }

  /** Splitting at separator `c` (the only character `isSep` accepts in `s`) and joining with `c` gives `s` back. */
  lemma {:induction false} JoinSplit(s: string, c: char, isSep: char -> bool)
    requires forall j :: 0 <= j < |s| && isSep(s[j]) ==> s[j] == c
    ensures Join(Split(s, isSep), [c]) == s
    decreases |s|
  {
    if s != [] {
      JoinSplit(s[1..], c, isSep);
      var rest := Split(s[1..], isSep);
      if isSep(s[0]) {
        assert Split(s, isSep) == [[]] + rest;
        assert ([[]] + rest)[1..] == rest;
      } else {
        var parts := [[s[0]] + rest[0]] + rest[1..];
        assert Split(s, isSep) == parts;
        if |rest| == 1 {
          assert Join(rest, [c]) == rest[0];
        } else {
          assert Join(rest, [c]) == rest[0] + [c] + Join(rest[1..], [c]);
          assert parts[1..] == rest[1..];
        }
      }
    }
  }

  /** Lower-casing commutes with joining. */
  lemma {:induction false} LowerJoin(parts: seq<string>, sep: string)
    ensures Lower(Join(parts, sep)) == Join(seq(|parts|, k requires 0 <= k < |parts| => Lower(parts[k])), Lower(sep))
    decreases |parts|
  {
    var lowered := seq(|parts|, k requires 0 <= k < |parts| => Lower(parts[k]));
    if |parts| > 1 {
      LowerJoin(parts[1..], sep);
      assert lowered[1..] == seq(|parts[1..]|, k requires 0 <= k < |parts[1..]| => Lower(parts[1..][k]));
      LowerConcat(parts[0] + sep, Join(parts[1..], sep));
      LowerConcat(parts[0], sep);
    }
  }

  /** `prefix` is an initial segment of `s`. */
  predicate StartsWith(s: string, prefix: string) {
    |prefix| <= |s| && s[..|prefix|] == prefix
  }

  /** JavaScript `s.includes(t)` / PHP `strpos($s, $t) !== false`: `t` occurs in `s` at some position. */
  predicate Contains(s: string, t: string)
    decreases |s|
  {
    StartsWith(s, t) || (s != [] && Contains(s[1..], t))
  }

  /** Every string contains the empty string. */
  lemma ContainsEmpty(s: string)
    ensures Contains(s, [])
  {
  }

  /** Number of bytes the UTF-8 encoding of `c` takes. */
  function Utf8Width(c: char): nat {
    if c as int < 0x80 then 1 else if c as int < 0x800 then 2 else if c as int < 0x10000 then 3 else 4
  }

  /** PHP `strlen`: the length in bytes of the UTF-8 encoding of `s`. */
  function Utf8Length(s: string): (n: nat)
    ensures n >= |s|
    ensures (forall j :: 0 <= j < |s| ==> s[j] as int < 0x80) ==> n == |s|
  {
    if s == [] then 0 else Utf8Width(s[0]) + Utf8Length(s[1..])
  }

  /** `s` repeated `n` times (PHP `str_repeat`). */
  function Repeat(s: string, n: nat): (r: string)
    ensures |r| == n * |s|
  {
    if n == 0 then [] else s + Repeat(s, n - 1)
  }
}
