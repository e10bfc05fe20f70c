/**
 * Text helpers shared by the model: ASCII case mapping, the whitespace sets of
 * Python and JavaScript, Python's `splitlines`, JavaScript's `indexOf` and
 * `lastIndexOf`, decimal rendering of numbers, and `join`.
 */
module Strings {

  // ---------------------------------------------------------------- case

  predicate IsUpper(c: char) { 'A' <= c <= 'Z' }

  /** Lower-case mapping of one character (ASCII letters only). */
  function Lower(c: char): (r: char)
    ensures !IsUpper(r)
  {
    if IsUpper(c) then (c as int + 32) as char else c
  }

  function LowerStr(s: string): (r: string)
    ensures |r| == |s|
    ensures forall i :: 0 <= i < |s| ==> r[i] == Lower(s[i])
  {
    seq(|s|, i requires 0 <= i < |s| => Lower(s[i]))
  }

  /** Lower-casing commutes with slicing. */
  lemma LowerSlice(s: string, i: nat, j: nat)
    requires i <= j <= |s|
    ensures LowerStr(s[i..j]) == LowerStr(s)[i..j]
  {
  }

  // ---------------------------------------------------------- whitespace

  /** The characters Python's `str.isspace` accepts, which `str.strip` removes. */
  predicate PySpace(c: char) {
    c == ' ' || ('\t' <= c <= '\r') || ('\U{1C}' <= c <= '\U{1F}') || c == '\U{85}' ||
    c == '\U{A0}' || c == '\U{1680}' || ('\U{2000}' <= c <= '\U{200A}') ||
    c == '\U{2028}' || c == '\U{2029}' || c == '\U{202F}' || c == '\U{205F}' || c == '\U{3000}'
  }

  /** The characters JavaScript's `String.prototype.trim` removes. */
  predicate JsSpace(c: char) {
    c == ' ' || ('\t' <= c <= '\r') || c == '\U{A0}' || c == '\U{FEFF}' || c == '\U{1680}' ||
    ('\U{2000}' <= c <= '\U{200A}') || c == '\U{2028}' || c == '\U{2029}' ||
    c == '\U{202F}' || c == '\U{205F}' || c == '\U{3000}'
  }

  predicate AllIn(s: string, ws: char -> bool) {
    forall i :: 0 <= i < |s| ==> ws(s[i])
  }

  /** The first index from `i` on that does not hold white space, or `|s|`. */
  function SkipForward(s: string, ws: char -> bool, i: nat): (k: nat)
    requires i <= |s|
    ensures i <= k <= |s| && (k < |s| ==> !ws(s[k]))
    ensures forall j :: i <= j < k ==> ws(s[j])
    decreases |s| - i
  {
    if i == |s| || !ws(s[i]) then i else SkipForward(s, ws, i + 1)
  }

  /** Going back from `j` but not below `lo`: the end of the last non-space, or `lo`. */
  function SkipBack(s: string, ws: char -> bool, lo: nat, j: nat): (k: nat)
    requires lo <= j <= |s|
    ensures lo <= k <= j && (k > lo ==> !ws(s[k - 1]))
    ensures forall m :: k <= m < j ==> ws(s[m])
    decreases j
  {
    if j == lo || !ws(s[j - 1]) then j else SkipBack(s, ws, lo, j - 1)
  }

  /**
   * Both ends stripped: Python `strip()` with `PySpace`, JavaScript `trim()`
   * with `JsSpace`. The leading white space goes first, then the trailing.
   */
  function Trim(s: string, ws: char -> bool): (r: string)
    ensures r == [] <==> AllIn(s, ws)
    ensures r != [] ==> !ws(r[0]) && !ws(r[|r| - 1])
  {
    var a := SkipForward(s, ws, 0);
    var b := SkipBack(s, ws, a, |s|);
    s[a..b]
  }

  /** The stripped text is a slice of the input with only white space around it. */
  lemma TrimSlice(s: string, ws: char -> bool)
    ensures exists a, b :: 0 <= a <= b <= |s| && Trim(s, ws) == s[a..b] && AllIn(s[..a], ws) && AllIn(s[b..], ws)
  {
    var a := SkipForward(s, ws, 0);
    var b := SkipBack(s, ws, a, |s|);
    assert AllIn(s[..a], ws) && AllIn(s[b..], ws);
  }

  /** A string with no white space at either end is its own strip. */
  lemma TrimFixed(s: string, ws: char -> bool)
    requires s != [] && !ws(s[0]) && !ws(s[|s| - 1])
    ensures Trim(s, ws) == s
  {
  }

  /** Stripping only drops characters from the ends: what is left occurs in the input. */
  lemma TrimInside(s: string, ws: char -> bool)
    ensures forall i :: 0 <= i < |Trim(s, ws)| ==> Trim(s, ws)[i] in s
  {
    var a := SkipForward(s, ws, 0);
    var b := SkipBack(s, ws, a, |s|);
    forall i | 0 <= i < b - a ensures s[a..b][i] in s {
      assert s[a..b][i] == s[a + i];
    }
  }

  // ---------------------------------------------------------- splitlines

  /** The line boundaries Python's `str.splitlines` splits on. */
  predicate LineBreak(c: char) {
    c == '\n' || c == '\r' || c == '\U{0B}' || c == '\U{0C}' || ('\U{1C}' <= c <= '\U{1E}') ||
    c == '\U{85}' || c == '\U{2028}' || c == '\U{2029}'
  }

  /** Index of the first line boundary in `s`, or `|s|` when there is none. */
  function LineEnd(s: string): (k: nat)
    ensures k <= |s|
    ensures k < |s| ==> LineBreak(s[k])
    ensures forall i :: 0 <= i < k ==> !LineBreak(s[i])
  {
    if s == [] || LineBreak(s[0]) then 0 else 1 + LineEnd(s[1..])
  }

  /**
   * Python's `str.splitlines()`: the lines without their terminators; `"\r\n"`
   * counts as one boundary and a final terminator adds no empty line.
   */
  function SplitLines(s: string): (lines: seq<string>)
    ensures s == [] <==> lines == []
    ensures forall i :: 0 <= i < |lines| ==> forall j :: 0 <= j < |lines[i]| ==> !LineBreak(lines[i][j])
    decreases |s|
  {
    if s == [] then []
    else
      var k := LineEnd(s);
      if k == |s| then [s]
      else
        var skip := if s[k] == '\r' && k + 1 < |s| && s[k + 1] == '\n' then 2 else 1;
        [s[..k]] + SplitLines(s[k + skip..])
  }

  // ------------------------------------------------- indexOf / lastIndexOf

  predicate MatchAt(hay: string, needle: string, k: int) {
    0 <= k && k + |needle| <= |hay| && hay[k..k + |needle|] == needle
  }

  function Clamp(x: int, lo: int, hi: int): (r: int)
    requires lo <= hi
    ensures lo <= r <= hi
    ensures lo <= x <= hi ==> r == x
  {
    if x < lo then lo else if x > hi then hi else x
  }

  /** The first match at or after `k`, or -1. */
  function FirstMatchFrom(hay: string, needle: string, k: nat): (r: int)
    ensures r == -1 || (k <= r && MatchAt(hay, needle, r))
    ensures forall j :: k <= j && (r == -1 || j < r) ==> !MatchAt(hay, needle, j)
    decreases |hay| + 1 - k
  {
    if k > |hay| then -1
    else if MatchAt(hay, needle, k) then k
    else FirstMatchFrom(hay, needle, k + 1)
  }

  /** The last match at or before `k`, or -1. */
  function LastMatchUpTo(hay: string, needle: string, k: int): (r: int)
    ensures r == -1 || (0 <= r <= k && MatchAt(hay, needle, r))
    ensures forall j :: r < j <= k ==> !MatchAt(hay, needle, j)
    decreases k + 1
  {
    if k < 0 then -1
    else if MatchAt(hay, needle, k) then k
    else LastMatchUpTo(hay, needle, k - 1)
  }

  /** JavaScript `hay.indexOf(needle, from)`: the search starts at `from` clamped to `[0, |hay|]`. */
  function IndexOf(hay: string, needle: string, from: int): int {
    FirstMatchFrom(hay, needle, Clamp(from, 0, |hay|))
  }

  /** JavaScript `hay.lastIndexOf(needle, from)`: the search starts at `from` clamped to `[0, |hay|]`. */
  function LastIndexOf(hay: string, needle: string, from: int): int {
    LastMatchUpTo(hay, needle, Clamp(from, 0, |hay|))
  }

  // ------------------------------------------------------------- numbers

  function Digit(d: nat): (c: char)
    requires d < 10
    ensures '0' <= c <= '9'
  {
    (48 + d) as char
  }

  /** The decimal rendering of a natural number, as JavaScript, Python and C# print it. */
  function Decimal(n: nat): (r: string)
    ensures |r| >= 1 && (|r| == 1 <==> n < 10)
    ensures forall i :: 0 <= i < |r| ==> '0' <= r[i] <= '9'
  {
    if n < 10 then [Digit(n)] else Decimal(n / 10) + [Digit(n % 10)]
  }

  /** Distinct numbers print differently, so names built from counters are distinct. */
  lemma {:induction false} DecimalInjective(a: nat, b: nat)
    requires Decimal(a) == Decimal(b)
    ensures a == b
  {
    if a >= 10 && b >= 10 {
      var da, db := Decimal(a), Decimal(b);
      assert da[..|da| - 1] == Decimal(a / 10);
      assert db[..|db| - 1] == Decimal(b / 10);
      DecimalInjective(a / 10, b / 10);
      assert Digit(a % 10) == da[|da| - 1] == db[|db| - 1] == Digit(b % 10);
    }
  }

  // ---------------------------------------------------------------- join

  /** `sep.join(xs)` in Python, `string.Join(sep, xs)` in C#, `xs.join(sep)` in JavaScript. */
  function Join(xs: seq<string>, sep: string): (r: string)
    ensures xs == [] ==> r == []
    ensures |xs| == 1 ==> r == xs[0]
  {
    if |xs| == 0 then "" else if |xs| == 1 then xs[0] else xs[0] + sep + Join(xs[1..], sep)
  }
}
