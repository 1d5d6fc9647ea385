/** The Python `str` builtins the program relies on, as functions over
    `seq<char>`: `strip()`, `lower()`, `upper()`, `isupper()`, `startswith`,
    `endswith`, the `in` operator, `find`, `splitlines()` and `"".join`.
    Case mapping is ASCII only; the whitespace and line-break sets are the
    ones CPython uses for `str.isspace` and `str.splitlines`. */
module PyStr {

  /** `c.isspace()`: ASCII whitespace, the information separators 0x1C-0x1F,
      and the Unicode spaces (NEL, NBSP, OGHAM SPACE MARK, EN QUAD..HAIR SPACE,
      LINE/PARAGRAPH SEPARATOR, NNBSP, MMSP, IDEOGRAPHIC SPACE). */
  predicate IsSpace(c: char) {
    || c == ' '
    || ('\t' <= c <= '\r')
    || ('\U{1C}' <= c <= '\U{1F}')
    || c == '\U{85}' || c == '\U{A0}' || c == '\U{1680}'
    || ('\U{2000}' <= c <= '\U{200A}')
    || c == '\U{2028}' || c == '\U{2029}'
    || c == '\U{202F}' || c == '\U{205F}' || c == '\U{3000}'
  }

  /** The characters at which `str.splitlines()` ends a line
      (`\r\n` is handled as one boundary by `SplitLines`). */
  predicate IsLineBreak(c: char) {
    || ('\n' <= c <= '\r')
    || ('\U{1C}' <= c <= '\U{1E}')
    || c == '\U{85}' || c == '\U{2028}' || c == '\U{2029}'
  }

  predicate NoLineBreak(s: string) {
    forall i :: 0 <= i < |s| ==> !IsLineBreak(s[i])
  }

  // ---------------------------------------------------------------- strip

  /** Number of whitespace characters at the start of `s`. */
  function LeadingSpace(s: string): (n: nat)
    ensures n <= |s|
  {
    if s == [] || !IsSpace(s[0]) then 0 else 1 + LeadingSpace(s[1..])
  }

  /** `LeadingSpace` counts exactly the whitespace run at the start. */
  lemma {:induction false} LeadingSpaceRun(s: string)
    ensures forall i :: 0 <= i < LeadingSpace(s) ==> IsSpace(s[i])
    ensures LeadingSpace(s) < |s| ==> !IsSpace(s[LeadingSpace(s)])
    decreases |s|
  {
    if s != [] && IsSpace(s[0]) {
      LeadingSpaceRun(s[1..]);
      assert forall i :: 1 <= i < |s| ==> s[i] == s[1..][i - 1];
    }
  }

  /** Number of whitespace characters at the end of `s`. */
  function TrailingSpace(s: string): (n: nat)
    ensures n <= |s|
  {
    if s == [] || !IsSpace(s[|s| - 1]) then 0 else 1 + TrailingSpace(s[..|s| - 1])
  }

  /** `TrailingSpace` counts exactly the whitespace run at the end. */
  lemma {:induction false} TrailingSpaceRun(s: string)
    ensures forall i :: |s| - TrailingSpace(s) <= i < |s| ==> IsSpace(s[i])
    ensures TrailingSpace(s) < |s| ==> !IsSpace(s[|s| - TrailingSpace(s) - 1])
    decreases |s|
  {
    if s != [] && IsSpace(s[|s| - 1]) {
      TrailingSpaceRun(s[..|s| - 1]);
      assert forall i :: 0 <= i < |s| - 1 ==> s[i] == s[..|s| - 1][i];
    }
  }

  /** `s.strip()`: the longest slice of `s` that neither starts nor ends with
      whitespace, everything cut off on either side being whitespace. */
  function Strip(s: string): string {
    var t := s[LeadingSpace(s)..];
    t[..|t| - TrailingSpace(t)]
  }

  /** What `strip()` keeps is one slice of its input. */
  lemma StripSlice(s: string)
    ensures LeadingSpace(s) + |Strip(s)| <= |s|
    ensures Strip(s) == s[LeadingSpace(s)..LeadingSpace(s) + |Strip(s)|]
  {
  }

  /** What `strip()` removes is whitespace, and what it keeps neither starts
      nor ends with whitespace. */
  lemma StripTrims(s: string)
    ensures forall i :: 0 <= i < LeadingSpace(s) ==> IsSpace(s[i])
    ensures forall i :: LeadingSpace(s) + |Strip(s)| <= i < |s| ==> IsSpace(s[i])
    ensures Strip(s) != [] ==> !IsSpace(Strip(s)[0]) && !IsSpace(Strip(s)[|Strip(s)| - 1])
  {
    var lo := LeadingSpace(s);
    var t := s[lo..];
    var k := TrailingSpace(t);
    var r := Strip(s);
    assert r == t[..|t| - k];
    LeadingSpaceRun(s);
    TrailingSpaceRun(t);
    SuffixRunLifts(s, lo, k);
    if r != [] {
      assert r[0] == s[lo];
      assert r[|r| - 1] == t[|t| - k - 1];
    }
  }

  /** A whitespace run at the end of `s[lo..]` is one at the end of `s`. */
  lemma SuffixRunLifts(s: string, lo: nat, k: nat)
    requires lo <= |s| && k <= |s| - lo
    requires forall j :: |s| - lo - k <= j < |s| - lo ==> IsSpace(s[lo..][j])
    ensures forall i :: |s| - k <= i < |s| ==> IsSpace(s[i])
  {
    forall i | |s| - k <= i < |s|
      ensures IsSpace(s[i])
    {
      assert s[i] == s[lo..][i - lo];
    }
  }

  /** Stripping keeps a line free of line breaks: the result is a slice. */
  lemma StripNoLineBreak(s: string)
    requires NoLineBreak(s)
    ensures NoLineBreak(Strip(s))
  {
    var r, lo := Strip(s), LeadingSpace(s);
    forall i | 0 <= i < |r| ensures !IsLineBreak(r[i]) {
      assert r[i] == s[lo + i];
    }
  }

  // ----------------------------------------------------------------- case

  function LowerChar(c: char): char {
    if 'A' <= c <= 'Z' then (c as int + 32) as char else c
  }

  function UpperChar(c: char): char {
    if 'a' <= c <= 'z' then (c as int - 32) as char else c
  }

  /** `s.lower()`, ASCII letters only, so the length never changes. */
  function Lower(s: string): (r: string) {
    seq(|s|, i requires 0 <= i < |s| => LowerChar(s[i]))
  }

  /** `s.upper()`, ASCII letters only. */
  function Upper(s: string): (r: string) {
    seq(|s|, i requires 0 <= i < |s| => UpperChar(s[i]))
  }

  predicate IsAsciiLetter(c: char) {
    ('A' <= c <= 'Z') || ('a' <= c <= 'z')
  }

  /** `s.isupper()`: at least one cased character and no lower-case one. */
  predicate IsUpper(s: string) {
    && (exists i :: 0 <= i < |s| && IsAsciiLetter(s[i]))
    && (forall i :: 0 <= i < |s| ==> !('a' <= s[i] <= 'z'))
  }

  /** Lowering commutes with taking a suffix, so an index found in
      `s.lower()` addresses the same characters of `s`. */
  lemma LowerSuffix(s: string, k: nat)
    requires k <= |s|
    ensures Lower(s[k..]) == Lower(s)[k..]
  {
    assert forall i :: 0 <= i < |s| - k ==> Lower(s[k..])[i] == Lower(s)[k..][i];
  }

  // ----------------------------------------------------- prefixes, search

  predicate StartsWith(s: string, p: string) {
    |p| <= |s| && s[..|p|] == p
  }

  predicate EndsWith(s: string, p: string) {
    |p| <= |s| && s[|s| - |p|..] == p
  }

  /** `p` occurs in `s` at index `k`. */
  predicate StartsAt(s: string, k: int, p: string) {
    0 <= k && k + |p| <= |s| && s[k..k + |p|] == p
  }

  /** `p in s`. */
  predicate Contains(s: string, p: string) {
    exists k :: 0 <= k <= |s| && StartsAt(s, k, p)
  }

  /** `s.find(p, k)`: the first index at or after `k` where `p` occurs, or -1. */
  function FindFrom(s: string, p: string, k: nat): (r: int)
    requires k <= |s|
    ensures r == -1 || k <= r <= |s|
    ensures r == -1 ==> forall j :: k <= j <= |s| ==> !StartsAt(s, j, p)
    ensures r != -1 ==> StartsAt(s, r, p) && forall j :: k <= j < r ==> !StartsAt(s, j, p)
    decreases |s| - k
  {
    if StartsAt(s, k, p) then k
    else if k == |s| then -1
    else FindFrom(s, p, k + 1)
  }

  /** `s.find(p)`: -1 exactly when `p` does not occur, and otherwise the
      first occurrence. */
  function Find(s: string, p: string): (r: int)
    ensures r == -1 <==> !Contains(s, p)
    ensures r != -1 ==> StartsAt(s, r, p) && forall j :: 0 <= j < r ==> !StartsAt(s, j, p)
  {
    FindFrom(s, p, 0)
  }

  // ----------------------------------------------------------- splitlines

  /** Index of the first line break in `s`, or `|s|` when there is none. */
  function BreakIndex(s: string): (i: nat)
    ensures i <= |s|
    ensures forall j :: 0 <= j < i ==> !IsLineBreak(s[j])
    ensures i < |s| ==> IsLineBreak(s[i])
  {
    if s == [] || IsLineBreak(s[0]) then 0 else 1 + BreakIndex(s[1..])
  }

  /** `s.splitlines()`: the text between line boundaries, where `\r\n` is a
      single boundary and a final boundary does not start an empty line. */
  function SplitLines(s: string): (lines: seq<string>)
    ensures forall j :: 0 <= j < |lines| ==> NoLineBreak(lines[j])
    decreases |s|
  {
    if s == [] then []
    else
      var i := BreakIndex(s);
      if i == |s| then [s]
      else
        var width := if s[i] == '\r' && i + 1 < |s| && s[i + 1] == '\n' then 2 else 1;
        [s[..i]] + SplitLines(s[i + width..])
  }

  /** A line followed by `\n`: `splitlines()` yields the line, then the
      lines of the rest. */
  lemma SplitLinesCons(line: string, rest: string)
    requires NoLineBreak(line)
    ensures SplitLines(line + "\n" + rest) == [line] + SplitLines(rest)
  {
    var s := line + "\n" + rest;
    assert s[|line|] == '\n';
    assert forall j :: 0 <= j < |line| ==> s[j] == line[j];
    assert BreakIndex(s) == |line|;
    assert s[..|line|] == line;
    assert s[|line| + 1..] == rest;
  }

  /** A non-empty text without line breaks is one line. */
  lemma SplitLinesSingle(line: string)
    requires line != [] && NoLineBreak(line)
    ensures SplitLines(line) == [line]
  {
    assert BreakIndex(line) == |line|;
  }

  // ----------------------------------------------------------------- join

  /** `"".join(parts)`. */
  function Concat(parts: seq<string>): (r: string)
  {
    if parts == [] then [] else parts[0] + Concat(parts[1..])
  }

  /** Joining two lists of parts one after the other joins each and
      concatenates the results. */
  lemma {:induction false} ConcatAppend(p: seq<string>, q: seq<string>)
    ensures Concat(p + q) == Concat(p) + Concat(q)
    decreases |p|
  {
    if p != [] {
      assert (p + q)[0] == p[0] && (p + q)[1..] == p[1..] + q;
      ConcatAppend(p[1..], q);
    } else {
      assert p + q == q;
    }
  }
}
