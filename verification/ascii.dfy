/**
 * Text primitives over ASCII characters, with Python's meaning:
 * `str.isspace`, the regular-expression classes `\s`, `\w`, `\d`,
 * `str.lower`, `str.strip` and the substring test `sub in s`.
 */
module Ascii {

  /** Python's ASCII whitespace: `str.isspace` and `\s` agree on these ten characters. */
  predicate IsSpace(c: char) {
    c == ' ' || c == '\t' || c == '\n' || c == '\r'
    || c == '\U{B}' || c == '\U{C}' || ('\U{1C}' <= c <= '\U{1F}')
  }

  /** `\d` restricted to ASCII. */
  predicate IsDigit(c: char) {
    '0' <= c <= '9'
  }

  /** `\w` restricted to ASCII: letters, digits and the underscore. */
  predicate IsWordChar(c: char) {
    ('a' <= c <= 'z') || ('A' <= c <= 'Z') || IsDigit(c) || c == '_'
  }

  function LowerChar(c: char): (r: char)
    ensures 'A' <= c <= 'Z' ==> 'a' <= r <= 'z'
    ensures !('A' <= c <= 'Z') ==> r == c
    ensures IsSpace(r) == IsSpace(c) && IsDigit(r) == IsDigit(c) && IsWordChar(r) == IsWordChar(c)
  {
    if 'A' <= c <= 'Z' then (c as int + 32) as char else c
  }

  /** `s.lower()`: character by character, same length. */
  function Lower(s: string): (r: string)
    ensures |r| == |s|
    ensures forall i :: 0 <= i < |s| ==> r[i] == LowerChar(s[i])
  {
    seq(|s|, i requires 0 <= i < |s| => LowerChar(s[i]))
  }

  lemma LowerIdempotent(s: string)
    ensures Lower(Lower(s)) == Lower(s)
  {
  }

  /** Lowering commutes with slicing. */
  lemma LowerSlice(s: string, i: int, j: int)
    requires 0 <= i <= j <= |s|
    ensures Lower(s[i..j]) == Lower(s)[i..j]
  {
  }

  /** A string already in lower case is left alone. */
  lemma LowerOfLower(s: string)
    requires forall i :: 0 <= i < |s| ==> !('A' <= s[i] <= 'Z')
    ensures Lower(s) == s
  {
  }

  predicate AllSpace(s: string) {
    forall i :: 0 <= i < |s| ==> IsSpace(s[i])
  }

  /** The length of the longest prefix of `s` whose characters all satisfy `p`. */
  function Span(s: string, p: char -> bool): (n: nat)
    ensures n <= |s|
    ensures forall i :: 0 <= i < n ==> p(s[i])
    ensures n < |s| ==> !p(s[n])
  {
    if s == [] || !p(s[0]) then 0 else 1 + Span(s[1..], p)
  }

  /** A prefix that satisfies `p` and is followed by the end or by a character that does not is the span. */
  lemma {:induction false} SpanIs(s: string, p: char -> bool, n: nat)
    requires n <= |s|
    requires forall i :: 0 <= i < n ==> p(s[i])
    requires n < |s| ==> !p(s[n])
    ensures Span(s, p) == n
  {
    if n > 0 {
      SpanIs(s[1..], p, n - 1);
    }
  }

  /** The end of the longest run of characters satisfying `p` that starts at `from`. */
  function SpanFrom(s: string, from: nat, p: char -> bool): (n: nat)
    requires from <= |s|
    ensures from <= n <= |s|
    ensures forall x :: from <= x < n ==> p(s[x])
    ensures n < |s| ==> !p(s[n])
    decreases |s| - from
  {
    if from == |s| || !p(s[from]) then from else SpanFrom(s, from + 1, p)
  }

  /** A run of `p`-characters from `from` to `n` that cannot be extended is the span. */
  lemma SpanFromIs(s: string, from: nat, p: char -> bool, n: nat)
    requires from <= n <= |s|
    requires forall x :: from <= x < n ==> p(s[x])
    requires n < |s| ==> !p(s[n])
    ensures SpanFrom(s, from, p) == n
  {
  }

  /** The length of the longest suffix of `s` whose characters satisfy `p`. */
  function TrailingSpan(s: string, p: char -> bool): (n: nat)
    ensures n <= |s|
    ensures forall i :: |s| - n <= i < |s| ==> p(s[i])
    ensures n < |s| ==> !p(s[|s| - n - 1])
  {
    if s == [] || !p(s[|s| - 1]) then 0 else 1 + TrailingSpan(s[..|s| - 1], p)
  }

  lemma {:induction false} TrailingSpanIs(s: string, p: char -> bool, n: nat)
    requires n <= |s|
    requires forall i :: |s| - n <= i < |s| ==> p(s[i])
    requires n < |s| ==> !p(s[|s| - n - 1])
    ensures TrailingSpan(s, p) == n
  {
    if n > 0 {
      TrailingSpanIs(s[..|s| - 1], p, n - 1);
    }
  }

  predicate All(s: string, p: char -> bool) {
    forall i :: 0 <= i < |s| ==> p(s[i])
  }

  /**
   * `s` without its longest leading and longest trailing runs of characters
   * satisfying `p`: the middle of `s`, with no such character at either end.
   */
  function Trim(s: string, p: char -> bool): (r: string)
    ensures |r| <= |s|
    ensures r == [] || (!p(r[0]) && !p(r[|r| - 1]))
    ensures exists i :: Bordered(s, r, i, p)
  {
    var lead := Span(s, p);
    var n := |s| - lead - TrailingSpan(s[lead..], p);
    LeadingRun(s, lead, p);
    TrailingRun(s[lead..], n, p);
    TrimBounds(s, lead, n, p);
    s[lead..lead + n]
  }

  /**
   * `s.strip()`: `s` without its longest leading and longest trailing whitespace runs.
   * The result is the middle of `s`, and has no whitespace at either end.
   */
  function Strip(s: string): (r: string)
    ensures |r| <= |s|
    ensures r == [] || (!IsSpace(r[0]) && !IsSpace(r[|r| - 1]))
    ensures exists i :: Bordered(s, r, i, IsSpace)
  {
    Trim(s, IsSpace)
  }

  /** The leading run satisfies `p`, and what follows it does not start with such a character. */
  lemma LeadingRun(s: string, lead: nat, p: char -> bool)
    requires lead == Span(s, p)
    ensures All(s[..lead], p)
    ensures lead < |s| ==> !p(s[lead])
  {
    forall i | 0 <= i < lead
      ensures p(s[..lead][i])
    {
      assert s[..lead][i] == s[i];
    }
  }

  /** The trailing run satisfies `p`, and what precedes it does not end with such a character. */
  lemma TrailingRun(rest: string, n: int, p: char -> bool)
    requires n == |rest| - TrailingSpan(rest, p)
    ensures 0 <= n <= |rest|
    ensures All(rest[n..], p)
    ensures n == 0 || !p(rest[n - 1])
  {
    var t := TrailingSpan(rest, p);
    var tail := rest[n..];
    assert |tail| == t;
    forall i | 0 <= i < t
      ensures p(tail[i])
    {
      assert tail[i] == rest[n + i] && |rest| - t <= n + i < |rest|;
    }
  }

  /** `r` is the part of `s` at offset `i`, with only characters satisfying `p` before and after it. */
  predicate Bordered(s: string, r: string, i: int, p: char -> bool) {
    0 <= i <= |s| - |r| && r == s[i..i + |r|] && All(s[..i], p) && All(s[i + |r|..], p)
  }

  /**
   * The run between a leading and a trailing run of `p`-characters has no
   * such character at either end, and is bordered by them only.
   */
  lemma TrimBounds(s: string, lead: nat, n: int, p: char -> bool)
    requires lead <= |s| && 0 <= n <= |s| - lead
    requires All(s[..lead], p) && All(s[lead..][n..], p)
    requires n == 0 || (!p(s[lead..][0]) && !p(s[lead..][n - 1]))
    ensures var r := s[lead..lead + n];
      r == [] || (!p(r[0]) && !p(r[|r| - 1]))
    ensures Bordered(s, s[lead..lead + n], lead, p)
  {
    var r := s[lead..lead + n];
    assert s[lead + n..] == s[lead..][n..];
    assert |r| == n && r == s[lead..lead + |r|];
    if n > 0 {
      assert r[0] == s[lead..][0] && r[n - 1] == s[lead..][n - 1];
    }
  }

  /** Trimming a string that has no `p`-character at either end changes nothing. */
  lemma TrimUnpadded(s: string, p: char -> bool)
    requires s == [] || (!p(s[0]) && !p(s[|s| - 1]))
    ensures Trim(s, p) == s
  {
    SpanIs(s, p, 0);
    TrailingSpanIs(s, p, 0);
  }

  /** Stripping a string that has no whitespace at either end changes nothing. */
  lemma StripUnpadded(s: string)
    requires s == [] || (!IsSpace(s[0]) && !IsSpace(s[|s| - 1]))
    ensures Strip(s) == s
  {
    TrimUnpadded(s, IsSpace);
  }

  /** Stripping a string made only of whitespace leaves nothing. */
  lemma StripBlank(s: string)
    requires AllSpace(s)
    ensures Strip(s) == []
  {
    SpanIs(s, IsSpace, |s|);
  }

  /** Stripping is idempotent. */
  lemma StripIdempotent(s: string)
    ensures Strip(Strip(s)) == Strip(s)
  {
    StripUnpadded(Strip(s));
  }

  /** A character that is not whitespace survives stripping, so a string that holds one strips to a non-empty string. */
  lemma StripKeepsContent(s: string, k: nat)
    requires k < |s| && !IsSpace(s[k])
    ensures Strip(s) != []
  {
    var i :| Bordered(s, Strip(s), i, IsSpace);
    var m := i + |Strip(s)|;
    assert forall j :: 0 <= j < i ==> s[..i][j] == s[j];
    assert forall j :: m <= j < |s| ==> s[m..][j - m] == s[j];
  }

  /** `sub in s`: `sub` occurs in `s` at some offset. */
  predicate Contains(s: string, sub: string) {
    exists i | 0 <= i <= |s| - |sub| :: OccursAt(s, sub, i)
  }

  predicate OccursAt(s: string, sub: string, i: int) {
    0 <= i <= |s| - |sub| && s[i..i + |sub|] == sub
  }
}
