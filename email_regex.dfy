/** The email shape test of `userPost`: `/\S+@\S+\.\S+/.test(email)`.
    The regex is unanchored, so it accepts a string as soon as some substring
    of it belongs to the language of `\S+@\S+\.\S+`. */
module EmailRegex {

  /** JavaScript's `\s` class: the ECMAScript WhiteSpace and LineTerminator
      characters. `\S` is its complement. */
  predicate IsSpace(c: char) {
    || c == ' ' || c == '\t' || c == '\n' || c == '\r'
    || c == '\U{B}' || c == '\U{C}' || c == '\U{A0}' || c == '\U{1680}'
    || ('\U{2000}' <= c <= '\U{200A}')
    || c == '\U{2028}' || c == '\U{2029}' || c == '\U{202F}' || c == '\U{205F}'
    || c == '\U{3000}' || c == '\U{FEFF}'
  }

  /** `w` matches `\S+` as a whole. */
  ghost predicate NonSpaceRun(w: string) {
    |w| >= 1 && forall k :: 0 <= k < |w| ==> !IsSpace(w[k])
  }

  /** `s[i..j]` matches `\S+@\S+\.\S+` as a whole: it splits at an `@`
      (position p) and a later literal `.` (position d) into three `\S+`
      runs. */
  ghost predicate MatchSpan(s: string, i: int, p: int, d: int, j: int) {
    && 0 <= i <= p < d < j <= |s|
    && s[p] == '@' && s[d] == '.'
    && NonSpaceRun(s[i..p]) && NonSpaceRun(s[p + 1..d]) && NonSpaceRun(s[d + 1..j])
  }

  /** The semantics of `RegExp.prototype.test` for the unanchored pattern:
      some substring matches. */
  ghost predicate RegexTest(s: string) {
    exists i, p, d, j :: MatchSpan(s, i, p, d, j)
  }

  /** No character of `s[lo..hi]` is a space. */
  predicate NoSpaceBetween(s: string, lo: int, hi: int)
    requires 0 <= lo <= hi <= |s|
  {
    forall k | lo <= k < hi :: !IsSpace(s[k])
  }

  /** An `@` at p preceded by a non-space character, a later `.` at d
      followed by a non-space character, and at least one character strictly
      between them, none of them a space. */
  predicate AcceptedAt(s: string, p: int, d: int)
    requires 0 < p && p + 1 < d && d + 1 < |s|
  {
    && s[p] == '@' && s[d] == '.'
    && !IsSpace(s[p - 1]) && !IsSpace(s[d + 1])
    && NoSpaceBetween(s, p + 1, d)
  }

  /** The executable check: some pair of positions is accepted. */
  predicate EmailValid(s: string) {
    exists p, d | 0 < p < |s| && p + 1 < d < |s| - 1 :: AcceptedAt(s, p, d)
  }

  /** The executable check accepts exactly the strings the regex accepts. */
  lemma EmailValidIsRegexTest(s: string)
    ensures EmailValid(s) <==> RegexTest(s)
  {
    if EmailValid(s) {
      var p, d :| 0 < p < |s| && p + 1 < d < |s| - 1 && AcceptedAt(s, p, d);
      ShortestMatch(s, p, d);
    }
    if RegexTest(s) {
      var i, p, d, j :| MatchSpan(s, i, p, d, j);
      MatchGivesWitness(s, i, p, d, j);
    }
  }

  /** A `\S+` run over `s[a..b]` is a non-empty space-free window. */
  lemma RunIsSpaceFree(s: string, a: int, b: int)
    requires 0 <= a <= b <= |s| && NonSpaceRun(s[a..b])
    ensures a < b && NoSpaceBetween(s, a, b)
  {
    forall k | a <= k < b ensures !IsSpace(s[k]) {
      assert s[a..b][k - a] == s[k];
    }
  }

  /** A non-empty space-free window is a `\S+` run. */
  lemma SpaceFreeIsRun(s: string, a: int, b: int)
    requires 0 <= a < b <= |s| && NoSpaceBetween(s, a, b)
    ensures NonSpaceRun(s[a..b])
  {
    forall k | 0 <= k < b - a ensures !IsSpace(s[a..b][k]) {
      assert s[a..b][k] == s[a + k];
    }
  }

  /** The window from just before the `@` to just after the `.` is a match. */
  lemma ShortestMatch(s: string, p: int, d: int)
    requires 0 < p && p + 1 < d && d + 1 < |s| && AcceptedAt(s, p, d)
    ensures RegexTest(s)
  {
    assert NoSpaceBetween(s, p - 1, p);
    SpaceFreeIsRun(s, p - 1, p);
    SpaceFreeIsRun(s, p + 1, d);
    assert NoSpaceBetween(s, d + 1, d + 2);
    SpaceFreeIsRun(s, d + 1, d + 2);
    assert MatchSpan(s, p - 1, p, d, d + 2);
  }

  /** A matching substring yields the positions the executable check looks
      for. */
  lemma MatchGivesWitness(s: string, i: int, p: int, d: int, j: int)
    requires MatchSpan(s, i, p, d, j)
    ensures EmailValid(s)
  {
    RunIsSpaceFree(s, i, p);
    RunIsSpaceFree(s, p + 1, d);
    RunIsSpaceFree(s, d + 1, j);
    assert !IsSpace(s[p - 1]);
    assert !IsSpace(s[d + 1]);
    assert AcceptedAt(s, p, d);
  }
}
