/**
 * The three heading tests `/\d+ commits?/i`, `/\d+ pull requests?/i` and
 * `/\d+ issues? reported/i` applied with `RegExp.prototype.test` to a
 * heading's text. Without the `u` flag, `i` folds case only where the
 * upper-case form stays on the same side of ASCII, so for these ASCII
 * patterns it is ASCII case folding.
 */
module Headers {
  import opened Decimal

  function LowerAscii(c: char): char {
    if 'A' <= c <= 'Z' then ((c as int) + 32) as char else c
  }

  /** `s` begins with the lower-case `pattern`, ignoring the case of ASCII letters. */
  predicate StartsWithIgnoringCase(s: string, pattern: string) {
    |pattern| <= |s| && forall i :: 0 <= i < |pattern| ==> LowerAscii(s[i]) == pattern[i]
  }

  /** A digit at index `i` of `t` is followed by `tail`: where a match of `\d+` + `tail` can end its digit run. */
  predicate DigitThenAt(t: string, i: nat, tail: string)
    requires i < |t|
  {
    IsDigit(t[i]) && StartsWithIgnoringCase(t[i + 1..], tail)
  }

  /** Tries every index from `i` on, as an unanchored `test` does. */
  function Search(t: string, tail: string, i: nat): (found: bool)
    requires i <= |t|
    ensures found <==> exists j :: i <= j < |t| && DigitThenAt(t, j, tail)
    decreases |t| - i
  {
    if i == |t| then false
    else DigitThenAt(t, i, tail) || Search(t, tail, i + 1)
  }

  /**
   * `\d+ commits?`: the trailing `s?` never decides whether a match exists,
   * and a match of `\d+` may start at the last digit of a run.
   */
  predicate IsCommitHeader(t: string) {
    Search(t, " commit", 0)
  }

  predicate IsPullRequestHeader(t: string) {
    Search(t, " pull request", 0)
  }

  /** `\d+ issues? reported`: here the `s?` sits inside the pattern, so both spellings are tried. */
  predicate IsIssuesHeader(t: string) {
    Search(t, " issue reported", 0) || Search(t, " issues reported", 0)
  }

  /** Headings as GitHub words them ("3 commits", "1 Pull Request", ...) are recognised. */
  lemma CommitHeaderExample()
    ensures IsCommitHeader("3 commits")
  {
    assert DigitThenAt("3 commits", 0, " commit");
  }

  lemma PullRequestHeaderExample()
    ensures IsPullRequestHeader("1 Pull Request")
  {
    assert DigitThenAt("1 Pull Request", 0, " pull request");
  }

  lemma IssuesHeaderExample()
    ensures IsIssuesHeader("12 issues reported")
  {
    assert DigitThenAt("12 issues reported", 1, " issues reported");
  }

  /** Without a digit right before the words, nothing matches. */
  lemma HeaderNeedsCount()
    ensures !IsCommitHeader("commits")
    ensures !IsPullRequestHeader("Pull requests")
  {
    assert !IsDigit("commits"[0]);
    assert forall j :: 0 <= j < |"commits"| ==> !IsDigit("commits"[j]);
    assert forall j :: 0 <= j < |"Pull requests"| ==> !IsDigit("Pull requests"[j]);
  }

  /** Upper-casing ASCII letters of a heading does not change which tests it passes. */
  lemma {:induction false} SearchIgnoresCase(t: string, u: string, tail: string, i: nat)
    requires |t| == |u| && i <= |t|
    requires forall k :: 0 <= k < |t| ==> LowerAscii(t[k]) == LowerAscii(u[k])
    ensures Search(t, tail, i) == Search(u, tail, i)
    decreases |t| - i
  {
    if i < |t| {
      SearchIgnoresCase(t, u, tail, i + 1);
      assert DigitThenAt(t, i, tail) == DigitThenAt(u, i, tail);
    }
  }
}
