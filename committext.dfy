/**
 * The commit item regular expression `/Pushed (\d+) commits? to (.+)/`
 * (not anchored, no flags) and what `text.match(...)` yields: the leftmost
 * match, its first group read with `parseInt(..., 10)` and its second group.
 */
module CommitText {
  import opened Wrappers
  import opened Decimal
  import opened JsString

  predicate NoLineTerminator(s: string) {
    forall i :: 0 <= i < |s| ==> !IsLineTerminator(s[i])
  }

  /** Index `k` of `s` is the end of `s` or a line terminator. */
  predicate EndsLine(s: string, k: nat) {
    k <= |s| && (k < |s| ==> IsLineTerminator(s[k]))
  }

  const Pushed: string := "Pushed "
  const Commit: string := " commit"
  const To: string := " to "

  /** Length of the greedy `\d+` run at the front of `s` (0 when there is none). */
  function DigitRun(s: string): (n: nat)
    ensures n <= |s|
    ensures forall i :: 0 <= i < n ==> IsDigit(s[i])
    ensures n < |s| ==> !IsDigit(s[n])
  {
    if s != [] && IsDigit(s[0]) then 1 + DigitRun(s[1..]) else 0
  }

  /** Length of the greedy `.+` run at the front of `s` (0 when there is none). */
  function LineRun(s: string): (n: nat)
    ensures n <= |s|
    ensures forall i :: 0 <= i < n ==> !IsLineTerminator(s[i])
    ensures n < |s| ==> IsLineTerminator(s[n])
  {
    if s != [] && !IsLineTerminator(s[0]) then 1 + LineRun(s[1..]) else 0
  }

  /** `(.+)` at the end of the pattern: the rest of the current line, at least one character. */
  function ProjectPart(s: string): (r: Option<string>)
    ensures r.Some? ==> |r.value| > 0 && NoLineTerminator(r.value) && r.value <= s
    ensures r.Some? ==> EndsLine(s, |r.value|)
  {
    var n := LineRun(s);
    if n == 0 then None else Some(s[..n])
  }

  /** `s? to (.+)`: an optional "s", then " to ", then the project. */
  function PluralPart(s: string): (r: Option<string>)
    ensures r.Some? ==> |r.value| > 0 && NoLineTerminator(r.value)
  {
    var afterS := if s != [] && s[0] == 's' then s[1..] else s;
    if To <= afterS then ProjectPart(afterS[|To|..]) else None
  }

  /** ` commit` and what follows it. */
  function WordPart(s: string): (r: Option<string>)
    ensures r.Some? ==> |r.value| > 0 && NoLineTerminator(r.value)
  {
    if Commit <= s then PluralPart(s[|Commit|..]) else None
  }

  /** `(\d+)` (greedy) and what follows it. */
  function CountPart(s: string): (r: Option<(nat, string)>)
    ensures r.Some? ==> |r.value.1| > 0 && NoLineTerminator(r.value.1)
  {
    var n := DigitRun(s);
    if n == 0 then None
    else
      match WordPart(s[n..])
      case None => None
      case Some(p) => Some((Value(s[..n]), p))
  }

  /**
   * The match of the pattern that starts at index `i` of `t`, if any, as
   * (commit count, project text). Backtracking never changes the outcome:
   * `\d+` is followed by a space, `s?` by a space and `.+` by nothing.
   */
  function MatchAt(t: string, i: nat): (r: Option<(nat, string)>)
    requires i <= |t|
    ensures r.Some? ==> |r.value.1| > 0 && NoLineTerminator(r.value.1)
  {
    var s := t[i..];
    if Pushed <= s then CountPart(s[|Pushed|..]) else None
  }

  /** The leftmost match starting at index `i` or later: the pattern is tried at each index in turn. */
  function FirstMatch(t: string, i: nat): Option<(nat, string)>
    requires i <= |t|
    decreases |t| - i
  {
    if MatchAt(t, i).Some? then MatchAt(t, i)
    else if i == |t| then None
    else FirstMatch(t, i + 1)
  }

  /**
   * `text.match(COMMIT_TEXT_RE)` followed by `parseInt(match[1], 10)` and
   * `match[2]`; `None` is the `null` the source then dereferences.
   */
  function ParseCommitText(text: string): Option<(nat, string)> {
    FirstMatch(text, 0)
  }

  /** The pattern matches nowhere in `i..j - 1` of `t`. */
  ghost predicate NoMatchBetween(t: string, i: nat, j: nat)
    requires j <= |t| + 1
  {
    forall k :: i <= k < j ==> MatchAt(t, k).None?
  }

  /** `r` is the match at index `j`, the first index from `i` on where the pattern matches. */
  ghost predicate LeftmostAt(t: string, i: nat, j: nat, r: Option<(nat, string)>) {
    i <= j <= |t| && MatchAt(t, j) == r && r.Some? && NoMatchBetween(t, i, j)
  }

  lemma {:induction false} FirstMatchSome(t: string, i: nat)
    requires i <= |t| && FirstMatch(t, i).Some?
    ensures exists j :: LeftmostAt(t, i, j, FirstMatch(t, i))
    decreases |t| - i
  {
    if MatchAt(t, i).Some? {
      assert LeftmostAt(t, i, i, FirstMatch(t, i));
    } else {
      FirstMatchSome(t, i + 1);
      var j :| LeftmostAt(t, i + 1, j, FirstMatch(t, i + 1));
      assert LeftmostAt(t, i, j, FirstMatch(t, i));
    }
  }

  lemma {:induction false} FirstMatchNone(t: string, i: nat)
    requires i <= |t| && FirstMatch(t, i).None?
    ensures NoMatchBetween(t, i, |t| + 1)
    decreases |t| - i
  {
    if i < |t| {
      FirstMatchNone(t, i + 1);
    }
  }

  /** The parse succeeds exactly when the pattern matches somewhere, and then yields the leftmost match. */
  lemma ParseIsLeftmost(text: string)
    ensures ParseCommitText(text).Some? ==> exists j :: LeftmostAt(text, 0, j, ParseCommitText(text))
    ensures ParseCommitText(text).None? <==> NoMatchBetween(text, 0, |text| + 1)
  {
    if ParseCommitText(text).Some? {
      FirstMatchSome(text, 0);
    } else {
      FirstMatchNone(text, 0);
    }
  }

  /** The text GitHub renders for a commit item. */
  function CommitLine(n: nat, plural: bool, project: string): string {
    Line(Digits(n), plural, project)
  }

  /**
   * `t` holds, at index `i`, "Pushed " + `ds` + " commit" [+ "s"] + " to " +
   * `p`, where `p` runs to the end of its line.
   */
  predicate LineAt(t: string, i: nat, ds: string, plural: bool, p: string)
    requires i <= |t|
  {
    var line := Line(ds, plural, p);
    && |ds| > 0 && AllDigits(ds)
    && |p| > 0 && NoLineTerminator(p)
    && line <= t[i..]
    && (i + |line| < |t| ==> IsLineTerminator(t[i + |line|]))
  }

  lemma {:induction false} DigitRunOf(ds: string, rest: string)
    requires AllDigits(ds)
    requires rest == [] || !IsDigit(rest[0])
    ensures DigitRun(ds + rest) == |ds|
    decreases |ds|
  {
    if ds != [] {
      assert (ds + rest)[1..] == ds[1..] + rest;
      DigitRunOf(ds[1..], rest);
    } else {
      assert ds + rest == rest;
    }
  }

  lemma {:induction false} LineRunOf(p: string, rest: string)
    requires NoLineTerminator(p)
    requires rest == [] || IsLineTerminator(rest[0])
    ensures LineRun(p + rest) == |p|
    decreases |p|
  {
    if p != [] {
      assert (p + rest)[1..] == p[1..] + rest;
      LineRunOf(p[1..], rest);
    } else {
      assert p + rest == rest;
    }
  }

  lemma ProjectPartOf(p: string, tail: string)
    requires |p| > 0 && NoLineTerminator(p)
    requires tail == [] || IsLineTerminator(tail[0])
    ensures ProjectPart(p + tail) == Some(p)
  {
    LineRunOf(p, tail);
    assert (p + tail)[..|p|] == p;
  }

  lemma PluralPartOf(plural: bool, p: string, tail: string)
    requires |p| > 0 && NoLineTerminator(p)
    requires tail == [] || IsLineTerminator(tail[0])
    ensures PluralPart(Suffix(plural) + (To + (p + tail))) == Some(p)
  {
    var rest := To + (p + tail);
    assert rest[..|To|] == To;
    assert rest[|To|..] == p + tail;
    ProjectPartOf(p, tail);
    assert PluralPart(rest) == Some(p);
    if plural {
      assert ("s" + rest)[1..] == rest;
    } else {
      assert "" + rest == rest;
    }
  }

  lemma WordPartOf(plural: bool, p: string, tail: string)
    requires |p| > 0 && NoLineTerminator(p)
    requires tail == [] || IsLineTerminator(tail[0])
    ensures WordPart(Commit + (Suffix(plural) + (To + (p + tail)))) == Some(p)
  {
    var rest := Suffix(plural) + (To + (p + tail));
    assert (Commit + rest)[..|Commit|] == Commit;
    assert (Commit + rest)[|Commit|..] == rest;
    PluralPartOf(plural, p, tail);
  }

  lemma CountPartOf(ds: string, after: string, p: string)
    requires |ds| > 0 && AllDigits(ds)
    requires after == [] || !IsDigit(after[0])
    requires WordPart(after) == Some(p)
    ensures CountPart(ds + after) == Some((Value(ds), p))
  {
    var s := ds + after;
    DigitRunOf(ds, after);
    assert s[..|ds|] == ds && s[|ds|..] == after;
  }

  /** A commit line followed by `tail`, with the concatenations nested to the right. */
  lemma LineThen(ds: string, plural: bool, p: string, tail: string)
    ensures Line(ds, plural, p) + tail == Pushed + (ds + (Commit + (Suffix(plural) + (To + (p + tail)))))
  {
  }

  /** A commit line found at index `i` is what the pattern matches there. */
  lemma MatchAtComplete(t: string, i: nat, ds: string, plural: bool, p: string)
    requires i <= |t|
    requires LineAt(t, i, ds, plural, p)
    ensures MatchAt(t, i) == Some((Value(ds), p))
  {
    var line := Line(ds, plural, p);
    var s := t[i..];
    var tail := s[|line|..];
    assert s == line + tail;
    assert tail == [] || tail[0] == t[i + |line|];
    var after := Commit + (Suffix(plural) + (To + (p + tail)));
    LineThen(ds, plural, p, tail);
    assert s[..|Pushed|] == Pushed;
    assert s[|Pushed|..] == ds + after;
    WordPartOf(plural, p, tail);
    CountPartOf(ds, after, p);
  }

  /** The optional "s" of `commits?`. */
  function Suffix(plural: bool): string {
    if plural then "s" else ""
  }

  /** The word the pattern matched: " commits" when an "s" follows " commit". */
  function Word(plural: bool): string {
    Commit + Suffix(plural)
  }

  /** The commit line itself, without what follows it on the line. */
  function Line(ds: string, plural: bool, p: string): string {
    Pushed + ds + Word(plural) + To + p
  }

  lemma LineParts(ds: string, plural: bool, p: string)
    ensures Line(ds, plural, p) == Pushed + (ds + (Commit + (Suffix(plural) + (To + p))))
  {
  }

  lemma PrefixThen(a: string, b: string, s: string)
    requires a <= s && b <= s[|a|..]
    ensures a + b <= s
  {
    assert forall k :: |a| <= k < |a| + |b| ==> (a + b)[k] == b[k - |a|] == s[|a|..][k - |a|];
  }

  lemma EndsLineShift(s: string, k: nat, j: nat)
    requires k <= |s| && EndsLine(s[k..], j)
    ensures EndsLine(s, k + j)
  {
  }

  /** `s` begins with `prefix`, which runs to the end of a line. */
  predicate StartsLine(s: string, prefix: string) {
    prefix <= s && EndsLine(s, |prefix|)
  }

  /** Whether `s?` took the "s": the text after " commit" starts with one. */
  function PluralOf(s: string): bool {
    s != [] && s[0] == 's'
  }

  lemma PluralPartSound(s: string)
    requires PluralPart(s).Some?
    ensures StartsLine(s, Suffix(PluralOf(s)) + (To + PluralPart(s).value))
  {
    var sfx := Suffix(PluralOf(s));
    var afterS := s[|sfx|..];
    var rest := afterS[|To|..];
    var p := PluralPart(s).value;
    assert ProjectPart(rest) == Some(p);
    PrefixThen(To, p, afterS);
    PrefixThen(sfx, To + p, s);
    EndsLineShift(afterS, |To|, |p|);
    EndsLineShift(s, |sfx|, |To| + |p|);
  }

  lemma WordPartSound(s: string)
    requires WordPart(s).Some?
    ensures StartsLine(s, Commit + (Suffix(PluralOf(s[|Commit|..])) + (To + WordPart(s).value)))
  {
    var after := s[|Commit|..];
    assert WordPart(s) == PluralPart(after);
    PluralPartSound(after);
    var rest := Suffix(PluralOf(after)) + (To + WordPart(s).value);
    PrefixThen(Commit, rest, s);
    EndsLineShift(s, |Commit|, |rest|);
  }

  lemma CountPartSound(s: string)
    requires CountPart(s).Some?
    ensures DigitRun(s) > 0 && AllDigits(s[..DigitRun(s)]) && CountPart(s).value.0 == Value(s[..DigitRun(s)])
    ensures StartsLine(s, s[..DigitRun(s)] + (Commit + (Suffix(PluralOf(s[DigitRun(s)..][|Commit|..])) + (To + CountPart(s).value.1))))
  {
    var n := DigitRun(s);
    var w := WordPart(s[n..]);
    assert w.Some? && CountPart(s) == Some((Value(s[..n]), w.value));
    WordPartSound(s[n..]);
    var rest := Commit + (Suffix(PluralOf(s[n..][|Commit|..])) + (To + w.value));
    PrefixThen(s[..n], rest, s);
    EndsLineShift(s, n, |rest|);
  }

  /** The pieces of `LineAt`, with the line found at the front of `t[i..]`. */
  lemma LineAtOf(t: string, i: nat, ds: string, plural: bool, p: string)
    requires i <= |t|
    requires |ds| > 0 && AllDigits(ds) && |p| > 0 && NoLineTerminator(p)
    requires StartsLine(t[i..], Line(ds, plural, p))
    ensures LineAt(t, i, ds, plural, p)
  {
    var line := Line(ds, plural, p);
    if i + |line| < |t| {
      assert t[i..][|line|] == t[i + |line|];
    }
  }

  /** A match at index `i` is a commit line there, and its count is the digits' value. */
  lemma MatchAtSound(t: string, i: nat)
    requires i <= |t|
    requires MatchAt(t, i).Some?
    ensures exists ds, plural :: LineAt(t, i, ds, plural, MatchAt(t, i).value.1)
                                 && Value(ds) == MatchAt(t, i).value.0
  {
    var s := t[i..];
    var after := s[|Pushed|..];
    assert MatchAt(t, i) == CountPart(after);
    CountPartSound(after);
    var n := DigitRun(after);
    var plural := PluralOf(after[n..][|Commit|..]);
    var ds := after[..n];
    var p := MatchAt(t, i).value.1;
    var rest := ds + (Commit + (Suffix(plural) + (To + p)));
    PrefixThen(Pushed, rest, s);
    EndsLineShift(s, |Pushed|, |rest|);
    LineParts(ds, plural, p);
    LineAtOf(t, i, ds, plural, p);
  }

  /** Parsing the rendered commit line (then anything from the next line on) recovers count and project. */
  lemma ParseCommitLine(n: nat, plural: bool, project: string, nextLines: string)
    requires |project| > 0 && NoLineTerminator(project)
    requires nextLines == [] || IsLineTerminator(nextLines[0])
    ensures ParseCommitText(CommitLine(n, plural, project) + nextLines) == Some((n, project))
  {
    var t := CommitLine(n, plural, project) + nextLines;
    var ds := Digits(n);
    assert t[0..] == t;
    MatchAtComplete(t, 0, ds, plural, project);
    ValueOfDigits(n);
  }

  /**
   * The parse succeeds exactly when some index of the text holds a commit
   * line; it then yields the count and project of the leftmost one.
   */
  lemma ParseCharacterized(t: string)
    ensures ParseCommitText(t).Some? ==>
              exists i: nat, ds, plural :: i <= |t| && NoMatchBetween(t, 0, i)
                                          && LineAt(t, i, ds, plural, ParseCommitText(t).value.1)
                                          && Value(ds) == ParseCommitText(t).value.0
    ensures ParseCommitText(t).None? <==>
              forall i: nat, ds, plural, p | i <= |t| :: !LineAt(t, i, ds, plural, p)
  {
    ParseIsLeftmost(t);
    if ParseCommitText(t).Some? {
      var j :| LeftmostAt(t, 0, j, ParseCommitText(t));
      MatchAtSound(t, j);
      var ds, plural :| LineAt(t, j, ds, plural, MatchAt(t, j).value.1) && Value(ds) == MatchAt(t, j).value.0;
      assert LineAt(t, j, ds, plural, ParseCommitText(t).value.1);
    } else {
      forall i: nat, ds, plural, p | i <= |t| ensures !LineAt(t, i, ds, plural, p) {
        if LineAt(t, i, ds, plural, p) {
          MatchAtComplete(t, i, ds, plural, p);
        }
      }
    }
  }

  /** The rendered text of a commit item, spelled out for one count and project. */
  lemma CommitLineSpelled(n: nat, ds: string, plural: bool, p: string, text: string)
    requires Digits(n) == ds
    requires text == Pushed + ds + Commit + (if plural then "s" else "") + To + p
    ensures CommitLine(n, plural, p) == text
  {
  }

  /** A plural commit item, for any one-line project. */
  lemma ParsePluralExample(project: string)
    requires |project| > 0 && NoLineTerminator(project)
    ensures ParseCommitText("Pushed 3 commits to " + project) == Some((3, project))
  {
    assert Digits(3) == "3";
    CommitLineSpelled(3, "3", true, project, "Pushed 3 commits to " + project);
    ParseCommitLine(3, true, project, "");
    assert "Pushed 3 commits to " + project + "" == "Pushed 3 commits to " + project;
  }

  /** A singular commit item, for any one-line project. */
  lemma ParseSingularExample(project: string)
    requires |project| > 0 && NoLineTerminator(project)
    ensures ParseCommitText("Pushed 1 commit to " + project) == Some((1, project))
  {
    assert Digits(1) == "1";
    CommitLineSpelled(1, "1", false, project, "Pushed 1 commit to " + project);
    ParseCommitLine(1, false, project, "");
    assert "Pushed 1 commit to " + project + "" == "Pushed 1 commit to " + project;
  }
}
