/**
 * The module-level state of the tool: three global totals and the
 * `projectStats` dictionary, updated item by item as each contributions page
 * is parsed, and the merge of the pages' replies.
 */
module Aggregation {
  import opened Wrappers
  import opened JsString
  import opened CommitText
  import opened Projects
  import opened Status
  import opened Sequences

  /** The update a matched commit item makes: its count added to its project's commits. */
  function CommitEvent(parsed: (nat, string)): Event {
    Event(parsed.1, Commits, parsed.0)
  }

  /** The updates of a commit list: one per item, up to the first item the commit pattern does not match. */
  function CommitEvents(texts: seq<string>): seq<Event>
    decreases |texts|
  {
    if texts == [] then []
    else
      var m := ParseCommitText(texts[0]);
      if m.None? then [] else [CommitEvent(m.value)] + CommitEvents(texts[1..])
  }

  /** Every item text matches the commit pattern. */
  predicate AllParse(texts: seq<string>) {
    forall i :: 0 <= i < |texts| ==> ParseCommitText(texts[i]).Some?
  }

  /** When every text matches, there is one update per text, adding its count to its project's commits. */
  lemma {:induction false} CommitEventsAll(texts: seq<string>)
    requires AllParse(texts)
    ensures |CommitEvents(texts)| == |texts|
    ensures forall i :: 0 <= i < |texts| ==>
      CommitEvents(texts)[i] == CommitEvent(ParseCommitText(texts[i]).value)
    decreases |texts|
  {
    if texts != [] {
      var rest := texts[1..];
      assert AllParse(rest) by {
        forall i | 0 <= i < |rest| ensures ParseCommitText(rest[i]).Some? {
          assert rest[i] == texts[i + 1];
        }
      }
      CommitEventsAll(rest);
      assert ParseCommitText(texts[0]).Some?;
      var head := CommitEvent(ParseCommitText(texts[0]).value);
      assert CommitEvents(texts) == [head] + CommitEvents(rest);
      forall i | 1 <= i < |texts|
        ensures CommitEvents(texts)[i] == CommitEvent(ParseCommitText(texts[i]).value)
      {
        assert CommitEvents(texts)[i] == CommitEvents(rest)[i - 1];
        assert rest[i - 1] == texts[i];
      }
    }
  }

  /** One more matching text adds its update at the end. */
  lemma {:induction false} CommitEventsSnoc(texts: seq<string>, t: string)
    requires AllParse(texts) && ParseCommitText(t).Some?
    ensures CommitEvents(texts + [t]) == CommitEvents(texts) + [CommitEvent(ParseCommitText(t).value)]
    decreases |texts|
  {
    if texts == [] {
      assert [t][1..] == [];
    } else {
      ConcatTail(texts, [t]);
      assert AllParse(texts[1..]) by {
        forall i | 0 <= i < |texts[1..]| ensures ParseCommitText(texts[1..][i]).Some? {
          assert texts[1..][i] == texts[i + 1];
        }
      }
      assert ParseCommitText(texts[0]).Some?;
      CommitEventsSnoc(texts[1..], t);
    }
  }

  /** The loop's step: the item at `i` matches, so it joins the matched prefix and adds its update. */
  lemma CommitEventsNext(texts: seq<string>, i: nat)
    requires i < |texts| && AllParse(texts[..i]) && ParseCommitText(texts[i]).Some?
    ensures AllParse(texts[..i + 1])
    ensures CommitEvents(texts[..i + 1]) == CommitEvents(texts[..i]) + [CommitEvent(ParseCommitText(texts[i]).value)]
  {
    assert texts[..i + 1] == texts[..i] + [texts[i]];
    CommitEventsSnoc(texts[..i], texts[i]);
  }

  /** The first text that does not match ends the list: nothing after it is counted. */
  lemma {:induction false} CommitEventsStop(texts: seq<string>, i: nat)
    requires i < |texts| && AllParse(texts[..i]) && ParseCommitText(texts[i]).None?
    ensures CommitEvents(texts) == CommitEvents(texts[..i])
    decreases i
  {
    if i == 0 {
      assert texts[..0] == [];
    } else {
      assert ParseCommitText(texts[0]).Some? by {
        assert texts[..i][0] == texts[0];
      }
      var head := texts[..i];
      var tail := texts[1..][..i - 1];
      assert tail == head[1..];
      assert AllParse(tail) by {
        forall j | 0 <= j < |tail| ensures ParseCommitText(tail[j]).Some? {
          assert tail[j] == head[j + 1];
        }
      }
      CommitEventsStop(texts[1..], i - 1);
      assert CommitEvents(texts[..i]) == [CommitEvents(texts)[0]] + CommitEvents(texts[..i][1..]);
    }
  }

  /** The items one contributions page lists under its three headings. */
  datatype ChunkItems = ChunkItems(commitTexts: seq<string>, pullRequestLabels: seq<string>, issueLabels: seq<string>)

  /** The updates parsing one page makes: the commits, then (if every commit item matched) the PRs and the issues. */
  function ChunkEvents(page: ChunkItems): seq<Event> {
    CommitEvents(page.commitTexts)
      + if AllParse(page.commitTexts)
        then LabelEvents(page.pullRequestLabels, PullRequests) + LabelEvents(page.issueLabels, Issues)
        else []
  }

  /** `ChunkEvents` unfolded on whether every commit item matched. */
  lemma ChunkEventsParts(page: ChunkItems)
    ensures AllParse(page.commitTexts) ==>
              ChunkEvents(page) == CommitEvents(page.commitTexts) + (LabelEvents(page.pullRequestLabels, PullRequests) + LabelEvents(page.issueLabels, Issues))
    ensures !AllParse(page.commitTexts) ==> ChunkEvents(page) == CommitEvents(page.commitTexts)
  {
    assert CommitEvents(page.commitTexts) + [] == CommitEvents(page.commitTexts);
  }

  /** Commit updates add nothing to a project's PR or issue counters, nor to their sums. */
  lemma {:induction false} CommitEventsOnlyCommits(texts: seq<string>, key: string, d: Counter)
    requires d != Commits
    ensures Amount(CommitEvents(texts), d) == 0
    ensures AmountFor(CommitEvents(texts), key, d) == 0
    decreases |texts|
  {
    if texts != [] && ParseCommitText(texts[0]).Some? {
      var head := [CommitEvent(ParseCommitText(texts[0]).value)];
      CommitEventsOnlyCommits(texts[1..], key, d);
      AmountAppend(head, CommitEvents(texts[1..]), d);
      AmountForAppend(head, CommitEvents(texts[1..]), key, d);
      assert head[..0] == [];
    }
  }

  /**
   * What a page adds to the PR and issue counters: when every commit item
   * matched, one per listed label, to the sums and to each label's project;
   * otherwise nothing, since the page's parse stopped at the unmatched item.
   */
  lemma ChunkEventsLabelAmounts(page: ChunkItems, key: string)
    ensures Amount(ChunkEvents(page), PullRequests) == if AllParse(page.commitTexts) then |page.pullRequestLabels| else 0
    ensures Amount(ChunkEvents(page), Issues) == if AllParse(page.commitTexts) then |page.issueLabels| else 0
    ensures AmountFor(ChunkEvents(page), key, PullRequests) ==
              if AllParse(page.commitTexts) then Occurrences(page.pullRequestLabels, key) else 0
    ensures AmountFor(ChunkEvents(page), key, Issues) ==
              if AllParse(page.commitTexts) then Occurrences(page.issueLabels, key) else 0
  {
    var commits := CommitEvents(page.commitTexts);
    CommitEventsOnlyCommits(page.commitTexts, key, PullRequests);
    CommitEventsOnlyCommits(page.commitTexts, key, Issues);
    ChunkEventsParts(page);
    if AllParse(page.commitTexts) {
      var prs := LabelEvents(page.pullRequestLabels, PullRequests);
      var issues := LabelEvents(page.issueLabels, Issues);
      forall d | d == PullRequests || d == Issues
        ensures Amount(ChunkEvents(page), d) == Amount(prs, d) + Amount(issues, d)
        ensures AmountFor(ChunkEvents(page), key, d) == AmountFor(prs, key, d) + AmountFor(issues, key, d)
      {
        AmountAppend(commits, prs + issues, d);
        AmountAppend(prs, issues, d);
        AmountForAppend(commits, prs + issues, key, d);
        AmountForAppend(prs, issues, key, d);
      }
      LabelEventsAmounts(page.pullRequestLabels, PullRequests, key, PullRequests);
      LabelEventsAmounts(page.pullRequestLabels, PullRequests, key, Issues);
      LabelEventsAmounts(page.issueLabels, Issues, key, PullRequests);
      LabelEventsAmounts(page.issueLabels, Issues, key, Issues);
    }
  }

  /** Why the run stops: a rejected request, or a commit item the pattern does not match. */
  datatype Failure = Fetch(reason: Rejection) | UnmatchedCommit

  /** What one reply contributes: its updates, and the failure it raises, if any. */
  function ReplyStep(username: string, reply: Reply<ChunkItems>): (seq<Event>, Option<Failure>) {
    match Classify(username, reply)
    case Rejected(reason) => ([], Some(Fetch(reason)))
    case Resolved(page) =>
      (ChunkEvents(page), if AllParse(page.commitTexts) then None else Some(UnmatchedCommit))
  }

  /** The replies merged in order, up to and including the first that fails. */
  function Merge(username: string, replies: seq<Reply<ChunkItems>>): (seq<Event>, Option<Failure>)
    decreases |replies|
  {
    if replies == [] then ([], None)
    else
      var step := ReplyStep(username, replies[0]);
      if step.1.Some? then step
      else
        var rest := Merge(username, replies[1..]);
        (step.0 + rest.0, rest.1)
  }

  /** A reply that resolves, with every commit item of its page matching. */
  predicate Succeeds(username: string, reply: Reply<ChunkItems>) {
    ReplyStep(username, reply).1.None?
  }

  /** The updates of all replies, each one's in full. */
  function AllEvents(username: string, replies: seq<Reply<ChunkItems>>): seq<Event>
    decreases |replies|
  {
    if replies == [] then [] else ReplyStep(username, replies[0]).0 + AllEvents(username, replies[1..])
  }

  /** The merge fails exactly when some reply fails; when none does, it makes every reply's updates. */
  lemma {:induction false} MergeSucceeds(username: string, replies: seq<Reply<ChunkItems>>)
    ensures Merge(username, replies).1.None? <==> forall i :: 0 <= i < |replies| ==> Succeeds(username, replies[i])
    ensures Merge(username, replies).1.None? ==> Merge(username, replies).0 == AllEvents(username, replies)
    decreases |replies|
  {
    if replies != [] {
      MergeSucceeds(username, replies[1..]);
      assert forall i :: 1 <= i < |replies| ==> replies[i] == replies[1..][i - 1];
    }
  }

  /** One more reply, after replies that all succeeded, adds its step at the end. */
  lemma {:induction false} MergeSnoc(username: string, replies: seq<Reply<ChunkItems>>, r: Reply<ChunkItems>)
    requires Merge(username, replies).1.None?
    ensures Merge(username, replies + [r]).0 == Merge(username, replies).0 + ReplyStep(username, r).0
    ensures Merge(username, replies + [r]).1 == ReplyStep(username, r).1
    decreases |replies|
  {
    if replies == [] {
      assert [r][1..] == [];
    } else {
      assert (replies + [r])[1..] == replies[1..] + [r];
      MergeSnoc(username, replies[1..], r);
    }
  }

  /** The merge loop's step at index `i`, with every earlier reply succeeded. */
  lemma MergeNext(username: string, replies: seq<Reply<ChunkItems>>, i: nat)
    requires i < |replies| && Merge(username, replies[..i]).1.None?
    ensures Merge(username, replies[..i + 1]) == (Merge(username, replies[..i]).0 + ReplyStep(username, replies[i]).0, ReplyStep(username, replies[i]).1)
  {
    TakeNext(replies, i);
    MergeSnoc(username, replies[..i], replies[i]);
  }

  /** Once a prefix of the replies fails, what follows it is not merged. */
  lemma {:induction false} MergeFailedPrefix(username: string, a: seq<Reply<ChunkItems>>, b: seq<Reply<ChunkItems>>)
    requires Merge(username, a).1.Some?
    ensures Merge(username, a + b) == Merge(username, a)
    decreases |a|
  {
    assert (a + b)[0] == a[0];
    if Succeeds(username, a[0]) {
      assert (a + b)[1..] == a[1..] + b;
      MergeFailedPrefix(username, a[1..], b);
    }
  }

  /** Nothing after the first failing reply is merged. */
  lemma MergeStop(username: string, replies: seq<Reply<ChunkItems>>, i: nat)
    requires i < |replies| && Merge(username, replies[..i]).1.None? && !Succeeds(username, replies[i])
    ensures Merge(username, replies) == (Merge(username, replies[..i]).0 + ReplyStep(username, replies[i]).0, ReplyStep(username, replies[i]).1)
  {
    MergeNext(username, replies, i);
    var a := replies[..i + 1];
    var b := replies[i + 1..];
    TakeDrop(replies, i + 1);
    MergeFailedPrefix(username, a, b);
  }

  lemma {:induction false} AllEventsAppend(username: string, a: seq<Reply<ChunkItems>>, b: seq<Reply<ChunkItems>>)
    ensures AllEvents(username, a + b) == AllEvents(username, a) + AllEvents(username, b)
    decreases |a|
  {
    if a == [] {
      assert a + b == b;
    } else {
      assert (a + b)[0] == a[0] && (a + b)[1..] == a[1..] + b;
      AllEventsAppend(username, a[1..], b);
    }
  }

  /** The updates around the reply at `i`, with and without it. */
  lemma AllEventsSplit(username: string, b: seq<Reply<ChunkItems>>, i: nat)
    requires i < |b|
    ensures AllEvents(username, b) == AllEvents(username, b[..i]) + ReplyStep(username, b[i]).0 + AllEvents(username, b[i + 1..])
    ensures AllEvents(username, b[..i] + b[i + 1..]) == AllEvents(username, b[..i]) + AllEvents(username, b[i + 1..])
  {
    assert b == b[..i] + [b[i]] + b[i + 1..];
    AllEventsAppend(username, b[..i] + [b[i]], b[i + 1..]);
    AllEventsAppend(username, b[..i], [b[i]]);
    AllEventsAppend(username, b[..i], b[i + 1..]);
    assert AllEvents(username, [b[i]]) == ReplyStep(username, b[i]).0 by {
      assert [b[i]][1..] == [];
    }
  }

  /** Reordering the replies reorders their updates and nothing else. */
  lemma {:induction false} AllEventsPermutation(username: string, a: seq<Reply<ChunkItems>>, b: seq<Reply<ChunkItems>>)
    requires multiset(a) == multiset(b)
    ensures multiset(AllEvents(username, a)) == multiset(AllEvents(username, b))
    decreases |a|
  {
    if a != [] {
      var r := a[0];
      assert r in multiset(b);
      var i :| 0 <= i < |b| && b[i] == r;
      assert a == [r] + a[1..];
      assert multiset(a[1..]) == multiset(a) - multiset{r};
      MultisetRemove(b, i);
      AllEventsPermutation(username, a[1..], b[..i] + b[i + 1..]);
      AllEventsSplit(username, b, i);
      var step := ReplyStep(username, r).0;
      var before := AllEvents(username, b[..i]);
      var after := AllEvents(username, b[i + 1..]);
      assert multiset(AllEvents(username, b)) == multiset(before) + multiset(step) + multiset(after);
      assert multiset(AllEvents(username, a)) == multiset(step) + multiset(AllEvents(username, a[1..]));
    }
  }

  /**
   * The pages may be merged in any order: when every reply succeeds, every
   * other order succeeds too and leaves the same dictionary.
   */
  lemma MergeOrderIrrelevant(m: map<string, Stats>, username: string, a: seq<Reply<ChunkItems>>, b: seq<Reply<ChunkItems>>)
    requires multiset(a) == multiset(b)
    requires Merge(username, a).1.None?
    ensures Merge(username, b).1.None?
    ensures Apply(m, Merge(username, a).0) == Apply(m, Merge(username, b).0)
  {
    MergeSucceeds(username, a);
    MergeSucceeds(username, b);
    forall i | 0 <= i < |b| ensures Succeeds(username, b[i]) {
      assert b[i] in multiset(a);
    }
    AllEventsPermutation(username, a, b);
    ApplyPermutation(m, AllEvents(username, a), AllEvents(username, b));
  }

  class Aggregator {
    var commitsTotal: nat
    var pullRequestsTotal: nat
    var issuesTotal: nat
    var projectStats: map<string, Stats>

    /** The global total kept for counter `c`. */
    function GlobalTotal(c: Counter): nat
      reads this
    {
      match c
      case Commits => commitsTotal
      case PullRequests => pullRequestsTotal
      case Issues => issuesTotal
    }

    /** Every key is a trimmed name, and each global total is the sum of the matching project counters. */
    ghost predicate Valid()
      reads this
    {
      && (forall k :: k in projectStats ==> IsTrimmed(k))
      && (forall c :: GlobalTotal(c) == Total(projectStats, c))
    }

    /** The initial state: all totals zero, no projects. */
    constructor ()
      ensures commitsTotal == 0 && pullRequestsTotal == 0 && issuesTotal == 0
      ensures projectStats == map[]
      ensures Valid()
    {
      commitsTotal := 0;
      pullRequestsTotal := 0;
      issuesTotal := 0;
      projectStats := map[];
    }

    /**
     * `getProjectStats`: the entry for the trimmed name, created zeroed when
     * absent. The key is returned with the entry so that the caller can write
     * the updated entry back.
     */
    method GetProjectStats(name: string) returns (key: string, stats: Stats)
      modifies this
      ensures key == Trim(name)
      ensures projectStats == Touch(old(projectStats), name)
      ensures stats == projectStats[key] && stats == Entry(old(projectStats), key)
      ensures commitsTotal == old(commitsTotal) && pullRequestsTotal == old(pullRequestsTotal) && issuesTotal == old(issuesTotal)
      ensures forall c :: Total(projectStats, c) == Total(old(projectStats), c)
      ensures (forall k :: k in old(projectStats) ==> IsTrimmed(k)) ==> forall k :: k in projectStats ==> IsTrimmed(k)
      ensures old(Valid()) ==> Valid()
    {
      ghost var m := projectStats;
      key := Trim(name);
      if key !in projectStats {
        projectStats := projectStats[key := Zero];
      }
      stats := projectStats[key];
      forall c ensures Total(projectStats, c) == Total(m, c) {
        TouchTotal(m, name, c);
      }
    }

    /**
     * Looks the name up and adds `n` to counter `c` of the entry it returns,
     * as `stats.commits += commits` or `stats.pullRequests++` does through
     * the object `getProjectStats` returns.
     */
    method AddToProject(name: string, c: Counter, n: nat)
      modifies this
      ensures projectStats == Bump(old(projectStats), Event(name, c, n))
      ensures forall d :: GlobalTotal(d) == old(GlobalTotal(d))
      ensures forall d :: Total(projectStats, d) == Total(old(projectStats), d) + (if d == c then n else 0)
      ensures (forall k :: k in old(projectStats) ==> IsTrimmed(k)) ==> forall k :: k in projectStats ==> IsTrimmed(k)
    {
      ghost var before := projectStats;
      var key, stats := GetProjectStats(name);
      projectStats := projectStats[key := Add(stats, c, n)];
      TouchThenAdd(before, name, c, n);
      forall d ensures Total(projectStats, d) == Total(before, d) + (if d == c then n else 0) {
        BumpTotal(before, Event(name, c, n), d);
      }
    }

    /** Adds `n` to global total `c`. */
    method AddToTotal(c: Counter, n: nat)
      modifies this
      ensures GlobalTotal(c) == old(GlobalTotal(c)) + n
      ensures forall d :: d != c ==> GlobalTotal(d) == old(GlobalTotal(d))
      ensures projectStats == old(projectStats)
    {
      match c
      case Commits => commitsTotal := commitsTotal + n;
      case PullRequests => pullRequestsTotal := pullRequestsTotal + n;
      case Issues => issuesTotal := issuesTotal + n;
    }

    /**
     * One commit item: when the pattern matches, its count is added to the
     * commits total and to the commits of its project; otherwise nothing
     * changes and `ok` is false.
     */
    method CommitItem(text: string) returns (ok: bool)
      requires Valid()
      modifies this
      ensures ok <==> ParseCommitText(text).Some?
      ensures ok ==> projectStats == Bump(old(projectStats), CommitEvent(ParseCommitText(text).value))
      ensures ok ==> commitsTotal == old(commitsTotal) + ParseCommitText(text).value.0
      ensures pullRequestsTotal == old(pullRequestsTotal) && issuesTotal == old(issuesTotal)
      ensures !ok ==> commitsTotal == old(commitsTotal) && projectStats == old(projectStats)
      ensures Valid()
    {
      var m := ParseCommitText(text);
      if m.None? {
        return false;
      }
      ghost var before := projectStats;
      AddToTotal(Commits, m.value.0);
      AddToProject(m.value.1, Commits, m.value.0);
      forall c ensures GlobalTotal(c) == Total(projectStats, c) {
        assert GlobalTotal(c) == Total(before, c) + (if c == Commits then m.value.0 else 0);
      }
      assert GlobalTotal(PullRequests) == old(GlobalTotal(PullRequests));
      assert GlobalTotal(Issues) == old(GlobalTotal(Issues));
      return true;
    }

    /**
     * `parseCommits`: the items in order. The first item the pattern does not
     * match ends the run (`ok` is false); the items before it stay counted.
     */
    method ParseCommits(texts: seq<string>) returns (ok: bool)
      requires Valid()
      modifies this
      ensures ok <==> AllParse(texts)
      ensures projectStats == Apply(old(projectStats), CommitEvents(texts))
      ensures forall c :: GlobalTotal(c) == old(GlobalTotal(c)) + Amount(CommitEvents(texts), c)
      ensures Valid()
    {
      ok := true;
      var i := 0;
      while i < |texts| && ok
        invariant i <= |texts|
        invariant AllParse(texts[..i])
        invariant !ok ==> i < |texts| && ParseCommitText(texts[i]).None?
        invariant projectStats == Apply(old(projectStats), CommitEvents(texts[..i]))
        invariant Valid()
        decreases |texts| - i, ok
      {
        ghost var events := CommitEvents(texts[..i]);
        ok := CommitItem(texts[i]);
        if ok {
          CommitEventsNext(texts, i);
          ApplySnoc(old(projectStats), events, CommitEvent(ParseCommitText(texts[i]).value));
          i := i + 1;
        }
      }
      if ok {
        TakeAll(texts);
      } else {
        CommitEventsStop(texts, i);
      }
      ApplyTotals(old(projectStats), CommitEvents(texts));
    }

    /**
     * `parsePullRequests` and `parseIssues`: global total `c` is raised by the
     * number of items first, then each item adds 1 to counter `c` of its
     * project.
     */
    method CountItems(labels: seq<string>, c: Counter)
      requires Valid()
      modifies this
      ensures projectStats == Apply(old(projectStats), LabelEvents(labels, c))
      ensures GlobalTotal(c) == old(GlobalTotal(c)) + |labels|
      ensures forall d :: d != c ==> GlobalTotal(d) == old(GlobalTotal(d))
      ensures Valid()
    {
      AddToTotal(c, |labels|);
      var i := 0;
      while i < |labels|
        invariant i <= |labels|
        invariant projectStats == Apply(old(projectStats), LabelEvents(labels[..i], c))
        invariant GlobalTotal(c) == old(GlobalTotal(c)) + |labels|
        invariant forall d :: d != c ==> GlobalTotal(d) == old(GlobalTotal(d))
        invariant forall k :: k in projectStats ==> IsTrimmed(k)
        invariant GlobalTotal(c) == Total(projectStats, c) + (|labels| - i)
        invariant forall d :: d != c ==> GlobalTotal(d) == Total(projectStats, d)
      {
        AddToProject(labels[i], c, 1);
        TakeOneLess(labels, i);
        ApplySnoc(old(projectStats), LabelEvents(labels[..i], c), Event(labels[i], c, 1));
        i := i + 1;
      }
      TakeAll(labels);
    }

    /** `parsePullRequests`: each listed PR counts once for the project its label names. */
    method ParsePullRequests(labels: seq<string>)
      requires Valid()
      modifies this
      ensures projectStats == Apply(old(projectStats), LabelEvents(labels, PullRequests))
      ensures pullRequestsTotal == old(pullRequestsTotal) + |labels|
      ensures commitsTotal == old(commitsTotal) && issuesTotal == old(issuesTotal)
      ensures Valid()
    {
      CountItems(labels, PullRequests);
      assert GlobalTotal(Commits) == old(GlobalTotal(Commits)) && GlobalTotal(Issues) == old(GlobalTotal(Issues));
    }

    /** `parseIssues`: each listed issue counts once for the project its label names. */
    method ParseIssues(labels: seq<string>)
      requires Valid()
      modifies this
      ensures projectStats == Apply(old(projectStats), LabelEvents(labels, Issues))
      ensures issuesTotal == old(issuesTotal) + |labels|
      ensures commitsTotal == old(commitsTotal) && pullRequestsTotal == old(pullRequestsTotal)
      ensures Valid()
    {
      CountItems(labels, Issues);
      assert GlobalTotal(Commits) == old(GlobalTotal(Commits)) && GlobalTotal(PullRequests) == old(GlobalTotal(PullRequests));
    }

    /**
     * `parseChunkStats`: the commits, then the PRs, then the issues of one
     * page. An unmatched commit item aborts the page before its PRs and
     * issues are counted.
     */
    method ParseChunkStats(page: ChunkItems) returns (ok: bool)
      requires Valid()
      modifies this
      ensures ok <==> AllParse(page.commitTexts)
      ensures projectStats == Apply(old(projectStats), ChunkEvents(page))
      ensures forall c :: GlobalTotal(c) == old(GlobalTotal(c)) + Amount(ChunkEvents(page), c)
      ensures Valid()
    {
      ok := ParseCommits(page.commitTexts);
      var prs := LabelEvents(page.pullRequestLabels, PullRequests);
      var issues := LabelEvents(page.issueLabels, Issues);
      if ok {
        ghost var afterCommits := projectStats;
        ParsePullRequests(page.pullRequestLabels);
        ghost var afterPullRequests := projectStats;
        ParseIssues(page.issueLabels);
        ApplyAppend(afterCommits, prs, issues);
        ApplyAppend(old(projectStats), CommitEvents(page.commitTexts), prs + issues);
      }
      ChunkEventsParts(page);
      ApplyTotals(old(projectStats), ChunkEvents(page));
    }

    /**
     * `fetchStats` with the pages merged one after another: each reply is
     * classified, and each resolved page parsed, until the first failure,
     * which is returned. The replies are listed in the order they complete;
     * each page's `parseChunkStats` runs to its end before the next reply is
     * handled, so merging them in that order is the run the source makes.
     */
    method FetchStats(username: string, replies: seq<Reply<ChunkItems>>) returns (failure: Option<Failure>)
      requires Valid()
      modifies this
      ensures failure == Merge(username, replies).1
      ensures projectStats == Apply(old(projectStats), Merge(username, replies).0)
      ensures forall c :: GlobalTotal(c) == old(GlobalTotal(c)) + Amount(Merge(username, replies).0, c)
      ensures Valid()
    {
      var i := 0;
      while i < |replies|
        invariant i <= |replies|
        invariant Merge(username, replies[..i]).1.None?
        invariant projectStats == Apply(old(projectStats), Merge(username, replies[..i]).0)
        invariant Valid()
      {
        MergeNext(username, replies, i);
        ghost var merged := Merge(username, replies[..i]).0;
        var outcome := Classify(username, replies[i]);
        if outcome.Rejected? {
          MergeStop(username, replies, i);
          assert merged + [] == merged;
          ApplyTotals(old(projectStats), Merge(username, replies).0);
          return Some(Fetch(outcome.reason));
        }
        ghost var before := projectStats;
        var ok := ParseChunkStats(outcome.body);
        ApplyAppend(old(projectStats), merged, ChunkEvents(outcome.body));
        if !ok {
          MergeStop(username, replies, i);
          ApplyTotals(old(projectStats), Merge(username, replies).0);
          return Some(UnmatchedCommit);
        }
        i := i + 1;
      }
      TakeAll(replies);
      ApplyTotals(old(projectStats), Merge(username, replies).0);
      return None;
    }
  }
}
