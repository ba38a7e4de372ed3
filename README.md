# github-user-contrib, modelled in Dafny

`index.js` is a command-line tool. It fetches a GitHub user's contribution
pages for the last year in windows of up to 32 days. From each page it counts
commits, pull requests and issues per project, then prints a table with one
row per project and a final row of totals. This project models the tool's
core and proves properties of that model:

- **Chunks** (`chunks.dfy`): the `getChunkStatsUrls` while loop. Dates are
  integer day numbers. The loop is a method proved equal to a recursive plan.
  Lemmas cover the plan's shape, size and coverage: contiguous, bounded
  windows, and every day in exactly one window.
- **Status** (`status.dfy`): the if-chain in `get`'s request callback. It maps
  a transport error or an HTTP status to resolve or reject, with the source's
  exact messages.
- **CommitText** (`committext.dfy`): `text.match(/Pushed (\d+) commits? to (.+)/)`
  followed by `parseInt(match[1], 10)` and `match[2]`. The regular
  expression is unanchored and has no flags. It is modelled as a leftmost
  match, with a greedy digit run and a final `.+` that stops at ECMAScript
  line terminators. The parse is characterised completely: it succeeds exactly
  when some index holds a commit line, and then returns the leftmost one.
  Rendering any count with any non-empty project free of line terminators,
  then parsing the result, gives them back.
- **Headers** (`headers.dfy`): the three case-insensitive heading tests; case
  folding is ASCII-only, since the `u` flag is absent.
- **JsString** (`jsstring.dfy`) and **Decimal** (`decimal.dfy`):
  `String.prototype.trim` over the ECMAScript white-space and line-terminator
  set; decimal digit runs, their value and the decimal rendering of a number.
- **Projects** (`projects.dfy`): the `projectStats` dictionary as a
  `map<string, Stats>`. `getProjectStats` becomes `Touch`. A counter update
  becomes an `Event`, and `Apply` folds a sequence of events into the map.
  Lemmas cover the per-project counters, the per-counter sums (`Total`), the
  effect of PR/issue batches, and independence from update order.
- **Aggregation** (`aggregation.dfy`): the module-level state, a class
  `Aggregator` with the three global totals and the dictionary. Its methods
  are `getProjectStats`, `parseCommits`, `parsePullRequests`, `parseIssues`,
  `parseChunkStats`, and `fetchStats` with its pages merged one after another.
  Every page-level and item-level method keeps the invariant `Valid()`: every
  key is trimmed, and each global total equals the sum of that counter over
  all projects. The two half-step helpers `AddToTotal` and `AddToProject` do
  not promise it, since the source itself is unbalanced between raising a
  global total and raising the project counter (index.js:100-101).
  `MergeOrderIrrelevant` shows that, when every reply succeeds, the order in
  which pages are merged does not change the result; in a failed run the
  order decides which pages are merged and which failure is returned.
- **Report** and **Order** (`report.dfy`, `order.dfy`): `printStats`'s rows
  over `Object.keys(projectStats).sort()`, then the totals row. The final row
  is balanced against the project rows.

## Model

| member | source | states |
|---|---|---|
| Chunks.ChunkRanges | index.js:139-154 | the loop emits exactly the windows of `Plan(from, to)`, in order, and terminates |
| Chunks.Plan | index.js:143-150 | no contract of its own; characterised by PlanShape, PlanSmall, PlanLength, PlanCoversEachDayOnce and PlanStartsAfter |
| Chunks.PlanShape | index.js:141-150 | for `from <= to`: the first window starts at `from`, the last ends at `to`, each starts the day after the previous ends, each spans 0..31 days past its start, and all but the last span exactly 31 |
| Chunks.PlanSmall | index.js:143-150 | an empty range gives no window; `from == to` gives the single window `[from, from]` |
| Chunks.PlanLength | index.js:143-150 | there are `(to - from) / 32 + 1` windows |
| Chunks.PlanCoversEachDayOnce | index.js:141-150 | a day lies in some window exactly when `from <= day <= to`, and never in two windows |
| Chunks.PlanStartsAfter | index.js:143-150 | every window still to be emitted from cursor `start` lies within `start..to` |
| Status.Classify | index.js:40-55 | resolves exactly on status 200 with the response's body; a transport error rejects with that error unchanged; any other response rejects with a message |
| Status.ClassifyKnownStatuses | index.js:44-48 | 429 rejects with the fixed "Too many requests" message; 404 with `Unknown username "<username>".` |
| Status.ClassifyOtherStatus | index.js:50-51 | any other non-200 status rejects with "GitHub responded with status code N.", where N is the status in decimal, readable back as the status |
| Status.MessageInitials | index.js:44-51 | the 429, 404 and other-status messages begin with `T`, `U` and `G` |
| Status.ClassifyDistinguishesStatuses | index.js:41-54 | two different statuses never give the same outcome: only 200 resolves, the three kinds of message begin differently, and two "status code N." messages differ in N |
| Status.UnknownUserInjective | index.js:47-48 | the 404 message determines the username |
| Decimal.Value | index.js:98 | no contract of its own; characterised by ValueOfDigits, DigitsOfValue and ValueAtLeastOne |
| Decimal.Digits | index.js:51 | the rendering is a non-empty digit run, starts with `0` only for 0, and has one digit exactly below 10; ValueOfDigits and DigitsInjective characterise it further |
| Decimal.ValueOfDigits | index.js:98 | reading the decimal rendering of `n` with base-10 `parseInt` gives `n` |
| Decimal.DigitsOfValue | index.js:98 | a digit run without a leading zero is the rendering of its value |
| Decimal.DigitsInjective | index.js:51 | different numbers render differently |
| CommitText.FirstMatch | index.js:96 | no contract of its own; characterised by FirstMatchSome and FirstMatchNone |
| CommitText.ParseCommitText | index.js:95-98 | no contract of its own; characterised by ParseCharacterized, ParseIsLeftmost and ParseCommitLine |
| CommitText.DigitRun | index.js:23 | the greedy `\d+` run: all digits, followed by a non-digit or the end |
| CommitText.LineRun | index.js:23 | the greedy `.+` run: no line terminator, followed by one or by the end |
| CommitText.ProjectPart | index.js:23 | the second group is non-empty, a prefix of the rest, free of line terminators, and runs to the end of its line |
| CommitText.MatchAt | index.js:23 | a match at a given index yields a non-empty, one-line project |
| CommitText.FirstMatchSome | index.js:96 | a successful match is the match at the first index from which the pattern matches |
| CommitText.FirstMatchNone | index.js:96 | a failed search means the pattern matches at no index |
| CommitText.ParseIsLeftmost | index.js:96 | `match` fails exactly when the pattern matches nowhere, and otherwise returns the leftmost match |
| CommitText.MatchAtSound | index.js:23 | a match at index `i` is a commit line there ("Pushed " digits " commit" [s] " to " project, ending its line), and its count is the digits' value |
| CommitText.MatchAtComplete | index.js:23 | a commit line at index `i` matches there, with its digits' value and its project |
| CommitText.ParseCharacterized | index.js:95-98 | the parse succeeds exactly when some index holds a commit line, and then returns the count and project of one with no match before it |
| CommitText.ParseCommitLine | index.js:95-98 | for a non-empty project P free of line terminators, parsing "Pushed N commit[s] to P", followed by nothing or a new line, gives `(N, P)` |
| CommitText.ParsePluralExample | index.js:23 | "Pushed 3 commits to P" parses to `(3, P)`, for any non-empty one-line P |
| CommitText.ParseSingularExample | index.js:23 | "Pushed 1 commit to P" parses to `(1, P)`, for any non-empty one-line P |
| Headers.Search | index.js:19-21 | an unanchored test succeeds exactly when some digit is followed by the pattern's words, ignoring ASCII case |
| Headers.IsCommitHeader | index.js:19 | no contract of its own; characterised by Search, CommitHeaderExample, HeaderNeedsCount and SearchIgnoresCase |
| Headers.IsPullRequestHeader | index.js:20 | no contract of its own; characterised by Search, PullRequestHeaderExample, HeaderNeedsCount and SearchIgnoresCase |
| Headers.IsIssuesHeader | index.js:21 | no contract of its own; characterised by Search, IssuesHeaderExample and SearchIgnoresCase |
| Headers.CommitHeaderExample | index.js:19 | "3 commits" passes the commits test |
| Headers.PullRequestHeaderExample | index.js:20 | "1 Pull Request" passes the pull-requests test |
| Headers.IssuesHeaderExample | index.js:21 | "12 issues reported" passes the issues test |
| Headers.HeaderNeedsCount | index.js:19-20 | headings without a count ("commits", "Pull requests") fail |
| Headers.SearchIgnoresCase | index.js:19-21 | changing the ASCII case of a heading does not change the outcome |
| JsString.Trim | index.js:67 | the result has no leading or trailing white space and is the text between the leading and the trailing white space |
| JsString.TrimOfTrimmed | index.js:187 | a trimmed name is its own trim, so looking up an existing key finds that key |
| JsString.TrimIdempotent | index.js:67 | trimming twice is trimming once |
| Order.Less | index.js:185 | no contract of its own; characterised by LessIrreflexive, LessTransitive and LessTotal |
| Order.LessIrreflexive | index.js:185 | no string sorts before itself |
| Order.LessTransitive | index.js:185 | the sort order is transitive |
| Order.LessTotal | index.js:185 | of two different strings, one sorts first |
| Order.SortedKeys | index.js:184-185 | the sorted keys are exactly the dictionary's keys, each once, in strictly ascending order |
| Order.SortedDistinct | index.js:184-185 | a strictly sorted list repeats no key |
| Projects.Add | index.js:101 | adding to one counter raises it by the amount and leaves the other two |
| Projects.Touch | index.js:66-78 | the looked-up key is the trimmed name; its entry is the old one, or zeroed when absent; every other entry is unchanged and none is removed |
| Projects.TouchUnchanged | index.js:69-75 | a lookup changes the dictionary exactly when the trimmed name is not yet a key |
| Projects.TouchTwice | index.js:66-78 | a second lookup by the trimmed key changes nothing |
| Projects.Bump | index.js:97-101 | an update leaves the keys as the old ones plus the trimmed name |
| Projects.BumpEffect | index.js:97-101 | an update raises its counter of the named project (from 0 when new) by its amount, keeps that project's other counters, and leaves every other project as it was |
| Projects.TouchThenAdd | index.js:97-101 | looking up and then adding to the returned entry is one update |
| Projects.Apply | index.js:94-127 | no contract of its own; characterised by ApplyTotal, ApplyEntry, ApplyKeys, ApplyAppend and ApplyPermutation |
| Projects.LabelEvents | index.js:108-127 | no contract of its own; characterised by LabelEventsAmounts, LabelEventsIndex, LabelEventsKeys and LabelBatchEffect |
| Projects.LabelEventsAmounts | index.js:108-127 | a batch of k labels for counter c adds k to c's sum and nothing to the other sums, and adds to each project's c the number of labels naming it |
| Projects.LabelEventsIndex | index.js:110-127 | a batch holds one update of 1 per label, in order |
| Projects.LabelEventsKeys | index.js:110-127 | the projects a batch touches are the trimmed labels |
| Projects.LabelBatchEffect | index.js:105-129 | after a PR or issue batch, the keys are the old ones plus the trimmed labels; each project's counter c rose by its number of labels; every other counter is unchanged |
| Projects.TouchTotal | index.js:69-75 | creating a zeroed entry leaves every counter's sum unchanged |
| Projects.BumpTotal | index.js:100-101 | an update raises its own counter's sum by its amount and leaves the other sums |
| Projects.ApplyTotal | index.js:94-127 | after a batch, each counter's sum is the old sum plus what the batch adds |
| Projects.ApplyEntry | index.js:94-127 | after a batch, each project's counter is its old value (0 when absent) plus what the batch adds to it |
| Projects.ApplyKeys | index.js:94-127 | after a batch, the keys are the old ones plus the trimmed labels the batch names |
| Projects.ApplyAppend | index.js:134-136 | applying two batches one after the other is applying their concatenation |
| Projects.AmountForPermutation | index.js:167-173 | what a set of updates adds to a project does not depend on their order |
| Projects.ApplyPermutation | index.js:167-173 | applying the same updates in any order gives the same dictionary |
| Projects.ApplyCommutes | index.js:105-129 | applying two batches in either order gives the same dictionary |
| Aggregation.CommitEventsAll | index.js:94-102 | when every commit item matches, there is one update per item, adding its count to its project's commits |
| Aggregation.CommitEventsStop | index.js:96-97 | the updates of a commit list stop at its first unmatched item |
| Aggregation.CommitEvents | index.js:94-102 | no contract of its own; characterised by CommitEventsAll and CommitEventsStop |
| Aggregation.ChunkEventsLabelAmounts | index.js:131-137 | a page whose commit items all match adds one PR and one issue per listed label, to the sums and to each label's project; a page with an unmatched commit item adds no PRs and no issues |
| Aggregation.CommitEventsOnlyCommits | index.js:94-102 | commit items add nothing to any PR or issue counter, nor to those sums |
| Aggregation.ChunkEvents | index.js:131-137 | no contract of its own; characterised by ChunkEventsLabelAmounts, CommitEventsAll, CommitEventsStop, LabelBatchEffect, ApplyAppend and the ensures of Aggregator.ParseChunkStats |
| Aggregation.ReplyStep | index.js:167-171 | no contract of its own; characterised by MergeSucceeds and MergeStop |
| Aggregation.Merge | index.js:167-173 | no contract of its own; characterised by MergeSucceeds, MergeStop and MergeOrderIrrelevant |
| Aggregation.AllEvents | index.js:167-173 | no contract of its own; characterised by MergeSucceeds and AllEventsPermutation |
| Aggregation.MergeSucceeds | index.js:167-173 | the merge fails exactly when some reply fails; when none fails, it makes every reply's updates |
| Aggregation.MergeStop | index.js:167-173 | nothing after the first failing reply is merged |
| Aggregation.AllEventsPermutation | index.js:167-173 | reordering the replies reorders their updates and nothing else |
| Aggregation.MergeOrderIrrelevant | index.js:167-173 | when every reply succeeds in one order, every reordering succeeds and leaves the same dictionary |
| Aggregation.Aggregator.constructor | index.js:27-31 | all three totals are 0 and there are no projects; the invariant holds |
| Aggregation.Aggregator.GetProjectStats | index.js:66-78 | returns the trimmed key and its entry (zeroed when new); the dictionary changes as `Touch` says; totals and sums are unchanged; the invariant is kept |
| Aggregation.Aggregator.AddToProject | index.js:97-101 | a lookup followed by a write through the returned entry: the dictionary is the old one with the update applied; global totals are unchanged |
| Aggregation.Aggregator.AddToTotal | index.js:100 | raises one global total by the amount and leaves the other totals and the dictionary |
| Aggregation.Aggregator.CommitItem | index.js:95-101 | a matched item adds its count to the commits total and to its project's commits; an unmatched one changes nothing and reports failure; the invariant is kept |
| Aggregation.Aggregator.ParseCommits | index.js:91-103 | succeeds exactly when every item matches; the dictionary and totals reflect the items up to the first unmatched one; the invariant is kept |
| Aggregation.Aggregator.CountItems | index.js:105-129 | raises total c by the number of labels and adds 1 to c of each label's project; the other totals are unchanged; the invariant is kept |
| Aggregation.Aggregator.ParsePullRequests | index.js:105-116 | raises the PR total by the batch length, adds one PR per label to its project, and keeps the invariant |
| Aggregation.Aggregator.ParseIssues | index.js:118-129 | raises the issues total by the batch length, adds one issue per label to its project, and keeps the invariant |
| Aggregation.Aggregator.ParseChunkStats | index.js:131-137 | a page applies its updates to the dictionary and totals; it fails exactly when a commit item does not match |
| Aggregation.Aggregator.FetchStats | index.js:156-174 | the replies merged in order: the failure returned is the first one; dictionary and totals reflect the merged updates; the invariant is kept |
| Report.RowsShape | index.js:184-191 | one row per key, named by its key, holding that project's counters; every project has a row; every row's total is its three counters' sum |
| Report.ProjectRow | index.js:187-190 | no contract of its own; characterised by RowsShape and ColumnOfProjectRow |
| Report.Rows | index.js:184-191 | no contract of its own; characterised by RowsShape, RowsColumnSum and RowsBalanced |
| Report.TotalRow | index.js:177-193 | no contract of its own; characterised by StatsTableShape and StatsTableBalanced |
| Report.StatsTable | index.js:176-193 | no contract of its own; characterised by StatsTableShape and StatsTableBalanced |
| Report.SortedKeysFacts | index.js:184-185 | the listed keys are distinct, strictly ascending and exactly the projects |
| Report.StatsTableShape | index.js:176-193 | the table is the project rows in strictly ascending name order, one per project, each with its own counters and sum, then the totals row |
| Report.ColumnOfProjectRow | index.js:190 | each column of a project row is that project's counter |
| Report.RowsColumnSum | index.js:184-191 | over distinct keys that are exactly the projects, a column sums to that counter's sum |
| Report.TotalSumColumns | index.js:188-193 | on rows that add up, the Total column sums to the sum of the three counter columns |
| Report.StatsTableBalanced | index.js:177-193 | when each global total is its counter's sum, each column of the final row, and its total, equals that column's sum over the project rows |
| Report.RowsBalanced | index.js:184-191 | for any distinct keys that are exactly the projects, the rows' columns and totals sum to the counters' sums |
| Report.ReportLookupsChangeNothing | index.js:187 | re-looking up a trimmed key while printing finds the existing entry and changes nothing |

## Left out

- HTTP fetching with `request` (`forever: true`) is not modelled. The outcome of each request is an input `Reply`: a transport error, or a status with a page.
- The progress bar and `Promise.all` are left out. The requests run concurrently and merge into the shared state as they complete. The model merges the pages one after another in the order given. `MergeOrderIrrelevant` shows that a successful run gives the same dictionary in any order. The interleaving of a failed run is not modelled.
- Aggregation.Aggregator.FetchStats stops at the first failure. In the source, the other requests still in flight may go on updating the state, but that state is never printed because `reportError` exits.
- The cheerio DOM queries (the selectors and `getListItems`) are not modelled. Each page is given as its three lists of item texts or project labels. The heading predicates in `Headers` are therefore not connected to those lists.
- `moment` date arithmetic, `YYYY-MM-DD` formatting and the URL template are not modelled. Days are integers, so `to.diff(chunkStart, 'days')` is a subtraction.
- The year-long range in `run` is not modelled.
- `console` output, `cli-table`/`chalk` rendering, `process.argv`, `reportError` and `process.exit` are I/O. The model keeps only the numbers in the table's rows.
- Order.SortedKeys orders keys lexicographically by `char`. JavaScript's `sort()` compares UTF-16 code units, which differs from this for characters outside the Basic Multilingual Plane.
- Aggregation.Aggregator.FetchStats takes any sequence of replies. Nothing ties their number to the windows of `Plan(from, to)` that `fetchStats` requests (index.js:157, 167).
- Decimal.Value is exact. `parseInt` loses precision above 2^53, and the model does not reproduce that.
- Projects.Touch treats `projectStats` as a plain dictionary. The source's `!projectStats[name]` test also sees inherited keys such as `constructor` or `__proto__`, and the model does not reproduce that.
- Aggregation.Aggregator.GetProjectStats returns the entry and its key rather than a live object. The caller writes the updated entry back, which is how `AddToProject` models `stats.commits += commits`. Aliasing of the shared object is not modelled.
- An unmatched commit item makes the source throw a `TypeError` at `match[2]`. The model reports this as `ok == false` or `UnmatchedCommit`, and the rest of that page is not parsed.
- A project label made only of white space trims to the key `""`. The code accepts this; the model follows the code.

