/**
 * The per-project counters of `projectStats` and the updates applied to them:
 * every update names a project label (trimmed to find its entry), one of the
 * three counters and an amount.
 */
module Projects {
  import opened JsString
  import opened Sequences

  datatype Counter = Commits | PullRequests | Issues

  /** `{commits, pullRequests, issues}` of one project. */
  datatype Stats = Stats(commits: nat, pullRequests: nat, issues: nat)

  const Zero: Stats := Stats(0, 0, 0)

  function Get(s: Stats, c: Counter): nat {
    match c
    case Commits => s.commits
    case PullRequests => s.pullRequests
    case Issues => s.issues
  }

  /** `s` with `n` added to counter `c`. */
  function Add(s: Stats, c: Counter, n: nat): (r: Stats)
    ensures Get(r, c) == Get(s, c) + n
    ensures forall d :: d != c ==> Get(r, d) == Get(s, d)
  {
    match c
    case Commits => s.(commits := s.commits + n)
    case PullRequests => s.(pullRequests := s.pullRequests + n)
    case Issues => s.(issues := s.issues + n)
  }

  lemma StatsEqual(s: Stats, t: Stats)
    requires forall c :: Get(s, c) == Get(t, c)
    ensures s == t
  {
    assert Get(s, Commits) == Get(t, Commits);
    assert Get(s, PullRequests) == Get(t, PullRequests);
    assert Get(s, Issues) == Get(t, Issues);
  }

  /** The entry for `key`, or the zeroed entry `getProjectStats` would create. */
  function Entry(m: map<string, Stats>, key: string): Stats {
    if key in m then m[key] else Zero
  }

  /**
   * `getProjectStats(name)` on the dictionary: the entry for the trimmed name
   * is created with zero counters when absent; nothing else changes.
   */
  function Touch(m: map<string, Stats>, name: string): (r: map<string, Stats>)
    ensures r.Keys == m.Keys + {Trim(name)}
    ensures r[Trim(name)] == Entry(m, Trim(name))
    ensures forall k :: k in m ==> r[k] == m[k]
  {
    var key := Trim(name);
    if key in m then m else m[key := Zero]
  }

  /** Looking up a name twice, the second time by its trimmed key, changes nothing the first did not. */
  lemma TouchTwice(m: map<string, Stats>, name: string)
    ensures Touch(Touch(m, name), Trim(name)) == Touch(m, name)
  {
    TrimIdempotent(name);
  }

  /** Looking up a name whose trimmed form is already a key changes nothing; any other lookup adds that key. */
  lemma TouchUnchanged(m: map<string, Stats>, name: string)
    ensures Touch(m, name) == m <==> Trim(name) in m
  {
    if Trim(name) !in m {
      assert Trim(name) in Touch(m, name);
    }
  }

  /** One counter update: `amount` added to counter `counter` of project `project`. */
  datatype Event = Event(project: string, counter: Counter, amount: nat)

  function Bump(m: map<string, Stats>, e: Event): (r: map<string, Stats>)
    ensures r.Keys == m.Keys + {Trim(e.project)}
  {
    var key := Trim(e.project);
    m[key := Add(Entry(m, key), e.counter, e.amount)]
  }

  /**
   * An update raises counter `e.counter` of the project `e` names (from 0 when
   * the project is new) by `e.amount`, keeps that project's other counters,
   * and leaves every other project as it was.
   */
  lemma BumpEffect(m: map<string, Stats>, e: Event, d: Counter)
    ensures Get(Bump(m, e)[Trim(e.project)], d) == Get(Entry(m, Trim(e.project)), d) + (if d == e.counter then e.amount else 0)
    ensures forall k :: k in m && k != Trim(e.project) ==> Bump(m, e)[k] == m[k]
  {
  }

  /**
   * Looking a name up and then adding `n` to counter `c` of the entry it
   * returns (the `stats.commits += commits` write through the returned object)
   * is one update.
   */
  lemma TouchThenAdd(m: map<string, Stats>, name: string, c: Counter, n: nat)
    ensures Touch(m, name)[Trim(name) := Add(Touch(m, name)[Trim(name)], c, n)] == Bump(m, Event(name, c, n))
  {
  }

  /** The dictionary after the events, applied first to last. */
  function Apply(m: map<string, Stats>, events: seq<Event>): map<string, Stats>
    decreases |events|
  {
    if events == [] then m
    else Bump(Apply(m, events[..|events| - 1]), events[|events| - 1])
  }

  /** One more event applies on top of the earlier ones. */
  lemma ApplySnoc(m: map<string, Stats>, events: seq<Event>, e: Event)
    ensures Apply(m, events + [e]) == Bump(Apply(m, events), e)
  {
    assert (events + [e])[..|events + [e]| - 1] == events;
  }

  /** Sum of the amounts the events add to counter `c`. */
  function Amount(events: seq<Event>, c: Counter): nat
    decreases |events|
  {
    if events == [] then 0
    else
      var e := events[|events| - 1];
      Amount(events[..|events| - 1], c) + (if e.counter == c then e.amount else 0)
  }

  /** What event `e` adds to counter `c` of the project whose trimmed label is `key`. */
  function Share(e: Event, key: string, c: Counter): nat {
    if e.counter == c && Trim(e.project) == key then e.amount else 0
  }

  /** Sum of the amounts the events add to counter `c` of the project whose trimmed label is `key`. */
  function AmountFor(events: seq<Event>, key: string, c: Counter): nat
    decreases |events|
  {
    if events == [] then 0
    else AmountFor(events[..|events| - 1], key, c) + Share(events[|events| - 1], key, c)
  }

  /** The trimmed project labels the events mention. */
  function Labels(events: seq<Event>): set<string> {
    set i | 0 <= i < |events| :: Trim(events[i].project)
  }

  /** A PR or issue batch: each listed label adds 1 to counter `c` of its project. */
  function LabelEvents(labels: seq<string>, c: Counter): seq<Event>
    decreases |labels|
  {
    if labels == [] then []
    else LabelEvents(labels[..|labels| - 1], c) + [Event(labels[|labels| - 1], c, 1)]
  }

  /** How many labels trim to `key`. */
  function Occurrences(labels: seq<string>, key: string): nat
    decreases |labels|
  {
    if labels == [] then 0
    else Occurrences(labels[..|labels| - 1], key) + (if Trim(labels[|labels| - 1]) == key then 1 else 0)
  }

  /** The trimmed forms of the labels. */
  function TrimmedLabels(labels: seq<string>): set<string> {
    set i | 0 <= i < |labels| :: Trim(labels[i])
  }

  /**
   * A batch of `k` labels for counter `c` adds `k` to the sum of `c` and
   * nothing to the other sums; it adds to each project's `c` counter the
   * number of labels naming it and nothing to its other counters.
   */
  lemma {:induction false} LabelEventsAmounts(labels: seq<string>, c: Counter, key: string, d: Counter)
    ensures Amount(LabelEvents(labels, c), d) == if d == c then |labels| else 0
    ensures AmountFor(LabelEvents(labels, c), key, d) == if d == c then Occurrences(labels, key) else 0
    decreases |labels|
  {
    if labels != [] {
      var init := labels[..|labels| - 1];
      LabelEventsAmounts(init, c, key, d);
      var evs := LabelEvents(labels, c);
      assert evs[..|evs| - 1] == LabelEvents(init, c);
    }
  }

  /** The batch holds, in order, one update of 1 per label. */
  lemma {:induction false} LabelEventsIndex(labels: seq<string>, c: Counter)
    ensures |LabelEvents(labels, c)| == |labels|
    ensures forall i :: 0 <= i < |labels| ==> LabelEvents(labels, c)[i] == Event(labels[i], c, 1)
    decreases |labels|
  {
    if labels != [] {
      LabelEventsIndex(labels[..|labels| - 1], c);
    }
  }

  /** The projects a batch names are the trimmed labels. */
  lemma LabelEventsKeys(labels: seq<string>, c: Counter)
    ensures Labels(LabelEvents(labels, c)) == TrimmedLabels(labels)
  {
    var evs := LabelEvents(labels, c);
    LabelEventsIndex(labels, c);
    forall l | l in Labels(evs) ensures l in TrimmedLabels(labels) {
      var i :| 0 <= i < |evs| && l == Trim(evs[i].project);
      assert l == Trim(labels[i]);
    }
    forall l | l in TrimmedLabels(labels) ensures l in Labels(evs) {
      var i :| 0 <= i < |labels| && l == Trim(labels[i]);
      assert l == Trim(evs[i].project);
    }
  }

  /** Sum of counter `c` over all projects. */
  ghost function Total(m: map<string, Stats>, c: Counter): nat
    decreases |m|
  {
    if m == map[] then 0
    else
      var k :| k in m;
      Get(m[k], c) + Total(m - {k}, c)
  }

  /** The sum can be split at any project, not only at the one `Total` picks. */
  lemma {:induction false} TotalRemove(m: map<string, Stats>, k: string, c: Counter)
    requires k in m
    ensures Total(m, c) == Get(m[k], c) + Total(m - {k}, c)
    decreases |m|
  {
    var j :| j in m && Total(m, c) == Get(m[j], c) + Total(m - {j}, c);
    if j != k {
      TotalRemove(m - {j}, k, c);
      TotalRemove(m - {k}, j, c);
      assert m - {j} - {k} == m - {k} - {j};
    }
  }

  lemma TotalUpdate(m: map<string, Stats>, k: string, v: Stats, c: Counter)
    ensures Total(m[k := v], c) == Total(m - {k}, c) + Get(v, c)
  {
    TotalRemove(m[k := v], k, c);
    assert m[k := v] - {k} == m - {k};
  }

  lemma TotalEntry(m: map<string, Stats>, k: string, c: Counter)
    ensures Total(m, c) == Total(m - {k}, c) + Get(Entry(m, k), c)
  {
    if k in m {
      TotalRemove(m, k, c);
    } else {
      assert m - {k} == m;
    }
  }

  /** Creating a zeroed entry leaves every sum as it was. */
  lemma TouchTotal(m: map<string, Stats>, name: string, c: Counter)
    ensures Total(Touch(m, name), c) == Total(m, c)
  {
    var key := Trim(name);
    if key !in m {
      TotalUpdate(m, key, Zero, c);
      assert m - {key} == m;
    }
  }

  /** An update raises the sum of its own counter by its amount and leaves the other sums alone. */
  lemma BumpTotal(m: map<string, Stats>, e: Event, c: Counter)
    ensures Total(Bump(m, e), c) == Total(m, c) + (if e.counter == c then e.amount else 0)
  {
    var key := Trim(e.project);
    TotalUpdate(m, key, Add(Entry(m, key), e.counter, e.amount), c);
    TotalEntry(m, key, c);
  }

  /** The sums after a batch are the sums before plus what the batch adds. */
  lemma {:induction false} ApplyTotal(m: map<string, Stats>, events: seq<Event>, c: Counter)
    ensures Total(Apply(m, events), c) == Total(m, c) + Amount(events, c)
    decreases |events|
  {
    if events != [] {
      var init := events[..|events| - 1];
      ApplyTotal(m, init, c);
      BumpTotal(Apply(m, init), events[|events| - 1], c);
    }
  }

  /** `ApplyTotal` for all three counters at once. */
  lemma ApplyTotals(m: map<string, Stats>, events: seq<Event>)
    ensures forall c :: Total(Apply(m, events), c) == Total(m, c) + Amount(events, c)
  {
    forall c ensures Total(Apply(m, events), c) == Total(m, c) + Amount(events, c) {
      ApplyTotal(m, events, c);
    }
  }

  /**
   * Each project's counters after a batch are its counters before (zero when
   * it was absent) plus what the batch adds to them.
   */
  lemma {:induction false} ApplyEntry(m: map<string, Stats>, events: seq<Event>, key: string, c: Counter)
    ensures Get(Entry(Apply(m, events), key), c) == Get(Entry(m, key), c) + AmountFor(events, key, c)
    decreases |events|
  {
    if events != [] {
      ApplyEntry(m, events[..|events| - 1], key, c);
    }
  }

  /** One more event adds its trimmed label. */
  lemma LabelsSnoc(init: seq<Event>, e: Event)
    ensures Labels(init + [e]) == Labels(init) + {Trim(e.project)}
  {
    var events := init + [e];
    forall l | l in Labels(events) ensures l in Labels(init) + {Trim(e.project)} {
      var i :| 0 <= i < |events| && l == Trim(events[i].project);
      if i < |init| {
        assert init[i] == events[i];
      }
    }
    forall l | l in Labels(init) ensures l in Labels(events) {
      var i :| 0 <= i < |init| && l == Trim(init[i].project);
      assert events[i] == init[i];
    }
    assert events[|init|] == e;
  }

  /** The labels of a non-empty batch are those of all but its last event, plus the last one's. */
  lemma LabelsLast(events: seq<Event>)
    requires events != []
    ensures Labels(events) == Labels(events[..|events| - 1]) + {Trim(events[|events| - 1].project)}
  {
    var n := |events| - 1;
    SplitLast(events);
    LabelsSnoc(events[..n], events[n]);
  }

  lemma {:induction false} ApplyKeys(m: map<string, Stats>, events: seq<Event>)
    ensures Apply(m, events).Keys == m.Keys + Labels(events)
    decreases |events|
  {
    if events != [] {
      var init := events[..|events| - 1];
      var last := events[|events| - 1];
      ApplyKeys(m, init);
      assert Apply(m, events).Keys == Apply(m, init).Keys + {Trim(last.project)};
      LabelsLast(events);
    }
  }

  /**
   * A PR or issue batch for counter `c`: the projects become the old ones plus
   * the trimmed labels; each project's `c` counter rises by the number of
   * labels naming it, and every other counter keeps its value.
   */
  lemma LabelBatchEffect(m: map<string, Stats>, labels: seq<string>, c: Counter, key: string, d: Counter)
    ensures Apply(m, LabelEvents(labels, c)).Keys == m.Keys + TrimmedLabels(labels)
    ensures Get(Entry(Apply(m, LabelEvents(labels, c)), key), d) == Get(Entry(m, key), d) + (if d == c then Occurrences(labels, key) else 0)
  {
    ApplyKeys(m, LabelEvents(labels, c));
    LabelEventsKeys(labels, c);
    ApplyEntry(m, LabelEvents(labels, c), key, d);
    LabelEventsAmounts(labels, c, key, d);
  }

  /** Two dictionaries with the same projects and the same counters are equal. */
  lemma MapsEqual(a: map<string, Stats>, b: map<string, Stats>)
    requires a.Keys == b.Keys
    requires forall k, c :: k in a ==> Get(a[k], c) == Get(b[k], c)
    ensures a == b
  {
    forall k | k in a ensures a[k] == b[k] {
      StatsEqual(a[k], b[k]);
    }
  }

  lemma {:induction false} AmountForAppend(a: seq<Event>, b: seq<Event>, key: string, c: Counter)
    ensures AmountFor(a + b, key, c) == AmountFor(a, key, c) + AmountFor(b, key, c)
    decreases |b|
  {
    if b == [] {
      assert a + b == a;
    } else {
      var init := b[..|b| - 1];
      assert (a + b)[..|a + b| - 1] == a + init;
      AmountForAppend(a, init, key, c);
    }
  }

  lemma {:induction false} AmountAppend(a: seq<Event>, b: seq<Event>, c: Counter)
    ensures Amount(a + b, c) == Amount(a, c) + Amount(b, c)
    decreases |b|
  {
    if b == [] {
      assert a + b == a;
    } else {
      var init := b[..|b| - 1];
      assert (a + b)[..|a + b| - 1] == a + init;
      AmountAppend(a, init, c);
    }
  }

  /** Applying two batches one after the other is applying their concatenation. */
  lemma {:induction false} ApplyAppend(m: map<string, Stats>, a: seq<Event>, b: seq<Event>)
    ensures Apply(Apply(m, a), b) == Apply(m, a + b)
    decreases |b|
  {
    if b == [] {
      assert a + b == a;
    } else {
      var init := b[..|b| - 1];
      assert (a + b)[..|a + b| - 1] == a + init;
      ApplyAppend(m, a, init);
    }
  }

  /** Taking out the element at `i` takes it out of the multiset. */
  lemma MultisetRemove<T>(b: seq<T>, i: nat)
    requires i < |b|
    ensures multiset(b[..i] + b[i + 1..]) == multiset(b) - multiset{b[i]}
  {
    assert b == b[..i] + [b[i]] + b[i + 1..];
    assert multiset(b) == multiset(b[..i]) + multiset{b[i]} + multiset(b[i + 1..]);
  }

  /** Taking out the last element takes it out of the multiset. */
  lemma MultisetRemoveLast<T>(a: seq<T>)
    requires a != []
    ensures multiset(a[..|a| - 1]) == multiset(a) - multiset{a[|a| - 1]}
  {
    assert a == a[..|a| - 1] + [a[|a| - 1]];
  }

  /** What the events around the one at `i` add, with and without it. */
  lemma AmountForSplit(b: seq<Event>, i: nat, key: string, c: Counter)
    requires i < |b|
    ensures AmountFor(b, key, c) == AmountFor(b[..i], key, c) + Share(b[i], key, c) + AmountFor(b[i + 1..], key, c)
    ensures AmountFor(b[..i] + b[i + 1..], key, c) == AmountFor(b[..i], key, c) + AmountFor(b[i + 1..], key, c)
  {
    assert b == b[..i] + [b[i]] + b[i + 1..];
    AmountForAppend(b[..i] + [b[i]], b[i + 1..], key, c);
    AmountForAppend(b[..i], [b[i]], key, c);
    AmountForAppend(b[..i], b[i + 1..], key, c);
    assert [b[i]][..0] == [];
  }

  /** The amounts a batch adds depend on which events it holds, not on their order. */
  lemma {:induction false} AmountForPermutation(a: seq<Event>, b: seq<Event>, key: string, c: Counter)
    requires multiset(a) == multiset(b)
    ensures AmountFor(a, key, c) == AmountFor(b, key, c)
    decreases |a|
  {
    if a != [] {
      var e := a[|a| - 1];
      var init := a[..|a| - 1];
      assert e in multiset(b);
      var i :| 0 <= i < |b| && b[i] == e;
      MultisetRemoveLast(a);
      MultisetRemove(b, i);
      AmountForPermutation(init, b[..i] + b[i + 1..], key, c);
      AmountForSplit(b, i, key, c);
    }
  }

  lemma LabelsPermutation(a: seq<Event>, b: seq<Event>)
    requires multiset(a) == multiset(b)
    ensures Labels(a) == Labels(b)
  {
    forall l | l in Labels(a) ensures l in Labels(b) {
      var i :| 0 <= i < |a| && l == Trim(a[i].project);
      assert a[i] in multiset(b);
      var j :| 0 <= j < |b| && b[j] == a[i];
    }
    forall l | l in Labels(b) ensures l in Labels(a) {
      var j :| 0 <= j < |b| && l == Trim(b[j].project);
      assert b[j] in multiset(a);
      var i :| 0 <= i < |a| && a[i] == b[j];
    }
  }

  /** Merging the same events in any order gives the same dictionary. */
  lemma ApplyPermutation(m: map<string, Stats>, a: seq<Event>, b: seq<Event>)
    requires multiset(a) == multiset(b)
    ensures Apply(m, a) == Apply(m, b)
  {
    ApplyKeys(m, a);
    ApplyKeys(m, b);
    LabelsPermutation(a, b);
    forall k, c | k in Apply(m, a) ensures Get(Apply(m, a)[k], c) == Get(Apply(m, b)[k], c) {
      ApplyEntry(m, a, k, c);
      ApplyEntry(m, b, k, c);
      AmountForPermutation(a, b, k, c);
    }
    MapsEqual(Apply(m, a), Apply(m, b));
  }

  /** Two batches commute. */
  lemma ApplyCommutes(m: map<string, Stats>, a: seq<Event>, b: seq<Event>)
    ensures Apply(Apply(m, a), b) == Apply(Apply(m, b), a)
  {
    ApplyAppend(m, a, b);
    ApplyAppend(m, b, a);
    assert multiset(a + b) == multiset(b + a);
    ApplyPermutation(m, a + b, b + a);
  }
}
