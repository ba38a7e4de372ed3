/**
 * `printStats`: one row per project, in ascending name order, then a final
 * row with the three global totals. The table's rendering is not modelled,
 * only the numbers its rows hold.
 */
module Report {
  import opened JsString
  import opened Order
  import opened Projects

  datatype Row = Row(name: string, commits: nat, pullRequests: nat, issues: nat, total: nat)

  const TotalLabel: string := "Total"

  /** A project row: its three counters and their sum. */
  function ProjectRow(name: string, s: Stats): Row {
    Row(name, s.commits, s.pullRequests, s.issues, s.commits + s.pullRequests + s.issues)
  }

  /** The final row: the three global totals and their sum. */
  function TotalRow(commitsTotal: nat, pullRequestsTotal: nat, issuesTotal: nat): Row {
    Row(TotalLabel, commitsTotal, pullRequestsTotal, issuesTotal, commitsTotal + pullRequestsTotal + issuesTotal)
  }

  /** The project rows for `keys`, in the order given. */
  function Rows(keys: seq<string>, m: map<string, Stats>): seq<Row> {
    seq(|keys|, i requires 0 <= i < |keys| => ProjectRow(keys[i], Entry(m, keys[i])))
  }

  /** The table: the project rows over the sorted keys, then the final row. */
  ghost function StatsTable(commitsTotal: nat, pullRequestsTotal: nat, issuesTotal: nat, m: map<string, Stats>): seq<Row> {
    Rows(SortedKeys(m.Keys), m) + [TotalRow(commitsTotal, pullRequestsTotal, issuesTotal)]
  }

  /** Column `c` of a row: its counter `c`. */
  function Column(r: Row, c: Counter): nat {
    Get(Stats(r.commits, r.pullRequests, r.issues), c)
  }

  /** Sum of column `c` over the rows. */
  function ColumnSum(rows: seq<Row>, c: Counter): nat
    decreases |rows|
  {
    if rows == [] then 0 else ColumnSum(rows[..|rows| - 1], c) + Column(rows[|rows| - 1], c)
  }

  /** Sum of the "Total" column over the rows. */
  function TotalSum(rows: seq<Row>): nat
    decreases |rows|
  {
    if rows == [] then 0 else TotalSum(rows[..|rows| - 1]) + rows[|rows| - 1].total
  }

  predicate Distinct(keys: seq<string>) {
    forall i, j :: 0 <= i < |keys| && 0 <= j < |keys| && i != j ==> keys[i] != keys[j]
  }

  /** Each row's "Total" cell is the sum of its three counters. */
  predicate RowAddsUp(r: Row) {
    r.total == r.commits + r.pullRequests + r.issues
  }

  /** The project rows over distinct keys that are exactly the projects. */
  lemma RowsShape(keys: seq<string>, m: map<string, Stats>)
    requires forall k :: k in m <==> k in keys
    ensures |Rows(keys, m)| == |keys|
    ensures forall i :: 0 <= i < |keys| ==> Rows(keys, m)[i].name == keys[i] && keys[i] in m
    ensures forall i :: 0 <= i < |keys| ==> Rows(keys, m)[i] == ProjectRow(keys[i], m[keys[i]])
    ensures forall k :: k in m ==> exists i :: 0 <= i < |keys| && Rows(keys, m)[i].name == k
    ensures forall i :: 0 <= i < |keys| ==> RowAddsUp(Rows(keys, m)[i])
  {
    forall k | k in m ensures exists i :: 0 <= i < |keys| && Rows(keys, m)[i].name == k {
      var i :| 0 <= i < |keys| && keys[i] == k;
      assert Rows(keys, m)[i].name == k;
    }
  }

  /** The sorted keys of a dictionary are distinct, ascending, and are exactly its keys. */
  lemma SortedKeysFacts(m: map<string, Stats>)
    ensures Distinct(SortedKeys(m.Keys)) && StrictlySorted(SortedKeys(m.Keys))
    ensures forall k :: k in m <==> k in SortedKeys(m.Keys)
    ensures |SortedKeys(m.Keys)| == |m.Keys|
  {
    var keys := SortedKeys(m.Keys);
    forall i, j | 0 <= i < |keys| && 0 <= j < |keys| && i != j ensures keys[i] != keys[j] {
      SortedDistinct(keys, i, j);
    }
  }

  /**
   * The table has one row per project and then the final row; the project
   * rows name every project once, in strictly ascending order, each with its
   * own counters; every row's total is the sum of its counters.
   */
  lemma StatsTableShape(commitsTotal: nat, pullRequestsTotal: nat, issuesTotal: nat, m: map<string, Stats>)
    ensures StatsTable(commitsTotal, pullRequestsTotal, issuesTotal, m) == Rows(SortedKeys(m.Keys), m) + [TotalRow(commitsTotal, pullRequestsTotal, issuesTotal)]
    ensures |Rows(SortedKeys(m.Keys), m)| == |m.Keys|
    ensures forall i :: 0 <= i < |m.Keys| ==> Rows(SortedKeys(m.Keys), m)[i].name in m
    ensures forall i :: 0 <= i < |m.Keys| ==> Rows(SortedKeys(m.Keys), m)[i] == ProjectRow(SortedKeys(m.Keys)[i], m[SortedKeys(m.Keys)[i]])
    ensures forall i, j :: 0 <= i < j < |m.Keys| ==> Less(Rows(SortedKeys(m.Keys), m)[i].name, Rows(SortedKeys(m.Keys), m)[j].name)
    ensures forall k :: k in m ==> exists i :: 0 <= i < |m.Keys| && Rows(SortedKeys(m.Keys), m)[i].name == k
    ensures forall i :: 0 <= i < |m.Keys| ==> RowAddsUp(Rows(SortedKeys(m.Keys), m)[i])
    ensures RowAddsUp(TotalRow(commitsTotal, pullRequestsTotal, issuesTotal))
  {
    SortedKeysFacts(m);
    RowsShape(SortedKeys(m.Keys), m);
  }

  /** Column `c` of a project row is counter `c` of its project. */
  lemma ColumnOfProjectRow(name: string, s: Stats, c: Counter)
    ensures Column(ProjectRow(name, s), c) == Get(s, c)
  {
  }

  /** Dropping the last of distinct keys leaves distinct keys that are exactly the other projects. */
  lemma DropLastKey(keys: seq<string>, m: map<string, Stats>)
    requires keys != [] && Distinct(keys)
    requires forall k :: k in m <==> k in keys
    ensures keys[|keys| - 1] in m && keys[|keys| - 1] !in keys[..|keys| - 1]
    ensures Distinct(keys[..|keys| - 1])
    ensures forall x :: x in keys[..|keys| - 1] <==> x in m && x != keys[|keys| - 1]
  {
    var k := keys[|keys| - 1];
    var init := keys[..|keys| - 1];
    assert k in keys;
    forall j | 0 <= j < |init| ensures init[j] != k {
      assert init[j] == keys[j];
    }
    forall i, j | 0 <= i < |init| && 0 <= j < |init| && i != j ensures init[i] != init[j] {
      assert init[i] == keys[i] && init[j] == keys[j];
    }
    forall x | x in init ensures x in m && x != k {
      var j :| 0 <= j < |init| && init[j] == x;
      assert keys[j] == x;
    }
    forall x | x in m && x != k ensures x in init {
      var j :| 0 <= j < |keys| && keys[j] == x;
      assert init[j] == x;
    }
  }

  /** Rows over keys that avoid `k` do not look at the entry for `k`. */
  lemma RowsWithout(keys: seq<string>, m: map<string, Stats>, k: string)
    requires k !in keys
    ensures Rows(keys, m - {k}) == Rows(keys, m)
  {
    forall i | 0 <= i < |keys| ensures Entry(m - {k}, keys[i]) == Entry(m, keys[i]) {
      assert keys[i] != k;
    }
  }

  /** Summed over distinct keys that are exactly the projects, column `c` adds up to the sum of counter `c`. */
  lemma {:induction false} RowsColumnSum(keys: seq<string>, m: map<string, Stats>, c: Counter)
    requires Distinct(keys)
    requires forall k :: k in m <==> k in keys
    ensures ColumnSum(Rows(keys, m), c) == Total(m, c)
    decreases |keys|
  {
    if keys == [] {
      assert m == map[];
    } else {
      var k := keys[|keys| - 1];
      var init := keys[..|keys| - 1];
      DropLastKey(keys, m);
      RowsColumnSum(init, m - {k}, c);
      RowsWithout(init, m, k);
      var rows := Rows(keys, m);
      assert rows[..|rows| - 1] == Rows(init, m);
      ColumnOfProjectRow(k, m[k], c);
      TotalRemove(m, k, c);
    }
  }

  /** On rows that add up, the "Total" column sums to the sum of the three counter columns. */
  lemma {:induction false} TotalSumColumns(rows: seq<Row>)
    requires forall i :: 0 <= i < |rows| ==> RowAddsUp(rows[i])
    ensures TotalSum(rows) == ColumnSum(rows, Commits) + ColumnSum(rows, PullRequests) + ColumnSum(rows, Issues)
    decreases |rows|
  {
    if rows != [] {
      var init := rows[..|rows| - 1];
      assert forall i :: 0 <= i < |init| ==> init[i] == rows[i];
      TotalSumColumns(init);
      assert RowAddsUp(rows[|rows| - 1]);
    }
  }

  /**
   * When each global total is the sum of its project counters (the
   * aggregator's invariant), each column of the final row is the sum of that
   * column over the project rows, and so is its "Total" cell.
   */
  lemma StatsTableBalanced(commitsTotal: nat, pullRequestsTotal: nat, issuesTotal: nat, m: map<string, Stats>)
    requires commitsTotal == Total(m, Commits)
    requires pullRequestsTotal == Total(m, PullRequests)
    requires issuesTotal == Total(m, Issues)
    ensures forall c :: ColumnSum(Rows(SortedKeys(m.Keys), m), c) == Column(TotalRow(commitsTotal, pullRequestsTotal, issuesTotal), c)
    ensures TotalSum(Rows(SortedKeys(m.Keys), m)) == TotalRow(commitsTotal, pullRequestsTotal, issuesTotal).total
  {
    SortedKeysFacts(m);
    RowsBalanced(SortedKeys(m.Keys), m);
    forall c ensures Column(TotalRow(commitsTotal, pullRequestsTotal, issuesTotal), c) == Total(m, c) {
      match c
      case Commits =>
      case PullRequests =>
      case Issues =>
    }
  }

  /** `StatsTableBalanced` for any distinct keys that are exactly the projects. */
  lemma RowsBalanced(keys: seq<string>, m: map<string, Stats>)
    requires Distinct(keys)
    requires forall k :: k in m <==> k in keys
    ensures forall c :: ColumnSum(Rows(keys, m), c) == Total(m, c)
    ensures TotalSum(Rows(keys, m)) == Total(m, Commits) + Total(m, PullRequests) + Total(m, Issues)
  {
    forall c ensures ColumnSum(Rows(keys, m), c) == Total(m, c) {
      RowsColumnSum(keys, m, c);
    }
    RowsShape(keys, m);
    TotalSumColumns(Rows(keys, m));
  }

  /**
   * `printStats` looks each listed key up again with `getProjectStats`; the
   * keys are trimmed, so the lookups find the existing entries and change
   * nothing.
   */
  lemma ReportLookupsChangeNothing(m: map<string, Stats>, k: string)
    requires forall key :: key in m ==> IsTrimmed(key)
    requires k in m
    ensures Touch(m, k) == m && Touch(m, k)[Trim(k)] == m[k]
  {
    TrimOfTrimmed(k);
    TouchUnchanged(m, k);
  }
}
