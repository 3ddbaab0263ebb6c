/** `generate_table_from_results`: a summary table of quantiles, one row per
    test, with a header row built from the caller's list of magnitude thresholds. */
module ResultsTable {
  import opened Wrappers
  import opened Dicts

  /** A table cell: a text label or a numeric value (a magnitude or a quantile). */
  datatype Cell = Text(text: string) | Number(value: real)

  /** The result of one test at one magnitude threshold; `quantile` is `None`
      when the result object has no `quantile` attribute. */
  datatype MwResult = MwResult(quantile: Option<real>)

  /** `results[test]`: magnitude threshold to result, in insertion order. */
  type TestResults = Dict<real, MwResult>

  /** A list owned by the caller (the `mws` argument), updated in place. */
  class CellList {
    var items: seq<Cell>

    constructor (items: seq<Cell>)
      ensures this.items == items
    {
      this.items := items;
    }
  }

  /** The default value of the `tests` parameter: a call that omits `tests`
      is `GenerateTable(results, mws, DefaultTests)`. */
  const DefaultTests: seq<string> := ["n-test", "m-test", "s-test", "ietd-test", "bv-test", "iedd-test"]

  function Bold(test: string): string {
    "<b>" + test + "</b>"
  }

  function QuantileCell(r: MwResult): seq<Cell> {
    match r.quantile
    case Some(q) => [Number(q)]
    case None => []
  }

  /** The quantiles of the results at thresholds `mws`, in that order, skipping
      results that have none. */
  function QuantileCells(mws: seq<real>, entries: map<real, MwResult>): seq<Cell>
    requires forall mw :: mw in mws ==> mw in entries
    decreases |mws|
  {
    if mws == [] then []
    else
      var last := mws[|mws| - 1];
      assert last in mws;
      QuantileCells(mws[..|mws| - 1], entries) + QuantileCell(entries[last])
  }

  /** The row of one test: its bold label, then its quantiles in key order. */
  function Row(test: string, testResults: TestResults): seq<Cell>
    requires testResults.Valid()
  {
    [Text(Bold(test))] + QuantileCells(testResults.keys, testResults.entries)
  }

  ghost predicate AllValid(results: map<string, TestResults>) {
    forall t :: t in results ==> results[t].Valid()
  }

  /** The rows of `tests`, in order, or `KeyError` for the first test that has no results. */
  function Rows(results: map<string, TestResults>, tests: seq<string>): Result<seq<seq<Cell>>, Exception>
    requires AllValid(results)
    decreases |tests|
  {
    if tests == [] then Success([])
    else
      match Rows(results, tests[..|tests| - 1])
      case Failure(e) => Failure(e)
      case Success(rows) =>
        var test := tests[|tests| - 1];
        if test in results then Success(rows + [Row(test, results[test])]) else Failure(KeyError(test))
  }

  /** The table: the header row `' '` followed by `mws`, then one row per test. */
  function Table(results: map<string, TestResults>, mws: seq<Cell>, tests: seq<string>): Result<seq<seq<Cell>>, Exception>
    requires AllValid(results)
  {
    match Rows(results, tests)
    case Failure(e) => Failure(e)
    case Success(rows) => Success([[Text(" ")] + mws] + rows)
  }

  /** `generate_table_from_results(results, mws, tests)`. The caller's `mws`
      gets `' '` inserted at its front before any lookup, so it is changed even
      when the lookup of a test then raises `KeyError`. */
  method GenerateTable(results: Dict<string, TestResults>, mws: CellList, tests: seq<string>)
    returns (outcome: Result<seq<seq<Cell>>, Exception>)
    requires AllValid(results.entries)
    modifies mws
    ensures mws.items == [Text(" ")] + old(mws.items)
    ensures outcome == Table(results.entries, old(mws.items), tests)
  {
    var table: seq<seq<Cell>> := [];
    var header := mws;
    header.items := [Text(" ")] + header.items;
    table := table + [header.items];
    assert tests[..0] == [] && table[1..] == [];
    assert Rows(results.entries, []) == Success([]);
    for t := 0 to |tests|
      invariant mws.items == [Text(" ")] + old(mws.items)
      invariant |table| == t + 1 && table[0] == mws.items
      invariant Rows(results.entries, tests[..t]) == Success(table[1..])
    {
      var test := tests[t];
      assert tests[..t + 1][..t] == tests[..t];
      var lookup := results.Get(test);
      if lookup.Failure? {
        assert tests[..t + 1][t] == test;
        assert Rows(results.entries, tests[..t + 1]) == Failure(KeyError(test));
        outcome := Failure(KeyError(test));
        TableOfPrefix(results.entries, old(mws.items), tests, t + 1);
        return;
      }
      var row := BuildRow(test, lookup.value);
      table := table + [row];
      assert table[1..] == table[1..t + 1] + [row];
    }
    assert tests[..|tests|] == tests;
    assert table == [table[0]] + table[1..];
    outcome := Success(table);
  }

  /** The body of the loop over `tests`: the bold label, then the quantile of
      each threshold in key order, skipping results that have none. */
  method BuildRow(test: string, testResults: TestResults) returns (row: seq<Cell>)
    requires testResults.Valid()
    ensures row == Row(test, testResults)
  {
    row := [Text(Bold(test))];
    for m := 0 to |testResults.keys|
      invariant row == [Text(Bold(test))] + QuantileCells(testResults.keys[..m], testResults.entries)
    {
      var mw := testResults.keys[m];
      assert testResults.keys[..m + 1][..m] == testResults.keys[..m];
      match testResults.entries[mw].quantile {
        case Some(q) => row := row + [Number(q)];
        case None =>
      }
    }
    assert testResults.keys[..|testResults.keys|] == testResults.keys;
  }

  /** A lookup failure at a prefix of `tests` is the failure of the whole table. */
  lemma {:induction false} TableOfPrefix(results: map<string, TestResults>, mws: seq<Cell>, tests: seq<string>, n: nat)
    requires AllValid(results) && n <= |tests| && Rows(results, tests[..n]).Failure?
    ensures Table(results, mws, tests) == Rows(results, tests[..n])
    decreases |tests| - n
  {
    if n < |tests| {
      assert tests[..n + 1][..n] == tests[..n];
      TableOfPrefix(results, mws, tests, n + 1);
    } else {
      assert tests[..n] == tests;
    }
  }

  /** The thresholds are visited in key order: the cells of a concatenation are
      the cells of its parts. */
  lemma {:induction false} QuantileCellsAppend(a: seq<real>, b: seq<real>, entries: map<real, MwResult>)
    requires forall mw :: mw in a + b ==> mw in entries
    ensures QuantileCells(a + b, entries) == QuantileCells(a, entries) + QuantileCells(b, entries)
    decreases |b|
  {
    if b == [] {
      assert a + b == a;
    } else {
      var init := b[..|b| - 1];
      assert (a + b)[..|a + b| - 1] == a + init;
      QuantileCellsAppend(a, init, entries);
    }
  }

  /** A result without a quantile is skipped, so a row has at most one cell per
      threshold, and every cell is the quantile of one of the thresholds. */
  lemma {:induction false} QuantileCellsBound(mws: seq<real>, entries: map<real, MwResult>)
    requires forall mw :: mw in mws ==> mw in entries
    ensures |QuantileCells(mws, entries)| <= |mws|
    ensures forall c :: c in QuantileCells(mws, entries) ==>
      c.Number? && exists mw :: mw in mws && entries[mw].quantile == Some(c.value)
    decreases |mws|
  {
    if mws != [] {
      var init, last := mws[..|mws| - 1], mws[|mws| - 1];
      assert forall mw :: mw in init ==> mw in mws;
      QuantileCellsBound(init, entries);
      assert last in mws;
    }
  }

  /** When every threshold has a quantile, the row lists all of them, in key order. */
  lemma {:induction false} QuantileCellsAllPresent(mws: seq<real>, entries: map<real, MwResult>)
    requires forall mw :: mw in mws ==> mw in entries && entries[mw].quantile.Some?
    ensures |QuantileCells(mws, entries)| == |mws|
    ensures forall i :: 0 <= i < |mws| ==>
      QuantileCells(mws, entries)[i].Number? && entries[mws[i]].quantile == Some(QuantileCells(mws, entries)[i].value)
    decreases |mws|
  {
    if mws != [] {
      var init := mws[..|mws| - 1];
      assert forall mw :: mw in init ==> mw in mws;
      QuantileCellsAllPresent(init, entries);
      assert mws[|mws| - 1] in mws;
      forall i | 0 <= i < |mws|
        ensures QuantileCells(mws, entries)[i].Number?
        ensures entries[mws[i]].quantile == Some(QuantileCells(mws, entries)[i].value)
      {
        if i < |init| {
          assert mws[i] == init[i];
        }
      }
    }
  }

  /** A test row: the bold test name, then at most one quantile per threshold. */
  lemma RowShape(test: string, testResults: TestResults)
    requires testResults.Valid()
    ensures Row(test, testResults)[0] == Text("<b>" + test + "</b>")
    ensures |Row(test, testResults)| <= 1 + |testResults.keys|
    ensures forall c :: c in Row(test, testResults)[1..] ==>
      c.Number? && exists mw :: mw in testResults.entries && testResults.entries[mw].quantile == Some(c.value)
  {
    QuantileCellsBound(testResults.keys, testResults.entries);
    assert Row(test, testResults)[1..] == QuantileCells(testResults.keys, testResults.entries);
  }

  /** The rows succeed exactly when every test has results; then there is one row
      per test, in order. */
  lemma {:induction false} RowsSucceed(results: map<string, TestResults>, tests: seq<string>)
    requires AllValid(results)
    ensures Rows(results, tests).Success? <==> forall k :: 0 <= k < |tests| ==> tests[k] in results
    ensures Rows(results, tests).Success? ==>
      && |Rows(results, tests).value| == |tests|
      && forall k :: 0 <= k < |tests| ==> Rows(results, tests).value[k] == Row(tests[k], results[tests[k]])
    decreases |tests|
  {
    if tests != [] {
      var n := |tests| - 1;
      var init := tests[..n];
      RowsSucceed(results, init);
      assert forall k :: 0 <= k < n ==> init[k] == tests[k];
      if Rows(results, init).Success? && tests[n] in results {
        var rows := Rows(results, init).value;
        assert Rows(results, tests).value == rows + [Row(tests[n], results[tests[n]])];
      }
    }
  }

  /** The rows fail with the `KeyError` of the first test that has no results. */
  lemma {:induction false} RowsFail(results: map<string, TestResults>, tests: seq<string>)
    requires AllValid(results)
    ensures Rows(results, tests).Failure? ==>
      exists k :: 0 <= k < |tests| && tests[k] !in results
        && Rows(results, tests).error == KeyError(tests[k])
        && forall j :: 0 <= j < k ==> tests[j] in results
    decreases |tests|
  {
    if tests != [] {
      var n := |tests| - 1;
      var init := tests[..n];
      RowsFail(results, init);
      match Rows(results, init)
      case Failure(e) =>
        var k :| 0 <= k < n && init[k] !in results && e == KeyError(init[k])
          && forall j :: 0 <= j < k ==> init[j] in results;
        assert tests[k] == init[k];
        assert forall j :: 0 <= j < k ==> tests[j] == init[j];
      case Success(rows) =>
        if tests[n] !in results {
          RowsSucceed(results, init);
          assert forall j :: 0 <= j < n ==> tests[j] == init[j];
        }
    }
  }

  /** The whole table: on success its header row is `' '` followed by the
      original `mws`, then one row per test; it fails with the `KeyError` of the
      first test missing from `results`, and only then. */
  lemma TableShape(results: map<string, TestResults>, mws: seq<Cell>, tests: seq<string>)
    requires AllValid(results)
    ensures Table(results, mws, tests).Success? <==> forall k :: 0 <= k < |tests| ==> tests[k] in results
    ensures Table(results, mws, tests).Success? ==>
      var table := Table(results, mws, tests).value;
      && |table| == |tests| + 1
      && table[0] == [Text(" ")] + mws
      && forall k :: 0 <= k < |tests| ==> table[k + 1] == Row(tests[k], results[tests[k]])
    ensures Table(results, mws, tests).Failure? ==>
      exists k :: 0 <= k < |tests| && tests[k] !in results
        && Table(results, mws, tests).error == KeyError(tests[k])
        && forall j :: 0 <= j < k ==> tests[j] in results
  {
    RowsSucceed(results, tests);
    RowsFail(results, tests);
  }
}
