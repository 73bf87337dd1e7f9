/**
 * `execute_sql_query` of the back end: turns the fetched rows of a query
 * into one column-name-to-value record per row and wraps them, or the
 * error, in the result record the API returns. Running the statement on
 * the database is not modelled: its outcome is an input.
 */
module Database {
  import opened Wrappers

  /** A value of a fetched row; `Null` is SQL `NULL` and Python `None`. */
  datatype SqlValue = Null | Integer(i: int) | TextValue(s: string)

  /**
   * What running the statement gave: an exception with its message, or a
   * result whose column names (`keys()`, absent on results without them)
   * and fetched rows are known.
   */
  datatype Execution =
    | Raised(message: string)
    | Fetched(keys: Option<seq<string>>, rows: seq<seq<SqlValue>>)

  /** The record `execute_sql_query` returns. */
  datatype QueryResult = QueryResult(
    success: bool,
    data: seq<map<string, SqlValue>>,
    columns: seq<string>,
    rowCount: nat,
    error: Option<string>)

  /** The column names of a result, or none when the result has no `keys`. */
  function ColumnsOf(keys: Option<seq<string>>): seq<string> {
    match keys
    case None => []
    case Some(names) => names
  }

  /** The value stored for position `i`: the row's own value, or `None` past its end. */
  function CellAt(row: seq<SqlValue>, i: nat): SqlValue {
    if i < |row| then row[i] else Null
  }

  /**
   * The record after storing the first `|columns|` positions of `row`, one
   * assignment per column in order, so a repeated name keeps the value of
   * its last position.
   */
  function RowDict(row: seq<SqlValue>, columns: seq<string>): map<string, SqlValue>
    decreases |columns|
  {
    if columns == [] then map[]
    else RowDict(row, columns[..|columns| - 1])[columns[|columns| - 1] := CellAt(row, |columns| - 1)]
  }

  /** The record has exactly the column names as keys; duplicates collapse into one key. */
  lemma {:induction false} RowDictKeys(row: seq<SqlValue>, columns: seq<string>)
    ensures RowDict(row, columns).Keys == set c | c in columns
    decreases |columns|
  {
    if columns != [] {
      var init := columns[..|columns| - 1];
      RowDictKeys(row, init);
      assert columns == init + [columns[|columns| - 1]];
    }
  }

  /**
   * The value under a column name is the row's value at the LAST position
   * carrying that name, or `None` when the row is shorter than that.
   */
  lemma {:induction false} RowDictValue(row: seq<SqlValue>, columns: seq<string>, i: nat)
    requires i < |columns|
    requires forall j :: i < j < |columns| ==> columns[j] != columns[i]
    ensures columns[i] in RowDict(row, columns)
    ensures RowDict(row, columns)[columns[i]] == if i < |row| then row[i] else Null
    decreases |columns|
  {
    if i < |columns| - 1 {
      RowDictValue(row, columns[..|columns| - 1], i);
    }
  }

  /**
   * `execute_sql_query`: on an exception, a failed result carrying the
   * message and nothing else; otherwise one record per fetched row, in
   * fetch order, each built from the column names (all empty when the
   * result has no names), with the row count equal to the number of
   * records and no error.
   */
  method ExecuteSqlQuery(outcome: Execution) returns (result: QueryResult)
    ensures outcome.Raised? ==> result == QueryResult(false, [], [], 0, Some(outcome.message))
    ensures outcome.Fetched? ==>
              && result.success && result.error == None
              && (outcome.keys.Some? ==> result.columns == outcome.keys.value)
              && (outcome.keys.None? ==> result.columns == [] && forall n :: 0 <= n < |result.data| ==> result.data[n] == map[])
              && |result.data| == |outcome.rows| == result.rowCount
              && forall n :: 0 <= n < |outcome.rows| ==> result.data[n] == RowDict(outcome.rows[n], result.columns)
  {
    match outcome
    case Raised(message) =>
      result := QueryResult(false, [], [], 0, Some(message));
    case Fetched(keys, rows) =>
      var columns := ColumnsOf(keys);
      var data: seq<map<string, SqlValue>> := [];
      var n := 0;
      while n < |rows|
        invariant 0 <= n <= |rows|
        invariant |data| == n
        invariant forall m :: 0 <= m < n ==> data[m] == RowDict(rows[m], columns)
      {
        var row := rows[n];
        var rowDict: map<string, SqlValue> := map[];
        var i := 0;
        while i < |columns|
          invariant 0 <= i <= |columns|
          invariant rowDict == RowDict(row, columns[..i])
        {
          assert columns[..i + 1][..i] == columns[..i];
          rowDict := rowDict[columns[i] := if i < |row| then row[i] else Null];
          i := i + 1;
        }
        assert columns[..|columns|] == columns;
        data := data + [rowDict];
        n := n + 1;
      }
      result := QueryResult(true, data, columns, |data|, None);
  }
}
