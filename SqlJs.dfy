/** The embedded database engine (sql.js) as the script uses it, stated by
    its interface only: the engine's state is opaque, `exec` runs SQL and
    returns result sets, `run` runs SQL and returns nothing, and
    `getRowsModified` reads the number of rows the last statement changed.
    What the engine does with a statement is a parameter of the model. */
module SqlJs {

  /** A value as the script sees it: the cells sql.js returns (integers, text,
      NULL) and the JavaScript values the script derives from them. */
  datatype JsValue = Num(n: int) | Str(s: string) | Null | NaN | Undefined

  type Row = seq<JsValue>

  /** One element of what `exec` returns. sql.js reports a result set only
      for a statement that returned rows. */
  datatype ResultSet = ResultSet(columns: seq<string>, values: seq<Row>)

  /** The engine's answer to one call: its new state, and either a value or
      the message of the error it threw. A failing call still returns a
      state, because a text of several statements may have run some of them
      before the failure. */
  datatype Reply<D, T> = Ok(db: D, value: T) | Fail(db: D, message: string)

  datatype Engine<!D> = Engine(
    exec: (D, string) -> Reply<D, seq<ResultSet>>,
    run: (D, string) -> Reply<D, ()>,
    rowsModified: D -> nat)

  /** One call the script makes on the engine. */
  datatype Call = Exec(sql: string) | Run(sql: string)

  /** `row[0]`. */
  function Head(row: Row): JsValue {
    if |row| > 0 then row[0] else Undefined
  }

  /** `rows.map(row => row[0])`. */
  function RowidColumn(rows: seq<Row>): seq<JsValue> {
    seq(|rows|, k requires 0 <= k < |rows| => Head(rows[k]))
  }

  /** `rows.map(row => row.slice(1))`. */
  function StripRowid(rows: seq<Row>): seq<Row> {
    seq(|rows|, k requires 0 <= k < |rows| => if |rows[k]| > 0 then rows[k][1..] else [])
  }

  /** Stripping the first column loses nothing: the rowids and the remaining
      values are in the order of the rows, and each row is its rowid followed
      by its values. */
  lemma StripRowidRecombines(rows: seq<Row>)
    ensures |RowidColumn(rows)| == |rows| && |StripRowid(rows)| == |rows|
    ensures forall k | 0 <= k < |rows| && |rows[k]| > 0 ::
      rows[k] == [RowidColumn(rows)[k]] + StripRowid(rows)[k]
  {
    forall k | 0 <= k < |rows| && |rows[k]| > 0
      ensures rows[k] == [RowidColumn(rows)[k]] + StripRowid(rows)[k]
    {
      assert rows[k] == [rows[k][0]] + rows[k][1..];
    }
  }
}
