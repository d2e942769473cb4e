/** The script's module-level state (js/script.js:2-6) as an object, and
    `executeSQL` and the four confirmation handlers as methods that update
    it step by step, as the script does. Each method is proved to leave the
    state, and to return the result, that the functions of `Router` and
    `Guard` describe, so every property proved about those functions holds
    of the methods. */
module Script {
  import opened Wrappers
  import opened SqlJs
  import opened JsValues
  import opened SqlPatterns
  import opened JsText
  import opened Router
  import Guard

  class Session<D> {
    const engine: Engine<D>
    var db: D
    /** The calls made on the engine so far. */
    ghost var trace: seq<Call>
    var lastAffectedRows: map<string, Impact>
    var highlightType: Highlight
    var pendingDelete: Option<PendingDelete>
    var pendingDrop: Option<PendingDrop>

    ghost function Snapshot(): State<D>
      reads this
    {
      State(db, trace, lastAffectedRows, highlightType, pendingDelete, pendingDrop)
    }

    /** The state once `initDB` has opened a database: nothing recorded,
        nothing staged. */
    constructor (engine: Engine<D>, db: D)
      ensures this.engine == engine
      ensures Snapshot() == State(db, [], map[], Normal, None, None)
    {
      this.engine := engine;
      this.db := db;
      trace := [];
      lastAffectedRows := map[];
      highlightType := Normal;
      pendingDelete := None;
      pendingDrop := None;
    }

    /** `db.exec(q)`. */
    method DbExec(q: string) returns (r: Reply<D, seq<ResultSet>>)
      modifies this
      ensures r == engine.exec(old(db), q)
      ensures Snapshot() == AfterExec(old(Snapshot()), q, r)
    {
      r := engine.exec(db, q);
      db := r.db;
      trace := trace + [Exec(q)];
    }

    /** `db.run(q)`. */
    method DbRun(q: string) returns (r: Reply<D, ()>)
      modifies this
      ensures r == engine.run(old(db), q)
      ensures Snapshot() == AfterRun(old(Snapshot()), q, r)
    {
      r := engine.run(db, q);
      db := r.db;
      trace := trace + [Run(q)];
    }

    /** js/script.js:27-155. Each branch runs inside the `try`; a call on
        the engine that throws ends the branch, and the `catch` turns its
        message into the result while keeping the count already assigned. */
    method ExecuteSql(sql: string) returns (result: string, affected: nat)
      modifies this
      ensures var step := Router.ExecuteSql(engine, old(Snapshot()), sql);
        Snapshot() == step.after && Report(result, affected) == step.report
    {
      ExecuteSqlBranch(engine, Snapshot(), sql);
      var kind := Classify(sql);
      lastAffectedRows := map[];
      highlightType := Normal;
      if kind == SelectStmt {
        result, affected := Select(sql);
      } else if kind == InsertStmt {
        result, affected := Insert(sql);
      } else if kind == UpdateStmt {
        result, affected := Update(sql);
      } else if kind == DeleteStmt {
        result, affected := Delete(sql);
      } else if kind == DropStmt {
        result, affected := Drop(sql);
      } else {
        result, affected := RunStatement(sql);
      }
    }

    /** js/script.js:34-50. */
    method Select(sql: string) returns (result: string, affected: nat)
      modifies this
      ensures var step := SelectCase(engine, old(Snapshot()), sql);
        Snapshot() == step.after && Report(result, affected) == step.report
    {
      result, affected := "", 0;
      var res := DbExec(SelectWithRowid(sql));
      if res.Fail? {
        return ErrorText(res.message), affected;
      }
      if |res.value| > 0 {
        var rows := res.value[0].values;
        var rowids := RowidColumn(rows);
        var originalValues := StripRowid(rows);
        result := JsonRows(originalValues);
        affected := |originalValues|;
        var tableMatch := Group(sql, FromTable);
        if tableMatch.Some? {
          lastAffectedRows := lastAffectedRows[tableMatch.value := Rows(rowids)];
        }
      }
    }

    /** js/script.js:51-69: the statement with `RETURNING rowid` first; a
        throw or an empty answer falls back to running it as written. */
    method Insert(sql: string) returns (result: string, affected: nat)
      modifies this
      ensures var step := InsertCase(engine, old(Snapshot()), sql);
        Snapshot() == step.after && Report(result, affected) == step.report
    {
      var tableMatch := Group(sql, InsertTable);
      var res := DbExec(ReturningInsert(sql));
      if res.Ok? && |res.value| > 0 {
        var rowids := ParseAll(RowidColumn(res.value[0].values));
        affected := |rowids|;
        result := ExecutedText(affected);
        if tableMatch.Some? {
          lastAffectedRows := lastAffectedRows[tableMatch.value := Rows(rowids)];
        }
      } else {
        result, affected := InsertWithoutReturning(sql, tableMatch);
      }
    }

    /** js/script.js:70-89: the rowids are taken to be the `affected`
        consecutive ones ending with `last_insert_rowid()`. */
    method InsertWithoutReturning(sql: string, tableMatch: Option<string>) returns (result: string, affected: nat)
      modifies this
      ensures var step := InsertFallback(engine, old(Snapshot()), sql, tableMatch);
        Snapshot() == step.after && Report(result, affected) == step.report
    {
      affected := 0;
      var r := DbRun(sql);
      if r.Fail? {
        return ErrorText(r.message), affected;
      }
      affected := engine.rowsModified(db);
      result := ExecutedText(affected);
      var res2 := DbExec(LastRowidQuery);
      if res2.Fail? {
        return ErrorText(res2.message), affected;
      }
      if tableMatch.Some? && |res2.value| > 0 {
        if |res2.value[0].values| == 0 {
          return ErrorText(MissingRowMessage), affected;
        }
        var lastRowId := ParseInt(Head(res2.value[0].values[0]));
        var rowids := FallbackRange(lastRowId, affected);
        lastAffectedRows := lastAffectedRows[tableMatch.value := Rows(rowids)];
      }
    }

    /** js/script.js:78-87: the list built by the counting loop. */
    static method FallbackRange(lastRowId: JsValue, affected: nat) returns (rowids: seq<JsValue>)
      ensures rowids == FallbackRowids(lastRowId, affected)
    {
      if affected > 1 {
        var start := Offset(lastRowId, 1 - affected);
        rowids := [];
        var i := 0;
        while i < affected
          invariant 0 <= i <= affected
          invariant |rowids| == i
          invariant forall k | 0 <= k < i :: rowids[k] == Offset(start, k)
        {
          rowids := rowids + [Offset(start, i)];
          i := i + 1;
        }
      } else if affected == 1 {
        rowids := [lastRowId];
      } else {
        rowids := [];
      }
    }

    /** js/script.js:90-111. */
    method Update(sql: string) returns (result: string, affected: nat)
      modifies this
      ensures var step := UpdateCase(engine, old(Snapshot()), sql);
        Snapshot() == step.after && Report(result, affected) == step.report
    {
      var tableMatch := Group(sql, UpdateTable);
      if tableMatch.None? {
        result, affected := RunStatement(sql);
        return;
      }
      var table := tableMatch.value;
      affected := 0;
      var selectRes := DbExec(RowidQuery(table, sql));
      if selectRes.Fail? {
        return ErrorText(selectRes.message), affected;
      }
      var rowids := FirstRowids(selectRes.value);
      var r := DbRun(sql);
      if r.Fail? {
        return ErrorText(r.message), affected;
      }
      affected := engine.rowsModified(db);
      result := ExecutedText(affected);
      lastAffectedRows := lastAffectedRows[table := Rows(rowids)];
    }

    /** js/script.js:112-132: the DELETE is staged, not sent as typed. */
    method Delete(sql: string) returns (result: string, affected: nat)
      modifies this
      ensures var step := DeleteCase(engine, old(Snapshot()), sql);
        Snapshot() == step.after && Report(result, affected) == step.report
    {
      var tableMatch := Group(sql, DeleteTable);
      if tableMatch.None? {
        return "Invalid DELETE syntax", 0;
      }
      var table := tableMatch.value;
      affected := 0;
      var selectRes := DbExec(RowidQuery(table, sql));
      if selectRes.Fail? {
        return ErrorText(selectRes.message), affected;
      }
      var rowids := FirstRowids(selectRes.value);
      affected := |rowids|;
      result := DeletePreviewText(affected);
      lastAffectedRows := lastAffectedRows[table := Rows(rowids)];
      highlightType := Router.Delete;
      pendingDelete := Some(PendingDelete(sql, table, rowids));
    }

    /** js/script.js:133-144: the DROP is staged, nothing is sent. */
    method Drop(sql: string) returns (result: string, affected: nat)
      modifies this
      ensures var step := DropCase(old(Snapshot()), sql);
        Snapshot() == step.after && Report(result, affected) == step.report
    {
      var tableMatch := Group(sql, DropTable);
      if tableMatch.None? {
        return "Invalid DROP syntax", 0;
      }
      var table := tableMatch.value;
      lastAffectedRows := lastAffectedRows[table := All];
      highlightType := Router.Drop;
      affected := 1;
      result := DropPreviewText(table);
      pendingDrop := Some(PendingDrop(sql, table));
    }

    /** js/script.js:145-148: any other statement is run as written. */
    method RunStatement(sql: string) returns (result: string, affected: nat)
      modifies this
      ensures var step := RunCase(engine, old(Snapshot()), sql);
        Snapshot() == step.after && Report(result, affected) == step.report
    {
      affected := 0;
      var r := DbRun(sql);
      if r.Fail? {
        return ErrorText(r.message), affected;
      }
      affected := engine.rowsModified(db);
      result := ExecutedText(affected);
    }

    /** js/script.js:245-258. A failing run throws out of the handler, with
        the slot still staged. */
    method ConfirmDelete() returns (outcome: Guard.Outcome)
      modifies this
      ensures Guard.GuardStep(Snapshot(), outcome) == Guard.ConfirmDelete(engine, old(Snapshot()))
    {
      if pendingDelete.None? {
        return Guard.NoAction;
      }
      var p := pendingDelete.value;
      var r := DbRun(p.sql);
      if r.Fail? {
        return Guard.Raised(r.message);
      }
      outcome := Guard.Logged(Guard.DeletedText(p));
      pendingDelete := None;
      lastAffectedRows := map[];
      highlightType := Normal;
    }

    /** js/script.js:261-272. */
    method CancelDelete() returns (outcome: Guard.Outcome)
      modifies this
      ensures Guard.GuardStep(Snapshot(), outcome) == Guard.CancelDelete(old(Snapshot()))
    {
      if pendingDelete.None? {
        return Guard.NoAction;
      }
      outcome := Guard.Logged(Guard.DeleteCancelledText);
      pendingDelete := None;
      lastAffectedRows := map[];
      highlightType := Normal;
    }

    /** js/script.js:275-288. */
    method ConfirmDrop() returns (outcome: Guard.Outcome)
      modifies this
      ensures Guard.GuardStep(Snapshot(), outcome) == Guard.ConfirmDrop(engine, old(Snapshot()))
    {
      if pendingDrop.None? {
        return Guard.NoAction;
      }
      var p := pendingDrop.value;
      var r := DbRun(p.sql);
      if r.Fail? {
        return Guard.Raised(r.message);
      }
      outcome := Guard.Logged(Guard.DroppedText(p.table));
      pendingDrop := None;
      lastAffectedRows := map[];
      highlightType := Normal;
    }

    /** js/script.js:291-302. */
    method CancelDrop() returns (outcome: Guard.Outcome)
      modifies this
      ensures Guard.GuardStep(Snapshot(), outcome) == Guard.CancelDrop(old(Snapshot()))
    {
      if pendingDrop.None? {
        return Guard.NoAction;
      }
      outcome := Guard.Logged(Guard.DropCancelledText);
      pendingDrop := None;
      lastAffectedRows := map[];
      highlightType := Normal;
    }
  }
}
