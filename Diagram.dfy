/** The highlight decisions of `renderDiagram` (js/script.js:158-215): a
    table box is highlighted when its whole table is marked, a row when its
    rowid, read back with `parseInt`, is among the rowids marked for its
    table. The highlight carries the current highlight kind as a class. */
module Diagram {
  import opened Wrappers
  import opened SqlJs
  import opened JsValues
  import opened SqlPatterns
  import opened Router
  import opened Guard

  /** js/script.js:170-172: the class added to the box of table `name`, if
      any. */
  function TableHighlight<D>(s: State<D>, name: string): Option<Highlight> {
    if name in s.lastAffectedRows && s.lastAffectedRows[name] == All then Some(s.highlightType)
    else None
  }

  /** js/script.js:197-200: the class added to a row of table `name`, whose
      first cell is its rowid. `Array.prototype.includes` compares by
      SameValueZero, which on these values is equality (NaN included). */
  function RowHighlight<D>(s: State<D>, name: string, row: Row): Option<Highlight> {
    if name in s.lastAffectedRows && s.lastAffectedRows[name].Rows?
       && ParseInt(Head(row)) in s.lastAffectedRows[name].ids
    then Some(s.highlightType)
    else None
  }

  /** No table is both highlighted as a whole and row by row. */
  lemma TableOrRows<D>(s: State<D>, name: string, row: Row)
    ensures TableHighlight(s, name).None? || RowHighlight(s, name, row).None?
  {
  }

  /** After any statement at most one table carries highlights, and only the
      table its own branch names. */
  lemma OnlyTheStatementsTable<D>(e: Engine<D>, s: State<D>, sql: string, name: string, row: Row)
    requires TableOf(sql) != Some(name)
    ensures var a := ExecuteSql(e, s, sql).after;
      TableHighlight(a, name).None? && RowHighlight(a, name, row).None?
  {
    ResetOnEveryCall(e, s, sql);
  }

  /** After a DROP preview the dropped table's box, and no row, carries the
      `drop` highlight. */
  lemma DropPreviewHighlightsTable<D>(e: Engine<D>, s: State<D>, sql: string, table: string, row: Row)
    requires Classify(sql) == DropStmt && Group(sql, DropTable) == Some(table)
    ensures var a := ExecuteSql(e, s, sql).after;
      TableHighlight(a, table) == Some(Drop) && RowHighlight(a, table, row).None?
  {
    DropIsOnlyPreviewed(e, s, sql, table);
    var a := ExecuteSql(e, s, sql).after;
    assert a == s.(lastAffectedRows := map[table := All], highlightType := Drop,
                   pendingDrop := Some(PendingDrop(sql, table)));
    assert table in a.lastAffectedRows && a.lastAffectedRows[table] == All;
  }

  /** After a DELETE preview exactly the rows whose rowid the pre-query
      returned carry the `delete` highlight, and the box does not. */
  lemma DeletePreviewHighlightsRows<D>(e: Engine<D>, s: State<D>, sql: string, table: string, row: Row)
    requires Classify(sql) == DeleteStmt && Group(sql, DeleteTable) == Some(table)
    requires e.exec(s.db, RowidQuery(table, sql)).Ok?
    ensures var a := ExecuteSql(e, s, sql).after;
      var ids := FirstRowids(e.exec(s.db, RowidQuery(table, sql)).value);
      && TableHighlight(a, table).None?
      && (RowHighlight(a, table, row).Some? <==> ParseInt(Head(row)) in ids)
      && (RowHighlight(a, table, row).Some? ==> RowHighlight(a, table, row) == Some(Delete))
  {
    DeleteIsOnlyPreviewed(e, s, sql, table);
  }

  /** After a SELECT, a row whose rowid is an integer is highlighted exactly
      when the SELECT returned that rowid: `parseInt` gives the number back
      unchanged, so the raw rowids the SELECT recorded match. */
  lemma SelectHighlightsReturnedRows<D>(e: Engine<D>, s: State<D>, sql: string, table: string, rowid: int, rest: Row)
    requires Classify(sql) == SelectStmt && Group(sql, FromTable) == Some(table)
    requires var r := e.exec(s.db, SelectWithRowid(sql)); r.Ok? && |r.value| > 0
    ensures var r := e.exec(s.db, SelectWithRowid(sql));
      var a := ExecuteSql(e, s, sql).after;
      && (RowHighlight(a, table, [Num(rowid)] + rest).Some? <==> Num(rowid) in RowidColumn(r.value[0].values))
      && (RowHighlight(a, table, [Num(rowid)] + rest).Some? ==> RowHighlight(a, table, [Num(rowid)] + rest) == Some(Normal))
  {
    SelectStripsRowid(e, s, sql);
    ParseIntOfNumber(rowid);
    assert Head([Num(rowid)] + rest) == Num(rowid);
  }

  /** A confirm that went through, or a cancel, leaves nothing highlighted. */
  lemma HandlersClearHighlights<D>(e: Engine<D>, s: State<D>, name: string, row: Row)
    ensures var a := ConfirmDelete(e, s);
      a.outcome.Logged? ==> TableHighlight(a.after, name).None? && RowHighlight(a.after, name, row).None?
    ensures var a := ConfirmDrop(e, s);
      a.outcome.Logged? ==> TableHighlight(a.after, name).None? && RowHighlight(a.after, name, row).None?
    ensures var a := CancelDelete(s);
      a.outcome.Logged? ==> TableHighlight(a.after, name).None? && RowHighlight(a.after, name, row).None?
    ensures var a := CancelDrop(s);
      a.outcome.Logged? ==> TableHighlight(a.after, name).None? && RowHighlight(a.after, name, row).None?
  {
  }
}
