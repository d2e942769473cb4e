/** The confirmation handlers (js/script.js:244-302): a staged DELETE or
    DROP is sent to the engine only by its confirm handler, and both the
    confirm and the cancel handler of a slot do nothing while that slot is
    empty. */
module Guard {
  import opened Wrappers
  import opened JsText
  import opened SqlJs
  import opened JsValues
  import opened SqlPatterns
  import opened Router

  /** What a handler leaves behind: nothing (the slot was empty), a log
      text, or an exception that escapes the click handler. */
  datatype Outcome = NoAction | Logged(log: string) | Raised(message: string)

  datatype GuardStep<D> = GuardStep(after: State<D>, outcome: Outcome)

  function DeletedText(p: PendingDelete): string {
    "Deleted " + NatText(|p.rowids|) + " rows from " + p.table
      + "\nDeleted row IDs: " + JoinValues(p.rowids, ", ")
  }

  function DroppedText(table: string): string {
    "Table " + table + " dropped"
  }

  const DeleteCancelledText := "Delete cancelled"
  const DropCancelledText := "Drop cancelled"

  /** js/script.js:245-258. */
  function ConfirmDelete<D>(e: Engine<D>, s: State<D>): (r: GuardStep<D>)
    ensures s.pendingDelete.None? ==> r == GuardStep(s, NoAction)
    ensures s.pendingDelete.Some? ==>
      var run := e.run(s.db, s.pendingDelete.value.sql);
      && r.after.trace == s.trace + [Run(s.pendingDelete.value.sql)]
      && r.after.db == run.db
      && (run.Ok? ==>
            && r.outcome == Logged(DeletedText(s.pendingDelete.value))
            && r.after.pendingDelete.None?
            && r.after.lastAffectedRows == map[]
            && r.after.highlightType == Normal)
      && (run.Fail? ==>
            && r.outcome == Raised(run.message)
            && r.after.pendingDelete == s.pendingDelete
            && r.after.lastAffectedRows == s.lastAffectedRows
            && r.after.highlightType == s.highlightType)
    ensures r.after.pendingDrop == s.pendingDrop
  {
    match s.pendingDelete
    case None => GuardStep(s, NoAction)
    case Some(p) =>
      var run := e.run(s.db, p.sql);
      var s1 := AfterRun(s, p.sql, run);
      if run.Fail? then GuardStep(s1, Raised(run.message))
      else GuardStep(s1.(pendingDelete := None, lastAffectedRows := map[], highlightType := Normal),
                     Logged(DeletedText(p)))
  }

  /** js/script.js:261-272. */
  function CancelDelete<D>(s: State<D>): (r: GuardStep<D>)
    ensures s.pendingDelete.None? ==> r == GuardStep(s, NoAction)
    ensures s.pendingDelete.Some? ==>
      && r.outcome == Logged(DeleteCancelledText)
      && r.after.pendingDelete.None?
      && r.after.lastAffectedRows == map[]
      && r.after.highlightType == Normal
    ensures r.after.db == s.db && r.after.trace == s.trace
    ensures r.after.pendingDrop == s.pendingDrop
  {
    if s.pendingDelete.None? then GuardStep(s, NoAction)
    else GuardStep(s.(pendingDelete := None, lastAffectedRows := map[], highlightType := Normal),
                   Logged(DeleteCancelledText))
  }

  /** js/script.js:275-288. */
  function ConfirmDrop<D>(e: Engine<D>, s: State<D>): (r: GuardStep<D>)
    ensures s.pendingDrop.None? ==> r == GuardStep(s, NoAction)
    ensures s.pendingDrop.Some? ==>
      var run := e.run(s.db, s.pendingDrop.value.sql);
      && r.after.trace == s.trace + [Run(s.pendingDrop.value.sql)]
      && r.after.db == run.db
      && (run.Ok? ==>
            && r.outcome == Logged(DroppedText(s.pendingDrop.value.table))
            && r.after.pendingDrop.None?
            && r.after.lastAffectedRows == map[]
            && r.after.highlightType == Normal)
      && (run.Fail? ==>
            && r.outcome == Raised(run.message)
            && r.after.pendingDrop == s.pendingDrop
            && r.after.lastAffectedRows == s.lastAffectedRows
            && r.after.highlightType == s.highlightType)
    ensures r.after.pendingDelete == s.pendingDelete
  {
    match s.pendingDrop
    case None => GuardStep(s, NoAction)
    case Some(p) =>
      var run := e.run(s.db, p.sql);
      var s1 := AfterRun(s, p.sql, run);
      if run.Fail? then GuardStep(s1, Raised(run.message))
      else GuardStep(s1.(pendingDrop := None, lastAffectedRows := map[], highlightType := Normal),
                     Logged(DroppedText(p.table)))
  }

  /** js/script.js:291-302. */
  function CancelDrop<D>(s: State<D>): (r: GuardStep<D>)
    ensures s.pendingDrop.None? ==> r == GuardStep(s, NoAction)
    ensures s.pendingDrop.Some? ==>
      && r.outcome == Logged(DropCancelledText)
      && r.after.pendingDrop.None?
      && r.after.lastAffectedRows == map[]
      && r.after.highlightType == Normal
    ensures r.after.db == s.db && r.after.trace == s.trace
    ensures r.after.pendingDelete == s.pendingDelete
  {
    if s.pendingDrop.None? then GuardStep(s, NoAction)
    else GuardStep(s.(pendingDrop := None, lastAffectedRows := map[], highlightType := Normal),
                   Logged(DropCancelledText))
  }

  /** Once a handler has emptied its slot, every further confirm or cancel
      of that slot is a no-op: the staged statement runs at most once per
      staging. */
  lemma DeleteHandlersAreOneShot<D>(e: Engine<D>, s: State<D>)
    ensures var a := ConfirmDelete(e, s);
      !a.outcome.Raised? ==>
        ConfirmDelete(e, a.after) == GuardStep(a.after, NoAction)
        && CancelDelete(a.after) == GuardStep(a.after, NoAction)
    ensures var a := CancelDelete(s);
      ConfirmDelete(e, a.after) == GuardStep(a.after, NoAction)
      && CancelDelete(a.after) == GuardStep(a.after, NoAction)
  {
  }

  lemma DropHandlersAreOneShot<D>(e: Engine<D>, s: State<D>)
    ensures var a := ConfirmDrop(e, s);
      !a.outcome.Raised? ==>
        ConfirmDrop(e, a.after) == GuardStep(a.after, NoAction)
        && CancelDrop(a.after) == GuardStep(a.after, NoAction)
    ensures var a := CancelDrop(s);
      ConfirmDrop(e, a.after) == GuardStep(a.after, NoAction)
      && CancelDrop(a.after) == GuardStep(a.after, NoAction)
  {
  }

  /** A previewed DELETE followed by its confirmation sends the engine the
      rowid pre-query and then the statement exactly as typed, once; the
      log names the rowids the preview captured. */
  lemma PreviewedDeleteRunsOnConfirm<D>(e: Engine<D>, s: State<D>, sql: string, table: string)
    requires Classify(sql) == DeleteStmt && Group(sql, DeleteTable) == Some(table)
    requires e.exec(s.db, RowidQuery(table, sql)).Ok?
    ensures var q := RowidQuery(table, sql);
      var r := e.exec(s.db, q);
      var preview := ExecuteSql(e, s, sql).after;
      var done := ConfirmDelete(e, preview);
      && done.after.trace == s.trace + [Exec(q), Run(sql)]
      && done.after.db == e.run(r.db, sql).db
      && (e.run(r.db, sql).Ok? ==>
            done.outcome == Logged(DeletedText(PendingDelete(sql, table, FirstRowids(r.value)))))
  {
    DeleteIsOnlyPreviewed(e, s, sql, table);
  }

  /** A previewed DELETE that is cancelled is never sent as typed: the only
      call made is the rowid pre-query of the preview, which carries the rest
      of the statement's WHERE line. */
  lemma PreviewedDeleteCancelled<D>(e: Engine<D>, s: State<D>, sql: string, table: string)
    requires Classify(sql) == DeleteStmt && Group(sql, DeleteTable) == Some(table)
    requires e.exec(s.db, RowidQuery(table, sql)).Ok?
    ensures var q := RowidQuery(table, sql);
      var done := CancelDelete(ExecuteSql(e, s, sql).after);
      && done.after.trace == s.trace + [Exec(q)]
      && done.after.db == e.exec(s.db, q).db
      && done.outcome == Logged(DeleteCancelledText)
      && done.after.pendingDelete.None?
      && done.after.pendingDrop == s.pendingDrop
  {
    DeleteIsOnlyPreviewed(e, s, sql, table);
  }

  /** A previewed DROP followed by its confirmation sends the statement
      exactly as typed, once, and nothing before it. */
  lemma PreviewedDropRunsOnConfirm<D>(e: Engine<D>, s: State<D>, sql: string, table: string)
    requires Classify(sql) == DropStmt && Group(sql, DropTable) == Some(table)
    ensures var done := ConfirmDrop(e, ExecuteSql(e, s, sql).after);
      && done.after.trace == s.trace + [Run(sql)]
      && done.after.db == e.run(s.db, sql).db
      && (e.run(s.db, sql).Ok? ==> done.outcome == Logged(DroppedText(table)))
  {
    DropIsOnlyPreviewed(e, s, sql, table);
  }

  /** A previewed DROP that is cancelled leaves the database and the calls
      made on it exactly as they were before the statement was typed. */
  lemma PreviewedDropCancelled<D>(e: Engine<D>, s: State<D>, sql: string, table: string)
    requires Classify(sql) == DropStmt && Group(sql, DropTable) == Some(table)
    ensures var done := CancelDrop(ExecuteSql(e, s, sql).after);
      && done.after.trace == s.trace
      && done.after.db == s.db
      && done.after.pendingDrop.None?
      && done.after.pendingDelete == s.pendingDelete
      && done.after.lastAffectedRows == map[]
      && done.after.highlightType == Normal
  {
    DropIsOnlyPreviewed(e, s, sql, table);
  }
}
