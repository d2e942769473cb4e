/** `executeSQL` (js/script.js:27-155) as a function of the session state:
    it resets the impact map and the highlight kind, classifies the
    statement by its leading keyword, talks to the engine as the branch of
    that keyword does, and reports a message and a number of affected rows.
    Every call on the engine is appended to the state's `trace`, so that
    what each branch sends to the engine can be stated. */
module Router {
  import opened Wrappers
  import opened JsText
  import opened SqlPatterns
  import opened SqlJs
  import opened JsValues

  /** What a statement did or will do to one table: some of its rows, by
      rowid, or the whole table (`'all'`). */
  datatype Impact = All | Rows(ids: seq<JsValue>)

  datatype Highlight = Normal | Delete | Drop

  datatype PendingDelete = PendingDelete(sql: string, table: string, rowids: seq<JsValue>)

  datatype PendingDrop = PendingDrop(sql: string, table: string)

  /** The module-level state of the script (js/script.js:2-6), with the
      calls made on the engine so far. */
  datatype State<D> = State(
    db: D,
    trace: seq<Call>,
    lastAffectedRows: map<string, Impact>,
    highlightType: Highlight,
    pendingDelete: Option<PendingDelete>,
    pendingDrop: Option<PendingDrop>)

  /** `{ result, affected }`. */
  datatype Report = Report(result: string, affected: nat)

  datatype Step<D> = Step(after: State<D>, report: Report)

  const LastRowidQuery := "SELECT last_insert_rowid()"

  /** What V8 throws when the script reads `values[0][0]` of a result set
      without rows. */
  const MissingRowMessage := "Cannot read properties of undefined (reading '0')"

  function ErrorText(message: string): string {
    "Error: " + message
  }

  function ExecutedText(n: nat): string {
    "Executed successfully, affected rows: " + NatText(n)
  }

  function DeletePreviewText(n: nat): string {
    "Preview: " + NatText(n) + " rows will be deleted. Confirm?"
  }

  function DropPreviewText(table: string): string {
    "Preview: Table " + table + " will be dropped. Confirm?"
  }

  function AfterExec<D>(s: State<D>, q: string, r: Reply<D, seq<ResultSet>>): State<D> {
    s.(db := r.db, trace := s.trace + [Exec(q)])
  }

  function AfterRun<D>(s: State<D>, q: string, r: Reply<D, ()>): State<D> {
    s.(db := r.db, trace := s.trace + [Run(q)])
  }

  function Record<D>(s: State<D>, table: string, impact: Impact): State<D> {
    s.(lastAffectedRows := s.lastAffectedRows[table := impact])
  }

  /** The first column of the first result set, or nothing. */
  function FirstRowids(res: seq<ResultSet>): seq<JsValue> {
    if |res| > 0 then RowidColumn(res[0].values) else []
  }

  function ParseAll(values: seq<JsValue>): seq<JsValue> {
    seq(|values|, k requires 0 <= k < |values| => ParseInt(values[k]))
  }

  /** `start, start + 1, ..., start + n - 1`. */
  function Range(start: JsValue, n: nat): seq<JsValue> {
    seq(n, k requires 0 <= k < n => Offset(start, k))
  }

  /** The rowids of an INSERT that did not return them (js/script.js:78-87):
      the `n` consecutive rowids ending with the last inserted one. */
  function FallbackRowids(last: JsValue, n: nat): seq<JsValue> {
    if n > 1 then Range(Offset(last, 1 - n), n)
    else if n == 1 then [last]
    else []
  }

  /** The pattern of the table name each branch records its impact under. */
  function TablePattern(kind: Kind): Option<Pattern> {
    match kind
    case SelectStmt => Some(FromTable)
    case InsertStmt => Some(InsertTable)
    case UpdateStmt => Some(UpdateTable)
    case DeleteStmt => Some(DeleteTable)
    case DropStmt => Some(DropTable)
    case OtherStmt => None
  }

  /** The table a statement names for its branch, if any. */
  function TableOf(sql: string): Option<string> {
    match TablePattern(Classify(sql))
    case None => None
    case Some(p) => Group(sql, p)
  }

  function ExecuteSql<D>(e: Engine<D>, s: State<D>, sql: string): Step<D> {
    var cleared := s.(lastAffectedRows := map[], highlightType := Normal);
    match Classify(sql)
    case SelectStmt => SelectCase(e, cleared, sql)
    case InsertStmt => InsertCase(e, cleared, sql)
    case UpdateStmt => UpdateCase(e, cleared, sql)
    case DeleteStmt => DeleteCase(e, cleared, sql)
    case DropStmt => DropCase(cleared, sql)
    case OtherStmt => RunCase(e, cleared, sql)
  }

  /** js/script.js:34-50. */
  function SelectCase<D>(e: Engine<D>, s: State<D>, sql: string): Step<D> {
    var q := SelectWithRowid(sql);
    var r := e.exec(s.db, q);
    var s1 := AfterExec(s, q, r);
    if r.Fail? then Step(s1, Report(ErrorText(r.message), 0))
    else if |r.value| == 0 then Step(s1, Report("", 0))
    else
      var rows := r.value[0].values;
      var s2 := match Group(sql, FromTable)
        case Some(table) => Record(s1, table, Rows(RowidColumn(rows)))
        case None => s1;
      Step(s2, Report(JsonRows(StripRowid(rows)), |rows|))
  }

  /** js/script.js:51-69: the statement with `RETURNING rowid`, and the
      fallback when that throws or returns no rows. */
  function InsertCase<D>(e: Engine<D>, s: State<D>, sql: string): Step<D> {
    var table := Group(sql, InsertTable);
    var q := ReturningInsert(sql);
    var r := e.exec(s.db, q);
    var s1 := AfterExec(s, q, r);
    if r.Ok? && |r.value| > 0 then
      var ids := ParseAll(RowidColumn(r.value[0].values));
      var s2 := match table
        case Some(t) => Record(s1, t, Rows(ids))
        case None => s1;
      Step(s2, Report(ExecutedText(|ids|), |ids|))
    else InsertFallback(e, s1, sql, table)
  }

  /** js/script.js:70-89. */
  function InsertFallback<D>(e: Engine<D>, s: State<D>, sql: string, table: Option<string>): Step<D> {
    var r := e.run(s.db, sql);
    var s1 := AfterRun(s, sql, r);
    if r.Fail? then Step(s1, Report(ErrorText(r.message), 0))
    else
      var n := e.rowsModified(r.db);
      var r2 := e.exec(s1.db, LastRowidQuery);
      var s2 := AfterExec(s1, LastRowidQuery, r2);
      if r2.Fail? then Step(s2, Report(ErrorText(r2.message), n))
      else if table.None? || |r2.value| == 0 then Step(s2, Report(ExecutedText(n), n))
      else if |r2.value[0].values| == 0 then Step(s2, Report(ErrorText(MissingRowMessage), n))
      else
        var last := ParseInt(Head(r2.value[0].values[0]));
        Step(Record(s2, table.value, Rows(FallbackRowids(last, n))), Report(ExecutedText(n), n))
  }

  /** js/script.js:90-111. */
  function UpdateCase<D>(e: Engine<D>, s: State<D>, sql: string): Step<D> {
    match Group(sql, UpdateTable)
    case None => RunCase(e, s, sql)
    case Some(table) =>
      var q := RowidQuery(table, sql);
      var r := e.exec(s.db, q);
      var s1 := AfterExec(s, q, r);
      if r.Fail? then Step(s1, Report(ErrorText(r.message), 0))
      else
        var ids := FirstRowids(r.value);
        var r2 := e.run(s1.db, sql);
        var s2 := AfterRun(s1, sql, r2);
        if r2.Fail? then Step(s2, Report(ErrorText(r2.message), 0))
        else
          var n := e.rowsModified(r2.db);
          Step(Record(s2, table, Rows(ids)), Report(ExecutedText(n), n))
  }

  /** js/script.js:112-132: the rowids are looked up, the DELETE is staged. */
  function DeleteCase<D>(e: Engine<D>, s: State<D>, sql: string): Step<D> {
    match Group(sql, DeleteTable)
    case None => Step(s, Report("Invalid DELETE syntax", 0))
    case Some(table) =>
      var q := RowidQuery(table, sql);
      var r := e.exec(s.db, q);
      var s1 := AfterExec(s, q, r);
      if r.Fail? then Step(s1, Report(ErrorText(r.message), 0))
      else
        var ids := FirstRowids(r.value);
        var s2 := Record(s1, table, Rows(ids)).(
          highlightType := Delete,
          pendingDelete := Some(PendingDelete(sql, table, ids)));
        Step(s2, Report(DeletePreviewText(|ids|), |ids|))
  }

  /** js/script.js:133-144: the DROP is staged, nothing is sent. */
  function DropCase<D>(s: State<D>, sql: string): Step<D> {
    match Group(sql, DropTable)
    case None => Step(s, Report("Invalid DROP syntax", 0))
    case Some(table) =>
      var s1 := Record(s, table, All).(
        highlightType := Drop,
        pendingDrop := Some(PendingDrop(sql, table)));
      Step(s1, Report(DropPreviewText(table), 1))
  }

  /** js/script.js:145-148, and 107-110 for an UPDATE without a table. */
  function RunCase<D>(e: Engine<D>, s: State<D>, sql: string): Step<D> {
    var r := e.run(s.db, sql);
    var s1 := AfterRun(s, sql, r);
    if r.Fail? then Step(s1, Report(ErrorText(r.message), 0))
    else
      var n := e.rowsModified(r.db);
      Step(s1, Report(ExecutedText(n), n))
  }

  /** What a branch that stages nothing keeps: the impact map, empty when
      the branch starts, names no table but `table`, and the highlight and
      both pending slots are untouched. */
  ghost predicate StagesNothing<D>(s: State<D>, a: State<D>, table: Option<string>) {
    && (forall t | t in a.lastAffectedRows :: table == Some(t))
    && a.highlightType == s.highlightType
    && a.pendingDelete == s.pendingDelete
    && a.pendingDrop == s.pendingDrop
  }

  /** What a call that ends in an error leaves: no impact recorded, the
      normal highlight, and both pending slots as they were. */
  ghost predicate Unstaged<D>(s: State<D>, a: State<D>) {
    && a.lastAffectedRows == map[]
    && a.highlightType == Normal
    && a.pendingDelete == s.pendingDelete
    && a.pendingDrop == s.pendingDrop
  }

  lemma SelectStagesNothing<D>(e: Engine<D>, s: State<D>, sql: string)
    requires s.lastAffectedRows == map[]
    ensures StagesNothing(s, SelectCase(e, s, sql).after, Group(sql, FromTable))
  {
  }

  lemma InsertStagesNothing<D>(e: Engine<D>, s: State<D>, sql: string)
    requires s.lastAffectedRows == map[]
    ensures StagesNothing(s, InsertCase(e, s, sql).after, Group(sql, InsertTable))
  {
    var q := ReturningInsert(sql);
    var r := e.exec(s.db, q);
    if !(r.Ok? && |r.value| > 0) {
      var s1 := AfterExec(s, q, r);
      assert InsertCase(e, s, sql) == InsertFallback(e, s1, sql, Group(sql, InsertTable));
    }
  }

  lemma UpdateStagesNothing<D>(e: Engine<D>, s: State<D>, sql: string)
    requires s.lastAffectedRows == map[]
    ensures StagesNothing(s, UpdateCase(e, s, sql).after, Group(sql, UpdateTable))
  {
    match Group(sql, UpdateTable)
    case None =>
      assert UpdateCase(e, s, sql) == RunCase(e, s, sql);
    case Some(table) =>
      var q := RowidQuery(table, sql);
      var r := e.exec(s.db, q);
      var s1 := AfterExec(s, q, r);
      if r.Ok? {
        var r2 := e.run(s1.db, sql);
        var s2 := AfterRun(s1, sql, r2);
        if r2.Ok? {
          assert UpdateCase(e, s, sql).after == Record(s2, table, Rows(FirstRowids(r.value)));
        }
      }
  }

  lemma RunStagesNothing<D>(e: Engine<D>, s: State<D>, sql: string)
    requires s.lastAffectedRows == map[]
    ensures StagesNothing(s, RunCase(e, s, sql).after, None)
  {
  }

  /** The DELETE branch touches only the DELETE slot, and stages this very
      statement against the table it captures. */
  lemma DeleteStagesOnlyDelete<D>(e: Engine<D>, s: State<D>, sql: string)
    requires s.lastAffectedRows == map[] && s.highlightType == Normal
    ensures var a := DeleteCase(e, s, sql).after;
      && (forall t | t in a.lastAffectedRows :: Group(sql, DeleteTable) == Some(t))
      && a.pendingDrop == s.pendingDrop
      && (a.highlightType == Normal || a.highlightType == Delete)
      && (a.highlightType == Delete ==> a.pendingDelete.Some? && a.pendingDelete.value.sql == sql)
      && (a.pendingDelete != s.pendingDelete ==>
            a.pendingDelete.Some? && a.pendingDelete.value.sql == sql
            && Group(sql, DeleteTable) == Some(a.pendingDelete.value.table))
  {
    match Group(sql, DeleteTable)
    case None =>
    case Some(table) =>
      var q := RowidQuery(table, sql);
      var r := e.exec(s.db, q);
  }

  /** The DROP branch touches only the DROP slot. */
  lemma DropStagesOnlyDrop<D>(s: State<D>, sql: string)
    requires s.lastAffectedRows == map[] && s.highlightType == Normal
    ensures var a := DropCase(s, sql).after;
      && (forall t | t in a.lastAffectedRows :: Group(sql, DropTable) == Some(t))
      && a.pendingDelete == s.pendingDelete
      && (a.highlightType == Normal || a.highlightType == Drop)
      && (a.highlightType == Drop ==> a.pendingDrop.Some? && a.pendingDrop.value.sql == sql)
      && (a.pendingDrop != s.pendingDrop ==> a.pendingDrop == Some(PendingDrop(sql, Group(sql, DropTable).value)))
  {
  }

  /** A map whose keys all equal one value has at most one entry. */
  lemma SingleKey<K, V>(m: map<K, V>, key: Option<K>)
    requires forall t | t in m :: key == Some(t)
    ensures |m| <= 1
  {
    if key.Some? && key.value in m {
      assert m.Keys == {key.value};
    } else {
      assert m.Keys == {};
    }
  }

  /** The state after `executeSQL` and the branch that produced it: the
      unfolding the whole-call lemmas below start from. */
  lemma ExecuteSqlBranch<D>(e: Engine<D>, s: State<D>, sql: string)
    ensures var cleared := s.(lastAffectedRows := map[], highlightType := Normal);
      ExecuteSql(e, s, sql) ==
        match Classify(sql)
        case SelectStmt => SelectCase(e, cleared, sql)
        case InsertStmt => InsertCase(e, cleared, sql)
        case UpdateStmt => UpdateCase(e, cleared, sql)
        case DeleteStmt => DeleteCase(e, cleared, sql)
        case DropStmt => DropCase(cleared, sql)
        case OtherStmt => RunCase(e, cleared, sql)
  {
  }

  /** Every call starts from an empty impact map and the normal highlight:
      afterwards at most one table is recorded, it is the table the
      statement's own branch captures, and only a staged DELETE or DROP of
      this very statement leaves another highlight. */
  lemma ResetOnEveryCall<D>(e: Engine<D>, s: State<D>, sql: string)
    ensures var a := ExecuteSql(e, s, sql).after;
      && |a.lastAffectedRows| <= 1
      && (forall t | t in a.lastAffectedRows :: TableOf(sql) == Some(t))
      && (a.highlightType == Delete ==>
            Classify(sql) == DeleteStmt && a.pendingDelete.Some? && a.pendingDelete.value.sql == sql)
      && (a.highlightType == Drop ==>
            Classify(sql) == DropStmt && a.pendingDrop.Some? && a.pendingDrop.value.sql == sql)
  {
    var a := ExecuteSql(e, s, sql).after;
    var cleared := s.(lastAffectedRows := map[], highlightType := Normal);
    var kind := Classify(sql);
    ExecuteSqlBranch(e, s, sql);
    if kind == SelectStmt {
      SelectStagesNothing(e, cleared, sql);
    } else if kind == InsertStmt {
      InsertStagesNothing(e, cleared, sql);
    } else if kind == UpdateStmt {
      UpdateStagesNothing(e, cleared, sql);
    } else if kind == DeleteStmt {
      DeleteStagesOnlyDelete(e, cleared, sql);
    } else if kind == DropStmt {
      DropStagesOnlyDrop(cleared, sql);
    } else {
      RunStagesNothing(e, cleared, sql);
    }
    SingleKey(a.lastAffectedRows, TableOf(sql));
  }

  /** `executeSQL` never clears a pending slot: a DELETE can only overwrite
      the DELETE slot with itself, a DROP only the DROP slot, and every other
      statement leaves both as they were. */
  lemma PendingSlotsNeverCleared<D>(e: Engine<D>, s: State<D>, sql: string)
    ensures var a := ExecuteSql(e, s, sql).after;
      && (Classify(sql) != DeleteStmt ==> a.pendingDelete == s.pendingDelete)
      && (Classify(sql) != DropStmt ==> a.pendingDrop == s.pendingDrop)
      && (a.pendingDelete != s.pendingDelete ==>
            a.pendingDelete.Some? && a.pendingDelete.value.sql == sql
            && Some(a.pendingDelete.value.table) == TableOf(sql))
      && (a.pendingDrop != s.pendingDrop ==>
            a.pendingDrop == Some(PendingDrop(sql, TableOf(sql).value)))
  {
    var cleared := s.(lastAffectedRows := map[], highlightType := Normal);
    var kind := Classify(sql);
    ExecuteSqlBranch(e, s, sql);
    if kind == SelectStmt {
      SelectStagesNothing(e, cleared, sql);
    } else if kind == InsertStmt {
      InsertStagesNothing(e, cleared, sql);
    } else if kind == UpdateStmt {
      UpdateStagesNothing(e, cleared, sql);
    } else if kind == DeleteStmt {
      DeleteStagesOnlyDelete(e, cleared, sql);
    } else if kind == DropStmt {
      DropStagesOnlyDrop(cleared, sql);
    } else {
      RunStagesNothing(e, cleared, sql);
    }
  }

  /** A DELETE with a table is only previewed: the engine receives the rowid
      pre-query and nothing else, so the statement is not sent as typed and
      the database is what the pre-query left. The pre-query carries the
      rest of the WHERE line, so anything else on that line is sent too. The rowids it returns are
      staged with the statement and recorded as the table's impact. */
  lemma DeleteIsOnlyPreviewed<D>(e: Engine<D>, s: State<D>, sql: string, table: string)
    requires Classify(sql) == DeleteStmt && Group(sql, DeleteTable) == Some(table)
    ensures var q := RowidQuery(table, sql);
      var r := e.exec(s.db, q);
      var step := ExecuteSql(e, s, sql);
      && step.after.trace == s.trace + [Exec(q)]
      && step.after.db == r.db
      && step.after.pendingDrop == s.pendingDrop
      && (r.Ok? ==>
            var ids := FirstRowids(r.value);
            && step.after.pendingDelete == Some(PendingDelete(sql, table, ids))
            && step.after.lastAffectedRows == map[table := Rows(ids)]
            && step.after.highlightType == Delete
            && step.report == Report(DeletePreviewText(|ids|), |ids|))
      && (r.Fail? ==>
            && step.after.pendingDelete == s.pendingDelete
            && step.after.lastAffectedRows == map[]
            && step.after.highlightType == Normal
            && step.report == Report(ErrorText(r.message), 0))
  {
  }

  /** A DROP with a table sends nothing to the engine: it marks the whole
      table, reports one affected object and stages the statement. */
  lemma DropIsOnlyPreviewed<D>(e: Engine<D>, s: State<D>, sql: string, table: string)
    requires Classify(sql) == DropStmt && Group(sql, DropTable) == Some(table)
    ensures ExecuteSql(e, s, sql) == Step(
      s.(lastAffectedRows := map[table := All], highlightType := Drop,
         pendingDrop := Some(PendingDrop(sql, table))),
      Report(DropPreviewText(table), 1))
  {
  }

  /** A DELETE or DROP whose table is not recognised is refused without a
      call on the engine and without staging anything. */
  lemma UnrecognisedTargetIsRefused<D>(e: Engine<D>, s: State<D>, sql: string)
    requires Classify(sql) == DeleteStmt || Classify(sql) == DropStmt
    requires TableOf(sql).None?
    ensures ExecuteSql(e, s, sql) == Step(
      s.(lastAffectedRows := map[], highlightType := Normal),
      Report(if Classify(sql) == DeleteStmt then "Invalid DELETE syntax" else "Invalid DROP syntax", 0))
  {
  }

  /** A SELECT runs once with the rowid projected first; the reported rows
      are the result rows without that column, their number is the affected
      count, and the rowids, in the same order, are recorded under the first
      table after FROM. */
  lemma SelectStripsRowid<D>(e: Engine<D>, s: State<D>, sql: string)
    requires Classify(sql) == SelectStmt
    ensures var q := SelectWithRowid(sql);
      var r := e.exec(s.db, q);
      var step := ExecuteSql(e, s, sql);
      && step.after.trace == s.trace + [Exec(q)]
      && step.after.db == r.db
      && step.after.pendingDelete == s.pendingDelete && step.after.pendingDrop == s.pendingDrop
      && (r.Fail? ==> step.report == Report(ErrorText(r.message), 0) && Unstaged(s, step.after))
      && (r.Ok? && |r.value| == 0 ==> step.report == Report("", 0) && Unstaged(s, step.after))
      && (r.Ok? && |r.value| > 0 ==>
            var rows := r.value[0].values;
            && step.report == Report(JsonRows(StripRowid(rows)), |rows|)
            && step.after.lastAffectedRows ==
                 (match Group(sql, FromTable)
                  case Some(t) => map[t := Rows(RowidColumn(rows))]
                  case None => map[])
            && |RowidColumn(rows)| == |rows|
            && forall k | 0 <= k < |rows| && |rows[k]| > 0 ::
                 rows[k] == [RowidColumn(rows)[k]] + StripRowid(rows)[k])
  {
    var r := e.exec(s.db, SelectWithRowid(sql));
    if r.Ok? && |r.value| > 0 {
      StripRowidRecombines(r.value[0].values);
    }
  }

  /** With N rows inserted and last rowid L, the fallback records the N
      consecutive rowids L-N+1, ..., L in ascending order: [L] for one row,
      nothing for none. */
  lemma FallbackRowidsAreConsecutive(last: int, n: nat)
    ensures var ids := FallbackRowids(Num(last), n);
      && |ids| == n
      && (forall k | 0 <= k < n :: ids[k] == Num(last - n + 1 + k))
      && (n > 0 ==> ids[n - 1] == Num(last))
      && (forall k | 0 <= k < n - 1 :: ids[k + 1].n == ids[k].n + 1)
  {
  }

  /** An INSERT whose `RETURNING rowid` form returns rows is run once, that
      way, and records the parsed rowids it returned. */
  lemma InsertRecordsReturnedRowids<D>(e: Engine<D>, s: State<D>, sql: string)
    requires Classify(sql) == InsertStmt
    requires var r := e.exec(s.db, ReturningInsert(sql)); r.Ok? && |r.value| > 0
    ensures var r := e.exec(s.db, ReturningInsert(sql));
      var ids := ParseAll(RowidColumn(r.value[0].values));
      var step := ExecuteSql(e, s, sql);
      && step.after.trace == s.trace + [Exec(ReturningInsert(sql))]
      && step.report == Report(ExecutedText(|ids|), |ids|)
      && step.after.lastAffectedRows ==
           (match Group(sql, InsertTable)
            case Some(t) => map[t := Rows(ids)]
            case None => map[])
  {
  }

  /** The fallback path on its own: the statement runs, the last rowid is
      read, and the range ending with it is recorded. */
  lemma FallbackRecordsRange<D>(e: Engine<D>, s: State<D>, sql: string, table: string, last: int)
    requires e.run(s.db, sql).Ok?
    requires var r2 := e.exec(e.run(s.db, sql).db, LastRowidQuery);
      r2.Ok? && |r2.value| > 0 && |r2.value[0].values| > 0 && Head(r2.value[0].values[0]) == Num(last)
    ensures var n := e.rowsModified(e.run(s.db, sql).db);
      var step := InsertFallback(e, s, sql, Some(table));
      && step.after.trace == s.trace + [Run(sql), Exec(LastRowidQuery)]
      && step.report == Report(ExecutedText(n), n)
      && step.after.lastAffectedRows == s.lastAffectedRows[table := Rows(FallbackRowids(Num(last), n))]
  {
    ParseIntOfNumber(last);
  }

  /** An INSERT whose `RETURNING rowid` form throws or returns nothing is run
      again as written; with N rows changed and last rowid L it records the
      range ending with L. */
  lemma InsertFallbackRecordsRange<D>(e: Engine<D>, s: State<D>, sql: string, table: string, last: int)
    requires Classify(sql) == InsertStmt && Group(sql, InsertTable) == Some(table)
    requires var r := e.exec(s.db, ReturningInsert(sql)); r.Fail? || |r.value| == 0
    requires var r := e.exec(s.db, ReturningInsert(sql)); e.run(r.db, sql).Ok?
    requires var r := e.exec(s.db, ReturningInsert(sql));
      var r2 := e.exec(e.run(r.db, sql).db, LastRowidQuery);
      r2.Ok? && |r2.value| > 0 && |r2.value[0].values| > 0 && Head(r2.value[0].values[0]) == Num(last)
    ensures var r := e.exec(s.db, ReturningInsert(sql));
      var n := e.rowsModified(e.run(r.db, sql).db);
      var step := ExecuteSql(e, s, sql);
      && step.after.trace == s.trace + [Exec(ReturningInsert(sql)), Run(sql), Exec(LastRowidQuery)]
      && step.report == Report(ExecutedText(n), n)
      && step.after.lastAffectedRows == map[table := Rows(FallbackRowids(Num(last), n))]
  {
    var cleared := s.(lastAffectedRows := map[], highlightType := Normal);
    var q := ReturningInsert(sql);
    var r := e.exec(s.db, q);
    var s1 := AfterExec(cleared, q, r);
    assert s1.db == r.db && s1.lastAffectedRows == map[];
    FallbackRecordsRange(e, s1, sql, table, last);
    var step := InsertFallback(e, s1, sql, Some(table));
    assert ExecuteSql(e, s, sql) == step by {
      assert ExecuteSql(e, s, sql) == InsertCase(e, cleared, sql);
    }
    assert s1.trace == s.trace + [Exec(q)];
    assert step.after.trace == s.trace + [Exec(q), Run(sql), Exec(LastRowidQuery)];
    assert s1.lastAffectedRows[table := Rows(FallbackRowids(Num(last), e.rowsModified(e.run(r.db, sql).db)))]
      == map[table := Rows(FallbackRowids(Num(last), e.rowsModified(e.run(r.db, sql).db)))];
  }

  /** An UPDATE with a table captures the rowids of its WHERE suffix before
      it runs, and records them once it has run. */
  lemma UpdateCapturesRowidsFirst<D>(e: Engine<D>, s: State<D>, sql: string, table: string)
    requires Classify(sql) == UpdateStmt && Group(sql, UpdateTable) == Some(table)
    ensures var q := RowidQuery(table, sql);
      var r := e.exec(s.db, q);
      var step := ExecuteSql(e, s, sql);
      && step.after.trace == s.trace + [Exec(q)] + (if r.Ok? then [Run(sql)] else [])
      && step.after.highlightType == Normal
      && step.after.pendingDelete == s.pendingDelete && step.after.pendingDrop == s.pendingDrop
      && (r.Fail? ==> step.report == Report(ErrorText(r.message), 0) && Unstaged(s, step.after))
      && (r.Ok? && e.run(r.db, sql).Fail? ==>
            && step.report == Report(ErrorText(e.run(r.db, sql).message), 0)
            && Unstaged(s, step.after))
      && (r.Ok? && e.run(r.db, sql).Ok? ==>
            var n := e.rowsModified(e.run(r.db, sql).db);
            && step.after.lastAffectedRows == map[table := Rows(FirstRowids(r.value))]
            && step.report == Report(ExecutedText(n), n))
  {
  }

  /** An INSERT whose `RETURNING rowid` form throws or returns nothing goes
      on to run the statement as written: that first error is swallowed. An
      error of the run reports its message with no affected rows; an error
      of the `last_insert_rowid()` read, or its missing row, reports the
      message with the count the run already gave. No error records an
      impact or stages anything, and without a table or an answer to read
      the count is reported and nothing is recorded. */
  lemma InsertFallbackReportsErrors<D>(e: Engine<D>, s: State<D>, sql: string)
    requires Classify(sql) == InsertStmt
    requires var r := e.exec(s.db, ReturningInsert(sql)); r.Fail? || |r.value| == 0
    ensures var q := ReturningInsert(sql);
      var r1 := e.run(e.exec(s.db, q).db, sql);
      var step := ExecuteSql(e, s, sql);
      && (r1.Fail? ==>
            && step.after.trace == s.trace + [Exec(q), Run(sql)]
            && step.report == Report(ErrorText(r1.message), 0)
            && Unstaged(s, step.after))
      && (r1.Ok? ==>
            var n := e.rowsModified(r1.db);
            var r2 := e.exec(r1.db, LastRowidQuery);
            && step.after.trace == s.trace + [Exec(q), Run(sql), Exec(LastRowidQuery)]
            && (r2.Fail? ==> step.report == Report(ErrorText(r2.message), n) && Unstaged(s, step.after))
            && (r2.Ok? && Group(sql, InsertTable).Some? && |r2.value| > 0 && |r2.value[0].values| == 0 ==>
                  step.report == Report(ErrorText(MissingRowMessage), n) && Unstaged(s, step.after))
            && (r2.Ok? && (Group(sql, InsertTable).None? || |r2.value| == 0) ==>
                  step.report == Report(ExecutedText(n), n) && Unstaged(s, step.after)))
  {
    var cleared := s.(lastAffectedRows := map[], highlightType := Normal);
    var q := ReturningInsert(sql);
    var r := e.exec(s.db, q);
    var s1 := AfterExec(cleared, q, r);
    assert ExecuteSql(e, s, sql) == InsertFallback(e, s1, sql, Group(sql, InsertTable)) by {
      assert ExecuteSql(e, s, sql) == InsertCase(e, cleared, sql);
    }
    assert s1.trace == s.trace + [Exec(q)];
  }

  /** Any other statement, and an UPDATE without a recognised table, is run
      once as written and reports the engine's count of changed rows. */
  lemma OtherStatementsRunDirectly<D>(e: Engine<D>, s: State<D>, sql: string)
    requires Classify(sql) == OtherStmt || (Classify(sql) == UpdateStmt && Group(sql, UpdateTable).None?)
    ensures var r := e.run(s.db, sql);
      var step := ExecuteSql(e, s, sql);
      && step.after == s.(db := r.db, trace := s.trace + [Run(sql)], lastAffectedRows := map[], highlightType := Normal)
      && step.report == (if r.Ok? then Report(ExecutedText(e.rowsModified(r.db)), e.rowsModified(r.db))
                         else Report(ErrorText(r.message), 0))
  {
  }

  /** Nothing the engine throws escapes `executeSQL`, whatever the engine:
      a call that reports `Error: m` has recorded no impact and staged
      nothing, and its count is zero unless an INSERT fell back and failed
      after the rows-modified count was taken. Which message `m` is, branch
      by branch, is stated by `SelectStripsRowid`,
      `InsertFallbackReportsErrors`, `UpdateCapturesRowidsFirst`,
      `DeleteIsOnlyPreviewed` and `OtherStatementsRunDirectly`. */
  lemma EngineErrorsAreReported<D>(e: Engine<D>, s: State<D>, sql: string, m: string)
    ensures var step := ExecuteSql(e, s, sql);
      step.report.result == ErrorText(m) ==>
        && Unstaged(s, step.after)
        && (Classify(sql) != InsertStmt ==> step.report.affected == 0)
  {
    var step := ExecuteSql(e, s, sql);
    var kind := Classify(sql);
    if step.report.result == ErrorText(m) {
      ErrorTextIsDistinct(m);
      if kind == SelectStmt {
        SelectStripsRowid(e, s, sql);
        var r := e.exec(s.db, SelectWithRowid(sql));
        if r.Ok? && |r.value| > 0 {
          JsonRowsIsArray(StripRowid(r.value[0].values));
        }
      } else if kind == InsertStmt {
        var r := e.exec(s.db, ReturningInsert(sql));
        if r.Ok? && |r.value| > 0 {
          InsertRecordsReturnedRowids(e, s, sql);
        } else {
          InsertFallbackReportsErrors(e, s, sql);
        }
      } else if kind == UpdateStmt {
        match Group(sql, UpdateTable)
        case None =>
          OtherStatementsRunDirectly(e, s, sql);
        case Some(table) =>
          UpdateCapturesRowidsFirst(e, s, sql, table);
      } else if kind == DeleteStmt {
        match Group(sql, DeleteTable)
        case None =>
          UnrecognisedTargetIsRefused(e, s, sql);
        case Some(table) =>
          DeleteIsOnlyPreviewed(e, s, sql, table);
      } else if kind == DropStmt {
        match Group(sql, DropTable)
        case None =>
          UnrecognisedTargetIsRefused(e, s, sql);
        case Some(table) =>
          DropIsOnlyPreviewed(e, s, sql, table);
      } else {
        OtherStatementsRunDirectly(e, s, sql);
      }
    }
  }

  /** No other report of `executeSQL` reads as an error report. */
  lemma ErrorTextIsDistinct(m: string)
    ensures forall n: nat :: ExecutedText(n) != ErrorText(m)
    ensures forall n: nat :: DeletePreviewText(n) != ErrorText(m)
    ensures forall t :: DropPreviewText(t) != ErrorText(m)
    ensures |ErrorText(m)| > 0 && ErrorText(m)[0] == 'E'
    ensures "" != ErrorText(m) && "Invalid DELETE syntax" != ErrorText(m) && "Invalid DROP syntax" != ErrorText(m)
  {
    forall n: nat ensures ExecutedText(n) != ErrorText(m) {
      assert ExecutedText(n)[1] == 'x' && ErrorText(m)[1] == 'r';
    }
    forall n: nat ensures DeletePreviewText(n) != ErrorText(m) {
      assert DeletePreviewText(n)[0] == 'P';
    }
    forall t ensures DropPreviewText(t) != ErrorText(m) {
      assert DropPreviewText(t)[0] == 'P';
    }
    assert "Invalid DELETE syntax"[0] != ErrorText(m)[0];
    assert "Invalid DROP syntax"[0] != ErrorText(m)[0];
  }
}
