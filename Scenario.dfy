/** The DELETE example of the DML chapter (data/example.js:69) on the
    `users` table of that chapter, whose only row named alice has rowid 1.
    Any `DELETE FROM t WHERE c` with a plain table name and a one-line
    condition is first shown to take the DELETE branch, capture `t` and copy
    `c` into its pre-query; for the example, the preview then stages the
    statement with rowid 1 without sending it, and the confirmation
    runs the statement and reports that rowid. */
module Scenario {
  import opened Wrappers
  import opened JsText
  import opened SqlJs
  import opened JsValues
  import opened SqlPatterns
  import opened Router
  import opened Guard
  import opened Diagram

  /** `DELETE FROM t WHERE c`, spaced as the chapter's examples are. */
  function DeleteWhere(table: string, condition: string): string {
    "DELETE FROM " + table + " WHERE " + condition
  }

  /** A table name the pattern `DELETE\s+FROM\s+(\w+)` captures whole:
      word characters only. */
  predicate WordName(table: string) {
    |table| > 0 && forall k | 0 <= k < |table| :: IsWordChar(table[k])
  }

  /** The name ends in `where`, in any letter case. */
  predicate EndsInWhere(table: string) {
    |table| >= 5 && KeywordAt(table, |table| - 5, "WHERE")
  }

  /** A word name that does not end in `where`. `WHERE\s+(.+)` is searched
      from the start of the statement, and inside a word name only a `where`
      at its very end is followed by whitespace, so only such a name can
      hold the leftmost match. */
  predicate PlainTable(table: string) {
    WordName(table) && !EndsInWhere(table)
  }

  /** A condition on one line, neither starting nor ending with whitespace. */
  predicate OneLine(condition: string) {
    && |condition| > 0 && !IsSpace(condition[0]) && !IsSpace(condition[|condition| - 1])
    && forall k | 0 <= k < |condition| :: !IsLineTerminator(condition[k])
  }

  const Users := "users"
  const AliceCondition := "username = 'alice';"

  /** data/example.js:69. */
  const AliceDelete := DeleteWhere(Users, AliceCondition)

  /** The pre-query the preview sends: `SELECT rowid FROM users WHERE
      username = 'alice';`. */
  const AlicePreQuery := "SELECT rowid FROM " + Users + " WHERE " + AliceCondition

  /** Where each part of the statement sits. */
  lemma DeleteWhereChars(table: string, condition: string)
    ensures var s := DeleteWhere(table, condition);
      && |s| == 19 + |table| + |condition|
      && (forall k | 0 <= k < 12 :: s[k] == "DELETE FROM "[k])
      && (forall k | 0 <= k < |table| :: s[12 + k] == table[k])
      && (forall k | 0 <= k < 7 :: s[12 + |table| + k] == " WHERE "[k])
      && (forall k | 0 <= k < |condition| :: s[19 + |table| + k] == condition[k])
  {
  }

  /** A run of word characters up to a non-word character is one `\w+` run. */
  lemma {:induction false} WordRunOver(s: string, i: nat, j: nat)
    requires i <= j < |s| && !IsWordChar(s[j])
    requires forall k | i <= k < j :: IsWordChar(s[k])
    ensures WordRun(s, i) == j
    decreases j - i
  {
    if i < j {
      WordRunOver(s, i + 1, j);
    }
  }

  /** A stretch without line terminators that reaches the end of the text is
      matched whole by `.+`. */
  lemma {:induction false} LineEndOver(s: string, i: nat)
    requires i <= |s|
    requires forall k | i <= k < |s| :: !IsLineTerminator(s[k])
    ensures LineEnd(s, i) == |s|
    decreases |s| - i
  {
    if i < |s| {
      LineEndOver(s, i + 1);
    }
  }

  /** `WHERE\s+(.+)` matches only where the keyword is. */
  lemma NoWhereWithoutKeyword(s: string, i: nat)
    requires i <= |s| && !KeywordAt(s, i, "WHERE")
    ensures MatchAt(s, i, WhereTail).None?
  {
  }

  /** `WHERE` matches at no position whose character does not fold to `W`. */
  lemma NoWhereWithoutW(s: string, i: nat)
    requires i < |s| && FoldAscii(s[i]) != 'W'
    ensures MatchAt(s, i, WhereTail).None?
  {
    assert FoldAscii(s[i + 0]) != "WHERE"[0];
    NoWhereWithoutKeyword(s, i);
  }

  /** `WHERE\s+` needs whitespace after the keyword, not a word character. */
  lemma NoWhereBeforeWordChar(s: string, i: nat)
    requires i + 5 < |s| && IsWordChar(s[i + 5])
    ensures MatchAt(s, i, WhereTail).None?
  {
    assert !IsSpace(s[i + 5]);
    assert SpaceRun(s, i + 5) == i + 5;
  }

  /** A space cannot stand for a letter of `WHERE`. */
  lemma NoWhereAcrossSpace(s: string, i: nat, m: nat)
    requires 0 < m < 5 && i + m < |s| && s[i + m] == ' '
    ensures MatchAt(s, i, WhereTail).None?
  {
    assert FoldAscii(s[i + m]) != "WHERE"[m];
    NoWhereWithoutKeyword(s, i);
  }

  lemma DeleteWhereIsTrimmed(table: string, condition: string)
    requires WordName(table) && OneLine(condition)
    ensures Trim(DeleteWhere(table, condition)) == DeleteWhere(table, condition)
  {
    var s := DeleteWhere(table, condition);
    DeleteWhereChars(table, condition);
    assert s[0] == 'D';
    assert s[|s| - 1] == condition[|condition| - 1];
    TrimOfTrimmed(s);
  }

  lemma DeleteWhereStartsWithDelete(table: string, condition: string)
    ensures StartsWith(ToUpper(DeleteWhere(table, condition)), "DELETE")
  {
    var s := DeleteWhere(table, condition);
    DeleteWhereChars(table, condition);
    assert s[..6] == "DELETE";
    ToUpperKeepsCapitals(s, 6);
  }

  /** `DELETE FROM t WHERE c` takes the DELETE branch. */
  lemma DeleteWhereIsDelete(table: string, condition: string)
    requires WordName(table) && OneLine(condition)
    ensures Classify(DeleteWhere(table, condition)) == DeleteStmt
  {
    DeleteWhereIsTrimmed(table, condition);
    DeleteWhereStartsWithDelete(table, condition);
    ClassifyByPrefix(DeleteWhere(table, condition));
  }

  /** `DELETE\s+FROM\s+` ends where the table name starts. */
  lemma DeleteWhereKeywords(table: string, condition: string)
    requires WordName(table)
    ensures KeywordsEnd(DeleteWhere(table, condition), 0, ["DELETE", "FROM"]) == Some(12)
  {
    var s := DeleteWhere(table, condition);
    DeleteWhereChars(table, condition);
    assert KeywordAt(s, 0, "DELETE");
    assert s[6] == ' ' && s[7] == 'F' && SpaceRun(s, 7) == 7;
    assert SpaceRun(s, 6) == 7;
    assert KeywordAt(s, 7, "FROM");
    assert s[11] == ' ' && s[12] == table[0] && SpaceRun(s, 12) == 12;
    assert SpaceRun(s, 11) == 12;
    var words: seq<string> := ["DELETE", "FROM"];
    assert words[0] == "DELETE" && words[1..] == ["FROM"];
    assert KeywordsEnd(s, 0, words) == KeywordsEnd(s, 7, ["FROM"]);
    assert ["FROM"][1..] == [];
    assert KeywordsEnd(s, 7, ["FROM"]) == KeywordsEnd(s, 12, []);
  }

  /** `DELETE\s+FROM\s+(\w+)` captures the table name. */
  lemma DeleteWhereTable(table: string, condition: string)
    requires WordName(table)
    ensures Group(DeleteWhere(table, condition), DeleteTable) == Some(table)
  {
    var s := DeleteWhere(table, condition);
    DeleteWhereChars(table, condition);
    DeleteWhereKeywords(table, condition);
    var e := 12 + |table|;
    assert s[e] == ' ';
    WordRunOver(s, 12, e);
    assert s[12..e] == table;
    assert MatchAt(s, 0, DeleteTable) == Some(Match(0, e, table));
    FirstMatchFromIsLeftmost(s, DeleteTable, 0);
  }

  /** The leftmost `WHERE` is the one after the table name. */
  lemma DeleteWhereNoEarlierWhere(table: string, condition: string)
    requires PlainTable(table)
    ensures forall i | 0 <= i < 13 + |table| :: MatchAt(DeleteWhere(table, condition), i, WhereTail).None?
  {
    var s := DeleteWhere(table, condition);
    DeleteWhereChars(table, condition);
    forall i | 0 <= i < 13 + |table|
      ensures MatchAt(s, i, WhereTail).None?
    {
      if i < 12 {
        assert s[i] == "DELETE FROM "[i];
        NoWhereWithoutW(s, i);
      } else if i == 12 + |table| {
        assert s[12 + |table| + 0] == ' ';
        NoWhereWithoutW(s, i);
      } else {
        NoWhereInName(table, condition, i);
      }
    }
  }

  /** Inside a plain name no `WHERE\s+` starts: a `where` inside it is
      followed by a word character, and one running past its end meets the
      space. */
  lemma NoWhereInName(table: string, condition: string, i: nat)
    requires PlainTable(table) && 12 <= i < 12 + |table|
    ensures MatchAt(DeleteWhere(table, condition), i, WhereTail).None?
  {
    var s := DeleteWhere(table, condition);
    var j := i - 12;
    assert s == "DELETE FROM " + table + (" WHERE " + condition);
    if j + 5 < |table| {
      assert s[i + 5] == table[j + 5];
      NoWhereBeforeWordChar(s, i);
    } else if j + 5 == |table| {
      NoWhereAtNameEnd("DELETE FROM ", table, " WHERE " + condition);
    } else {
      assert s[12 + |table|] == ' ';
      NoWhereAcrossSpace(s, i, 12 + |table| - i);
    }
  }

  /** A name that does not end in `where` has no `WHERE` in its last five
      characters, wherever it is embedded. */
  lemma NoWhereAtNameEnd(front: string, table: string, rest: string)
    requires !EndsInWhere(table) && |table| >= 5
    ensures MatchAt(front + table + rest, |front| + |table| - 5, WhereTail).None?
  {
    var s := front + table + rest;
    var i := |front| + |table| - 5;
    var k :| 0 <= k < 5 && FoldAscii(table[|table| - 5 + k]) != "WHERE"[k];
    assert s[i + k] == table[|table| - 5 + k];
    NoWhereWithoutKeyword(s, i);
  }

  /** `WHERE\s+(.+)` after the table name captures the condition. */
  lemma DeleteWhereMatch(table: string, condition: string)
    requires WordName(table) && OneLine(condition)
    ensures var s := DeleteWhere(table, condition);
      MatchAt(s, 13 + |table|, WhereTail) == Some(Match(13 + |table|, |s|, condition))
  {
    var s := DeleteWhere(table, condition);
    DeleteWhereChars(table, condition);
    var w := 13 + |table|;
    assert s[w] == 'W' && s[w + 1] == 'H' && s[w + 2] == 'E' && s[w + 3] == 'R' && s[w + 4] == 'E';
    assert KeywordAt(s, w, "WHERE");
    var q := w + 6;
    assert s[w + 5] == ' ' && s[q] == condition[0];
    assert SpaceRun(s, q) == q;
    assert SpaceRun(s, w + 5) == q;
    assert q < |s|;
    LineEndOver(s, q);
    assert s[q..|s|] == condition;
    assert WhereAt(s, w) == Some(Match(w, |s|, condition));
  }

  lemma DeleteWhereCondition(table: string, condition: string)
    requires PlainTable(table) && OneLine(condition)
    ensures Group(DeleteWhere(table, condition), WhereTail) == Some(condition)
  {
    var s := DeleteWhere(table, condition);
    DeleteWhereNoEarlierWhere(table, condition);
    DeleteWhereMatch(table, condition);
    FirstMatchFromIsLeftmost(s, WhereTail, 0);
    var r := FirstMatchFrom(s, WhereTail, 0);
    assert r.Some?;
    assert r.value.start == 13 + |table|;
  }

  /** The preview of `DELETE FROM t WHERE c` asks for the rowids of `t`
      under `c`. */
  lemma DeleteWherePreQuery(table: string, condition: string)
    requires PlainTable(table) && OneLine(condition)
    ensures RowidQuery(table, DeleteWhere(table, condition))
      == "SELECT rowid FROM " + table + " WHERE " + condition
  {
    DeleteWhereCondition(table, condition);
  }

  /** For a table whose name ends in `where` the script's WHERE search
      stops inside the name: the leftmost `WHERE\s+(.+)` is that `where`, so
      the copied suffix starts with the statement's own `WHERE` and the
      pre-query repeats the keyword, which SQLite rejects. Such a DELETE can
      never be previewed. */
  lemma TableEndingInWhereCutsCondition(stem: string, condition: string)
    requires forall k | 0 <= k < |stem| :: IsWordChar(stem[k])
    requires OneLine(condition)
    ensures var table := stem + "where";
      var s := DeleteWhere(table, condition);
      && Group(s, DeleteTable) == Some(table)
      && Group(s, WhereTail) == Some("WHERE " + condition)
      && RowidQuery(table, s) == "SELECT rowid FROM " + table + " WHERE WHERE " + condition
  {
    var table := stem + "where";
    var s := DeleteWhere(table, condition);
    var w := 12 + |stem|;
    var cut := "WHERE " + condition;
    assert Group(s, DeleteTable) == Some(table) by {
      WordNameEndingInWhere(stem);
      DeleteWhereTable(table, condition);
    }
    assert Group(s, WhereTail) == Some(cut) by {
      NoWhereBeforeNameEnd(stem, condition);
      WhereInNameMatch(stem, condition);
      FirstMatchIs(s, WhereTail, w);
    }
    assert " WHERE " + cut == " WHERE WHERE " + condition;
  }

  lemma WordNameEndingInWhere(stem: string)
    requires forall k | 0 <= k < |stem| :: IsWordChar(stem[k])
    ensures WordName(stem + "where")
  {
    var table := stem + "where";
    forall k | 0 <= k < |table| ensures IsWordChar(table[k]) {
      if k < |stem| {
        assert table[k] == stem[k];
      }
    }
  }

  /** Before the `where` that ends the name no `WHERE\s+` starts. */
  lemma NoWhereBeforeNameEnd(stem: string, condition: string)
    requires forall k | 0 <= k < |stem| :: IsWordChar(stem[k])
    ensures forall i | 0 <= i < 12 + |stem| ::
      MatchAt(DeleteWhere(stem + "where", condition), i, WhereTail).None?
  {
    var table := stem + "where";
    var s := DeleteWhere(table, condition);
    WordNameEndingInWhere(stem);
    DeleteWhereChars(table, condition);
    forall i | 0 <= i < 12 + |stem|
      ensures MatchAt(s, i, WhereTail).None?
    {
      if i < 12 {
        assert s[i] == "DELETE FROM "[i];
        NoWhereWithoutW(s, i);
      } else {
        assert s[12 + (i - 12 + 5)] == table[i - 12 + 5];
        NoWhereBeforeWordChar(s, i);
      }
    }
  }

  /** `WHERE\s+(.+)` matches at the `where` that ends the name and captures
      the rest of the line, keyword included. */
  lemma WhereInNameMatch(stem: string, condition: string)
    requires OneLine(condition)
    ensures var s := DeleteWhere(stem + "where", condition);
      MatchAt(s, 12 + |stem|, WhereTail) == Some(Match(12 + |stem|, |s|, "WHERE " + condition))
  {
    var table := stem + "where";
    var s := DeleteWhere(table, condition);
    DeleteWhereChars(table, condition);
    var w := 12 + |stem|;
    assert s[w] == table[|stem|] == 'w';
    assert s[w + 1] == table[|stem| + 1] == 'h';
    assert s[w + 2] == table[|stem| + 2] == 'e';
    assert s[w + 3] == table[|stem| + 3] == 'r';
    assert s[w + 4] == table[|stem| + 4] == 'e';
    assert KeywordAt(s, w, "WHERE");
    var q := w + 6;
    assert s[w + 5] == ' ' && s[q] == 'W';
    assert SpaceRun(s, q) == q;
    assert SpaceRun(s, w + 5) == q;
    forall k | q <= k < |s| ensures !IsLineTerminator(s[k]) {
      if k >= q + 6 {
        assert s[19 + |table| + (k - q - 6)] == condition[k - q - 6];
      } else {
        assert s[12 + |table| + (k - q + 1)] == " WHERE "[k - q + 1];
      }
    }
    LineEndOver(s, q);
    assert s[q..|s|] == "WHERE " + condition;
    assert WhereAt(s, w) == Some(Match(w, |s|, "WHERE " + condition));
  }

  /** Impacts are kept under the table name as the statement spells it, and
      the diagram looks them up under the name the schema stores: a DELETE
      that spells the table any other way (`USERS` for `users`, which SQLite
      resolves to the same table) leaves that box and its rows
      unhighlighted. */
  lemma OtherSpellingHighlightsNothing<D>(e: Engine<D>, s: State<D>, table: string, condition: string,
                                          name: string, row: Row)
    requires WordName(table) && OneLine(condition) && table != name
    ensures var a := ExecuteSql(e, s, DeleteWhere(table, condition)).after;
      TableHighlight(a, name).None? && RowHighlight(a, name, row).None?
  {
    var sql := DeleteWhere(table, condition);
    DeleteWhereIsDelete(table, condition);
    DeleteWhereTable(table, condition);
    assert TableOf(sql) == Some(table);
    OnlyTheStatementsTable(e, s, sql, name, row);
  }

  /** The WHERE capture copies the rest of the line, so a second statement
      typed after the condition, on the same line, is part of the pre-query.
      `exec` runs every statement of its text: the preview already sends that
      statement to the engine, before any confirmation, and cancelling keeps
      the database the pre-query left. */
  lemma SecondStatementRunsAtPreview<D>(e: Engine<D>, s: State<D>, table: string, condition: string,
                                        second: string)
    requires PlainTable(table) && OneLine(condition + "; " + second)
    ensures var q := "SELECT rowid FROM " + table + " WHERE " + condition + "; " + second;
      var preview := ExecuteSql(e, s, DeleteWhere(table, condition + "; " + second));
      var done := CancelDelete(preview.after);
      && preview.after.trace == s.trace + [Exec(q)]
      && preview.after.db == e.exec(s.db, q).db
      && done.after.trace == preview.after.trace
      && done.after.db == e.exec(s.db, q).db
  {
    var c := condition + "; " + second;
    var sql := DeleteWhere(table, c);
    DeleteWhereIsDelete(table, c);
    DeleteWhereTable(table, c);
    DeleteWherePreQuery(table, c);
    DeleteIsOnlyPreviewed(e, s, sql, table);
    assert "SELECT rowid FROM " + table + " WHERE " + c
      == "SELECT rowid FROM " + table + " WHERE " + condition + "; " + second;
  }

  /** `DELETE FROM t WHERE id = 1; DELETE FROM t` has the shape
      `SecondStatementRunsAtPreview` needs: its preview empties `t`. */
  lemma WholeTableDeleteOnWhereLine()
    ensures PlainTable("t") && OneLine("id = 1" + "; " + "DELETE FROM t")
  {
  }

  /** The capitalised spelling of the example's table has the shape
      `OtherSpellingHighlightsNothing` needs. */
  lemma CapitalisedUsers()
    ensures WordName("USERS") && OneLine("id = 1") && "USERS" != Users
  {
    assert "USERS"[0] != Users[0];
  }

  /** The example has the shape these lemmas need. */
  lemma AliceIsPlain()
    ensures PlainTable(Users) && OneLine(AliceCondition)
  {
    assert FoldAscii(Users[0]) != "WHERE"[0];
  }

  /** A DELETE whose pre-query returns one row previews that row alone. */
  lemma OneRowPreview<D>(e: Engine<D>, s: State<D>, sql: string, table: string, d1: D, columns: seq<string>, id: int)
    requires Classify(sql) == DeleteStmt && Group(sql, DeleteTable) == Some(table)
    requires e.exec(s.db, RowidQuery(table, sql)) == Ok(d1, [ResultSet(columns, [[Num(id)]])])
    ensures var preview := ExecuteSql(e, s, sql);
      && preview.report == Report(DeletePreviewText(1), 1)
      && preview.after.trace == s.trace + [Exec(RowidQuery(table, sql))]
      && preview.after.db == d1
      && preview.after.lastAffectedRows == map[table := Rows([Num(id)])]
      && preview.after.highlightType == Delete
      && preview.after.pendingDelete == Some(PendingDelete(sql, table, [Num(id)]))
  {
    DeleteIsOnlyPreviewed(e, s, sql, table);
    var rows: seq<Row> := [[Num(id)]];
    assert |RowidColumn(rows)| == 1 && RowidColumn(rows)[0] == Num(id);
    assert FirstRowids([ResultSet(columns, rows)]) == [Num(id)];
  }

  /** Typed on any session, the example only previews: the engine receives
      the pre-query alone, the report counts the one row, the row is marked
      for deletion and the statement is staged with its rowid. */
  lemma AliceDeleteIsPreviewed<D>(e: Engine<D>, s: State<D>, d1: D)
    requires e.exec(s.db, AlicePreQuery) == Ok(d1, [ResultSet(["rowid"], [[Num(1)]])])
    ensures var preview := ExecuteSql(e, s, AliceDelete);
      && preview.report == Report("Preview: " + "1" + " rows will be deleted. Confirm?", 1)
      && preview.after.trace == s.trace + [Exec(AlicePreQuery)]
      && preview.after.db == d1
      && preview.after.lastAffectedRows == map["users" := Rows([Num(1)])]
      && preview.after.highlightType == Delete
      && preview.after.pendingDelete == Some(PendingDelete(AliceDelete, "users", [Num(1)]))
  {
    AliceIsPlain();
    DeleteWhereIsDelete(Users, AliceCondition);
    DeleteWhereTable(Users, AliceCondition);
    DeleteWherePreQuery(Users, AliceCondition);
    OneRowPreview(e, s, AliceDelete, "users", d1, ["rowid"], 1);
    assert NatText(1) == "1";
  }

  /** In the diagram after the preview, alice's row (rowid 1) is marked for
      deletion and bob's (rowid 2) is not. */
  lemma AliceRowIsMarked<D>(e: Engine<D>, s: State<D>, d1: D)
    requires e.exec(s.db, AlicePreQuery) == Ok(d1, [ResultSet(["rowid"], [[Num(1)]])])
    ensures var a := ExecuteSql(e, s, AliceDelete).after;
      && RowHighlight(a, "users", [Num(1), Str("alice"), Str("alice@example.com")]) == Some(Delete)
      && RowHighlight(a, "users", [Num(2), Str("bob"), Str("bob@example.com")]).None?
  {
    AliceDeleteIsPreviewed(e, s, d1);
    ParseIntOfNumber(1);
    ParseIntOfNumber(2);
  }

  /** Confirmed after the preview, the statement runs as typed, once, and
      the log cites rowid 1. */
  lemma AliceDeleteIsConfirmed<D>(e: Engine<D>, s: State<D>, d1: D)
    requires e.exec(s.db, AlicePreQuery) == Ok(d1, [ResultSet(["rowid"], [[Num(1)]])])
    requires e.run(d1, AliceDelete).Ok?
    ensures var done := ConfirmDelete(e, ExecuteSql(e, s, AliceDelete).after);
      && done.outcome == Logged("Deleted " + "1" + " rows from " + "users" + "\nDeleted row IDs: " + "1")
      && done.after.trace == s.trace + [Exec(AlicePreQuery), Run(AliceDelete)]
      && done.after.pendingDelete.None?
  {
    AliceDeleteIsPreviewed(e, s, d1);
    assert NatText(1) == "1";
    assert JoinValues([Num(1)], ", ") == "1";
  }
}
