# visql-web: the statement router and the confirmation guard

This project models the core of the SQL playground's page script
(`js/script.js`). The model covers four parts:

- **`executeSQL`.** It classifies a statement by its leading keyword and sends it to the embedded SQLite engine (sql.js). It records which rows of which table the statement touched, in `lastAffectedRows`, and reports a message and a count of affected rows. A DELETE or a DROP is only previewed: the statement is staged in `pendingDelete` or `pendingDrop` and is not sent as typed. A DELETE's rowid pre-query does carry the rest of its WHERE line.
- **The four click handlers** `confirmDelete`, `cancelDelete`, `confirmDrop` and `cancelDrop`. Each one runs or discards a staged statement.
- **The module state** these functions share: `lastAffectedRows`, `highlightType` and the two pending slots.
- **The highlight test of `renderDiagram`.** It decides which table boxes and which rows of the diagram carry the highlight class.

The engine is a parameter, `SqlJs.Engine`, given only by its interface:

- `exec` runs SQL and returns result sets;
- `run` runs SQL and returns nothing;
- `getRowsModified` reads the count of rows the last statement changed.

Each call may instead throw with a message, and it always yields the engine's next state. Every call the script makes is appended to a `trace`. That lets the model state what each branch sends to the engine. For example, a previewed DELETE is not sent as such; only its rowid pre-query is, and that carries the rest of the WHERE line.

The model has these modules:

- `JsText` and `JsValues`: the JavaScript built-ins the script relies on. They cover `trim`, `toUpperCase`, `\s` and `\w`, `parseInt(v, 10)`, `JSON.stringify`, `join`, and the decimal text of a number.
- `SqlPatterns`: the regular expressions of the script and the keyword classification. Every expression but `/;\s*$/` carries the `i` flag; that one has no letters, so the flag would change nothing. None carries the `g` flag, so `match` and `replace` use the leftmost match.
- `Router`: `executeSQL` as a function from the session state to the next state and the report, one function per branch. It also holds the lemmas about that function.
- `Guard`: the four handlers as functions, and the lemmas about staging and confirming.
- `Diagram`: the table and row highlight predicates.
- `Script`: the imperative form of the same code. The class `Session` has the script's module-level variables as fields. Its methods update those fields step by step, as the script does, and carry out the counting loop of the INSERT fallback. Each method is proved to leave the state, and return the result, that the `Router` or `Guard` function gives. So every lemma about those functions holds of the methods.
- `Scenario`: the DELETE example of the DML chapter (`DELETE FROM users WHERE username = 'alice';`).

Where a description of the program and its code could be read differently, the model follows the code:

- **Pending statements.** There are two independent pending slots, not one shared slot. A DELETE overwrites only `pendingDelete` and a DROP only `pendingDrop`. `executeSQL` clears neither.
- **Counts on a late error.** When a call on the engine throws after `affected` was assigned, the report keeps that count. This happens on the INSERT fallback when reading `last_insert_rowid()` fails, so the count is not always zero on an error.
- **A confirm that fails.** If the engine throws while a confirm handler runs, the exception leaves the handler with the slot, the impact map and the highlight kind unchanged. Nothing catches it there.
- **Table names as typed.** `executeSQL` records an impact under the table name as the statement spells it, the `(\w+)` capture. `renderDiagram` looks impacts up under the name the schema stores, and that lookup is case-sensitive. So a statement that names `users` as `USERS` highlights nothing, although SQLite runs it against `users` (`Scenario.OtherSpellingHighlightsNothing`). A quoted name is not captured where it stands. The patterns search the whole text, so a later unquoted `DELETE FROM word` or `DROP TABLE word`, even inside a string literal, is captured instead. Without one, a DELETE or DROP of a quoted name is refused as invalid syntax, and a SELECT, INSERT or UPDATE of it records no impact for that table.
- **A table name ending in `where`.** The WHERE suffix is searched from the start of the statement, not after the table name. For `DELETE FROM somewhere WHERE x`, the search stops at the `where` inside `somewhere`. The pre-query becomes `SELECT rowid FROM somewhere WHERE WHERE x`, which SQLite rejects, so such a DELETE is never previewed (`Scenario.TableEndingInWhereCutsCondition`). An UPDATE of such a table fails the same way. The lemmas about `DELETE FROM t WHERE c` therefore require a *plain* name: word characters only, not ending in `where` in any letter case.
- **A second statement on the WHERE line.** The pre-query copies the whole rest of the line after `WHERE`, and `exec` runs every statement in its text. So `DELETE FROM t WHERE id = 1; DELETE FROM t` sends `SELECT rowid FROM t WHERE id = 1; DELETE FROM t` during the preview. That empties `t` before any confirmation, and cancelling does not restore it (`Scenario.SecondStatementRunsAtPreview`). The UPDATE pre-query (js/script.js:95-100) copies the line in the same way, before the UPDATE itself runs.

## Model

| member | source | states |
|---|---|---|
| SqlPatterns.ClassifyByPrefix | js/script.js:28-148 | The branch is SELECT, INSERT, UPDATE, DELETE or DROP exactly when the trimmed, upper-cased text starts with that keyword. Otherwise it is the default branch. The keywords exclude each other, so the order of the tests never matters. |
| SqlPatterns.ClassifyIgnoresLeadingSpace | js/script.js:28 | Whitespace in front of a statement does not change its branch. |
| SqlPatterns.ExpandedLetterCompletesSelect | js/script.js:28-33 | Upper-casing can lengthen a letter, and the longer form can complete a keyword: `selecẗ 1` upper-cases to `SELECT`, a combining diaeresis and ` 1`, so it takes the SELECT branch. |
| JsText.ToUpperKeepsCapitals | js/script.js:28 | Upper-case ASCII letters at the start of a text are still its first characters after `toUpperCase`, whatever follows them. |
| JsText.TrimRemovesOuterSpace | js/script.js:28 | `trim` keeps a contiguous middle part of the text and removes only whitespace around it. The result neither starts nor ends with whitespace. |
| SqlPatterns.FirstMatchFromIsLeftmost | js/script.js:46 | The match that `match` and `replace` use is the leftmost position where the expression matches. There is none exactly when no position matches. |
| SqlPatterns.KeywordsCapture | js/script.js:92 | A match of `KEYWORD\s+(\w+)` ends with its capture: a non-empty, maximal run of word characters. |
| SqlPatterns.WhereCapture | js/script.js:95 | A match of `WHERE\s+(.+)` starts with the keyword. Its capture holds no line terminator and ends at the end of the line or of the text. |
| SqlPatterns.SelectHeadShape | js/script.js:36 | `\bSELECT\s+` matches at a word boundary, in any letter case, and takes the whole run of whitespace after the keyword. |
| SqlPatterns.SemicolonShape | js/script.js:57 | `;\s*$` matches at a position exactly when a semicolon there is followed only by whitespace. |
| SqlPatterns.SelectWithRowidAtStart | js/script.js:36 | A statement that starts with SELECT and whitespace, after any leading whitespace, has the keyword and that whitespace replaced by `SELECT rowid, `. The leading whitespace and the rest are kept. |
| SqlPatterns.SelectWithoutSpaceIsKept | js/script.js:36 | A text with no whitespace is sent unchanged, so its first column is not the rowid. |
| SqlPatterns.ReturningInsertStripsFinalSemicolon | js/script.js:57 | The INSERT rewrite drops a final semicolon, with the whitespace after it, and appends ` RETURNING rowid;`. When there is no such semicolon, the text is kept whole. |
| SqlPatterns.CapturedTableIsWord | js/script.js:114 | The captured table name is the whole run of word characters that ends the leftmost match: never empty, and not followed by another word character. |
| SqlPatterns.WhereCaptureStopsAtLineEnd | js/script.js:117 | The WHERE suffix copied into the pre-query follows the leftmost `WHERE`. It is the rest of one line, so a condition that continues on the next line is cut. |
| SqlJs.StripRowidRecombines | js/script.js:40-42 | The rowid column and the stripped rows both keep the order of the result rows. Each row is its rowid followed by its values. |
| JsValues.ParseIntOfNumber | js/script.js:198 | `parseInt` gives every integer back unchanged. |
| JsText.NatTextRoundTrip | js/script.js:62 | Reading back the decimal text of a count gives the count. |
| Router.SelectStagesNothing | js/script.js:34-50 | The SELECT branch records its impact only under its FROM table. It leaves the highlight kind and both slots as they were. |
| Router.InsertStagesNothing | js/script.js:51-89 | The INSERT branch records its impact only under its INTO table. It leaves the highlight kind and both slots as they were. |
| Router.UpdateStagesNothing | js/script.js:90-111 | The UPDATE branch records its impact only under its table. It leaves the highlight kind and both slots as they were. |
| Router.RunStagesNothing | js/script.js:145-148 | The default branch records no impact. It leaves the highlight kind and both slots as they were. |
| Router.DeleteStagesOnlyDelete | js/script.js:112-132 | The DELETE branch touches only the DELETE slot. It stages only this statement, against the table it captures. |
| Router.DropStagesOnlyDrop | js/script.js:133-144 | The DROP branch touches only the DROP slot. It stages only this statement, against the table it captures. |
| Router.ResetOnEveryCall | js/script.js:31-144 | Every call starts from an empty impact map and the normal highlight. Afterwards at most one table is recorded: the one its branch captures. A delete or drop highlight appears only with this statement staged. |
| Router.PendingSlotsNeverCleared | js/script.js:129-141 | `executeSQL` never clears a slot. A DELETE can only set the DELETE slot to itself and its table, a DROP only the DROP slot, and any other statement keeps both. |
| Router.DeleteIsOnlyPreviewed | js/script.js:114-129 | A DELETE with a table sends only the rowid pre-query to the engine, not the statement as typed. The pre-query carries the rest of the WHERE line, so whatever else is on that line is sent too. The returned rowids are staged with the statement and recorded for the table. The highlight becomes delete, and the report counts them. If the pre-query throws, its error is reported and nothing is staged. |
| Router.DropIsOnlyPreviewed | js/script.js:134-141 | A DROP with a table makes no call on the engine. The whole table is marked, the highlight becomes drop, the statement is staged and the preview counts 1. |
| Router.UnrecognisedTargetIsRefused | js/script.js:130-144 | A DELETE or DROP without a recognised table is refused with `Invalid DELETE syntax` or `Invalid DROP syntax`. There is no engine call and nothing is staged. |
| Router.SelectStripsRowid | js/script.js:34-50 | A SELECT is sent once with the rowid projected first. The report is the rows without that column, counted. The rowids are recorded in the same order under the FROM table. If the query throws, the report is `Error: ` and its message, with no rows. An empty answer reports an empty text. Neither records an impact or stages anything. |
| Router.FallbackRowidsAreConsecutive | js/script.js:78-87 | With N rows inserted and last rowid L, the fallback gives the N rowids L-N+1, ..., L, ascending by one. That is `[L]` for one row and nothing for none. |
| Router.InsertRecordsReturnedRowids | js/script.js:53-65 | An INSERT whose RETURNING form returns rows is sent once, in that form. It reports and records the parsed rowids it got back. |
| Router.FallbackRecordsRange | js/script.js:70-88 | The fallback runs the statement, reads the last rowid, and records the range that ends with it under the INTO table. |
| Router.InsertFallbackRecordsRange | js/script.js:55-88 | An INSERT whose RETURNING form throws or returns nothing is run again as written. It reports the engine's count and records the contiguous range ending with the last rowid. |
| Router.UpdateCapturesRowidsFirst | js/script.js:92-106 | An UPDATE with a table queries the rowids of its WHERE suffix before it runs. Once it has run, it records those rowids and reports the engine's count. If the pre-query or the statement throws, the report is `Error: ` and that call's message, with no rows, and nothing is recorded. |
| Router.InsertFallbackReportsErrors | js/script.js:66-77 | When the `RETURNING rowid` form throws or returns nothing, that error is dropped and the statement runs as written. If the run throws, the report is its message with no rows. If the `last_insert_rowid()` read throws, or its answer has no row, the report is that message with the count the run gave. No error records an impact or stages anything. |
| Router.OtherStatementsRunDirectly | js/script.js:145-148 | Any other statement, and an UPDATE without a recognised table, runs once as written. It reports the engine's count and records nothing. |
| Router.EngineErrorsAreReported | js/script.js:151-153 | For any engine: when a call reports `Error: ` and a message, it has recorded no impact, kept the normal highlight and left both slots as they were. Its count is zero unless an INSERT fell back and failed after taking the count. |
| Guard.ConfirmDelete | js/script.js:245-258 | With no DELETE staged, nothing happens. Otherwise the staged text runs once. If the run succeeds, the log gives the count, table and rowids, and the slot, impact map and highlight are cleared. If it throws, the exception escapes with the state kept. The DROP slot is untouched. |
| Guard.CancelDelete | js/script.js:261-272 | With no DELETE staged, nothing happens. Otherwise the slot, impact map and highlight are cleared with no engine call, and `Delete cancelled` is logged. |
| Guard.ConfirmDrop | js/script.js:275-288 | With no DROP staged, nothing happens. Otherwise the staged text runs once. If the run succeeds, `Table t dropped` is logged and the slot, impact map and highlight are cleared. If it throws, the exception escapes with the state kept. |
| Guard.CancelDrop | js/script.js:291-302 | With no DROP staged, nothing happens. Otherwise the slot, impact map and highlight are cleared with no engine call, and `Drop cancelled` is logged. |
| Guard.DeleteHandlersAreOneShot | js/script.js:245-272 | After a confirm that went through, or after a cancel, every further DELETE confirm or cancel is a no-op. |
| Guard.DropHandlersAreOneShot | js/script.js:275-302 | After a confirm that went through, or after a cancel, every further DROP confirm or cancel is a no-op. |
| Guard.PreviewedDeleteRunsOnConfirm | js/script.js:245-250 | Preview then confirm sends the engine the pre-query, then the DELETE exactly as typed, once. The log cites the rowids of the preview. |
| Guard.PreviewedDeleteCancelled | js/script.js:261-266 | Preview then cancel leaves only the pre-query in the trace. The DELETE is not sent as typed, and the database stays as the pre-query left it. |
| Guard.PreviewedDropRunsOnConfirm | js/script.js:275-281 | Preview then confirm sends the DROP exactly as typed, once, and nothing before it. |
| Guard.PreviewedDropCancelled | js/script.js:291-296 | Preview then cancel leaves the database and the trace exactly as they were before the statement. |
| Diagram.TableOrRows | js/script.js:170-200 | No table is highlighted both as a whole and row by row. |
| Diagram.OnlyTheStatementsTable | js/script.js:170-200 | After any statement, no table other than the one its branch captures carries a highlight. |
| Diagram.DropPreviewHighlightsTable | js/script.js:170-172 | After a DROP preview, the box whose name is spelled exactly as the statement spells the table carries the drop highlight, and none of its rows does. |
| Diagram.DeletePreviewHighlightsRows | js/script.js:197-200 | After a DELETE preview, a row of the table spelled exactly as the statement spells it is highlighted, as delete, exactly when the pre-query returned its rowid. That box is not highlighted. |
| Diagram.SelectHighlightsReturnedRows | js/script.js:197-200 | After a SELECT, a row with an integer rowid, of the table spelled exactly as the FROM clause spells it, is highlighted exactly when the SELECT returned that rowid. |
| Diagram.HandlersClearHighlights | js/script.js:251-252 | A confirm that went through, or a cancel, leaves nothing highlighted. |
| Script.Session.constructor | js/script.js:2-6 | The session starts with an empty impact map, the normal highlight, both slots empty and no engine calls. |
| Script.Session.ExecuteSql | js/script.js:27-155 | The method leaves the state `Router.ExecuteSql` gives and returns its report. |
| Script.Session.Select | js/script.js:34-50 | The method leaves the state and the report of `Router.SelectCase`. |
| Script.Session.Insert | js/script.js:51-69 | The method leaves the state and the report of `Router.InsertCase`. |
| Script.Session.InsertWithoutReturning | js/script.js:70-89 | The method leaves the state and the report of `Router.InsertFallback`. |
| Script.Session.FallbackRange | js/script.js:78-87 | The counting loop builds exactly `Router.FallbackRowids`: the contiguous range ending with the last rowid. |
| Script.Session.Update | js/script.js:90-111 | The method leaves the state and the report of `Router.UpdateCase`. |
| Script.Session.Delete | js/script.js:112-132 | The method leaves the state and the report of `Router.DeleteCase`. |
| Script.Session.Drop | js/script.js:133-144 | The method leaves the state and the report of `Router.DropCase`. |
| Script.Session.RunStatement | js/script.js:145-148 | The method leaves the state and the report of `Router.RunCase`. |
| Script.Session.ConfirmDelete | js/script.js:245-258 | The method leaves the state and the outcome of `Guard.ConfirmDelete`. |
| Script.Session.CancelDelete | js/script.js:261-272 | The method leaves the state and the outcome of `Guard.CancelDelete`. |
| Script.Session.ConfirmDrop | js/script.js:275-288 | The method leaves the state and the outcome of `Guard.ConfirmDrop`. |
| Script.Session.CancelDrop | js/script.js:291-302 | The method leaves the state and the outcome of `Guard.CancelDrop`. |
| Scenario.DeleteWhereIsDelete | data/example.js:69 | `DELETE FROM t WHERE c`, with a table name of word characters and a one-line condition, takes the DELETE branch. |
| Scenario.DeleteWhereTable | js/script.js:114 | From such a statement the DELETE pattern captures exactly `t`. |
| Scenario.DeleteWhereCondition | js/script.js:117 | When `t` is also plain, meaning it does not end in `where` in any letter case, the WHERE pattern captures exactly `c`. |
| Scenario.DeleteWherePreQuery | js/script.js:117-122 | For a plain `t`, the preview asks for `SELECT rowid FROM t WHERE c`. |
| Scenario.TableEndingInWhereCutsCondition | js/script.js:114-122 | For a word-character table name ending in `where`, the DELETE pattern still captures the name. The WHERE pattern stops at the `where` inside it and captures `WHERE c`, so the pre-query is `SELECT rowid FROM t WHERE WHERE c`. |
| Scenario.OtherSpellingHighlightsNothing | js/script.js:170-198 | After `DELETE FROM t WHERE c`, a table whose name is not spelled exactly `t` has no highlight on its box or its rows, even when SQLite resolves `t` to it. |
| Scenario.SecondStatementRunsAtPreview | js/script.js:114-122 | For a plain `t`, previewing `DELETE FROM t WHERE c; d` sends `SELECT rowid FROM t WHERE c; d` to `exec`, and `d` runs with it. Afterwards, and after a cancel, the database is what that call left. |
| Scenario.WholeTableDeleteOnWhereLine | js/script.js:117-122 | `DELETE FROM t WHERE id = 1; DELETE FROM t` has that shape, so its preview sends a DELETE of the whole table. |
| Scenario.CapitalisedUsers | js/script.js:114-126 | `USERS` is a word-character name that differs from the sample table `users`, with `id = 1` a one-line condition. So the lemma above applies to `DELETE FROM USERS WHERE id = 1`, which leaves the `users` box unhighlighted. |
| Scenario.OneRowPreview | js/script.js:122-129 | A DELETE whose pre-query returns one row previews that row alone: count 1, the row marked, and the statement staged with its rowid. |
| Scenario.AliceDeleteIsPreviewed | data/example.js:69 | Suppose the pre-query returns rowid 1. Then the example reports a preview of 1 row, and the engine receives only `SELECT rowid FROM users WHERE username = 'alice';`. Rowid 1 is marked for deletion and the statement is staged. |
| Scenario.AliceRowIsMarked | data/example.js:69 | After that preview, alice's row (rowid 1) carries the delete highlight and bob's (rowid 2) does not. |
| Scenario.AliceDeleteIsConfirmed | data/example.js:69 | Confirming the preview runs the statement as typed, once, after the pre-query. It logs `Deleted 1 rows from users` with row ID 1 and empties the slot. |

## Left out

- `initDB` (js/script.js:9-19): loading the engine from a CDN and restoring the database from localStorage. The session is built around a given engine and database state.
- `saveDB` (js/script.js:22-24): exporting the database to localStorage is a no-op in the model. A storage quota error thrown there is not modelled. In sql.js, `export()` also closes and reopens the connection. It runs after every statement (js/script.js:150) and in the confirm handlers, and each reopen drops TEMP tables and resets per-connection state: `PRAGMA foreign_keys`, `changes()` and `last_insert_rowid()`. The engine is a parameter of the model, so that reset is left to it. Every read the script makes comes before the reopen.
- The DOM: the event listeners (js/script.js:218-242), the `setTimeout` re-render in the handlers, the log element and the drag handlers (js/script.js:304-344). A handler's log text is returned as its outcome instead.
- `renderDiagram`'s own engine queries (`sqlite_master`, `PRAGMA table_info`, `SELECT rowid, *`) and its element construction. Only its two highlight tests are modelled, on a row and a table name given as inputs.
- SQL semantics. What a statement does to the database, which rows a query returns and the rows-modified count are the engine's, which is a parameter of the model.
- Diagram.RowHighlight: `parseInt(row[0])` is written without a radix. The model reads it in base 10, so a text cell starting with `0x` is not parsed as hexadecimal. Integer rowids, which SQLite always returns, are unaffected.
- Numbers are unbounded integers. Doubles, precision loss above 2^53, and JSON's printing of non-integer cells are not modelled.
- BLOB cells: sql.js returns a BLOB as a `Uint8Array`, which `JSON.stringify` prints as an object of indexed bytes in a SELECT report. `SqlJs.JsValue` has no such cell.
- JsText.UpperText: `toUpperCase` is modelled only for the characters whose upper case holds an ASCII letter. These are the ASCII letters, dotless i, long s, and the letters and ligatures that upper-case to several characters, such as `ß` to `SS` and `ẗ` to `T` with a combining diaeresis. Every other character keeps its case. Its upper case would be non-ASCII, so the classification is unaffected, but the upper-cased text differs from the script's there.
- A table named `__proto__`: the script stores impacts in a plain object, and the model uses a map with no such special key.
- JsValues.JsonRows: the exact `JSON.stringify` layout is modelled, but no lemma states more about it than the row count in the report.
