/** The text handling of `executeSQL` (js/script.js): the leading-keyword
    classification and the regular expressions that capture a table name or a
    WHERE suffix and rewrite SELECT and INSERT statements.

    Every regular expression of the script but `/;\s*$/` carries the `i`
    flag (that one has no letters for it to act on), and none carries the `g`
    flag, so `s.match(re)` and `s.replace(re, t)` use the leftmost match only.
    `MatchAt` says what each expression matches at one position, `FirstMatch`
    takes the leftmost position that matches. */
module SqlPatterns {
  import opened Wrappers
  import opened JsText

  /** The regular expressions of the script. */
  datatype Pattern =
    | Keywords(words: seq<string>)  // W1\s+ ... Wn\s+(\w+)
    | WhereTail                     // WHERE\s+(.+)
    | SelectHead                    // \bSELECT\s+
    | TrailingSemicolon             // ;\s*$

  /** A match: the matched text is s[start..end], `group` the first capture
      group (empty for the expressions that have none). */
  datatype Match = Match(start: nat, end: nat, group: string)

  const FromTable := Keywords(["FROM"])
  const InsertTable := Keywords(["INSERT", "INTO"])
  const UpdateTable := Keywords(["UPDATE"])
  const DeleteTable := Keywords(["DELETE", "FROM"])
  const DropTable := Keywords(["DROP", "TABLE"])

  /** Case folding of a regular expression with the `i` flag and without the
      `u` flag: a character is compared by its upper case, except that a
      non-ASCII character never folds to an ASCII one, so for the upper-case
      ASCII keywords only the ASCII letters fold. */
  function FoldAscii(c: char): char {
    if 'a' <= c <= 'z' then (c as int - 32) as char else c
  }

  /** The keyword `kw` (upper-case ASCII) occurs at `i`, in any letter case. */
  predicate KeywordAt(s: string, i: nat, kw: string) {
    i + |kw| <= |s| && forall k | 0 <= k < |kw| :: FoldAscii(s[i + k]) == kw[k]
  }

  /** The end of the run of whitespace that starts at `i`. */
  function SpaceRun(s: string, i: nat): (j: nat)
    requires i <= |s|
    ensures i <= j <= |s| && AllSpace(s[i..j])
    ensures j == |s| || !IsSpace(s[j])
    decreases |s| - i
  {
    if i < |s| && IsSpace(s[i]) then SpaceRun(s, i + 1) else i
  }

  /** The end of the run of `\w` characters that starts at `i`. */
  function WordRun(s: string, i: nat): (j: nat)
    requires i <= |s|
    ensures i <= j <= |s| && forall k | i <= k < j :: IsWordChar(s[k])
    ensures j == |s| || !IsWordChar(s[j])
    decreases |s| - i
  {
    if i < |s| && IsWordChar(s[i]) then WordRun(s, i + 1) else i
  }

  /** The end of the run of characters `.` matches that starts at `i`: the
      next line terminator, or the end of the text. */
  function LineEnd(s: string, i: nat): (j: nat)
    requires i <= |s|
    ensures i <= j <= |s| && forall k | i <= k < j :: !IsLineTerminator(s[k])
    ensures j == |s| || IsLineTerminator(s[j])
    decreases |s| - i
  {
    if i < |s| && !IsLineTerminator(s[i]) then LineEnd(s, i + 1) else i
  }

  /** Where `W1\s+ ... Wn\s+` ends when it matches at `i`. Whitespace and the
      keyword letters are disjoint, so each greedy `\s+` takes the whole run
      of whitespace: backtracking into it can never let the next keyword or
      `\w` match. */
  function KeywordsEnd(s: string, i: nat, words: seq<string>): (r: Option<nat>)
    requires i <= |s|
    ensures r.Some? ==> i <= r.value <= |s|
    decreases words
  {
    if words == [] then Some(i)
    else if KeywordAt(s, i, words[0]) then
      var j := SpaceRun(s, i + |words[0]|);
      if j > i + |words[0]| then KeywordsEnd(s, j, words[1..]) else None
    else None
  }

  /** The last position in [lo, hi) that holds a character other than a line
      terminator. */
  function LastNonTerminator(s: string, lo: nat, hi: nat): (r: Option<nat>)
    requires lo <= hi <= |s|
    ensures r.Some? ==> lo <= r.value < hi && !IsLineTerminator(s[r.value])
    ensures r.Some? ==> forall k | r.value < k < hi :: IsLineTerminator(s[k])
    ensures r.None? ==> forall k | lo <= k < hi :: IsLineTerminator(s[k])
    decreases hi - lo
  {
    if lo == hi then None
    else if !IsLineTerminator(s[hi - 1]) then Some(hi - 1)
    else LastNonTerminator(s, lo, hi - 1)
  }

  /** `W1\s+ ... Wn\s+(\w+)` at `i`: the capture is a maximal run of `\w`
      characters. */
  function KeywordsAt(s: string, i: nat, words: seq<string>): (r: Option<Match>)
    requires i <= |s|
    ensures r.Some? ==> r.value.start == i && i <= r.value.end <= |s|
  {
    match KeywordsEnd(s, i, words)
    case None => None
    case Some(j) =>
      var e := WordRun(s, j);
      if e > j then Some(Match(i, e, s[j..e])) else None
  }

  /** `WHERE\s+(.+)` at `i`. The greedy `\s+` takes the whole run of
      whitespace after WHERE; when a character follows that run it is no line
      terminator (those are whitespace), so `.+` takes it and the rest of its
      line. When the whitespace runs to the end of the text, `\s+` gives
      characters back until `.` can match one: the capture is then the last
      whitespace character that is not a line terminator, and there is no
      match at `i` when there is none. */
  function WhereAt(s: string, i: nat): (r: Option<Match>)
    requires i <= |s|
    ensures r.Some? ==> r.value.start == i && i <= r.value.end <= |s|
  {
    if !KeywordAt(s, i, "WHERE") then None
    else
      var afterWord := i + 5;
      var q := SpaceRun(s, afterWord);
      if q == afterWord then None
      else if q < |s| then
        LineTerminatorIsSpace(s[q]);
        var e := LineEnd(s, q);
        Some(Match(i, e, s[q..e]))
      else
        match LastNonTerminator(s, afterWord + 1, q)
        case None => None
        case Some(k) =>
          var e := LineEnd(s, k);
          Some(Match(i, e, s[k..e]))
  }

  /** `\bSELECT\s+` at `i`: a word boundary, the keyword in any case, and the
      whole run of whitespace after it. */
  function SelectHeadAt(s: string, i: nat): (r: Option<Match>)
    requires i <= |s|
    ensures r.Some? ==> r.value.start == i && i <= r.value.end <= |s|
  {
    if (i == 0 || !IsWordChar(s[i - 1])) && KeywordAt(s, i, "SELECT") then
      var q := SpaceRun(s, i + 6);
      if q > i + 6 then Some(Match(i, q, "")) else None
    else None
  }

  /** `;\s*$` at `i`: a semicolon followed by nothing but whitespace. */
  function SemicolonAt(s: string, i: nat): (r: Option<Match>)
    requires i <= |s|
    ensures r.Some? ==> r.value.start == i && r.value.end == |s|
  {
    if i < |s| && s[i] == ';' && AllSpace(s[i + 1..]) then Some(Match(i, |s|, "")) else None
  }

  /** What pattern `p` matches when the match starts at position `i`. */
  function MatchAt(s: string, i: nat, p: Pattern): (r: Option<Match>)
    ensures r.Some? ==> r.value.start == i && i <= r.value.end <= |s|
  {
    if i > |s| then None
    else match p
      case Keywords(words) => KeywordsAt(s, i, words)
      case WhereTail => WhereAt(s, i)
      case SelectHead => SelectHeadAt(s, i)
      case TrailingSemicolon => SemicolonAt(s, i)
  }

  /** The first of `attempt(i)`, `attempt(i + 1)`, ..., `attempt(n)` that
      is a match. */
  function FirstFound(attempt: nat -> Option<Match>, n: nat, i: nat): Option<Match>
    requires i <= n
    decreases n - i
  {
    if attempt(i).Some? then attempt(i)
    else if i == n then None
    else FirstFound(attempt, n, i + 1)
  }

  /** The scan finds nothing exactly when no attempt matches, and otherwise
      the first attempt that matches. */
  lemma {:induction false} FirstFoundIsLeftmost(attempt: nat -> Option<Match>, n: nat, i: nat)
    requires i <= n
    ensures var r := FirstFound(attempt, n, i);
      && (r.None? <==> forall k | i <= k <= n :: attempt(k).None?)
      && (r.Some? ==>
            exists j | i <= j <= n :: r == attempt(j) && forall k | i <= k < j :: attempt(k).None?)
    decreases n - i
  {
    if attempt(i).None? && i < n {
      FirstFoundIsLeftmost(attempt, n, i + 1);
    }
  }

  /** The leftmost match of `p` at position `i` or later. */
  function FirstMatchFrom(s: string, p: Pattern, i: nat): Option<Match>
    requires i <= |s|
  {
    FirstFound((k: nat) => MatchAt(s, k, p), |s|, i)
  }

  function FirstMatch(s: string, p: Pattern): Option<Match> {
    FirstMatchFrom(s, p, 0)
  }

  /** The search returns the leftmost match. */
  lemma FirstMatchFromIsLeftmost(s: string, p: Pattern, i: nat)
    requires i <= |s|
    ensures var r := FirstMatchFrom(s, p, i);
      && (r.None? <==> forall k | i <= k <= |s| :: MatchAt(s, k, p).None?)
      && (r.Some? ==>
            i <= r.value.start <= |s| && MatchAt(s, r.value.start, p) == r
            && forall k | i <= k < r.value.start :: MatchAt(s, k, p).None?)
  {
    var attempt: nat -> Option<Match> := (k: nat) => MatchAt(s, k, p);
    var r := FirstMatchFrom(s, p, i);
    assert r == FirstFound(attempt, |s|, i);
    FirstFoundIsLeftmost(attempt, |s|, i);
    forall k | i <= k <= |s|
      ensures attempt(k) == MatchAt(s, k, p)
    {
    }
    if r.Some? {
      var j :| i <= j <= |s| && r == attempt(j) && forall k | i <= k < j :: attempt(k).None?;
      assert r == MatchAt(s, j, p);
      assert r.value.start == j;
    }
  }

  /** A match at `j` with none before it is the leftmost match. */
  lemma FirstMatchIs(s: string, p: Pattern, j: nat)
    requires j <= |s| && MatchAt(s, j, p).Some?
    requires forall k | 0 <= k < j :: MatchAt(s, k, p).None?
    ensures FirstMatch(s, p) == MatchAt(s, j, p)
  {
    FirstMatchFromIsLeftmost(s, p, 0);
  }

  /** A match of `W1\s+ ... Wn\s+(\w+)` ends with its capture, a maximal
      non-empty run of word characters. */
  lemma KeywordsCapture(s: string, i: nat, words: seq<string>)
    requires i <= |s|
    ensures var r := KeywordsAt(s, i, words);
      r.Some? ==>
        && |r.value.group| > 0 && i <= r.value.end - |r.value.group|
        && r.value.group == s[r.value.end - |r.value.group|..r.value.end]
        && (forall k | 0 <= k < |r.value.group| :: IsWordChar(r.value.group[k]))
        && (r.value.end == |s| || !IsWordChar(s[r.value.end]))
  {
  }

  /** A match of `WHERE\s+(.+)` starts with the keyword and ends with its
      capture, which holds no line terminator and runs to the end of its
      line. */
  lemma WhereCapture(s: string, i: nat)
    requires i <= |s|
    ensures var r := WhereAt(s, i);
      r.Some? ==>
        && KeywordAt(s, i, "WHERE") && |r.value.group| > 0
        && i + 5 < r.value.end - |r.value.group|
        && r.value.group == s[r.value.end - |r.value.group|..r.value.end]
        && (forall k | 0 <= k < |r.value.group| :: !IsLineTerminator(r.value.group[k]))
        && (r.value.end == |s| || IsLineTerminator(s[r.value.end]))
  {
  }

  /** `\bSELECT\s+` matches at a word boundary, in any letter case, and takes
      the whole run of whitespace after the keyword. */
  lemma SelectHeadShape(s: string, i: nat)
    requires i <= |s|
    ensures var r := SelectHeadAt(s, i);
      r.Some? ==>
        && (i == 0 || !IsWordChar(s[i - 1])) && KeywordAt(s, i, "SELECT")
        && i + 6 < r.value.end && AllSpace(s[i + 6..r.value.end])
        && (r.value.end == |s| || !IsSpace(s[r.value.end]))
  {
  }

  /** `;\s*$` matches exactly at a semicolon followed by nothing but
      whitespace. */
  lemma SemicolonShape(s: string, i: nat)
    requires i <= |s|
    ensures SemicolonAt(s, i).Some? <==> i < |s| && s[i] == ';' && AllSpace(s[i + 1..])
  {
  }

  /** `s.match(p)` followed by `[1]`: the capture of the leftmost match. */
  function Group(s: string, p: Pattern): Option<string> {
    match FirstMatch(s, p)
    case None => None
    case Some(m) => Some(m.group)
  }

  /** `s.replace(p, replacement)`: the leftmost match is replaced, and the
      text is kept as it is when nothing matches. */
  function Replace(s: string, p: Pattern, replacement: string): string {
    match FirstMatch(s, p)
    case None => s
    case Some(m) =>
      FirstMatchFromIsLeftmost(s, p, 0);
      s[..m.start] + replacement + s[m.end..]
  }

  /** The SELECT query with the rowid projected first (js/script.js:36). */
  function SelectWithRowid(sql: string): string {
    Replace(sql, SelectHead, "SELECT rowid, ")
  }

  /** The INSERT statement asking for the new rowids (js/script.js:57). */
  function ReturningInsert(sql: string): string {
    Replace(sql, TrailingSemicolon, "") + " RETURNING rowid;"
  }

  /** The pre-query of UPDATE and DELETE (js/script.js:95-100 and 117-122):
      the rowids of `table` under the statement's WHERE suffix, if any. */
  function RowidQuery(table: string, sql: string): string {
    "SELECT rowid FROM " + table
    + match Group(sql, WhereTail)
      case Some(w) => " WHERE " + w
      case None => ""
  }

  datatype Kind = SelectStmt | InsertStmt | UpdateStmt | DeleteStmt | DropStmt | OtherStmt

  /** The branch `executeSQL` takes (js/script.js:28-34): the first keyword
      the trimmed, upper-cased text starts with. */
  function Classify(sql: string): Kind {
    KindOf(ToUpper(Trim(sql)))
  }

  /** The prefix tests of `executeSQL`, in their order, on the normalised text. */
  function KindOf(t: string): Kind {
    if StartsWith(t, "SELECT") then SelectStmt
    else if StartsWith(t, "INSERT") then InsertStmt
    else if StartsWith(t, "UPDATE") then UpdateStmt
    else if StartsWith(t, "DELETE") then DeleteStmt
    else if StartsWith(t, "DROP") then DropStmt
    else OtherStmt
  }

  /** The branch is that of the keyword the trimmed, upper-cased text starts
      with; the five keywords exclude each other, so the order of the tests
      does not matter, and any other text takes the default branch. */
  lemma ClassifyByPrefix(sql: string)
    ensures var t := ToUpper(Trim(sql));
      && (Classify(sql) == SelectStmt <==> StartsWith(t, "SELECT"))
      && (Classify(sql) == InsertStmt <==> StartsWith(t, "INSERT"))
      && (Classify(sql) == UpdateStmt <==> StartsWith(t, "UPDATE"))
      && (Classify(sql) == DeleteStmt <==> StartsWith(t, "DELETE"))
      && (Classify(sql) == DropStmt <==> StartsWith(t, "DROP"))
      && (Classify(sql) == OtherStmt <==>
            !StartsWith(t, "SELECT") && !StartsWith(t, "INSERT") && !StartsWith(t, "UPDATE")
            && !StartsWith(t, "DELETE") && !StartsWith(t, "DROP"))
  {
    var t := ToUpper(Trim(sql));
    assert Classify(sql) == KindOf(t);
    if |t| > 0 {
      assert StartsWith(t, "SELECT") ==> t[0] == 'S';
      assert StartsWith(t, "INSERT") ==> t[0] == 'I';
      assert StartsWith(t, "UPDATE") ==> t[0] == 'U';
      assert StartsWith(t, "DELETE") ==> t[0] == 'D' && t[1] == 'E';
      assert StartsWith(t, "DROP") ==> t[0] == 'D' && t[1] == 'R';
    }
  }

  /** Upper-casing may lengthen a letter, and the result can complete a
      keyword: `selec\u1E97` upper-cases to `SELECT` and a combining
      diaeresis, so such a text takes the SELECT branch. */
  lemma ExpandedLetterCompletesSelect()
    ensures Classify("selec\U{1E97} 1") == SelectStmt
  {
    var s := "selec\U{1E97} 1";
    TrimOfTrimmed(s);
    assert ToUpper(s) == "SELECT\U{0308} 1";
    ClassifyByPrefix(s);
  }

  /** Whitespace in front of a statement does not change its branch. */
  lemma ClassifyIgnoresLeadingSpace(ws: string, sql: string)
    requires AllSpace(ws)
    ensures Classify(ws + sql) == Classify(sql)
  {
    TrimStartSkipsSpace(ws, sql);
    assert Trim(ws + sql) == Trim(sql);
  }

  /** `\bSELECT\s+` matches where the keyword follows a word boundary and
      is followed by whitespace. */
  lemma SelectHeadAtKeyword(s: string, i: nat)
    requires i + 6 < |s| && (i == 0 || !IsWordChar(s[i - 1]))
    requires KeywordAt(s, i, "SELECT") && IsSpace(s[i + 6])
    ensures MatchAt(s, i, SelectHead) == Some(Match(i, SpaceRun(s, i + 6), ""))
  {
  }

  /** `\bSELECT\s+` matches nowhere at whitespace. */
  lemma NoSelectHeadAtSpace(s: string, k: nat)
    requires k < |s| && IsSpace(s[k])
    ensures MatchAt(s, k, SelectHead).None?
  {
    assert FoldAscii(s[k + 0]) != "SELECT"[0];
  }

  /** A statement that starts, after any whitespace, with SELECT (in any
      case) and whitespace gets that keyword and all of the whitespace after
      it replaced by `SELECT rowid, `; the whitespace in front and the rest
      are kept. */
  lemma SelectWithRowidAtStart(sql: string, p: nat)
    requires p + 6 < |sql| && forall k | 0 <= k < p :: IsSpace(sql[k])
    requires KeywordAt(sql, p, "SELECT") && IsSpace(sql[p + 6])
    ensures SelectWithRowid(sql) == sql[..p] + "SELECT rowid, " + sql[SpaceRun(sql, p + 6)..]
  {
    assert p == 0 || !IsWordChar(sql[p - 1]) by {
      if p > 0 {
        assert IsSpace(sql[p - 1]);
      }
    }
    SelectHeadAtKeyword(sql, p);
    forall k | 0 <= k < p
      ensures MatchAt(sql, k, SelectHead).None?
    {
      NoSelectHeadAtSpace(sql, k);
    }
    FirstMatchIs(sql, SelectHead, p);
  }

  /** A text without whitespace is never rewritten (`SELECT*FROM users`,
      say), so the first column of its result is not the rowid. */
  lemma SelectWithoutSpaceIsKept(sql: string)
    requires forall k | 0 <= k < |sql| :: !IsSpace(sql[k])
    ensures SelectWithRowid(sql) == sql
  {
    forall k | 0 <= k <= |sql|
      ensures MatchAt(sql, k, SelectHead).None?
    {
      SelectHeadShape(sql, k);
    }
    FirstMatchFromIsLeftmost(sql, SelectHead, 0);
  }

  /** The INSERT rewrite removes the one semicolon that is followed by
      nothing but whitespace, with that whitespace, and keeps the text as it
      is when there is none. */
  lemma ReturningInsertStripsFinalSemicolon(sql: string)
    ensures forall p | 0 <= p < |sql| && sql[p] == ';' && AllSpace(sql[p + 1..]) ::
      ReturningInsert(sql) == sql[..p] + " RETURNING rowid;"
    ensures (forall p | 0 <= p < |sql| :: sql[p] != ';' || !AllSpace(sql[p + 1..])) ==>
      ReturningInsert(sql) == sql + " RETURNING rowid;"
  {
    forall p | 0 <= p < |sql| && sql[p] == ';' && AllSpace(sql[p + 1..])
      ensures ReturningInsert(sql) == sql[..p] + " RETURNING rowid;"
    {
      SemicolonShape(sql, p);
      assert MatchAt(sql, p, TrailingSemicolon).Some?;
      FirstMatchFromIsLeftmost(sql, TrailingSemicolon, 0);
      var m := FirstMatch(sql, TrailingSemicolon).value;
      assert MatchAt(sql, m.start, TrailingSemicolon).Some?;
      SemicolonShape(sql, m.start);
      assert sql[..p] + "" + sql[|sql|..] == sql[..p];
    }
    if forall p | 0 <= p < |sql| :: sql[p] != ';' || !AllSpace(sql[p + 1..]) {
      forall k | 0 <= k <= |sql|
        ensures MatchAt(sql, k, TrailingSemicolon).None?
      {
        SemicolonShape(sql, k);
      }
      FirstMatchFromIsLeftmost(sql, TrailingSemicolon, 0);
    }
  }

  /** The table a statement names (`FROM t`, `INSERT INTO t`, `UPDATE t`,
      `DELETE FROM t`, `DROP TABLE t`) is the whole run of word characters
      that ends the leftmost match: never empty, and not followed by another
      word character. */
  lemma CapturedTableIsWord(sql: string, words: seq<string>)
    ensures Group(sql, Keywords(words)).Some? ==>
      var m := FirstMatch(sql, Keywords(words)).value;
      var t := Group(sql, Keywords(words)).value;
      && |t| > 0 && (forall k | 0 <= k < |t| :: IsWordChar(t[k]))
      && m.start + |t| <= m.end <= |sql| && t == sql[m.end - |t|..m.end]
      && (m.end == |sql| || !IsWordChar(sql[m.end]))
  {
    if Group(sql, Keywords(words)).Some? {
      var m := FirstMatch(sql, Keywords(words)).value;
      FirstMatchFromIsLeftmost(sql, Keywords(words), 0);
      assert MatchAt(sql, m.start, Keywords(words)) == KeywordsAt(sql, m.start, words);
      KeywordsCapture(sql, m.start, words);
    }
  }

  /** The WHERE suffix the pre-queries copy is the rest of one line: it
      follows the leftmost `WHERE` and whitespace, holds no line terminator,
      and ends where the text or the line ends, so a condition continued on
      the next line is cut. */
  lemma WhereCaptureStopsAtLineEnd(sql: string)
    ensures Group(sql, WhereTail).Some? ==>
      var m := FirstMatch(sql, WhereTail).value;
      var w := Group(sql, WhereTail).value;
      && |w| > 0 && KeywordAt(sql, m.start, "WHERE")
      && m.start + 5 < m.end - |w| && m.end <= |sql| && w == sql[m.end - |w|..m.end]
      && (forall k | 0 <= k < |w| :: !IsLineTerminator(w[k]))
      && (m.end == |sql| || IsLineTerminator(sql[m.end]))
  {
    if Group(sql, WhereTail).Some? {
      var m := FirstMatch(sql, WhereTail).value;
      FirstMatchFromIsLeftmost(sql, WhereTail, 0);
      assert MatchAt(sql, m.start, WhereTail) == WhereAt(sql, m.start);
      WhereCapture(sql, m.start);
    }
  }
}
