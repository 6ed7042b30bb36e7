/**
 * The SQL console endpoint, admin/ajax/execute-query.php: a read-only query
 * is trimmed, checked against an allow-list of leading keywords (on its
 * upper-cased text) and a deny-list of dangerous functions (case-insensitive,
 * on word boundaries), run, and its rows returned, truncated to 1000.
 */
module QueryConsole {
  import opened Wrappers
  import opened Text
  import opened Php
  import opened Records
  import opened Store

  /** PCRE's `\s`: space, tab, newline, vertical tab, form feed, carriage return. */
  predicate IsPcreSpace(c: char)
  {
    c in {' ', '\t', '\n', '\U{0B}', '\U{0C}', '\r'}
  }

  predicate AllSpace(s: string)
  {
    forall i | 0 <= i < |s| :: IsPcreSpace(s[i])
  }

  /** PCRE's `.` without the s modifier: any character but a newline. */
  predicate NoNewline(s: string)
  {
    forall i | 0 <= i < |s| :: s[i] != '\n'
  }

  // ---------------------------------------------------------------- allow-list

  /** The allow-list entries: `^WORD\s+`, or `^WITH\s+.+\s+SELECT\s+`. */
  datatype Allow = Leading(word: string) | CteSelect

  const AllowedPatterns: seq<Allow> :=
    [Leading("SELECT"), Leading("SHOW"), Leading("DESCRIBE"), Leading("EXPLAIN"), CteSelect]

  /**
   * `WITH`, then `\s+` up to a, `.+` up to b, `\s+` up to c, then `SELECT`
   * and one more white-space character (the rest of the final `\s+` is
   * optional for a match).
   */
  predicate CteSplit(s: string, a: int, b: int, c: int)
  {
    && 4 < a < b < c && c + 6 < |s|
    && s[..4] == "WITH"
    && AllSpace(s[4..a]) && NoNewline(s[a..b]) && AllSpace(s[b..c])
    && s[c..c + 6] == "SELECT" && IsPcreSpace(s[c + 6])
  }

  /** `preg_match($pattern, $s)` for one allow-list entry. */
  predicate AllowMatches(p: Allow, s: string)
  {
    match p
    case Leading(w) => StartsWith(s, w) && |s| > |w| && IsPcreSpace(s[|w|])
    case CteSelect => exists a, b, c | 0 <= a <= b <= c <= |s| :: CteSplit(s, a, b, c)
  }

  /** Some allow-list entry matches. */
  predicate Allowed(upper: string)
  {
    exists k | 0 <= k < |AllowedPatterns| :: AllowMatches(AllowedPatterns[k], upper)
  }

  /** The foreach over the allow-list, leaving it at the first match. */
  method CheckAllowed(upper: string) returns (allowed: bool)
    ensures allowed <==> Allowed(upper)
  {
    allowed := false;
    var k := 0;
    while k < |AllowedPatterns|
      invariant 0 <= k <= |AllowedPatterns|
      invariant !allowed ==> forall j | 0 <= j < k :: !AllowMatches(AllowedPatterns[j], upper)
      invariant allowed ==> Allowed(upper)
    {
      if AllowMatches(AllowedPatterns[k], upper) {
        allowed := true;
        break;
      }
      k := k + 1;
    }
  }

  /** An allowed query starts with one of the five keywords. */
  lemma AllowedStartsWithKeyword(upper: string)
    requires Allowed(upper)
    ensures || StartsWith(upper, "SELECT") || StartsWith(upper, "SHOW")
            || StartsWith(upper, "DESCRIBE") || StartsWith(upper, "EXPLAIN")
            || StartsWith(upper, "WITH")
  {
    var k :| 0 <= k < |AllowedPatterns| && AllowMatches(AllowedPatterns[k], upper);
    if k == 4 {
      var a, b, c :| 0 <= a <= b <= c <= |upper| && CteSplit(upper, a, b, c);
      assert upper[..4] == "WITH";
    }
  }

  /** The keyword must be followed by white space: `SELECT*FROM t` is not allowed. */
  lemma SelectNeedsSpace(rest: string)
    requires |rest| == 0 || !IsPcreSpace(rest[0])
    ensures !Allowed("SELECT" + rest)
  {
    var s := "SELECT" + rest;
    forall k | 0 <= k < |AllowedPatterns|
      ensures !AllowMatches(AllowedPatterns[k], s)
    {
      if k == 4 {
        assert s[..4] != "WITH" by { assert s[0] == 'S'; }
      } else if k == 0 {
        if |s| > 6 { assert s[6] == rest[0]; }
      } else if k == 1 {
        assert s[..4][1] != "SHOW"[1];
      } else {
        assert s[0] != AllowedPatterns[k].word[0];
      }
    }
  }

  /**
   * The allow-list only looks at the head of the query: after `WITH `,
   * any one-line text followed by ` SELECT ` passes, so a common table
   * expression that deletes or updates rows is let through.
   */
  lemma {:induction false} AnyCteBodyAllowed(body: string, tail: string)
    requires |body| > 0 && NoNewline(body)
    ensures Allowed("WITH " + body + " SELECT " + tail)
  {
    var s := "WITH " + body + " SELECT " + tail;
    var b := 5 + |body|;
    assert s[..4] == "WITH";
    assert s[4..5] == " ";
    assert s[5..b] == body;
    assert s[b..b + 1] == " ";
    assert s[b + 1..b + 7] == "SELECT";
    assert s[b + 7] == ' ';
    assert CteSplit(s, 5, b, b + 1);
    assert AllowMatches(AllowedPatterns[4], s);
  }

  // ---------------------------------------------------------------- deny-list

  /** The deny-list entries: `/\bNAME\b/i`, or `/\bcopy\s+/i`. */
  datatype Danger = Word(name: string) | CopyCommand

  const DangerousPatterns: seq<Danger> :=
    [Word("pg_sleep"), Word("pg_terminate_backend"), Word("pg_cancel_backend"),
     Word("lo_import"), Word("lo_export"), CopyCommand]

  /** `\b` before position i of a word that starts with a word character. */
  predicate BoundaryBefore(s: string, i: int)
    requires 0 <= i <= |s|
  {
    i == 0 || !IsWordChar(s[i - 1])
  }

  /** `\b` after a word ending with a word character, at position j. */
  predicate BoundaryAfter(s: string, j: int)
    requires 0 <= j <= |s|
  {
    j == |s| || !IsWordChar(s[j])
  }

  /** One deny-list entry matches at position i, ignoring ASCII case. */
  predicate DangerAt(p: Danger, s: string, i: int)
  {
    match p
    case Word(w) =>
      0 <= i && i + |w| <= |s| && Lower(s[i..i + |w|]) == w
      && BoundaryBefore(s, i) && BoundaryAfter(s, i + |w|)
    case CopyCommand =>
      0 <= i && i + 4 < |s| && Lower(s[i..i + 4]) == "copy"
      && BoundaryBefore(s, i) && IsPcreSpace(s[i + 4])
  }

  /** `preg_match($pattern, $s)` for one deny-list entry. */
  predicate DangerMatches(p: Danger, s: string)
  {
    exists i | 0 <= i <= |s| :: DangerAt(p, s, i)
  }

  predicate Dangerous(q: string)
  {
    exists k | 0 <= k < |DangerousPatterns| :: DangerMatches(DangerousPatterns[k], q)
  }

  /** The foreach over the deny-list; true where the source throws. */
  method CheckDangerous(q: string) returns (dangerous: bool)
    ensures dangerous <==> Dangerous(q)
  {
    var k := 0;
    while k < |DangerousPatterns|
      invariant 0 <= k <= |DangerousPatterns|
      invariant forall j | 0 <= j < k :: !DangerMatches(DangerousPatterns[j], q)
    {
      if DangerMatches(DangerousPatterns[k], q) {
        return true;
      }
      k := k + 1;
    }
    return false;
  }

  /** `pg_sleep` typed in any letter case, standing as a word anywhere in the query, is found. */
  lemma SleepFound(pre: string, typed: string, post: string)
    requires Lower(typed) == "pg_sleep"
    requires |pre| == 0 || !IsWordChar(pre[|pre| - 1])
    requires |post| == 0 || !IsWordChar(post[0])
    ensures Dangerous(pre + typed + post)
  {
    var s := pre + typed + post;
    var i := |pre|;
    assert s[i..i + 8] == typed;
    assert BoundaryBefore(s, i) by { if i > 0 { assert s[i - 1] == pre[|pre| - 1]; } }
    assert BoundaryAfter(s, i + 8) by { if i + 8 < |s| { assert s[i + 8] == post[0]; } }
    assert DangerAt(Word("pg_sleep"), s, i);
    assert DangerMatches(DangerousPatterns[0], s);
  }

  /** The word boundary keeps longer names out: `pg_sleep` followed by a word character does not match there. */
  lemma LongerNameNotSleep(pre: string, typed: string, c: char, post: string)
    requires Lower(typed) == "pg_sleep" && IsWordChar(c)
    ensures !DangerAt(Word("pg_sleep"), pre + typed + [c] + post, |pre|)
  {
    var s := pre + typed + [c] + post;
    assert s[|pre| + 8] == c;
  }

  // ---------------------------------------------------------------- the request

  /** A row as PDO::FETCH_ASSOC returns it: column names and values, in order. */
  type Row = seq<(string, string)>

  function Keys(r: Row): (ks: seq<string>)
    ensures |ks| == |r| && forall i | 0 <= i < |r| :: ks[i] == r[i].0
  {
    seq(|r|, i requires 0 <= i < |r| => r[i].0)
  }

  /**
   * What the database returns for the statement: all rows, the column
   * names of the result, and the tables the statement leaves once
   * autocommitted. The lists admit statements that write (a data-modifying
   * `WITH`, `EXPLAIN ANALYZE` of a DELETE, `setval`), so `after` need not
   * be the tables the statement started from.
   */
  datatype Executed = Executed(rows: seq<Row>, columnNames: seq<string>, after: Tables)

  datatype QueryResponse =
    | QueryOk(results: seq<Row>, columns: seq<string>, rowsAffected: nat, message: Option<string>)
    | QueryFailed(error: string)

  const RowLimit := 1000

  /** `array_slice($results, 0, 1000)` when there are more than 1000 rows, with its message. */
  function Truncate(rows: seq<Row>): (r: (seq<Row>, Option<string>))
  {
    if |rows| > RowLimit then
      (rows[..RowLimit], Some("Results limited to first 1000 rows (total: " + NatToString(|rows|) + ")"))
    else (rows, None)
  }

  /** The columns: the first row's keys, or the statement's column names when there is no row. */
  function Columns(e: Executed): seq<string>
  {
    if |e.rows| > 0 then Keys(e.rows[0]) else e.columnNames
  }

  /** The activity description: the first 100 characters of the query and `...`. */
  function QueryLog(q: string): string
  {
    "Query: " + (if |q| <= 100 then q else q[..100]) + "..."
  }

  /**
   * The request: `input` is the decoded JSON body (None when it does not
   * decode), `exec` what running the statement yields (an error carries
   * PDO's message).
   */
  datatype Request = Request(input: Option<map<string, string>>, exec: Result<Executed>)

  /** The posted query, trimmed; a missing field is ''. */
  function QueryText(m: map<string, string>): string
  {
    TrimWs(if "query" in m then m["query"] else "")
  }

  /** The error that stops the request before the statement runs, if any. */
  function Rejection(user: Option<int>, dbUp: bool, rq: Request): Option<string>
  {
    if user.None? then Some("Unauthorized")
    else if rq.input.None? || |rq.input.value| == 0 then Some("Invalid JSON input")
    else if Empty(QueryText(rq.input.value)) then Some("Query cannot be empty")
    else if !dbUp then Some("Database connection failed")
    else if !Allowed(Upper(QueryText(rq.input.value))) then
      Some("Only SELECT, SHOW, DESCRIBE, EXPLAIN, and CTE queries are allowed for security reasons")
    else if Dangerous(QueryText(rq.input.value)) then Some("Query contains potentially dangerous functions")
    else None
  }

  /**
   * The endpoint over the tables: a successful statement leaves its own
   * tables, and the activity row is appended to them; a refused or failed
   * one (rolled back by autocommit) changes nothing.
   */
  function ExecuteQuery(t: Tables, user: Option<int>, dbUp: bool, rq: Request): (r: (Tables, QueryResponse))
  {
    match Rejection(user, dbUp, rq)
    case Some(e) => (t, QueryFailed(e))
    case None =>
      match rq.exec
      case Err(msg) => (t, QueryFailed("Database error: " + msg))
      case Ok(e) =>
        var (shown, message) := Truncate(e.rows);
        (e.after.(activity := e.after.activity + [Activity(user, "sql_query_executed", QueryLog(QueryText(rq.input.value)))]),
         QueryOk(shown, Columns(e), |e.rows|, message))
  }

  /** The endpoint's statements over the database object, with both list checks as loops. */
  method RunQuery(db: Database, user: Option<int>, dbUp: bool, rq: Request) returns (out: QueryResponse)
    modifies db
    ensures Rejection(user, dbUp, rq).Some? || rq.exec.Err? ==> db.Valid() == old(db.Valid())
    ensures Rejection(user, dbUp, rq).None? && rq.exec.Ok? ==> (db.Valid() <==> TablesValid(rq.exec.value.after))
    ensures (db.Snapshot(), out) == ExecuteQuery(old(db.Snapshot()), user, dbUp, rq)
  {
    if user.None? { return QueryFailed("Unauthorized"); }
    if rq.input.None? || |rq.input.value| == 0 { return QueryFailed("Invalid JSON input"); }
    var q := QueryText(rq.input.value);
    if Empty(q) { return QueryFailed("Query cannot be empty"); }
    if !dbUp { return QueryFailed("Database connection failed"); }
    var allowed := CheckAllowed(Upper(q));
    if !allowed {
      return QueryFailed("Only SELECT, SHOW, DESCRIBE, EXPLAIN, and CTE queries are allowed for security reasons");
    }
    var dangerous := CheckDangerous(q);
    if dangerous { return QueryFailed("Query contains potentially dangerous functions"); }
    assert Rejection(user, dbUp, rq) == None;
    match rq.exec
    case Err(msg) =>
      out := QueryFailed("Database error: " + msg);
    case Ok(e) =>
      var (shown, message) := Truncate(e.rows);
      // The statement is autocommitted: every table becomes what it leaves.
      db.Restore(e.after);
      db.LogActivity(user, "sql_query_executed", QueryLog(q));
      out := QueryOk(shown, Columns(e), |e.rows|, message);
  }

  // ---------------------------------------------------------------- properties

  /** A query that trims to '' or '0' never reaches the database. */
  lemma EmptyQueryRejected(t: Tables, user: Option<int>, rq: Request)
    requires user.Some? && rq.input.Some? && |rq.input.value| > 0
    requires Empty(QueryText(rq.input.value))
    ensures ExecuteQuery(t, user, true, rq) == (t, QueryFailed("Query cannot be empty"))
  {
  }

  /** A statement runs only when it is allowed and not dangerous. */
  lemma RunsOnlyWhenListed(t: Tables, user: Option<int>, dbUp: bool, rq: Request)
    requires ExecuteQuery(t, user, dbUp, rq).1.QueryOk?
    ensures rq.input.Some? && Allowed(Upper(QueryText(rq.input.value)))
    ensures !Dangerous(QueryText(rq.input.value))
  {
  }

  /** The deny-list wins over the allow-list. */
  lemma DenyBeatsAllow(t: Tables, user: Option<int>, rq: Request)
    requires user.Some? && rq.input.Some? && |rq.input.value| > 0
    requires !Empty(QueryText(rq.input.value)) && Allowed(Upper(QueryText(rq.input.value)))
    requires Dangerous(QueryText(rq.input.value))
    ensures ExecuteQuery(t, user, true, rq) == (t, QueryFailed("Query contains potentially dangerous functions"))
  {
  }

  /**
   * At most 1000 rows come back, they are the first rows of the result,
   * the message is present exactly when rows were cut off, and
   * `rows_affected` is the full count.
   */
  lemma ResultBounds(t: Tables, user: Option<int>, dbUp: bool, rq: Request)
    requires ExecuteQuery(t, user, dbUp, rq).1.QueryOk?
    ensures var o := ExecuteQuery(t, user, dbUp, rq).1;
      && rq.exec.Ok?
      && |o.results| <= RowLimit
      && o.results == rq.exec.value.rows[..|o.results|]
      && o.rowsAffected == |rq.exec.value.rows|
      && (o.message.Some? <==> |rq.exec.value.rows| > RowLimit)
      && (|o.results| < o.rowsAffected <==> o.message.Some?)
  {
  }

  /** When rows exist, the columns are the keys of the first row. */
  lemma ColumnsOfFirstRow(t: Tables, user: Option<int>, dbUp: bool, rq: Request)
    requires ExecuteQuery(t, user, dbUp, rq).1.QueryOk?
    requires |rq.exec.value.rows| > 0
    ensures var o := ExecuteQuery(t, user, dbUp, rq).1;
      |o.columns| == |rq.exec.value.rows[0]|
      && forall i | 0 <= i < |o.columns| :: o.columns[i] == rq.exec.value.rows[0][i].0
  {
  }

  /**
   * A query that ran leaves the tables its statement left, with exactly one
   * activity row added; a refused or failed one changes nothing.
   */
  lemma LoggedIffRan(t: Tables, user: Option<int>, dbUp: bool, rq: Request)
    ensures var r := ExecuteQuery(t, user, dbUp, rq);
      && (r.1.QueryOk? ==> rq.exec.Ok? && r.0 == rq.exec.value.after.(activity := rq.exec.value.after.activity
                                                  + [Activity(user, "sql_query_executed", QueryLog(QueryText(rq.input.value)))]))
      && (r.1.QueryFailed? ==> r.0 == t)
  {
  }

  /** A statement that writes nothing leaves only the activity row behind. */
  lemma ReadOnlyOnlyLogs(t: Tables, user: Option<int>, dbUp: bool, rq: Request)
    requires rq.exec.Ok? && rq.exec.value.after == t
    ensures var r := ExecuteQuery(t, user, dbUp, rq);
      r.0 == t || r.0 == t.(activity := t.activity + [Activity(user, "sql_query_executed", QueryLog(QueryText(rq.input.value)))])
  {
  }

  /**
   * What an admitted data-modifying statement deletes stays deleted: the
   * applications and deployments after the request are those the statement
   * left, whatever they were before.
   */
  lemma WritesKept(t: Tables, user: Option<int>, dbUp: bool, rq: Request)
    requires ExecuteQuery(t, user, dbUp, rq).1.QueryOk?
    ensures var r := ExecuteQuery(t, user, dbUp, rq).0;
      && r.applications == rq.exec.value.after.applications
      && r.deployments == rq.exec.value.after.deployments
      && r.embeddings == rq.exec.value.after.embeddings
      && r.nextAppId == rq.exec.value.after.nextAppId
  {
  }
}
