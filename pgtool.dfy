/**
 * The `pg_query` tool: a second, weaker gate in front of PostgreSQL. It
 * checks the connection URL, accepts any text whose trimmed, lower-cased
 * form starts with `select`, appends ` LIMIT <limit>` to the original text
 * unless ` limit ` already occurs in it, and reports every outcome as a
 * result record instead of raising.
 *
 * The database is given as a function from the query it receives to the
 * rows it fetches or the exception it raises.
 */
module PgTool {
  import opened Wrappers
  import opened PyText
  import opened Numerals
  import opened Normalizer
  import Sanitizer
  import SanitizerCases

  /** A row as `dict_row` builds it. */
  type PgRow = map<string, DbValue>

  /** An exception raised while connecting, executing or fetching: its class name and its message. */
  datatype Failure = Failure(typeName: string, message: string)

  /** The dictionary `pg_query` returns: `ok=True` with the rows and the limit metadata, or `ok=False` with an error text. */
  datatype PgResult = PgOk(rows: seq<PgRow>, appliedLimit: bool, limit: int) | PgErr(error: string)

  /** The `limit` a call uses when it names none. */
  const DefaultLimit: int := 100

  const MissingUrlError: string := "DATABASE_URL no está definida en .env"
  const NotSelectError: string := "Solo se permiten consultas SELECT"

  /** `not DATABASE_URL`: the variable is unset or empty. */
  predicate UrlMissing(url: Option<string>) {
    url.None? || url.value == []
  }

  /** The statement gate: the text is non-empty and, trimmed and lower-cased, starts with `select`. */
  predicate IsSelect(sqlText: string) {
    sqlText != [] && StartsWith(LowerStr(Strip(sqlText)), "select")
  }

  /** `add_limit`: ` limit ` does not occur in the trimmed, lower-cased text. */
  function AddLimit(sqlText: string): (add: bool)
    ensures add <==> !Contains(LowerStr(Strip(sqlText)), " limit ")
  {
    !SearchFrom(LowerStr(Strip(sqlText)), " limit ", 0)
  }

  /** The query sent: the original text, untrimmed, with ` LIMIT <limit>` after it when `add_limit` holds. */
  function Query(sqlText: string, limit: int := DefaultLimit): (query: string)
    ensures |query| >= |sqlText| && query[..|sqlText|] == sqlText
    ensures |query| > |sqlText| <==> AddLimit(sqlText)
  {
    sqlText + (if AddLimit(sqlText) then " LIMIT " + IntToDecimal(limit) else "")
  }

  /** `f"{type(e).__name__}: {e}"` */
  function FailureText(f: Failure): string {
    f.typeName + ": " + f.message
  }

  /**
   * `pg_query(sql_text, params, limit)` against a database that answers a
   * query with `run(query)`; `params or {}` goes to the driver with the
   * query, so it is part of what `run` stands for.
   */
  function PgQuery(url: Option<string>, sqlText: string, run: string -> Result<seq<PgRow>, Failure>,
                   limit: int := DefaultLimit): (result: PgResult)
    ensures UrlMissing(url) ==> result == PgErr(MissingUrlError)
    ensures !UrlMissing(url) ==> (result == PgErr(NotSelectError) <==> !IsSelect(sqlText))
    ensures !UrlMissing(url) && IsSelect(sqlText) && run(Query(sqlText, limit)).Ok? ==>
              result == PgOk(run(Query(sqlText, limit)).value, AddLimit(sqlText), limit)
    ensures !UrlMissing(url) && IsSelect(sqlText) && run(Query(sqlText, limit)).Err? ==>
              result == PgErr(FailureText(run(Query(sqlText, limit)).error))
  {
    if UrlMissing(url) then PgErr(MissingUrlError)
    else if !IsSelect(sqlText) then PgErr(NotSelectError)
    else
      match run(Query(sqlText, limit))
      case Ok(rows) => PgOk(rows, AddLimit(sqlText), limit)
      case Err(f) => FailureTextIsDistinct(f); PgErr(FailureText(f))
  }

  // ---------------------------------------------------------------------------
  // Properties of the tool

  /** Without a URL the tool answers the URL error whatever the statement, and never reaches the database. */
  lemma MissingUrlShortCircuits(url: Option<string>, sqlText: string,
                                run1: string -> Result<seq<PgRow>, Failure>, run2: string -> Result<seq<PgRow>, Failure>, limit: int)
    requires UrlMissing(url)
    ensures PgQuery(url, sqlText, run1, limit) == PgQuery(url, sqlText, run2, limit) == PgErr(MissingUrlError)
  {
  }

  /** A failure's text always holds `": "`, which the gate's own error texts do not. */
  lemma FailureTextIsDistinct(f: Failure)
    ensures FailureText(f) != NotSelectError && FailureText(f) != MissingUrlError
  {
    var t := FailureText(f);
    assert t[|f.typeName|] == ':';
    assert ':' !in NotSelectError && ':' !in MissingUrlError;
  }

  /**
   * With a URL, the tool answers the SELECT error exactly when the statement
   * is empty or does not start with `select`; a rejected statement never
   * reaches the database.
   */
  lemma RejectedExactlyWhenNotSelect(url: Option<string>, sqlText: string, run: string -> Result<seq<PgRow>, Failure>, limit: int)
    requires !UrlMissing(url)
    ensures PgQuery(url, sqlText, run, limit) == PgErr(NotSelectError) <==> !IsSelect(sqlText)
  {
    if IsSelect(sqlText) && run(Query(sqlText, limit)).Err? {
      FailureTextIsDistinct(run(Query(sqlText, limit)).error);
    }
  }

  /** An accepted statement is sent once, as built by `Query`, and its outcome is reported with the limit metadata. */
  lemma AcceptedReportsOutcome(url: Option<string>, sqlText: string, run: string -> Result<seq<PgRow>, Failure>, limit: int)
    requires !UrlMissing(url) && IsSelect(sqlText)
    ensures run(Query(sqlText, limit)).Ok? ==>
              PgQuery(url, sqlText, run, limit) == PgOk(run(Query(sqlText, limit)).value, AddLimit(sqlText), limit)
    ensures run(Query(sqlText, limit)).Err? ==>
              PgQuery(url, sqlText, run, limit).PgErr? && PgQuery(url, sqlText, run, limit).error != NotSelectError
              && PgQuery(url, sqlText, run, limit).error == FailureText(run(Query(sqlText, limit)).error)
  {
    if run(Query(sqlText, limit)).Err? {
      FailureTextIsDistinct(run(Query(sqlText, limit)).error);
    }
  }

  /**
   * The query keeps the original text in front; when the limit is added,
   * what follows is ` LIMIT ` and the decimal text of the limit, which reads
   * back as the limit.
   */
  lemma QueryCarriesLimit(sqlText: string, limit: int)
    ensures StartsWith(Query(sqlText, limit), sqlText)
    ensures !AddLimit(sqlText) ==> Query(sqlText, limit) == sqlText
    ensures AddLimit(sqlText) ==>
              var tail := Query(sqlText, limit)[|sqlText|..];
              StartsWith(tail, " LIMIT ") && ParseInt(tail[7..]) == Some(limit)
  {
    var q := Query(sqlText, limit);
    assert q[..|sqlText|] == sqlText;
    if AddLimit(sqlText) {
      var tail := q[|sqlText|..];
      assert tail == " LIMIT " + IntToDecimal(limit);
      assert tail[7..] == IntToDecimal(limit);
      DecimalRoundTrip(limit);
    }
  }

  /** The clause a call that names no limit appends. */
  lemma DefaultLimitText()
    ensures " LIMIT " + IntToDecimal(DefaultLimit) == " LIMIT 100"
  {
    assert NatToDecimal(1) == "1";
    assert NatToDecimal(10) == "10";
    assert NatToDecimal(100) == "100";
  }

  /**
   * A call that names no limit appends ` LIMIT 100` when the text has no
   * ` limit `, and an accepted call reports 100 as its limit.
   */
  lemma DefaultLimitApplied(url: Option<string>, sqlText: string, run: string -> Result<seq<PgRow>, Failure>)
    ensures Query(sqlText) == sqlText + (if AddLimit(sqlText) then " LIMIT 100" else "")
    ensures !UrlMissing(url) && IsSelect(sqlText) && run(Query(sqlText)).Ok? ==>
              PgQuery(url, sqlText, run) == PgOk(run(Query(sqlText)).value, AddLimit(sqlText), 100)
  {
    DefaultLimitText();
    if !UrlMissing(url) && IsSelect(sqlText) {
      AcceptedReportsOutcome(url, sqlText, run, DefaultLimit);
    }
  }

  // ---------------------------------------------------------------------------
  // The two gates side by side

  /** Cleaning only removes `;` from the end of the trimmed text, so what it leaves is a prefix of that text. */
  lemma CleanIsPrefixOfStrip(sql: string)
    ensures StartsWith(Strip(sql), Sanitizer.Clean(sql))
  {
  }

  /** A statement whose cleaned text starts with `select`, in any case, passes the tool's gate. */
  lemma SelectPrefixPassesGate(sql: string, c: string)
    requires Sanitizer.Clean(sql) == c && Sanitizer.MatchesAt(c, 0, "select")
    ensures IsSelect(sql)
  {
    CleanIsPrefixOfStrip(sql);
    var s := Strip(sql);
    assert s[..|c|] == c;
    forall i | 0 <= i < 6
      ensures LowerStr(s)[i] == "select"[i]
    {
      assert s[i] == c[i];
    }
  }

  /** Every statement the sanitizer accepts also passes the tool's gate. */
  lemma SanitizerAcceptedPassesGate(sql: string)
    requires Sanitizer.Sanitize(sql).Ok?
    ensures IsSelect(sql)
  {
    SelectPrefixPassesGate(sql, Sanitizer.Clean(sql));
  }

  /** Upper- or lower-case `select` at the front of a text. */
  lemma SelectWord(c: string)
    requires |c| >= 6 && (c[..6] == "SELECT" || c[..6] == "select")
    ensures Sanitizer.MatchesAt(c, 0, "select")
  {
    assert forall p :: 0 <= p < 6 ==> c[p] == c[..6][p];
  }

  /** The tool's gate lets through a mutating statement behind a SELECT, which the sanitizer rejects. */
  lemma GateMissesSmuggledDrop()
    ensures IsSelect("SELECT * FROM t; DROP TABLE t")
    ensures Sanitizer.Sanitize("SELECT * FROM t; DROP TABLE t") == Err(Sanitizer.ForbiddenKeyword)
  {
    var sql := "SELECT * FROM t; DROP TABLE t";
    SanitizerCases.DropTextIsClean();
    assert sql[..6] == "SELECT";
    SelectWord(sql);
    SelectPrefixPassesGate(sql, sql);
    SanitizerCases.SmuggledDropIsForbidden();
  }

  /** The tool's gate needs no whitespace after `select`, which the sanitizer does. */
  lemma GateNeedsNoWhitespace()
    ensures IsSelect("select*from t")
    ensures Sanitizer.Sanitize("select*from t") == Err(Sanitizer.NotSelect)
  {
    var sql := "select*from t";
    SanitizerCases.GluedTextIsClean();
    assert sql[..6] == "select";
    SelectWord(sql);
    SelectPrefixPassesGate(sql, sql);
    SanitizerCases.SelectNeedsWhitespace();
  }
}
