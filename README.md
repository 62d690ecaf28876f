# Safe-query gateway, modelled in Dafny

The gateway sits between an untrusted SQL string, typically written by a
language model, and a PostgreSQL database. This project models the parts of
it that decide things, and proves what they promise:

- **The sanitizer** `ensure_select_with_limit` (module `Sanitizer`). It runs
  four ordered checks: the query is non-empty after trimming; no mutating
  keyword appears as a whole word; it starts with `SELECT` and whitespace;
  and it carries a `LIMIT <digits>` bound, or gets ` LIMIT 200` appended.
  The three regular expressions are written as position-based predicates.
  The keyword and LIMIT patterns are decided by token scanners proved
  equivalent to them; the anchored `^SELECT\s` is checked directly.
  `SanitizerCases` settles concrete inputs.
- **The value normaliser** `normalize_value` (module `Normalizer`). A UUID
  becomes its `str()` text. A date, date-time or time becomes its
  `isoformat()` text. A Decimal becomes a float. Anything else is returned
  unchanged. Each text form has a reader, and the two are proved inverse in
  both directions.
- **The schema hint** `describe_schema` (module `Schema`). A loop builds a
  header and one line per table. It shows at most 40 tables and 60 columns
  per table. A type without a name is shown as `any`, and a table whose
  column lookup failed is shown as `?`.
- **The row loop of `run_sql`** (module `Executor`). The statement is
  sanitised before the engine connects. Each cursor row becomes a
  dictionary of normalised values.
- **The `pg_query` tool** (module `PgTool`). This is a second, weaker gate.
  It checks the URL, tests a `startswith("select")` prefix, and detects a
  limit by the substring ` limit `. It builds the query and returns the
  outcome as a result record.

Supporting modules: `Wrappers` (Option, Result), `PyText` (Python string
operations over ASCII), `Numerals` (`str(int)`, `%02d`, `%032x` and their
readers).

Simplifications that hold throughout:

- `\s`, `\w`, `\d` and `str.strip()`/`str.lower()` are taken over ASCII.
  Whitespace is space, `\t`–`\r` and `\x1c`–`\x1f`, and lower-casing folds
  `A`–`Z` only.
- The database is an input. For `run_sql` it is a function from statement to
  cursor rows or an error message. For `pg_query` it is a function from
  query to fetched rows or a raised exception. For `describe_schema` it is
  the inspector's table list with each table's column lookup outcome.

Behaviour of the code worth noting:

- `sql.strip().rstrip(";")` removes every trailing `;`. It runs after
  `strip()`, so whitespace before a `;` survives, and re-sanitising an
  accepted query is not always a no-op
  (`SanitizerCases.SpaceBeforeTerminatorSurvives`).
- The keyword check runs before the SELECT check, so `"  update t set x=1"`
  is rejected as a forbidden keyword, not as "not a SELECT"
  (`SanitizerCases.UpdateIsForbiddenBeforeSelectCheck`).
- `normalize_value` returns a value of any other type as it is.
- The schema lines read `- t (columnas: ...)` under the header
  `Esquema disponible (parcial):`.
- `run_sql` sanitises before it connects, so a rejected query never opens
  a connection.
- `dict(r._mapping)` reads every label of the row through SQLAlchemy's row
  mapping, which raises an ambiguous-column error for a label that occurs
  twice (two `id` columns of a join, say). `run_sql` then raises, and the
  model returns `AmbiguousColumn`.
- `pg_query` reports a missing `DATABASE_URL` as an `ok=False` result of the
  call. A call that names no `limit` uses 100.

## Model

| member | source | states |
|---|---|---|
| Sanitizer.Sanitize | main.py:58-73 | Rejected as empty exactly when trimming and removing every trailing `;` leaves nothing. Rejected for a keyword exactly when the cleaned text holds a mutating keyword as a case-insensitive whole word, which wins over the SELECT check. Rejected as not-a-SELECT exactly when neither earlier check fired and the text does not start with `select` and whitespace. Every accepted output is safe: it starts with `select` and whitespace, holds no forbidden whole word, and carries a `LIMIT <digits>` bound. It equals the cleaned text when that already has a bound, and the cleaned text plus ` LIMIT 200` otherwise. |
| Sanitizer.ScanForbiddenCorrect | main.py:63-64 | The keyword scanner finds a mutating keyword exactly when the whole-word regex has a match. |
| Sanitizer.ScanLimitCorrect | main.py:70 | The limit scanner finds a clause exactly when `\bLIMIT\s+\d+\b` has a match. |
| Sanitizer.WholeWordIsToken | main.py:63 | A whole-word match starts and ends a maximal run of word characters. |
| Sanitizer.DefaultClauseKeepsSafe | main.py:70-71 | Appending ` LIMIT 200` (the text of `SAFE_ROW_LIMIT`) to a safe-prefixed, keyword-free text keeps the prefix, adds no keyword and creates a limit clause. |
| Sanitizer.DefaultClauseText | main.py:35 | The appended clause is ` LIMIT 200`. |
| Sanitizer.MessagesDistinct | main.py:59-68 | The empty, forbidden-keyword and not-a-SELECT errors carry three different messages. |
| Sanitizer.EmptyIffOnlyTerminators | main.py:59-61 | Rejection as empty happens exactly when the trimmed text is made only of `;`. |
| Sanitizer.WhitespaceOnlyIsEmpty | main.py:59-61 | Whitespace-only input is rejected as empty. |
| Sanitizer.CleanKeeps | main.py:59 | Cleaning leaves a text without edge whitespace and without a final `;` unchanged. |
| Sanitizer.CleanDropsTerminator | main.py:59 | Cleaning removes a single final `;` and nothing before it. |
| Sanitizer.CleanDropsPadding | main.py:59 | Leading whitespace is all that cleaning removes from a padded clean text. |
| Sanitizer.FixedPointIffClean | main.py:58-73 | Re-sanitising an accepted output returns it unchanged exactly when cleaning leaves it unchanged. |
| Sanitizer.ResanitizeAppended | main.py:70-73 | An output that received the default bound is a fixed point of the sanitizer. |
| SanitizerCases.TerminatorsOnlyAreEmpty | main.py:59-61 | `" ;; "` is rejected as empty. |
| SanitizerCases.SmuggledDropIsForbidden | main.py:63-65 | `"SELECT * FROM t; DROP TABLE t"` is rejected for its keyword. |
| SanitizerCases.UpdateIsForbiddenBeforeSelectCheck | main.py:63-68 | `"  update t set x=1"` is rejected for its keyword, not for its start. |
| SanitizerCases.UnboundedGetsDefault | main.py:70-73 | `"SELECT * FROM users"` comes back with ` LIMIT 200` appended. |
| SanitizerCases.ExplicitBoundKept | main.py:70-73 | `"SELECT * FROM users LIMIT 5"` comes back unchanged. |
| SanitizerCases.KeywordInsideIdentifierAllowed | main.py:63-64 | `updated_at` does not count as `update`. |
| SanitizerCases.SelectNeedsWhitespace | main.py:67-68 | `"select*from t"` is rejected as not a SELECT. |
| SanitizerCases.SpaceBeforeTerminatorSurvives | main.py:59 | `"SELECT 1 LIMIT 5 ;"` is accepted as `"SELECT 1 LIMIT 5 "`, and sanitising that again gives a different text. |
| Normalizer.Normalize | main.py:75-82 | A UUID, date, date-time or time becomes text. A Decimal becomes the float rounded from it. Every other value comes back unchanged. |
| Normalizer.NormalizeReadsBack | main.py:76-79 | The text made from a UUID, date, date-time or time reads back as that same value. |
| Normalizer.NormalizeIdempotent | main.py:75-82 | Normalising twice is normalising once. |
| Normalizer.NormalizeTransportSafe | main.py:75-82 | The output is a transport-safe scalar exactly when the input is neither bytes nor of an unknown type. |
| Normalizer.NormalizeKeepsScalars | main.py:82 | An already transport-safe value is returned unchanged. |
| Normalizer.UuidRoundTrip | main.py:76-77 | `str(uuid)` of a 128-bit value reads back as that value. |
| Normalizer.UuidTextCanonical | main.py:76-77 | Any text the UUID reader accepts is exactly `str()` of the value it reads. |
| Normalizer.DateRoundTrip | main.py:78-79 | `date.isoformat()` of a valid date reads back as that date. |
| Normalizer.DateTextCanonical | main.py:78-79 | Any text the date reader accepts is exactly the `isoformat()` of the date it reads. |
| Normalizer.TimeRoundTrip | main.py:78-79 | `time.isoformat()` reads back as the same time, with microseconds and UTC offset. |
| Normalizer.TimeTextCanonical | main.py:78-79 | Any text the time reader accepts is exactly the `isoformat()` of the time it reads. |
| Normalizer.DateTimeRoundTrip | main.py:78-79 | `datetime.isoformat()` reads back as the same date and time. |
| Normalizer.DateTimeTextCanonical | main.py:78-79 | Any text the date-time reader accepts is exactly the `isoformat()` of what it reads. |
| Normalizer.OffsetRoundTrip | main.py:78-79 | A UTC offset of under a day written as `±HH:MM` reads back as the same signed minutes. |
| Numerals.FixedWidthRoundTrip | main.py:76-79 | A number that fits, zero-padded to a fixed width, reads back as itself. |
| Numerals.ParsedDigitsRender | main.py:76-79 | A digit string reads as a number whose fixed-width rendering is that string. |
| Numerals.ValueOfBound | main.py:76-79 | `n` digits read as less than the base to the power `n`. |
| Numerals.DecimalRoundTrip | tools.py:35 | `str(i)` of any integer reads back as `i`. |
| Schema.SchemaLines | main.py:45-56 | The hint has one line more than the number of shown tables, at most 41 lines, and starts with the header. |
| Schema.DescribeSchema | main.py:45-56 | The loop's output is the hint's lines joined with newlines: the header, then the line of each of the first 40 tables in inspector order. |
| Schema.TablesPastLimitIgnored | main.py:47 | Tables after the first 40 never change the hint. |
| Schema.ColumnsPastLimitIgnored | main.py:51 | Columns after the first 60 never change a table's line. |
| Schema.FailureIsLocal | main.py:50-55 | A failed column lookup turns only its own line into `- t (columnas: ?)`. Every other line stays the same. |
| Schema.HintSplitsIntoLines | main.py:48-56 | With newline-free names, splitting the hint at newlines gives back exactly the header and the table lines. |
| Schema.ColumnListSplits | main.py:51-53 | With comma-free entries, a table's column list splits at commas into one piece per shown column (at most 60), each that column's entry. |
| Schema.ColumnEntryReadsBack | main.py:52 | An entry splits at its first colon into the column's name and its type name, or `any` when the type has none. |
| Executor.CollectRows | main.py:88-92 | The loop fails with the ambiguous-column error exactly when some row repeats a label. Otherwise it returns exactly as many rows as the cursor yields, in the same order, each row's dictionary of normalised values. |
| Executor.Engine.RunSql | main.py:84-92 | A rejected statement raises the sanitizer's error without connecting or executing anything. An accepted one opens one connection and executes exactly the sanitised text, which is a safe query, so every statement the engine ever executes is safe. Its rows come back normalised one for one; the driver's error, or the ambiguous-column error for a row that repeats a label, is raised instead. |
| Executor.MappingKeys | main.py:90 | A row's dictionary has exactly the row's column labels as keys. |
| Executor.DistinctLabelsKept | main.py:90 | With distinct labels, each label maps to its own value, normalised. |
| Executor.RowValuesNormal | main.py:90 | Every value in a returned row is already normal. |
| PgTool.PgQuery | tools.py:22-44 | Without a URL the answer is the URL error. With one, the answer is the SELECT error exactly when the text is empty or does not start with `select` once trimmed and lower-cased. An accepted statement is sent as `Query` builds it; success gives `ok=True` with the rows, `applied_limit` and the limit, and an exception gives `ok=False` with its `Type: message` text. |
| PgTool.Query | tools.py:35 | The query starts with the original, unstripped text, and is longer than it exactly when `add_limit` holds. |
| PgTool.AddLimit | tools.py:34 | `add_limit` holds exactly when ` limit ` does not occur in the trimmed, lower-cased text. |
| PgTool.MissingUrlShortCircuits | tools.py:27-28 | Without a URL, the answer is the URL error whatever the statement, and the database is never consulted. |
| PgTool.RejectedExactlyWhenNotSelect | tools.py:30-31 | With a URL, the answer is the SELECT error exactly when the text is empty or its trimmed, lower-cased form does not start with `select`. |
| PgTool.FailureTextIsDistinct | tools.py:43-44 | An exception's `Type: message` text can never be mistaken for the gate's own error texts. |
| PgTool.AcceptedReportsOutcome | tools.py:35-44 | An accepted statement is run once as built. Success gives `ok=True` with the rows, `applied_limit == add_limit` and the limit. A failure gives `ok=False` with `Type: message` and never escapes. |
| PgTool.DefaultLimitApplied | tools.py:22-37 | A call that names no limit sends ` LIMIT 100` after a text without ` limit `, and an accepted call reports 100 as its limit. |
| PgTool.QueryCarriesLimit | tools.py:35 | The query starts with the original, unstripped text. It is that text alone when no limit is added. Otherwise it continues with ` LIMIT ` and the limit's decimal text, which reads back as the limit. |
| PgTool.SanitizerAcceptedPassesGate | tools.py:30-31 | Every statement the sanitizer accepts also passes the tool's gate. |
| PgTool.GateMissesSmuggledDrop | tools.py:30-31 | The tool's gate accepts `"SELECT * FROM t; DROP TABLE t"`, which the sanitizer rejects. |
| PgTool.GateNeedsNoWhitespace | tools.py:30-31 | The tool's gate accepts `"select*from t"`, which the sanitizer rejects. |

Functions that only compute a piece of text or a value have no row of
their own; the rows of the lemmas and methods about them state what they
mean. `Sanitizer.Clean` (main.py:59) is covered by the `Sanitizer.Clean*`,
`EmptyIffOnlyTerminators` and `FixedPointIffClean` rows.
`Executor.NormalizeRow` and `Executor.ReadRows` (main.py:89-91) are covered
by `CollectRows`, `Engine.RunSql`, `MappingKeys`, `DistinctLabelsKept` and
`RowValuesNormal`. `Schema.TableLine` (main.py:49-55) is covered by
`SchemaLines`, `FailureIsLocal`, `HintSplitsIntoLines`, `ColumnListSplits`
and `ColumnEntryReadsBack`. `Normalizer.UuidText`, `DateText`, `TimeText`
and `DateTimeText` (main.py:77, 79) are covered by the `*RoundTrip`,
`*TextCanonical` and `NormalizeReadsBack` rows.

## Left out

- The language-model plumbing (`make_llm`, `plan_sql_from_nlq`, `final_json_answer`, `ask_claude`, the module-level client), the console loop of `main`, `rich` printing and `load_dotenv`: foreign calls and I/O.
- `get_engine` and the environment read of `DATABASE_URL` in main.py: configuration. The engine is a constructor argument, and the URL in `pg_query` is a parameter.
- SQLAlchemy and psycopg themselves: connecting, pooling, executing and fetching are the input functions described above. `text()`'s own treatment of `:name` bind markers is folded into the database function.
- A failure of `get_table_names()`: it propagates out of `describe_schema`. The model takes the table list as given.
- The `params` argument of `pg_query`: `params or {}` replaces a missing value with an empty dictionary and goes to the driver with the query. What the driver does with it is part of the `run` function, and it decides nothing in the modelled logic.
- `int(limit)` on a non-integer `limit` argument: the model's limit is an integer.
- Normalizer.Normalize: the Decimal-to-float conversion is kept symbolic (`RoundedDecimal(d)`), because floating-point rounding is not modelled. Signalling NaN decimals, which make `float()` raise, are not distinguished.
- Normalizer.TimeRoundTrip: UTC offsets are whole minutes of less than a day. Offsets with seconds, which `isoformat()` writes as `+HH:MM:SS`, are not modelled.
- Normalizer.ParseTime: the readers of UUID, date and time texts accept only the canonical form the writers produce. They stand in for the inverse of `str()` and `isoformat()` and are not Python's more lenient parsers.
- The order of a row's keys: `dict(r._mapping)` keeps them in select-list order, and that order reaches the JSON output. A row here is a `map`, which has no order.
- The ambiguous-column error (`AmbiguousColumn`) carries neither the repeated label nor SQLAlchemy's message text.
- Unicode: `\s`, `\w`, `\d`, `strip()`, `lower()` and the case folding of `re.IGNORECASE` are modelled over ASCII only. Python's IGNORECASE also matches `ı` to `i`, `ſ` to `s` and the Kelvin sign to `k`, so `"SELECT ınsert FROM t"` is rejected by main.py:64 but accepted by the model.
