/**
 * The schema hint `describe_schema`: a header line, then one line per table
 * among the first `SCHEMA_TABLE_LIMIT` the inspector lists, each naming the
 * first `SCHEMA_COL_LIMIT` columns with their type, or `?` when the column
 * lookup for that table failed.
 *
 * The inspector is given as data: the table names in the order
 * `get_table_names()` returns them, each with the outcome of `get_columns`.
 */
module Schema {
  import opened Wrappers
  import opened PyText

  /** `SCHEMA_TABLE_LIMIT` */
  const SchemaTableLimit: nat := 40

  /** `SCHEMA_COL_LIMIT` */
  const SchemaColumnLimit: nat := 60

  const Header: string := "Esquema disponible (parcial):"

  /** A column as the inspector reports it: its name and its type's `__visit_name__`, when the type has one. */
  datatype Column = Column(name: string, typeName: Option<string>)

  /** A table with what `get_columns` gave for it: the columns, or the message of the exception it raised. */
  datatype Table = Table(name: string, columns: Result<seq<Column>, string>)

  function Min(a: nat, b: nat): (m: nat) {
    if a < b then a else b
  }

  /** `name:type`, with `any` standing for a type without a visit name. */
  function ColumnEntry(c: Column): (entry: string) {
    c.name + ":" + match c.typeName case Some(t) => t case None => "any"
  }

  /** The entries of the first `SCHEMA_COL_LIMIT` columns, in order. */
  function ColumnEntries(cols: seq<Column>): (entries: seq<string>) {
    seq(Min(|cols|, SchemaColumnLimit), i requires 0 <= i < Min(|cols|, SchemaColumnLimit) => ColumnEntry(cols[i]))
  }

  /** The line for one table. */
  function TableLine(t: Table): (line: string) {
    match t.columns
    case Ok(cols) => "- " + t.name + " (columnas: " + Join(", ", ColumnEntries(cols)) + ")"
    case Err(_) => "- " + t.name + " (columnas: ?)"
  }

  /** The line of each table, in order. */
  function TableLines(tables: seq<Table>): (lines: seq<string>) {
    seq(|tables|, i requires 0 <= i < |tables| => TableLine(tables[i]))
  }

  /** The lines of the hint: the header, then the line of each shown table, in the inspector's order. */
  function SchemaLines(tables: seq<Table>): (lines: seq<string>)
    ensures |lines| == Min(|tables|, SchemaTableLimit) + 1 && lines[0] == Header
  {
    [Header] + TableLines(tables[..Min(|tables|, SchemaTableLimit)])
  }

  /** `describe_schema`: builds the lines one table at a time and joins them with newlines. */
  method DescribeSchema(tables: seq<Table>) returns (summary: string)
    ensures summary == Join("\n", SchemaLines(tables))
  {
    var shown := tables[..Min(|tables|, SchemaTableLimit)];
    var parts := [Header];
    for i := 0 to |shown|
      invariant parts == [Header] + TableLines(shown[..i])
    {
      var t := shown[i];
      var line;
      match t.columns {
        case Ok(cols) =>
          var colDesc := Join(", ", ColumnEntries(cols));
          line := "- " + t.name + " (columnas: " + colDesc + ")";
        case Err(_) =>
          line := "- " + t.name + " (columnas: ?)";
      }
      TableLinesSnoc(shown, i);
      parts := parts + [line];
    }
    assert shown[..|shown|] == shown;
    summary := Join("\n", parts);
  }

  lemma TableLinesSnoc(tables: seq<Table>, i: nat)
    requires i < |tables|
    ensures TableLines(tables[..i + 1]) == TableLines(tables[..i]) + [TableLine(tables[i])]
  {
    assert forall j :: 0 <= j < i ==> tables[..i + 1][j] == tables[..i][j];
  }

  // ---------------------------------------------------------------------------
  // Properties of the hint

  /** Tables beyond the first `SCHEMA_TABLE_LIMIT` never reach the hint. */
  lemma TablesPastLimitIgnored(tables: seq<Table>, more: seq<Table>)
    requires |tables| >= SchemaTableLimit
    ensures SchemaLines(tables + more) == SchemaLines(tables)
  {
    assert forall i :: 0 <= i < SchemaTableLimit ==> (tables + more)[i] == tables[i];
  }

  /** Columns beyond the first `SCHEMA_COL_LIMIT` never reach their table's line. */
  lemma ColumnsPastLimitIgnored(cols: seq<Column>, more: seq<Column>)
    requires |cols| >= SchemaColumnLimit
    ensures ColumnEntries(cols + more) == ColumnEntries(cols)
  {
    assert forall i :: 0 <= i < SchemaColumnLimit ==> (cols + more)[i] == cols[i];
  }

  /**
   * A failed column lookup only turns its own table's line into the `?`
   * line: every other line stays as it was.
   */
  lemma FailureIsLocal(tables: seq<Table>, k: nat, message: string)
    requires k < |tables|
    ensures var failed := tables[k := Table(tables[k].name, Err(message))];
            var before, after := SchemaLines(tables), SchemaLines(failed);
            |after| == |before|
            && (forall j :: 0 <= j < |before| && j != k + 1 ==> after[j] == before[j])
            && (k < SchemaTableLimit ==> after[k + 1] == "- " + tables[k].name + " (columnas: ?)")
  {
  }

  /** No newline in any name or type name the inspector reports. */
  predicate SingleLineNames(tables: seq<Table>) {
    forall i :: 0 <= i < |tables| ==>
      '\n' !in tables[i].name
      && (tables[i].columns.Ok? ==> forall j :: 0 <= j < |tables[i].columns.value| ==> SingleLineColumn(tables[i].columns.value[j]))
  }

  predicate SingleLineColumn(c: Column) {
    '\n' !in c.name && (c.typeName.Some? ==> '\n' !in c.typeName.value)
  }

  lemma TableLineIsOneLine(t: Table)
    requires '\n' !in t.name
    requires t.columns.Ok? ==> forall j :: 0 <= j < |t.columns.value| ==> SingleLineColumn(t.columns.value[j])
    ensures '\n' !in TableLine(t)
  {
    if t.columns.Ok? {
      var entries := ColumnEntries(t.columns.value);
      JoinAvoids(", ", entries, '\n');
    }
  }

  /**
   * The hint splits back at its newlines into exactly the header and the
   * table lines, provided no name holds a newline: one line per shown table.
   */
  lemma {:induction false} HintSplitsIntoLines(tables: seq<Table>)
    requires SingleLineNames(tables)
    ensures Split(Join("\n", SchemaLines(tables)), '\n') == SchemaLines(tables)
  {
    LinesAreSingle(tables);
    SplitLines(SchemaLines(tables));
  }

  /** Every line of the hint is free of newlines when the names are. */
  lemma LinesAreSingle(tables: seq<Table>)
    requires SingleLineNames(tables)
    ensures forall i :: 0 <= i < |SchemaLines(tables)| ==> '\n' !in SchemaLines(tables)[i]
  {
    var lines := SchemaLines(tables);
    forall i | 0 <= i < |lines|
      ensures '\n' !in lines[i]
    {
      if i > 0 {
        TableLineIsOneLine(tables[i - 1]);
      }
    }
  }

  /** Lines without newlines, joined with newlines, split back into themselves. */
  lemma SplitLines(lines: seq<string>)
    requires lines != []
    requires forall i :: 0 <= i < |lines| ==> '\n' !in lines[i]
    ensures Split(Join("\n", lines), '\n') == lines
  {
    assert "\n" == ['\n'] + "";
    SplitJoin(lines, '\n', "");
    var pieces := Split(Join("\n", lines), '\n');
    assert forall i :: 1 <= i < |lines| ==> pieces[i] == "" + lines[i] == lines[i];
  }

  /**
   * The column list of a table splits back at its commas into one piece per
   * shown column, each the column's entry (after the `", "` separator's
   * space), provided no name holds a comma.
   */
  lemma ColumnListSplits(cols: seq<Column>)
    requires cols != []
    requires forall j :: 0 <= j < |cols| ==> ',' !in ColumnEntry(cols[j])
    ensures var pieces := Split(Join(", ", ColumnEntries(cols)), ',');
            |pieces| == Min(|cols|, SchemaColumnLimit) && pieces[0] == ColumnEntry(cols[0])
            && forall i :: 1 <= i < |pieces| ==> pieces[i] == " " + ColumnEntry(cols[i])
  {
    var entries := ColumnEntries(cols);
    assert ", " == [','] + " ";
    SplitJoin(entries, ',', " ");
  }

  /** An entry reads back, at its first colon, as the column's name and its type or `any`. */
  lemma ColumnEntryReadsBack(c: Column)
    requires ':' !in c.name
    ensures var e := ColumnEntry(c);
            var k := IndexOf(e, ':');
            k < |e| && e[..k] == c.name
            && e[k + 1..] == match c.typeName case Some(t) => t case None => "any"
  {
    var e := ColumnEntry(c);
    assert e[|c.name|] == ':';
    assert forall i :: 0 <= i < |c.name| ==> e[i] == c.name[i];
  }
}
