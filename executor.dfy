/**
 * `run_sql`: sanitise the statement, then, and only then, open a connection,
 * execute it and turn every row the cursor yields into a dictionary of
 * normalised values.
 *
 * The database behind the engine is given as a function from the statement
 * it receives to the rows its cursor yields or the driver's error message.
 */
module Executor {
  import opened Wrappers
  import opened Normalizer
  import opened Sanitizer

  /** A result row as `r._mapping` presents it: column labels with their values, in select-list order. */
  type Row = seq<(string, DbValue)>

  /** A row as `run_sql` returns it. */
  type RowDict = map<string, DbValue>

  /** Building a dictionary from the pairs: each label with its value; a label given twice keeps its later value. */
  function MappingDict(row: Row): (d: map<string, DbValue>)
    decreases |row|
  {
    if row == [] then map[]
    else MappingDict(row[..|row| - 1])[row[|row| - 1].0 := row[|row| - 1].1]
  }

  /** No label occurs twice in the row, so `r._mapping` can be read by every label. */
  predicate DistinctLabels(row: Row) {
    forall i, j :: 0 <= i < j < |row| ==> row[i].0 != row[j].0
  }

  /** `{k: normalize_value(v) for k, v in dict(r._mapping).items()}` for a row whose labels are distinct. */
  function NormalizeRow(row: Row): (d: RowDict) {
    var m := MappingDict(row);
    map k | k in m :: Normalize(m[k])
  }

  /** One dictionary per cursor row, in order. */
  function NormalizeRows(cursor: seq<Row>): (rows: seq<RowDict>) {
    seq(|cursor|, i requires 0 <= i < |cursor| => NormalizeRow(cursor[i]))
  }

  /**
   * Why `run_sql` raises: the sanitizer's `ValueError`, an error from the
   * driver, or the ambiguous-column error SQLAlchemy's row mapping raises
   * when a result row carries the same label twice.
   */
  datatype RunError = Rejected(reason: SanitizeError) | DatabaseError(message: string) | AmbiguousColumn

  /** What the loop of `run_sql` makes of the cursor: the rows, or the ambiguous-column error if any row repeats a label. */
  function ReadRows(cursor: seq<Row>): (r: Result<seq<RowDict>, RunError>) {
    if forall i :: 0 <= i < |cursor| ==> DistinctLabels(cursor[i]) then Ok(NormalizeRows(cursor))
    else Err(AmbiguousColumn)
  }

  /**
   * The row loop of `run_sql`: appends the dictionary of each row as the
   * cursor yields it, and raises at the first row that repeats a label.
   */
  method CollectRows(cursor: seq<Row>) returns (r: Result<seq<RowDict>, RunError>)
    ensures r.Ok? <==> forall i :: 0 <= i < |cursor| ==> DistinctLabels(cursor[i])
    ensures r.Err? ==> r.error == AmbiguousColumn
    ensures r.Ok? ==> |r.value| == |cursor| && forall i :: 0 <= i < |cursor| ==> r.value[i] == NormalizeRow(cursor[i])
  {
    var rows := [];
    for i := 0 to |cursor|
      invariant rows == NormalizeRows(cursor[..i])
      invariant forall k :: 0 <= k < i ==> DistinctLabels(cursor[k])
    {
      if !DistinctLabels(cursor[i]) {
        return Err(AmbiguousColumn);
      }
      var rowDict := NormalizeRow(cursor[i]);
      NormalizeRowsSnoc(cursor, i);
      rows := rows + [rowDict];
    }
    assert cursor[..|cursor|] == cursor;
    return Ok(rows);
  }

  lemma NormalizeRowsSnoc(cursor: seq<Row>, i: nat)
    requires i < |cursor|
    ensures NormalizeRows(cursor[..i + 1]) == NormalizeRows(cursor[..i]) + [NormalizeRow(cursor[i])]
  {
    assert forall j :: 0 <= j < i ==> cursor[..i + 1][j] == cursor[..i][j];
  }

  /** The engine `run_sql` is handed, with a record of what it has been asked to do. */
  class Engine {
    /** How many times `engine.connect()` has been called. */
    var connections: nat
    /** The statements handed to a connection to execute, in order, whether or not the database then ran them. */
    var executed: seq<string>
    /** What the database answers to a statement. */
    const answer: string -> Result<seq<Row>, string>

    /** Every statement the engine has executed passed the sanitizer's safety conditions. */
    ghost predicate Valid()
      reads this
    {
      forall i :: 0 <= i < |executed| ==> IsSafeQuery(executed[i])
    }

    constructor (answer: string -> Result<seq<Row>, string>)
      ensures Valid()
      ensures connections == 0 && executed == [] && this.answer == answer
    {
      this.answer := answer;
      connections := 0;
      executed := [];
    }

    /**
     * `run_sql(engine, sql)`: a statement the sanitizer rejects raises before
     * any connection is opened; any other is executed as sanitised, and the
     * rows come back one for one, in order, normalised, unless a row repeats
     * a label.
     */
    method RunSql(sql: string) returns (r: Result<seq<RowDict>, RunError>)
      requires Valid()
      modifies this
      ensures Valid()
      ensures Sanitize(sql).Err? ==>
                r == Err(Rejected(Sanitize(sql).error))
                && connections == old(connections) && executed == old(executed)
      ensures Sanitize(sql).Ok? ==>
                connections == old(connections) + 1 && executed == old(executed) + [Sanitize(sql).value]
                && r == match answer(Sanitize(sql).value)
                        case Ok(cursor) => ReadRows(cursor)
                        case Err(message) => Err(DatabaseError(message))
    {
      var safe := Sanitize(sql);
      if safe.Err? {
        return Err(Rejected(safe.error));
      }
      connections := connections + 1;
      executed := executed + [safe.value];
      match answer(safe.value) {
        case Ok(cursor) =>
          r := CollectRows(cursor);
          assert r.Ok? ==> r.value == NormalizeRows(cursor);
        case Err(message) =>
          r := Err(DatabaseError(message));
      }
    }
  }

  // ---------------------------------------------------------------------------
  // Properties of the row dictionaries

  /** The keys of a row's dictionary are exactly its column labels. */
  lemma {:induction false} MappingKeys(row: Row)
    ensures MappingDict(row).Keys == set i | 0 <= i < |row| :: row[i].0
    decreases |row|
  {
    if row != [] {
      var p := row[..|row| - 1];
      MappingKeys(p);
      assert forall i :: 0 <= i < |p| ==> p[i] == row[i];
    }
  }

  /** A label keeps the value of its last occurrence in the row. */
  lemma {:induction false} LastOccurrenceWins(row: Row, i: nat)
    requires i < |row|
    requires forall j :: i < j < |row| ==> row[j].0 != row[i].0
    ensures row[i].0 in MappingDict(row) && MappingDict(row)[row[i].0] == row[i].1
    decreases |row|
  {
    if i < |row| - 1 {
      var p := row[..|row| - 1];
      assert p[i] == row[i];
      LastOccurrenceWins(p, i);
    }
  }

  /**
   * In a row whose labels are distinct, the dictionary has exactly those
   * labels, and each maps to its own value, normalised.
   */
  lemma DistinctLabelsKept(row: Row)
    requires DistinctLabels(row)
    ensures NormalizeRow(row).Keys == set i | 0 <= i < |row| :: row[i].0
    ensures forall i :: 0 <= i < |row| ==> NormalizeRow(row)[row[i].0] == Normalize(row[i].1)
  {
    MappingKeys(row);
    forall i | 0 <= i < |row|
      ensures NormalizeRow(row)[row[i].0] == Normalize(row[i].1)
    {
      LastOccurrenceWins(row, i);
    }
  }

  /** Every value `run_sql` returns is already normal: normalising it again changes nothing. */
  lemma RowValuesNormal(row: Row)
    ensures forall k :: k in NormalizeRow(row) ==> Normalize(NormalizeRow(row)[k]) == NormalizeRow(row)[k]
  {
    forall k | k in NormalizeRow(row)
      ensures Normalize(NormalizeRow(row)[k]) == NormalizeRow(row)[k]
    {
      NormalizeIdempotent(MappingDict(row)[k]);
    }
  }
}
