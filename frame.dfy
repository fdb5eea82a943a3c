/** The input table of `run_topsis`: the checks `read_and_validate_csv` makes
    once the file is read, the numeric matrix of the criteria columns, and
    the assignment of a column by name (`df[name] = values`). */
module Frame {
  import opened Base

  /** A cell of the table: a float, an integer, a text that pandas did not
      read as a number, or a missing value (NaN). */
  datatype Cell = Num(x: real) | Int(n: int) | Text(s: string) | Missing

  /** A table: its column names and its rows, one cell per column. */
  datatype Table = Table(columns: seq<string>, rows: seq<seq<Cell>>)

  predicate WellFormed(t: Table) {
    IsMatrix(t.rows, |t.columns|)
  }

  /** `pd.to_numeric(cell, errors="coerce")` followed by `notna`: numbers are
      kept, a text is read by `parse` (standing for pandas' number parser),
      and a missing value or an unreadable text gives None. */
  function Coerce(c: Cell, parse: string -> Option<real>): Option<real> {
    match c
    case Num(x) => Some(x)
    case Int(n) => Some(n as real)
    case Text(s) => parse(s)
    case Missing => None
  }

  /** Every cell of the columns after the first (the criteria) is numeric. */
  predicate CriteriaNumeric(t: Table, parse: string -> Option<real>)
    requires WellFormed(t)
  {
    forall i, c :: 0 <= i < |t.rows| && 1 <= c < |t.columns| ==> Coerce(t.rows[i][c], parse).Some?
  }

  /** The checks of `read_and_validate_csv` on the table it has read: fewer
      than 3 columns is an error, checked first; then a criteria cell that
      is not numeric. The table itself is returned unchanged. */
  function ValidateTable(t: Table, parse: string -> Option<real>): (r: Result<Table>)
    requires WellFormed(t)
    ensures r.Err? <==> |t.columns| < 3 || !CriteriaNumeric(t, parse)
    ensures r == Err(TooFewColumns) <==> |t.columns| < 3
    ensures r == Err(NonNumericCriteria) <==> |t.columns| >= 3 && !CriteriaNumeric(t, parse)
    ensures r.Ok? ==> r.value == t
  {
    if |t.columns| < 3 then Err(TooFewColumns)
    else if !CriteriaNumeric(t, parse) then Err(NonNumericCriteria)
    else Ok(t)
  }

  /** `df.iloc[:, 1:].to_numpy(dtype=float)`: one row per table row, one entry
      per criteria column, each the number its cell holds. */
  function CriteriaMatrix(t: Table, parse: string -> Option<real>): (data: seq<seq<real>>)
    requires WellFormed(t) && |t.columns| >= 1 && CriteriaNumeric(t, parse)
    ensures |data| == |t.rows| && IsMatrix(data, |t.columns| - 1)
    ensures forall i, c :: 0 <= i < |t.rows| && 0 <= c < |t.columns| - 1 ==>
      Coerce(t.rows[i][c + 1], parse) == Some(data[i][c])
  {
    seq(|t.rows|, i requires 0 <= i < |t.rows| =>
      seq(|t.columns| - 1, c requires 0 <= c < |t.columns| - 1 => Coerce(t.rows[i][c + 1], parse).value))
  }

  /** A missing (NaN) cell in a criteria column fails the numeric check,
      whatever the other cells hold. */
  lemma MissingCellRejected(t: Table, parse: string -> Option<real>, i: nat, c: nat)
    requires WellFormed(t) && |t.columns| >= 3
    requires i < |t.rows| && 1 <= c < |t.columns| && t.rows[i][c] == Missing
    ensures ValidateTable(t, parse) == Err(NonNumericCriteria)
  {
    assert Coerce(t.rows[i][c], parse) == None;
  }

  /** Criteria column `c` of the table, that is column `c - 1` of the matrix,
      is all zeros exactly when every cell of column `c` reads as 0. */
  lemma CriteriaZeroColumn(t: Table, parse: string -> Option<real>, c: nat)
    requires WellFormed(t) && CriteriaNumeric(t, parse) && 1 <= c < |t.columns|
    ensures (forall i :: 0 <= i < |t.rows| ==> CriteriaMatrix(t, parse)[i][c - 1] == 0.0) <==>
      (forall i :: 0 <= i < |t.rows| ==> Coerce(t.rows[i][c], parse) == Some(0.0))
  {
    var data := CriteriaMatrix(t, parse);
    assert forall i :: 0 <= i < |t.rows| ==> Coerce(t.rows[i][c], parse) == Some(data[i][c - 1]);
  }

  /** `df[name] = values`: when a column is called `name` its cells are
      overwritten, otherwise a column `name` is added at the end. Either way
      the table keeps its rows and every other column, and every column
      called `name` now holds `values`. */
  function AssignColumn(t: Table, name: string, values: seq<Cell>): (r: Table)
    requires WellFormed(t) && |values| == |t.rows|
    ensures WellFormed(r) && |r.rows| == |t.rows|
    ensures r.columns == if name in t.columns then t.columns else t.columns + [name]
    ensures forall c :: 0 <= c < |r.columns| && r.columns[c] == name ==>
      forall i :: 0 <= i < |r.rows| ==> r.rows[i][c] == values[i]
    ensures forall c :: 0 <= c < |t.columns| && t.columns[c] != name ==>
      forall i :: 0 <= i < |t.rows| ==> r.rows[i][c] == t.rows[i][c]
  {
    if name in t.columns then
      Table(t.columns, seq(|t.rows|, i requires 0 <= i < |t.rows| =>
        seq(|t.columns|, c requires 0 <= c < |t.columns| =>
          if t.columns[c] == name then values[i] else t.rows[i][c])))
    else
      Table(t.columns + [name], seq(|t.rows|, i requires 0 <= i < |t.rows| => t.rows[i] + [values[i]]))
  }

  /** A pandas DataFrame that run_topsis updates in place. */
  class DataFrame {
    var columns: seq<string>
    var rows: seq<seq<Cell>>

    function Value(): Table
      reads this
    {
      Table(columns, rows)
    }

    constructor(t: Table)
      ensures Value() == t
    {
      columns := t.columns;
      rows := t.rows;
    }

    /** `df[name] = values`. */
    method SetColumn(name: string, values: seq<Cell>)
      requires WellFormed(Value()) && |values| == |rows|
      modifies this
      ensures Value() == AssignColumn(old(Value()), name, values)
    {
      var t := AssignColumn(Value(), name, values);
      columns := t.columns;
      rows := t.rows;
    }
  }
}
