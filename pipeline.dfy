/** `run_topsis`: validate the table, parse the weights and impacts against
    its criteria count, compute the scores and ranks, and add them to the
    table as the columns "Topsis Score" and "Rank". */
module Pipeline {
  import opened Base
  import opened SpecParser
  import opened Calculation
  import opened Frame
  import Ranking

  const ScoreColumn: string := "Topsis Score"
  const RankColumn: string := "Rank"

  /** The cells of a float array assigned to a column. */
  function ScoreCells(scores: seq<real>): (cells: seq<Cell>)
    ensures |cells| == |scores|
    ensures forall i :: 0 <= i < |scores| ==> cells[i] == Num(scores[i])
  {
    seq(|scores|, i requires 0 <= i < |scores| => Num(scores[i]))
  }

  /** The cells of an integer array assigned to a column. */
  function RankCells(ranks: seq<int>): (cells: seq<Cell>)
    ensures |cells| == |ranks|
    ensures forall i :: 0 <= i < |ranks| ==> cells[i] == Int(ranks[i])
  {
    seq(|ranks|, i requires 0 <= i < |ranks| => Int(ranks[i]))
  }

  /** The table with the score and rank columns of `scored` assigned. */
  function WithResults(t: Table, scored: Scored): (out: Table)
    requires WellFormed(t) && |scored.scores| == |t.rows| && |scored.ranks| == |t.rows|
    ensures WellFormed(out) && |out.rows| == |t.rows|
  {
    var withScores := AssignColumn(t, ScoreColumn, ScoreCells(scored.scores));
    AssignColumn(withScores, RankColumn, RankCells(scored.ranks))
  }

  /** `run_topsis` on a table already read, as a value: the first error of
      the stages in their order, or the table with its results. `parse`
      stands for number parsing and `sqrt` for the square root of `np.linalg.norm`. */
  function Topsis(t: Table, weightsArg: string, impactsArg: string,
                  parse: string -> Option<real>, sqrt: real -> real): (r: Result<Table>)
    requires WellFormed(t) && SqrtLaws(sqrt)
    ensures r.Ok? ==> WellFormed(r.value) && |r.value.rows| == |t.rows|
  {
    var valid :- ValidateTable(t, parse);
    var spec :- ParseAndValidate(weightsArg, impactsArg, |valid.columns| - 1, parse);
    var data := CriteriaMatrix(valid, parse);
    var scored :- TopsisCalculation(data, spec.weights, spec.impacts, sqrt);
    Ok(WithResults(valid, scored))
  }

  /** A table the checks reject is reported before the weights and impacts are
      looked at, whatever they are. */
  lemma TableCheckedFirst(t: Table, weightsArg: string, impactsArg: string,
                          parse: string -> Option<real>, sqrt: real -> real)
    requires WellFormed(t) && SqrtLaws(sqrt)
    ensures |t.columns| < 3 ==> Topsis(t, weightsArg, impactsArg, parse, sqrt) == Err(TooFewColumns)
    ensures |t.columns| >= 3 && !CriteriaNumeric(t, parse) ==>
      Topsis(t, weightsArg, impactsArg, parse, sqrt) == Err(NonNumericCriteria)
  {
  }

  /** For a valid table, the weights and impacts are checked against its
      criteria count, the number of columns after the first, and the first
      error they raise is the outcome. */
  lemma SpecCheckedAgainstCriteria(t: Table, weightsArg: string, impactsArg: string,
                                   parse: string -> Option<real>, sqrt: real -> real)
    requires WellFormed(t) && SqrtLaws(sqrt)
    requires ValidateTable(t, parse).Ok?
    ensures var spec := ParseAndValidate(weightsArg, impactsArg, |t.columns| - 1, parse);
      spec.Err? ==> Topsis(t, weightsArg, impactsArg, parse, sqrt) == Err(spec.error)
  {
  }

  /** Inputs that pass both checks fail exactly when some criteria column is
      all zeros, and then with the zero-norm error. */
  lemma ZeroColumnFails(t: Table, weightsArg: string, impactsArg: string,
                        parse: string -> Option<real>, sqrt: real -> real)
    requires WellFormed(t) && SqrtLaws(sqrt)
    requires ValidateTable(t, parse).Ok?
    requires ParseAndValidate(weightsArg, impactsArg, |t.columns| - 1, parse).Ok?
    ensures var data := CriteriaMatrix(t, parse);
      && (Topsis(t, weightsArg, impactsArg, parse, sqrt).Err? <==>
            exists j :: 0 <= j < |t.columns| - 1 && ZeroColumn(data, j))
      && (Topsis(t, weightsArg, impactsArg, parse, sqrt).Err? ==>
            Topsis(t, weightsArg, impactsArg, parse, sqrt).error == ZeroNormColumn)
  {
  }

  /** The same failure in terms of the table: past both checks, the run fails
      exactly when some criteria column has every cell reading as 0. */
  lemma ZeroCellsFail(t: Table, weightsArg: string, impactsArg: string,
                      parse: string -> Option<real>, sqrt: real -> real)
    requires WellFormed(t) && SqrtLaws(sqrt)
    requires ValidateTable(t, parse).Ok?
    requires ParseAndValidate(weightsArg, impactsArg, |t.columns| - 1, parse).Ok?
    ensures Topsis(t, weightsArg, impactsArg, parse, sqrt).Err? <==>
      exists c :: 1 <= c < |t.columns| && ZeroCells(t, parse, c)
  {
    ZeroColumnFails(t, weightsArg, impactsArg, parse, sqrt);
    ZeroCriteriaColumn(t, parse);
  }

  /** Criteria column `c` of the table has every cell reading as 0. */
  predicate ZeroCells(t: Table, parse: string -> Option<real>, c: nat)
    requires WellFormed(t) && c < |t.columns|
  {
    forall i :: 0 <= i < |t.rows| ==> Coerce(t.rows[i][c], parse) == Some(0.0)
  }

  /** Some column of the criteria matrix is all zeros exactly when some
      criteria column of the table has every cell reading as 0. */
  lemma ZeroCriteriaColumn(t: Table, parse: string -> Option<real>)
    requires WellFormed(t) && |t.columns| >= 1 && CriteriaNumeric(t, parse)
    ensures (exists j :: 0 <= j < |t.columns| - 1 && ZeroColumn(CriteriaMatrix(t, parse), j)) <==>
      exists c :: 1 <= c < |t.columns| && ZeroCells(t, parse, c)
  {
    var data := CriteriaMatrix(t, parse);
    if j :| 0 <= j < |t.columns| - 1 && ZeroColumn(data, j) {
      CriteriaZeroColumn(t, parse, j + 1);
      assert ZeroCells(t, parse, j + 1);
    }
    if c :| 1 <= c < |t.columns| && ZeroCells(t, parse, c) {
      CriteriaZeroColumn(t, parse, c);
      assert ZeroColumn(data, c - 1);
    }
  }

  /** Assigning the rank column leaves the score column alone. */
  lemma ResultsColumns(t: Table, scored: Scored)
    requires WellFormed(t) && |scored.scores| == |t.rows| && |scored.ranks| == |t.rows|
    ensures var out := WithResults(t, scored);
      && |out.rows| == |t.rows|
      && out.columns[..|t.columns|] == t.columns
      && ScoreColumn in out.columns && RankColumn in out.columns
      && (forall c :: 0 <= c < |out.columns| && out.columns[c] == ScoreColumn ==>
            forall i :: 0 <= i < |t.rows| ==> out.rows[i][c] == Num(scored.scores[i]))
      && (forall c :: 0 <= c < |out.columns| && out.columns[c] == RankColumn ==>
            forall i :: 0 <= i < |t.rows| ==> out.rows[i][c] == Int(scored.ranks[i]))
      && (forall c :: 0 <= c < |t.columns| && t.columns[c] != ScoreColumn && t.columns[c] != RankColumn ==>
            forall i :: 0 <= i < |t.rows| ==> out.rows[i][c] == t.rows[i][c])
  {
    var withScores := AssignColumn(t, ScoreColumn, ScoreCells(scored.scores));
    var out := AssignColumn(withScores, RankColumn, RankCells(scored.ranks));
    assert ScoreColumn != RankColumn;
    assert withScores.columns[..|t.columns|] == t.columns;
    assert out.columns[..|withScores.columns|] == withScores.columns;
    assert out.columns[..|t.columns|] == withScores.columns[..|t.columns|];
    assert ScoreColumn in withScores.columns;
    forall c | 0 <= c < |out.columns| && out.columns[c] == ScoreColumn
      ensures forall i :: 0 <= i < |t.rows| ==> out.rows[i][c] == Num(scored.scores[i])
    {
      assert c < |withScores.columns|;
    }
  }

  /** `out` keeps the rows and columns of `t`: its columns start with those of
      `t`, and every column of `t` other than the two result columns keeps
      all its cells. */
  predicate KeepsInput(t: Table, out: Table)
    requires WellFormed(t) && WellFormed(out) && |out.rows| == |t.rows|
  {
    && |t.columns| <= |out.columns|
    && out.columns[..|t.columns|] == t.columns
    && (forall c :: 0 <= c < |t.columns| && t.columns[c] != ScoreColumn && t.columns[c] != RankColumn ==>
          forall i :: 0 <= i < |t.rows| ==> out.rows[i][c] == t.rows[i][c])
  }

  /** `out` has a score column holding one score in [0, 1] per row, and a rank
      column holding a permutation of 1 .. N. */
  predicate HoldsResults(out: Table)
    requires WellFormed(out)
  {
    var n := |out.rows|;
    && ScoreColumn in out.columns && RankColumn in out.columns
    && (forall c :: 0 <= c < |out.columns| && out.columns[c] == ScoreColumn ==>
          forall i :: 0 <= i < n ==> out.rows[i][c].Num? && 0.0 <= out.rows[i][c].x <= 1.0)
    && (forall c :: 0 <= c < |out.columns| && out.columns[c] == RankColumn ==>
          && (forall i :: 0 <= i < n ==> out.rows[i][c].Int? && 1 <= out.rows[i][c].n <= n)
          && (forall i, k :: 0 <= i < k < n ==> out.rows[i][c] != out.rows[k][c]))
  }

  /** Scores in [0, 1] and ranks that are a permutation of 1 .. N are what
      the two added columns hold, and the rest of the table is kept. */
  lemma ResultsContents(t: Table, scored: Scored)
    requires WellFormed(t) && |scored.scores| == |t.rows| && |scored.ranks| == |t.rows|
    requires forall i :: 0 <= i < |t.rows| ==> 0.0 <= scored.scores[i] <= 1.0
    requires forall i :: 0 <= i < |t.rows| ==> 1 <= scored.ranks[i] <= |t.rows|
    requires forall i, k :: 0 <= i < k < |t.rows| ==> scored.ranks[i] != scored.ranks[k]
    ensures KeepsInput(t, WithResults(t, scored)) && HoldsResults(WithResults(t, scored))
  {
    ResultsColumns(t, scored);
  }

  /** On success the output keeps every input row and column, and adds (or
      overwrites) a "Topsis Score" column with one score in [0, 1] per row and
      a "Rank" column holding a permutation of 1 .. N. */
  lemma TopsisOutput(t: Table, weightsArg: string, impactsArg: string,
                     parse: string -> Option<real>, sqrt: real -> real)
    requires WellFormed(t) && SqrtLaws(sqrt)
    requires Topsis(t, weightsArg, impactsArg, parse, sqrt).Ok?
    ensures var out := Topsis(t, weightsArg, impactsArg, parse, sqrt).value;
      KeepsInput(t, out) && HoldsResults(out)
  {
    var scored := TopsisStages(t, weightsArg, impactsArg, parse, sqrt);
    ResultsContents(t, scored);
  }

  /** A successful run passed every stage; its value is the table with the
      calculated results. */
  lemma TopsisStages(t: Table, weightsArg: string, impactsArg: string,
                     parse: string -> Option<real>, sqrt: real -> real) returns (scored: Scored)
    requires WellFormed(t) && SqrtLaws(sqrt)
    requires Topsis(t, weightsArg, impactsArg, parse, sqrt).Ok?
    ensures |scored.scores| == |t.rows| && |scored.ranks| == |t.rows|
    ensures forall i :: 0 <= i < |t.rows| ==> 0.0 <= scored.scores[i] <= 1.0
    ensures forall i :: 0 <= i < |t.rows| ==> 1 <= scored.ranks[i] <= |t.rows|
    ensures forall i, k :: 0 <= i < k < |t.rows| ==> scored.ranks[i] != scored.ranks[k]
    ensures Topsis(t, weightsArg, impactsArg, parse, sqrt).value == WithResults(t, scored)
  {
    var spec := ParseAndValidate(weightsArg, impactsArg, |t.columns| - 1, parse).value;
    var data := CriteriaMatrix(t, parse);
    scored := TopsisCalculation(data, spec.weights, spec.impacts, sqrt).value;
  }

  /** `run_topsis` on a DataFrame: the same stages, then `df["Topsis Score"] =
      scores` and `df["Rank"] = ranks` in place. On an error the DataFrame is
      left as it was and the error is the one of Topsis. */
  method RunTopsis(df: DataFrame, weightsArg: string, impactsArg: string,
                   parse: string -> Option<real>, sqrt: real -> real) returns (r: Result<()>)
    requires WellFormed(df.Value()) && SqrtLaws(sqrt)
    modifies df
    ensures var expected := Topsis(old(df.Value()), weightsArg, impactsArg, parse, sqrt);
      && (r.Ok? <==> expected.Ok?)
      && (r.Ok? ==> df.Value() == expected.value)
      && (r.Err? ==> r.error == expected.error && df.Value() == old(df.Value()))
  {
    var t := df.Value();
    var valid :- ValidateTable(t, parse);
    var spec :- ParseAndValidate(weightsArg, impactsArg, |valid.columns| - 1, parse);
    var data := CriteriaMatrix(valid, parse);
    var scored :- TopsisCalculation(data, spec.weights, spec.impacts, sqrt);
    df.SetColumn(ScoreColumn, ScoreCells(scored.scores));
    df.SetColumn(RankColumn, RankCells(scored.ranks));
    r := Ok(());
  }
}
