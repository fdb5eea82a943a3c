# TOPSIS ranking engine, modelled in Dafny

This project models the core of `topsis_vriti`, a command-line TOPSIS tool
(Technique for Order of Preference by Similarity to Ideal Solution). The tool
reads a table whose first column names the alternatives and whose other
columns are numeric criteria. It is given one weight and one impact (`+` for
a benefit, `-` for a cost) per criterion. It appends a closeness score and a
rank to every row.

The model follows `topsis_vriti/core.py` stage by stage, in the same order:

- `tokenize.dfy` (module `Tokenize`): the comma splitting, stripping and
  blank-dropping of the weight and impact arguments.
- `spec_parser.dfy` (module `SpecParser`): `parse_and_validate` and its fixed
  error order.
- `frame.dfy` (module `Frame`):
  - the table cells and the checks of `read_and_validate_csv`;
  - the numeric criteria matrix;
  - assignment of a column by name, as a function and as the in-place
    `DataFrame.SetColumn`.
- `calculation.dfy` (module `Calculation`): `topsis_calculation`, which covers:
  - column norms and the zero-norm error;
  - weighting;
  - the ideal best and ideal worst;
  - distances and closeness scores.
- `ranking.dfy` (module `Ranking`): `argsort(-scores).argsort() + 1`, built
  from a stable argsort.
- `pipeline.dfy` (module `Pipeline`): `run_topsis`, as the pure `Topsis` and
  as the method `RunTopsis`, which updates a `DataFrame` in place.
- `base.dfy` (module `Base`): the error values, `Result` and `Option`.

Every `error_and_exit` call becomes an `Err` value of the `Error` datatype.
Python's float parsing is the function parameter `parse`. `np.linalg.norm` is
the Euclidean length `sqrt(sum(v ** 2))`, written out as `Calculation.Norm`;
only the square root is a function parameter, `sqrt`, and the predicate
`SqrtLaws` says what the model assumes of it: on the non-negative reals it is
non-negative and zero exactly at zero. Numbers are exact reals.

## Model

| member | source | states |
|---|---|---|
| Tokenize.IsSpace | topsis_vriti/core.py:15 | the characters `str.strip()` removes: ASCII space, tab to carriage return, the separators U+001C to U+001F, and Unicode's space characters (a definition; it has no contract of its own) |
| Tokenize.Split | topsis_vriti/core.py:15 | `str.split(",")` always gives at least one part, no part holds the separator, and joining the parts gives back the string |
| Tokenize.LeadingSpace | topsis_vriti/core.py:15 | the leading whitespace run: all whitespace, followed by a non-space or the end |
| Tokenize.TrailingStart | topsis_vriti/core.py:15 | the trailing whitespace run: all whitespace, preceded by a non-space or the start |
| Tokenize.Strip | topsis_vriti/core.py:15 | `str.strip()` is a slice of the input with only whitespace cut from either end; the result is trimmed; it is empty exactly when the input is all whitespace |
| Tokenize.NonBlankFromParts | topsis_vriti/core.py:15 | every token the comprehension keeps is the non-empty strip of some part |
| Tokenize.PartsToNonBlank | topsis_vriti/core.py:15 | every part whose strip is not empty yields a token |
| Tokenize.NonBlankStep | topsis_vriti/core.py:15 | one step of the filter: the first part is kept, stripped, exactly when its strip is not empty |
| Tokenize.StripKeepsOut | topsis_vriti/core.py:15 | stripping introduces no character that was not in the part |
| Tokenize.NonBlankAreTokens | topsis_vriti/core.py:15 | every kept token of comma-free parts is non-empty, trimmed and comma-free |
| Tokenize.Tokens | topsis_vriti/core.py:15-19 | the comprehensions `[w.strip() for w in arg.split(",") if w.strip()]`: every token is non-empty, trimmed and comma-free |
| Tokenize.StripTrimmed | topsis_vriti/core.py:15 | a non-empty trimmed string strips to itself |
| Tokenize.SplitOfPart | topsis_vriti/core.py:15 | a string without the separator splits into itself |
| Tokenize.SplitAfterPart | topsis_vriti/core.py:15 | splitting `p + sep + rest` gives `p` followed by the parts of `rest` |
| Tokenize.SplitJoin | topsis_vriti/core.py:15 | Split undoes Join when no part holds the separator |
| Tokenize.NonBlankOfTokens | topsis_vriti/core.py:15 | the filter keeps a list of tokens unchanged |
| Tokenize.TokensOfJoin | topsis_vriti/core.py:15 | tokenising comma-joined tokens gives the same tokens back |
| Tokenize.SplitBlankPart | topsis_vriti/core.py:15 | `"1,,1"` splits into `"1"`, `""` and `"1"` |
| Tokenize.NonBlankBlankPart | topsis_vriti/core.py:15 | the blank middle part is dropped |
| Tokenize.TokensDropBlankPart | topsis_vriti/core.py:15 | `"1,,1"` yields exactly the two weight tokens `"1"` and `"1"` |
| Tokenize.StripPadded | topsis_vriti/core.py:19 | a non-space character padded with spaces strips to itself |
| Tokenize.SplitPaddedSigns | topsis_vriti/core.py:19 | `" + , - ,"` splits into `" + "`, `" - "` and `""` |
| Tokenize.NonBlankPaddedSigns | topsis_vriti/core.py:19 | the padded signs strip to `"+"` and `"-"`, and the empty part is dropped |
| Tokenize.TokensStripParts | topsis_vriti/core.py:19 | `" + , - ,"` yields the impact tokens `"+"` and `"-"` |
| SpecParser.ParseWeights | topsis_vriti/core.py:14-17 | succeeds exactly when every token parses; then there is one weight per token, and each is that token's parsed value |
| SpecParser.ImpactOf | topsis_vriti/core.py:20 | `imp in ("+", "-")`: a token names an impact exactly when it is `"+"` or `"-"`, and Benefit exactly when it is `"+"` |
| SpecParser.ParseImpacts | topsis_vriti/core.py:19-21 | succeeds exactly when every token is `"+"` or `"-"`; then there is one impact per token, Benefit exactly for `"+"` |
| SpecParser.ParseAndValidate | topsis_vriti/core.py:13-26 | a non-numeric weight is reported first; otherwise a bad impact; only then a count other than `ncols`, each with an if-and-only-if; no other error; on success both vectors have exactly `ncols` entries that follow the tokens |
| SpecParser.MalformedWeightRejected | topsis_vriti/core.py:14-17 | `"1,a,1"` is rejected as non-numeric whatever the impacts and the count |
| Frame.ValidateTable | topsis_vriti/core.py:37-43 | fewer than 3 columns is reported first; then a criteria cell that does not coerce to a number, a missing cell included; otherwise the table passes unchanged |
| Frame.Coerce | topsis_vriti/core.py:40 | `pd.to_numeric(errors="coerce")` then `notna` on one cell: a number is kept, a text is read by `parse`, a missing cell gives nothing (a definition; its effect is stated by ValidateTable and MissingCellRejected) |
| Frame.MissingCellRejected | topsis_vriti/core.py:40-41 | a missing (NaN) cell in any criteria column fails the numeric check, whatever the other cells hold |
| Frame.CriteriaZeroColumn | topsis_vriti/core.py:69 | a column of the numeric criteria matrix is all zeros exactly when every cell of the matching table column reads as 0 |
| Frame.AssignColumn | topsis_vriti/core.py:72-73 | assignment by name: the rows are kept; the column list is unchanged when the name exists and gains the name at the end otherwise; every column of that name holds the values; every other column keeps its cells |
| Frame.DataFrame.SetColumn | topsis_vriti/core.py:72-73 | the in-place assignment leaves the DataFrame equal to AssignColumn of its old value |
| Ranking.Insert | topsis_vriti/core.py:59 | inserting a new largest index keeps the order sorted and adds exactly that index |
| Ranking.ArgSortPrefix | topsis_vriti/core.py:59 | the indices below n, each once, sorted by key |
| Ranking.ArgSort | topsis_vriti/core.py:59 | `np.argsort` (stable): a permutation of the indices in ascending key order, ties by index |
| Ranking.IncreasingIsIdentity | topsis_vriti/core.py:59 | a strictly increasing sequence of n values below n is 0 .. n-1 |
| Ranking.ArgSortInvertsPermutation | topsis_vriti/core.py:59 | the argsort of a permutation is its inverse |
| Ranking.Ranks | topsis_vriti/core.py:59 | `argsort(-scores).argsort() + 1`: one rank per score, each in 1 .. N |
| Ranking.RanksArePermutation | topsis_vriti/core.py:59 | one rank per score, each in 1 .. N, no two equal, every value of 1 .. N taken |
| Ranking.RanksInvertOrder | topsis_vriti/core.py:59 | the second argsort inverts the first: the row ranked k+1 is the k-th of the first argsort, and the other way round |
| Ranking.RanksFollowScores | topsis_vriti/core.py:59 | a higher score gets a smaller rank; of two equal scores the earlier row gets the smaller rank |
| Calculation.SquareLaws | topsis_vriti/core.py:47 | a square is never negative, and positive away from 0 |
| Calculation.SumSqLaws | topsis_vriti/core.py:47 | a sum of squares is never negative, and zero exactly when every entry is 0 |
| Calculation.Norm | topsis_vriti/core.py:47 | `np.linalg.norm(v)` as `sqrt(sum(v ** 2))`: never negative, and zero exactly on the zero vector |
| Calculation.ColumnNorms | topsis_vriti/core.py:47 | one norm per column, never negative, zero exactly when the column is all zeros |
| Calculation.Weighted | topsis_vriti/core.py:51 | the weighted matrix has the rows and columns of the data |
| Calculation.Max | topsis_vriti/core.py:52-53 | the value is attained by some entry and no entry exceeds it |
| Calculation.Min | topsis_vriti/core.py:52-53 | the value is attained by some entry and no entry is below it |
| Calculation.ColumnExtremes | topsis_vriti/core.py:52-53 | the Max and Min of a column are attained in it and bound it |
| Calculation.IdealBest | topsis_vriti/core.py:52 | per criterion: the column maximum for `+` and the column minimum for `-`, each attained by some row and bounding the column |
| Calculation.IdealWorst | topsis_vriti/core.py:53 | per criterion: the column minimum for `+` and the column maximum for `-`, each attained and bounding |
| Calculation.Distance | topsis_vriti/core.py:55-56 | never negative; zero exactly when the row equals the ideal |
| Calculation.Closeness | topsis_vriti/core.py:58 | for distances it lies in [0, 1]; it is 0 at the ideal worst and when the denominator is 0; it is 1 at the ideal best when the ideal worst is elsewhere |
| Calculation.Scores | topsis_vriti/core.py:55-58 | one score per row, each in [0, 1] |
| Calculation.TopsisCalculation | topsis_vriti/core.py:46-61 | fails exactly when some column is all zeros, and then with the zero-norm error; otherwise one score in [0, 1] and one rank in 1 .. N per row, no two ranks equal |
| Calculation.CalculationRanksFollowScores | topsis_vriti/core.py:59 | in a successful calculation a higher score gets a smaller rank, and of equal scores the earlier row does |
| Calculation.SingleAlternative | topsis_vriti/core.py:52-61 | one alternative with non-zero criteria is both ideals, so it scores 0 and ranks 1 |
| Pipeline.WithResults | topsis_vriti/core.py:72-73 | the table with both result columns assigned keeps its shape and row count |
| Pipeline.Topsis | topsis_vriti/core.py:64-73 | the stages in order, each failure propagated; a success keeps the row count |
| Pipeline.TableCheckedFirst | topsis_vriti/core.py:65-68 | a table with too few columns or a non-numeric criteria cell fails with that error, whatever the weights and impacts |
| Pipeline.SpecCheckedAgainstCriteria | topsis_vriti/core.py:66-68 | for a valid table, the weights and impacts are checked against the number of columns after the first, and their error is the outcome |
| Pipeline.ZeroColumnFails | topsis_vriti/core.py:47-49 | past both checks, the run fails exactly when a criteria column is all zeros, with the zero-norm error |
| Pipeline.ZeroCriteriaColumn | topsis_vriti/core.py:69 | some criteria-matrix column is all zeros exactly when some criteria column of the table has every cell reading as 0 |
| Pipeline.ZeroCellsFail | topsis_vriti/core.py:47-49 | past both checks, the run fails exactly when some criteria column of the table has every cell reading as 0 |
| Pipeline.ResultsColumns | topsis_vriti/core.py:72-73 | after both assignments the input columns come first, every "Topsis Score" column holds the scores, every "Rank" column the ranks, and every other input column its cells |
| Pipeline.ResultsContents | topsis_vriti/core.py:72-73 | scores in [0, 1] and a permutation of ranks end up in the two result columns, and the input is kept |
| Pipeline.TopsisStages | topsis_vriti/core.py:64-70 | a successful run passed every stage; its scores lie in [0, 1], its ranks are distinct and in 1 .. N, and its output is the table with those results |
| Pipeline.TopsisOutput | topsis_vriti/core.py:64-73 | a successful run keeps every input row and column; a "Topsis Score" column holds one score in [0, 1] per row; a "Rank" column holds distinct ranks in 1 .. N |
| Pipeline.RunTopsis | topsis_vriti/core.py:64-73 | the in-place run succeeds exactly when Topsis does and leaves the DataFrame equal to its result; on an error it returns that error and leaves the DataFrame unchanged |

## Left out

- File I/O is not modelled. This covers `pd.read_csv`, `df.to_csv` and the "File not found" and "Unable to read file" branches (`topsis_vriti/core.py:29-35`, 74). The model starts from a table already read.
- pandas' type inference when it reads a CSV is not modelled. A cell is a float, an integer, a text or missing.
- `main`, `cli`, argument counting, the printed messages and the process exit are not modelled. Each error is an `Error` value.
- `app.py` (Streamlit UI) and `topsis_web.py` (Flask, file upload, e-mail) are not part of this model.
- SpecParser.ParseWeights does not model Python's `float()` itself. The parameter `parse` stands for it. Through `Frame.Coerce` it also stands for `pd.to_numeric` on a text cell (`topsis_vriti/core.py:40`) and for the `to_numpy(dtype=float)` conversion (`topsis_vriti/core.py:69`). One function stands for all three. In the source, a text that pandas accepts but `float()` rejects passes the numeric test at line 40 and then raises an uncaught `ValueError` at line 69; the model has no such case.
- Floating-point rounding, NaN and infinities are not modelled; numbers are exact reals. A score that rounds differently in floats may rank differently.
- The square root is not computed. `sqrt` is a parameter, subject to `SqrtLaws`: non-negative on the non-negative reals, and zero exactly at zero. Nothing else about it is assumed, in particular not that it squares back to its argument.
- Ranking.Ranks uses a stable argsort: among equal keys the smaller index comes first. numpy's default `quicksort` is not guaranteed stable. So the tie order stated by Ranking.RanksFollowScores and Calculation.CalculationRanksFollowScores is the stable one, which the source does not promise.
- Calculation.TopsisCalculation returns empty results for a matrix with no rows and no columns, where numpy's `max` over an empty axis raises `ValueError`. `run_topsis` never calls it that way, because a valid table has at least two criteria columns.
- Frame.AssignColumn overwrites every column of the assigned name. `pd.read_csv` renames duplicate headers, so in the source at most one column has that name.
