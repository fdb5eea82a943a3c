/** `topsis_calculation`: vector normalisation and weighting of the decision
    matrix, the ideal best and worst vectors, the Euclidean distances to them,
    the closeness scores and the ranks. Exact reals stand for floats. */
module Calculation {
  import opened Base
  import opened SpecParser
  import Ranking

  /** What the model assumes of the square root `np.linalg.norm` takes: on the
      non-negative reals it is non-negative and zero exactly at zero. */
  ghost predicate SqrtLaws(sqrt: real -> real) {
    forall x: real :: x >= 0.0 ==> sqrt(x) >= 0.0 && (sqrt(x) == 0.0 <==> x == 0.0)
  }

  /** `x ** 2`. */
  function Square(x: real): real {
    x * x
  }

  /** A square is never negative, and it is positive away from zero. */
  lemma SquareLaws(x: real)
    ensures Square(x) >= 0.0
    ensures x != 0.0 ==> Square(x) > 0.0
  {
    if x < 0.0 {
      calc {
        Square(x);
        == x * x;
        == (-x) * (-x);
        > 0.0;
      }
    } else if x > 0.0 {
      calc {
        Square(x);
        == x * x;
        > 0.0;
      }
    }
  }

  /** The sum of the squares of the entries of `v`. */
  function SumSq(v: seq<real>): real {
    if v == [] then 0.0 else Square(v[0]) + SumSq(v[1..])
  }

  /** A sum of squares is never negative, and it is zero exactly when every
      entry is. */
  lemma {:induction false} SumSqLaws(v: seq<real>)
    ensures SumSq(v) >= 0.0
    ensures SumSq(v) == 0.0 <==> forall k :: 0 <= k < |v| ==> v[k] == 0.0
  {
    if v != [] {
      SquareLaws(v[0]);
      SumSqLaws(v[1..]);
      assert forall k :: 1 <= k < |v| ==> v[k] == v[1..][k - 1];
    }
  }

  /** `np.linalg.norm(v)`, the Euclidean length `sqrt(sum(v ** 2))`: never
      negative, and zero exactly on the zero vector. */
  function Norm(v: seq<real>, sqrt: real -> real): (r: real)
    requires SqrtLaws(sqrt)
    ensures r >= 0.0
    ensures r == 0.0 <==> forall k :: 0 <= k < |v| ==> v[k] == 0.0
  {
    SumSqLaws(v);
    sqrt(SumSq(v))
  }

  /** Column `j` of a matrix. */
  function Column(data: seq<seq<real>>, j: nat): (c: seq<real>)
    requires forall i :: 0 <= i < |data| ==> j < |data[i]|
  {
    seq(|data|, i requires 0 <= i < |data| => data[i][j])
  }

  /** Every entry of column `j` is zero. */
  predicate ZeroColumn(data: seq<seq<real>>, j: nat)
    requires forall i :: 0 <= i < |data| ==> j < |data[i]|
  {
    forall i :: 0 <= i < |data| ==> data[i][j] == 0.0
  }

  /** `np.linalg.norm(data, axis=0)`: the norm of every column. */
  function ColumnNorms(data: seq<seq<real>>, m: nat, sqrt: real -> real): (norms: seq<real>)
    requires SqrtLaws(sqrt) && IsMatrix(data, m)
    ensures |norms| == m
    ensures forall j :: 0 <= j < m ==> norms[j] >= 0.0
    ensures forall j :: 0 <= j < m ==> (norms[j] == 0.0 <==> ZeroColumn(data, j))
  {
    assert forall j :: 0 <= j < m ==> (ZeroColumn(data, j) <==> forall k :: 0 <= k < |Column(data, j)| ==> Column(data, j)[k] == 0.0) by {
      forall j | 0 <= j < m
        ensures ZeroColumn(data, j) <==> forall k :: 0 <= k < |Column(data, j)| ==> Column(data, j)[k] == 0.0
      {
        assert forall k :: 0 <= k < |data| ==> Column(data, j)[k] == data[k][j];
      }
    }
    seq(m, j requires 0 <= j < m => Norm(Column(data, j), sqrt))
  }

  /** `(data / norms) * weights`: each column divided by its norm, then scaled
      by its weight. */
  function Weighted(data: seq<seq<real>>, norms: seq<real>, weights: seq<real>): (w: seq<seq<real>>)
    requires IsMatrix(data, |weights|) && |norms| == |weights|
    requires forall j :: 0 <= j < |norms| ==> norms[j] != 0.0
    ensures |w| == |data| && IsMatrix(w, |weights|)
  {
    seq(|data|, i requires 0 <= i < |data| =>
      seq(|weights|, j requires 0 <= j < |weights| => data[i][j] / norms[j] * weights[j]))
  }

  /** The largest entry of a non-empty vector. */
  function Max(v: seq<real>): (m: real)
    requires |v| > 0
    ensures (exists k :: 0 <= k < |v| && v[k] == m) && forall k :: 0 <= k < |v| ==> v[k] <= m
  {
    if |v| == 1 then v[0]
    else
      var rest := Max(v[1..]);
      assert forall k :: 1 <= k < |v| ==> v[k] == v[1..][k - 1];
      if v[0] >= rest then v[0] else rest
  }

  /** The smallest entry of a non-empty vector. */
  function Min(v: seq<real>): (m: real)
    requires |v| > 0
    ensures (exists k :: 0 <= k < |v| && v[k] == m) && forall k :: 0 <= k < |v| ==> m <= v[k]
  {
    if |v| == 1 then v[0]
    else
      var rest := Min(v[1..]);
      assert forall k :: 1 <= k < |v| ==> v[k] == v[1..][k - 1];
      if v[0] <= rest then v[0] else rest
  }

  /** `x` is the largest entry of column `j`: some row holds it, no row exceeds it. */
  predicate IsColumnMax(w: seq<seq<real>>, j: nat, x: real)
    requires forall i :: 0 <= i < |w| ==> j < |w[i]|
  {
    (exists i :: 0 <= i < |w| && w[i][j] == x) && forall i :: 0 <= i < |w| ==> w[i][j] <= x
  }

  /** `x` is the smallest entry of column `j`. */
  predicate IsColumnMin(w: seq<seq<real>>, j: nat, x: real)
    requires forall i :: 0 <= i < |w| ==> j < |w[i]|
  {
    (exists i :: 0 <= i < |w| && w[i][j] == x) && forall i :: 0 <= i < |w| ==> x <= w[i][j]
  }

  lemma ColumnExtremes(w: seq<seq<real>>, j: nat)
    requires |w| > 0 && forall i :: 0 <= i < |w| ==> j < |w[i]|
    ensures IsColumnMax(w, j, Max(Column(w, j)))
    ensures IsColumnMin(w, j, Min(Column(w, j)))
  {
    var c := Column(w, j);
    var a :| 0 <= a < |c| && c[a] == Max(c);
    var b :| 0 <= b < |c| && c[b] == Min(c);
    assert w[a][j] == Max(c) && w[b][j] == Min(c);
    assert forall i :: 0 <= i < |w| ==> w[i][j] == c[i];
  }

  /** `np.where(impacts == "+", weighted.max(axis=0), weighted.min(axis=0))`:
      the column maximum for a benefit criterion, the minimum for a cost one. */
  function IdealBest(w: seq<seq<real>>, impacts: seq<Impact>): (best: seq<real>)
    requires IsMatrix(w, |impacts|) && (|w| > 0 || |impacts| == 0)
    ensures |best| == |impacts|
    ensures forall j :: 0 <= j < |impacts| && impacts[j] == Benefit ==> IsColumnMax(w, j, best[j])
    ensures forall j :: 0 <= j < |impacts| && impacts[j] == Cost ==> IsColumnMin(w, j, best[j])
  {
    assert forall j :: 0 <= j < |impacts| ==>
      IsColumnMax(w, j, Max(Column(w, j))) && IsColumnMin(w, j, Min(Column(w, j))) by {
      forall j | 0 <= j < |impacts| {
        ColumnExtremes(w, j);
      }
    }
    seq(|impacts|, j requires 0 <= j < |impacts| =>
      if impacts[j] == Benefit then Max(Column(w, j)) else Min(Column(w, j)))
  }

  /** `np.where(impacts == "+", weighted.min(axis=0), weighted.max(axis=0))`:
      the column minimum for a benefit criterion, the maximum for a cost one. */
  function IdealWorst(w: seq<seq<real>>, impacts: seq<Impact>): (worst: seq<real>)
    requires IsMatrix(w, |impacts|) && (|w| > 0 || |impacts| == 0)
    ensures |worst| == |impacts|
    ensures forall j :: 0 <= j < |impacts| && impacts[j] == Benefit ==> IsColumnMin(w, j, worst[j])
    ensures forall j :: 0 <= j < |impacts| && impacts[j] == Cost ==> IsColumnMax(w, j, worst[j])
  {
    assert forall j :: 0 <= j < |impacts| ==>
      IsColumnMax(w, j, Max(Column(w, j))) && IsColumnMin(w, j, Min(Column(w, j))) by {
      forall j | 0 <= j < |impacts| {
        ColumnExtremes(w, j);
      }
    }
    seq(|impacts|, j requires 0 <= j < |impacts| =>
      if impacts[j] == Benefit then Min(Column(w, j)) else Max(Column(w, j)))
  }

  /** The Euclidean distance between `row` and `ideal`: never negative, and zero
      exactly when the two coincide. */
  function Distance(row: seq<real>, ideal: seq<real>, sqrt: real -> real): (d: real)
    requires SqrtLaws(sqrt) && |row| == |ideal|
    ensures d >= 0.0
    ensures d == 0.0 <==> row == ideal
  {
    var diff := seq(|row|, k requires 0 <= k < |row| => row[k] - ideal[k]);
    assert (forall k :: 0 <= k < |diff| ==> diff[k] == 0.0) <==> row == ideal by {
      assert forall k :: 0 <= k < |row| ==> (diff[k] == 0.0 <==> row[k] == ideal[k]);
    }
    Norm(diff, sqrt)
  }

  /** The relative closeness `s_worst / (s_best + s_worst)`, or 0 when the sum
      is 0 (`np.divide(..., where=...)` into zeros). For distances it lies in
      [0, 1]; it is 1 at the ideal best and 0 at the ideal worst. */
  function Closeness(sBest: real, sWorst: real): (score: real)
    ensures sBest >= 0.0 && sWorst >= 0.0 ==> 0.0 <= score <= 1.0
    ensures sWorst == 0.0 ==> score == 0.0
    ensures sBest == 0.0 && sWorst != 0.0 ==> score == 1.0
    ensures sBest + sWorst == 0.0 ==> score == 0.0
  {
    if sBest + sWorst != 0.0 then sWorst / (sBest + sWorst) else 0.0
  }

  /** The score of every row of the weighted matrix. */
  function Scores(w: seq<seq<real>>, best: seq<real>, worst: seq<real>, sqrt: real -> real): (scores: seq<real>)
    requires SqrtLaws(sqrt) && IsMatrix(w, |best|) && |worst| == |best|
    ensures |scores| == |w|
    ensures forall i :: 0 <= i < |w| ==> 0.0 <= scores[i] <= 1.0
  {
    seq(|w|, i requires 0 <= i < |w| =>
      Closeness(Distance(w[i], best, sqrt), Distance(w[i], worst, sqrt)))
  }

  datatype Scored = Scored(scores: seq<real>, ranks: seq<int>)

  /** `topsis_calculation(data, weights, impacts)`: fails exactly when some
      column is all zeros (its norm is 0); otherwise one score in [0, 1] and
      one rank per row. */
  function TopsisCalculation(data: seq<seq<real>>, weights: seq<real>, impacts: seq<Impact>,
                             sqrt: real -> real): (r: Result<Scored>)
    requires SqrtLaws(sqrt) && IsMatrix(data, |weights|) && |impacts| == |weights|
    ensures r.Err? <==> exists j :: 0 <= j < |weights| && ZeroColumn(data, j)
    ensures r.Err? ==> r.error == ZeroNormColumn
    ensures r.Ok? ==> |r.value.scores| == |data| && |r.value.ranks| == |data|
    ensures r.Ok? ==> forall i :: 0 <= i < |data| ==> 0.0 <= r.value.scores[i] <= 1.0
    ensures r.Ok? ==> forall i :: 0 <= i < |data| ==> 1 <= r.value.ranks[i] <= |data|
    ensures r.Ok? ==> forall i, k :: 0 <= i < k < |data| ==> r.value.ranks[i] != r.value.ranks[k]
  {
    var norms := ColumnNorms(data, |weights|, sqrt);
    if exists j :: 0 <= j < |norms| && norms[j] == 0.0 then Err(ZeroNormColumn)
    else
      assert |weights| > 0 ==> norms[0] != 0.0;
      var w := Weighted(data, norms, weights);
      var best := IdealBest(w, impacts);
      var worst := IdealWorst(w, impacts);
      var scores := Scores(w, best, worst, sqrt);
      Ranking.RanksArePermutation(scores);
      Ok(Scored(scores, Ranking.Ranks(scores)))
  }

  /** The ranks of a successful calculation order the rows by score, best
      first: a higher score gets a smaller rank, and of two equal scores the
      earlier row gets the smaller rank. */
  lemma CalculationRanksFollowScores(data: seq<seq<real>>, weights: seq<real>, impacts: seq<Impact>,
                                     sqrt: real -> real, i: nat, k: nat)
    requires SqrtLaws(sqrt) && IsMatrix(data, |weights|) && |impacts| == |weights|
    requires TopsisCalculation(data, weights, impacts, sqrt).Ok?
    requires i < |data| && k < |data|
    ensures var s := TopsisCalculation(data, weights, impacts, sqrt).value;
      s.scores[i] > s.scores[k] || (s.scores[i] == s.scores[k] && i < k) ==> s.ranks[i] < s.ranks[k]
  {
    var s := TopsisCalculation(data, weights, impacts, sqrt).value;
    if s.scores[i] > s.scores[k] || (s.scores[i] == s.scores[k] && i < k) {
      Ranking.RanksFollowScores(s.scores, i, k);
    }
  }

  /** With a single alternative both ideals are that alternative, so both
      distances are 0 and its score is 0 and its rank 1. */
  lemma SingleAlternative(row: seq<real>, weights: seq<real>, impacts: seq<Impact>, sqrt: real -> real)
    requires SqrtLaws(sqrt) && |row| == |weights| && |impacts| == |weights|
    requires forall j :: 0 <= j < |row| ==> row[j] != 0.0
    ensures TopsisCalculation([row], weights, impacts, sqrt) == Ok(Scored([0.0], [1]))
  {
    var data := [row];
    var norms := ColumnNorms(data, |weights|, sqrt);
    assert forall j :: 0 <= j < |weights| ==> !ZeroColumn(data, j) by {
      forall j | 0 <= j < |weights|
        ensures !ZeroColumn(data, j)
      {
        assert data[0][j] != 0.0;
      }
    }
    var w := Weighted(data, norms, weights);
    var best := IdealBest(w, impacts);
    var worst := IdealWorst(w, impacts);
    assert best == w[0] by {
      forall j | 0 <= j < |impacts|
        ensures best[j] == w[0][j]
      {
        if impacts[j] == Benefit {
          assert IsColumnMax(w, j, best[j]);
        } else {
          assert IsColumnMin(w, j, best[j]);
        }
      }
    }
    assert worst == w[0] by {
      forall j | 0 <= j < |impacts|
        ensures worst[j] == w[0][j]
      {
        if impacts[j] == Benefit {
          assert IsColumnMin(w, j, worst[j]);
        } else {
          assert IsColumnMax(w, j, worst[j]);
        }
      }
    }
    var scores := Scores(w, best, worst, sqrt);
    assert scores == [0.0];
    assert Ranking.Ranks(scores) == [1];
  }
}
