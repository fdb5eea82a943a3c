/** Shared vocabulary of the TOPSIS model: the errors that end a run, the result
    type that carries them, and the shape of a numeric matrix. */
module Base {

  /** Every check of topsis_vriti/core.py that ends the run through error_and_exit.
      The model returns the error instead of printing it and exiting. */
  datatype Error =
    | NonNumericWeights          // a weight token is not a number
    | InvalidImpacts             // an impact token is neither "+" nor "-"
    | CountMismatch(ncols: int)  // weights or impacts are not one per criterion
    | TooFewColumns              // the table has fewer than 3 columns
    | NonNumericCriteria         // a cell of columns 1.. is not numeric
    | ZeroNormColumn             // a criterion column has norm 0

  datatype Option<+T> = None | Some(value: T)

  /** The outcome of a stage: its value, or the error that stops the pipeline. */
  datatype Result<+T> = Ok(value: T) | Err(error: Error) {

    predicate IsFailure() {
      Err?
    }

    function PropagateFailure<U>(): Result<U>
      requires Err?
    {
      Err(error)
    }

    function Extract(): T
      requires Ok?
    {
      value
    }
  }

  /** `data` is a matrix with `m` columns (any number of rows). */
  predicate IsMatrix<T>(data: seq<seq<T>>, m: nat) {
    forall i :: 0 <= i < |data| ==> |data[i]| == m
  }
}
