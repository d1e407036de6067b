/** Results of operations that the recommender can abort. */
module Wrappers {

  /** Why an operation produced no value. Each kind stands for one way the
      recommender stops or leaves its numeric domain. */
  datatype Failure =
    | UnknownId        // `list.index` of an id that was never registered (ValueError)
    | NoCandidates     // a mean over an empty id list (ZeroDivisionError)
    | ZeroDenominator  // an integer division by zero (ZeroDivisionError)
    | NotANumber       // a NaN or infinity reaches the scores (mean of nothing, x / 0.0)
    | Exhausted        // `max` of an empty score list (ValueError)
    | OutOfRange       // a matrix subscript past the last column (IndexError)
    | EmptyMatrix      // the maximum of a matrix without cells (ValueError)

  datatype Result<T> = Ok(value: T) | Err(error: Failure)
}
