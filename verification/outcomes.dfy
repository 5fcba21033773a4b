/** The error and result types shared by every component of the regression
    model. Each `Error` stands for one exception the Python code raises (or, for
    `EmptyInput`, the NaN that numpy returns instead of raising).
 */
module Outcomes {

  datatype Error =
    | InvalidMethod(name: string)   // `fit` was given an unknown method name
    | NotFitted                     // `predict` before any parameters exist
    | ShapeMismatch                 // numpy refuses to align two operands
    | IndexOutOfRange               // `coefficients[0]` on an empty vector
    | DivisionByZero                // `2 * learning_rate / m` with m == 0
    | MissingTrainingHistory        // the loss trace was never created
    | NotNumeric(column: nat)       // a text value in a column cast to float
    | Unorderable(column: nat)      // numbers and texts mixed in a sorted column
    | NothingToStack                // `column_stack` of an empty list
    | EmptyInput                    // the mean of an empty vector

  datatype Option<+T> = None | Some(value: T)

  datatype Result<+T> = Ok(value: T) | Err(error: Error)
}
