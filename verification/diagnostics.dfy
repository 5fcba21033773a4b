/** How the loss gradient descent records relates to the scores
    `evaluate_regression` reports for the same parameters.
 */
module Diagnostics {
  import opened Outcomes
  import opened Linalg
  import opened Prediction
  import opened Training
  import opened Evaluation

  /** The loss gradient descent records for the parameters an epoch starts
      from is the squared-error score of their predictions on the training
      data: the sign of `predict(X) - y` does not matter once squared. */
  lemma EpochMseIsEvaluationMse(X: Grid<real>, y: seq<real>, p: Params)
    requires EpochReady(X, y, p)
    ensures Predict(Fitted(p), Matrix(X)).Ok?
    ensures Evaluate(y, Predict(Fitted(p), Matrix(X)).value).Ok?
    ensures EpochMse(X, y, p) == Evaluate(y, Predict(Fitted(p), Matrix(X)).value).value.mse
  {
    var pred := Predict(Fitted(p), Matrix(X)).value;
    ErrorsSymmetric(y, pred);
    assert Residual(X, y, p) == Sub(pred, y);
  }

  /** Every checkpoint of the loss trace is the squared-error score of the
      parameters reached at that epoch. */
  lemma LossTraceIsEvaluationMse(X: Grid<real>, y: seq<real>, lr: real, init: Params, k: nat)
    requires EpochReady(X, y, init)
    ensures var p := Iterate(X, y, lr, init, 10 * k);
            Predict(Fitted(p), Matrix(X)).Ok? &&
            Evaluate(y, Predict(Fitted(p), Matrix(X)).value).Ok? &&
            LossAt(X, y, lr, init, k).mse == Evaluate(y, Predict(Fitted(p), Matrix(X)).value).value.mse
  {
    EpochMseIsEvaluationMse(X, y, Iterate(X, y, lr, init, 10 * k));
  }
}
