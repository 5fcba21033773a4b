/** The estimator's state and `LinearRegressor.predict`. The state is either
    unfitted (both fields `None` in the Python object) or fitted with an
    intercept and one coefficient per feature column.
 */
module Prediction {
  import opened Outcomes
  import opened Linalg

  datatype Params = Params(intercept: real, coefficients: seq<real>)

  datatype Model = Unfitted | Fitted(params: Params)

  /** An input array: `np.ndim(X) == 1` or `np.ndim(X) == 2`. */
  datatype Input = Vector(xs: seq<real>) | Matrix(grid: Grid<real>)

  predicate WfInput(X: Input) {
    X.Matrix? ==> Wf(X.grid)
  }

  /** The affine value a fitted model assigns to one feature row. */
  function Affine(p: Params, row: seq<real>): real
    requires |row| == |p.coefficients|
  {
    p.intercept + Dot(row, p.coefficients)
  }

  /** `predict(X)`. On a matrix the bias-augmented rows are multiplied by
      `[intercept] + coefficients`, which numpy refuses unless the widths
      agree; on a vector only the first coefficient is used. */
  function Predict(m: Model, X: Input): (r: Result<seq<real>>)
    requires WfInput(X)
    ensures m.Unfitted? ==> r == Err(NotFitted)
    ensures m.Fitted? && X.Vector? ==> (r.Ok? <==> |m.params.coefficients| > 0)
    ensures m.Fitted? && X.Vector? && r.Err? ==> r.error == IndexOutOfRange
    ensures r.Ok? && X.Vector? ==>
      |r.value| == |X.xs| &&
      forall i :: 0 <= i < |X.xs| ==> r.value[i] == m.params.intercept + m.params.coefficients[0] * X.xs[i]
    ensures m.Fitted? && X.Matrix? ==> (r.Ok? <==> X.grid.width == |m.params.coefficients|)
    ensures m.Fitted? && X.Matrix? && r.Err? ==> r.error == ShapeMismatch
    ensures r.Ok? && X.Matrix? ==>
      |r.value| == |X.grid.rows| &&
      forall i :: 0 <= i < |X.grid.rows| ==> r.value[i] == Affine(m.params, X.grid.rows[i])
  {
    match m
    case Unfitted => Err(NotFitted)
    case Fitted(p) =>
      match X
      case Vector(xs) =>
        if |p.coefficients| == 0 then Err(IndexOutOfRange)
        else Ok(seq(|xs|, i requires 0 <= i < |xs| => p.intercept + p.coefficients[0] * xs[i]))
      case Matrix(g) =>
        if g.width != |p.coefficients| then Err(ShapeMismatch)
        else
          var theta := [p.intercept] + p.coefficients;
          var out := MatVec(Augment(g), theta);
          assert forall i :: 0 <= i < |g.rows| ==> out[i] == Affine(p, g.rows[i]) by {
            forall i | 0 <= i < |g.rows|
              ensures out[i] == Affine(p, g.rows[i])
            {
              assert Augment(g).rows[i] == [1.0] + g.rows[i];
              DotBias(g.rows[i], p.intercept, p.coefficients);
            }
          }
          Ok(out)
  }

  /** `X.reshape(-1, 1)`: a vector as a single-feature matrix. */
  function Reshape(xs: seq<real>): (g: Grid<real>)
    ensures Wf(g) && g.width == 1 && |g.rows| == |xs|
  {
    Grid(seq(|xs|, i requires 0 <= i < |xs| => [xs[i]]), 1)
  }

  /** The reshaped matrix's only column is the vector it came from. */
  lemma ReshapeRoundTrip(xs: seq<real>)
    ensures Column(Reshape(xs), 0) == xs
  {
  }

  /** A single-feature model predicts the same on a vector as on its
      reshaped matrix. */
  lemma PredictVectorAgreesWithReshape(p: Params, xs: seq<real>)
    requires |p.coefficients| == 1
    ensures Predict(Fitted(p), Vector(xs)) == Predict(Fitted(p), Matrix(Reshape(xs)))
  {
    var v := Predict(Fitted(p), Vector(xs)).value;
    var w := Predict(Fitted(p), Matrix(Reshape(xs))).value;
    forall i | 0 <= i < |xs|
      ensures v[i] == w[i]
    {
      var row := Reshape(xs).rows[i];
      assert row == [xs[i]];
      assert row[1..] == [] && p.coefficients[1..] == [];
      assert Dot(row, p.coefficients) == xs[i] * p.coefficients[0] + Dot(row[1..], p.coefficients[1..]);
    }
    assert v == w;
  }

  /** The single-feature shortcut: with more than one coefficient a vector is
      still accepted (only the first coefficient is used), while the same data
      as a one-column matrix is refused. */
  lemma PredictVectorShortcut(p: Params, xs: seq<real>)
    requires |p.coefficients| > 1
    ensures Predict(Fitted(p), Vector(xs)).Ok?
    ensures Predict(Fitted(p), Matrix(Reshape(xs))) == Err(ShapeMismatch)
  {
  }
}
