/** `LinearRegressor.fit` and its two strategies: the normal equation
    (`fit_multiple`) and batch gradient descent (`fit_gradient_descent`).
    The pseudo-inverse solve and the random initial parameters are not
    computed here: the first is the parameter `solve`, the second `init`.
 */
module Training {
  import opened Outcomes
  import opened Linalg
  import opened Prediction

  datatype Method = LeastSquares | GradientDescent

  /** The method names `fit` accepts; any other name is refused with the
      name in the error. */
  function ParseMethod(name: string): (r: Result<Method>)
    ensures r.Ok? <==> name == "least_squares" || name == "gradient_descent"
    ensures r.Ok? ==> (r.value == LeastSquares <==> name == "least_squares")
    ensures r.Err? ==> r.error == InvalidMethod(name)
  {
    if name == "least_squares" then Ok(LeastSquares)
    else if name == "gradient_descent" then Ok(GradientDescent)
    else Err(InvalidMethod(name))
  }

  /** The matrix `fit` hands to its strategies: a vector is reshaped to N x 1. */
  function Design(X: Input): (g: Grid<real>)
    requires WfInput(X)
    ensures Wf(g)
    ensures X.Matrix? ==> g == X.grid
    ensures X.Vector? ==> g.width == 1 && |g.rows| == |X.xs| && Column(g, 0) == X.xs
  {
    match X
    case Vector(xs) => Reshape(xs)
    case Matrix(g) => g
  }

  /** The normal-equation solve `pinv(A.T A) A.T b`, supplied from outside. */
  type Solver = (Grid<real>, seq<real>) -> seq<real>

  // ---------------------------------------------------------------------------
  // Normal equation
  // ---------------------------------------------------------------------------

  /** `fit_multiple(X, y)`: solve on the bias-augmented matrix, then split the
      solution into the intercept (its first entry) and the coefficients (the
      rest). numpy refuses `X_b.T.dot(y)` unless `y` has one entry per row. */
  function FitMultiple(X: Grid<real>, y: seq<real>, solve: Solver): (r: Result<Params>)
    requires Wf(X) && |solve(Augment(X), y)| == X.width + 1
    ensures r.Err? <==> |y| != |X.rows|
    ensures r.Err? ==> r.error == ShapeMismatch
    ensures r.Ok? ==>
      |r.value.coefficients| == X.width &&
      [r.value.intercept] + r.value.coefficients == solve(Augment(X), y)
  {
    if |y| != |X.rows| then Err(ShapeMismatch)
    else
      var theta := solve(Augment(X), y);
      assert theta == [theta[0]] + theta[1..];
      Ok(Params(theta[0], theta[1..]))
  }

  /** After the normal-equation fit, `predict` on the training matrix returns
      exactly `X_b . theta`, the product the solution was computed for. */
  lemma LeastSquaresPredictsSolution(X: Grid<real>, y: seq<real>, solve: Solver)
    requires Wf(X) && |solve(Augment(X), y)| == X.width + 1
    requires |y| == |X.rows|
    ensures Predict(Fitted(FitMultiple(X, y, solve).value), Matrix(X)) == Ok(MatVec(Augment(X), solve(Augment(X), y)))
  {
    var p := FitMultiple(X, y, solve).value;
    var theta := solve(Augment(X), y);
    var pred := Predict(Fitted(p), Matrix(X)).value;
    var want := MatVec(Augment(X), theta);
    forall i | 0 <= i < |X.rows|
      ensures pred[i] == want[i]
    {
      assert Augment(X).rows[i] == [1.0] + X.rows[i];
      DotBias(X.rows[i], p.intercept, p.coefficients);
    }
    assert pred == want;
  }

  /** When the supplied solution reproduces the targets (as the pseudo-inverse
      does on noiseless data of full column rank, which is assumed here and
      not derived), the fitted model predicts the targets exactly. */
  lemma InterpolatingSolutionPredictsTargets(X: Grid<real>, y: seq<real>, solve: Solver)
    requires Wf(X) && |solve(Augment(X), y)| == X.width + 1
    requires MatVec(Augment(X), solve(Augment(X), y)) == y
    ensures FitMultiple(X, y, solve).Ok?
    ensures Predict(Fitted(FitMultiple(X, y, solve).value), Matrix(X)) == Ok(y)
  {
    LeastSquaresPredictsSolution(X, y, solve);
  }

  // ---------------------------------------------------------------------------
  // Gradient descent
  // ---------------------------------------------------------------------------

  /** What one epoch needs to run without an exception. */
  predicate EpochReady(X: Grid<real>, y: seq<real>, p: Params) {
    Wf(X) && |X.rows| > 0 && |y| == |X.rows| && |p.coefficients| == X.width
  }

  /** `error = predict(X) - y`: entry `r` is the model's affine value on
      row `r` minus the target `y[r]`. */
  function Residual(X: Grid<real>, y: seq<real>, p: Params): (err: seq<real>)
    requires Wf(X) && |y| == |X.rows| && |p.coefficients| == X.width
    ensures |err| == |y|
    ensures forall r :: 0 <= r < |y| ==> err[r] == Affine(p, X.rows[r]) - y[r]
  {
    Sub(Predict(Fitted(p), Matrix(X)).value, y)
  }

  /** `2 * learning_rate / m` */
  function Rate(lr: real, m: nat): real
    requires m > 0
  {
    2.0 * lr / (m as real)
  }

  /** One epoch of `fit_gradient_descent`: both gradients are taken from the
      same residual `err`, then subtracted. With `g = 2 * lr / m`, the
      intercept drops by `g * sum(err)` and coefficient `j` by
      `g * sum_r X[r][j] * err[r]`. */
  function Step(X: Grid<real>, y: seq<real>, lr: real, p: Params): (q: Params)
    requires EpochReady(X, y, p)
    ensures |q.coefficients| == |p.coefficients|
    ensures q.intercept == p.intercept - Rate(lr, |X.rows|) * Sum(Residual(X, y, p))
    ensures forall j :: 0 <= j < X.width ==>
      q.coefficients[j] == p.coefficients[j] - Rate(lr, |X.rows|) * Dot(Column(X, j), Residual(X, y, p))
  {
    Update(X, p, Rate(lr, |X.rows|), Residual(X, y, p))
  }

  /** `intercept -= g * np.sum(err)` and `coefficients -= g * X.T.dot(err)`. */
  function Update(X: Grid<real>, p: Params, g: real, err: seq<real>): (q: Params)
    requires Wf(X) && |p.coefficients| == X.width && |err| == |X.rows|
    ensures |q.coefficients| == |p.coefficients|
    ensures q.intercept == p.intercept - g * Sum(err)
    ensures forall j :: 0 <= j < X.width ==> q.coefficients[j] == p.coefficients[j] - g * Dot(Column(X, j), err)
  {
    Params(p.intercept - g * Sum(err), Sub(p.coefficients, Scale(g, TransposeVec(X, err))))
  }

  /** The parameters after `k` epochs from `p`. */
  function Iterate(X: Grid<real>, y: seq<real>, lr: real, p: Params, k: nat): (q: Params)
    requires EpochReady(X, y, p)
    ensures EpochReady(X, y, q)
  {
    if k == 0 then p else Step(X, y, lr, Iterate(X, y, lr, p, k - 1))
  }

  /** `np.mean(error ** 2)` for the parameters an epoch starts from: never
      negative, and zero exactly when the parameters reproduce every target. */
  function EpochMse(X: Grid<real>, y: seq<real>, p: Params): (mse: real)
    requires EpochReady(X, y, p)
    ensures mse >= 0.0
    ensures mse == 0.0 <==> forall r :: 0 <= r < |y| ==> Affine(p, X.rows[r]) == y[r]
  {
    var err := Residual(X, y, p);
    SquaresNonnegative(err);
    SumSquaresZero(err);
    var n := |err| as real;
    assert Sum(Squares(err)) / n == 0.0 <==> Sum(Squares(err)) == 0.0;
    Mean(Squares(err))
  }

  /** A parameter set that already reproduces every target is a fixed point
      of the update: the residual, hence both gradients, vanish. */
  lemma StepFixesExactFit(X: Grid<real>, y: seq<real>, lr: real, p: Params)
    requires EpochReady(X, y, p)
    requires forall r :: 0 <= r < |y| ==> Affine(p, X.rows[r]) == y[r]
    ensures Step(X, y, lr, p) == p
    ensures EpochMse(X, y, p) == 0.0
  {
    var err := Residual(X, y, p);
    SumConstant(err, 0.0);
    var q := Step(X, y, lr, p);
    forall j | 0 <= j < X.width
      ensures q.coefficients[j] == p.coefficients[j]
    {
      DotZero(Column(X, j), err);
    }
    assert q.coefficients == p.coefficients;
  }

  /** Gradient descent started at an exact fit never moves. */
  lemma {:induction false} IterateStaysAtExactFit(X: Grid<real>, y: seq<real>, lr: real, p: Params, k: nat)
    requires EpochReady(X, y, p)
    requires forall r :: 0 <= r < |y| ==> Affine(p, X.rows[r]) == y[r]
    ensures Iterate(X, y, lr, p, k) == p
  {
    if k > 0 {
      IterateStaysAtExactFit(X, y, lr, p, k - 1);
      StepFixesExactFit(X, y, lr, p);
    }
  }

  /** One entry of the loss trace: the epoch and the MSE at its start. */
  datatype Checkpoint = Checkpoint(epoch: nat, mse: real)

  /** The diagnostics gradient descent keeps: the parameters after every
      epoch, and the loss at every tenth epoch starting with epoch 0. */
  datatype Trace = Trace(history: seq<Params>, losses: seq<Checkpoint>)

  /** The loss checkpoint of the `k`-th tenth epoch: epoch `10 * k` and the
      MSE of the residual of the parameters that epoch starts from. */
  function LossAt(X: Grid<real>, y: seq<real>, lr: real, init: Params, k: nat): Checkpoint
    requires EpochReady(X, y, init)
  {
    Checkpoint(10 * k, EpochMse(X, y, Iterate(X, y, lr, init, 10 * k)))
  }

  /** `t` is the trace of `iterations` epochs from `init`: history entry `e`
      is the parameters after epoch `e`, and there is one loss checkpoint per
      multiple of ten below `iterations`, the `k`-th for epoch `10 * k`. */
  predicate Recorded(X: Grid<real>, y: seq<real>, lr: real, init: Params, iterations: nat, t: Trace)
    requires EpochReady(X, y, init)
  {
    && |t.history| == iterations
    && (forall e :: 0 <= e < iterations ==> t.history[e] == Iterate(X, y, lr, init, e + 1))
    && |t.losses| == (iterations + 9) / 10
    && (forall k :: 0 <= k < |t.losses| ==> 10 * k < iterations && t.losses[k] == LossAt(X, y, lr, init, k))
  }

  /** The state of the epoch loop before epoch `epoch`: `p` is the iterate
      reached so far, the history holds iterates 1 .. `epoch`, and the loss
      trace holds the checkpoints of every tenth epoch below `epoch`. */
  predicate Progress(X: Grid<real>, y: seq<real>, lr: real, init: Params, epoch: nat,
                     p: Params, history: seq<Params>, losses: seq<Checkpoint>)
    requires EpochReady(X, y, init)
  {
    && p == Iterate(X, y, lr, init, epoch)
    && |history| == epoch
    && (forall e :: 0 <= e < epoch ==> history[e] == Iterate(X, y, lr, init, e + 1))
    && epoch <= 10 * |losses| && (|losses| > 0 ==> 10 * (|losses| - 1) < epoch)
    && (forall k :: 0 <= k < |losses| ==> losses[k] == LossAt(X, y, lr, init, k))
  }

  /** When the loop stops after `iterations` epochs its state is the
      complete trace. */
  lemma ProgressRecorded(X: Grid<real>, y: seq<real>, lr: real, init: Params, iterations: nat,
                         p: Params, history: seq<Params>, losses: seq<Checkpoint>)
    requires EpochReady(X, y, init)
    requires Progress(X, y, lr, init, iterations, p, history, losses)
    ensures p == Iterate(X, y, lr, init, iterations)
    ensures Recorded(X, y, lr, init, iterations, Trace(history, losses))
  {
    TenthEpochCount(iterations, |losses|);
  }

  /** The body of the epoch loop: record the loss on every tenth epoch,
      update the parameters, and record them in the history. */
  method RunEpoch(X: Grid<real>, y: seq<real>, lr: real, init: Params, epoch: nat,
                  p: Params, history: seq<Params>, losses: seq<Checkpoint>)
    returns (p': Params, history': seq<Params>, losses': seq<Checkpoint>)
    requires EpochReady(X, y, init)
    requires Progress(X, y, lr, init, epoch, p, history, losses)
    ensures Progress(X, y, lr, init, epoch + 1, p', history', losses')
  {
    TenthEpoch(epoch, |losses|);
    losses' := losses;
    if epoch % 10 == 0 {
      var c := Checkpoint(epoch, EpochMse(X, y, p));
      assert c == LossAt(X, y, lr, init, |losses|);
      losses' := losses + [c];
    }
    p' := Step(X, y, lr, p);
    history' := history + [p'];
    forall e | 0 <= e < epoch + 1
      ensures history'[e] == Iterate(X, y, lr, init, e + 1)
    {
      if e < epoch {
        assert history'[e] == history[e];
      }
    }
  }

  /** The `iterations` epochs of `fit_gradient_descent`, with the trace they
      record: one history entry per epoch, and the MSE of the residual an
      epoch starts from at epochs 0, 10, 20, ... */
  method Descend(X: Grid<real>, y: seq<real>, lr: real, iterations: nat, init: Params)
    returns (last: Params, t: Trace)
    requires EpochReady(X, y, init)
    ensures last == Iterate(X, y, lr, init, iterations)
    ensures Recorded(X, y, lr, init, iterations, t)
  {
    var p := init;
    var history: seq<Params> := [];
    var losses: seq<Checkpoint> := [];
    var epoch: nat := 0;
    while epoch < iterations
      invariant epoch <= iterations
      invariant Progress(X, y, lr, init, epoch, p, history, losses)
    {
      p, history, losses := RunEpoch(X, y, lr, init, epoch, p, history, losses);
      epoch := epoch + 1;
    }
    ProgressRecorded(X, y, lr, init, iterations, p, history, losses);
    last := p;
    t := Trace(history, losses);
  }

  /** `fit_gradient_descent(X, y, learning_rate, iterations)` from the
      initial parameters `init`. The Python object is assigned `init` before
      the loop, so every exception leaves the model fitted with `init`:
      a target of the wrong length fails at the first residual, an empty
      matrix at the division by `m`, and a run of no epochs when the plotting
      step reads the loss trace that was never created. */
  method FitGradientDescent(X: Grid<real>, y: seq<real>, lr: real, iterations: int, init: Params)
    returns (model: Model, outcome: Result<Trace>)
    requires Wf(X) && |init.coefficients| == X.width
    ensures outcome.Err? ==> model == Fitted(init)
    ensures iterations <= 0 ==> outcome == Err(MissingTrainingHistory)
    ensures iterations > 0 && |y| != |X.rows| ==> outcome == Err(ShapeMismatch)
    ensures iterations > 0 && |y| == |X.rows| == 0 ==> outcome == Err(DivisionByZero)
    ensures iterations > 0 && |y| == |X.rows| > 0 ==> outcome.Ok?
    ensures outcome.Ok? ==>
      iterations > 0 && EpochReady(X, y, init) &&
      model == Fitted(Iterate(X, y, lr, init, iterations)) &&
      Recorded(X, y, lr, init, iterations, outcome.value)
  {
    model := Fitted(init);
    if iterations <= 0 {
      return model, Err(MissingTrainingHistory);
    }
    if |y| != |X.rows| {
      return model, Err(ShapeMismatch);
    }
    if |X.rows| == 0 {
      return model, Err(DivisionByZero);
    }
    var last, t := Descend(X, y, lr, iterations, init);
    model := Fitted(last);
    outcome := Ok(t);
  }

  /** With `count` checkpoints taken before `epoch`, the epoch is a tenth
      epoch exactly when it is the next multiple of ten. */
  lemma TenthEpoch(epoch: nat, count: nat)
    requires epoch <= 10 * count && (count > 0 ==> 10 * (count - 1) < epoch)
    ensures epoch % 10 == 0 <==> epoch == 10 * count
  {
  }

  /** The checkpoints taken before `n` are the multiples of ten below it. */
  lemma TenthEpochCount(n: nat, count: nat)
    requires n <= 10 * count && (count > 0 ==> 10 * (count - 1) < n)
    ensures count == (n + 9) / 10
  {
  }

  /** The loss trace holds exactly the epochs 0, 10, 20, ... below the
      iteration count, in increasing order. */
  lemma CheckpointEpochs(t: Trace, iterations: nat)
    requires |t.losses| == (iterations + 9) / 10
    requires forall k :: 0 <= k < |t.losses| ==> t.losses[k].epoch == 10 * k
    ensures forall k :: 0 <= k < |t.losses| ==> t.losses[k].epoch < iterations
    ensures forall k1, k2 :: 0 <= k1 < k2 < |t.losses| ==> t.losses[k1].epoch < t.losses[k2].epoch
    ensures forall e :: 0 <= e < iterations && e % 10 == 0 ==> exists k :: 0 <= k < |t.losses| && t.losses[k].epoch == e
  {
    forall e | 0 <= e < iterations && e % 10 == 0
      ensures exists k :: 0 <= k < |t.losses| && t.losses[k].epoch == e
    {
      assert t.losses[e / 10].epoch == e;
    }
  }

  // ---------------------------------------------------------------------------
  // fit
  // ---------------------------------------------------------------------------

  /** `fit(X, y, method, learning_rate, iterations)`. An unknown method name
      fails before anything is assigned, so the model keeps its prior state;
      a vector is reshaped to one column before either strategy runs. */
  method Fit(prior: Model, X: Input, y: seq<real>, name: string, lr: real, iterations: int,
             init: Params, solve: Solver)
    returns (model: Model, outcome: Result<Option<Trace>>)
    requires WfInput(X)
    requires |init.coefficients| == Design(X).width
    requires |solve(Augment(Design(X)), y)| == Design(X).width + 1
    ensures name != "least_squares" && name != "gradient_descent" ==>
      model == prior && outcome == Err(InvalidMethod(name))
    ensures outcome.Ok? ==> model.Fitted? && |model.params.coefficients| == Design(X).width
    ensures outcome.Ok? && X.Vector? ==> |model.params.coefficients| == 1
    ensures name == "least_squares" ==>
      var ls := FitMultiple(Design(X), y, solve);
      (ls.Ok? ==> model == Fitted(ls.value) && outcome == Ok(None)) &&
      (ls.Err? ==> model == prior && outcome == Err(ls.error))
    ensures name == "gradient_descent" ==>
      (outcome.Ok? <==> iterations > 0 && |y| == |Design(X).rows| > 0)
    ensures name == "gradient_descent" && iterations <= 0 ==> outcome == Err(MissingTrainingHistory)
    ensures name == "gradient_descent" && iterations > 0 && |y| != |Design(X).rows| ==> outcome == Err(ShapeMismatch)
    ensures name == "gradient_descent" && iterations > 0 && |y| == |Design(X).rows| == 0 ==> outcome == Err(DivisionByZero)
    ensures name == "gradient_descent" && outcome.Err? ==> model == Fitted(init)
    ensures name == "gradient_descent" && outcome.Ok? ==>
      outcome.value.Some? && iterations > 0 && EpochReady(Design(X), y, init) &&
      model == Fitted(Iterate(Design(X), y, lr, init, iterations)) &&
      Recorded(Design(X), y, lr, init, iterations, outcome.value.value)
  {
    var parsed := ParseMethod(name);
    if parsed.Err? {
      return prior, Err(parsed.error);
    }
    var D := Design(X);
    match parsed.value
    case LeastSquares =>
      var ls := FitMultiple(D, y, solve);
      if ls.Err? {
        return prior, Err(ls.error);
      }
      return Fitted(ls.value), Ok(None);
    case GradientDescent =>
      var trace;
      model, trace := FitGradientDescent(D, y, lr, iterations, init);
      if trace.Err? {
        return model, Err(trace.error);
      }
      return model, Ok(Some(trace.value));
  }
}
