# Linear regression with categorical encoding, in Dafny

This project models the numeric core of `LinearRegressor` and its helper
functions in `src/Lab_2_4_LR2.py`, and proves properties of that model:

- **`one_hot_encode`** (module `Encoding`) turns a raw matrix of numbers and
  text labels into a numeric design matrix:
  - each plain column is copied through as numbers;
  - each categorical column is replaced, in place, by one 0/1 indicator
    column per distinct label, in `np.unique` order;
  - with `drop_first`, the smallest label loses its column.
- **`predict`** (module `Prediction`) applies the intercept and coefficients
  in one of two ways:
  - to a matrix, as the bias-augmented product `X_b . [intercept, coefficients]`;
  - to a vector, through the single-feature shortcut
    `intercept + coefficients[0] * X`.
- **`fit`** (module `Training`) checks the method name and reshapes a vector
  into a one-column matrix. It then runs one of two strategies:
  - the normal equation `fit_multiple`: bias augmentation, then the split of
    θ into the intercept and the coefficients;
  - batch gradient descent `fit_gradient_descent`: the update of every epoch,
    the parameter history and the loss trace recorded every tenth epoch.
- **`evaluate_regression`** (module `Evaluation`) computes R², the squared
  error and the mean absolute error.
- **Diagnostics** (module `Diagnostics`): the loss that gradient descent
  records is the squared-error score that `evaluate_regression` gives for the
  same parameters.

The modules `Outcomes` (errors, `Option`, `Result`) and `Linalg` (exact
vector and matrix arithmetic over `real`) support the rest.

Python failures become `Err` values of `Outcomes.Error`. All but one are exceptions; the exception is the empty input of `evaluate_regression`, where numpy returns NaN scores instead of raising:

| Python failure | `Outcomes.Error` value |
|---|---|
| unknown method name | `InvalidMethod` |
| `predict` before fitting | `NotFitted` |
| numpy shape errors | `ShapeMismatch` |
| indexing an empty coefficient array | `IndexOutOfRange` |
| division by a zero row count | `DivisionByZero` |
| a run of no epochs, which reads a loss trace that was never created | `MissingTrainingHistory` |
| `astype(float)` failing on a label in a plain column | `NotNumeric` |
| `np.unique` on a column that mixes numbers and labels | `Unorderable` |
| `np.column_stack` of nothing | `NothingToStack` |
| the mean of empty arrays (numpy returns NaN, it does not raise) | `EmptyInput` |

Each error path leaves the model in the state the Python object would be in:
- gradient descent assigns its random start before it can fail, so its errors
  leave the model fitted with that start;
- the normal equation and an unknown method name leave the prior state.

`evaluate_regression(y, y)` gives R² = 1 only when the targets are not all
equal. For constant targets `ss_tot` is zero, and the division yields no
number:
- `Evaluation.PerfectFitIff` proves R² = 1 for a perfect fit with
  non-constant targets;
- `Evaluation.ConstantTargetIff` proves R² is undefined for constant targets.

## Model

| member | source | states |
|---|---|---|
| Encoding.OneHotEncode | src/Lab_2_4_LR2.py:203-232 | Success exactly when every column can be encoded and at least one output column results. Otherwise the error is that of the leftmost faulty column, or `NothingToStack`. On success, one row per input row and one column per block entry. |
| Encoding.OneHotBlock | src/Lab_2_4_LR2.py:217-230 | Input column `i`'s block starts at `Offset(i)`. A plain column holds the cell's number. A categorical column has, for its `k`-th label, 1.0 in exactly the rows carrying that label and 0.0 elsewhere. |
| Encoding.OneHotExactlyOne | src/Lab_2_4_LR2.py:220-228 | Without `drop_first`, every row of a categorical block holds exactly one 1.0. |
| Encoding.OneHotDropFirstAtMostOne | src/Lab_2_4_LR2.py:220-228 | With `drop_first`, a row of a categorical block holds at most one 1.0. The row is all zero exactly when its label is the column's smallest. |
| Encoding.CategoricalRow | src/Lab_2_4_LR2.py:220-228 | A row of a categorical block has at most one 1.0, has a 1.0 iff its label is kept, and is all zero iff its label was dropped. |
| Encoding.CategoriesSortedDistinct | src/Lab_2_4_LR2.py:220-224 | A block's labels are strictly increasing. Without `drop_first` they are exactly the column's values. With `drop_first` they are those values minus the smallest, which is below every other value. |
| Encoding.Unique | src/Lab_2_4_LR2.py:220 | `np.unique` returns a strictly increasing sequence holding exactly the column's values. |
| Encoding.IncreasingDetermined | src/Lab_2_4_LR2.py:220 | Two strictly increasing sequences with the same elements are equal, so the sorted distinct values are unique. |
| Encoding.BelowTotal | src/Lab_2_4_LR2.py:220 | The order used to sort labels (numbers by value, text by code point) is total. |
| Encoding.BelowTransitive | src/Lab_2_4_LR2.py:220 | That order is transitive. |
| Encoding.FirstFault | src/Lab_2_4_LR2.py:217-230 | No fault exactly when every column to the left encodes. A fault reported is the leftmost one. |
| Encoding.ExpandHoldsBlock | src/Lab_2_4_LR2.py:217-230 | Columns appended later never disturb an earlier block. Output column `Offset(i) + k` stays block `i`'s `k`-th column. |
| Encoding.Categories | src/Lab_2_4_LR2.py:220-224 | A block's labels are strictly increasing values of the column. Without `drop_first` every value of the column is among them. |
| Encoding.Indicator | src/Lab_2_4_LR2.py:227 | The indicator column is 1.0 exactly in the rows holding the category, and 0.0 exactly in the others. |
| Encoding.Numbers | src/Lab_2_4_LR2.py:230 | A plain column is copied row by row as its numeric values. |
| Encoding.Stack | src/Lab_2_4_LR2.py:232 | Column `k` of `np.column_stack` is the `k`-th stacked vector. |
| Encoding.OneHotLabelsExample | src/Lab_2_4_LR2.py:203-232 | `["a","b","a"]` encodes to the columns `[1,0,1]` and `[0,1,0]`. |
| Encoding.OneHotLabelsDropFirstExample | src/Lab_2_4_LR2.py:203-232 | With `drop_first`, the same column encodes to the single column `[0,1,0]`. |
| Prediction.Predict | src/Lab_2_4_LR2.py:150-174 | The cases: <br>• an unfitted model gives `NotFitted`; <br>• a vector gives `intercept + coefficients[0] * x` per entry, and fails iff there are no coefficients; <br>• a matrix gives the affine value of each row, and fails with `ShapeMismatch` iff the widths differ. |
| Prediction.Reshape | src/Lab_2_4_LR2.py:41-42 | `reshape(-1, 1)` gives a well-formed matrix of width one with one row per entry. |
| Prediction.ReshapeRoundTrip | src/Lab_2_4_LR2.py:41-42 | The only column of the reshaped matrix is the original vector. |
| Prediction.PredictVectorAgreesWithReshape | src/Lab_2_4_LR2.py:166-172 | A one-coefficient model predicts the same on a vector as on its reshaped matrix. |
| Prediction.PredictVectorShortcut | src/Lab_2_4_LR2.py:166-172 | With several coefficients a vector is still accepted, but the same data as a one-column matrix is refused. |
| Linalg.Augment | src/Lab_2_4_LR2.py:64 | `np.c_[ones, X]` has one more column, a leading 1.0 in every row, and the original row after it. |
| Linalg.DotBias | src/Lab_2_4_LR2.py:171-172 | A bias entry of one contributes exactly the intercept to the product. |
| Training.Fit | src/Lab_2_4_LR2.py:22-47 | The outcomes: <br>• an unknown method fails before any assignment and keeps the prior model; <br>• `least_squares` gives exactly the normal-equation result, and keeps the prior model on error; <br>• `gradient_descent` succeeds exactly when `iterations > 0` and `y` has one entry per row of a non-empty matrix; <br>• its errors are `MissingTrainingHistory`, `ShapeMismatch` and `DivisionByZero` in that order of precedence, and leave the initial parameters; <br>• on success the model is the iterate after `iterations` epochs, with its complete history and loss trace; <br>• every success has one coefficient per design column, and one coefficient for a vector. |
| Training.ParseMethod | src/Lab_2_4_LR2.py:37-40 | Exactly `"least_squares"` and `"gradient_descent"` are accepted, each mapped to its own strategy. Any other name is refused with that name in the error. |
| Training.Design | src/Lab_2_4_LR2.py:41-42 | A matrix is used as given. A vector becomes a width-one matrix whose only column is the vector. |
| Training.FitMultiple | src/Lab_2_4_LR2.py:63-70 | Fails iff `y` does not have one entry per row. On success, `[intercept] + coefficients` is the solver's θ, with one coefficient per feature. |
| Training.LeastSquaresPredictsSolution | src/Lab_2_4_LR2.py:63-70 | After the normal-equation fit, predicting on the training matrix gives exactly `X_b . θ`. |
| Training.InterpolatingSolutionPredictsTargets | src/Lab_2_4_LR2.py:63-70 | When the supplied θ reproduces the targets (assumed, not derived from pinv), the fitted model predicts the targets exactly. |
| Training.Residual | src/Lab_2_4_LR2.py:96-97 | Entry `r` of the residual is the affine value of row `r` minus `y[r]`. |
| Training.Step | src/Lab_2_4_LR2.py:99-103 | One epoch, with `g = 2 lr / m` and `err` the residual: <br>• the intercept drops by `g * sum(err)`; <br>• coefficient `j` drops by `g` times column `j` dotted with `err`; <br>• the number of coefficients is unchanged. |
| Training.EpochMse | src/Lab_2_4_LR2.py:111 | The recorded loss is never negative, and is zero exactly when the parameters reproduce every target. |
| Training.Iterate | src/Lab_2_4_LR2.py:95-103 | Repeated epochs keep the shapes that the next epoch needs. |
| Training.StepFixesExactFit | src/Lab_2_4_LR2.py:95-111 | Parameters that already reproduce every target are a fixed point of the update, and their MSE is zero. |
| Training.IterateStaysAtExactFit | src/Lab_2_4_LR2.py:95-103 | Gradient descent started at an exact fit never moves. |
| Training.RunEpoch | src/Lab_2_4_LR2.py:95-116 | One loop body keeps `Progress`: it advances the parameters by one epoch and appends them to the history. On a tenth epoch it also appends that epoch's loss checkpoint. |
| Training.ProgressRecorded | src/Lab_2_4_LR2.py:95-116 | After `iterations` epochs the loop state is the final iterate and a complete trace: history entry `e` is iterate `e + 1`, and there is one checkpoint per multiple of ten below `iterations`. |
| Training.Descend | src/Lab_2_4_LR2.py:95-116 | After the loop: <br>• the parameters are the `iterations`-th iterate; <br>• history entry `e` is iterate `e + 1`; <br>• there are `ceil(iterations / 10)` loss checkpoints, the `k`-th for epoch `10k` with that epoch's starting MSE. |
| Training.FitGradientDescent | src/Lab_2_4_LR2.py:72-116 | Each failure and its error leave the model at the initial parameters: <br>• no epochs: `MissingTrainingHistory`; <br>• a target of the wrong length: `ShapeMismatch`; <br>• an empty matrix: `DivisionByZero`. <br>Otherwise the model is the final iterate. History entry `e` is iterate `e + 1`, and the `k`-th loss checkpoint is epoch `10k` with that epoch's starting MSE. |
| Training.TenthEpoch | src/Lab_2_4_LR2.py:110 | With `count` checkpoints taken so far, the epoch is a multiple of ten exactly when it is the next checkpoint's epoch `10 * count`. |
| Training.CheckpointEpochs | src/Lab_2_4_LR2.py:110-116 | The loss trace holds every multiple of ten below `iterations` and nothing else, in increasing order. |
| Evaluation.Evaluate | src/Lab_2_4_LR2.py:177-200 | Fails iff the lengths differ (`ShapeMismatch`) or the input is empty (`EmptyInput`). The MSE and MAE are non-negative. R² is undefined iff `ss_tot` is zero, and at most one otherwise. |
| Evaluation.PerfectFitIff | src/Lab_2_4_LR2.py:189-198 | Each of the following holds iff the predictions equal the targets: <br>• MSE is zero; <br>• MAE is zero; <br>• for non-constant targets, R² is one. |
| Evaluation.SsRes | src/Lab_2_4_LR2.py:190 | `ss_res` is never negative, and is zero exactly when the predictions equal the targets. |
| Evaluation.SsTot | src/Lab_2_4_LR2.py:191 | `ss_tot` is never negative, and is zero exactly when every target is the same. |
| Evaluation.ConstantTargetIff | src/Lab_2_4_LR2.py:191-192 | `ss_tot` is zero iff all targets are equal, and that holds iff R² is undefined, for any predictions of matching length. |
| Evaluation.MeanPredictorScoresZero | src/Lab_2_4_LR2.py:190-192 | Predicting the targets' mean everywhere scores an R² of zero. |
| Evaluation.ErrorsSymmetric | src/Lab_2_4_LR2.py:195-198 | The MSE and MAE do not depend on which argument is the truth. |
| Linalg.SumSquaresZero | src/Lab_2_4_LR2.py:190 | A sum of squares vanishes iff every entry does. |
| Evaluation.EvaluateExample | src/Lab_2_4_LR2.py:177-200 | `[1,2,3]` against `[1,2,4]` gives R² = 0.5, MSE = 1/3 and MAE = 1/3. |
| Diagnostics.EpochMseIsEvaluationMse | src/Lab_2_4_LR2.py:111 | The MSE that gradient descent records for an epoch equals `evaluate_regression`'s squared error for that epoch's starting parameters. |
| Diagnostics.LossTraceIsEvaluationMse | src/Lab_2_4_LR2.py:110-116 | Every checkpoint of the loss trace is the squared-error score of the parameters reached at that epoch. |

## Left out

- Plotting (`src/Lab_2_4_LR2.py:119-148`) and the progress `print` (line 112) are presentation only. The model returns the traces they consume.
- `np.random.rand` (lines 88-89) is not modelled. The initial parameters are the input `init`.
- `np.linalg.pinv` (line 67) is not modelled. The normal-equation solve is the input `solve`, assumed to return one entry per column of `X_b`.
- Evaluation.Evaluate: reports the mean squared error in place of its square root, the RMSE, because `real` has no square root. Since `sqrt` is monotone, the RMSE is zero exactly when this value is zero.
- Floating point: all arithmetic is exact over `real`. NaN and infinity appear only where numpy would produce them from an empty mean or a zero `ss_tot`, and they are modelled as `EmptyInput` and an undefined R². Divergence of gradient descent to NaN is not modelled.
- Encoding.OneHotEncode: a text cell in a plain column is always `NotNumeric`. numpy's `astype(float)` would parse numeric text such as `"3.5"`.
- Encoding.OneHotEncode: cells other than numbers and text (booleans, `None`) are not modelled.
- Broadcasting of length-1 arrays against longer ones, in `evaluate_regression` and in the residual, is not modelled. Length mismatches are always `ShapeMismatch`.
- Inputs of more than two dimensions are not modelled.
- Convergence of gradient descent to the least-squares solution is not modelled. Only its fixed points are characterised.
- Default arguments are not modelled: `Training.Fit`, `Training.FitGradientDescent` and `Encoding.OneHotEncode` take every argument explicitly. A caller passes the source's defaults itself: `method="least_squares"`, `learning_rate=0.01` and `iterations=1000` (lines 22 and 72), and `drop_first=False` (line 203).
- The `history` dictionary is not kept as a dictionary. It becomes the sequence of parameters in `Training.Trace`.
