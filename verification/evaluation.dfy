/** `evaluate_regression`: the coefficient of determination, the squared
    error and the absolute error of a prediction against the true targets.
 */
module Evaluation {
  import opened Outcomes
  import opened Linalg

  /** The three scores. `r2` is `None` where numpy's division by a zero
      total sum of squares yields a non-finite value; `mse` is the mean
      squared error, the square of the reported RMSE. */
  datatype Metrics = Metrics(r2: Option<real>, mse: real, mae: real)

  /** `np.full(n, c)` */
  function Fill(n: nat, c: real): (v: seq<real>)
    ensures |v| == n && forall i :: 0 <= i < n ==> v[i] == c
  {
    seq(n, i requires 0 <= i < n => c)
  }

  /** `y_true - np.mean(y_true)` */
  function Centered(yt: seq<real>): (d: seq<real>)
    requires |yt| > 0
    ensures |d| == |yt|
  {
    Sub(yt, Fill(|yt|, Mean(yt)))
  }

  /** The residual sum of squares `ss_res`: never negative, and zero exactly
      when the predictions equal the targets. */
  function SsRes(yt: seq<real>, yp: seq<real>): (s: real)
    requires |yt| == |yp|
    ensures s >= 0.0
    ensures s == 0.0 <==> yt == yp
  {
    SquaresNonnegative(Sub(yt, yp));
    SumSquaresZero(Sub(yt, yp));
    SubZero(yt, yp);
    Sum(Squares(Sub(yt, yp)))
  }

  /** The total sum of squares `ss_tot`, the spread of the targets around
      their mean: never negative, and zero exactly when every target is the
      same. */
  function SsTot(yt: seq<real>): (t: real)
    requires |yt| > 0
    ensures t >= 0.0
    ensures t == 0.0 <==> forall i :: 0 <= i < |yt| ==> yt[i] == yt[0]
  {
    SquaresNonnegative(Centered(yt));
    SumSquaresZero(Centered(yt));
    CenteredZeroIff(yt);
    Sum(Squares(Centered(yt)))
  }

  /** The targets minus their mean vanish exactly when the targets are constant. */
  lemma CenteredZeroIff(yt: seq<real>)
    requires |yt| > 0
    ensures (forall i :: 0 <= i < |yt| ==> Centered(yt)[i] == 0.0) <==> forall i :: 0 <= i < |yt| ==> yt[i] == yt[0]
  {
    var c := Centered(yt);
    if forall i :: 0 <= i < |yt| ==> yt[i] == yt[0] {
      MeanConstant(yt, yt[0]);
      forall i | 0 <= i < |yt|
        ensures c[i] == 0.0
      {
        assert c[i] == yt[i] - Mean(yt);
      }
    }
    if forall i :: 0 <= i < |yt| ==> c[i] == 0.0 {
      forall i | 0 <= i < |yt|
        ensures yt[i] == yt[0]
      {
        assert c[i] == yt[i] - Mean(yt) && c[0] == yt[0] - Mean(yt);
      }
    }
  }

  /** `evaluate_regression(y_true, y_pred)`. Arrays of different lengths
      cannot be subtracted; the mean of empty arrays is not a number. */
  function Evaluate(yt: seq<real>, yp: seq<real>): (r: Result<Metrics>)
    ensures r.Err? <==> |yt| != |yp| || |yt| == 0
    ensures |yt| != |yp| ==> r == Err(ShapeMismatch)
    ensures |yt| == |yp| == 0 ==> r == Err(EmptyInput)
    ensures r.Ok? ==> r.value.mse >= 0.0 && r.value.mae >= 0.0
    ensures r.Ok? ==> (r.value.r2.None? <==> SsTot(yt) == 0.0)
    ensures r.Ok? && r.value.r2.Some? ==> r.value.r2.value <= 1.0
  {
    if |yt| != |yp| then Err(ShapeMismatch)
    else if |yt| == 0 then Err(EmptyInput)
    else
      var d := Sub(yt, yp);
      SquaresNonnegative(d);
      SquaresNonnegative(Centered(yt));
      SumNonnegative(Magnitudes(d));
      var res, tot := SsRes(yt, yp), SsTot(yt);
      var r2 := if tot == 0.0 then None else Some(1.0 - res / tot);
      assert r2.Some? ==> res / tot >= 0.0;
      Ok(Metrics(r2, Mean(Squares(d)), Mean(Magnitudes(d))))
  }

  // ---------------------------------------------------------------------------
  // Facts about sums of magnitudes
  // ---------------------------------------------------------------------------

  /** A sum of magnitudes vanishes exactly when every entry does. */
  lemma SumMagnitudesZero(v: seq<real>)
    ensures Sum(Magnitudes(v)) == 0.0 <==> forall i :: 0 <= i < |v| ==> v[i] == 0.0
  {
    SumNonnegative(Magnitudes(v));
    if Sum(Magnitudes(v)) == 0.0 {
      SumZeroOnlyIfAllZero(Magnitudes(v));
      forall i | 0 <= i < |v|
        ensures v[i] == 0.0
      {
        assert Magnitudes(v)[i] == Abs(v[i]) == 0.0;
      }
    }
    if forall i :: 0 <= i < |v| ==> v[i] == 0.0 {
      SumConstant(Magnitudes(v), 0.0);
    }
  }

  // ---------------------------------------------------------------------------
  // What the scores mean
  // ---------------------------------------------------------------------------

  /** Each error score is zero exactly when the prediction is perfect, and,
      when the targets vary at all, so is an R^2 of one. */
  lemma PerfectFitIff(yt: seq<real>, yp: seq<real>)
    requires |yt| == |yp| > 0
    ensures Evaluate(yt, yp).value.mse == 0.0 <==> yt == yp
    ensures Evaluate(yt, yp).value.mae == 0.0 <==> yt == yp
    ensures SsTot(yt) != 0.0 ==> (Evaluate(yt, yp).value.r2 == Some(1.0) <==> yt == yp)
  {
    var d := Sub(yt, yp);
    SumSquaresZero(d);
    SumMagnitudesZero(d);
    SubZero(yt, yp);
    assert Mean(Squares(d)) == 0.0 <==> Sum(Squares(d)) == 0.0;
    assert Mean(Magnitudes(d)) == 0.0 <==> Sum(Magnitudes(d)) == 0.0;
    if SsTot(yt) != 0.0 {
      assert 1.0 - SsRes(yt, yp) / SsTot(yt) == 1.0 <==> SsRes(yt, yp) == 0.0;
    }
  }

  /** The total sum of squares vanishes exactly when every target is the
      same; R^2 is then undefined, whatever the predictions. */
  lemma ConstantTargetIff(yt: seq<real>, yp: seq<real>)
    requires |yt| == |yp| > 0
    ensures SsTot(yt) == 0.0 <==> forall i :: 0 <= i < |yt| ==> yt[i] == yt[0]
    ensures (forall i :: 0 <= i < |yt| ==> yt[i] == yt[0]) <==> Evaluate(yt, yp).value.r2.None?
  {
  }

  /** Predicting the mean of the targets everywhere scores an R^2 of zero. */
  lemma MeanPredictorScoresZero(yt: seq<real>)
    requires |yt| > 0 && SsTot(yt) != 0.0
    ensures Evaluate(yt, Fill(|yt|, Mean(yt))).value.r2 == Some(0.0)
  {
    var tot := SsTot(yt);
    assert SsRes(yt, Fill(|yt|, Mean(yt))) == tot;
    assert tot / tot == 1.0;
  }

  /** The error scores do not depend on which argument is the truth. */
  lemma ErrorsSymmetric(yt: seq<real>, yp: seq<real>)
    requires |yt| == |yp| > 0
    ensures Evaluate(yt, yp).value.mse == Evaluate(yp, yt).value.mse
    ensures Evaluate(yt, yp).value.mae == Evaluate(yp, yt).value.mae
  {
    var a, b := Sub(yt, yp), Sub(yp, yt);
    forall i | 0 <= i < |yt|
      ensures Squares(a)[i] == Squares(b)[i] && Magnitudes(a)[i] == Magnitudes(b)[i]
    {
      assert b[i] == -a[i];
      assert a[i] * a[i] == (-a[i]) * (-a[i]);
    }
    assert Squares(a) == Squares(b);
    assert Magnitudes(a) == Magnitudes(b);
  }

  /** A worked case: targets [1, 2, 3] against predictions [1, 2, 4] leave
      a residual sum of squares of 1 over a total of 2. */
  lemma EvaluateExample()
    ensures Evaluate([1.0, 2.0, 3.0], [1.0, 2.0, 4.0]) == Ok(Metrics(Some(0.5), 1.0 / 3.0, 1.0 / 3.0))
  {
    var yt, yp := [1.0, 2.0, 3.0], [1.0, 2.0, 4.0];
    var d := Sub(yt, yp);
    assert d == [0.0, 0.0, -1.0];
    assert Squares(d) == [0.0, 0.0, 1.0];
    assert Magnitudes(d) == [0.0, 0.0, 1.0];
    assert Sum([1.0]) == 1.0;
    assert Sum(yt) == 6.0 by {
      assert yt[1..] == [2.0, 3.0] && yt[1..][1..] == [3.0];
    }
    assert Centered(yt) == [-1.0, 0.0, 1.0];
    assert Squares(Centered(yt)) == [1.0, 0.0, 1.0];
    assert SsTot(yt) == 2.0 by {
      assert [1.0, 0.0, 1.0][1..] == [0.0, 1.0] && [0.0, 1.0][1..] == [1.0];
    }
    assert SsRes(yt, yp) == 1.0 by {
      assert [0.0, 0.0, 1.0][1..] == [0.0, 1.0] && [0.0, 1.0][1..] == [1.0];
    }
  }
}
