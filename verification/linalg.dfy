/** Exact linear algebra over `real`: the handful of numpy operations the
    regression code uses, written out element by element.
 */
module Linalg {

  /** A rectangular array stored row by row. The column count is kept
      explicitly so that an array with no rows still has a width, as a numpy
      array of shape (0, n) does. */
  datatype Grid<T> = Grid(rows: seq<seq<T>>, width: nat)

  /** Every row has `width` entries (numpy arrays are always rectangular). */
  predicate Wf<T>(g: Grid<T>) {
    forall r :: 0 <= r < |g.rows| ==> |g.rows[r]| == g.width
  }

  /** `g[:, j]` */
  function Column<T>(g: Grid<T>, j: nat): seq<T>
    requires Wf(g) && j < g.width
  {
    seq(|g.rows|, r requires 0 <= r < |g.rows| => g.rows[r][j])
  }

  /** `np.sum(v)` */
  function Sum(v: seq<real>): real
  {
    if |v| == 0 then 0.0 else v[0] + Sum(v[1..])
  }

  /** `np.mean(v)`, defined only on non-empty vectors. */
  function Mean(v: seq<real>): real
    requires |v| > 0
  {
    Sum(v) / (|v| as real)
  }

  /** Inner product `a.dot(b)`. */
  function Dot(a: seq<real>, b: seq<real>): real
    requires |a| == |b|
  {
    if |a| == 0 then 0.0 else a[0] * b[0] + Dot(a[1..], b[1..])
  }

  /** Element-wise `a - b`. */
  function Sub(a: seq<real>, b: seq<real>): seq<real>
    requires |a| == |b|
  {
    seq(|a|, i requires 0 <= i < |a| => a[i] - b[i])
  }

  /** Element-wise `k * v`. */
  function Scale(k: real, v: seq<real>): seq<real>
  {
    seq(|v|, i requires 0 <= i < |v| => k * v[i])
  }

  /** Element-wise `v ** 2`. */
  function Squares(v: seq<real>): seq<real>
  {
    seq(|v|, i requires 0 <= i < |v| => v[i] * v[i])
  }

  function Abs(x: real): real {
    if x < 0.0 then -x else x
  }

  /** Element-wise `np.abs(v)`. */
  function Magnitudes(v: seq<real>): seq<real>
  {
    seq(|v|, i requires 0 <= i < |v| => Abs(v[i]))
  }

  /** `g.dot(v)`: one inner product per row. */
  function MatVec(g: Grid<real>, v: seq<real>): seq<real>
    requires Wf(g) && g.width == |v|
  {
    seq(|g.rows|, r requires 0 <= r < |g.rows| => Dot(g.rows[r], v))
  }

  /** `g.T.dot(v)`: one inner product per column. */
  function TransposeVec(g: Grid<real>, v: seq<real>): seq<real>
    requires Wf(g) && |g.rows| == |v|
  {
    seq(g.width, j requires 0 <= j < g.width => Dot(Column(g, j), v))
  }

  /** `np.c_[np.ones((m, 1)), g]`: a leading bias column of ones. */
  function Augment(g: Grid<real>): (a: Grid<real>)
    requires Wf(g)
    ensures Wf(a) && a.width == g.width + 1 && |a.rows| == |g.rows|
    ensures forall r :: 0 <= r < |a.rows| ==> a.rows[r][0] == 1.0 && a.rows[r][1..] == g.rows[r]
  {
    Grid(seq(|g.rows|, r requires 0 <= r < |g.rows| => [1.0] + g.rows[r]), g.width + 1)
  }

  /** A bias entry of one contributes exactly the weight paired with it. */
  lemma DotBias(row: seq<real>, b: real, c: seq<real>)
    requires |row| == |c|
    ensures Dot([1.0] + row, [b] + c) == b + Dot(row, c)
  {
    assert ([1.0] + row)[1..] == row;
    assert ([b] + c)[1..] == c;
  }

  lemma {:induction false} SumNonnegative(v: seq<real>)
    requires forall i :: 0 <= i < |v| ==> v[i] >= 0.0
    ensures Sum(v) >= 0.0
  {
    if |v| > 0 {
      SumNonnegative(v[1..]);
    }
  }

  /** A sum of non-negative terms vanishes only when every term does. */
  lemma {:induction false} SumZeroOnlyIfAllZero(v: seq<real>)
    requires forall i :: 0 <= i < |v| ==> v[i] >= 0.0
    requires Sum(v) == 0.0
    ensures forall i :: 0 <= i < |v| ==> v[i] == 0.0
  {
    if |v| > 0 {
      SumNonnegative(v[1..]);
      SumZeroOnlyIfAllZero(v[1..]);
      forall i | 0 < i < |v|
        ensures v[i] == 0.0
      {
        assert v[i] == v[1..][i - 1];
      }
    }
  }

  /** The sum of `n` copies of `c` is `n * c`. */
  lemma {:induction false} SumConstant(v: seq<real>, c: real)
    requires forall i :: 0 <= i < |v| ==> v[i] == c
    ensures Sum(v) == (|v| as real) * c
  {
    if |v| > 0 {
      SumConstant(v[1..], c);
    }
  }

  /** The mean of `n` copies of `c` is `c`. */
  lemma MeanConstant(v: seq<real>, c: real)
    requires |v| > 0 && forall i :: 0 <= i < |v| ==> v[i] == c
    ensures Mean(v) == c
  {
    SumConstant(v, c);
    var n := |v| as real;
    calc {
      Mean(v);
      == Sum(v) / n;
      == (n * c) / n;
      == c;
    }
  }

  lemma {:induction false} DotZero(a: seq<real>, b: seq<real>)
    requires |a| == |b|
    requires forall i :: 0 <= i < |b| ==> b[i] == 0.0
    ensures Dot(a, b) == 0.0
  {
    if |a| > 0 {
      DotZero(a[1..], b[1..]);
    }
  }

  /** Squares are non-negative, and so is their sum. */
  lemma SquaresNonnegative(v: seq<real>)
    ensures forall i :: 0 <= i < |v| ==> Squares(v)[i] >= 0.0
    ensures Sum(Squares(v)) >= 0.0
  {
    SumNonnegative(Squares(v));
  }

  /** A sum of squares vanishes exactly when every entry does. */
  lemma SumSquaresZero(v: seq<real>)
    ensures Sum(Squares(v)) == 0.0 <==> forall i :: 0 <= i < |v| ==> v[i] == 0.0
  {
    SquaresNonnegative(v);
    if Sum(Squares(v)) == 0.0 {
      SumZeroOnlyIfAllZero(Squares(v));
      forall i | 0 <= i < |v|
        ensures v[i] == 0.0
      {
        if v[i] != 0.0 {
          calc {
            Squares(v)[i];
            == v[i] * v[i];
            > 0.0;
          }
        }
      }
    }
    if forall i :: 0 <= i < |v| ==> v[i] == 0.0 {
      SumConstant(Squares(v), 0.0);
    }
  }

  /** The difference of two vectors is zero exactly when they are equal. */
  lemma SubZero(a: seq<real>, b: seq<real>)
    requires |a| == |b|
    ensures (forall i :: 0 <= i < |a| ==> Sub(a, b)[i] == 0.0) <==> a == b
  {
    if forall i :: 0 <= i < |a| ==> Sub(a, b)[i] == 0.0 {
      forall i | 0 <= i < |a|
        ensures a[i] == b[i]
      {
        assert Sub(a, b)[i] == a[i] - b[i];
      }
    }
  }
}
