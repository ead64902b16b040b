/** Weights from the normal equations are the one best fit of a target by given columns. */
module LeastSquares {
  import opened Results
  import opened Vectors
  import opened GaussJordan

  function Gram(columns: seq<Vector>, dimension: nat): (g: seq<Vector>)
    requires Columns(columns, dimension)
    ensures |g| == |columns| && Columns(g, |columns|)
  {
    seq(|columns|, (i: nat) requires i < |columns| =>
      seq(|columns|, (j: nat) requires j < |columns| => Dot(columns[i], columns[j])))
  }

  function Correlation(columns: seq<Vector>, target: Vector): (c: Vector)
    requires Columns(columns, |target|)
    ensures |c| == |columns|
  {
    seq(|columns|, (i: nat) requires i < |columns| => Dot(columns[i], target))
  }

  /** The weights that elimination of the normal equations gives, if it accepts them. */
  function Weights(columns: seq<Vector>, target: Vector): (w: Option<Vector>)
    requires Columns(columns, |target|)
    ensures w.Some? ==> |w.value| == |columns|
  {
    SolveFrom(Gram(columns, |target|), Correlation(columns, target), 0)
  }

  function Approximation(columns: seq<Vector>, w: Vector, dimension: nat): (v: Vector)
    requires Columns(columns, dimension) && |w| == |columns|
    ensures |v| == dimension
  {
    Combine(columns, w, dimension, |columns|)
  }

  function Residue(columns: seq<Vector>, w: Vector, target: Vector): (r: Vector)
    requires Columns(columns, |target|) && |w| == |columns|
    ensures |r| == |target|
  {
    seq(|target|, (i: nat) requires i < |target| =>
      target[i] - Approximation(columns, w, |target|)[i])
  }

  /** The squared error of fitting the target by the weighted columns. */
  function SquaredError(columns: seq<Vector>, w: Vector, target: Vector): real
    requires Columns(columns, |target|) && |w| == |columns|
  {
    Dot(Residue(columns, w, target), Residue(columns, w, target))
  }

  lemma GramTimesWeights(columns: seq<Vector>, v: Vector, dimension: nat, i: nat)
    requires Columns(columns, dimension) && |v| == |columns| && i < |columns|
    ensures Dot(Gram(columns, dimension)[i], v) == Dot(columns[i], Approximation(columns, v, dimension))
  {
    DotCombine(columns[i], columns, v, Gram(columns, dimension)[i], |columns|);
  }

  /** What the fit leaves over is orthogonal to every column. */
  lemma ResidueIsOrthogonal(columns: seq<Vector>, w: Vector, target: Vector, i: nat)
    requires Columns(columns, |target|) && |w| == |columns| && i < |columns|
    requires Solves(Gram(columns, |target|), Correlation(columns, target), w)
    ensures Dot(Residue(columns, w, target), columns[i]) == 0.0
  {
    var r, a := Residue(columns, w, target), Approximation(columns, w, |target|);
    GramTimesWeights(columns, w, |target|, i);
    DotLinear(columns[i], target, -1.0, a, r, |target|);
    DotSymmetric(columns[i], r, |target|);
  }

  lemma ResidueMeetsApproximation(columns: seq<Vector>, w: Vector, d: Vector, target: Vector)
    requires Columns(columns, |target|) && |w| == |columns| == |d|
    requires Solves(Gram(columns, |target|), Correlation(columns, target), w)
    ensures Dot(Residue(columns, w, target), Approximation(columns, d, |target|)) == 0.0
  {
    var r := Residue(columns, w, target);
    var dots := seq(|columns|, (i: nat) requires i < |columns| => Dot(r, columns[i]));
    forall i | 0 <= i < |columns|
      ensures dots[i] == 0.0
    {
      ResidueIsOrthogonal(columns, w, target, i);
    }
    DotCombine(r, columns, d, dots, |columns|);
    DotSymmetric(dots, d, |d|);
    DotZero(d, dots, |d|);
  }

  function Difference(w: Vector, v: Vector): (d: Vector)
    requires |w| == |v|
    ensures |d| == |w| && forall i :: 0 <= i < |d| ==> d[i] == w[i] - v[i]
  {
    seq(|w|, (i: nat) requires i < |w| => w[i] - v[i])
  }

  /** Pythagoras: any other weights add the squared length of the change to the error. */
  lemma ErrorSplits(columns: seq<Vector>, w: Vector, v: Vector, target: Vector)
    requires Columns(columns, |target|) && |w| == |columns| == |v|
    requires Solves(Gram(columns, |target|), Correlation(columns, target), w)
    ensures var e := Approximation(columns, Difference(w, v), |target|);
      SquaredError(columns, v, target) == SquaredError(columns, w, target) + Dot(e, e)
  {
    var n := |target|;
    var d := Difference(w, v);
    var e := Approximation(columns, d, n);
    var rw, rv := Residue(columns, w, target), Residue(columns, v, target);
    forall i | 0 <= i < n
      ensures rv[i] == rw[i] + 1.0 * e[i]
    {
      MixDifference(columns, v, w, d, i, |columns|);
      assert Approximation(columns, w, n)[i] == Mix(columns, w, i, |columns|);
      assert Approximation(columns, v, n)[i] == Mix(columns, v, i, |columns|);
      assert e[i] == Mix(columns, d, i, |columns|);
    }
    ResidueMeetsApproximation(columns, w, d, target);
    DotLinear(rv, rw, 1.0, e, rv, n);
    DotSymmetric(rv, rw, n);
    DotSymmetric(rv, e, n);
    DotLinear(rw, rw, 1.0, e, rv, n);
    DotLinear(e, rw, 1.0, e, rv, n);
    DotSymmetric(e, rw, n);
  }

  /** A change of weights that does not change the fit still solves the normal equations. */
  lemma EqualFitSolves(columns: seq<Vector>, w: Vector, v: Vector, target: Vector)
    requires Columns(columns, |target|) && |w| == |columns| == |v|
    requires Solves(Gram(columns, |target|), Correlation(columns, target), w)
    requires var e := Approximation(columns, Difference(w, v), |target|); Dot(e, e) == 0.0
    ensures Solves(Gram(columns, |target|), Correlation(columns, target), v)
  {
    var n := |target|;
    var g := Gram(columns, n);
    var d := Difference(w, v);
    var e := Approximation(columns, d, n);
    NormNonNegative(e, n);
    forall i | 0 <= i < |columns|
      ensures Dot(g[i], v) == Dot(g[i], w)
    {
      GramTimesWeights(columns, d, n, i);
      DotZero(columns[i], e, n);
      DotLinear(g[i], v, 1.0, d, w, |v|);
    }
  }

  /** The accepted weights fit strictly better than any other real weights. */
  lemma WeightsAreBest(columns: seq<Vector>, target: Vector, v: Vector)
    requires Columns(columns, |target|) && |v| == |columns|
    requires Weights(columns, target).Some?
    ensures var w := Weights(columns, target).value;
      && SquaredError(columns, w, target) <= SquaredError(columns, v, target)
      && (v != w ==> SquaredError(columns, w, target) < SquaredError(columns, v, target))
  {
    var g, c := Gram(columns, |target|), Correlation(columns, target);
    var w := Weights(columns, target).value;
    SolveIsUnique(g, c, 0, w);
    ErrorSplits(columns, w, v, target);
    var e := Approximation(columns, Difference(w, v), |target|);
    NormNonNegative(e, |target|);
    if Dot(e, e) == 0.0 {
      EqualFitSolves(columns, w, v, target);
      SolveIsUnique(g, c, 0, v);
    }
  }

  /** Linearly dependent columns have no unique fit, and elimination refuses them. */
  lemma DependentColumnsAreRefused(columns: seq<Vector>, target: Vector, d: Vector)
    requires Columns(columns, |target|) && |d| == |columns|
    requires exists i :: 0 <= i < |d| && d[i] != 0.0
    requires forall i :: 0 <= i < |target| ==> Approximation(columns, d, |target|)[i] == 0.0
    ensures Weights(columns, target) == None
  {
    if Weights(columns, target).Some? {
      var n := |target|;
      var w := Weights(columns, target).value;
      var v := seq(|w|, (i: nat) requires i < |w| => w[i] - d[i]);
      assert v != w by {
        var i :| 0 <= i < |d| && d[i] != 0.0;
        assert v[i] != w[i];
      }
      SolveIsUnique(Gram(columns, n), Correlation(columns, target), 0, w);
      assert Difference(w, v) == d;
      ErrorSplits(columns, w, v, target);
      DotZero(Approximation(columns, d, n), Approximation(columns, d, n), n);
      WeightsAreBest(columns, target, v);
    }
  }
}
