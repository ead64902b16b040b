/** Finite real vectors: dot products, weighted column sums and their linearity laws. */
module Vectors {

  type Vector = seq<real>

  /** The sum of a[i] * b[i] over the first n coordinates. */
  function DotTo(a: Vector, b: Vector, n: nat): real
    requires n <= |a| && n <= |b|
  {
    if n == 0 then 0.0 else DotTo(a, b, n - 1) + a[n - 1] * b[n - 1]
  }

  function Dot(a: Vector, b: Vector): real
    requires |a| == |b|
  {
    DotTo(a, b, |a|)
  }

  /** Every column has the given dimension. */
  predicate Columns(columns: seq<Vector>, dimension: nat) {
    forall i :: 0 <= i < |columns| ==> |columns[i]| == dimension
  }

  /** Coordinate `index` of the sum of w[i] * columns[i] over the first k columns. */
  function Mix(columns: seq<Vector>, w: Vector, index: nat, k: nat): real
    requires k <= |columns| && k <= |w|
    requires forall i :: 0 <= i < |columns| ==> index < |columns[i]|
  {
    if k == 0 then 0.0 else Mix(columns, w, index, k - 1) + w[k - 1] * columns[k - 1][index]
  }

  /** The vector whose coordinates are the mixes of the first k columns. */
  function Combine(columns: seq<Vector>, w: Vector, dimension: nat, k: nat): (v: Vector)
    requires Columns(columns, dimension) && k <= |columns| && k <= |w|
    ensures |v| == dimension
  {
    seq(dimension, (index: nat) requires index < dimension => Mix(columns, w, index, k))
  }

  lemma {:induction false} DotSymmetric(a: Vector, b: Vector, n: nat)
    requires n <= |a| && n <= |b|
    ensures DotTo(a, b, n) == DotTo(b, a, n)
  {
    if n > 0 {
      DotSymmetric(a, b, n - 1);
    }
  }

  /** The dot product is linear in its second argument. */
  lemma {:induction false} DotLinear(c: Vector, u: Vector, s: real, v: Vector, sum: Vector, n: nat)
    requires n <= |c| && |u| == |v| == |sum| && n <= |u|
    requires forall i :: 0 <= i < n ==> sum[i] == u[i] + s * v[i]
    ensures DotTo(c, sum, n) == DotTo(c, u, n) + s * DotTo(c, v, n)
  {
    if n > 0 {
      DotLinear(c, u, s, v, sum, n - 1);
      assert c[n - 1] * sum[n - 1] == c[n - 1] * u[n - 1] + s * (c[n - 1] * v[n - 1]);
      assert s * (DotTo(c, v, n - 1) + c[n - 1] * v[n - 1])
          == s * DotTo(c, v, n - 1) + s * (c[n - 1] * v[n - 1]);
    }
  }

  lemma {:induction false} DotZero(c: Vector, z: Vector, n: nat)
    requires n <= |c| && n <= |z|
    requires forall i :: 0 <= i < n ==> z[i] == 0.0
    ensures DotTo(c, z, n) == 0.0
  {
    if n > 0 {
      DotZero(c, z, n - 1);
    }
  }

  /** A unit row picks one coordinate out of a vector. */
  lemma {:induction false} DotUnit(e: Vector, y: Vector, k: nat, n: nat)
    requires n <= |e| && n <= |y|
    requires forall i :: 0 <= i < n ==> e[i] == if i == k then 1.0 else 0.0
    ensures DotTo(e, y, n) == if k < n then y[k] else 0.0
  {
    if n > 0 {
      DotUnit(e, y, k, n - 1);
    }
  }

  lemma {:induction false} NormNonNegative(a: Vector, n: nat)
    requires n <= |a|
    ensures DotTo(a, a, n) >= 0.0
    ensures DotTo(a, a, n) == 0.0 ==> forall i :: 0 <= i < n ==> a[i] == 0.0
  {
    if n > 0 {
      NormNonNegative(a, n - 1);
      SquareNonNegative(a[n - 1]);
    }
  }

  lemma SquareNonNegative(x: real)
    ensures x * x >= 0.0
    ensures x * x == 0.0 ==> x == 0.0
  {
    if x != 0.0 {
      assert x * x / x == x;
    }
  }

  /** Dotting a weighted column sum is the weighted sum of the dots. */
  lemma {:induction false} DotCombine(
    c: Vector, columns: seq<Vector>, w: Vector, dots: Vector, k: nat)
    requires Columns(columns, |c|) && k <= |columns| == |w| == |dots|
    requires forall i :: 0 <= i < k ==> dots[i] == Dot(c, columns[i])
    ensures Dot(c, Combine(columns, w, |c|, k)) == DotTo(dots, w, k)
  {
    if k == 0 {
      DotZero(c, Combine(columns, w, |c|, 0), |c|);
    } else {
      DotCombine(c, columns, w, dots, k - 1);
      DotLinear(c, Combine(columns, w, |c|, k - 1), w[k - 1], columns[k - 1],
                Combine(columns, w, |c|, k), |c|);
    }
  }

  /** Column sums are linear in their weights. */
  lemma {:induction false} MixDifference(
    columns: seq<Vector>, v: Vector, w: Vector, d: Vector, index: nat, k: nat)
    requires k <= |columns| == |v| == |w| == |d|
    requires forall i :: 0 <= i < |columns| ==> index < |columns[i]|
    requires forall i :: 0 <= i < |d| ==> d[i] == w[i] - v[i]
    ensures Mix(columns, d, index, k) == Mix(columns, w, index, k) - Mix(columns, v, index, k)
  {
    if k > 0 {
      MixDifference(columns, v, w, d, index, k - 1);
    }
  }
}
