/** In-place Gauss-Jordan elimination with partial pivoting, over exact reals. */
module GaussJordan {
  import opened Results
  import opened Vectors

  const PIVOT_FLOOR := 1.0 / 1000000000000.0

  function Abs(x: real): real {
    if x < 0.0 then -x else x
  }

  /** A square system: n rows of n coefficients and n right-hand sides. */
  predicate Square(matrix: seq<Vector>, right: Vector) {
    |matrix| == |right| && Columns(matrix, |right|)
  }

  ghost predicate Solves(matrix: seq<Vector>, right: Vector, x: Vector)
    requires Square(matrix, right)
  {
    |x| == |right| && forall i :: 0 <= i < |matrix| ==> Dot(matrix[i], x) == right[i]
  }

  /** The first columns already are those of the identity matrix. */
  predicate Reduced(matrix: seq<Vector>, right: Vector, column: nat)
    requires Square(matrix, right) && column <= |right|
  {
    forall i, j :: 0 <= i < |matrix| && 0 <= j < column ==>
      matrix[i][j] == if i == j then 1.0 else 0.0
  }

  /** The first row in [best] + [row..] whose entry in `column` has the largest magnitude. */
  function PivotFrom(matrix: seq<Vector>, column: nat, best: nat, row: nat): (p: nat)
    requires best < row <= |matrix| && Columns(matrix, |matrix|) && column < |matrix|
    ensures p < |matrix| && (p == best || row <= p)
    ensures Abs(matrix[best][column]) <= Abs(matrix[p][column])
    ensures forall i :: row <= i < |matrix| ==> Abs(matrix[i][column]) <= Abs(matrix[p][column])
    decreases |matrix| - row
  {
    if row == |matrix| then best
    else if Abs(matrix[best][column]) < Abs(matrix[row][column]) then
      PivotFrom(matrix, column, row, row + 1)
    else
      PivotFrom(matrix, column, best, row + 1)
  }

  function Swapped<T>(s: seq<T>, i: nat, j: nat): (t: seq<T>)
    requires i < |s| && j < |s|
    ensures |t| == |s|
    ensures forall k :: 0 <= k < |s| ==> t[k] == if k == i then s[j] else if k == j then s[i] else s[k]
  {
    s[i := s[j]][j := s[i]]
  }

  function Divided(row: Vector, divisor: real): (r: Vector)
    requires divisor != 0.0
    ensures |r| == |row|
    ensures forall k :: 0 <= k < |row| ==> r[k] == row[k] / divisor
  {
    seq(|row|, (k: nat) requires k < |row| => row[k] / divisor)
  }

  function Minus(row: Vector, multiplier: real, pivot: Vector): (r: Vector)
    requires |row| == |pivot|
    ensures |r| == |row|
    ensures forall k :: 0 <= k < |row| ==> r[k] == row[k] - multiplier * pivot[k]
  {
    seq(|row|, (k: nat) requires k < |row| => row[k] - multiplier * pivot[k])
  }

  /** The matrix after its pivot row has been scaled and every other row cleared in `column`. */
  function Cleared(matrix: seq<Vector>, column: nat): (m: seq<Vector>)
    requires Columns(matrix, |matrix|) && column < |matrix| && matrix[column][column] != 0.0
    ensures |m| == |matrix| && Columns(m, |m|)
  {
    var pivot := Divided(matrix[column], matrix[column][column]);
    seq(|matrix|, (i: nat) requires i < |matrix| =>
      if i == column then pivot else Minus(matrix[i], matrix[i][column], pivot))
  }

  function ClearedRight(matrix: seq<Vector>, right: Vector, column: nat): (r: Vector)
    requires Square(matrix, right) && column < |matrix| && matrix[column][column] != 0.0
    ensures |r| == |right|
  {
    var pivot := right[column] / matrix[column][column];
    seq(|right|, (i: nat) requires i < |right| =>
      if i == column then pivot else right[i] - matrix[i][column] * pivot)
  }

  /** Elimination of the columns from `column` on, as a function of the system. */
  function SolveFrom(matrix: seq<Vector>, right: Vector, column: nat): (x: Option<Vector>)
    requires Square(matrix, right) && column <= |right|
    ensures x.Some? ==> |x.value| == |right|
    decreases |right| - column
  {
    if column == |right| then Some(right) else
    var p := PivotFrom(matrix, column, column, column + 1);
    if Abs(matrix[p][column]) <= PIVOT_FLOOR then None else
    var m := Swapped(matrix, column, p);
    var r := Swapped(right, column, p);
    SolveFrom(Cleared(m, column), ClearedRight(m, r, column), column + 1)
  }

  /** One column of the elimination. */
  lemma SolveFromStep(matrix: seq<Vector>, right: Vector, column: nat, pivot: nat)
    requires Square(matrix, right) && column < |right| && pivot == PivotFrom(matrix, column, column, column + 1)
    ensures Abs(matrix[pivot][column]) <= PIVOT_FLOOR ==> SolveFrom(matrix, right, column) == None
    ensures Abs(matrix[pivot][column]) > PIVOT_FLOOR ==>
      var m, r := Swapped(matrix, column, pivot), Swapped(right, column, pivot);
      SolveFrom(matrix, right, column) == SolveFrom(Cleared(m, column), ClearedRight(m, r, column), column + 1)
  {
  }

  lemma SwapKeepsSolutions(matrix: seq<Vector>, right: Vector, i: nat, j: nat, x: Vector)
    requires Square(matrix, right) && i < |right| && j < |right|
    ensures Solves(Swapped(matrix, i, j), Swapped(right, i, j), x) <==> Solves(matrix, right, x)
  {
    var m, r := Swapped(matrix, i, j), Swapped(right, i, j);
    if |x| == |right| && Solves(m, r, x) {
      forall k | 0 <= k < |matrix|
        ensures Dot(matrix[k], x) == right[k]
      {
        var k' := if k == i then j else if k == j then i else k;
        assert Dot(m[k'], x) == r[k'];
      }
    }
  }

  lemma DividedDot(row: Vector, divisor: real, x: Vector)
    requires divisor != 0.0 && |x| == |row|
    ensures Dot(Divided(row, divisor), x) * divisor == Dot(row, x)
  {
    var q := Divided(row, divisor);
    var zero := seq(|row|, (k: nat) => 0.0);
    DotSymmetric(q, x, |x|);
    DotSymmetric(row, x, |x|);
    DotZero(x, zero, |x|);
    DotLinear(x, zero, divisor, q, row, |x|);
  }

  lemma MinusDot(row: Vector, multiplier: real, pivot: Vector, x: Vector)
    requires |row| == |pivot| == |x|
    ensures Dot(Minus(row, multiplier, pivot), x) == Dot(row, x) - multiplier * Dot(pivot, x)
  {
    var s := Minus(row, multiplier, pivot);
    DotSymmetric(s, x, |x|);
    DotSymmetric(row, x, |x|);
    DotSymmetric(pivot, x, |x|);
    DotLinear(x, row, -multiplier, pivot, s, |x|);
  }

  /** Scaling the pivot row and clearing its column neither adds nor loses a solution. */
  lemma ClearKeepsSolutions(matrix: seq<Vector>, right: Vector, column: nat, x: Vector)
    requires Square(matrix, right) && column < |right| && matrix[column][column] != 0.0
    ensures Solves(Cleared(matrix, column), ClearedRight(matrix, right, column), x)
       <==> Solves(matrix, right, x)
  {
    if |x| == |right| {
      var d := matrix[column][column];
      var pivot := Divided(matrix[column], d);
      var m, r := Cleared(matrix, column), ClearedRight(matrix, right, column);
      DividedDot(matrix[column], d, x);
      assert right[column] == (right[column] / d) * d;
      forall i | 0 <= i < |matrix| && i != column
        ensures Dot(m[i], x) == Dot(matrix[i], x) - matrix[i][column] * Dot(pivot, x)
      {
        MinusDot(matrix[i], matrix[i][column], pivot, x);
      }
      var a, b := Dot(pivot, x), right[column] / d;
      assert a == b <==> a * d == b * d by { CancelFactor(a, b, d); }
      assert Dot(m[column], x) == r[column] <==> Dot(matrix[column], x) == right[column];
      if Dot(m[column], x) == r[column] {
        forall i | 0 <= i < |matrix|
          ensures Dot(m[i], x) == r[i] <==> Dot(matrix[i], x) == right[i]
        {
        }
      }
    }
  }

  lemma CancelFactor(a: real, b: real, d: real)
    requires d != 0.0
    ensures a * d == b * d ==> a == b
  {
    assert a * d / d == a && b * d / d == b;
  }

  lemma ClearReduces(matrix: seq<Vector>, right: Vector, column: nat)
    requires Square(matrix, right) && column < |right| && matrix[column][column] != 0.0
    requires Reduced(matrix, right, column)
    ensures Reduced(Cleared(matrix, column), ClearedRight(matrix, right, column), column + 1)
  {
    var d := matrix[column][column];
    var pivot := Divided(matrix[column], d);
    assert pivot[column] == 1.0;
    assert forall j :: 0 <= j < column ==> pivot[j] == 0.0;
  }

  /** Whenever elimination returns a vector, that vector is the one and only solution. */
  lemma {:induction false} SolveIsUnique(matrix: seq<Vector>, right: Vector, column: nat, y: Vector)
    requires Square(matrix, right) && column <= |right| && Reduced(matrix, right, column)
    requires SolveFrom(matrix, right, column).Some?
    ensures Solves(matrix, right, y) <==> y == SolveFrom(matrix, right, column).value
    decreases |right| - column
  {
    if column == |right| {
      if |y| == |right| {
        forall i | 0 <= i < |matrix|
          ensures Dot(matrix[i], y) == y[i]
        {
          DotUnit(matrix[i], y, i, |y|);
        }
        assert Solves(matrix, right, y) ==> y == right;
      }
    } else {
      var p := PivotFrom(matrix, column, column, column + 1);
      var m, r := Swapped(matrix, column, p), Swapped(right, column, p);
      SwapKeepsSolutions(matrix, right, column, p, y);
      ClearKeepsSolutions(m, r, column, y);
      ClearReduces(m, r, column);
      SolveIsUnique(Cleared(m, column), ClearedRight(m, r, column), column + 1, y);
    }
  }

  /** The two systems have the same solutions. */
  ghost predicate Equivalent(matrix: seq<Vector>, right: Vector, matrix': seq<Vector>, right': Vector)
    requires Square(matrix, right) && Square(matrix', right')
  {
    forall x :: Solves(matrix, right, x) <==> Solves(matrix', right', x)
  }

  /**
   * Elimination refuses only for a reason: a system with the same solutions, reduced up to some column, has
   * nothing of a magnitude above 1/10^12 at or below the diagonal of that column.
   */
  lemma {:induction false} RefusalHasAReason(matrix: seq<Vector>, right: Vector, column: nat)
    returns (matrix': seq<Vector>, right': Vector, refused: nat)
    requires Square(matrix, right) && column <= |right| && Reduced(matrix, right, column)
    requires SolveFrom(matrix, right, column).None?
    ensures Square(matrix', right') && |right'| == |right| && refused < |right|
    ensures Reduced(matrix', right', refused) && Equivalent(matrix, right, matrix', right')
    ensures forall i :: refused <= i < |right| ==> Abs(matrix'[i][refused]) <= 1.0 / 1000000000000.0
    decreases |right| - column
  {
    var p := PivotFrom(matrix, column, column, column + 1);
    if Abs(matrix[p][column]) <= PIVOT_FLOOR {
      matrix', right', refused := matrix, right, column;
    } else {
      var m, r := Swapped(matrix, column, p), Swapped(right, column, p);
      ClearReduces(m, r, column);
      matrix', right', refused := RefusalHasAReason(Cleared(m, column), ClearedRight(m, r, column), column + 1);
      forall x
        ensures Solves(matrix, right, x) <==> Solves(matrix', right', x)
      {
        SwapKeepsSolutions(matrix, right, column, p, x);
        ClearKeepsSolutions(m, r, column, x);
      }
    }
  }

  /** Picks the first row at or below `column` with the largest entry in that column. */
  method ChoosePivot(matrix: array<Vector>, column: nat) returns (pivot: nat)
    requires Columns(matrix[..], matrix.Length) && column < matrix.Length
    ensures pivot == PivotFrom(matrix[..], column, column, column + 1)
  {
    pivot := column;
    for row := column + 1 to matrix.Length
      invariant column <= pivot < row
      invariant PivotFrom(matrix[..], column, pivot, row)
             == PivotFrom(matrix[..], column, column, column + 1)
    {
      if Abs(matrix[row][column]) > Abs(matrix[pivot][column]) {
        pivot := row;
      }
    }
  }

  /** Scales the pivot row and subtracts its multiples from all other rows, in place. */
  method ClearColumn(matrix: array<Vector>, right: array<real>, column: nat)
    requires Square(matrix[..], right[..]) && column < right.Length
    requires matrix[column][column] != 0.0
    modifies matrix, right
    ensures matrix[..] == Cleared(old(matrix[..]), column)
    ensures right[..] == ClearedRight(old(matrix[..]), old(right[..]), column)
  {
    ghost var m, r := matrix[..], right[..];
    ghost var m', r' := Cleared(m, column), ClearedRight(m, r, column);
    var divisor := matrix[column][column];
    matrix[column] := Divided(matrix[column], divisor);
    right[column] := right[column] / divisor;
    for row := 0 to right.Length
      invariant matrix[column] == m'[column] && right[column] == r'[column]
      invariant forall i :: 0 <= i < row ==> matrix[i] == m'[i] && right[i] == r'[i]
      invariant forall i :: row <= i < |m| && i != column ==> matrix[i] == m[i] && right[i] == r[i]
    {
      if row != column {
        var multiplier := matrix[row][column];
        matrix[row] := Minus(matrix[row], multiplier, matrix[column]);
        right[row] := right[row] - multiplier * right[column];
      }
    }
  }

  /** One column: choose the pivot, refuse a small one, swap its row up and clear. */
  method EliminateColumn(matrix: array<Vector>, right: array<real>, column: nat) returns (ok: bool)
    requires Square(matrix[..], right[..]) && column < right.Length
    modifies matrix, right
    ensures Square(matrix[..], right[..])
    ensures ok <==>
      exists i :: column <= i < right.Length && Abs(old(matrix[..])[i][column]) > 1.0 / 1000000000000.0
    ensures !ok ==> SolveFrom(old(matrix[..]), old(right[..]), column) == None
    ensures ok ==>
      SolveFrom(old(matrix[..]), old(right[..]), column) == SolveFrom(matrix[..], right[..], column + 1)
  {
    ghost var m, r := matrix[..], right[..];
    var pivot := ChoosePivot(matrix, column);
    SolveFromStep(m, r, column, pivot);
    hide SolveFrom;
    if Abs(matrix[pivot][column]) <= PIVOT_FLOOR {
      return false;
    }
    matrix[column], matrix[pivot] := matrix[pivot], matrix[column];
    right[column], right[pivot] := right[pivot], right[column];
    assert matrix[..] == Swapped(m, column, pivot);
    assert right[..] == Swapped(r, column, pivot);
    ClearColumn(matrix, right, column);
    ok := true;
  }

  /** `_solve`: rewrites the matrix and the right-hand side and returns the latter. */
  method Solve(matrix: array<Vector>, right: array<real>) returns (x: Option<Vector>)
    requires Square(matrix[..], right[..])
    modifies matrix, right
    ensures x == SolveFrom(old(matrix[..]), old(right[..]), 0)
    ensures x.Some? ==> right[..] == x.value
    ensures x.Some? ==>
      forall y :: Solves(old(matrix[..]), old(right[..]), y) <==> y == x.value
  {
    ghost var m0, r0 := matrix[..], right[..];
    ghost var goal := SolveFrom(m0, r0, 0);
    var column := 0;
    while column < right.Length
      invariant column <= right.Length
      invariant Square(matrix[..], right[..])
      invariant SolveFrom(matrix[..], right[..], column) == goal
    {
      var ok := EliminateColumn(matrix, right, column);
      if !ok {
        x := None;
        return;
      }
      column := column + 1;
    }
    x := Some(right[..]);
    assert x == goal;
    if x.Some? {
      SolveIsUniqueForAll(m0, r0);
    }
  }

  lemma SolveIsUniqueForAll(matrix: seq<Vector>, right: Vector)
    requires Square(matrix, right) && SolveFrom(matrix, right, 0).Some?
    ensures forall y :: Solves(matrix, right, y) <==> y == SolveFrom(matrix, right, 0).value
  {
    forall y
      ensures Solves(matrix, right, y) <==> y == SolveFrom(matrix, right, 0).value
    {
      SolveIsUnique(matrix, right, 0, y);
    }
  }
}
