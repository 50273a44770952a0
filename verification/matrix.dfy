/** The `Matrix` value: a dense rows x columns grid of numbers with a
    shape-checked constructor, a wrapping constructor, the bounds-checked
    indexer, `Clone`, and the element-wise specifications that the arithmetic
    of `MatrixOperations` is proved against.

    Elements are exact `real`s standing in for C# `double`; IEEE-754 rounding
    is not modelled.
 */
module Matrices {
  import opened MatrixErrors
  import opened Summation

  /** A matrix: its shape and its grid of elements, row by row. */
  datatype Matrix = Matrix(rows: nat, columns: nat, cells: seq<seq<real>>)
  {
    /** The class invariant: both dimensions are positive and `cells` holds
        exactly `rows` rows of `columns` elements each. */
    predicate Valid()
    {
      rows > 0 && columns > 0 && |cells| == rows &&
      forall i :: 0 <= i < |cells| ==> |cells[i]| == columns
    }

    /** `(row, column)` names an element of this matrix. */
    predicate InRange(row: int, column: int)
    {
      0 <= row < rows && 0 <= column < columns
    }

    /** The element at `(row, column)`, read as 0 outside the grid, so that
        sums over it need no bounds. */
    function At(row: int, column: int): real
    {
      if 0 <= row < |cells| && 0 <= column < |cells[row]| then cells[row][column] else 0.0
    }

    /** The `Rows` property: never throws under the class invariant. */
    function Rows(): (r: nat)
      requires Valid()
      ensures r > 0 && r == |cells|
    {
      rows
    }

    /** The `Columns` property: never throws under the class invariant. */
    function Columns(): (c: nat)
      requires Valid()
      ensures c > 0 && forall i :: 0 <= i < |cells| ==> |cells[i]| == c
    {
      columns
    }
  }

  /** Two matrices have the same number of rows and of columns. */
  predicate SameShape(a: Matrix, b: Matrix)
  {
    a.rows == b.rows && a.columns == b.columns
  }

  /** Two matrices have the same shape and equal corresponding elements. */
  predicate SameElements(a: Matrix, b: Matrix)
    requires a.Valid() && b.Valid()
  {
    SameShape(a, b) &&
    forall i, j :: 0 <= i < a.rows && 0 <= j < a.columns ==> a.cells[i][j] == b.cells[i][j]
  }

  /** Element-wise equality of valid matrices is equality of the values. */
  lemma SameElementsIsEquality(a: Matrix, b: Matrix)
    requires a.Valid() && b.Valid()
    ensures SameElements(a, b) <==> a == b
  {
    if SameElements(a, b) {
      forall i | 0 <= i < a.rows
        ensures a.cells[i] == b.cells[i]
      {
        assert |a.cells[i]| == |b.cells[i]|;
      }
      assert a.cells == b.cells;
    }
  }

  /** Element-wise equality, and so `Equals` between matrices, is reflexive,
      symmetric and transitive. */
  lemma SameElementsIsEquivalence(a: Matrix, b: Matrix, c: Matrix)
    requires a.Valid() && b.Valid() && c.Valid()
    ensures SameElements(a, a)
    ensures SameElements(a, b) ==> SameElements(b, a)
    ensures SameElements(a, b) && SameElements(b, c) ==> SameElements(a, c)
  {
  }

  /** A `double[,]` argument of the wrapping constructor: rectangular, and
      (an assumption of this model, see README) with positive lengths. */
  predicate IsGrid(grid: seq<seq<real>>)
  {
    |grid| > 0 && |grid[0]| > 0 &&
    forall i :: 0 <= i < |grid| ==> |grid[i]| == |grid[0]|
  }

  /** `new Matrix(rows, columns)`: rejects a non-positive size, otherwise a
      rows x columns matrix of zeros. */
  function New(rows: int, columns: int): (r: Result<Matrix>)
    ensures r.Failure? <==> rows <= 0 || columns <= 0
    ensures r.Failure? ==> r.error == ArgumentOutOfRange
    ensures r.Success? ==> r.value.Valid() && r.value.rows == rows && r.value.columns == columns
    ensures r.Success? ==>
      forall i, j :: 0 <= i < rows && 0 <= j < columns ==> r.value.cells[i][j] == 0.0
  {
    if rows <= 0 || columns <= 0 then
      Failure(ArgumentOutOfRange)
    else
      Success(Matrix(rows, columns, seq(rows, _ => seq(columns, _ => 0.0))))
  }

  /** `new Matrix(double[,] array)`: rejects null, otherwise wraps the grid
      as it is, its lengths becoming the shape. */
  function FromGrid(grid: Option<seq<seq<real>>>): (r: Result<Matrix>)
    requires grid.Some? ==> IsGrid(grid.value)
    ensures r.Failure? <==> grid.None?
    ensures r.Failure? ==> r.error == ArgumentNull
    ensures r.Success? ==>
      r.value.Valid() && r.value.cells == grid.value &&
      r.value.rows == |grid.value| && r.value.columns == |grid.value[0]|
  {
    match grid
    case None => Failure(ArgumentNull)
    case Some(g) => Success(Matrix(|g|, |g[0]|, g))
  }

  /** The indexer's getter: `Argument` exactly when the index is outside the
      grid, otherwise the element. */
  function Get(m: Matrix, row: int, column: int): (r: Result<real>)
    requires m.Valid()
    ensures r.Failure? <==> !m.InRange(row, column)
    ensures r.Failure? ==> r.error == Argument
    ensures r.Success? ==> r.value == m.cells[row][column]
  {
    if row > m.rows - 1 || row < 0 || column > m.columns - 1 || column < 0 then
      Failure(Argument)
    else
      Success(m.cells[row][column])
  }

  /** The indexer's setter: `Argument` exactly when the index is outside the
      grid, otherwise the same matrix with that one element replaced. */
  function Set(m: Matrix, row: int, column: int, value: real): (r: Result<Matrix>)
    requires m.Valid()
    ensures r.Failure? <==> !m.InRange(row, column)
    ensures r.Failure? ==> r.error == Argument
    ensures r.Success? ==> r.value.Valid() && SameShape(r.value, m)
    ensures r.Success? ==> r.value.cells[row][column] == value
    ensures r.Success? ==>
      forall i, j :: m.InRange(i, j) && (i != row || j != column) ==>
        r.value.cells[i][j] == m.cells[i][j]
  {
    if row > m.rows - 1 || row < 0 || column > m.columns - 1 || column < 0 then
      Failure(Argument)
    else
      Success(m.(cells := m.cells[row := m.cells[row][column := value]]))
  }

  /** Reading back through the indexer after a valid write sees the written
      value at that cell and the old value everywhere else. */
  lemma SetThenGet(m: Matrix, row: int, column: int, value: real, row': int, column': int)
    requires m.Valid() && m.InRange(row, column)
    ensures Set(m, row, column, value).Success?
    ensures Get(Set(m, row, column, value).value, row', column') ==
      if row' == row && column' == column then Success(value) else Get(m, row', column')
  {
  }

  /** `Clone`: a new matrix of the same shape whose grid is this one's grid,
      so it equals this matrix element for element. */
  function Clone(m: Matrix): (r: Matrix)
    requires m.Valid()
    ensures r.Valid() && SameShape(r, m)
    ensures SameElements(r, m)
  {
    var shell := New(m.rows, m.columns).value;
    shell.(cells := m.cells)
  }

  /** The element-wise sum, the result `Add` promises. */
  function Sum(a: Matrix, b: Matrix): (r: Matrix)
    requires a.Valid() && b.Valid() && SameShape(a, b)
    ensures r.Valid() && SameShape(r, a)
    ensures forall i, j :: 0 <= i < r.rows && 0 <= j < r.columns ==>
      r.cells[i][j] == a.cells[i][j] + b.cells[i][j]
  {
    Matrix(a.rows, a.columns,
      seq(a.rows, i requires 0 <= i < a.rows =>
        seq(a.columns, j requires 0 <= j < a.columns => a.cells[i][j] + b.cells[i][j])))
  }

  /** The element-wise difference, the result `Subtract` promises. */
  function Difference(a: Matrix, b: Matrix): (r: Matrix)
    requires a.Valid() && b.Valid() && SameShape(a, b)
    ensures r.Valid() && SameShape(r, a)
    ensures forall i, j :: 0 <= i < r.rows && 0 <= j < r.columns ==>
      r.cells[i][j] == a.cells[i][j] - b.cells[i][j]
  {
    Matrix(a.rows, a.columns,
      seq(a.rows, i requires 0 <= i < a.rows =>
        seq(a.columns, j requires 0 <= j < a.columns => a.cells[i][j] - b.cells[i][j])))
  }

  /** `a[i, 0] * b[0, j] + ... + a[i, n - 1] * b[n - 1, j]`. */
  function Dot(a: Matrix, b: Matrix, i: int, j: int, n: nat): real
  {
    Sigma(n, k => a.At(i, k) * b.At(k, j))
  }

  /** The row-by-column product, the result `Multiply` promises. */
  function Product(a: Matrix, b: Matrix): (r: Matrix)
    requires a.Valid() && b.Valid() && a.columns == b.rows
    ensures r.Valid() && r.rows == a.rows && r.columns == b.columns
    ensures forall i, j :: 0 <= i < r.rows && 0 <= j < r.columns ==>
      r.cells[i][j] == Dot(a, b, i, j, a.columns)
  {
    Matrix(a.rows, b.columns,
      seq(a.rows, i requires 0 <= i < a.rows =>
        seq(b.columns, j requires 0 <= j < b.columns => Dot(a, b, i, j, a.columns))))
  }
}
