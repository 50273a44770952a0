/** The matrix operations that loop over the elements: `Add`, `Subtract`,
    `Multiply`, `Equals`, and the `+`, `-` and `*` operators.

    Each method takes the receiver `m` (never null, and valid by the class
    invariant) and the argument as an `Option`. It reports the same exception
    kinds in the same order as the C# code. Like the C# code, a result is
    built by allocating a zero-filled grid of the result's shape and then
    writing its elements one by one in row-major loops. The operands are
    values, so no operation can change them.
 */
module MatrixOperations {
  import opened MatrixErrors
  import opened Summation
  import opened Matrices

  /** The finished result grid as a matrix value. */
  method Freeze(grid: array2<real>) returns (r: Matrix)
    requires grid.Length0 > 0 && grid.Length1 > 0
    ensures r.Valid() && r.rows == grid.Length0 && r.columns == grid.Length1
    ensures forall i, j :: 0 <= i < r.rows && 0 <= j < r.columns ==> r.cells[i][j] == grid[i, j]
  {
    var cells := seq(grid.Length0, i requires 0 <= i < grid.Length0 reads grid =>
      seq(grid.Length1, j requires 0 <= j < grid.Length1 reads grid => grid[i, j]));
    r := Matrix(grid.Length0, grid.Length1, cells);
  }

  /** `m.Add(matrix)`: null is `ArgumentNull`; a different shape is
      `MatrixException`, raised before any element is computed; otherwise the
      element-wise sum. */
  method Add(m: Matrix, matrix: Option<Matrix>) returns (r: Result<Matrix>)
    requires m.Valid()
    requires matrix.Some? ==> matrix.value.Valid()
    ensures matrix.None? ==> r == Failure(ArgumentNull)
    ensures matrix.Some? && !SameShape(matrix.value, m) ==> r == Failure(MatrixException)
    ensures matrix.Some? && SameShape(matrix.value, m) ==> r == Success(Sum(m, matrix.value))
  {
    if matrix.None? {
      return Failure(ArgumentNull);
    }
    var other := matrix.value;
    if other.rows != m.rows || other.columns != m.columns {
      return Failure(MatrixException);
    }
    var grid := new real[m.rows, m.columns]((_, _) => 0.0);
    var i := 0;
    while i < m.rows
      invariant 0 <= i <= m.rows
      invariant forall p, q :: 0 <= p < i && 0 <= q < m.columns ==>
        grid[p, q] == m.cells[p][q] + other.cells[p][q]
    {
      var j := 0;
      while j < m.columns
        invariant 0 <= j <= m.columns
        invariant forall p, q :: 0 <= p < i && 0 <= q < m.columns ==>
          grid[p, q] == m.cells[p][q] + other.cells[p][q]
        invariant forall q :: 0 <= q < j ==> grid[i, q] == m.cells[i][q] + other.cells[i][q]
      {
        grid[i, j] := m.cells[i][j] + other.cells[i][j];
        j := j + 1;
      }
      i := i + 1;
    }
    var sum := Freeze(grid);
    SameElementsIsEquality(sum, Sum(m, other));
    return Success(sum);
  }

  /** `m.Subtract(matrix)`: the same error contract as `Add`; otherwise the
      element-wise difference. */
  method Subtract(m: Matrix, matrix: Option<Matrix>) returns (r: Result<Matrix>)
    requires m.Valid()
    requires matrix.Some? ==> matrix.value.Valid()
    ensures matrix.None? ==> r == Failure(ArgumentNull)
    ensures matrix.Some? && !SameShape(matrix.value, m) ==> r == Failure(MatrixException)
    ensures matrix.Some? && SameShape(matrix.value, m) ==> r == Success(Difference(m, matrix.value))
  {
    if matrix.None? {
      return Failure(ArgumentNull);
    }
    var other := matrix.value;
    if other.rows != m.rows || other.columns != m.columns {
      return Failure(MatrixException);
    }
    var grid := new real[m.rows, m.columns]((_, _) => 0.0);
    var i := 0;
    while i < m.rows
      invariant 0 <= i <= m.rows
      invariant forall p, q :: 0 <= p < i && 0 <= q < m.columns ==>
        grid[p, q] == m.cells[p][q] - other.cells[p][q]
    {
      var j := 0;
      while j < m.columns
        invariant 0 <= j <= m.columns
        invariant forall p, q :: 0 <= p < i && 0 <= q < m.columns ==>
          grid[p, q] == m.cells[p][q] - other.cells[p][q]
        invariant forall q :: 0 <= q < j ==> grid[i, q] == m.cells[i][q] - other.cells[i][q]
      {
        grid[i, j] := m.cells[i][j] - other.cells[i][j];
        j := j + 1;
      }
      i := i + 1;
    }
    var difference := Freeze(grid);
    SameElementsIsEquality(difference, Difference(m, other));
    return Success(difference);
  }

  /** `m.Multiply(matrix)`: null is `ArgumentNull`; `m.Columns != matrix.Rows`
      is `MatrixException`; otherwise the `m.Rows x matrix.Columns` product,
      each element accumulated into its zero-initialised cell. */
  method Multiply(m: Matrix, matrix: Option<Matrix>) returns (r: Result<Matrix>)
    requires m.Valid()
    requires matrix.Some? ==> matrix.value.Valid()
    ensures matrix.None? ==> r == Failure(ArgumentNull)
    ensures matrix.Some? && m.columns != matrix.value.rows ==> r == Failure(MatrixException)
    ensures matrix.Some? && m.columns == matrix.value.rows ==> r == Success(Product(m, matrix.value))
  {
    if matrix.None? {
      return Failure(ArgumentNull);
    }
    var other := matrix.value;
    // The C# code next rejects `Rows <= 0 || Columns <= 0` with
    // ArgumentOutOfRange; the class invariant `m.Valid()` rules that out.
    if m.columns != other.rows {
      return Failure(MatrixException);
    }
    var r1, c1, c2 := m.rows, m.columns, other.columns;
    var grid := new real[r1, c2]((_, _) => 0.0);
    var i := 0;
    while i < r1
      invariant 0 <= i <= r1
      invariant forall p, q :: 0 <= p < i && 0 <= q < c2 ==> grid[p, q] == Dot(m, other, p, q, c1)
      invariant forall p, q :: i <= p < r1 && 0 <= q < c2 ==> grid[p, q] == 0.0
    {
      var j := 0;
      while j < c2
        invariant 0 <= j <= c2
        invariant forall p, q :: 0 <= p < i && 0 <= q < c2 ==> grid[p, q] == Dot(m, other, p, q, c1)
        invariant forall q :: 0 <= q < j ==> grid[i, q] == Dot(m, other, i, q, c1)
        invariant forall p, q :: i <= p < r1 && 0 <= q < c2 && (p > i || q >= j) ==> grid[p, q] == 0.0
      {
        var k := 0;
        while k < c1
          invariant 0 <= k <= c1
          invariant forall p, q :: 0 <= p < i && 0 <= q < c2 ==> grid[p, q] == Dot(m, other, p, q, c1)
          invariant forall q :: 0 <= q < j ==> grid[i, q] == Dot(m, other, i, q, c1)
          invariant grid[i, j] == Dot(m, other, i, j, k)
          invariant forall p, q :: i <= p < r1 && 0 <= q < c2 && (p > i || q > j) ==> grid[p, q] == 0.0
        {
          grid[i, j] := grid[i, j] + m.cells[i][k] * other.cells[k][j];
          k := k + 1;
        }
        j := j + 1;
      }
      i := i + 1;
    }
    var product := Freeze(grid);
    SameElementsIsEquality(product, Product(m, other));
    return Success(product);
  }

  /** `m.Equals(obj)`: never fails; false for null, for an object that is
      not a matrix and for a different shape, otherwise true exactly when
      every pair of corresponding elements is equal, stopping at the first
      pair that differs. */
  method Equals(m: Matrix, obj: Object<Matrix>) returns (r: bool)
    requires m.Valid()
    requires obj.MatrixObject? ==> obj.matrix.Valid()
    ensures r <==> obj.MatrixObject? && SameElements(m, obj.matrix)
    ensures r <==> obj == MatrixObject(m)
  {
    if obj.Null? {
      return false;
    }
    if !obj.MatrixObject? {
      return false;
    }
    var result := obj.matrix;
    SameElementsIsEquality(m, result);
    if result.rows != m.rows || result.columns != m.columns {
      return false;
    }
    var i := 0;
    while i < result.rows
      invariant 0 <= i <= result.rows
      invariant forall p, q :: 0 <= p < i && 0 <= q < result.columns ==> m.cells[p][q] == result.cells[p][q]
    {
      var j := 0;
      while j < result.columns
        invariant 0 <= j <= result.columns
        invariant forall p, q :: 0 <= p < i && 0 <= q < result.columns ==> m.cells[p][q] == result.cells[p][q]
        invariant forall q :: 0 <= q < j ==> m.cells[i][q] == result.cells[i][q]
      {
        if m.cells[i][j] != result.cells[i][j] {
          return false;
        }
        j := j + 1;
      }
      i := i + 1;
    }
    return true;
  }

  /** `matrix1 + matrix2`: null on either side is `ArgumentNull` and a shape
      mismatch is `MatrixException`, both checked here before `Add` runs. */
  method OperatorPlus(matrix1: Option<Matrix>, matrix2: Option<Matrix>) returns (r: Result<Matrix>)
    requires matrix1.Some? ==> matrix1.value.Valid()
    requires matrix2.Some? ==> matrix2.value.Valid()
    ensures matrix1.None? || matrix2.None? ==> r == Failure(ArgumentNull)
    ensures matrix1.Some? && matrix2.Some? && !SameShape(matrix1.value, matrix2.value) ==>
      r == Failure(MatrixException)
    ensures matrix1.Some? && matrix2.Some? && SameShape(matrix1.value, matrix2.value) ==>
      r == Success(Sum(matrix1.value, matrix2.value))
  {
    if matrix2.None? || matrix1.None? {
      return Failure(ArgumentNull);
    }
    var a, b := matrix1.value, matrix2.value;
    if a.rows != b.rows || a.columns != b.columns {
      return Failure(MatrixException);
    }
    r := Add(a, matrix2);
  }

  /** `matrix1 - matrix2`: only a null left operand is rejected here; a null
      right operand and a shape mismatch are rejected by `Subtract`. */
  method OperatorMinus(matrix1: Option<Matrix>, matrix2: Option<Matrix>) returns (r: Result<Matrix>)
    requires matrix1.Some? ==> matrix1.value.Valid()
    requires matrix2.Some? ==> matrix2.value.Valid()
    ensures matrix1.None? || matrix2.None? ==> r == Failure(ArgumentNull)
    ensures matrix1.Some? && matrix2.Some? && !SameShape(matrix1.value, matrix2.value) ==>
      r == Failure(MatrixException)
    ensures matrix1.Some? && matrix2.Some? && SameShape(matrix1.value, matrix2.value) ==>
      r == Success(Difference(matrix1.value, matrix2.value))
  {
    if matrix1.None? {
      return Failure(ArgumentNull);
    }
    r := Subtract(matrix1.value, matrix2);
  }

  /** `matrix1 * matrix2`: only a null left operand is rejected here; a null
      right operand and a shape mismatch are rejected by `Multiply`. */
  method OperatorTimes(matrix1: Option<Matrix>, matrix2: Option<Matrix>) returns (r: Result<Matrix>)
    requires matrix1.Some? ==> matrix1.value.Valid()
    requires matrix2.Some? ==> matrix2.value.Valid()
    ensures matrix1.None? || matrix2.None? ==> r == Failure(ArgumentNull)
    ensures matrix1.Some? && matrix2.Some? && matrix1.value.columns != matrix2.value.rows ==>
      r == Failure(MatrixException)
    ensures matrix1.Some? && matrix2.Some? && matrix1.value.columns == matrix2.value.rows ==>
      r == Success(Product(matrix1.value, matrix2.value))
  {
    if matrix1.None? {
      return Failure(ArgumentNull);
    }
    r := Multiply(matrix1.value, matrix2);
  }
}
