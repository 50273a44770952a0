/** The `Matrix` class as an object on the heap: a reference to a mutable
    `array2<real>`, the C# field `array`, here named `grid`.

    This layer states what the value model of `Matrices` cannot: which grid
    an object stores, what a write through the indexer changes, that results
    are freshly allocated, that operands are left unchanged, and that `Clone`
    shares its grid with the original. Every operation's values are those of
    the value model applied to `Value()`, the grid read as a `Matrices.Matrix`.
 */
module MatrixObjects {
  import opened MatrixErrors
  import V = Matrices
  import Ops = MatrixOperations

  class Matrix {
    /** The grid. The wrapping constructor and `Clone` store a grid that is
        also reachable from elsewhere. */
    var grid: array2<real>

    /** The class invariant: both lengths of the grid are positive. */
    ghost predicate Valid()
      reads this
    {
      grid.Length0 > 0 && grid.Length1 > 0
    }

    /** The grid's current contents as a matrix value; the shape is the
        grid's lengths, as the `Rows` and `Columns` getters read them. */
    function Value(): (v: V.Matrix)
      requires Valid()
      reads this, grid
      ensures v.Valid() && v.rows == grid.Length0 && v.columns == grid.Length1
      ensures forall i, j :: 0 <= i < v.rows && 0 <= j < v.columns ==> v.cells[i][j] == grid[i, j]
    {
      var g := grid;
      V.Matrix(g.Length0, g.Length1,
        seq(g.Length0, i requires 0 <= i < g.Length0 reads g =>
          seq(g.Length1, j requires 0 <= j < g.Length1 reads g => g[i, j])))
    }

    /** An object that stores the given grid itself. */
    constructor Wrapping(storage: array2<real>)
      ensures grid == storage
    {
      grid := storage;
    }

    /** `new Matrix(rows, columns)`: `ArgumentOutOfRange` for a non-positive
        size, otherwise a new object over a new zero-filled grid. */
    static method New(rows: int, columns: int) returns (r: Result<Matrix>)
      ensures r.Failure? <==> rows <= 0 || columns <= 0
      ensures r.Failure? ==> r.error == ArgumentOutOfRange
      ensures r.Success? ==>
        fresh(r.value) && fresh(r.value.grid) && r.value.Valid() &&
        r.value.Value() == V.New(rows, columns).value
    {
      if rows <= 0 || columns <= 0 {
        return Failure(ArgumentOutOfRange);
      }
      var storage := new real[rows, columns]((_, _) => 0.0);
      var m := new Matrix.Wrapping(storage);
      V.SameElementsIsEquality(m.Value(), V.New(rows, columns).value);
      return Success(m);
    }

    /** `new Matrix(double[,] array)`: `ArgumentNull` for null, otherwise a
        new object that stores the caller's grid without copying it. */
    static method FromArray(storage: array2?<real>) returns (r: Result<Matrix>)
      requires storage != null ==> storage.Length0 > 0 && storage.Length1 > 0
      ensures r.Failure? <==> storage == null
      ensures r.Failure? ==> r.error == ArgumentNull
      ensures r.Success? ==> fresh(r.value) && r.value.grid == storage && r.value.Valid()
    {
      if storage == null {
        return Failure(ArgumentNull);
      }
      var m := new Matrix.Wrapping(storage);
      return Success(m);
    }

    /** The indexer's getter: the value model's `Get` on the current grid. */
    method Get(row: int, column: int) returns (r: Result<real>)
      requires Valid()
      ensures r == V.Get(Value(), row, column)
    {
      if row > grid.Length0 - 1 || row < 0 || column > grid.Length1 - 1 || column < 0 {
        return Failure(Argument);
      }
      return Success(grid[row, column]);
    }

    /** The indexer's setter: `Argument` for an index outside the grid, and
        then nothing changes; otherwise it writes that one cell of the grid
        in place, so every object sharing the grid sees the write. */
    method Set(row: int, column: int, value: real) returns (r: Result<()>)
      requires Valid()
      modifies grid
      ensures r.Failure? <==> !old(Value()).InRange(row, column)
      ensures r.Failure? ==> r.error == Argument && Value() == old(Value())
      ensures r.Success? ==> Value() == V.Set(old(Value()), row, column, value).value
      ensures r.Success? ==> grid[row, column] == value
      ensures forall i, j :: 0 <= i < grid.Length0 && 0 <= j < grid.Length1 && (i != row || j != column) ==>
        grid[i, j] == old(grid[i, j])
    {
      if row > grid.Length0 - 1 || row < 0 || column > grid.Length1 - 1 || column < 0 {
        return Failure(Argument);
      }
      grid[row, column] := value;
      V.SameElementsIsEquality(Value(), V.Set(old(Value()), row, column, value).value);
      return Success(());
    }

    /** `Clone`: a new object built like `new Matrix(Rows, Columns)` whose grid
        is then replaced by this object's own grid. The clone is a distinct
        object with equal contents, but it shares the grid (see
        `WriteThroughClone`). */
    method Clone() returns (r: Matrix)
      requires Valid()
      ensures fresh(r) && r.grid == grid && r.Valid() && r.Value() == Value()
    {
      var created := New(grid.Length0, grid.Length1);
      r := created.value;
      r.grid := grid;
      V.SameElementsIsEquality(r.Value(), Value());
    }

    /** A clone that owns a fresh copy of the grid: what the doc comment of
        `Clone` promises. */
    method DeepClone() returns (r: Matrix)
      requires Valid()
      ensures fresh(r) && fresh(r.grid) && r.Valid() && r.Value() == Value()
    {
      var source := grid;
      var storage := new real[source.Length0, source.Length1]((i, j) reads source =>
        if 0 <= i < source.Length0 && 0 <= j < source.Length1 then source[i, j] else 0.0);
      r := new Matrix.Wrapping(storage);
      V.SameElementsIsEquality(r.Value(), Value());
    }

    /** `Add`: the value model's errors and sum, as a new object over a new
        grid; this object and the argument are left unchanged. */
    method Add(matrix: Matrix?) returns (r: Result<Matrix>)
      requires Valid()
      requires matrix != null ==> matrix.Valid()
      ensures Value() == old(Value())
      ensures matrix != null ==> matrix.Value() == old(matrix.Value())
      ensures matrix == null ==> r == Failure(ArgumentNull)
      ensures matrix != null && !V.SameShape(matrix.Value(), Value()) ==> r == Failure(MatrixException)
      ensures matrix != null && V.SameShape(matrix.Value(), Value()) ==>
        r.Success? && fresh(r.value) && fresh(r.value.grid) && r.value.Valid() &&
        r.value.Value() == V.Sum(Value(), matrix.Value())
    {
      var argument := if matrix == null then None else Some(matrix.Value());
      var sum := Ops.Add(Value(), argument);
      r := Allocate(sum);
    }

    /** `Subtract`: as `Add`, with the difference. */
    method Subtract(matrix: Matrix?) returns (r: Result<Matrix>)
      requires Valid()
      requires matrix != null ==> matrix.Valid()
      ensures Value() == old(Value())
      ensures matrix != null ==> matrix.Value() == old(matrix.Value())
      ensures matrix == null ==> r == Failure(ArgumentNull)
      ensures matrix != null && !V.SameShape(matrix.Value(), Value()) ==> r == Failure(MatrixException)
      ensures matrix != null && V.SameShape(matrix.Value(), Value()) ==>
        r.Success? && fresh(r.value) && fresh(r.value.grid) && r.value.Valid() &&
        r.value.Value() == V.Difference(Value(), matrix.Value())
    {
      var argument := if matrix == null then None else Some(matrix.Value());
      var difference := Ops.Subtract(Value(), argument);
      r := Allocate(difference);
    }

    /** `Multiply`: the value model's errors and product, as a new object
        over a new grid; this object and the argument are left unchanged. */
    method Multiply(matrix: Matrix?) returns (r: Result<Matrix>)
      requires Valid()
      requires matrix != null ==> matrix.Valid()
      ensures Value() == old(Value())
      ensures matrix != null ==> matrix.Value() == old(matrix.Value())
      ensures matrix == null ==> r == Failure(ArgumentNull)
      ensures matrix != null && grid.Length1 != matrix.grid.Length0 ==> r == Failure(MatrixException)
      ensures matrix != null && grid.Length1 == matrix.grid.Length0 ==>
        r.Success? && fresh(r.value) && fresh(r.value.grid) && r.value.Valid() &&
        r.value.Value() == V.Product(Value(), matrix.Value())
    {
      var argument := if matrix == null then None else Some(matrix.Value());
      var product := Ops.Multiply(Value(), argument);
      r := Allocate(product);
    }

    /** `Equals`: compares contents, never identity; false for null, for a
        non-matrix and for a different shape. */
    method Equals(obj: Object<Matrix>) returns (r: bool)
      requires Valid()
      requires obj.MatrixObject? ==> obj.matrix.Valid()
      ensures r <==> obj.MatrixObject? && obj.matrix.Value() == Value()
    {
      match obj
      case Null =>
        r := Ops.Equals(Value(), Null);
      case OtherObject =>
        r := Ops.Equals(Value(), OtherObject);
      case MatrixObject(other) =>
        r := Ops.Equals(Value(), MatrixObject(other.Value()));
    }
  }

  /** An operation's outcome on values, with a successful matrix placed in a
      new object over a new grid. */
  method Allocate(outcome: Result<V.Matrix>) returns (r: Result<Matrix>)
    requires outcome.Success? ==> outcome.value.Valid()
    ensures r.Failure? <==> outcome.Failure?
    ensures r.Failure? ==> r.error == outcome.error
    ensures r.Success? ==>
      fresh(r.value) && fresh(r.value.grid) && r.value.Valid() && r.value.Value() == outcome.value
  {
    if outcome.Failure? {
      return Failure(outcome.error);
    }
    var v := outcome.value;
    var storage := new real[v.rows, v.columns]((i, j) => v.At(i, j));
    var m := new Matrix.Wrapping(storage);
    V.SameElementsIsEquality(m.Value(), v);
    return Success(m);
  }

  /** Writing through a clone is seen through the original, because `Clone`
      shares the grid. */
  method WriteThroughClone(m: Matrix, value: real) returns (seen: Result<real>)
    requires m.Valid()
    modifies m.grid
    ensures seen == Success(value)
  {
    var c := m.Clone();
    var _ := c.Set(0, 0, value);
    seen := m.Get(0, 0);
  }

  /** Writing through a deep clone is not seen through the original. */
  method WriteThroughDeepClone(m: Matrix, value: real) returns (seen: Result<real>)
    requires m.Valid()
    ensures seen == Success(old(m.grid[0, 0]))
  {
    var c := m.DeepClone();
    var _ := c.Set(0, 0, value);
    seen := m.Get(0, 0);
  }

  /** `matrix1 + matrix2`: null on either side is `ArgumentNull`, and a shape
      mismatch is `MatrixException`, both before `Add` runs. */
  method Plus(matrix1: Matrix?, matrix2: Matrix?) returns (r: Result<Matrix>)
    requires matrix1 != null ==> matrix1.Valid()
    requires matrix2 != null ==> matrix2.Valid()
    ensures matrix1 == null || matrix2 == null ==> r == Failure(ArgumentNull)
    ensures matrix1 != null && matrix2 != null && !V.SameShape(matrix1.Value(), matrix2.Value()) ==>
      r == Failure(MatrixException)
    ensures matrix1 != null && matrix2 != null && V.SameShape(matrix1.Value(), matrix2.Value()) ==>
      r.Success? && fresh(r.value) && fresh(r.value.grid) && r.value.Valid() &&
      r.value.Value() == V.Sum(matrix1.Value(), matrix2.Value())
  {
    if matrix2 == null || matrix1 == null {
      return Failure(ArgumentNull);
    }
    if matrix1.grid.Length0 != matrix2.grid.Length0 || matrix1.grid.Length1 != matrix2.grid.Length1 {
      return Failure(MatrixException);
    }
    r := matrix1.Add(matrix2);
  }

  /** `matrix1 - matrix2`: only a null left operand is rejected here; the rest
      is `Subtract`'s. */
  method Minus(matrix1: Matrix?, matrix2: Matrix?) returns (r: Result<Matrix>)
    requires matrix1 != null ==> matrix1.Valid()
    requires matrix2 != null ==> matrix2.Valid()
    ensures matrix1 == null || matrix2 == null ==> r == Failure(ArgumentNull)
    ensures matrix1 != null && matrix2 != null && !V.SameShape(matrix1.Value(), matrix2.Value()) ==>
      r == Failure(MatrixException)
    ensures matrix1 != null && matrix2 != null && V.SameShape(matrix1.Value(), matrix2.Value()) ==>
      r.Success? && fresh(r.value) && fresh(r.value.grid) && r.value.Valid() &&
      r.value.Value() == V.Difference(matrix1.Value(), matrix2.Value())
  {
    if matrix1 == null {
      return Failure(ArgumentNull);
    }
    r := matrix1.Subtract(matrix2);
  }

  /** `matrix1 * matrix2`: only a null left operand is rejected here; the rest
      is `Multiply`'s. */
  method Times(matrix1: Matrix?, matrix2: Matrix?) returns (r: Result<Matrix>)
    requires matrix1 != null ==> matrix1.Valid()
    requires matrix2 != null ==> matrix2.Valid()
    ensures matrix1 == null || matrix2 == null ==> r == Failure(ArgumentNull)
    ensures matrix1 != null && matrix2 != null && matrix1.grid.Length1 != matrix2.grid.Length0 ==>
      r == Failure(MatrixException)
    ensures matrix1 != null && matrix2 != null && matrix1.grid.Length1 == matrix2.grid.Length0 ==>
      r.Success? && fresh(r.value) && fresh(r.value.grid) && r.value.Valid() &&
      r.value.Value() == V.Product(matrix1.Value(), matrix2.Value())
  {
    if matrix1 == null {
      return Failure(ArgumentNull);
    }
    r := matrix1.Multiply(matrix2);
  }
}
