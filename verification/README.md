# Matrix — a verified Dafny model

This project models the `Matrix` class of the C# `MatrixLibrary`. A `Matrix`
is a dense grid of numbers with a positive number of rows and of columns. The
class has:

- a constructor from a size, which zero-fills the grid;
- a constructor that wraps an existing `double[,]`;
- a bounds-checked indexer `this[row, column]`;
- `Clone`;
- element-wise `Add` and `Subtract`;
- the triple-loop `Multiply`;
- element-wise `Equals`;
- the `+`, `-` and `*` operators, which forward to `Add`, `Subtract` and `Multiply`.

Layout:

- `errors.dfy` (`MatrixErrors`): `Option` stands for a C# reference that may be
  null. `Result` holds either a value or an `Error`. There is one `Error`
  constructor per exception that the modelled operations can throw under the
  class invariant `Valid()`: `ArgumentOutOfRange`, `ArgumentNull`, `Argument`
  (index out of range) and `MatrixException` (shape mismatch). The getters'
  `IndexOutOfRangeException` cannot occur under the invariant; see "Left out".
  `Object` is the argument of `Equals` in both layers, generic in the matrix
  type.
- `matrix.dfy` (`Matrices`): the `Matrix` value and its class invariant
  `Valid()` (both dimensions positive, a rectangular grid). It also holds the
  constructors, the indexer, `Clone`, the element-wise equality `SameElements`,
  and the reference definitions `Sum`, `Difference` and `Product`. An element of
  `Product` is `Dot`, the sum `Σ_{k < Columns} a[i,k]·b[k,j]`.
- `sigma.dfy` (`Summation`): finite sums over exact reals. It proves
  congruence, linearity and the exchange of a double sum. These facts are what
  the associativity proof needs.
- `operations.dfy` (`MatrixOperations`): `Add`, `Subtract`, `Multiply`,
  `Equals` and the three operators. `Add`, `Subtract`, `Multiply` and `Equals`
  are methods with the source's nested loops; the operators check their
  arguments and delegate. The loops write a local zero-filled `array2<real>`, as the C# code
  writes into `new Matrix(rows, columns)`. Loop invariants prove that the
  result is the reference definition.
- `objects.dfy` (`MatrixObjects`): the class as a heap object, `class Matrix`
  over a mutable `array2<real>` (the C# field `array`, here `grid`). Its shape
  is read from the grid's lengths, as the C# getters do. Its `Value()` reads
  the grid as a value of `Matrices`, and each method's outcome is the value
  model's outcome on `Value()`. What it adds:
  - the indexer's setter writes the grid in place and changes only that cell;
  - the wrapping constructor stores the caller's grid itself;
  - `Clone` returns a new object that shares this object's grid;
  - `Add`, `Subtract` and `Multiply` return a new object over a new grid and
    leave both operands unchanged.
- `algebra.dfy` (`MatrixAlgebra`): properties that relate several calls.
  Adding and then subtracting the same matrix gives back the original.
  Addition is commutative. Multiplication is associative. The file also proves
  the 2×2 worked example.

Elements are Dafny `real`, which is exact, in place of `double`. IEEE-754
rounding is not modelled.

## Model

| member | source | states |
|---|---|---|
| Matrices.Matrix.Rows | Matrix/Matrix.cs:38-49 | under the class invariant `Rows` never throws: it is positive and is the grid's number of rows |
| Matrices.Matrix.Columns | Matrix/Matrix.cs:54-65 | under the class invariant `Columns` never throws: it is positive and is the length of every row of the grid |
| Matrices.New | Matrix/Matrix.cs:81-89 | fails with ArgumentOutOfRange exactly when rows <= 0 or columns <= 0; otherwise a valid rows × columns matrix every element of which is 0 |
| Matrices.FromGrid | Matrix/Matrix.cs:96-99 | a null grid is ArgumentNull; otherwise its cells are the grid's contents, and its shape is the grid's lengths |
| Matrices.Get | Matrix/Matrix.cs:107-110 | fails with Argument exactly when row ∉ [0, Rows) or column ∉ [0, Columns); otherwise returns element (row, column) |
| Matrices.Set | Matrix/Matrix.cs:111-117 | fails with Argument exactly when the index is out of range; otherwise the shape is kept, cell (row, column) holds the new value and every other cell is unchanged |
| Matrices.SetThenGet | Matrix/Matrix.cs:107-118 | after a valid write, reading back gives the written value at that cell and the previous reading everywhere else |
| Matrices.Clone | Matrix/Matrix.cs:124-132 | the clone has the same Rows and Columns and the same elements, so `Clone().Equals(this)` holds |
| Matrices.SameElementsIsEquality | Matrix/Matrix.cs:297-314 | for valid matrices, same shape with equal corresponding elements holds exactly when the two values are equal |
| Matrices.SameElementsIsEquivalence | Matrix/Matrix.cs:289-317 | element-wise equality is reflexive, symmetric and transitive |
| MatrixOperations.Add | Matrix/Matrix.cs:196-215 | a null argument is ArgumentNull; a shape mismatch is MatrixException; otherwise the result is the Rows × Columns matrix with r[i,j] = this[i,j] + m[i,j] |
| MatrixOperations.Subtract | Matrix/Matrix.cs:224-242 | the same errors as Add; otherwise the result is the element-wise difference this[i,j] − m[i,j] |
| MatrixOperations.Multiply | Matrix/Matrix.cs:250-280 | a null argument is ArgumentNull; Columns ≠ m.Rows is MatrixException; otherwise the result is the Rows × m.Columns matrix with r[i,j] = Σ_{k<Columns} this[i,k]·m[k,j] |
| MatrixOperations.Equals | Matrix/Matrix.cs:289-317 | never fails; false for null, for a non-matrix and for a different shape; otherwise true exactly when every pair of corresponding elements is equal, which is exactly when the argument is this same matrix value |
| MatrixOperations.OperatorPlus | Matrix/Matrix.cs:142-153 | null on either side is ArgumentNull and a shape mismatch is MatrixException, both before Add runs; otherwise the sum |
| MatrixOperations.OperatorMinus | Matrix/Matrix.cs:163-172 | checks only the left operand for null, then delegates; a null right operand is still ArgumentNull, raised by Subtract; a mismatch is MatrixException; otherwise the difference |
| MatrixOperations.OperatorTimes | Matrix/Matrix.cs:182-188 | checks only the left operand for null, then delegates; a null right operand is still ArgumentNull, raised by Multiply; Columns ≠ Rows is MatrixException; otherwise the product |
| MatrixObjects.Matrix.New | Matrix/Matrix.cs:81-89 | ArgumentOutOfRange exactly when rows <= 0 or columns <= 0; otherwise a new object over a new grid whose contents are the rows × columns zero matrix |
| MatrixObjects.Matrix.FromArray | Matrix/Matrix.cs:96-99 | null is ArgumentNull; otherwise a new object whose grid is the caller's array itself, not a copy |
| MatrixObjects.Matrix.Get | Matrix/Matrix.cs:107-110 | the getter's outcome is the value model's `Get` on the current grid |
| MatrixObjects.Matrix.Set | Matrix/Matrix.cs:111-117 | Argument exactly when the index is out of range, and then the grid is unchanged; otherwise the write goes into the grid in place: cell (row, column) holds the value and every other cell keeps its old value |
| MatrixObjects.Matrix.Clone | Matrix/Matrix.cs:124-132 | a new object whose grid is this object's grid, so its contents equal this object's |
| MatrixObjects.WriteThroughClone | Matrix/Matrix.cs:124-132 | after `c = m.Clone(); c[0,0] = v`, reading `m[0,0]` gives `v` |
| MatrixObjects.Matrix.DeepClone | Matrix/Matrix.cs:120-123 | a new object over a new grid with equal contents: the deep copy the doc comment promises |
| MatrixObjects.WriteThroughDeepClone | Matrix/Matrix.cs:120-123 | after a write through a deep clone, the original still reads its old element |
| MatrixObjects.Matrix.Add | Matrix/Matrix.cs:196-215 | the errors of `Add`; otherwise a new object over a new grid holding the sum; both operands are unchanged |
| MatrixObjects.Matrix.Subtract | Matrix/Matrix.cs:224-242 | the errors of `Subtract`; otherwise a new object over a new grid holding the difference; both operands are unchanged |
| MatrixObjects.Matrix.Multiply | Matrix/Matrix.cs:250-280 | the errors of `Multiply`; otherwise a new object over a new grid holding the product; both operands are unchanged |
| MatrixObjects.Matrix.Equals | Matrix/Matrix.cs:289-317 | compares contents, not identity: true exactly when the argument is a matrix object whose grid holds the same shape and elements |
| MatrixObjects.Plus | Matrix/Matrix.cs:142-153 | null on either side is ArgumentNull, then a shape mismatch is MatrixException; otherwise a new object over a new grid holding the sum |
| MatrixObjects.Minus | Matrix/Matrix.cs:163-172 | a null left operand is rejected here and a null right operand by `Subtract`, both ArgumentNull; a mismatch is MatrixException; otherwise a new object over a new grid holding the difference |
| MatrixObjects.Times | Matrix/Matrix.cs:182-188 | a null left operand is rejected here and a null right operand by `Multiply`, both ArgumentNull; Columns ≠ Rows is MatrixException; otherwise a new object over a new grid holding the product |
| MatrixAlgebra.AddThenSubtract | Matrix/Matrix.cs:196-242 | over exact reals, `A.Add(B).Subtract(B)` is `A` |
| MatrixAlgebra.SubtractThenAdd | Matrix/Matrix.cs:196-242 | over exact reals, `A.Subtract(B).Add(B)` is `A` |
| MatrixAlgebra.SumCommutes | Matrix/Matrix.cs:196-215 | `A.Add(B)` equals `B.Add(A)` |
| MatrixAlgebra.ProductAssociative | Matrix/Matrix.cs:250-280 | over exact reals, `(A·B)·C` equals `A·(B·C)` whenever the shapes fit |
| MatrixAlgebra.TwoByTwoExample | Matrix/Matrix.cs:196-280 | for A = [[1,2],[3,4]] and B = [[5,6],[7,8]], A + B = [[6,8],[10,12]] and A · B = [[19,22],[43,50]] |

## Notes on the source

- `Clone` builds `new Matrix(Rows, Columns)` and then overwrites its `array`
  field with this matrix's own array. The two objects therefore share one
  backing grid, although the doc comment promises a deep copy. The heap layer
  models exactly this (see "Findings").
- `Multiply` rejects `Rows <= 0 || Columns <= 0` with
  `ArgumentOutOfRangeException`. The class invariant rules this out, so the
  branch is unreachable and the model keeps it only as a comment.
- The `-` and `*` operators check only their left operand for null, and `+`
  checks both. The observable outcome is the same in all three: a null right
  operand is still `ArgumentNull`, raised one call later by the method the
  operator delegates to.

## Left out

- The `MatrixException` class (Matrix/Matrix.cs:6-30) is only a set of
  constructors. Only its kind, `Error.MatrixException`, is modelled.
- Exception messages and parameter names are not modelled.
- `GetHashCode` hashes the array reference, so it has no value-level contract.
- The `Rows`/`Columns` getters rethrow an `IndexOutOfRangeException` through
  `dynamic` when a length is 0, and `Error` has no constructor for it.
  The model replaces this with the class invariant `Valid()`: both lengths are
  positive. The getters `Matrix.Rows()` and `Matrix.Columns()` read the
  datatype fields `rows` and `columns`.
- Matrices.FromGrid: it requires a rectangular grid with positive lengths. A C#
  `double[,]` is always rectangular, but it may have a zero length, which the
  C# constructor accepts. Such a matrix would break the class invariant.
- MatrixObjects.Matrix.FromArray: it requires positive lengths, for the same
  reason as `Matrices.FromGrid`.
- Matrices.Clone: it is the value-level reading of `Clone`: same shape and
  same elements. A value has no identity, so the shared grid and the fact that
  a later write through the clone shows through the original are not visible
  here; `MatrixObjects.Matrix.Clone` states them.
- Matrices.Set: it is the value-level reading of the setter: it returns the
  updated matrix and cannot change any other value. That the C# setter writes
  the grid in place, where every object sharing the grid sees it, is stated by
  `MatrixObjects.Matrix.Set`.
- `MatrixOperations` works on values, so freshness of results and "operands
  unmodified" are stated by the `MatrixObjects` methods and operators.
- The public `Array` getter is not modelled: writes made through a grid
  obtained from it are outside the model.
- IEEE-754 `double` arithmetic, rounding and NaN are not modelled. `Equals`
  compares with exact equality, as the source does with `!=` on doubles.
- The `ICloneable`/`object` casting and `[Serializable]` are not modelled.
  `Equals`' `object` parameter is the generic `Object` datatype of
  `MatrixErrors`, shared by both layers: null, a matrix, or something else.

## Findings

| source | as written | input that shows it | evidently intended | confidence | as-written member | corrected member |
|---|---|---|---|---|---|---|
| Matrix/Matrix.cs:120-132 | `Clone` replaces the new matrix's array with this matrix's own array, so the clone shares the grid | any matrix `m`: `c = m.Clone(); c[0,0] = v;` then `m[0,0]` reads `v` | a deep copy, as the doc comment says: writes to the clone do not reach the original | high; not executed | MatrixObjects.WriteThroughClone | MatrixObjects.Matrix.DeepClone |
