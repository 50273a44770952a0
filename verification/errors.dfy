/** Error outcomes of the matrix operations.

    The library reports failures by throwing .NET exceptions; here each kind of
    exception that the modelled operations can throw under the class invariant
    is one constructor of `Error`, and every operation that can throw returns a
    `Result`. The `IndexOutOfRangeException` of the `Rows` and `Columns`
    getters cannot occur under the invariant and has no constructor. A C#
    reference that may be `null` is an `Option`, and the `object` argument of
    `Equals` is an `Object`.
 */
module MatrixErrors {

  /** A reference that may be null. */
  datatype Option<+T> = None | Some(value: T)

  /** The `object` argument of `Equals`: null, a matrix of type `M`, or an
      object of another type. */
  datatype Object<+M> = Null | MatrixObject(matrix: M) | OtherObject

  /** The exception kinds the modelled operations throw. */
  datatype Error =
    | ArgumentOutOfRange   // a non-positive size passed to the (rows, columns) constructor
    | ArgumentNull         // a required matrix (or grid) argument was null
    | Argument             // an element index outside [0, Rows) x [0, Columns)
    | MatrixException      // the operand shapes do not fit the operation

  /** Either the value an operation returns or the exception it throws. */
  datatype Result<+T> = Success(value: T) | Failure(error: Error)
}
