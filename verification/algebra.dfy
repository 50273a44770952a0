/** Algebraic facts about the results of `Add`, `Subtract` and `Multiply`,
    which hold because the model computes over exact reals.
 */
module MatrixAlgebra {
  import opened Summation
  import opened Matrices

  /** Adding `b` and then subtracting it again gives back `a`. */
  lemma AddThenSubtract(a: Matrix, b: Matrix)
    requires a.Valid() && b.Valid() && SameShape(a, b)
    ensures Difference(Sum(a, b), b) == a
  {
    SameElementsIsEquality(Difference(Sum(a, b), b), a);
  }

  /** Subtracting `b` and then adding it again gives back `a`. */
  lemma SubtractThenAdd(a: Matrix, b: Matrix)
    requires a.Valid() && b.Valid() && SameShape(a, b)
    ensures Sum(Difference(a, b), b) == a
  {
    SameElementsIsEquality(Sum(Difference(a, b), b), a);
  }

  /** Matrix addition is commutative. */
  lemma SumCommutes(a: Matrix, b: Matrix)
    requires a.Valid() && b.Valid() && SameShape(a, b)
    ensures Sum(a, b) == Sum(b, a)
  {
    SameElementsIsEquality(Sum(a, b), Sum(b, a));
  }

  /** The summand `a[i, l] * b[l, k] * c[k, j]` shared by both groupings of
      a triple product. */
  function Term(a: Matrix, b: Matrix, c: Matrix, i: int, j: int, k: int, l: int): real
  {
    a.At(i, l) * b.At(l, k) * c.At(k, j)
  }

  /** An element of `(a * b) * c` is the sum over `k` of the sums over `l` of
      the summands. */
  lemma ProductLeftAsDoubleSum(a: Matrix, b: Matrix, c: Matrix, i: int, j: int, g: (int, int) -> real)
    requires a.Valid() && b.Valid() && c.Valid()
    requires a.columns == b.rows && b.columns == c.rows
    requires 0 <= i < a.rows && 0 <= j < c.columns
    requires forall k, l :: g(k, l) == Term(a, b, c, i, j, k, l)
    ensures Product(Product(a, b), c).cells[i][j] ==
      Sigma(b.columns, k => Sigma(a.columns, l => g(k, l)))
  {
    var ab := Product(a, b);
    var outer := k => ab.At(i, k) * c.At(k, j);
    var inner := k => Sigma(a.columns, l => g(k, l));
    forall k | 0 <= k < b.columns
      ensures outer(k) == inner(k)
    {
      assert ab.At(i, k) == Dot(a, b, i, k, a.columns);
      SigmaScaleRight(a.columns, c.At(k, j), l => a.At(i, l) * b.At(l, k),
        l => g(k, l));
    }
    SigmaCongruent(b.columns, outer, inner);
  }

  /** An element of `a * (b * c)` is the sum over `l` of the sums over `k` of
      the summands. */
  lemma ProductRightAsDoubleSum(a: Matrix, b: Matrix, c: Matrix, i: int, j: int, g: (int, int) -> real)
    requires a.Valid() && b.Valid() && c.Valid()
    requires a.columns == b.rows && b.columns == c.rows
    requires 0 <= i < a.rows && 0 <= j < c.columns
    requires forall k, l :: g(k, l) == Term(a, b, c, i, j, k, l)
    ensures Product(a, Product(b, c)).cells[i][j] ==
      Sigma(a.columns, l => Sigma(b.columns, k => g(k, l)))
  {
    var bc := Product(b, c);
    var outer := l => a.At(i, l) * bc.At(l, j);
    var inner := l => Sigma(b.columns, k => g(k, l));
    forall l | 0 <= l < a.columns
      ensures outer(l) == inner(l)
    {
      assert bc.At(l, j) == Dot(b, c, l, j, b.columns);
      SigmaScaleLeft(b.columns, a.At(i, l), k => b.At(l, k) * c.At(k, j),
        k => g(k, l));
    }
    SigmaCongruent(a.columns, outer, inner);
  }

  /** Matrix multiplication is associative. */
  lemma ProductAssociative(a: Matrix, b: Matrix, c: Matrix)
    requires a.Valid() && b.Valid() && c.Valid()
    requires a.columns == b.rows && b.columns == c.rows
    ensures Product(Product(a, b), c) == Product(a, Product(b, c))
  {
    var left := Product(Product(a, b), c);
    var right := Product(a, Product(b, c));
    forall i, j | 0 <= i < a.rows && 0 <= j < c.columns
      ensures left.cells[i][j] == right.cells[i][j]
    {
      var g := (k, l) => Term(a, b, c, i, j, k, l);
      ProductLeftAsDoubleSum(a, b, c, i, j, g);
      ProductRightAsDoubleSum(a, b, c, i, j, g);
      SigmaSwap(b.columns, a.columns, g);
    }
    SameElementsIsEquality(left, right);
  }

  /** The worked example: for A = [[1, 2], [3, 4]] and B = [[5, 6], [7, 8]],
      A + B = [[6, 8], [10, 12]] and A * B = [[19, 22], [43, 50]]. */
  lemma TwoByTwoExample()
    ensures Sum(Matrix(2, 2, [[1.0, 2.0], [3.0, 4.0]]), Matrix(2, 2, [[5.0, 6.0], [7.0, 8.0]]))
      == Matrix(2, 2, [[6.0, 8.0], [10.0, 12.0]])
    ensures Product(Matrix(2, 2, [[1.0, 2.0], [3.0, 4.0]]), Matrix(2, 2, [[5.0, 6.0], [7.0, 8.0]]))
      == Matrix(2, 2, [[19.0, 22.0], [43.0, 50.0]])
  {
    var a := Matrix(2, 2, [[1.0, 2.0], [3.0, 4.0]]);
    var b := Matrix(2, 2, [[5.0, 6.0], [7.0, 8.0]]);
    SameElementsIsEquality(Sum(a, b), Matrix(2, 2, [[6.0, 8.0], [10.0, 12.0]]));
    var p := Product(a, b);
    assert p.cells[0][0] == Dot(a, b, 0, 0, 2) == 19.0;
    assert p.cells[0][1] == Dot(a, b, 0, 1, 2) == 22.0;
    assert p.cells[1][0] == Dot(a, b, 1, 0, 2) == 43.0;
    assert p.cells[1][1] == Dot(a, b, 1, 1, 2) == 50.0;
    SameElementsIsEquality(p, Matrix(2, 2, [[19.0, 22.0], [43.0, 50.0]]));
  }
}
