/**
 Dense real matrices with explicit shapes, standing in for the float64 tensors
 and arrays of the experiment code, and the algebra the posterior update relies
 on: associativity, distributivity, identities and transposition.

 A matrix carries its row and column counts next to its rows so that empty
 shapes are kept: a batch with no rows is still M x K with M = 0, and its
 transpose is K x 0.
 */
module Matrices {
  import opened Vectors

  datatype Mat = Mat(rows: nat, cols: nat, e: seq<seq<real>>)

  predicate WellShaped(A: Mat)
  {
    |A.e| == A.rows && forall i :: 0 <= i < |A.e| ==> |A.e[i]| == A.cols
  }

  type Matrix = A: Mat | WellShaped(A) witness Mat(0, 0, [])

  predicate IsSquare(A: Matrix)
  {
    A.rows == A.cols
  }

  predicate IsSymmetric(A: Matrix)
  {
    A.rows == A.cols && forall i, j :: 0 <= i < A.rows && 0 <= j < A.rows ==> A.e[i][j] == A.e[j][i]
  }

  /** Column `j` of `A` as a vector. */
  function Col(A: Matrix, j: nat): (c: Vector)
    requires j < A.cols
    ensures |c| == A.rows
  {
    seq(A.rows, i requires 0 <= i < A.rows => A.e[i][j])
  }

  function Zeros(m: nat, n: nat): (Z: Matrix)
    ensures Z.rows == m && Z.cols == n
  {
    Mat(m, n, seq(m, i requires 0 <= i < m => seq(n, j requires 0 <= j < n => 0.0)))
  }

  /** The n x n identity (`tf.eye`, `np.identity`). */
  function Identity(n: nat): (I: Matrix)
    ensures I.rows == n && I.cols == n
  {
    Mat(n, n, seq(n, i requires 0 <= i < n => Unit(n, i)))
  }

  function Add(A: Matrix, B: Matrix): (C: Matrix)
    requires A.rows == B.rows && A.cols == B.cols
    ensures C.rows == A.rows && C.cols == A.cols
  {
    Mat(A.rows, A.cols, seq(A.rows, i requires 0 <= i < A.rows => VAdd(A.e[i], B.e[i])))
  }

  function Sub(A: Matrix, B: Matrix): (C: Matrix)
    requires A.rows == B.rows && A.cols == B.cols
    ensures C.rows == A.rows && C.cols == A.cols
  {
    Mat(A.rows, A.cols, seq(A.rows, i requires 0 <= i < A.rows => VSub(A.e[i], B.e[i])))
  }

  function Scale(c: real, A: Matrix): (C: Matrix)
    ensures C.rows == A.rows && C.cols == A.cols
  {
    Mat(A.rows, A.cols, seq(A.rows, i requires 0 <= i < A.rows => VScale(c, A.e[i])))
  }

  function Transpose(A: Matrix): (T: Matrix)
    ensures T.rows == A.cols && T.cols == A.rows
  {
    Mat(A.cols, A.rows, seq(A.cols, j requires 0 <= j < A.cols => Col(A, j)))
  }

  /** Matrix product (`tf.matmul`, `np.matmul`): entry (i, j) is row i of A dotted with column j of B. */
  function MatMul(A: Matrix, B: Matrix): (C: Matrix)
    requires A.cols == B.rows
    ensures C.rows == A.rows && C.cols == B.cols
  {
    Mat(A.rows, B.cols, seq(A.rows, i requires 0 <= i < A.rows =>
      seq(B.cols, j requires 0 <= j < B.cols => Dot(A.e[i], Col(B, j)))))
  }

  /** Row concatenation of two batches with the same number of columns. */
  function VStack(A: Matrix, B: Matrix): (C: Matrix)
    requires A.cols == B.cols
    ensures C.rows == A.rows + B.rows && C.cols == A.cols
  {
    Mat(A.rows + B.rows, A.cols, A.e + B.e)
  }

  /** `W` is a left inverse of the square matrix `A`. */
  predicate IsLeftInverse(W: Matrix, A: Matrix)
  {
    A.rows == A.cols && W.cols == A.rows && MatMul(W, A) == Identity(A.cols)
  }

  /** Row vector times matrix. */
  function VecMat(u: Vector, B: Matrix): (w: Vector)
    requires |u| == B.rows
    ensures |w| == B.cols
  {
    seq(B.cols, j requires 0 <= j < B.cols => Dot(u, Col(B, j)))
  }

  /** Matrix times column vector. */
  function MatVec(B: Matrix, v: Vector): (w: Vector)
    requires |v| == B.cols
    ensures |w| == B.rows
  {
    seq(B.rows, k requires 0 <= k < B.rows => Dot(B.e[k], v))
  }

  /** B without its last row. */
  function DropLastRow(B: Matrix): (C: Matrix)
    requires B.rows > 0
    ensures C.rows == B.rows - 1 && C.cols == B.cols
  {
    Mat(B.rows - 1, B.cols, B.e[..B.rows - 1])
  }

  /** Two matrices of the same shape with the same entries are equal. */
  lemma Ext(A: Matrix, B: Matrix)
    requires A.rows == B.rows && A.cols == B.cols
    requires forall i, j :: 0 <= i < A.rows && 0 <= j < A.cols ==> A.e[i][j] == B.e[i][j]
    ensures A == B
  {
    forall i | 0 <= i < A.rows
      ensures A.e[i] == B.e[i]
    {
      assert forall j :: 0 <= j < A.cols ==> A.e[i][j] == B.e[i][j];
    }
  }

  lemma SymmetricIffSelfTranspose(A: Matrix)
    ensures IsSymmetric(A) <==> A.rows == A.cols && Transpose(A) == A
  {
    if IsSymmetric(A) {
      Ext(Transpose(A), A);
    }
    if A.rows == A.cols && Transpose(A) == A {
      forall i, j | 0 <= i < A.rows && 0 <= j < A.rows
        ensures A.e[i][j] == A.e[j][i]
      {
        assert Transpose(A).e[j][i] == A.e[i][j];
      }
    }
  }

  lemma TransposeTranspose(A: Matrix)
    ensures Transpose(Transpose(A)) == A
  {
    Ext(Transpose(Transpose(A)), A);
  }

  lemma TransposeAdd(A: Matrix, B: Matrix)
    requires A.rows == B.rows && A.cols == B.cols
    ensures Transpose(Add(A, B)) == Add(Transpose(A), Transpose(B))
  {
    Ext(Transpose(Add(A, B)), Add(Transpose(A), Transpose(B)));
  }

  lemma TransposeSub(A: Matrix, B: Matrix)
    requires A.rows == B.rows && A.cols == B.cols
    ensures Transpose(Sub(A, B)) == Sub(Transpose(A), Transpose(B))
  {
    Ext(Transpose(Sub(A, B)), Sub(Transpose(A), Transpose(B)));
  }

  lemma IdentitySymmetric(n: nat)
    ensures IsSymmetric(Identity(n))
  {
  }

  lemma ScaleSymmetric(c: real, A: Matrix)
    requires IsSymmetric(A)
    ensures IsSymmetric(Scale(c, A))
  {
  }

  lemma AddSymmetric(A: Matrix, B: Matrix)
    requires IsSymmetric(A) && IsSymmetric(B) && A.rows == B.rows
    ensures IsSymmetric(Add(A, B))
  {
  }

  lemma AddComm(A: Matrix, B: Matrix)
    requires A.rows == B.rows && A.cols == B.cols
    ensures Add(A, B) == Add(B, A)
  {
    Ext(Add(A, B), Add(B, A));
  }

  lemma AddAssoc(A: Matrix, B: Matrix, C: Matrix)
    requires A.rows == B.rows == C.rows && A.cols == B.cols == C.cols
    ensures Add(Add(A, B), C) == Add(A, Add(B, C))
  {
    Ext(Add(Add(A, B), C), Add(A, Add(B, C)));
  }

  lemma AddSubAssoc(A: Matrix, B: Matrix, C: Matrix)
    requires A.rows == B.rows == C.rows && A.cols == B.cols == C.cols
    ensures Sub(Add(A, B), C) == Add(A, Sub(B, C))
  {
    Ext(Sub(Add(A, B), C), Add(A, Sub(B, C)));
  }

  lemma MatMulIdentityLeft(A: Matrix)
    ensures MatMul(Identity(A.rows), A) == A
  {
    var n := A.rows;
    forall i, j | 0 <= i < n && 0 <= j < A.cols
      ensures MatMul(Identity(n), A).e[i][j] == A.e[i][j]
    {
      DotUnitLeft(n, i, Col(A, j));
    }
    Ext(MatMul(Identity(n), A), A);
  }

  lemma MatMulIdentityRight(A: Matrix)
    ensures MatMul(A, Identity(A.cols)) == A
  {
    var n := A.cols;
    forall i, j | 0 <= i < A.rows && 0 <= j < n
      ensures MatMul(A, Identity(n)).e[i][j] == A.e[i][j]
    {
      assert Col(Identity(n), j) == Unit(n, j);
      DotUnitRight(n, j, A.e[i]);
    }
    Ext(MatMul(A, Identity(n)), A);
  }

  lemma TransposeIdentity(n: nat)
    ensures Transpose(Identity(n)) == Identity(n)
  {
    Ext(Transpose(Identity(n)), Identity(n));
  }

  /** (AB)^T = B^T A^T. */
  lemma TransposeMatMul(A: Matrix, B: Matrix)
    requires A.cols == B.rows
    ensures Transpose(MatMul(A, B)) == MatMul(Transpose(B), Transpose(A))
  {
    var L, R := Transpose(MatMul(A, B)), MatMul(Transpose(B), Transpose(A));
    forall j, i | 0 <= j < B.cols && 0 <= i < A.rows
      ensures L.e[j][i] == R.e[j][i]
    {
      assert Transpose(B).e[j] == Col(B, j);
      assert Col(Transpose(A), i) == A.e[i];
      DotComm(A.e[i], Col(B, j));
    }
    Ext(L, R);
  }

  /** A(B + C) = AB + AC. */
  lemma MatMulAddLeft(A: Matrix, B: Matrix, C: Matrix)
    requires A.cols == B.rows && B.rows == C.rows && B.cols == C.cols
    ensures MatMul(A, Add(B, C)) == Add(MatMul(A, B), MatMul(A, C))
  {
    forall i, j | 0 <= i < A.rows && 0 <= j < B.cols
      ensures MatMul(A, Add(B, C)).e[i][j] == Add(MatMul(A, B), MatMul(A, C)).e[i][j]
    {
      assert Col(Add(B, C), j) == VAdd(Col(B, j), Col(C, j));
      DotVAddRight(A.e[i], Col(B, j), Col(C, j));
    }
    Ext(MatMul(A, Add(B, C)), Add(MatMul(A, B), MatMul(A, C)));
  }

  /** (A + B)C = AC + BC. */
  lemma MatMulAddRight(A: Matrix, B: Matrix, C: Matrix)
    requires A.rows == B.rows && A.cols == B.cols && A.cols == C.rows
    ensures MatMul(Add(A, B), C) == Add(MatMul(A, C), MatMul(B, C))
  {
    forall i, j | 0 <= i < A.rows && 0 <= j < C.cols
      ensures MatMul(Add(A, B), C).e[i][j] == Add(MatMul(A, C), MatMul(B, C)).e[i][j]
    {
      DotVAddLeft(A.e[i], B.e[i], Col(C, j));
    }
    Ext(MatMul(Add(A, B), C), Add(MatMul(A, C), MatMul(B, C)));
  }

  /** (A - B)C = AC - BC. */
  lemma MatMulSubRight(A: Matrix, B: Matrix, C: Matrix)
    requires A.rows == B.rows && A.cols == B.cols && A.cols == C.rows
    ensures MatMul(Sub(A, B), C) == Sub(MatMul(A, C), MatMul(B, C))
  {
    forall i, j | 0 <= i < A.rows && 0 <= j < C.cols
      ensures MatMul(Sub(A, B), C).e[i][j] == Sub(MatMul(A, C), MatMul(B, C)).e[i][j]
    {
      DotVSubLeft(A.e[i], B.e[i], Col(C, j));
    }
    Ext(MatMul(Sub(A, B), C), Sub(MatMul(A, C), MatMul(B, C)));
  }

  /** Splitting off the last row of B splits u B into the rest plus one scaled row. */
  lemma VecMatDropLast(u: Vector, B: Matrix)
    requires |u| == B.rows > 0
    ensures VecMat(u, B)
         == VAdd(VecMat(u[..B.rows - 1], DropLastRow(B)), VScale(u[B.rows - 1], B.e[B.rows - 1]))
  {
    var n := B.rows;
    var B', u' := DropLastRow(B), u[..n - 1];
    forall j | 0 <= j < B.cols
      ensures VecMat(u, B)[j] == VAdd(VecMat(u', B'), VScale(u[n - 1], B.e[n - 1]))[j]
    {
      assert Col(B, j)[..n - 1] == Col(B', j);
    }
  }

  /** (u B) . v = u . (B v), by induction on the rows of B. */
  lemma {:induction false} VecMatMatVec(u: Vector, B: Matrix, v: Vector)
    requires |u| == B.rows && |v| == B.cols
    ensures Dot(VecMat(u, B), v) == Dot(u, MatVec(B, v))
  {
    if B.rows > 0 {
      var n := B.rows;
      var B', u', x, b := DropLastRow(B), u[..n - 1], u[n - 1], B.e[n - 1];
      VecMatMatVec(u', B', v);
      VecMatDropLast(u, B);
      DotVAddLeft(VecMat(u', B'), VScale(x, b), v);
      DotVScaleLeft(x, b, v);
      assert MatVec(B, v)[..n - 1] == MatVec(B', v);
      calc {
        Dot(VecMat(u, B), v);
        Dot(VecMat(u', B'), v) + x * Dot(b, v);
        Dot(u', MatVec(B', v)) + x * Dot(b, v);
        Dot(u, MatVec(B, v));
      }
    } else {
      DotZeroLeft(VecMat(u, B), v);
    }
  }

  lemma {:induction false} DotZeroLeft(z: Vector, v: Vector)
    requires |z| == |v| && forall k :: 0 <= k < |z| ==> z[k] == 0.0
    ensures Dot(z, v) == 0.0
  {
    if |z| > 0 {
      DotZeroLeft(z[..|z| - 1], v[..|v| - 1]);
    }
  }

  /** A matrix maps the zero vector to zero. */
  lemma MatVecZero(A: Matrix, u: Vector)
    requires |u| == A.cols
    ensures IsZero(u) ==> IsZero(MatVec(A, u))
  {
    if IsZero(u) {
      forall i | 0 <= i < A.rows
        ensures MatVec(A, u)[i] == 0.0
      {
        DotComm(A.e[i], u);
        DotZeroLeft(u, A.e[i]);
      }
    }
  }

  /** Matrix-vector products distribute over a sum of matrices. */
  lemma MatVecAdd(A: Matrix, B: Matrix, v: Vector)
    requires A.rows == B.rows && A.cols == B.cols && |v| == A.cols
    ensures MatVec(Add(A, B), v) == VAdd(MatVec(A, v), MatVec(B, v))
  {
    forall i | 0 <= i < A.rows
      ensures MatVec(Add(A, B), v)[i] == VAdd(MatVec(A, v), MatVec(B, v))[i]
    {
      DotVAddLeft(A.e[i], B.e[i], v);
    }
  }

  /** Scaling a matrix scales its products. */
  lemma MatVecScale(c: real, A: Matrix, v: Vector)
    requires |v| == A.cols
    ensures MatVec(Scale(c, A), v) == VScale(c, MatVec(A, v))
  {
    forall i | 0 <= i < A.rows
      ensures MatVec(Scale(c, A), v)[i] == VScale(c, MatVec(A, v))[i]
    {
      DotVScaleLeft(c, A.e[i], v);
    }
  }

  /** The identity maps every vector to itself. */
  lemma MatVecIdentity(v: Vector)
    ensures MatVec(Identity(|v|), v) == v
  {
    forall i | 0 <= i < |v|
      ensures MatVec(Identity(|v|), v)[i] == v[i]
    {
      DotUnitLeft(|v|, i, v);
    }
  }

  /** (A B) v = A (B v). */
  lemma MatVecMatMul(A: Matrix, B: Matrix, v: Vector)
    requires A.cols == B.rows && |v| == B.cols
    ensures MatVec(MatMul(A, B), v) == MatVec(A, MatVec(B, v))
  {
    forall i | 0 <= i < A.rows
      ensures MatVec(MatMul(A, B), v)[i] == MatVec(A, MatVec(B, v))[i]
    {
      assert MatMul(A, B).e[i] == VecMat(A.e[i], B);
      VecMatMatVec(A.e[i], B, v);
    }
  }

  /** v . (X w) = (X^T v) . w. */
  lemma DotMatVecTranspose(X: Matrix, v: Vector, w: Vector)
    requires |v| == X.rows && |w| == X.cols
    ensures Dot(v, MatVec(X, w)) == Dot(MatVec(Transpose(X), v), w)
  {
    forall j | 0 <= j < X.cols
      ensures MatVec(Transpose(X), v)[j] == VecMat(v, X)[j]
    {
      DotComm(Col(X, j), v);
    }
    assert MatVec(Transpose(X), v) == VecMat(v, X);
    VecMatMatVec(v, X, w);
  }

  /** Matrix multiplication is associative. */
  lemma MatMulAssoc(A: Matrix, B: Matrix, C: Matrix)
    requires A.cols == B.rows && B.cols == C.rows
    ensures MatMul(MatMul(A, B), C) == MatMul(A, MatMul(B, C))
  {
    var L, R := MatMul(MatMul(A, B), C), MatMul(A, MatMul(B, C));
    forall i, l | 0 <= i < A.rows && 0 <= l < C.cols
      ensures L.e[i][l] == R.e[i][l]
    {
      assert MatMul(A, B).e[i] == VecMat(A.e[i], B);
      assert Col(MatMul(B, C), l) == MatVec(B, Col(C, l));
      VecMatMatVec(A.e[i], B, Col(C, l));
    }
    Ext(L, R);
  }

  /** The Gram matrix of a row-stacked pair splits: (A;B)^T (C;D) = A^T C + B^T D. */
  lemma StackedCrossProduct(A: Matrix, B: Matrix, C: Matrix, D: Matrix)
    requires A.cols == B.cols && C.cols == D.cols
    requires A.rows == C.rows && B.rows == D.rows
    ensures MatMul(Transpose(VStack(A, B)), VStack(C, D))
         == Add(MatMul(Transpose(A), C), MatMul(Transpose(B), D))
  {
    var L := MatMul(Transpose(VStack(A, B)), VStack(C, D));
    var R := Add(MatMul(Transpose(A), C), MatMul(Transpose(B), D));
    forall i, j | 0 <= i < A.cols && 0 <= j < C.cols
      ensures L.e[i][j] == R.e[i][j]
    {
      assert Col(VStack(A, B), i) == Col(A, i) + Col(B, i);
      assert Col(VStack(C, D), j) == Col(C, j) + Col(D, j);
      DotAppend(Col(A, i), Col(B, i), Col(C, j), Col(D, j));
    }
    Ext(L, R);
  }

  /** X^T X is symmetric. */
  lemma GramSymmetric(X: Matrix)
    ensures IsSymmetric(MatMul(Transpose(X), X))
  {
    var G := MatMul(Transpose(X), X);
    forall i, j | 0 <= i < X.cols && 0 <= j < X.cols
      ensures G.e[i][j] == G.e[j][i]
    {
      DotComm(Col(X, i), Col(X, j));
    }
  }

  /** A left inverse of a symmetric matrix is symmetric, and is a right inverse as well. */
  lemma LeftInverseOfSymmetric(W: Matrix, A: Matrix)
    requires IsSymmetric(A) && IsLeftInverse(W, A)
    ensures IsSymmetric(W)
    ensures MatMul(A, W) == Identity(A.rows)
  {
    var n := A.rows;
    var Wt := Transpose(W);
    SymmetricIffSelfTranspose(A);
    TransposeMatMul(W, A);
    TransposeIdentity(n);
    assert MatMul(A, Wt) == Identity(n);
    calc {
      W;
      { MatMulIdentityRight(W); }
      MatMul(W, Identity(n));
      MatMul(W, MatMul(A, Wt));
      { MatMulAssoc(W, A, Wt); }
      MatMul(MatMul(W, A), Wt);
      MatMul(Identity(n), Wt);
      { MatMulIdentityLeft(Wt); }
      Wt;
    }
    SymmetricIffSelfTranspose(W);
  }

  /** A symmetric matrix has at most one left inverse. */
  lemma LeftInverseUnique(W1: Matrix, W2: Matrix, A: Matrix)
    requires IsSymmetric(A) && IsLeftInverse(W1, A) && IsLeftInverse(W2, A)
    ensures W1 == W2
  {
    var n := A.rows;
    LeftInverseOfSymmetric(W2, A);
    calc {
      W1;
      { MatMulIdentityRight(W1); }
      MatMul(W1, Identity(n));
      MatMul(W1, MatMul(A, W2));
      { MatMulAssoc(W1, A, W2); }
      MatMul(MatMul(W1, A), W2);
      MatMul(Identity(n), W2);
      { MatMulIdentityLeft(W2); }
      W2;
    }
  }

  /** A matrix with a symmetric left inverse is itself symmetric. */
  lemma InvertedBySymmetric(W: Matrix, A: Matrix)
    requires IsSymmetric(W) && IsLeftInverse(W, A)
    ensures IsSymmetric(A)
  {
    var n := A.rows;
    var At := Transpose(A);
    SymmetricIffSelfTranspose(W);
    TransposeMatMul(W, A);
    TransposeIdentity(n);
    // A^T W = (W A)^T = I, so A^T is a left inverse of the symmetric W
    assert IsLeftInverse(At, W);
    LeftInverseOfSymmetric(At, W);
    calc {
      A;
      { MatMulIdentityLeft(A); }
      MatMul(Identity(n), A);
      MatMul(MatMul(At, W), A);
      { MatMulAssoc(At, W, A); }
      MatMul(At, MatMul(W, A));
      MatMul(At, Identity(n));
      { MatMulIdentityRight(At); }
      At;
    }
    SymmetricIffSelfTranspose(A);
  }

  /** All batches of a stream stacked row-wise, in order; K x 0 when the stream is empty. */
  function StackRows(xs: seq<Matrix>, k: nat): (S: Matrix)
    requires forall i :: 0 <= i < |xs| ==> xs[i].cols == k
    ensures S.cols == k
  {
    if |xs| == 0 then Mat(0, k, []) else VStack(xs[0], StackRows(xs[1..], k))
  }

  /** A cross product over zero rows is the zero matrix. */
  lemma EmptyCrossProduct(A: Matrix, C: Matrix)
    requires A.rows == 0 && C.rows == 0
    ensures MatMul(Transpose(A), C) == Zeros(A.cols, C.cols)
  {
    Ext(MatMul(Transpose(A), C), Zeros(A.cols, C.cols));
  }

  lemma AddZeros(A: Matrix)
    ensures Add(A, Zeros(A.rows, A.cols)) == A
  {
    Ext(Add(A, Zeros(A.rows, A.cols)), A);
  }

  lemma SubSelfZero(A: Matrix)
    ensures Sub(A, A) == Zeros(A.rows, A.cols)
  {
    Ext(Sub(A, A), Zeros(A.rows, A.cols));
  }

  lemma ZerosMatMul(m: nat, C: Matrix)
    ensures MatMul(Zeros(m, C.rows), C) == Zeros(m, C.cols)
  {
    var L, Z := MatMul(Zeros(m, C.rows), C), Zeros(m, C.cols);
    forall i, j | 0 <= i < m && 0 <= j < C.cols
      ensures L.e[i][j] == Z.e[i][j]
    {
      DotZeroLeft(Zeros(m, C.rows).e[i], Col(C, j));
    }
    Ext(L, Z);
  }
}
