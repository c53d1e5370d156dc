/**
 Definiteness of the matrices the covariance code inverts. The quadratic form
 v^T A v of the capacitance matrix I + X H_inv X^T is |v|^2 plus a form of H_inv,
 so it is positive for every nonzero v as soon as H_inv is positive
 semidefinite, and then no nonzero vector is mapped to zero: the matrix handed
 to `tf.matrix_inverse` is nonsingular. The inverse of a symmetric positive
 (semi)definite matrix is positive (semi)definite too, so the covariances along
 a stream stay positive semidefinite, and positive definite when the stream
 starts from a positive definite H_inv.
 */
module Definiteness {
  import opened Vectors
  import opened Matrices
  import opened Woodbury

  /** The quadratic form v^T A v. */
  function Quad(A: Matrix, v: Vector): real
    requires IsSquare(A) && |v| == A.rows
  {
    Dot(v, MatVec(A, v))
  }

  ghost predicate PositiveSemidefinite(A: Matrix)
  {
    IsSquare(A) && forall v {:trigger Quad(A, v)} :: |v| == A.rows ==> 0.0 <= Quad(A, v)
  }

  ghost predicate PositiveDefinite(A: Matrix)
  {
    IsSquare(A) && forall v {:trigger Quad(A, v)} :: |v| == A.rows && !IsZero(v) ==> 0.0 < Quad(A, v)
  }

  lemma QuadAdd(A: Matrix, B: Matrix, v: Vector)
    requires IsSquare(A) && IsSquare(B) && A.rows == B.rows && |v| == A.rows
    ensures Quad(Add(A, B), v) == Quad(A, v) + Quad(B, v)
  {
    MatVecAdd(A, B, v);
    DotVAddRight(v, MatVec(A, v), MatVec(B, v));
  }

  /** v^T (X H X^T) v is the form of H at X^T v. */
  lemma QuadCongruence(X: Matrix, H: Matrix, v: Vector)
    requires IsSquare(H) && H.rows == X.cols && |v| == X.rows
    ensures Quad(MatMul(X, MatMul(H, Transpose(X))), v) == Quad(H, MatVec(Transpose(X), v))
  {
    var Xt := Transpose(X);
    var w := MatVec(Xt, v);
    MatVecMatMul(X, MatMul(H, Xt), v);
    MatVecMatMul(H, Xt, v);
    DotMatVecTranspose(X, v, MatVec(H, w));
  }

  /** The form of X^T X at v is |X v|^2. */
  lemma GramForm(X: Matrix, v: Vector)
    requires |v| == X.cols
    ensures Quad(Gram(X), v) == Dot(MatVec(X, v), MatVec(X, v))
  {
    var Xt := Transpose(X);
    MatVecMatMul(Xt, X, v);
    DotMatVecTranspose(Xt, v, MatVec(X, v));
    TransposeTranspose(X);
  }

  /** The Gram matrix is positive semidefinite. */
  lemma GramPositiveSemidefinite(X: Matrix)
    ensures PositiveSemidefinite(Gram(X))
  {
    forall v | |v| == X.cols
      ensures 0.0 <= Quad(Gram(X), v)
    {
      GramForm(X, v);
      DotSelfPositive(MatVec(X, v));
    }
  }

  /** sig_sq I scales every vector by sig_sq. */
  lemma MatVecScaledIdentity(c: real, v: Vector)
    ensures MatVec(Scale(c, Identity(|v|)), v) == VScale(c, v)
  {
    MatVecScale(c, Identity(|v|), v);
    MatVecIdentity(v);
  }

  /** sig_sq I is positive semidefinite for sig_sq >= 0 and positive definite for sig_sq > 0. */
  lemma ScaledIdentitySign(c: real, v: Vector)
    ensures 0.0 <= c ==> 0.0 <= Quad(Scale(c, Identity(|v|)), v)
    ensures 0.0 < c && !IsZero(v) ==> 0.0 < Quad(Scale(c, Identity(|v|)), v)
  {
    var d := Dot(v, v);
    DotSelfPositive(v);
    if 0.0 < c && !IsZero(v) {
      calc {
        Quad(Scale(c, Identity(|v|)), v);
      == { MatVecScaledIdentity(c, v); }
        Dot(v, VScale(c, v));
      == { DotVScaleRight(c, v, v); }
        c * d;
      > { MulPositive(c, d); }
        0.0;
      }
    } else if 0.0 < c {
      calc {
        Quad(Scale(c, Identity(|v|)), v);
      == { MatVecScaledIdentity(c, v); }
        Dot(v, VScale(c, v));
      == { DotVScaleRight(c, v, v); }
        c * d;
      == 0.0;
      }
    } else if 0.0 == c {
      calc {
        Quad(Scale(c, Identity(|v|)), v);
      == { MatVecScaledIdentity(c, v); }
        Dot(v, VScale(c, v));
      == { DotVScaleRight(c, v, v); }
        c * d;
      == 0.0;
      }
    }
  }

  lemma QuadRidgeGramSign(X: Matrix, sigSq: real, v: Vector)
    requires |v| == X.cols
    ensures 0.0 <= sigSq ==> 0.0 <= Quad(RidgeGram(X, sigSq), v)
    ensures 0.0 < sigSq && !IsZero(v) ==> 0.0 < Quad(RidgeGram(X, sigSq), v)
  {
    QuadAdd(Gram(X), Scale(sigSq, Identity(X.cols)), v);
    GramPositiveSemidefinite(X);
    assert 0.0 <= Quad(Gram(X), v);
    ScaledIdentitySign(sigSq, v);
  }

  /**
   X^T X + sig_sq I, the matrix `compute_inverse` inverts, is positive
   semidefinite for sig_sq >= 0 and positive definite for sig_sq > 0.
   */
  lemma RidgeGramDefinite(X: Matrix, sigSq: real)
    ensures 0.0 <= sigSq ==> PositiveSemidefinite(RidgeGram(X, sigSq))
    ensures 0.0 < sigSq ==> PositiveDefinite(RidgeGram(X, sigSq))
  {
    forall v | |v| == X.cols
      ensures 0.0 <= sigSq ==> 0.0 <= Quad(RidgeGram(X, sigSq), v)
      ensures 0.0 < sigSq && !IsZero(v) ==> 0.0 < Quad(RidgeGram(X, sigSq), v)
    {
      QuadRidgeGramSign(X, sigSq, v);
    }
  }

  /**
   With H_inv positive semidefinite, I + X H_inv X^T is positive definite: its
   form at v is |v|^2 plus the form of H_inv at X^T v.
   */
  lemma CapacitancePositiveDefinite(X: Matrix, hInv: Matrix)
    requires PositiveSemidefinite(hInv) && hInv.rows == X.cols
    ensures PositiveDefinite(CapacitanceMatrix(X, hInv))
  {
    var m := X.rows;
    var P := MatMul(X, MatMul(hInv, Transpose(X)));
    forall v | |v| == m && !IsZero(v)
      ensures 0.0 < Quad(CapacitanceMatrix(X, hInv), v)
    {
      QuadAdd(Identity(m), P, v);
      MatVecIdentity(v);
      QuadCongruence(X, hInv, v);
      DotSelfPositive(v);
    }
  }

  /** A positive definite matrix maps no nonzero vector to zero. */
  lemma PositiveDefiniteInjective(A: Matrix, v: Vector)
    requires PositiveDefinite(A) && |v| == A.rows
    ensures IsZero(MatVec(A, v)) ==> IsZero(v)
  {
    if IsZero(MatVec(A, v)) {
      DotComm(v, MatVec(A, v));
      DotZeroLeft(MatVec(A, v), v);
      assert Quad(A, v) == 0.0;
    }
  }

  /**
   The matrix the update inverts is nonsingular: with H_inv positive
   semidefinite, M0 v = 0 only for v = 0.
   */
  lemma CapacitanceNonsingular(X: Matrix, hInv: Matrix, v: Vector)
    requires PositiveSemidefinite(hInv) && hInv.rows == X.cols && |v| == X.rows
    ensures IsZero(MatVec(CapacitanceMatrix(X, hInv), v)) ==> IsZero(v)
  {
    CapacitancePositiveDefinite(X, hInv);
    PositiveDefiniteInjective(CapacitanceMatrix(X, hInv), v);
  }

  /**
   For sig_sq > 0, the matrix `compute_inverse` hands to the inversion is
   nonsingular, whatever the batch: (X^T X + sig_sq I) v = 0 only for v = 0.
   */
  lemma RidgeGramNonsingular(X: Matrix, sigSq: real, v: Vector)
    requires 0.0 < sigSq && |v| == X.cols
    ensures IsZero(MatVec(RidgeGram(X, sigSq), v)) ==> IsZero(v)
  {
    RidgeGramDefinite(X, sigSq);
    PositiveDefiniteInjective(RidgeGram(X, sigSq), v);
  }

  /** A left inverse of a symmetric positive semidefinite matrix is positive semidefinite. */
  lemma InversePositiveSemidefinite(W: Matrix, A: Matrix)
    requires IsSymmetric(A) && PositiveSemidefinite(A) && IsLeftInverse(W, A)
    ensures PositiveSemidefinite(W)
  {
    var n := A.rows;
    LeftInverseOfSymmetric(W, A);
    forall v | |v| == n
      ensures 0.0 <= Quad(W, v)
    {
      // u = W v is mapped back onto v by A, so v^T W v = (A u)^T u = u^T A u.
      var u := MatVec(W, v);
      MatVecMatMul(A, W, v);
      MatVecIdentity(v);
      assert MatVec(A, u) == v;
      DotComm(v, u);
      assert 0.0 <= Quad(A, u);
    }
  }

  /** A left inverse of a symmetric positive definite matrix is positive definite. */
  lemma InversePositiveDefinite(W: Matrix, A: Matrix)
    requires IsSymmetric(A) && PositiveDefinite(A) && IsLeftInverse(W, A)
    ensures PositiveDefinite(W)
  {
    var n := A.rows;
    LeftInverseOfSymmetric(W, A);
    forall v | |v| == n && !IsZero(v)
      ensures 0.0 < Quad(W, v)
    {
      // u = W v is mapped back onto v by A, so u is nonzero and v^T W v = u^T A u.
      var u := MatVec(W, v);
      MatVecMatMul(A, W, v);
      MatVecIdentity(v);
      assert MatVec(A, u) == v;
      MatVecZero(A, u);
      DotComm(v, u);
      assert 0.0 < Quad(A, u);
    }
  }

  /**
   The update keeps the covariance positive semidefinite: with H_inv a
   symmetric positive semidefinite left inverse of H, the new H_inv is too.
   */
  lemma WoodburyPreservesPositiveSemidefinite(X: Matrix, hInv: Matrix, H: Matrix, mInv: Matrix)
    requires IsSymmetric(hInv) && PositiveSemidefinite(hInv) && hInv.rows == X.cols
    requires IsLeftInverse(hInv, H)
    requires IsLeftInverse(mInv, CapacitanceMatrix(X, hInv))
    ensures PositiveSemidefinite(WoodburyUpdate(X, hInv, mInv))
  {
    var A := Add(H, Gram(X));
    // H is the inverse of H_inv, so it is symmetric and positive semidefinite.
    InvertedBySymmetric(hInv, H);
    LeftInverseOfSymmetric(hInv, H);
    InversePositiveSemidefinite(H, hInv);
    GramPositiveSemidefinite(X);
    forall v | |v| == X.cols
      ensures 0.0 <= Quad(A, v)
    {
      QuadAdd(H, Gram(X), v);
    }
    GramSymmetric(X);
    AddSymmetric(H, Gram(X));
    WoodburyInverts(X, hInv, H, mInv);
    InversePositiveSemidefinite(WoodburyUpdate(X, hInv, mInv), A);
  }

  /**
   The update keeps the covariance positive definite: with H_inv a symmetric
   positive definite left inverse of H, the new H_inv is too.
   */
  lemma WoodburyPreservesPositiveDefinite(X: Matrix, hInv: Matrix, H: Matrix, mInv: Matrix)
    requires IsSymmetric(hInv) && PositiveDefinite(hInv) && hInv.rows == X.cols
    requires IsLeftInverse(hInv, H)
    requires IsLeftInverse(mInv, CapacitanceMatrix(X, hInv))
    ensures PositiveDefinite(WoodburyUpdate(X, hInv, mInv))
  {
    var A := Add(H, Gram(X));
    // H is the inverse of H_inv, so it is symmetric and positive definite.
    InvertedBySymmetric(hInv, H);
    LeftInverseOfSymmetric(hInv, H);
    InversePositiveDefinite(H, hInv);
    GramPositiveSemidefinite(X);
    forall v | |v| == X.cols && !IsZero(v)
      ensures 0.0 < Quad(A, v)
    {
      QuadAdd(H, Gram(X), v);
      assert 0.0 < Quad(H, v) && 0.0 <= Quad(Gram(X), v);
    }
    GramSymmetric(X);
    AddSymmetric(H, Gram(X));
    WoodburyInverts(X, hInv, H, mInv);
    InversePositiveDefinite(WoodburyUpdate(X, hInv, mInv), A);
  }

  /** Every capacitance matrix the stream hands to the inversion is positive definite. */
  ghost predicate CapacitancesPositiveDefinite(hInv: Matrix, xs: seq<Matrix>, ms: seq<Matrix>)
    requires IsSquare(hInv) && StreamShapes(hInv.rows, xs, ms)
    decreases |xs|
  {
    |xs| > 0 ==>
      PositiveDefinite(CapacitanceMatrix(xs[0], hInv)) &&
      CapacitancesPositiveDefinite(WoodburyUpdate(xs[0], hInv, ms[0]), xs[1..], ms[1..])
  }

  /**
   From a symmetric positive semidefinite H_inv, the covariance after any
   stream of updates is positive semidefinite, and every capacitance matrix the
   stream inverts is positive definite.
   */
  lemma {:induction false} WoodburyFoldPositiveSemidefinite(
    hInv: Matrix, H: Matrix, xs: seq<Matrix>, ms: seq<Matrix>)
    requires IsSymmetric(hInv) && PositiveSemidefinite(hInv) && IsLeftInverse(hInv, H)
    requires StreamShapes(hInv.rows, xs, ms) && InversionsValid(hInv, xs, ms)
    ensures PositiveSemidefinite(WoodburyFold(hInv, xs, ms))
    ensures CapacitancesPositiveDefinite(hInv, xs, ms)
    decreases |xs|
  {
    if |xs| > 0 {
      var h1 := WoodburyUpdate(xs[0], hInv, ms[0]);
      CapacitancePositiveDefinite(xs[0], hInv);
      WoodburyPreservesPositiveSemidefinite(xs[0], hInv, H, ms[0]);
      WoodburyInverts(xs[0], hInv, H, ms[0]);
      WoodburyPreservesSymmetry(xs[0], hInv, ms[0]);
      StreamShapesTail(hInv.rows, xs, ms);
      WoodburyFoldPositiveSemidefinite(h1, Add(H, Gram(xs[0])), xs[1..], ms[1..]);
    }
  }

  /** From a symmetric positive definite H_inv, the covariance after any stream of updates is positive definite. */
  lemma {:induction false} WoodburyFoldPositiveDefinite(
    hInv: Matrix, H: Matrix, xs: seq<Matrix>, ms: seq<Matrix>)
    requires IsSymmetric(hInv) && PositiveDefinite(hInv) && IsLeftInverse(hInv, H)
    requires StreamShapes(hInv.rows, xs, ms) && InversionsValid(hInv, xs, ms)
    ensures PositiveDefinite(WoodburyFold(hInv, xs, ms))
    decreases |xs|
  {
    if |xs| > 0 {
      var h1 := WoodburyUpdate(xs[0], hInv, ms[0]);
      WoodburyPreservesPositiveDefinite(xs[0], hInv, H, ms[0]);
      WoodburyInverts(xs[0], hInv, H, ms[0]);
      WoodburyPreservesSymmetry(xs[0], hInv, ms[0]);
      StreamShapesTail(hInv.rows, xs, ms);
      WoodburyFoldPositiveDefinite(h1, Add(H, Gram(xs[0])), xs[1..], ms[1..]);
    }
  }

  /** What `compute_inverse` returns for sig_sq >= 0 is symmetric positive semidefinite. */
  lemma ComputeInversePositiveSemidefinite(X: Matrix, sigSq: real, R: Matrix)
    requires 0.0 <= sigSq && IsLeftInverse(R, RidgeGram(X, sigSq))
    ensures IsSymmetric(R) && PositiveSemidefinite(R)
  {
    RidgeGramSymmetric(X, sigSq);
    RidgeGramDefinite(X, sigSq);
    LeftInverseOfSymmetric(R, RidgeGram(X, sigSq));
    InversePositiveSemidefinite(R, RidgeGram(X, sigSq));
  }

  /** What `compute_inverse` returns for sig_sq > 0 is symmetric positive definite. */
  lemma ComputeInversePositiveDefinite(X: Matrix, sigSq: real, R: Matrix)
    requires 0.0 < sigSq && IsLeftInverse(R, RidgeGram(X, sigSq))
    ensures IsSymmetric(R) && PositiveDefinite(R)
  {
    RidgeGramSymmetric(X, sigSq);
    RidgeGramDefinite(X, sigSq);
    LeftInverseOfSymmetric(R, RidgeGram(X, sigSq));
    InversePositiveDefinite(R, RidgeGram(X, sigSq));
  }

  /**
   Starting the stream from `compute_inverse` with sig_sq >= 0, every
   capacitance matrix along the stream is positive definite and the covariance
   stays positive semidefinite.
   */
  lemma {:induction false} StreamFromComputeInverseSemidefinite(
    X0: Matrix, sigSq: real, h0: Matrix, xs: seq<Matrix>, ms: seq<Matrix>)
    requires 0.0 <= sigSq && IsLeftInverse(h0, RidgeGram(X0, sigSq))
    requires StreamShapes(X0.cols, xs, ms) && InversionsValid(h0, xs, ms)
    ensures CapacitancesPositiveDefinite(h0, xs, ms)
    ensures PositiveSemidefinite(WoodburyFold(h0, xs, ms))
  {
    ComputeInversePositiveSemidefinite(X0, sigSq, h0);
    WoodburyFoldPositiveSemidefinite(h0, RidgeGram(X0, sigSq), xs, ms);
  }

  /**
   Starting the stream from `compute_inverse` with sig_sq > 0, the covariance
   after any stream of updates is positive definite.
   */
  lemma {:induction false} StreamFromComputeInversePositiveDefinite(
    X0: Matrix, sigSq: real, h0: Matrix, xs: seq<Matrix>, ms: seq<Matrix>)
    requires 0.0 < sigSq && IsLeftInverse(h0, RidgeGram(X0, sigSq))
    requires StreamShapes(X0.cols, xs, ms) && InversionsValid(h0, xs, ms)
    ensures PositiveDefinite(WoodburyFold(h0, xs, ms))
  {
    ComputeInversePositiveDefinite(X0, sigSq, h0);
    WoodburyFoldPositiveDefinite(h0, RidgeGram(X0, sigSq), xs, ms);
  }

  /**
   The next inversion of a stream started from `compute_inverse` with
   sig_sq >= 0 is handed a positive definite, hence nonsingular, matrix when
   only the inversions before it are taken to have succeeded.
   */
  lemma {:induction false} NextCapacitancePositiveDefinite(
    X0: Matrix, sigSq: real, h0: Matrix, xs: seq<Matrix>, ms: seq<Matrix>, next: Matrix)
    requires 0.0 <= sigSq && IsLeftInverse(h0, RidgeGram(X0, sigSq))
    requires StreamShapes(X0.cols, xs, ms) && InversionsValid(h0, xs, ms)
    requires next.cols == X0.cols
    ensures PositiveDefinite(CapacitanceMatrix(next, WoodburyFold(h0, xs, ms)))
  {
    StreamFromComputeInverseSemidefinite(X0, sigSq, h0, xs, ms);
    CapacitancePositiveDefinite(next, WoodburyFold(h0, xs, ms));
  }

  /** The same next inversion maps only the zero vector to zero. */
  lemma NextCapacitanceNonsingular(
    X0: Matrix, sigSq: real, h0: Matrix, xs: seq<Matrix>, ms: seq<Matrix>, next: Matrix, v: Vector)
    requires 0.0 <= sigSq && IsLeftInverse(h0, RidgeGram(X0, sigSq))
    requires StreamShapes(X0.cols, xs, ms) && InversionsValid(h0, xs, ms)
    requires next.cols == X0.cols && |v| == next.rows
    ensures IsZero(MatVec(CapacitanceMatrix(next, WoodburyFold(h0, xs, ms)), v)) ==> IsZero(v)
  {
    NextCapacitancePositiveDefinite(X0, sigSq, h0, xs, ms, next);
    PositiveDefiniteInjective(CapacitanceMatrix(next, WoodburyFold(h0, xs, ms)), v);
  }
}
