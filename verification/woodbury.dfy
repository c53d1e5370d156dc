/**
 The posterior covariance of the random-feature regression: the one-shot ridge
 inverse `compute_inverse` and the minibatch update `minibatch_woodbury_update`,
 which folds a batch X into the running covariance H_inv without re-inverting
 the K x K precision matrix.

 Both source functions call a foreign matrix inversion. Its result is a
 parameter here, and the lemmas take as hypothesis that it is a left inverse
 of the matrix handed to the inversion.
 */
module Woodbury {
  import opened Vectors
  import opened Matrices

  /** X^T X, the Gram matrix of a batch of feature rows. */
  function Gram(X: Matrix): (G: Matrix)
    ensures G.rows == X.cols && G.cols == X.cols
  {
    MatMul(Transpose(X), X)
  }

  /** The matrix `compute_inverse` hands to the inversion: X^T X + sig_sq I. */
  function RidgeGram(X: Matrix, sigSq: real): (A: Matrix)
    ensures A.rows == X.cols && A.cols == X.cols
  {
    Add(Gram(X), Scale(sigSq, Identity(X.cols)))
  }

  /** The M x M matrix the update inverts: I + X H_inv X^T. */
  function CapacitanceMatrix(X: Matrix, hInv: Matrix): (M0: Matrix)
    requires hInv.rows == X.cols && hInv.cols == X.cols
    ensures M0.rows == X.rows && M0.cols == X.rows
  {
    Add(Identity(X.rows), MatMul(X, MatMul(hInv, Transpose(X))))
  }

  /**
   The updated covariance H_inv - B^T (M B) with B = X H_inv, where `mInv` is
   what the inversion returned for `CapacitanceMatrix(X, hInv)`.
   */
  function WoodburyUpdate(X: Matrix, hInv: Matrix, mInv: Matrix): (hNew: Matrix)
    requires hInv.rows == X.cols && hInv.cols == X.cols
    requires mInv.rows == X.rows && mInv.cols == X.rows
    ensures hNew.rows == X.cols && hNew.cols == X.cols
  {
    var B := MatMul(X, hInv);
    Sub(hInv, MatMul(Transpose(B), MatMul(mInv, B)))
  }

  /** X^T X + sig_sq I is symmetric for every batch and every ridge coefficient. */
  lemma RidgeGramSymmetric(X: Matrix, sigSq: real)
    ensures IsSymmetric(RidgeGram(X, sigSq))
  {
    GramSymmetric(X);
    IdentitySymmetric(X.cols);
    ScaleSymmetric(sigSq, Identity(X.cols));
    AddSymmetric(Gram(X), Scale(sigSq, Identity(X.cols)));
  }

  /**
   Whatever the inversion returns for X^T X + sig_sq I, if it is a left inverse
   it is symmetric, it is also a right inverse, and it is the only left inverse.
   */
  lemma ComputeInverseCharacterized(X: Matrix, sigSq: real, R: Matrix, R': Matrix)
    requires IsLeftInverse(R, RidgeGram(X, sigSq))
    ensures IsSymmetric(R)
    ensures MatMul(RidgeGram(X, sigSq), R) == Identity(X.cols)
    ensures IsLeftInverse(R', RidgeGram(X, sigSq)) ==> R' == R
  {
    RidgeGramSymmetric(X, sigSq);
    LeftInverseOfSymmetric(R, RidgeGram(X, sigSq));
    if IsLeftInverse(R', RidgeGram(X, sigSq)) {
      LeftInverseUnique(R', R, RidgeGram(X, sigSq));
    }
  }

  /** With H_inv symmetric, the capacitance matrix I + X H_inv X^T is symmetric. */
  lemma CapacitanceSymmetric(X: Matrix, hInv: Matrix)
    requires IsSymmetric(hInv) && hInv.rows == X.cols
    ensures IsSymmetric(CapacitanceMatrix(X, hInv))
  {
    var m, Xt := X.rows, Transpose(X);
    var P := MatMul(X, MatMul(hInv, Xt));
    SymmetricIffSelfTranspose(hInv);
    calc {
      Transpose(P);
      { TransposeMatMul(X, MatMul(hInv, Xt)); }
      MatMul(Transpose(MatMul(hInv, Xt)), Xt);
      { TransposeMatMul(hInv, Xt); TransposeTranspose(X); }
      MatMul(MatMul(X, hInv), Xt);
      { MatMulAssoc(X, hInv, Xt); }
      P;
    }
    TransposeAdd(Identity(m), P);
    TransposeIdentity(m);
    SymmetricIffSelfTranspose(CapacitanceMatrix(X, hInv));
  }

  /** (X H_inv)(H + X^T X) = (I + X H_inv X^T) X, once H_inv H = I. */
  lemma WoodburyPushThrough(X: Matrix, hInv: Matrix, H: Matrix)
    requires hInv.rows == X.cols && IsLeftInverse(hInv, H)
    ensures MatMul(MatMul(X, hInv), Add(H, Gram(X))) == MatMul(CapacitanceMatrix(X, hInv), X)
  {
    var k, m, Xt := X.cols, X.rows, Transpose(X);
    var HG := MatMul(hInv, Gram(X));
    calc {
      MatMul(MatMul(X, hInv), Add(H, Gram(X)));
      { MatMulAssoc(X, hInv, Add(H, Gram(X))); }
      MatMul(X, MatMul(hInv, Add(H, Gram(X))));
      { MatMulAddLeft(hInv, H, Gram(X)); }
      MatMul(X, Add(Identity(k), HG));
      { MatMulAddLeft(X, Identity(k), HG); MatMulIdentityRight(X); }
      Add(X, MatMul(X, HG));
    }
    calc {
      MatMul(CapacitanceMatrix(X, hInv), X);
      { MatMulAddRight(Identity(m), MatMul(X, MatMul(hInv, Xt)), X); MatMulIdentityLeft(X); }
      Add(X, MatMul(MatMul(X, MatMul(hInv, Xt)), X));
      { MatMulAssoc(X, MatMul(hInv, Xt), X); }
      Add(X, MatMul(X, MatMul(MatMul(hInv, Xt), X)));
      { MatMulAssoc(hInv, Xt, X); }
      Add(X, MatMul(X, HG));
    }
  }

  /**
   What the update computes for any left inverse H_inv of H, symmetric or not:
   H_new (H + X^T X) = I + (H_inv - H_inv^T) X^T X. The code forms B^T from
   X H_inv, which is H_inv X^T only when H_inv is symmetric.
   */
  lemma WoodburyResidual(X: Matrix, hInv: Matrix, H: Matrix, mInv: Matrix)
    requires hInv.rows == X.cols && IsLeftInverse(hInv, H)
    requires IsLeftInverse(mInv, CapacitanceMatrix(X, hInv))
    ensures MatMul(WoodburyUpdate(X, hInv, mInv), Add(H, Gram(X)))
         == Add(Identity(X.cols), MatMul(Sub(hInv, Transpose(hInv)), Gram(X)))
  {
    var k, Xt := X.cols, Transpose(X);
    var A := Add(H, Gram(X));
    var B := MatMul(X, hInv);
    var MB := MatMul(mInv, B);
    var HG := MatMul(hInv, Gram(X));
    var TG := MatMul(Transpose(hInv), Gram(X));
    // The correction term applied to H + X^T X leaves H_inv^T X^T X.
    calc {
      MatMul(MatMul(Transpose(B), MB), A);
      { MatMulAssoc(Transpose(B), MB, A); }
      MatMul(Transpose(B), MatMul(MB, A));
      { MatMulAssoc(mInv, B, A); }
      MatMul(Transpose(B), MatMul(mInv, MatMul(B, A)));
      { WoodburyPushThrough(X, hInv, H); }
      MatMul(Transpose(B), MatMul(mInv, MatMul(CapacitanceMatrix(X, hInv), X)));
      { MatMulAssoc(mInv, CapacitanceMatrix(X, hInv), X); MatMulIdentityLeft(X); }
      MatMul(Transpose(B), X);
      { TransposeMatMul(X, hInv); }
      MatMul(MatMul(Transpose(hInv), Xt), X);
      { MatMulAssoc(Transpose(hInv), Xt, X); }
      TG;
    }
    calc {
      MatMul(WoodburyUpdate(X, hInv, mInv), A);
      { MatMulSubRight(hInv, MatMul(Transpose(B), MB), A); }
      Sub(MatMul(hInv, A), MatMul(MatMul(Transpose(B), MB), A));
      Sub(MatMul(hInv, A), TG);
      { MatMulAddLeft(hInv, H, Gram(X)); }
      Sub(Add(Identity(k), HG), TG);
      { AddSubAssoc(Identity(k), HG, TG); }
      Add(Identity(k), Sub(HG, TG));
      { MatMulSubRight(hInv, Transpose(hInv), Gram(X)); }
      Add(Identity(k), MatMul(Sub(hInv, Transpose(hInv)), Gram(X)));
    }
  }

  /**
   The symmetry hypothesis of `WoodburyInverts` cannot be dropped: with the
   non-symmetric left inverse H_inv = [[1, 1], [0, 1]] of H = [[1, -1], [0, 1]],
   the batch X = [[1, 0]] and the exact inverse [[1/2]] of I + X H_inv X^T, the
   update does not invert H + X^T X (entry (1, 0) of the product is -1).
   */
  lemma WoodburyNeedsSymmetry()
    ensures var hInv, H := Mat(2, 2, [[1.0, 1.0], [0.0, 1.0]]), Mat(2, 2, [[1.0, -1.0], [0.0, 1.0]]);
      var X, mInv := Mat(1, 2, [[1.0, 0.0]]), Mat(1, 1, [[0.5]]);
      && IsLeftInverse(hInv, H)
      && IsLeftInverse(mInv, CapacitanceMatrix(X, hInv))
      && !IsLeftInverse(WoodburyUpdate(X, hInv, mInv), Add(H, Gram(X)))
  {
    var hInv, H := Mat(2, 2, [[1.0, 1.0], [0.0, 1.0]]), Mat(2, 2, [[1.0, -1.0], [0.0, 1.0]]);
    var X, mInv := Mat(1, 2, [[1.0, 0.0]]), Mat(1, 1, [[0.5]]);
    // H_inv H = I
    var P := MatMul(hInv, H);
    forall i, j | 0 <= i < 2 && 0 <= j < 2
      ensures P.e[i][j] == Identity(2).e[i][j]
    {
      DotPair(hInv.e[i], Col(H, j));
    }
    Ext(P, Identity(2));
    // I + X H_inv X^T = [[2]]
    var Xt := Transpose(X);
    var Q := MatMul(hInv, Xt);
    forall i | 0 <= i < 2
      ensures Q.e[i][0] == if i == 0 then 1.0 else 0.0
    {
      DotPair(hInv.e[i], Col(Xt, 0));
    }
    var XQ := MatMul(X, Q);
    DotPair(X.e[0], Col(Q, 0));
    assert XQ.e[0][0] == 1.0;
    var C := CapacitanceMatrix(X, hInv);
    assert C.e[0][0] == 2.0;
    var MC := MatMul(mInv, C);
    DotSingle(mInv.e[0], Col(C, 0));
    Ext(MC, Identity(1));
    // entry (1, 0) of the residual is -1
    var G := Gram(X);
    forall i, j | 0 <= i < 2 && 0 <= j < 2
      ensures G.e[i][j] == if i == 0 && j == 0 then 1.0 else 0.0
    {
      DotSingle(Xt.e[i], Col(X, j));
    }
    var D := Sub(hInv, Transpose(hInv));
    var DG := MatMul(D, G);
    DotPair(D.e[1], Col(G, 0));
    assert DG.e[1][0] == -1.0;
    WoodburyResidual(X, hInv, H, mInv);
    var R := Add(Identity(2), DG);
    assert R.e[1][0] == -1.0;
    assert Identity(2).e[1][0] == 0.0;
  }

  /**
   The Woodbury identity of the update's docstring: if H_inv is a symmetric left
   inverse of H and the inversion returned a left inverse of I + X H_inv X^T,
   then the update returns a left inverse of H + X^T X.
   */
  lemma WoodburyInverts(X: Matrix, hInv: Matrix, H: Matrix, mInv: Matrix)
    requires IsSymmetric(hInv) && hInv.rows == X.cols && IsLeftInverse(hInv, H)
    requires IsLeftInverse(mInv, CapacitanceMatrix(X, hInv))
    ensures IsLeftInverse(WoodburyUpdate(X, hInv, mInv), Add(H, Gram(X)))
  {
    var k := X.cols;
    WoodburyResidual(X, hInv, H, mInv);
    SymmetricIffSelfTranspose(hInv);
    SubSelfZero(hInv);
    ZerosMatMul(k, Gram(X));
    AddZeros(Identity(k));
  }

  /** With H_inv symmetric, whatever left inverse the inversion returns for M0 is symmetric. */
  lemma CapacitanceInverseSymmetric(X: Matrix, hInv: Matrix, mInv: Matrix)
    requires IsSymmetric(hInv) && hInv.rows == X.cols
    requires IsLeftInverse(mInv, CapacitanceMatrix(X, hInv))
    ensures IsSymmetric(mInv)
  {
    CapacitanceSymmetric(X, hInv);
    LeftInverseOfSymmetric(mInv, CapacitanceMatrix(X, hInv));
  }

  /**
   The update keeps the covariance symmetric: with H_inv symmetric and a left
   inverse of the capacitance matrix, the new H_inv is symmetric too.
   */
  lemma WoodburyPreservesSymmetry(X: Matrix, hInv: Matrix, mInv: Matrix)
    requires IsSymmetric(hInv) && hInv.rows == X.cols
    requires IsLeftInverse(mInv, CapacitanceMatrix(X, hInv))
    ensures IsSymmetric(WoodburyUpdate(X, hInv, mInv))
  {
    CapacitanceInverseSymmetric(X, hInv, mInv);
    SymmetricIffSelfTranspose(hInv);
    SymmetricIffSelfTranspose(mInv);
    var B := MatMul(X, hInv);
    var P := MatMul(Transpose(B), MatMul(mInv, B));
    calc {
      Transpose(P);
      { TransposeMatMul(Transpose(B), MatMul(mInv, B)); TransposeTranspose(B); }
      MatMul(Transpose(MatMul(mInv, B)), B);
      { TransposeMatMul(mInv, B); }
      MatMul(MatMul(Transpose(B), mInv), B);
      { MatMulAssoc(Transpose(B), mInv, B); }
      P;
    }
    TransposeSub(hInv, P);
    SymmetricIffSelfTranspose(WoodburyUpdate(X, hInv, mInv));
  }

  /** H + X1^T X1 + X2^T X2 over two batches equals one Gram over their stacked rows. */
  lemma GramStacked(H: Matrix, X1: Matrix, X2: Matrix)
    requires X1.cols == X2.cols && H.rows == X1.cols && H.cols == X1.cols
    ensures Add(Add(H, Gram(X1)), Gram(X2)) == Add(H, Gram(VStack(X1, X2)))
  {
    StackedCrossProduct(X1, X2, X1, X2);
    AddAssoc(H, Gram(X1), Gram(X2));
  }

  /** The ridge Gram of the first batch plus the Gram of the next is the ridge Gram of both. */
  lemma RidgeGramStacked(X0: Matrix, X1: Matrix, sigSq: real)
    requires X0.cols == X1.cols
    ensures Add(RidgeGram(X0, sigSq), Gram(X1)) == RidgeGram(VStack(X0, X1), sigSq)
  {
    StackedCrossProduct(X0, X1, X0, X1);
    Ext(Add(RidgeGram(X0, sigSq), Gram(X1)), RidgeGram(VStack(X0, X1), sigSq));
  }

  /**
   One update on the prior fit from X0 gives exactly the closed-form inverse
   over X0 and X1 stacked: the reason the minibatch update may replace the
   one-shot inverse.
   */
  lemma WoodburyMatchesClosedForm(X0: Matrix, X1: Matrix, sigSq: real, h0: Matrix, mInv: Matrix, R: Matrix)
    requires X0.cols == X1.cols
    requires IsLeftInverse(h0, RidgeGram(X0, sigSq))
    requires IsLeftInverse(mInv, CapacitanceMatrix(X1, h0))
    requires IsLeftInverse(R, RidgeGram(VStack(X0, X1), sigSq))
    ensures WoodburyUpdate(X1, h0, mInv) == R
  {
    ComputeInverseCharacterized(X0, sigSq, h0, h0);
    WoodburyInverts(X1, h0, RidgeGram(X0, sigSq), mInv);
    RidgeGramStacked(X0, X1, sigSq);
    RidgeGramSymmetric(VStack(X0, X1), sigSq);
    LeftInverseUnique(WoodburyUpdate(X1, h0, mInv), R, RidgeGram(VStack(X0, X1), sigSq));
  }

  /**
   Two updates, one batch after the other, equal one update with both batches
   stacked, whatever left inverses the three inversions return.
   */
  lemma WoodburyTwoStepsEqualStacked(
    hInv: Matrix, H: Matrix, X1: Matrix, m1: Matrix, X2: Matrix, m2: Matrix, m12: Matrix)
    requires IsSymmetric(hInv) && IsLeftInverse(hInv, H)
    requires X1.cols == hInv.rows && X2.cols == hInv.rows
    requires IsLeftInverse(m1, CapacitanceMatrix(X1, hInv))
    requires IsLeftInverse(m2, CapacitanceMatrix(X2, WoodburyUpdate(X1, hInv, m1)))
    requires IsLeftInverse(m12, CapacitanceMatrix(VStack(X1, X2), hInv))
    ensures WoodburyUpdate(X2, WoodburyUpdate(X1, hInv, m1), m2) == WoodburyUpdate(VStack(X1, X2), hInv, m12)
  {
    var h1 := WoodburyUpdate(X1, hInv, m1);
    WoodburyInverts(X1, hInv, H, m1);
    WoodburyPreservesSymmetry(X1, hInv, m1);
    WoodburyInverts(X2, h1, Add(H, Gram(X1)), m2);
    WoodburyInverts(VStack(X1, X2), hInv, H, m12);
    GramStacked(H, X1, X2);
    var A := Add(H, Gram(VStack(X1, X2)));
    InvertedBySymmetric(hInv, H);
    GramSymmetric(VStack(X1, X2));
    AddSymmetric(H, Gram(VStack(X1, X2)));
    LeftInverseUnique(WoodburyUpdate(X2, h1, m2), WoodburyUpdate(VStack(X1, X2), hInv, m12), A);
  }

  /** Every batch of the stream has K columns, and each inversion result is square of that batch's size. */
  predicate StreamShapes(k: nat, xs: seq<Matrix>, ms: seq<Matrix>)
  {
    |xs| == |ms| &&
    forall i :: 0 <= i < |xs| ==> xs[i].cols == k && ms[i].rows == xs[i].rows && ms[i].cols == xs[i].rows
  }

  lemma StreamShapesTail(k: nat, xs: seq<Matrix>, ms: seq<Matrix>)
    requires StreamShapes(k, xs, ms) && |xs| > 0
    ensures StreamShapes(k, xs[1..], ms[1..])
  {
    forall i | 0 <= i < |xs| - 1
      ensures xs[1..][i].cols == k && ms[1..][i].rows == xs[1..][i].rows && ms[1..][i].cols == xs[1..][i].rows
    {
      assert xs[1..][i] == xs[i + 1] && ms[1..][i] == ms[i + 1];
    }
  }

  /** The caller's loop: thread H_inv through one update per batch, in order. */
  function WoodburyFold(hInv: Matrix, xs: seq<Matrix>, ms: seq<Matrix>): (h: Matrix)
    requires IsSquare(hInv) && StreamShapes(hInv.rows, xs, ms)
    ensures h.rows == hInv.rows && h.cols == hInv.cols
    decreases |xs|
  {
    if |xs| == 0 then hInv
    else WoodburyFold(WoodburyUpdate(xs[0], hInv, ms[0]), xs[1..], ms[1..])
  }

  /** Each inversion along the stream returned a left inverse of its capacitance matrix. */
  predicate InversionsValid(hInv: Matrix, xs: seq<Matrix>, ms: seq<Matrix>)
    requires IsSquare(hInv) && StreamShapes(hInv.rows, xs, ms)
    decreases |xs|
  {
    |xs| > 0 ==>
      IsLeftInverse(ms[0], CapacitanceMatrix(xs[0], hInv)) &&
      InversionsValid(WoodburyUpdate(xs[0], hInv, ms[0]), xs[1..], ms[1..])
  }

  /**
   Over a whole stream of batches, the threaded covariance stays symmetric and
   inverts H plus the Gram matrix of all rows seen so far.
   */
  lemma {:induction false} WoodburyFoldInverts(hInv: Matrix, H: Matrix, xs: seq<Matrix>, ms: seq<Matrix>)
    requires IsSymmetric(hInv) && IsLeftInverse(hInv, H)
    requires StreamShapes(hInv.rows, xs, ms) && InversionsValid(hInv, xs, ms)
    ensures IsSymmetric(WoodburyFold(hInv, xs, ms))
    ensures IsLeftInverse(WoodburyFold(hInv, xs, ms), Add(H, Gram(StackRows(xs, hInv.rows))))
    decreases |xs|
  {
    var k := hInv.rows;
    if |xs| == 0 {
      EmptyCrossProduct(StackRows(xs, k), StackRows(xs, k));
      AddZeros(H);
    } else {
      var h1 := WoodburyUpdate(xs[0], hInv, ms[0]);
      WoodburyInverts(xs[0], hInv, H, ms[0]);
      WoodburyPreservesSymmetry(xs[0], hInv, ms[0]);
      WoodburyFoldInverts(h1, Add(H, Gram(xs[0])), xs[1..], ms[1..]);
      GramStacked(H, xs[0], StackRows(xs[1..], k));
    }
  }

  /**
   Starting from the closed-form inverse over X0 and folding in a stream of
   batches gives exactly the closed-form inverse over X0 and every batch stacked.
   */
  lemma WoodburyStreamMatchesClosedForm(
    X0: Matrix, sigSq: real, h0: Matrix, xs: seq<Matrix>, ms: seq<Matrix>, R: Matrix)
    requires IsLeftInverse(h0, RidgeGram(X0, sigSq))
    requires StreamShapes(X0.cols, xs, ms) && InversionsValid(h0, xs, ms)
    requires IsLeftInverse(R, RidgeGram(VStack(X0, StackRows(xs, X0.cols)), sigSq))
    ensures WoodburyFold(h0, xs, ms) == R
  {
    var S := StackRows(xs, X0.cols);
    ComputeInverseCharacterized(X0, sigSq, h0, h0);
    WoodburyFoldInverts(h0, RidgeGram(X0, sigSq), xs, ms);
    RidgeGramStacked(X0, S, sigSq);
    RidgeGramSymmetric(VStack(X0, S), sigSq);
    LeftInverseUnique(WoodburyFold(h0, xs, ms), R, RidgeGram(VStack(X0, S), sigSq));
  }
}
