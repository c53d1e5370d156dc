/**
 The posterior predictive metrics: prediction interval coverage (PICP), mean
 prediction interval width (MPIW) and the mean squared error under the square
 root of RMSE. Each is a numpy mean over elementwise values, and numpy's mean
 of an empty array is NaN, which is kept here as its own value.
 */
module Metrics {
  import opened Vectors

  /** A float result: a number, or the NaN numpy returns for the mean of nothing. */
  datatype Value = NaN | Num(x: real)

  /** `np.mean`: the sum divided by the count. */
  function Mean(s: Vector): (m: Value)
    ensures m.NaN? <==> |s| == 0
  {
    if |s| == 0 then NaN else Num(Sum(s) / (|s| as real))
  }

  /** The target lies in the interval, both ends included. */
  predicate Covered(f: real, lb: real, ub: real)
  {
    lb <= f && f <= ub
  }

  /** `np.logical_and(f >= lb, f <= ub)` with True as 1.0 and False as 0.0. */
  function CoverageIndicators(f: Vector, lb: Vector, ub: Vector): (c: Vector)
    requires |f| == |lb| == |ub|
    ensures |c| == |f|
    ensures forall i :: 0 <= i < |c| ==> c[i] == 0.0 || c[i] == 1.0
  {
    seq(|f|, i requires 0 <= i < |f| => if Covered(f[i], lb[i], ub[i]) then 1.0 else 0.0)
  }

  /** The positions whose target the interval covers. */
  function CoveredIndices(f: Vector, lb: Vector, ub: Vector): set<nat>
    requires |f| == |lb| == |ub|
  {
    set i: nat | i < |f| && Covered(f[i], lb[i], ub[i])
  }

  /** Summing the indicators counts the covered positions, which are at most all of them. */
  lemma {:induction false} IndicatorSumCounts(f: Vector, lb: Vector, ub: Vector)
    requires |f| == |lb| == |ub|
    ensures Sum(CoverageIndicators(f, lb, ub)) == |CoveredIndices(f, lb, ub)| as real
    ensures |CoveredIndices(f, lb, ub)| <= |f|
  {
    var n := |f|;
    if n > 0 {
      var f', lb', ub' := f[..n - 1], lb[..n - 1], ub[..n - 1];
      IndicatorSumCounts(f', lb', ub');
      assert CoverageIndicators(f, lb, ub)[..n - 1] == CoverageIndicators(f', lb', ub');
      var S, S' := CoveredIndices(f, lb, ub), CoveredIndices(f', lb', ub');
      assert (n - 1) !in S';
      if Covered(f[n - 1], lb[n - 1], ub[n - 1]) {
        assert S == S' + {n - 1};
        assert |S| == |S'| + 1;
      } else {
        assert S == S';
      }
    } else {
      assert CoveredIndices(f, lb, ub) == {};
    }
  }

  /**
   `picp`: the fraction of positions with lb <= f <= ub, a number in [0, 1]
   (NaN for empty inputs).
   */
  function Picp(f: Vector, lb: Vector, ub: Vector): (r: Value)
    requires |f| == |lb| == |ub|
    ensures r.NaN? <==> |f| == 0
    ensures r.Num? ==> r.x == |CoveredIndices(f, lb, ub)| as real / |f| as real
    ensures r.Num? ==> 0.0 <= r.x <= 1.0
  {
    IndicatorSumCounts(f, lb, ub);
    Mean(CoverageIndicators(f, lb, ub))
  }

  lemma WidthsNonNegative(lb: Vector, ub: Vector)
    requires |lb| == |ub|
    ensures (forall i :: 0 <= i < |lb| ==> lb[i] <= ub[i]) ==> 0.0 <= Sum(VSub(ub, lb))
  {
    if forall i :: 0 <= i < |lb| ==> lb[i] <= ub[i] {
      SumNonNegative(VSub(ub, lb));
    }
  }

  /**
   `mpiw`: the mean of ub - lb, which is the mean of ub minus the mean of lb, and
   is non-negative when no interval is inverted (NaN for empty inputs).
   */
  function Mpiw(lb: Vector, ub: Vector): (r: Value)
    requires |lb| == |ub|
    ensures r.NaN? <==> |lb| == 0
    ensures r.Num? ==> r.x == Mean(ub).x - Mean(lb).x
    ensures r.Num? && (forall i :: 0 <= i < |lb| ==> lb[i] <= ub[i]) ==> 0.0 <= r.x
  {
    SumVSub(ub, lb);
    WidthsNonNegative(lb, ub);
    Mean(VSub(ub, lb))
  }

  /** The squared residuals `(f - f_pred) ** 2`. */
  function SquaredErrors(f: Vector, fPred: Vector): (s: Vector)
    requires |f| == |fPred|
    ensures |s| == |f|
  {
    seq(|f|, i requires 0 <= i < |f| => Sq(f[i] - fPred[i]))
  }

  /** The squared residuals sum to a non-negative number that is zero exactly when f = f_pred. */
  lemma SquaredErrorsSum(f: Vector, fPred: Vector)
    requires |f| == |fPred|
    ensures 0.0 <= Sum(SquaredErrors(f, fPred))
    ensures Sum(SquaredErrors(f, fPred)) == 0.0 <==> f == fPred
  {
    var s := SquaredErrors(f, fPred);
    forall i | 0 <= i < |f|
      ensures 0.0 <= s[i]
      ensures s[i] == 0.0 <==> f[i] == fPred[i]
    {
      SquareSign(f[i] - fPred[i]);
    }
    SumNonNegative(s);
    SumZeroIffAllZero(s);
    if forall i :: 0 <= i < |f| ==> s[i] == 0.0 {
      assert f == fPred;
    }
  }

  /**
   The mean squared error inside `rmse`: non-negative, and zero exactly when the
   predictions equal the targets (NaN for empty inputs).
   */
  function MeanSquaredError(f: Vector, fPred: Vector): (r: Value)
    requires |f| == |fPred|
    ensures r.NaN? <==> |f| == 0
    ensures r.Num? ==> 0.0 <= r.x
    ensures r.Num? ==> (r.x == 0.0 <==> f == fPred)
  {
    SquaredErrorsSum(f, fPred);
    Mean(SquaredErrors(f, fPred))
  }

  /** f = [1, 2, 3] inside [0, 2] at every point: the third is not covered, so 2/3. */
  lemma PicpExample()
    ensures Picp([1.0, 2.0, 3.0], [0.0, 0.0, 0.0], [2.0, 2.0, 2.0]) == Num(2.0 / 3.0)
  {
    var f, lb, ub := [1.0, 2.0, 3.0], [0.0, 0.0, 0.0], [2.0, 2.0, 2.0];
    assert CoveredIndices(f, lb, ub) == {0, 1} by {
      assert forall i: nat :: i in CoveredIndices(f, lb, ub) <==> i == 0 || i == 1;
    }
  }

  /** Intervals [0, 2] and [1, 3] have mean width 2. */
  lemma MpiwExample()
    ensures Mpiw([0.0, 1.0], [2.0, 3.0]) == Num(2.0)
  {
  }

  /** Predicting 1 for two targets of 0 has mean squared error 1 (so RMSE 1). */
  lemma MeanSquaredErrorExample()
    ensures MeanSquaredError([0.0, 0.0], [1.0, 1.0]) == Num(1.0)
    ensures MeanSquaredError([1.0, 2.0, 3.0], [1.0, 2.0, 3.0]) == Num(0.0)
  {
    assert SquaredErrors([0.0, 0.0], [1.0, 1.0]) == [1.0, 1.0];
    assert [1.0, 1.0][..1] == [1.0];
    assert [1.0][..0] == [];
    assert Sum([1.0, 1.0]) == 2.0;
  }
}
