# Minibatch random-feature regression helpers, modelled in Dafny

This project models the numerical helpers in `code/exp/util.py`, which the
experiments use to fit a Bayesian linear regression on random Fourier features
one minibatch at a time:

- `split_into_batches` cuts the training rows into contiguous batches.
- `minibatch_interaction_update` adds one batch's cross term X^T Y to the
  running accumulator Phi_y.
- `minibatch_woodbury_update` folds one batch X into the posterior covariance
  H_inv using the Woodbury identity. This avoids re-inverting the K x K
  precision matrix.
- `compute_inverse` is the one-shot inverse (X^T X + sig_sq I)^-1 that the
  stream starts from.
- `picp`, `mpiw` and the mean squared error inside `rmse` score the posterior
  predictive intervals.

All arithmetic is exact (`real`). Matrices are `Matrices.Matrix`: a row count, a
column count, and a well-shaped `seq<seq<real>>`. Keeping the dimensions
explicit means empty batches keep their shapes. Each module follows one part of
the source:

| module | file | models |
|---|---|---|
| `Vectors` | vectors.dfy | sums and dot products |
| `Matrices` | matrices.dfy | `tf.matmul`/`np.matmul`, transpose, identity, row stacking, inverse facts |
| `Batches` | batches.dfy | `split_into_batches` |
| `CrossTerm` | cross_term.dfy | `minibatch_interaction_update` and a stream of such updates |
| `Woodbury` | woodbury.dfy | `minibatch_woodbury_update`, `compute_inverse` and a stream of updates |
| `Definiteness` | definiteness.dfy | why the matrices both functions invert are nonsingular, and why the covariance stays positive (semi)definite |
| `Metrics` | metrics.dfy | `picp`, `mpiw`, the mean squared error of `rmse` |

The two matrix inversions (`tf.matrix_inverse`, `np.linalg.inv`) are calls into
libraries. In the model, what they return is a parameter, and the lemmas assume
it is a left inverse (`Matrices.IsLeftInverse`) of the matrix passed in.

Some behaviour follows the code exactly:

- `split_into_batches` builds its batches with Python's `range(0, len(X), b)`.
  A batch size of 0 raises ValueError, modelled as `Batches.ZeroStep`.
- A negative batch size gives an empty range, so the result is `[]`, not an
  error.
- The numpy mean of an empty array is NaN. For empty inputs, the metrics
  return `Metrics.NaN` rather than a number.

The Woodbury update is exact for every batch only when H_inv is symmetric. The
code forms B^T as (X H_inv)^T, which is H_inv^T X^T rather than H_inv X^T.
`Woodbury.WoodburyResidual` gives the exact product for any H_inv: the update
is exact precisely when (H_inv - H_inv^T) X^T X = 0, which holds for an empty
batch whatever H_inv is. `Woodbury.WoodburyNeedsSymmetry` gives a 2 x 2
non-symmetric inverse and a one-row batch for which the update fails. A stream
started from `compute_inverse`, or from any symmetric H_inv, stays symmetric:
`compute_inverse` returns a symmetric matrix
(`Woodbury.ComputeInverseCharacterized`), and the update keeps it symmetric
(`Woodbury.WoodburyPreservesSymmetry`).

Once `compute_inverse` has returned, with sig_sq >= 0, each
`tf.matrix_inverse` call along the stream is handed a positive definite, hence
nonsingular, matrix in exact arithmetic, provided only that the calls before it
succeeded (`Definiteness.NextCapacitancePositiveDefinite`,
`Definiteness.NextCapacitanceNonsingular`). The covariance after any stream
stays positive semidefinite, so every capacitance matrix I + X H_inv X^T is
positive definite (`Definiteness.StreamFromComputeInverseSemidefinite`).
`compute_inverse` itself
can be handed a singular matrix when sig_sq = 0 (X = [[0]], say); for
sig_sq > 0, X^T X + sig_sq I is positive definite
(`Definiteness.RidgeGramNonsingular`), what it returns is positive definite, and
the covariance after any stream, so after every prefix of it, stays positive
definite
(`Definiteness.StreamFromComputeInversePositiveDefinite`).

## Model

| member | source | states |
|---|---|---|
| Batches.Chunks | code/exp/util.py:77 | the slices X[i:i + b] for i in range(0, len(X), b), at most len(X) of them and none exactly for an empty X; that they concatenate back to X is `Batches.ChunksFlatten`, their lengths `Batches.ChunksLengths`, and each slice's position `Batches.ChunkAt` |
| Batches.SplitIntoBatches | code/exp/util.py:76-77 | a zero batch size is the ValueError of `range` and nothing else is; a negative size or an empty X gives `[]`; for a positive size the batches concatenate back to X, all but the last have exactly b rows, the last has 1..b rows, and there are ceil(len(X)/b) of them |
| Batches.ChunksFlatten | code/exp/util.py:76-77 | concatenating the batches in order reproduces X |
| Batches.ChunksLengths | code/exp/util.py:76-77 | every batch but the last has b rows; the last has between 1 and b rows |
| Batches.ChunksCount | code/exp/util.py:76-77 | the number of batches n satisfies (n-1)·b < len(X) <= n·b, and is zero exactly for an empty X |
| Batches.ChunkAt | code/exp/util.py:77 | batch k is the Python slice X[k·b : k·b + b] clipped at len(X), and k·b < len(X) |
| Batches.SplitTenByThree | code/exp/util.py:76-77 | ten rows in batches of three give batches of 3, 3, 3 and 1 rows with the rows in order |
| CrossTerm.InteractionUpdate | code/exp/util.py:68-69 | Phi_y + X^T Y keeps the K x T shape of Phi_y; what it accumulates is stated by `CrossTerm.InteractionUpdateStacked` and `CrossTerm.InteractionUpdateCommutes` |
| CrossTerm.Accumulate | code/exp/util.py:68-69 | the caller's loop threading Phi_y through one update per batch keeps its shape; that it equals one update on all rows stacked is `CrossTerm.AccumulateIsOneStackedUpdate` |
| CrossTerm.InteractionUpdateStacked | code/exp/util.py:68-69 | updating with (X1, Y1) and then (X2, Y2) equals one update with X1 over X2 and Y1 over Y2 stacked |
| CrossTerm.InteractionUpdateCommutes | code/exp/util.py:68-69 | updating with two batches in either order gives the same Phi_y |
| CrossTerm.AccumulateIsOneStackedUpdate | code/exp/util.py:68-69 | threading Phi_y through a whole stream of batches equals one update on all their rows stacked in order |
| CrossTerm.AccumulateMoveToFront | code/exp/util.py:68-69 | moving one batch to the front of a stream leaves the accumulated Phi_y unchanged |
| CrossTerm.AccumulateOrderIndependent | code/exp/util.py:68-69 | any two streams holding the same batches (as a multiset) accumulate to the same Phi_y |
| Woodbury.RidgeGram | code/exp/util.py:73 | X^T X + sig_sq I is K x K; its symmetry is `Woodbury.RidgeGramSymmetric` and its definiteness `Definiteness.RidgeGramDefinite` |
| Woodbury.CapacitanceMatrix | code/exp/util.py:60 | M0 = I + X H_inv X^T is M x M; its symmetry is `Woodbury.CapacitanceSymmetric` and its definiteness `Definiteness.CapacitancePositiveDefinite` |
| Woodbury.WoodburyUpdate | code/exp/util.py:58-63 | H_new = H_inv - B^T (M B) with B = X H_inv is K x K; that it inverts H + X^T X is `Woodbury.WoodburyInverts` |
| Woodbury.WoodburyFold | code/exp/util.py:58-63 | the caller's loop threading H_inv through one update per batch keeps its K x K shape; what it computes is `Woodbury.WoodburyFoldInverts` and `Woodbury.WoodburyStreamMatchesClosedForm` |
| Woodbury.RidgeGramSymmetric | code/exp/util.py:73 | X^T X + sig_sq I is symmetric for every X and sig_sq |
| Woodbury.ComputeInverseCharacterized | code/exp/util.py:72-73 | a left inverse R of X^T X + sig_sq I is symmetric, is also a right inverse, and every other left inverse equals R |
| Woodbury.RidgeGramStacked | code/exp/util.py:73 | the ridge Gram matrix of X0 plus the Gram matrix of X1 is the ridge Gram matrix of X0 and X1 stacked |
| Woodbury.CapacitanceSymmetric | code/exp/util.py:60 | with H_inv symmetric, M0 = I + X H_inv X^T is symmetric |
| Woodbury.WoodburyPushThrough | code/exp/util.py:60-62 | (X H_inv)(H + X^T X) = M0 X whenever H_inv H = I |
| Woodbury.WoodburyResidual | code/exp/util.py:58-63 | for any left inverse H_inv of H and left inverse M of M0, H_new (H + X^T X) = I + (H_inv - H_inv^T) X^T X |
| Woodbury.WoodburyInverts | code/exp/util.py:48-63 | the identity of the docstring: with H_inv a symmetric left inverse of H and M a left inverse of M0, H_new is a left inverse of H + X^T X |
| Woodbury.WoodburyNeedsSymmetry | code/exp/util.py:60-63 | there is a non-symmetric 2 x 2 left inverse H_inv, a one-row X and the exact M for which H_new does not invert H + X^T X |
| Woodbury.CapacitanceInverseSymmetric | code/exp/util.py:60-61 | with H_inv symmetric, any left inverse M of M0 is symmetric |
| Woodbury.WoodburyPreservesSymmetry | code/exp/util.py:60-63 | with H_inv symmetric and M a left inverse of M0, H_new is symmetric |
| Woodbury.WoodburyMatchesClosedForm | code/exp/util.py:58-73 | one update of compute_inverse(X0) by X1 is exactly compute_inverse of X0 over X1 stacked |
| Woodbury.WoodburyTwoStepsEqualStacked | code/exp/util.py:58-63 | updating with X1 and then X2 equals one update with X1 over X2 stacked |
| Woodbury.WoodburyFoldInverts | code/exp/util.py:58-63 | threading H_inv through a stream of updates keeps it symmetric and a left inverse of H plus the Gram matrix of every row seen |
| Woodbury.WoodburyStreamMatchesClosedForm | code/exp/util.py:58-73 | starting from compute_inverse(X0) and updating with a stream of batches gives compute_inverse of X0 and all batches stacked |
| Definiteness.GramForm | code/exp/util.py:73 | the form of X^T X at v is the squared length of X v |
| Definiteness.GramPositiveSemidefinite | code/exp/util.py:73 | X^T X is positive semidefinite for every X |
| Definiteness.RidgeGramDefinite | code/exp/util.py:72-73 | X^T X + sig_sq I is positive semidefinite for sig_sq >= 0 and positive definite for sig_sq > 0 |
| Definiteness.RidgeGramNonsingular | code/exp/util.py:72-73 | for sig_sq > 0 (the default is 1), the matrix handed to `np.linalg.inv` maps only the zero vector to zero |
| Definiteness.ComputeInversePositiveSemidefinite | code/exp/util.py:72-73 | for sig_sq >= 0, what `compute_inverse` returns is symmetric positive semidefinite |
| Definiteness.ComputeInversePositiveDefinite | code/exp/util.py:72-73 | for sig_sq > 0, what `compute_inverse` returns is symmetric positive definite |
| Definiteness.InversePositiveDefinite | code/exp/util.py:61 | a left inverse of a symmetric positive definite matrix, as either inversion returns, is positive definite |
| Definiteness.CapacitancePositiveDefinite | code/exp/util.py:60 | with H_inv positive semidefinite, M0 = I + X H_inv X^T is positive definite |
| Definiteness.CapacitanceNonsingular | code/exp/util.py:60-61 | with H_inv positive semidefinite, the matrix handed to `tf.matrix_inverse` maps only the zero vector to zero |
| Definiteness.WoodburyPreservesPositiveSemidefinite | code/exp/util.py:58-63 | with H_inv a symmetric positive semidefinite left inverse of H, H_new is positive semidefinite |
| Definiteness.WoodburyPreservesPositiveDefinite | code/exp/util.py:58-63 | with H_inv a symmetric positive definite left inverse of H, H_new is positive definite |
| Definiteness.WoodburyFoldPositiveSemidefinite | code/exp/util.py:58-63 | from a symmetric positive semidefinite H_inv, the covariance after any stream of updates (so after every prefix) is positive semidefinite, and every M0 the stream inverts is positive definite |
| Definiteness.WoodburyFoldPositiveDefinite | code/exp/util.py:58-63 | from a symmetric positive definite H_inv, the covariance after any stream of updates (so after every prefix) is positive definite |
| Definiteness.StreamFromComputeInverseSemidefinite | code/exp/util.py:58-73 | starting from `compute_inverse` with sig_sq >= 0, every M0 the stream inverts is positive definite and the final covariance is positive semidefinite |
| Definiteness.NextCapacitancePositiveDefinite | code/exp/util.py:60-61 | after `compute_inverse` with sig_sq >= 0 and any stream of successful updates, the matrix handed to the next `tf.matrix_inverse` is positive definite |
| Definiteness.NextCapacitanceNonsingular | code/exp/util.py:60-61 | after `compute_inverse` with sig_sq >= 0 and any stream of successful updates, the matrix handed to the next `tf.matrix_inverse` maps only the zero vector to zero |
| Definiteness.StreamFromComputeInversePositiveDefinite | code/exp/util.py:58-73 | starting from `compute_inverse` with sig_sq > 0, the covariance after any stream of updates is positive definite |
| Metrics.Mean | code/exp/util.py:37 | numpy's mean is NaN exactly for an empty array |
| Metrics.CoverageIndicators | code/exp/util.py:32 | `np.logical_and(f >= lb, f <= ub)` read as numbers: one entry per position, each 0 or 1; their sum is `Metrics.IndicatorSumCounts` |
| Metrics.IndicatorSumCounts | code/exp/util.py:32 | the 0/1 coverage indicators sum to the number of covered positions, which is at most the length |
| Metrics.Picp | code/exp/util.py:30-32 | NaN exactly for empty input; otherwise the fraction of positions with lb <= f <= ub (both ends inclusive), a number in [0, 1] |
| Metrics.PicpExample | code/exp/util.py:30-32 | f = [1, 2, 3] with every interval [0, 2] gives 2/3 |
| Metrics.Mpiw | code/exp/util.py:35-37 | NaN exactly for empty input; otherwise the mean of ub minus the mean of lb, and non-negative when lb <= ub everywhere |
| Metrics.MpiwExample | code/exp/util.py:35-37 | intervals [0, 2] and [1, 3] have mean width 2 |
| Vectors.SquareSign | code/exp/util.py:27 | a squared residual is non-negative and is zero only for a zero residual |
| Metrics.SquaredErrors | code/exp/util.py:27 | `(f - f_pred) ** 2`, one entry per position; their sign and sum are `Vectors.SquareSign` and `Metrics.SquaredErrorsSum` |
| Metrics.SquaredErrorsSum | code/exp/util.py:27 | the squared residuals sum to a non-negative number that is zero exactly when f = f_pred |
| Metrics.MeanSquaredError | code/exp/util.py:25-27 | NaN exactly for empty input; otherwise non-negative, and zero exactly when f = f_pred |
| Metrics.MeanSquaredErrorExample | code/exp/util.py:25-27 | predicting 1 for two targets of 0 gives 1; exact predictions give 0 |

## Left out

- The inversions `tf.matrix_inverse` and `np.linalg.inv` (code/exp/util.py:61, 73) are library calls. Their result is a parameter that the lemmas assume to be a left inverse. The error either call raises for a singular matrix is not modelled.
- Floating point: float64 rounding, and drift away from exact symmetry or inverse over a long stream, are not modelled. All arithmetic is exact over `real`.
- Metrics.MeanSquaredError: stops at the mean. The `np.sqrt` that turns it into `rmse` (code/exp/util.py:27) is not modelled; it maps NaN to NaN, 0 to 0 and keeps order.
- `test_log_likelihood` (code/exp/util.py:40-41) is a single scipy call (a log-density via a matrix factorisation), with no logic of its own.
- `standardize_data` (code/exp/util.py:6-20) needs numpy mean, standard deviation and reshape semantics. Its condition at lines 8 and 11 is inverted: statistics the caller supplies are overwritten by ones recomputed from the training data, and omitted (`None`) statistics reach the arithmetic at line 14 and fail there.
- Tensor plumbing is not modelled: dtypes, `tf.shape` and broadcasting. Operands of mismatched shapes are excluded by `requires` clauses rather than raising the shape errors of tensorflow and numpy.
- Metrics.Picp: inputs are real numbers, so the NaN comparisons that make numpy count a NaN target as not covered are not modelled.
- Definiteness.CapacitanceNonsingular: shows that M0 maps only the zero vector to zero. It does not construct the inverse from that (rank-nullity is not modelled), so the update lemmas still take the inverse as a hypothesis. Definiteness.RidgeGramNonsingular has the same limit.
