/**
 The batch splitter `split_into_batches`: the list of slices X[i:i + b] for i in
 range(0, len(X), b). The slices are contiguous, all of length b except
 possibly the last, which keeps whatever rows are left.

 Python's `range` raises ValueError for a zero step, and for a negative step
 starting at 0 and ending at len(X) >= 0 it is empty, so a negative batch size
 yields an empty list rather than an error.
 */
module Batches {

  /** What the call produces: the list of slices, or the ValueError of a zero step. */
  datatype Outcome<T> = Ok(value: T) | ZeroStep

  function Min(a: int, b: int): int
  {
    if a <= b then a else b
  }

  /** Concatenation of the slices, in order. */
  function Flatten<T>(chunks: seq<seq<T>>): seq<T>
  {
    if |chunks| == 0 then [] else chunks[0] + Flatten(chunks[1..])
  }

  /** The slices of X of length b, the last one cut short at the end of X. */
  function Chunks<T>(X: seq<T>, b: nat): (c: seq<seq<T>>)
    requires b > 0
    ensures |c| <= |X|
    ensures |c| == 0 <==> |X| == 0
    decreases |X|
  {
    if |X| == 0 then [] else [X[..Min(b, |X|)]] + Chunks(X[Min(b, |X|)..], b)
  }

  /** Concatenating the slices in order gives back X. */
  lemma {:induction false} ChunksFlatten<T>(X: seq<T>, b: nat)
    requires b > 0
    ensures Flatten(Chunks(X, b)) == X
    decreases |X|
  {
    if |X| > 0 {
      var m := Min(b, |X|);
      ChunksFlatten(X[m..], b);
      assert Chunks(X, b)[1..] == Chunks(X[m..], b);
      assert X == X[..m] + X[m..];
    }
  }

  lemma MulSucc(c: int, b: int)
    ensures (c + 1) * b == c * b + b
  {
  }

  /** The first slice has min(b, |X|) rows and the rest are the slices of what follows. */
  lemma ChunksUnfold<T>(X: seq<T>, b: nat)
    requires b > 0 && |X| > 0
    ensures Chunks(X, b) == [X[..Min(b, |X|)]] + Chunks(X[Min(b, |X|)..], b)
  {
  }

  /** Every slice but the last has exactly b rows; the last has between 1 and b. */
  lemma {:induction false} ChunksLengths<T>(X: seq<T>, b: nat)
    requires b > 0
    ensures var C := Chunks(X, b);
      && (forall k :: 0 <= k < |C| - 1 ==> |C[k]| == b)
      && (|C| > 0 ==> 1 <= |C[|C| - 1]| <= b)
    decreases |X|
  {
    if |X| > 0 {
      var m := Min(b, |X|);
      var C, C' := Chunks(X, b), Chunks(X[m..], b);
      ChunksLengths(X[m..], b);
      ChunksUnfold(X, b);
      if |C'| > 0 {
        assert C[|C| - 1] == C'[|C'| - 1];
        assert |X[m..]| > 0;
        assert m == b;
      }
      forall k | 0 <= k < |C| - 1
        ensures |C[k]| == b
      {
        if k > 0 {
          assert C[k] == C'[k - 1];
        } else {
          assert |X[m..]| > 0;
        }
      }
    }
  }

  /** The number of slices is the ceiling of |X| / b, and it is zero only for an empty X. */
  lemma {:induction false} ChunksCount<T>(X: seq<T>, b: nat)
    requires b > 0
    ensures var n := |Chunks(X, b)|;
      && (n == 0 <==> |X| == 0)
      && n * b >= |X|
      && (n > 0 ==> (n - 1) * b < |X|)
    decreases |X|
  {
    if |X| > 0 {
      var m := Min(b, |X|);
      var c' := |Chunks(X[m..], b)|;
      ChunksCount(X[m..], b);
      ChunksUnfold(X, b);
      assert |Chunks(X, b)| == c' + 1;
      MulSucc(c', b);
      if c' > 0 {
        assert |X[m..]| > 0;
        assert m == b;
        MulSucc(c' - 1, b);
      }
    }
  }

  lemma SliceOfSuffix<T>(X: seq<T>, d: nat, s: nat, e: nat)
    requires d <= |X| && s <= e <= |X| - d
    ensures X[d..][s..e] == X[s + d..e + d]
  {
  }

  /** The k-th slice is X[k*b : k*b + b], clipped to the end of X, as Python slices it. */
  lemma {:induction false} ChunkAt<T>(X: seq<T>, b: nat, k: nat)
    requires b > 0 && k < |Chunks(X, b)|
    ensures k * b < |X|
    ensures Chunks(X, b)[k] == X[k * b .. Min(k * b + b, |X|)]
    decreases |X|
  {
    ChunksUnfold(X, b);
    var m := Min(b, |X|);
    if k > 0 {
      var X' := X[m..];
      assert Chunks(X, b)[k] == Chunks(X', b)[k - 1];
      ChunkAt(X', b, k - 1);
      var s := (k - 1) * b;
      assert |X'| > 0;
      assert m == b;
      var e := Min(s + b, |X'|);
      SliceOfSuffix(X, b, s, e);
      MulSucc(k - 1, b);
      var kb := k * b;
      assert kb == s + b;
      assert e + b == Min(kb + b, |X|);
    } else {
      assert k * b == 0;
    }
  }

  /** `split_into_batches(X, batch_size)`. */
  function SplitIntoBatches<T>(X: seq<T>, batchSize: int): (r: Outcome<seq<seq<T>>>)
    ensures r.ZeroStep? <==> batchSize == 0
    ensures batchSize != 0 && |X| == 0 ==> r == Ok([])
    ensures batchSize < 0 ==> r == Ok([])
    ensures batchSize > 0 ==> r.Ok? && Flatten(r.value) == X
    ensures batchSize > 0 ==> r.Ok? && (forall k :: 0 <= k < |r.value| - 1 ==> |r.value[k]| == batchSize)
    ensures batchSize > 0 ==> r.Ok? && (|r.value| > 0 ==> 1 <= |r.value[|r.value| - 1]| <= batchSize)
    ensures batchSize > 0 ==> r.Ok? && |r.value| * batchSize >= |X|
    ensures batchSize > 0 ==> r.Ok? && (|r.value| > 0 ==> (|r.value| - 1) * batchSize < |X|)
  {
    if batchSize == 0 then ZeroStep
    else if batchSize < 0 then Ok([])
    else
      ChunksFlatten(X, batchSize);
      ChunksLengths(X, batchSize);
      ChunksCount(X, batchSize);
      Ok(Chunks(X, batchSize))
  }

  /** Ten rows in batches of three give slices of 3, 3, 3 and 1 rows. */
  lemma SplitTenByThree()
    ensures var r := SplitIntoBatches([0, 1, 2, 3, 4, 5, 6, 7, 8, 9], 3);
      r == Ok([[0, 1, 2], [3, 4, 5], [6, 7, 8], [9]])
  {
    var X := [0, 1, 2, 3, 4, 5, 6, 7, 8, 9];
    ChunksUnfold([9], 3);
    assert [9][..1] == [9] && [9][1..] == [];
    assert Chunks([9], 3) == [[9]];
    ChunksUnfold([6, 7, 8, 9], 3);
    assert [6, 7, 8, 9][..3] == [6, 7, 8] && [6, 7, 8, 9][3..] == [9];
    assert Chunks([6, 7, 8, 9], 3) == [[6, 7, 8], [9]];
    ChunksUnfold([3, 4, 5, 6, 7, 8, 9], 3);
    assert [3, 4, 5, 6, 7, 8, 9][..3] == [3, 4, 5] && [3, 4, 5, 6, 7, 8, 9][3..] == [6, 7, 8, 9];
    assert Chunks([3, 4, 5, 6, 7, 8, 9], 3) == [[3, 4, 5], [6, 7, 8], [9]];
    ChunksUnfold(X, 3);
    assert X[..3] == [0, 1, 2] && X[3..] == [3, 4, 5, 6, 7, 8, 9];
    assert Chunks(X, 3) == [[0, 1, 2], [3, 4, 5], [6, 7, 8], [9]];
  }
}
