/**
 The cross-term accumulator Phi_y of the minibatch posterior: each batch of
 feature rows X with targets Y adds X^T Y to it (`minibatch_interaction_update`).
 Over a stream the accumulator only ever sums, so the order of the batches and
 the way rows are cut into batches do not matter.
 */
module CrossTerm {
  import opened Matrices

  /** Phi_y + X^T Y for a batch X (M x K) with targets Y (M x T) and Phi_y (K x T). */
  function InteractionUpdate(phiY: Matrix, X: Matrix, Y: Matrix): (r: Matrix)
    requires X.rows == Y.rows && phiY.rows == X.cols && phiY.cols == Y.cols
    ensures r.rows == phiY.rows && r.cols == phiY.cols
  {
    Add(phiY, MatMul(Transpose(X), Y))
  }

  /** Feeding two batches one after the other is one call on their stacked rows. */
  lemma InteractionUpdateStacked(phiY: Matrix, X1: Matrix, Y1: Matrix, X2: Matrix, Y2: Matrix)
    requires X1.rows == Y1.rows && X2.rows == Y2.rows
    requires phiY.rows == X1.cols == X2.cols && phiY.cols == Y1.cols == Y2.cols
    ensures InteractionUpdate(InteractionUpdate(phiY, X1, Y1), X2, Y2)
         == InteractionUpdate(phiY, VStack(X1, X2), VStack(Y1, Y2))
  {
    StackedCrossProduct(X1, X2, Y1, Y2);
    AddAssoc(phiY, MatMul(Transpose(X1), Y1), MatMul(Transpose(X2), Y2));
  }

  /** Feeding two batches in either order gives the same accumulator. */
  lemma InteractionUpdateCommutes(phiY: Matrix, X1: Matrix, Y1: Matrix, X2: Matrix, Y2: Matrix)
    requires X1.rows == Y1.rows && X2.rows == Y2.rows
    requires phiY.rows == X1.cols == X2.cols && phiY.cols == Y1.cols == Y2.cols
    ensures InteractionUpdate(InteractionUpdate(phiY, X1, Y1), X2, Y2)
         == InteractionUpdate(InteractionUpdate(phiY, X2, Y2), X1, Y1)
  {
    var P, Q := MatMul(Transpose(X1), Y1), MatMul(Transpose(X2), Y2);
    AddAssoc(phiY, P, Q);
    AddAssoc(phiY, Q, P);
    AddComm(P, Q);
  }

  /** One minibatch: feature rows and their aligned targets. */
  datatype Batch = Batch(x: Matrix, y: Matrix)

  /** The batch has aligned rows, K feature columns and T target columns. */
  predicate Fits(b: Batch, k: nat, t: nat)
  {
    b.x.rows == b.y.rows && b.x.cols == k && b.y.cols == t
  }

  predicate AllFit(bs: seq<Batch>, k: nat, t: nat)
  {
    forall i :: 0 <= i < |bs| ==> Fits(bs[i], k, t)
  }

  /** The caller's loop: thread Phi_y through one update per batch, in order. */
  function Accumulate(phiY: Matrix, bs: seq<Batch>): (r: Matrix)
    requires AllFit(bs, phiY.rows, phiY.cols)
    ensures r.rows == phiY.rows && r.cols == phiY.cols
    decreases |bs|
  {
    if |bs| == 0 then phiY
    else Accumulate(InteractionUpdate(phiY, bs[0].x, bs[0].y), bs[1..])
  }

  function Features(bs: seq<Batch>): (xs: seq<Matrix>)
    ensures |xs| == |bs|
  {
    seq(|bs|, i requires 0 <= i < |bs| => bs[i].x)
  }

  function Targets(bs: seq<Batch>): (ys: seq<Matrix>)
    ensures |ys| == |bs|
  {
    seq(|bs|, i requires 0 <= i < |bs| => bs[i].y)
  }

  lemma StackedRowsAlign(bs: seq<Batch>, k: nat, t: nat)
    requires AllFit(bs, k, t)
    ensures StackRows(Features(bs), k).rows == StackRows(Targets(bs), t).rows
    decreases |bs|
  {
    if |bs| > 0 {
      assert Features(bs)[1..] == Features(bs[1..]);
      assert Targets(bs)[1..] == Targets(bs[1..]);
      StackedRowsAlign(bs[1..], k, t);
    }
  }

  /** Accumulating a stream equals one update on all its rows stacked in order. */
  lemma {:induction false} AccumulateIsOneStackedUpdate(phiY: Matrix, bs: seq<Batch>)
    requires AllFit(bs, phiY.rows, phiY.cols)
    ensures StackRows(Features(bs), phiY.rows).rows == StackRows(Targets(bs), phiY.cols).rows
    ensures Accumulate(phiY, bs)
         == InteractionUpdate(phiY, StackRows(Features(bs), phiY.rows), StackRows(Targets(bs), phiY.cols))
    decreases |bs|
  {
    var k, t := phiY.rows, phiY.cols;
    StackedRowsAlign(bs, k, t);
    if |bs| == 0 {
      EmptyCrossProduct(StackRows(Features(bs), k), StackRows(Targets(bs), t));
      AddZeros(phiY);
    } else {
      var b := bs[0];
      var phi1 := InteractionUpdate(phiY, b.x, b.y);
      assert Features(bs)[1..] == Features(bs[1..]);
      assert Targets(bs)[1..] == Targets(bs[1..]);
      AccumulateIsOneStackedUpdate(phi1, bs[1..]);
      StackedRowsAlign(bs[1..], k, t);
      InteractionUpdateStacked(phiY, b.x, b.y, StackRows(Features(bs[1..]), k), StackRows(Targets(bs[1..]), t));
    }
  }

  /** Moving one batch to the front of the stream does not change the result. */
  lemma {:induction false} AccumulateMoveToFront(phiY: Matrix, p: seq<Batch>, b: Batch, q: seq<Batch>)
    requires AllFit(p + [b] + q, phiY.rows, phiY.cols)
    ensures AllFit([b] + p + q, phiY.rows, phiY.cols)
    ensures Accumulate(phiY, p + [b] + q) == Accumulate(phiY, [b] + p + q)
    decreases |p|
  {
    var k, t := phiY.rows, phiY.cols;
    assert Fits(b, k, t) by { assert (p + [b] + q)[|p|] == b; }
    assert AllFit([b] + p + q, k, t) by {
      forall i | 0 <= i < |[b] + p + q|
        ensures Fits(([b] + p + q)[i], k, t)
      {
        if 1 <= i <= |p| {
          assert ([b] + p + q)[i] == (p + [b] + q)[i - 1];
        } else if i > |p| {
          assert ([b] + p + q)[i] == (p + [b] + q)[i];
        }
      }
    }
    if |p| > 0 {
      var a, p' := p[0], p[1..];
      assert (p + [b] + q)[1..] == p' + [b] + q;
      assert Fits(a, k, t) by { assert (p + [b] + q)[0] == a; }
      var phiA := InteractionUpdate(phiY, a.x, a.y);
      var phiB := InteractionUpdate(phiY, b.x, b.y);
      AccumulateMoveToFront(phiA, p', b, q);
      assert ([b] + p' + q)[1..] == p' + q;
      InteractionUpdateCommutes(phiY, a.x, a.y, b.x, b.y);
      assert ([b] + p + q)[1..] == [a] + p' + q;
      assert ([a] + p' + q)[1..] == p' + q;
      calc {
        Accumulate(phiY, p + [b] + q);
        Accumulate(phiA, p' + [b] + q);
        Accumulate(phiA, [b] + p' + q);
        Accumulate(InteractionUpdate(phiA, b.x, b.y), p' + q);
        Accumulate(InteractionUpdate(phiB, a.x, a.y), p' + q);
        Accumulate(phiB, [a] + p' + q);
        Accumulate(phiY, [b] + p + q);
      }
    } else {
      assert p + [b] + q == [b] + p + q;
    }
  }

  lemma MultisetRemoveHead<T>(bs: seq<T>, p: seq<T>, b: T, q: seq<T>)
    requires |bs| > 0 && bs[0] == b && multiset(bs) == multiset(p + [b] + q)
    ensures multiset(bs[1..]) == multiset(p + q)
  {
    assert bs == [b] + bs[1..];
    assert multiset(bs) == multiset([b]) + multiset(bs[1..]);
    assert multiset(p + [b] + q) == multiset(p) + multiset([b]) + multiset(q);
    assert multiset(p + q) == multiset(p) + multiset(q);
    var one, rest, pq := multiset([b]), multiset(bs[1..]), multiset(p + q);
    assert one + rest == one + pq;
    forall x
      ensures rest[x] == pq[x]
    {
      assert (one + rest)[x] == one[x] + rest[x];
      assert (one + pq)[x] == one[x] + pq[x];
    }
  }

  lemma AllFitDropMiddle(p: seq<Batch>, b: Batch, q: seq<Batch>, k: nat, t: nat)
    requires AllFit([b] + p + q, k, t)
    ensures AllFit(p + q, k, t)
  {
    forall i | 0 <= i < |p + q|
      ensures Fits((p + q)[i], k, t)
    {
      assert (p + q)[i] == ([b] + p + q)[i + 1];
    }
  }

  /** Batch order does not matter: any reordering of the stream gives the same Phi_y. */
  lemma {:induction false} AccumulateOrderIndependent(phiY: Matrix, bs: seq<Batch>, cs: seq<Batch>)
    requires multiset(bs) == multiset(cs)
    requires AllFit(bs, phiY.rows, phiY.cols) && AllFit(cs, phiY.rows, phiY.cols)
    ensures Accumulate(phiY, bs) == Accumulate(phiY, cs)
    decreases |bs|
  {
    if |bs| > 0 {
      var b := bs[0];
      assert b in multiset(cs) by { assert b in multiset(bs); }
      var j :| 0 <= j < |cs| && cs[j] == b;
      var p, q := cs[..j], cs[j + 1..];
      assert cs == p + [b] + q;
      AccumulateMoveToFront(phiY, p, b, q);
      MultisetRemoveHead(bs, p, b, q);
      AllFitDropMiddle(p, b, q, phiY.rows, phiY.cols);
      assert ([b] + p + q)[1..] == p + q;
      AccumulateOrderIndependent(InteractionUpdate(phiY, b.x, b.y), bs[1..], p + q);
    } else {
      assert |cs| == |multiset(cs)| == 0;
    }
  }
}
