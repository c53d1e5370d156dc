/**
 Real-valued vectors and the two reductions the rest of the model is built on:
 the sum of the entries and the dot product. Both fold from the back, so that
 appending one entry unfolds one step of the definition.
 */
module Vectors {

  type Vector = seq<real>

  /** Sum of the entries (numpy's `np.sum` over a 1-D array, in exact arithmetic). */
  function Sum(s: Vector): real
  {
    if |s| == 0 then 0.0 else Sum(s[..|s| - 1]) + s[|s| - 1]
  }

  /** Inner product of two vectors of the same length. */
  function Dot(u: Vector, v: Vector): real
    requires |u| == |v|
  {
    if |u| == 0 then 0.0 else Dot(u[..|u| - 1], v[..|v| - 1]) + u[|u| - 1] * v[|v| - 1]
  }

  function VAdd(u: Vector, v: Vector): (w: Vector)
    requires |u| == |v|
    ensures |w| == |u|
  {
    seq(|u|, k requires 0 <= k < |u| => u[k] + v[k])
  }

  function VSub(u: Vector, v: Vector): (w: Vector)
    requires |u| == |v|
    ensures |w| == |u|
  {
    seq(|u|, k requires 0 <= k < |u| => u[k] - v[k])
  }

  function VScale(c: real, u: Vector): (w: Vector)
    ensures |w| == |u|
  {
    seq(|u|, k requires 0 <= k < |u| => c * u[k])
  }

  /** The `i`-th standard basis vector of length `n` (all zeros when `i >= n`). */
  function Unit(n: nat, i: nat): (w: Vector)
    ensures |w| == n
  {
    seq(n, k requires 0 <= k < n => if k == i then 1.0 else 0.0)
  }

  /** Summing a pointwise difference is subtracting the two sums. */
  lemma {:induction false} SumVSub(u: Vector, v: Vector)
    requires |u| == |v|
    ensures Sum(VSub(u, v)) == Sum(u) - Sum(v)
  {
    if |u| > 0 {
      var n := |u|;
      assert VSub(u, v)[..n - 1] == VSub(u[..n - 1], v[..n - 1]);
      SumVSub(u[..n - 1], v[..n - 1]);
    }
  }

  /** A vector with no negative entry has a non-negative sum. */
  lemma {:induction false} SumNonNegative(s: Vector)
    requires forall k :: 0 <= k < |s| ==> 0.0 <= s[k]
    ensures 0.0 <= Sum(s)
  {
    if |s| > 0 {
      SumNonNegative(s[..|s| - 1]);
    }
  }

  /** A sum of non-negative entries is zero exactly when every entry is zero. */
  lemma {:induction false} SumZeroIffAllZero(s: Vector)
    requires forall k :: 0 <= k < |s| ==> 0.0 <= s[k]
    ensures Sum(s) == 0.0 <==> forall k :: 0 <= k < |s| ==> s[k] == 0.0
  {
    if |s| > 0 {
      var p := s[..|s| - 1];
      SumZeroIffAllZero(p);
      SumNonNegative(p);
      assert Sum(s) == Sum(p) + s[|s| - 1];
      if forall k :: 0 <= k < |s| ==> s[k] == 0.0 {
        assert forall k :: 0 <= k < |p| ==> p[k] == s[k];
      }
      if forall k :: 0 <= k < |p| ==> p[k] == 0.0 {
        if s[|s| - 1] == 0.0 {
          forall k | 0 <= k < |s|
            ensures s[k] == 0.0
          {
            if k < |p| {
              assert s[k] == p[k];
            }
          }
        }
      }
    }
  }

  /** The dot product is symmetric. */
  lemma {:induction false} DotComm(u: Vector, v: Vector)
    requires |u| == |v|
    ensures Dot(u, v) == Dot(v, u)
  {
    if |u| > 0 {
      DotComm(u[..|u| - 1], v[..|v| - 1]);
    }
  }

  lemma {:induction false} DotVAddLeft(u: Vector, w: Vector, v: Vector)
    requires |u| == |w| == |v|
    ensures Dot(VAdd(u, w), v) == Dot(u, v) + Dot(w, v)
  {
    if |u| > 0 {
      var n := |u|;
      assert VAdd(u, w)[..n - 1] == VAdd(u[..n - 1], w[..n - 1]);
      DotVAddLeft(u[..n - 1], w[..n - 1], v[..n - 1]);
    }
  }

  lemma {:induction false} DotVSubLeft(u: Vector, w: Vector, v: Vector)
    requires |u| == |w| == |v|
    ensures Dot(VSub(u, w), v) == Dot(u, v) - Dot(w, v)
  {
    if |u| > 0 {
      var n := |u|;
      assert VSub(u, w)[..n - 1] == VSub(u[..n - 1], w[..n - 1]);
      DotVSubLeft(u[..n - 1], w[..n - 1], v[..n - 1]);
    }
  }

  lemma {:induction false} DotVScaleLeft(c: real, u: Vector, v: Vector)
    requires |u| == |v|
    ensures Dot(VScale(c, u), v) == c * Dot(u, v)
  {
    if |u| > 0 {
      var n := |u|;
      var u', v' := u[..n - 1], v[..n - 1];
      assert VScale(c, u)[..n - 1] == VScale(c, u') by {
        forall k | 0 <= k < n - 1
          ensures VScale(c, u)[k] == VScale(c, u')[k]
        {
          assert u[k] == u'[k];
        }
      }
      DotVScaleLeft(c, u', v');
      calc {
        Dot(VScale(c, u), v);
        Dot(VScale(c, u'), v') + (c * u[n - 1]) * v[n - 1];
        c * Dot(u', v') + c * (u[n - 1] * v[n - 1]);
        c * (Dot(u', v') + u[n - 1] * v[n - 1]);
        c * Dot(u, v);
      }
    }
  }

  lemma {:induction false} DotVScaleRight(c: real, u: Vector, v: Vector)
    requires |u| == |v|
    ensures Dot(u, VScale(c, v)) == c * Dot(u, v)
  {
    DotComm(u, VScale(c, v));
    DotVScaleLeft(c, v, u);
    DotComm(v, u);
  }

  lemma {:induction false} DotVAddRight(v: Vector, u: Vector, w: Vector)
    requires |u| == |w| == |v|
    ensures Dot(v, VAdd(u, w)) == Dot(v, u) + Dot(v, w)
  {
    DotComm(v, VAdd(u, w));
    DotComm(v, u);
    DotComm(v, w);
    DotVAddLeft(u, w, v);
  }

  /** Dotting with a basis vector picks out one entry. */
  lemma {:induction false} DotUnitLeft(n: nat, i: nat, v: Vector)
    requires |v| == n
    ensures Dot(Unit(n, i), v) == if i < n then v[i] else 0.0
  {
    if n > 0 {
      assert Unit(n, i)[..n - 1] == Unit(n - 1, i);
      DotUnitLeft(n - 1, i, v[..n - 1]);
    }
  }

  lemma DotUnitRight(n: nat, i: nat, v: Vector)
    requires |v| == n
    ensures Dot(v, Unit(n, i)) == if i < n then v[i] else 0.0
  {
    DotComm(v, Unit(n, i));
    DotUnitLeft(n, i, v);
  }

  /** The dot product of two concatenations splits at the seam. */
  lemma {:induction false} DotAppend(u1: Vector, u2: Vector, v1: Vector, v2: Vector)
    requires |u1| == |v1| && |u2| == |v2|
    ensures Dot(u1 + u2, v1 + v2) == Dot(u1, v1) + Dot(u2, v2)
  {
    if |u2| > 0 {
      var n := |u2|;
      assert (u1 + u2)[..|u1 + u2| - 1] == u1 + u2[..n - 1];
      assert (v1 + v2)[..|v1 + v2| - 1] == v1 + v2[..n - 1];
      assert (u1 + u2)[|u1 + u2| - 1] == u2[n - 1];
      assert (v1 + v2)[|v1 + v2| - 1] == v2[n - 1];
      DotAppend(u1, u2[..n - 1], v1, v2[..n - 1]);
    } else {
      assert u1 + u2 == u1 && v1 + v2 == v1;
    }
  }

  /** The square of a real. */
  function Sq(d: real): real
  {
    d * d
  }

  lemma MulPositive(x: real, y: real)
    requires x > 0.0 && y > 0.0
    ensures x * y > 0.0
  {
  }

  /** A square is never negative, and it is zero only for zero. */
  lemma SquareSign(d: real)
    ensures 0.0 <= Sq(d)
    ensures Sq(d) == 0.0 <==> d == 0.0
  {
    if d > 0.0 {
      calc {
        Sq(d);
        d * d;
      > { MulPositive(d, d); }
        0.0;
      }
    } else if d < 0.0 {
      calc {
        Sq(d);
        (-d) * (-d);
      > { MulPositive(-d, -d); }
        0.0;
      }
    }
  }

  /** No entry differs from zero. */
  predicate IsZero(v: Vector)
  {
    forall k :: 0 <= k < |v| ==> v[k] == 0.0
  }

  /** The dot product of a vector with itself is positive unless the vector is zero. */
  lemma {:induction false} DotSelfPositive(v: Vector)
    ensures 0.0 <= Dot(v, v)
    ensures Dot(v, v) == 0.0 <==> IsZero(v)
  {
    if |v| > 0 {
      var n := |v|;
      var v', x := v[..n - 1], v[n - 1];
      DotSelfPositive(v');
      SquareSign(x);
      assert Dot(v, v) == Dot(v', v') + Sq(x);
      if IsZero(v) {
        assert IsZero(v');
      } else if IsZero(v') {
        assert x != 0.0;
      }
    }
  }

  /** Dot products of short vectors written out. */
  lemma DotPair(u: Vector, v: Vector)
    requires |u| == 2 && |v| == 2
    ensures Dot(u, v) == u[0] * v[0] + u[1] * v[1]
  {
    DotSingle(u[..1], v[..1]);
  }

  lemma DotSingle(u: Vector, v: Vector)
    requires |u| == 1 && |v| == 1
    ensures Dot(u, v) == u[0] * v[0]
  {
  }
}
