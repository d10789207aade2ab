/**
 Comparison of an integrator's output with the closed-form solution
 (conv/ex2/ex2.py). comp_euler, comp_mp and comp_rk4 run the same steps on the
 arrays of a different integrator: copy the sample points and values into
 fresh arrays of the integrator's step count n, evaluate the reference
 solution at the copied points, and average the absolute deviation.
 */
module Convergence {
  import opened Numerics

  /** Whether numpy can assign an array of length len into a slice of length n. */
  predicate Broadcastable(len: nat, n: nat)
  {
    len == n || len == 1
  }

  /** The contents of a length-n array after `a[:] = src`: src itself, or its single element repeated. */
  function Broadcast(src: seq<real>, n: nat): seq<real>
    requires Broadcastable(|src|, n)
  {
    seq(n, i requires 0 <= i < n => if |src| == n then src[i] else src[0])
  }

  /**
   `dst = np.zeros(n); dst[:] = src[:]`, element by element. When numpy cannot
   broadcast src into n slots the assignment raises and ok is false; the
   buffer is then still all zeros.
   */
  method CopyInto(src: seq<real>, n: nat) returns (dst: array<real>, ok: bool)
    ensures dst.Length == n
    ensures ok == Broadcastable(|src|, n)
    ensures ok && |src| == n ==> dst[..] == src
    ensures ok ==> dst[..] == Broadcast(src, n)
    ensures !ok ==> forall i :: 0 <= i < n ==> dst[i] == 0.0
  {
    dst := new real[n](_ => 0.0);
    ok := Broadcastable(|src|, n);
    if !ok {
      return;
    }
    var i := 0;
    while i < n
      invariant 0 <= i <= n
      invariant dst[..i] == Broadcast(src, n)[..i]
    {
      dst[i] := if |src| == n then src[i] else src[0];
      i := i + 1;
    }
    assert dst[..] == dst[..n];
  }

  /** The reference solution evaluated at every sample point, as `sol(x)` on an array. */
  function Reference(xs: seq<real>, sol: real -> real): seq<real>
  {
    seq(|xs|, i requires 0 <= i < |xs| => sol(xs[i]))
  }

  /** abs(y - y_sol): element-wise absolute deviation. */
  function Deviation(y: seq<real>, ref: seq<real>): (d: seq<real>)
    requires |y| == |ref|
    ensures |d| == |y|
    ensures forall i :: 0 <= i < |d| ==> d[i] >= 0.0
    ensures forall i :: 0 <= i < |d| ==> (d[i] == 0.0 <==> y[i] == ref[i])
  {
    seq(|y|, i requires 0 <= i < |y| => Abs(y[i] - ref[i]))
  }

  /** np.mean(abs(y - y_sol)): never negative, and zero exactly when the values match the reference everywhere. */
  function MeanAbsDeviation(y: seq<real>, ref: seq<real>): (m: Float)
    requires |y| == |ref|
    ensures m.NaN? <==> |y| == 0
    ensures m.Num? ==> m.value >= 0.0
    ensures m.Num? ==> (m.value == 0.0 <==> forall i :: 0 <= i < |y| ==> y[i] == ref[i])
  {
    var d := Deviation(y, ref);
    SumNonnegative(d);
    Mean(d)
  }

  /** Values [2, 4] against the reference values [2, 5] deviate by 0 and 1: mean 0.5. */
  lemma MeanAbsDeviationExample()
    ensures MeanAbsDeviation([2.0, 4.0], Reference([2.0, 5.0], x => x)) == Num(0.5)
  {
    var d := Deviation([2.0, 4.0], [2.0, 5.0]);
    assert d == [0.0, 1.0];
    assert d[..1] == [0.0];
    assert Sum(d) == 1.0;
  }

  /**
   comp_euler, comp_mp and comp_rk4 after the integrator has run: xs and ys
   are the integrator's sample points and values, n its step count.
   */
  method CompareWithReference(xs: seq<real>, ys: seq<real>, n: nat, sol: real -> real) returns (r: Result<Float>)
    ensures r.Err? <==> !(Broadcastable(|xs|, n) && Broadcastable(|ys|, n))
    ensures r.Err? ==> r.error == ShapeMismatch
    ensures r.Ok? ==> r.value == MeanAbsDeviation(Broadcast(ys, n), Reference(Broadcast(xs, n), sol))
    ensures r.Ok? && |xs| == n && |ys| == n ==>
      && (r.value.NaN? <==> n == 0)
      && (r.value.Num? ==> r.value.value >= 0.0)
      && (r.value.Num? ==> (r.value.value == 0.0 <==> forall i :: 0 <= i < n ==> ys[i] == sol(xs[i])))
  {
    var x, okX := CopyInto(xs, n);
    if !okX {
      return Err(ShapeMismatch);
    }
    var y, okY := CopyInto(ys, n);
    if !okY {
      return Err(ShapeMismatch);
    }
    var ySol := Reference(x[..], sol);
    r := Ok(MeanAbsDeviation(y[..], ySol));
  }
}
