/**
 The numeric building blocks the analysis scripts borrow from numpy and from
 Python's builtins, stated over `real`: the mean of an array (NaN when the
 array is empty), the builtin `max`, boolean-mask indexing `a[mask]`, integer
 fancy indexing `a[idx]` and element-wise absolute value.
 */
module Numerics {

  /** A floating-point result as numpy reports it: a value, or NaN. */
  datatype Float = NaN | Num(value: real)

  /** The errors of the modelled code: those the scripts raise, and that of the corrected period. */
  datatype Error =
    | EmptySequence       // builtin max() of an empty array raises ValueError
    | ShapeMismatch       // `a[:] = b` cannot broadcast b into a
    | InsufficientPeaks   // not raised by the scripts: the corrected period needs at least two peaks
    | MaskMismatch        // `a[mask]` with a mask of another length raises IndexError

  datatype Result<T> = Ok(value: T) | Err(error: Error)

  /** One integration run: sample times and sampled values. */
  datatype Trajectory = Trajectory(t: seq<real>, y: seq<real>) {
    /** Times and values index-aligned, as a mask built from t must be to select from y. */
    predicate Valid() { |t| == |y| }
  }

  /** Absolute value: non-negative, and equal to r or to -r. */
  function Abs(r: real): (a: real)
    ensures a >= 0.0
    ensures a == r || a == -r
  {
    if r < 0.0 then -r else r
  }

  /** Sum of the elements, accumulated from the first to the last. */
  function Sum(s: seq<real>): real
  {
    if |s| == 0 then 0.0 else Sum(s[..|s| - 1]) + s[|s| - 1]
  }

  /** np.mean: the arithmetic mean; NaN (with a runtime warning) on an empty array. */
  function Mean(s: seq<real>): (m: Float)
    ensures m.NaN? <==> |s| == 0
  {
    if |s| == 0 then NaN else Num(Sum(s) / |s| as real)
  }

  /** Python's builtin max: scans left to right, replacing the running maximum on a strictly larger item. */
  function Max(s: seq<real>): (m: real)
    requires |s| > 0
    ensures m in s
    ensures forall i :: 0 <= i < |s| ==> s[i] <= m
  {
    if |s| == 1 then s[0]
    else
      var rest := Max(s[..|s| - 1]);
      if s[|s| - 1] > rest then s[|s| - 1] else rest
  }

  /** The smallest element; used to state where a mean lies. */
  function Min(s: seq<real>): (m: real)
    requires |s| > 0
    ensures m in s
    ensures forall i :: 0 <= i < |s| ==> m <= s[i]
  {
    if |s| == 1 then s[0]
    else
      var rest := Min(s[..|s| - 1]);
      if s[|s| - 1] < rest then s[|s| - 1] else rest
  }

  /** Integer ("fancy") indexing `s[idx]`: the elements at the given positions, in the order given. */
  function Gather(s: seq<real>, idx: seq<nat>): seq<real>
    requires forall i :: 0 <= i < |idx| ==> idx[i] < |s|
  {
    seq(|idx|, i requires 0 <= i < |idx| => s[idx[i]])
  }

  /** The positions where a boolean mask holds, in increasing order (what `a[mask]` selects). */
  function TrueIndices(m: seq<bool>): (r: seq<nat>)
    ensures |r| <= |m|
    ensures forall i :: 0 <= i < |r| ==> r[i] < |m| && m[r[i]]
  {
    if |m| == 0 then []
    else TrueIndices(m[..|m| - 1]) + (if m[|m| - 1] then [|m| - 1] else [])
  }

  /** Boolean-mask indexing `s[m]`: the elements whose mask entry holds, in their original order. */
  function Compress(s: seq<real>, m: seq<bool>): seq<real>
    requires |s| == |m|
  {
    Gather(s, TrueIndices(m))
  }

  predicate StrictlyIncreasing(idx: seq<nat>)
  {
    forall i, j :: 0 <= i < j < |idx| ==> idx[i] < idx[j]
  }

  /** TrueIndices selects every position where the mask holds, each once, in increasing order. */
  lemma {:induction false} TrueIndicesExact(m: seq<bool>)
    ensures StrictlyIncreasing(TrueIndices(m))
    ensures forall k :: 0 <= k < |m| && m[k] ==> k in TrueIndices(m)
  {
    if |m| > 0 {
      var init := m[..|m| - 1];
      TrueIndicesExact(init);
      forall k | 0 <= k < |m| - 1 && m[k]
        ensures k in TrueIndices(m)
      {
        assert init[k] == m[k];
      }
    }
  }

  /** Extending the mask by one entry appends that position exactly when the entry holds. */
  lemma TrueIndicesStep(m: seq<bool>, n: nat)
    requires n < |m|
    ensures TrueIndices(m[..n + 1]) == TrueIndices(m[..n]) + (if m[n] then [n] else [])
  {
    assert m[..n + 1][..n] == m[..n];
  }

  /** The positions selected in a prefix of the mask are a prefix of those selected in the whole mask. */
  lemma {:induction false} TrueIndicesPrefix(m: seq<bool>, n: nat)
    requires n <= |m|
    ensures TrueIndices(m[..n]) <= TrueIndices(m)
    decreases |m| - n
  {
    if n == |m| {
      assert m[..n] == m;
    } else {
      TrueIndicesStep(m, n);
      TrueIndicesPrefix(m, n + 1);
    }
  }

  /** A mask that never holds selects nothing. */
  lemma TrueIndicesNone(m: seq<bool>)
    requires forall k :: 0 <= k < |m| ==> !m[k]
    ensures TrueIndices(m) == []
  {
  }

  /** Bounding every element bounds the sum by the count times the bound. */
  lemma {:induction false} SumBounds(s: seq<real>, lo: real, hi: real)
    requires forall i :: 0 <= i < |s| ==> lo <= s[i] <= hi
    ensures lo * |s| as real <= Sum(s) <= hi * |s| as real
  {
    if |s| > 0 {
      var n := |s| as real;
      SumBounds(s[..|s| - 1], lo, hi);
      assert lo * (n - 1.0) + lo == lo * n;
      assert hi * (n - 1.0) + hi == hi * n;
    }
  }

  /** A sum of non-negative elements is non-negative, and zero exactly when every element is zero. */
  lemma {:induction false} SumNonnegative(s: seq<real>)
    requires forall i :: 0 <= i < |s| ==> s[i] >= 0.0
    ensures Sum(s) >= 0.0
    ensures Sum(s) == 0.0 <==> forall i :: 0 <= i < |s| ==> s[i] == 0.0
  {
    if |s| > 0 {
      var init := s[..|s| - 1];
      SumNonnegative(init);
      if Sum(s) == 0.0 {
        forall i | 0 <= i < |s| ensures s[i] == 0.0 {
          if i < |s| - 1 { assert init[i] == s[i]; }
        }
      }
    }
  }

  /** Appending an element adds it to the sum. */
  lemma SumAppend(s: seq<real>, x: real)
    ensures Sum(s + [x]) == Sum(s) + x
  {
    assert (s + [x])[..|s|] == s;
  }

  lemma DivideBounds(a: real, lo: real, hi: real, n: real)
    requires n > 0.0
    requires lo * n <= a <= hi * n
    ensures lo <= a / n <= hi
  {
    var q := a / n;
    assert q * n == a;
    assert (q - lo) * n >= 0.0;
    assert (hi - q) * n >= 0.0;
  }

  /** The mean of a non-empty array lies between its smallest and its largest element. */
  lemma {:induction false} MeanWithinRange(s: seq<real>)
    requires |s| > 0
    ensures Min(s) <= Mean(s).value <= Max(s)
  {
    var lo, hi := Min(s), Max(s);
    SumBounds(s, lo, hi);
    DivideBounds(Sum(s), lo, hi, |s| as real);
  }
}
