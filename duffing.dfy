/**
 Post-processing of Duffing-oscillator runs (duffing_oscillator/ex4/ex4.py).

 `ex4b` sweeps the initial displacement; for each run it finds the strict local
 maxima of the displacement y and takes the mean peak value as the amplitude.
 Its period is the mean of T_temp: the k - 1 gaps between consecutive peak
 times, padded with a 0 to k slots (see `PeriodOffByOne`; `MeanPeriod` is the
 mean spacing of the peak times). `ex4c` sweeps the driving
 frequency; for each run it keeps the samples after the relaxation time and
 takes their maximum as the amplitude. The integration runs themselves are
 inputs here.
 */
module Duffing {
  import opened Numerics

  /** Samples before this time are transient and discarded by ex4c. */
  const RelaxationTime: real := 300.0

  // ---------------------------------------------------------------------------
  // Peaks

  /** Index w is a strict local maximum of y; the first and the last sample never are. */
  predicate IsPeak(y: seq<real>, w: int)
  {
    1 <= w <= |y| - 2 && y[w] > y[w + 1] && y[w] > y[w - 1]
  }

  function PeakMask(y: seq<real>): (m: seq<bool>)
  {
    seq(|y|, w => IsPeak(y, w))
  }

  /** The peak indices of y, in increasing order. */
  function Peaks(y: seq<real>): (p: seq<nat>)
  {
    TrueIndices(PeakMask(y))
  }

  /** The peaks among the indices below w, in increasing order. */
  function PeaksBelow(y: seq<real>, w: int): seq<nat>
  {
    TrueIndices(PeakMask(y)[..if w < 0 then 0 else if w <= |y| then w else |y|])
  }

  /** Scanning one more index appends it exactly when it is a peak. */
  lemma PeaksBelowStep(y: seq<real>, w: nat)
    requires w < |y|
    ensures PeaksBelow(y, w + 1) == PeaksBelow(y, w) + (if IsPeak(y, w) then [w] else [])
  {
    TrueIndicesStep(PeakMask(y), w);
  }

  /** The peaks found below w are the first ones of the whole list. */
  lemma PeaksBelowPrefix(y: seq<real>, w: int)
    ensures PeaksBelow(y, w) <= Peaks(y)
  {
    var m := PeakMask(y);
    TrueIndicesPrefix(m, if w < 0 then 0 else if w <= |y| then w else |y|);
    assert m[..|m|] == m;
  }

  /** A scan that stops before the last sample has found every peak: the last sample is never one. */
  lemma PeaksBelowEnd(y: seq<real>, w: int)
    requires w >= |y| - 1
    ensures PeaksBelow(y, w) == Peaks(y)
  {
    var m := PeakMask(y);
    assert m[..|m|] == m;
    if 1 <= |y| && w < |y| {
      TrueIndicesStep(m, |y| - 1);
    }
  }

  /** Peaks(y) lists the peaks of y and nothing else, in strictly increasing order. */
  lemma PeaksExact(y: seq<real>)
    ensures forall i :: 0 <= i < |Peaks(y)| ==> IsPeak(y, Peaks(y)[i])
    ensures forall w :: IsPeak(y, w) ==> w in Peaks(y)
    ensures StrictlyIncreasing(Peaks(y))
  {
    TrueIndicesExact(PeakMask(y));
  }

  /** Two neighbouring samples cannot both be peaks, so consecutive peaks are at least two apart. */
  lemma PeaksSpaced(y: seq<real>)
    ensures forall i :: 0 <= i < |Peaks(y)| - 1 ==> Peaks(y)[i] + 2 <= Peaks(y)[i + 1]
  {
    var p := Peaks(y);
    PeaksExact(y);
    forall i | 0 <= i < |p| - 1 ensures p[i] + 2 <= p[i + 1] {
      assert p[i] < p[i + 1];
      assert IsPeak(y, p[i]) && IsPeak(y, p[i + 1]);
    }
  }

  /** At most (|y| - 1) / 2 samples are peaks; in particular boundaries are excluded and |Peaks(y)| <= max(0, |y| - 2). */
  lemma PeakCountBound(y: seq<real>)
    ensures Peaks(y) == [] || 2 * |Peaks(y)| + 1 <= |y|
  {
    var p := Peaks(y);
    if p != [] {
      PeaksSpaced(y);
      var i := 0;
      while i < |p| - 1
        invariant 0 <= i <= |p| - 1
        invariant p[i] >= 1 + 2 * i
      {
        i := i + 1;
      }
      assert IsPeak(y, p[|p| - 1]);
    }
  }

  /** A monotone sequence has no peaks. */
  lemma MonotoneHasNoPeaks(y: seq<real>)
    requires (forall i :: 0 < i < |y| ==> y[i - 1] <= y[i]) || (forall i :: 0 < i < |y| ==> y[i - 1] >= y[i])
    ensures Peaks(y) == []
  {
    var m := PeakMask(y);
    forall k | 0 <= k < |m| ensures !m[k] {
    }
    TrueIndicesNone(m);
  }

  /** Two humps: [0, 1, 0, 1, 0] peaks at indices 1 and 3. */
  lemma TwoHumpsPeaks()
    ensures Peaks([0.0, 1.0, 0.0, 1.0, 0.0]) == [1, 3]
  {
    var y := [0.0, 1.0, 0.0, 1.0, 0.0];
    var m := PeakMask(y);
    assert m == [false, true, false, true, false];
    assert m[..4][..3] == m[..3];
    assert m[..3][..2] == m[..2];
    assert m[..2][..1] == m[..1];
    assert m[..1][..0] == [];
    assert m[..5] == m;
    assert m[..4] == m[..5][..4];
    assert TrueIndices(m[..1]) == [];
    assert TrueIndices(m[..2]) == [1];
    assert TrueIndices(m[..3]) == [1];
    assert TrueIndices(m[..4]) == [1, 3];
  }

  /**
   The two passes of ex4b over one run: count the peaks into k, allocate an
   integer array of exactly k entries, then write each peak index into it
   through the counter j.
   */
  method FindPeaks(y: seq<real>) returns (A: array<nat>)
    ensures A[..] == Peaks(y)
  {
    var k := CountPeaks(y);
    A := new nat[k];
    var j := 0;
    var w := 1;
    while w < |y| - 1
      invariant 1 <= w
      invariant w <= |y| - 1 || w == 1
      invariant j == |PeaksBelow(y, w)| <= k
      invariant forall i :: 0 <= i < j ==> A[i] == PeaksBelow(y, w)[i]
    {
      PeaksBelowStep(y, w);
      if y[w] > y[w + 1] && y[w] > y[w - 1] {
        PeaksBelowPrefix(y, w + 1);
        A[j] := w;
        j := j + 1;
      }
      w := w + 1;
    }
    PeaksBelowEnd(y, w);
    // The second pass filled every slot: j == k == len(A).
    assert j == k;
  }

  /** The first pass of ex4b's peak finder: k counts the strict local maxima of y. */
  method CountPeaks(y: seq<real>) returns (k: nat)
    ensures k == |Peaks(y)|
  {
    k := 0;
    var w := 1;
    while w < |y| - 1
      invariant 1 <= w
      invariant w <= |y| - 1 || w == 1
      invariant k == |PeaksBelow(y, w)|
    {
      PeaksBelowStep(y, w);
      if y[w] > y[w + 1] && y[w] > y[w - 1] {
        k := k + 1;
      }
      w := w + 1;
    }
    PeaksBelowEnd(y, w);
  }

  // ---------------------------------------------------------------------------
  // Amplitude and period

  /** np.mean(y[A]): the mean peak value; NaN when there are no peaks. */
  function Amplitude(y: seq<real>, p: seq<nat>): (a: Float)
    requires forall i :: 0 <= i < |p| ==> p[i] < |y|
    ensures a.NaN? <==> p == []
  {
    Mean(Gather(y, p))
  }

  /** With at least one peak, the amplitude lies between the smallest and the largest peak value. */
  lemma AmplitudeWithinPeakValues(y: seq<real>)
    requires Peaks(y) != []
    ensures Amplitude(y, Peaks(y)).Num?
    ensures Min(Gather(y, Peaks(y))) <= Amplitude(y, Peaks(y)).value <= Max(Gather(y, Peaks(y)))
  {
    MeanWithinRange(Gather(y, Peaks(y)));
  }

  /**
   ex4b reads the sample times only to form the gaps x[A[z+1]] - x[A[z]], so
   with fewer than two peaks it reads none; otherwise every peak needs a time.
   */
  predicate GapsDefined(t: seq<real>, p: seq<nat>)
  {
    |p| < 2 || forall i :: 0 <= i < |p| ==> p[i] < |t|
  }

  /** The k - 1 differences between consecutive peak times. */
  function Gaps(t: seq<real>, p: seq<nat>): seq<real>
    requires GapsDefined(t, p)
  {
    if |p| == 0 then [] else seq(|p| - 1, z requires 0 <= z < |p| - 1 => t[p[z + 1]] - t[p[z]])
  }

  /** T_temp in ex4b: one slot per peak, the consecutive differences first and the last slot left at 0. */
  function PeriodSlots(t: seq<real>, p: seq<nat>): (r: seq<real>)
    requires GapsDefined(t, p)
    ensures |r| == |p|
    ensures |p| == 1 ==> Sum(r) == 0.0
    ensures |p| >= 2 ==> Sum(r) == t[p[|p| - 1]] - t[p[0]]
  {
    if |p| == 0 then []
    else if |p| == 1 then [0.0]
    else
      GapsTelescope(t, p);
      SumAppend(Gaps(t, p), 0.0);
      Gaps(t, p) + [0.0]
  }

  /**
   np.mean(T_temp), as ex4b computes the period: the k - 1 gaps averaged over
   k slots; NaN when there is no peak.
   */
  function PeriodAsWritten(t: seq<real>, p: seq<nat>): (r: Float)
    requires GapsDefined(t, p)
    ensures r.NaN? <==> p == []
    ensures |p| == 1 ==> r == Num(0.0)
  {
    Mean(PeriodSlots(t, p))
  }

  /** The gaps telescope: together they span from the first peak time to the last. */
  lemma {:induction false} GapsTelescope(t: seq<real>, p: seq<nat>)
    requires forall i :: 0 <= i < |p| ==> p[i] < |t|
    requires |p| >= 1
    ensures Sum(Gaps(t, p)) == t[p[|p| - 1]] - t[p[0]]
  {
    if |p| > 1 {
      var q := p[..|p| - 1];
      GapsTelescope(t, q);
      GapsSnoc(t, p);
      SumAppend(Gaps(t, q), t[p[|p| - 1]] - t[p[|p| - 2]]);
    }
  }

  /** The gaps of a peak list are those of its prefix followed by the last gap. */
  lemma GapsSnoc(t: seq<real>, p: seq<nat>)
    requires forall i :: 0 <= i < |p| ==> p[i] < |t|
    requires |p| >= 2
    ensures Gaps(t, p) == Gaps(t, p[..|p| - 1]) + [t[p[|p| - 1]] - t[p[|p| - 2]]]
  {
    var g, h := Gaps(t, p), Gaps(t, p[..|p| - 1]);
    assert |g| == |h| + 1;
    forall z | 0 <= z < |g|
      ensures g[z] == (h + [t[p[|p| - 1]] - t[p[|p| - 2]]])[z]
    {
    }
  }

  /** Peak times increase with the peak index when the sample times increase, so every gap is positive. */
  lemma GapsPositive(t: seq<real>, p: seq<nat>)
    requires forall i :: 0 <= i < |p| ==> p[i] < |t|
    requires forall i, j :: 0 <= i < j < |t| ==> t[i] < t[j]
    requires StrictlyIncreasing(p)
    ensures forall z :: 0 <= z < |Gaps(t, p)| ==> Gaps(t, p)[z] > 0.0
  {
  }

  lemma PositiveQuotient(a: real, b: real)
    requires a > 0.0 && b > 0.0
    ensures a / b > 0.0
  {
    assert a / b * b == a;
  }

  /** The period as the mean spacing of consecutive peaks; at least two peaks are needed. */
  function MeanPeriod(t: seq<real>, p: seq<nat>): (r: Result<real>)
    requires forall i :: 0 <= i < |p| ==> p[i] < |t|
    ensures r.Err? <==> |p| < 2
    ensures r.Ok? ==> r.value == (t[p[|p| - 1]] - t[p[0]]) / (|p| - 1) as real
  {
    if |p| < 2 then Err(InsufficientPeaks)
    else
      var g := Gaps(t, p);
      GapsTelescope(t, p);
      assert |g| == |p| - 1;
      assert Mean(g) == Num(Sum(g) / (|p| - 1) as real);
      Ok(Mean(g).value)
  }

  /** On a run whose sample times increase, the mean period of its peaks is positive. */
  lemma MeanPeriodPositive(run: Trajectory)
    requires PeakTimesKnown(run)
    requires forall i, j :: 0 <= i < j < |run.t| ==> run.t[i] < run.t[j]
    requires |Peaks(run.y)| >= 2
    ensures MeanPeriod(run.t, Peaks(run.y)).value > 0.0
  {
    TrueIndicesExact(PeakMask(run.y));
    IncreasingMeanPeriod(run.t, Peaks(run.y));
  }

  /** Increasing peak indices into increasing sample times give a positive mean period. */
  lemma IncreasingMeanPeriod(t: seq<real>, p: seq<nat>)
    requires forall i :: 0 <= i < |p| ==> p[i] < |t|
    requires forall i, j :: 0 <= i < j < |t| ==> t[i] < t[j]
    requires StrictlyIncreasing(p)
    requires |p| >= 2
    ensures MeanPeriod(t, p).value > 0.0
  {
    var span := t[p[|p| - 1]] - t[p[0]];
    assert span > 0.0;
    PositiveQuotient(span, (|p| - 1) as real);
    assert MeanPeriod(t, p).value == span / (|p| - 1) as real;
  }

  /**
   The period as written divides the span of the peak times by the number of
   peaks k instead of the number of gaps k - 1: with two or more peaks it
   reports span / k where the mean spacing is span / (k - 1), and with a
   single peak it reports 0 where no period exists.
   */
  lemma PeriodOffByOne(t: seq<real>, p: seq<nat>)
    requires forall i :: 0 <= i < |p| ==> p[i] < |t|
    requires |p| >= 1
    ensures PeriodAsWritten(t, p) == Num((t[p[|p| - 1]] - t[p[0]]) / |p| as real)
    ensures |p| == 1 ==> PeriodAsWritten(t, p) == Num(0.0) && MeanPeriod(t, p).Err?
    ensures |p| >= 2 ==> MeanPeriod(t, p) == Ok((t[p[|p| - 1]] - t[p[0]]) / (|p| - 1) as real)
  {
    PeriodAsWrittenSpan(t, p);
  }

  /** The reported period is the span from the first peak time to the last, divided by the number of peaks. */
  lemma PeriodAsWrittenSpan(t: seq<real>, p: seq<nat>)
    requires forall i :: 0 <= i < |p| ==> p[i] < |t|
    requires |p| >= 1
    ensures PeriodAsWritten(t, p) == Num((t[p[|p| - 1]] - t[p[0]]) / |p| as real)
  {
    var slots := PeriodSlots(t, p);
    assert Mean(slots) == Num(Sum(slots) / |p| as real);
  }

  /** On two humps sampled at times 0..4 the peaks are two time units apart, yet ex4b reports a period of 1. */
  lemma TwoHumpsPeriod()
    ensures PeriodAsWritten([0.0, 1.0, 2.0, 3.0, 4.0], Peaks([0.0, 1.0, 0.0, 1.0, 0.0])) == Num(1.0)
    ensures MeanPeriod([0.0, 1.0, 2.0, 3.0, 4.0], Peaks([0.0, 1.0, 0.0, 1.0, 0.0])) == Ok(2.0)
  {
    TwoHumpsPeaks();
    PeriodOffByOne([0.0, 1.0, 2.0, 3.0, 4.0], [1, 3]);
  }

  /** The loop of ex4b that fills T_temp slot by slot. */
  method PeriodBuffer(t: seq<real>, A: array<nat>) returns (T: array<real>)
    requires GapsDefined(t, A[..])
    ensures T.Length == A.Length
    ensures T[..] == PeriodSlots(t, A[..])
  {
    T := new real[A.Length](_ => 0.0);
    var z := 0;
    while z < A.Length - 1
      invariant z == 0 || z <= A.Length - 1
      invariant forall i :: 0 <= i < z ==> T[i] == t[A[i + 1]] - t[A[i]]
      invariant forall i :: z <= i < T.Length ==> T[i] == 0.0
    {
      T[z] := t[A[z + 1]] - t[A[z]];
      z := z + 1;
    }
    if A.Length > 0 {
      ghost var gaps := Gaps(t, A[..]);
      assert |gaps| == A.Length - 1;
      forall i | 0 <= i < A.Length
        ensures T[..][i] == (gaps + [0.0])[i]
      {
        if i < A.Length - 1 {
          assert gaps[i] == t[A[i + 1]] - t[A[i]];
        }
      }
    }
  }

  /** ex4b's reads x[A[z]] stay inside x: there are fewer than two peaks, or every peak has a sample time. */
  predicate PeakTimesKnown(run: Trajectory)
  {
    GapsDefined(run.t, Peaks(run.y))
  }

  /** The amplitude ex4b reports for one run. */
  function RunAmplitude(run: Trajectory): Float
  {
    Amplitude(run.y, Peaks(run.y))
  }

  /** The period ex4b reports for one run. */
  function RunPeriod(run: Trajectory): Float
    requires PeakTimesKnown(run)
  {
    PeriodAsWritten(run.t, Peaks(run.y))
  }

  /** One iteration of ex4b's sweep: amplitude and period of one run. */
  method AnalyzeRun(run: Trajectory) returns (amp: Float, period: Float)
    requires PeakTimesKnown(run)
    ensures amp == RunAmplitude(run)
    ensures period == RunPeriod(run)
  {
    var A := FindPeaks(run.y);
    amp := Mean(Gather(run.y, A[..]));
    var T := PeriodBuffer(run.t, A);
    period := Mean(T[..]);
  }

  /** amp[i] = a; T[i] = p on two distinct arrays: every other slot keeps its value. */
  method Store(amp: array<Float>, T: array<Float>, i: nat, a: Float, p: Float)
    requires amp != T
    requires i < amp.Length && i < T.Length
    modifies amp, T
    ensures amp[i] == a && T[i] == p
    ensures forall k :: 0 <= k < amp.Length && k != i ==> amp[k] == old(amp[k])
    ensures forall k :: 0 <= k < T.Length && k != i ==> T[k] == old(T[k])
  {
    amp[i] := a;
    T[i] := p;
  }

  /** ex4b: amp[i] and T[i] for each run of the sweep over initial displacements. */
  method AmplitudePeriodSweep(runs: seq<Trajectory>) returns (T: array<Float>, amp: array<Float>)
    requires forall i :: 0 <= i < |runs| ==> PeakTimesKnown(runs[i])
    ensures T.Length == |runs| && amp.Length == |runs|
    ensures forall i :: 0 <= i < |runs| ==> amp[i] == RunAmplitude(runs[i]) && T[i] == RunPeriod(runs[i])
  {
    amp := new Float[|runs|](_ => Num(0.0));
    T := new Float[|runs|](_ => Num(0.0));
    for i := 0 to |runs|
      invariant forall j :: 0 <= j < i ==> amp[j] == RunAmplitude(runs[j]) && T[j] == RunPeriod(runs[j])
    {
      var run := runs[i];
      assert PeakTimesKnown(run);
      var a, p := AnalyzeRun(run);
      Store(amp, T, i, a, p);
    }
  }

  // ---------------------------------------------------------------------------
  // Relaxation window

  /** y[t >= 300]: the samples after the relaxation time, in their original order. */
  function RelaxationWindow(run: Trajectory): (w: seq<real>)
    requires run.Valid()
    ensures |w| <= |run.y|
    ensures forall k :: 0 <= k < |run.t| && run.t[k] >= RelaxationTime ==> run.y[k] in w
    ensures forall v :: v in w ==> exists k :: 0 <= k < |run.t| && run.t[k] >= RelaxationTime && run.y[k] == v
  {
    var mask := seq(|run.t|, i requires 0 <= i < |run.t| => run.t[i] >= RelaxationTime);
    var idx := TrueIndices(mask);
    TrueIndicesExact(mask);
    var w := Compress(run.y, mask);
    assert forall k :: 0 <= k < |run.t| && run.t[k] >= RelaxationTime ==> run.y[k] in w by {
      forall k | 0 <= k < |run.t| && run.t[k] >= RelaxationTime
        ensures run.y[k] in w
      {
        assert mask[k];
        var i :| 0 <= i < |idx| && idx[i] == k;
        assert w[i] == run.y[k];
      }
    }
    assert forall v :: v in w ==> exists k :: 0 <= k < |run.t| && run.t[k] >= RelaxationTime && run.y[k] == v by {
      forall v | v in w
        ensures exists k :: 0 <= k < |run.t| && run.t[k] >= RelaxationTime && run.y[k] == v
      {
        var i :| 0 <= i < |w| && w[i] == v;
        assert mask[idx[i]];
      }
    }
    w
  }

  /** The window keeps exactly the samples at times >= 300, each once, in their original order. */
  lemma RelaxationWindowExact(run: Trajectory)
    requires run.Valid()
    ensures var idx := TrueIndices(seq(|run.t|, i requires 0 <= i < |run.t| => run.t[i] >= RelaxationTime));
      && |RelaxationWindow(run)| == |idx|
      && StrictlyIncreasing(idx)
      && (forall i :: 0 <= i < |idx| ==> run.t[idx[i]] >= RelaxationTime && RelaxationWindow(run)[i] == run.y[idx[i]])
      && (forall k :: 0 <= k < |run.t| && run.t[k] >= RelaxationTime ==> k in idx)
  {
    TrueIndicesExact(seq(|run.t|, i requires 0 <= i < |run.t| => run.t[i] >= RelaxationTime));
  }

  /** Run j is the first run of the sweep whose relaxed amplitude raises. */
  predicate FirstFailure(runs: seq<Trajectory>, j: int)
  {
    0 <= j < |runs| && RelaxedAmplitude(runs[j]).Err? && forall i :: 0 <= i < j ==> RelaxedAmplitude(runs[i]).Ok?
  }

  /**
   amp[j] = max(y) over the window. A mask from t of another length than y
   makes y[i] raise IndexError; an empty window makes max() raise.
   */
  function RelaxedAmplitude(run: Trajectory): (r: Result<real>)
    ensures r.Err? <==> !run.Valid() || forall k :: 0 <= k < |run.t| ==> run.t[k] < RelaxationTime
    ensures r.Err? ==> r.error == (if run.Valid() then EmptySequence else MaskMismatch)
    ensures r.Ok? ==>
      && run.Valid()
      && (exists k :: 0 <= k < |run.t| && run.t[k] >= RelaxationTime && run.y[k] == r.value)
      && (forall k :: 0 <= k < |run.t| && run.t[k] >= RelaxationTime ==> run.y[k] <= r.value)
  {
    if !run.Valid() then Err(MaskMismatch)
    else
      var w := RelaxationWindow(run);
      if |w| == 0 then Err(EmptySequence) else Ok(Max(w))
  }

  /** ex4c: the relaxed amplitude of each run of the frequency sweep; the first run that raises aborts it. */
  method ResonanceSweep(runs: seq<Trajectory>) returns (r: Result<array<real>>)
    ensures r.Ok? <==> forall j :: 0 <= j < |runs| ==> RelaxedAmplitude(runs[j]).Ok?
    ensures r.Err? ==> exists j :: 0 <= j < |runs| && RelaxedAmplitude(runs[j]) == Err(r.error) && FirstFailure(runs, j)
    ensures r.Ok? ==> r.value.Length == |runs| && forall j :: 0 <= j < |runs| ==> r.value[j] == RelaxedAmplitude(runs[j]).value
  {
    var amp := new real[|runs|](_ => 0.0);
    for j := 0 to |runs|
      invariant forall i :: 0 <= i < j ==> RelaxedAmplitude(runs[i]).Ok? && amp[i] == RelaxedAmplitude(runs[i]).value
    {
      var a := RelaxedAmplitude(runs[j]);
      if a.Err? {
        r := Err(a.error);
        assert FirstFailure(runs, j);
        return;
      }
      ghost var amp0 := amp[..];
      amp[j] := a.value;
      assert amp[..] == amp0[j := a.value];
    }
    r := Ok(amp);
  }
}
