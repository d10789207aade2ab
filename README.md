# Post-processing of ODE integration runs

This project models the analysis code of a set of coursework scripts. The scripts integrate ordinary differential equations with fixed-step methods (Euler, midpoint, RK4) and then post-process the sampled trajectories. The integrators live in modules that are not part of this model, so their outputs are inputs here. What is modelled is the post-processing:

- **Duffing oscillator, `ex4b`**: a peak finder over one run's displacement samples, followed by the amplitude and the period.
  - The peak finder is a two-pass scan. The first pass counts strict local maxima into `k`. The second writes their indices, in order, into an integer array of exactly `k` entries through a counter `j`.
  - The amplitude is the mean peak value (`np.mean(y[A])`).
  - The period is the mean of a buffer `T_temp` of `k` slots. Only the first `k - 1` slots are filled with consecutive peak-time differences.
  - An outer sweep writes `amp[i]` and `T[i]` for each run.
- **Duffing oscillator, `ex4c`**: a relaxation filter that keeps the samples at times `>= 300` in their original order. The amplitude is their maximum, taken with Python's builtin `max`. A sweep over the driving frequencies fills `amp[j]` for each run.
- **Convergence study, `comp_euler`, `comp_mp` and `comp_rk4`**: the three functions run the same post-processing on a different integrator's arrays, so one method, `CompareWithReference`, models all three (lines 13-35, 45-64 and 66-89 of `conv/ex2/ex2.py`).
  - The sample points and values are copied into fresh zero arrays of the integrator's step count `n` (`dst[:] = src[:]`).
  - The closed-form solution is evaluated at the copied points.
  - The absolute deviations are averaged with `np.mean`.

Modules:

- `Numerics` (numerics.dfy) holds the numpy and builtin semantics the scripts rely on:
  - `np.mean`, which gives NaN on an empty array;
  - the builtin `max`;
  - boolean-mask indexing (`TrueIndices`, `Compress`);
  - integer indexing (`Gather`).
- `Duffing` (duffing.dfy) models `duffing_oscillator/ex4/ex4.py`.
- `Convergence` (convergence.dfy) models `conv/ex2/ex2.py`.

The peak finder's array, the `T_temp` buffer, the copied buffers and the sweep outputs are Dafny arrays filled by loops, as in the source. The methods are proved against specification functions (`Peaks`, `PeriodSlots`, `Broadcast`, `RelaxedAmplitude`). The properties are then proved about those functions.

Some behaviours could reasonably be expected to differ from what the code does. The model follows the code:

- **Amplitude with no peaks.** One could expect the amplitude to fail on an empty peak set. The code takes `np.mean` of an empty array instead, which is NaN. The model returns `Float.NaN`.
- **Period.** A period is naturally the mean of the consecutive peak gaps, which needs at least two peaks. The code instead averages `k - 1` gaps over `k` slots (see Findings). The model reproduces that, and gives the mean-gap period separately as `MeanPeriod`.
- **Length mismatch in the convergence study.** One could expect the deviation to reject values and reference points of different lengths. The code's only length check is numpy's broadcasting in `dst[:] = src[:]`: a length-1 source is repeated, and any other mismatch raises. `CopyInto` models exactly that.
- **Length mismatch in `ex4c`.** `y[t >= 300]` raises `IndexError` when the mask built from `t` and the array `y` differ in length. `RelaxedAmplitude` returns `MaskMismatch` in that case, and `ResonanceSweep` stops at the first run that raises.
- **Time array in `ex4b`.** `ex4b` reads `x` only to form the gaps between consecutive peaks, so with fewer than two peaks it never reads `x`, and otherwise it runs whenever every peak index is inside `x`, whatever the two lengths. The model requires exactly that condition (`GapsDefined`, and `PeakTimesKnown` for a run); a run with one peak reports period 0 (`PeriodAsWritten`).
- **Peak set.** Peaks could be kept as (index, time, value) triples. The code keeps only the indices. The model does the same.

## Model

| member | source | states |
|---|---|---|
| `Numerics.Abs` | conv/ex2/ex2.py:27 | the absolute value is non-negative and equals r or -r |
| `Numerics.SumAppend` | duffing_oscillator/ex4/ex4.py:56 | appending an element adds it to the sum |
| `Numerics.Mean` | duffing_oscillator/ex4/ex4.py:52 | `np.mean` is NaN exactly when the array is empty |
| `Numerics.MeanWithinRange` | duffing_oscillator/ex4/ex4.py:52 | the mean of a non-empty array lies between its smallest and largest element |
| `Numerics.Max` | duffing_oscillator/ex4/ex4.py:74 | builtin `max` of a non-empty array returns one of its elements, and that element is at least every element |
| `Numerics.TrueIndices` | duffing_oscillator/ex4/ex4.py:71-73 | each position selected by a boolean mask is in range, and the mask holds there |
| `Numerics.TrueIndicesExact` | duffing_oscillator/ex4/ex4.py:71-73 | every position where the mask holds is selected, and the selected positions are strictly increasing |
| `Numerics.TrueIndicesStep` | duffing_oscillator/ex4/ex4.py:39-41 | scanning one more mask entry appends its position exactly when the entry holds |
| `Numerics.TrueIndicesPrefix` | duffing_oscillator/ex4/ex4.py:47-50 | the positions selected in a prefix of the mask are a prefix of all selected positions |
| `Numerics.SumNonnegative` | conv/ex2/ex2.py:29 | a sum of non-negative terms is non-negative, and it is zero iff every term is zero |
| `Duffing.PeaksExact` | duffing_oscillator/ex4/ex4.py:39-50 | every listed index w is a strict local maximum with 1 <= w <= len(y)-2, every strict local maximum is listed, and the list is strictly increasing |
| `Duffing.PeaksBelowStep` | duffing_oscillator/ex4/ex4.py:40-41 | one step of the scan over w adds w exactly when y[w] exceeds both neighbours |
| `Duffing.PeaksBelowPrefix` | duffing_oscillator/ex4/ex4.py:47-50 | the peaks found before w are the first entries of the full list, so j never passes k |
| `Duffing.PeaksBelowEnd` | duffing_oscillator/ex4/ex4.py:39 | stopping at len(y)-2 loses nothing, because the last sample is never a peak |
| `Duffing.PeaksSpaced` | duffing_oscillator/ex4/ex4.py:40 | two adjacent samples cannot both be peaks, so consecutive peak indices differ by at least 2 |
| `Duffing.PeakCountBound` | duffing_oscillator/ex4/ex4.py:39-41 | either there are no peaks, or 2k + 1 <= len(y); hence k <= max(0, len(y)-2) |
| `Duffing.MonotoneHasNoPeaks` | duffing_oscillator/ex4/ex4.py:39-41 | a non-decreasing or non-increasing sequence gives k == 0 |
| `Duffing.TwoHumpsPeaks` | duffing_oscillator/ex4/ex4.py:39-50 | [0,1,0,1,0] gives the peak indices [1,3] |
| `Duffing.CountPeaks` | duffing_oscillator/ex4/ex4.py:37-41 | the first pass ends with k equal to the number of peaks |
| `Duffing.FindPeaks` | duffing_oscillator/ex4/ex4.py:37-50 | the count pass and the fill pass produce exactly the peak list: A has k entries, j ends at k, A[..] == Peaks(y) |
| `Duffing.Amplitude` | duffing_oscillator/ex4/ex4.py:52 | the amplitude is NaN exactly when no peak was found |
| `Duffing.AmplitudeWithinPeakValues` | duffing_oscillator/ex4/ex4.py:52 | with at least one peak, the amplitude lies between the smallest and the largest peak value |
| `Duffing.PeriodSlots` | duffing_oscillator/ex4/ex4.py:53-55 | T_temp has one slot per peak; its slots sum to 0 for one peak and to the last peak time minus the first for two or more |
| `Duffing.PeriodAsWritten` | duffing_oscillator/ex4/ex4.py:53-56 | the reported period is NaN exactly when there is no peak, and 0 when there is one (x is then never read) |
| `Duffing.PeriodBuffer` | duffing_oscillator/ex4/ex4.py:53-55 | T_temp has k slots; slot z < k-1 holds x[A[z+1]] - x[A[z]], and the last slot stays 0 |
| `Duffing.GapsTelescope` | duffing_oscillator/ex4/ex4.py:54-55 | the consecutive peak-time differences sum to the last peak time minus the first |
| `Duffing.GapsSnoc` | duffing_oscillator/ex4/ex4.py:54-55 | the gaps of k peaks are the gaps of the first k-1 peaks followed by the last gap |
| `Duffing.GapsPositive` | duffing_oscillator/ex4/ex4.py:55 | with increasing sample times and increasing peak indices, every difference is positive |
| `Duffing.PeriodAsWrittenSpan` | duffing_oscillator/ex4/ex4.py:53-56 | the reported period is (last peak time - first peak time) / k |
| `Duffing.MeanPeriod` | duffing_oscillator/ex4/ex4.py:53-56 | corrected period: an error with fewer than two peaks, otherwise (last - first) / (k - 1) |
| `Duffing.MeanPeriodPositive` | duffing_oscillator/ex4/ex4.py:53-56 | on a run with increasing sample times, every peak timed and at least two peaks, the corrected period is positive |
| `Duffing.IncreasingMeanPeriod` | duffing_oscillator/ex4/ex4.py:53-56 | strictly increasing peak indices into strictly increasing sample times give a positive corrected period |
| `Duffing.PeriodOffByOne` | duffing_oscillator/ex4/ex4.py:53-56 | the reported period divides the span by k, the mean spacing divides it by k-1, and one peak reports 0 where no period exists |
| `Duffing.TwoHumpsPeriod` | duffing_oscillator/ex4/ex4.py:53-56 | peaks at times 1 and 3 are reported with period 1, while their spacing is 2 |
| `Duffing.AnalyzeRun` | duffing_oscillator/ex4/ex4.py:36-56 | when ex4b's reads of x stay in range (fewer than two peaks, or every peak has a sample time), one run's amplitude and period are the mean peak value and the as-written period of that run's peaks |
| `Duffing.Store` | duffing_oscillator/ex4/ex4.py:52-56 | writing amp[i] and T[i] sets exactly those two slots and leaves every other slot of both arrays unchanged |
| `Duffing.AmplitudePeriodSweep` | duffing_oscillator/ex4/ex4.py:31-57 | amp[i] and T[i] hold the amplitude and period of run i, for every run |
| `Duffing.RelaxationWindow` | duffing_oscillator/ex4/ex4.py:71-73 | the window is no longer than y, keeps the y of every sample with t >= 300, and holds only such values |
| `Duffing.RelaxationWindowExact` | duffing_oscillator/ex4/ex4.py:71-73 | the window keeps exactly the samples with t >= 300, each once, in their original order |
| `Duffing.RelaxedAmplitude` | duffing_oscillator/ex4/ex4.py:71-74 | y[i] raises iff t and y differ in length; otherwise max() raises iff no sample has t >= 300, and else the result is the y of some such sample and at least the y of every such sample |
| `Duffing.ResonanceSweep` | duffing_oscillator/ex4/ex4.py:65-76 | succeeds iff no run raises, and then amp[j] is run j's relaxed amplitude; otherwise it reports the error of the first run that raises |
| `Convergence.CopyInto` | conv/ex2/ex2.py:20-23 | the copy has length n; with len(src) == n it equals src, with len(src) == 1 it repeats src[0], and otherwise the copy fails |
| `Convergence.Deviation` | conv/ex2/ex2.py:27 | the deviation has the length of the values; every entry is >= 0, and an entry is 0 iff the value equals the reference there |
| `Convergence.MeanAbsDeviation` | conv/ex2/ex2.py:29 | the mean deviation is NaN only for n == 0; otherwise it is >= 0, and it is 0 iff the values equal the reference element-wise |
| `Convergence.MeanAbsDeviationExample` | conv/ex2/ex2.py:27-29 | the values [2,4] against the reference [2,5] give a mean deviation of 0.5 |
| `Convergence.CompareWithReference` | conv/ex2/ex2.py:20-29 | it fails on a shape mismatch in either copy; otherwise it returns the mean absolute deviation of the copied values from sol at the copied points, which is >= 0 and is 0 iff the values match sol everywhere |

## Findings

| source | as written | input that shows it | evidently intended | confidence | as-written member | corrected member |
|---|---|---|---|---|---|---|
| duffing_oscillator/ex4/ex4.py:53-56 | T_temp has len(A) slots, but only len(A)-1 are filled with peak-time differences, and the mean is taken over all len(A) slots | y = [0,1,0,1,0] sampled at t = [0,1,2,3,4]: the peaks at times 1 and 3 are reported with period 1.0 instead of 2.0; a run with one peak reports period 0 | the mean of the len(A)-1 consecutive differences, with no period when there are fewer than two peaks | high; not executed | `Duffing.PeriodOffByOne` | `Duffing.MeanPeriod` |

`AnalyzeRun` and `AmplitudePeriodSweep` keep the period as the script reports it, so that they describe what `ex4b` returns. `MeanPeriod` is the corrected definition, and its properties are proved (`MeanPeriodPositive`, `PeriodOffByOne`).

## Left out

- The integrators `df.rk4`, `dft.rk4df_t`, `euler.it`, `mp.it` and `rk4.it` are not part of this model, and neither is the `lorenz` module. A run's sample times and values, and the step count `n`, are inputs.
- `ex4a` (duffing_oscillator/ex4/ex4.py:8-20) is left out. It sets module globals, calls the integrator and copies the two output arrays; the copy is the same operation as `CopyInto`.
- The module-global configuration (`df.a = ...`, `euler.h = ...`) is left out. It only parameterises the integrators.
- The `np.linspace` grids (duffing_oscillator/ex4/ex4.py:29 and 64) are left out. Each sweep takes one run per grid point.
- A run whose peak index falls outside a time array makes `ex4b` raise `IndexError` (when there are at least two peaks). The model does not give this error path; `PeakTimesKnown` and `GapsDefined` exclude those runs.
- `RelaxationWindow`, `RelaxationWindowExact`: require the time and value arrays to have the same length (`Trajectory.Valid`), because `y[t >= 300]` does not exist otherwise; `RelaxedAmplitude` covers the other case as an error.
- `ex4c` allocates `amp` with a fixed size of 100, matching its 100-point grid. `ResonanceSweep` sizes it by the number of runs.
- `ex4c` also filters `t` itself (line 72), but never uses the result, so that line is left out.
- The closed-form reference `sol` (conv/ex2/ex2.py:9-11) uses a floating-point square root. It is left out and becomes a parameter `sol: real -> real`.
- The comparison "the error shrinks with the step size, and RK4 beats Euler" depends on the integrators, so it is not stated.
- Plotting, `plt.show`, figure saving and printing are left out: duffing_oscillator/ex4/ex4.py:84-125, conv/ex2/ex2.py:31-33 and 37-41, and all of lorenz_system/ex3/ex3.py.
- Floating point is left out. Values are exact reals, with no IEEE rounding. The only NaN modelled is the mean of an empty array; NaN samples in the input and NaN from `sqrt` of a negative number are not.
- The broken code around `ex4b` is left out, and its analysis is modelled on a run directly. Line 25 reads the undefined `arg2` (a `NameError`), lines 95-100 call `ex4b` with two arguments although it takes one, and lines 79-82 are mis-indented.
