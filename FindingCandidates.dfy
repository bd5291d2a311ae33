/** src/candidacy/finding_candidates.rs: the box-least-squares style sweep.
    For each trial period the cleaned light curve is folded into phases,
    averaged into bins, and a box of each trial duration slides over the bins
    looking for the deepest dip; the dip is scored by a signal-to-noise
    ratio and the best-scoring period is the transit estimate. */
module FindingCandidates {
  import opened Wrappers
  import opened Samples

  /** The largest `usize` (a 64-bit target): `as usize` saturates here. */
  const UsizeMax: nat := 0xFFFF_FFFF_FFFF_FFFF

  /** `as usize` on a finite value already rounded to an integer. */
  function Saturate(i: int): (r: nat)
    ensures 0 <= i <= UsizeMax ==> r == i
    ensures i < 0 ==> r == 0
    ensures r <= UsizeMax
  {
    if i < 0 then 0 else if i > UsizeMax then UsizeMax else i
  }

  /** Rounding toward zero, the quotient used by `f64 %`. */
  function Trunc(x: real): (r: int)
    ensures -1.0 < x - r as real < 1.0
    ensures x >= 0.0 ==> 0.0 <= x - r as real
    ensures x <= 0.0 ==> x - r as real <= 0.0
  {
    if x >= 0.0 then x.Floor else -((-x).Floor)
  }

  // ---------------------------------------------------------------------
  // get_phases
  // ---------------------------------------------------------------------

  /** `(t % period) / period`: `f64 %` keeps the sign of `t`, and a zero
      period gives NaN. */
  function FoldPhase(t: real, period: real): Sample
  {
    if period == 0.0 then Masked else Val((t - period * Trunc(t / period) as real) / period)
  }

  /** The folded phase is the signed fractional part of `t / period`. */
  lemma FoldPhaseFraction(t: real, period: real)
    requires period != 0.0
    ensures FoldPhase(t, period) == Val(t / period - Trunc(t / period) as real)
  {
    var q := Trunc(t / period) as real;
    calc {
      (t - period * q) / period;
      t / period - (period * q) / period;
      t / period - q;
    }
  }

  /** A phase lies strictly between -1 and 1, and in `[0, 1)` for a
      non-negative time and a positive period. */
  lemma FoldPhaseBounds(t: real, period: real)
    requires period != 0.0
    ensures FoldPhase(t, period).Val?
    ensures -1.0 < FoldPhase(t, period).v < 1.0
    ensures t >= 0.0 && period > 0.0 ==> 0.0 <= FoldPhase(t, period).v
  {
    FoldPhaseFraction(t, period);
    if t >= 0.0 && period > 0.0 {
      assert t / period >= 0.0;
    }
  }

  lemma DivShift(t: real, p: real)
    requires p != 0.0
    ensures (t + p) / p == t / p + 1.0
  {
    calc {
      (t + p) / p;
      t / p + p / p;
      t / p + 1.0;
    }
  }

  /** Folding is periodic: one more period does not move the phase. */
  lemma FoldPhasePeriodic(t: real, period: real)
    requires t >= 0.0 && period > 0.0
    ensures FoldPhase(t + period, period) == FoldPhase(t, period)
  {
    FoldPhaseFraction(t, period);
    FoldPhaseFraction(t + period, period);
    var x := t / period;
    DivShift(t, period);
    assert x >= 0.0;
    var q, q' := Trunc(x), Trunc(x + 1.0);
    assert 0.0 <= x - q as real < 1.0 && 0.0 <= x + 1.0 - q' as real < 1.0;
    assert q' == q + 1;
  }

  /** `get_phases`: one phase per time stamp, in order. */
  method GetPhases(times: seq<real>, period: real) returns (phases: seq<Sample>)
    ensures |phases| == |times|
    ensures forall i :: 0 <= i < |times| ==> phases[i] == FoldPhase(times[i], period)
  {
    phases := [];
    for i := 0 to |times|
      invariant |phases| == i
      invariant forall j :: 0 <= j < i ==> phases[j] == FoldPhase(times[j], period)
    {
      phases := phases + [FoldPhase(times[i], period)];
    }
  }

  // ---------------------------------------------------------------------
  // binning
  // ---------------------------------------------------------------------

  /** `(phase * n_bins as f64).floor() as usize`; NaN becomes 0. */
  function BinIndex(phase: Sample, nBins: nat): nat
  {
    if phase.Masked? then 0 else Saturate((phase.v * nBins as real).Floor)
  }

  /** Every folded phase lands in one of `nBins > 0` bins, so `binning`
      never indexes out of range on folded phases. */
  lemma FoldedBinInRange(t: real, period: real, nBins: nat)
    requires nBins > 0
    ensures BinIndex(FoldPhase(t, period), nBins) < nBins
  {
    if period != 0.0 {
      FoldPhaseBounds(t, period);
      var p := FoldPhase(t, period).v;
      var n := nBins as real;
      var y := p * n;
      assert (1.0 - p) * n > 0.0;
      assert y == n - (1.0 - p) * n;
      assert y.Floor as real <= y;
      assert y.Floor < nBins;
      assert BinIndex(FoldPhase(t, period), nBins) == Saturate(y.Floor);
    }
  }

  /** Number of `(flux, phase)` pairs `zip` produces. */
  function Pairs(flux: seq<Sample>, phases: seq<Sample>): nat
  {
    if |flux| < |phases| then |flux| else |phases|
  }

  /** The flux samples among the first `m` pairs whose phase falls in bin `b`,
      in input order. */
  ghost function Members(flux: seq<Sample>, phases: seq<Sample>, nBins: nat, b: nat, m: nat): seq<Sample>
    requires m <= Pairs(flux, phases)
  {
    if m == 0 then []
    else Members(flux, phases, nBins, b, m - 1)
         + (if BinIndex(phases[m - 1], nBins) == b then [flux[m - 1]] else [])
  }

  /** Left-to-right `f64` sum of `a[lo..hi]`, starting at 0.0. */
  function RangeTotal(a: seq<Sample>, lo: nat, hi: nat): Sample
    requires lo <= hi <= |a|
    decreases hi - lo
  {
    if lo == hi then Val(0.0) else Add(RangeTotal(a, lo, hi - 1), a[hi - 1])
  }

  /** The sum of a whole sequence: `iter().sum()`. */
  function Total(s: seq<Sample>): Sample
  {
    RangeTotal(s, 0, |s|)
  }

  /** A sum is finite exactly when every term is. */
  lemma {:induction false} RangeTotalFinite(a: seq<Sample>, lo: nat, hi: nat)
    requires lo <= hi <= |a|
    ensures RangeTotal(a, lo, hi).Val? <==> forall i :: lo <= i < hi ==> a[i].Val?
    decreases hi - lo
  {
    if lo < hi {
      RangeTotalFinite(a, lo, hi - 1);
    }
  }

  /** The sum only reads the summed range. */
  lemma {:induction false} RangeTotalPrefix(a: seq<Sample>, b: seq<Sample>, lo: nat, hi: nat)
    requires lo <= hi <= |a|
    ensures RangeTotal(a + b, lo, hi) == RangeTotal(a, lo, hi)
    decreases hi - lo
  {
    if lo < hi {
      RangeTotalPrefix(a, b, lo, hi - 1);
    }
  }

  /** Peeling the first term off a sum. */
  lemma {:induction false} RangeTotalFront(a: seq<Sample>, lo: nat, hi: nat)
    requires lo < hi <= |a|
    ensures RangeTotal(a, lo, hi) == Add(Add(Val(0.0), a[lo]), RangeTotal(a, lo + 1, hi))
    decreases hi - lo
  {
    if lo + 1 < hi {
      RangeTotalFront(a, lo, hi - 1);
    }
  }

  lemma TotalSnoc(s: seq<Sample>, x: Sample)
    ensures Total(s + [x]) == Add(Total(s), x)
  {
    RangeTotalPrefix(s, [x], 0, |s|);
  }

  /** An empty bin is 0.0, otherwise the mean of its samples. */
  function BinMean(s: seq<Sample>): Sample
  {
    if |s| == 0 then Val(0.0) else Div(Total(s), |s| as real)
  }

  /** What `binning` returns as `binned_flux`. */
  ghost function BinnedFlux(flux: seq<Sample>, phases: seq<Sample>, nBins: nat): (r: seq<Sample>)
    ensures |r| == nBins
  {
    seq(nBins, b requires 0 <= b < nBins => BinMean(Members(flux, phases, nBins, b, Pairs(flux, phases))))
  }

  /** What `binning` returns as `count`. */
  ghost function BinCounts(flux: seq<Sample>, phases: seq<Sample>, nBins: nat): (r: seq<nat>)
    ensures |r| == nBins
  {
    seq(nBins, b requires 0 <= b < nBins => |Members(flux, phases, nBins, b, Pairs(flux, phases))|)
  }

  /** Every pair's bin index is in range: otherwise `count[bin_index]`
      panics. */
  ghost predicate BinsInRange(flux: seq<Sample>, phases: seq<Sample>, nBins: nat)
  {
    forall i :: 0 <= i < Pairs(flux, phases) ==> BinIndex(phases[i], nBins) < nBins
  }

  /** One pair of the accumulation loop: `count[b] += 1; sum_flux[b] += f`. */
  method Accumulate(count: array<nat>, sums: array<Sample>, flux: seq<Sample>, phases: seq<Sample>, i: nat)
    requires count != sums as object
    requires count.Length == sums.Length
    requires i < Pairs(flux, phases) && BinIndex(phases[i], count.Length) < count.Length
    requires forall b :: 0 <= b < count.Length ==>
      count[b] == |Members(flux, phases, count.Length, b, i)| && sums[b] == Total(Members(flux, phases, count.Length, b, i))
    modifies count, sums
    ensures forall b :: 0 <= b < count.Length ==>
      count[b] == |Members(flux, phases, count.Length, b, i + 1)| && sums[b] == Total(Members(flux, phases, count.Length, b, i + 1))
  {
    var bin := BinIndex(phases[i], count.Length);
    TotalSnoc(Members(flux, phases, count.Length, bin, i), flux[i]);
    count[bin] := count[bin] + 1;
    sums[bin] := Add(sums[bin], flux[i]);
    forall b | 0 <= b < count.Length
      ensures count[b] == |Members(flux, phases, count.Length, b, i + 1)|
      ensures sums[b] == Total(Members(flux, phases, count.Length, b, i + 1))
    {
      if b != bin {
        assert Members(flux, phases, count.Length, b, i + 1) == Members(flux, phases, count.Length, b, i);
      }
    }
  }

  /** `binning`: the mean flux and the number of samples in each phase bin. */
  method Binning(flux: seq<Sample>, phases: seq<Sample>, nBins: nat) returns (binned: seq<Sample>, count: seq<nat>)
    requires BinsInRange(flux, phases, nBins)
    ensures binned == BinnedFlux(flux, phases, nBins)
    ensures count == BinCounts(flux, phases, nBins)
  {
    var counts := new nat[nBins](_ => 0);
    var sums := new Sample[nBins](_ => Val(0.0));
    var n := Pairs(flux, phases);
    for i := 0 to n
      invariant forall b :: 0 <= b < nBins ==>
        counts[b] == |Members(flux, phases, nBins, b, i)| && sums[b] == Total(Members(flux, phases, nBins, b, i))
    {
      Accumulate(counts, sums, flux, phases, i);
    }
    binned := [];
    for b := 0 to nBins
      invariant |binned| == b
      invariant forall c :: 0 <= c < b ==> binned[c] == BinMean(Members(flux, phases, nBins, c, n))
    {
      if counts[b] == 0 {
        binned := binned + [Val(0.0)];
      } else {
        binned := binned + [Div(sums[b], counts[b] as real)];
      }
    }
    count := counts[..];
  }

  /** Sum of the counts `c[lo..hi]` (`u32` sums; no overflow modelled). */
  function CountSum(c: seq<nat>, lo: nat, hi: nat): nat
    requires lo <= hi <= |c|
    decreases hi - lo
  {
    if lo == hi then 0 else CountSum(c, lo, hi - 1) + c[hi - 1]
  }

  /** Adding one to a count adds one to every sum that covers it. */
  lemma {:induction false} CountSumIncrement(c: seq<nat>, k: nat, hi: nat)
    requires k < |c| && hi <= |c|
    ensures CountSum(c[k := c[k] + 1], 0, hi) == CountSum(c, 0, hi) + (if k < hi then 1 else 0)
  {
    if hi > 0 {
      CountSumIncrement(c, k, hi - 1);
    }
  }

  lemma {:induction false} CountSumZeros(c: seq<nat>, hi: nat)
    requires hi <= |c|
    requires forall i :: 0 <= i < |c| ==> c[i] == 0
    ensures CountSum(c, 0, hi) == 0
  {
    if hi > 0 {
      CountSumZeros(c, hi - 1);
    }
  }

  /** Peeling the first count off a sum. */
  lemma {:induction false} CountSumFront(c: seq<nat>, lo: nat, hi: nat)
    requires lo < hi <= |c|
    ensures CountSum(c, lo, hi) == c[lo] + CountSum(c, lo + 1, hi)
    decreases hi - lo
  {
    if lo + 1 < hi {
      CountSumFront(c, lo, hi - 1);
    }
  }

  /** The bin sizes after `m` pairs. */
  ghost function CountsUpTo(flux: seq<Sample>, phases: seq<Sample>, nBins: nat, m: nat): (r: seq<nat>)
    requires m <= Pairs(flux, phases)
    ensures |r| == nBins
  {
    seq(nBins, b requires 0 <= b < nBins => |Members(flux, phases, nBins, b, m)|)
  }

  lemma {:induction false} CountsUpToSum(flux: seq<Sample>, phases: seq<Sample>, nBins: nat, m: nat)
    requires m <= Pairs(flux, phases) && BinsInRange(flux, phases, nBins)
    ensures CountSum(CountsUpTo(flux, phases, nBins, m), 0, nBins) == m
  {
    if m == 0 {
      CountSumZeros(CountsUpTo(flux, phases, nBins, 0), nBins);
    } else {
      CountsUpToSum(flux, phases, nBins, m - 1);
      var prev := CountsUpTo(flux, phases, nBins, m - 1);
      var bin := BinIndex(phases[m - 1], nBins);
      assert CountsUpTo(flux, phases, nBins, m) == prev[bin := prev[bin] + 1];
      CountSumIncrement(prev, bin, nBins);
    }
  }

  /** Every pair is counted once: the bin counts add up to the number of
      `(flux, phase)` pairs. */
  lemma BinCountsTotal(flux: seq<Sample>, phases: seq<Sample>, nBins: nat)
    requires BinsInRange(flux, phases, nBins)
    ensures CountSum(BinCounts(flux, phases, nBins), 0, nBins) == Pairs(flux, phases)
  {
    CountsUpToSum(flux, phases, nBins, Pairs(flux, phases));
    assert BinCounts(flux, phases, nBins) == CountsUpTo(flux, phases, nBins, Pairs(flux, phases));
  }

  /** A non-finite sample poisons its bin: a bin's mean is finite exactly
      when every sample in it is. */
  lemma BinnedFinite(flux: seq<Sample>, phases: seq<Sample>, nBins: nat, b: nat)
    requires b < nBins
    ensures BinnedFlux(flux, phases, nBins)[b].Val? <==>
      forall i :: 0 <= i < |Members(flux, phases, nBins, b, Pairs(flux, phases))| ==>
        Members(flux, phases, nBins, b, Pairs(flux, phases))[i].Val?
  {
    var s := Members(flux, phases, nBins, b, Pairs(flux, phases));
    RangeTotalFinite(s, 0, |s|);
  }

  // ---------------------------------------------------------------------
  // search_bins
  // ---------------------------------------------------------------------

  /** `(((trial_duration / 24.0) / trial_period) * n_bins as f64).round()
      as usize`. `round` goes half away from zero and `as usize` saturates.
      With a zero period the quotient is +infinity (saturating to
      `usize::MAX`) for a positive duration and NaN or -infinity (0)
      otherwise. */
  function WindowWidth(duration: real, period: real, nBins: nat): nat
  {
    if period == 0.0 then
      (if duration > 0.0 && nBins > 0 then UsizeMax else 0)
    else
      var x := ((duration / 24.0) / period) * nBins as real;
      if x < 0.0 then 0 else Saturate((x + 0.5).Floor)
  }

  /** A zero duration always gives a zero-width box. */
  lemma WindowWidthOfZero(period: real, nBins: nat)
    ensures WindowWidth(0.0, period, nBins) == 0
  {
    if period != 0.0 {
      assert (0.0 / 24.0) / period == 0.0;
      assert (0.5).Floor == 0;
    }
  }

  /** Every bin before `n` is finite. */
  ghost predicate FiniteUpTo(a: seq<Sample>, n: nat)
    requires n <= |a|
  {
    forall i :: 0 <= i < n ==> a[i].Val?
  }

  /** The running `sum_flux` once the window starts at `s`: the sum of
      `a[s..s + w]`, except that a NaN, once added, never leaves. */
  ghost function RunningSum(a: seq<Sample>, w: nat, s: nat): Sample
    requires s + w <= |a|
  {
    if FiniteUpTo(a, s) then RangeTotal(a, s, s + w) else Masked
  }

  /** `avg = sum_flux / window_width as f64` for the window starting at `s`. */
  ghost function WindowMean(a: seq<Sample>, w: nat, s: nat): Sample
    requires 0 < w && s + w <= |a|
  {
    Div(RunningSum(a, w, s), w as real)
  }

  /** The sliding-window step: `sum_flux += a[right] - a[right - w]` keeps
      `sum_flux` equal to the running sum of the current window. */
  lemma SlideSum(a: seq<Sample>, w: nat, s: nat)
    requires 0 < w && s + w < |a|
    ensures RunningSum(a, w, s + 1) == Add(RunningSum(a, w, s), Sub(a[s + w], a[s]))
  {
    if FiniteUpTo(a, s) {
      RangeTotalFinite(a, s, s + w);
      if a[s].Val? {
        assert FiniteUpTo(a, s + 1);
        RangeTotalFront(a, s, s + w + 1);
      }
    }
  }

  /** Sliding the count window one place right adds the incoming count and
      removes the outgoing one, which the old window sum always covers. */
  lemma SlideCount(c: seq<nat>, s: nat, e: nat)
    requires s < e < |c|
    ensures CountSum(c, s, e) >= c[s]
    ensures CountSum(c, s + 1, e + 1) == CountSum(c, s, e) + c[e] - c[s]
  {
    CountSumFront(c, s, e);
    CountSumFront(c, s, e + 1);
  }

  /** The window start `search_bins` settles on among the first `m + 1`
      starts: a later window replaces the best one only when its average is
      strictly smaller (`avg < deepest_dip`, false for NaN). */
  ghost function BestStart(a: seq<Sample>, w: nat, m: nat): (r: nat)
    requires 0 < w && m + w <= |a|
    ensures r <= m
  {
    if m == 0 then 0
    else
      var b := BestStart(a, w, m - 1);
      if Less(WindowMean(a, w, m), WindowMean(a, w, b)) then m else b
  }

  /** No window among the first `m + 1` has a strictly smaller average than
      the chosen one, and every earlier window has a different one: the
      choice is the earliest strict minimum. */
  lemma {:induction false} BestStartMinimal(a: seq<Sample>, w: nat, m: nat)
    requires 0 < w && m + w <= |a|
    ensures forall s :: 0 <= s <= m ==> !Less(WindowMean(a, w, s), WindowMean(a, w, BestStart(a, w, m)))
    ensures forall s :: 0 <= s < BestStart(a, w, m) ==> WindowMean(a, w, s) != WindowMean(a, w, BestStart(a, w, m))
  {
    if m > 0 {
      BestStartMinimal(a, w, m - 1);
    }
  }

  /** `centre_phase_numerator`: 0 for the first window, else
      `(2 * right - w) / 2` for the window's last index `right`. */
  function CentreNumerator(s: nat, w: nat): real
  {
    if s == 0 then 0.0 else (2.0 * (s + w - 1) as real - w as real) / 2.0
  }

  /** `centre_phase_numerator / n_bins as f64`: NaN or infinite for no bins. */
  function Centre(numerator: real, nBins: nat): Sample
  {
    if nBins == 0 then Masked else Val(numerator / nBins as real)
  }

  /** `search_bins`' result: the box average, the points under the box and
      the box's centre phase. */
  datatype Box = Box(dip: Sample, points: nat, centre: Sample)

  /** `search_bins` is only safe when `counts` covers the bins it reads:
      `counts[..w]` once the width is in range, and every bin of `binned`
      once the first window holds a point. */
  predicate CountsCover(binned: seq<Sample>, counts: seq<nat>, w: nat)
  {
    w == 0 || w > |binned| || (w <= |counts| && (CountSum(counts, 0, w) == 0 || |binned| <= |counts|))
  }

  /** What `search_bins` returns for a window of `w` bins. */
  ghost function BoxSearch(binned: seq<Sample>, counts: seq<nat>, w: nat, nBins: nat): Option<Box>
    requires CountsCover(binned, counts, w)
  {
    if w == 0 || w > |binned| then None
    else if CountSum(counts, 0, w) == 0 then None
    else
      var s := BestStart(binned, w, |binned| - w);
      Some(Box(WindowMean(binned, w, s), CountSum(counts, s, s + w), Centre(CentreNumerator(s, w), nBins)))
  }

  /** The loop state of `search_bins`: the running sums of the current
      window and the best window so far. */
  datatype Scan = Scan(sumFlux: Sample, sumCount: nat, dip: Sample, bestCount: nat, numerator: real)

  /** The loop invariant: with the window ending just before `right`, the
      running sums are those of the current window and the best-so-far
      values are those of window `best`, the earliest strict minimum. */
  ghost predicate ScanInvariant(binned: seq<Sample>, counts: seq<nat>, w: nat, right: nat, st: Scan, best: nat)
    requires 0 < w <= right <= |binned| <= |counts|
  {
    && st.sumFlux == RunningSum(binned, w, right - w)
    && st.sumCount == CountSum(counts, right - w, right)
    && best == BestStart(binned, w, right - w)
    && st.dip == WindowMean(binned, w, best)
    && st.bestCount == CountSum(counts, best, best + w)
    && st.numerator == CentreNumerator(best, w)
  }

  /** One pass of the loop body, for the bin `right` entering the window. */
  method Slide(binned: seq<Sample>, counts: seq<nat>, w: nat, right: nat, st: Scan, ghost best: nat)
    returns (st': Scan, ghost best': nat)
    requires 0 < w <= right < |binned| <= |counts|
    requires ScanInvariant(binned, counts, w, right, st, best)
    ensures ScanInvariant(binned, counts, w, right + 1, st', best')
  {
    ghost var s := right - w;
    SlideSum(binned, w, s);
    var sumFlux := Add(st.sumFlux, Sub(binned[right], binned[right - w]));
    SlideCount(counts, s, right);
    var sumCount := st.sumCount + counts[right];
    sumCount := sumCount - counts[right - w];
    var avg := Div(sumFlux, w as real);
    assert avg == WindowMean(binned, w, s + 1);
    if Less(avg, st.dip) {
      st' := Scan(sumFlux, sumCount, avg, sumCount, (2.0 * right as real - w as real) / 2.0);
      best' := right - w + 1;
    } else {
      st' := st.(sumFlux := sumFlux, sumCount := sumCount);
      best' := best;
    }
  }

  /** The sliding loop of `search_bins` once the width is known. */
  method SearchWindow(binned: seq<Sample>, counts: seq<nat>, w: nat, nBins: nat) returns (r: Option<Box>)
    requires CountsCover(binned, counts, w)
    ensures r == BoxSearch(binned, counts, w, nBins)
  {
    if w == 0 || w > |binned| {
      return None;
    }
    var sumFlux := RangeTotal(binned, 0, w);
    var sumCount := CountSum(counts, 0, w);
    if sumCount == 0 {
      return None;
    }
    var st := Scan(sumFlux, sumCount, Div(sumFlux, w as real), sumCount, 0.0);
    ghost var best := 0;
    assert FiniteUpTo(binned, 0);
    for right := w to |binned|
      invariant ScanInvariant(binned, counts, w, right, st, best)
    {
      st, best := Slide(binned, counts, w, right, st, best);
    }
    r := Some(Box(st.dip, st.bestCount, Centre(st.numerator, nBins)));
  }

  /** `search_bins`: `None` for a zero or too-wide box or an empty first
      window, otherwise the deepest box of the trial duration. */
  method SearchBins(period: real, duration: real, binned: seq<Sample>, counts: seq<nat>, nBins: nat) returns (r: Option<Box>)
    requires CountsCover(binned, counts, WindowWidth(duration, period, nBins))
    ensures r == BoxSearch(binned, counts, WindowWidth(duration, period, nBins), nBins)
  {
    var w := WindowWidth(duration, period, nBins);
    r := SearchWindow(binned, counts, w, nBins);
  }

  /** `search_bins` gives up exactly in its three early-return cases. */
  lemma BoxSearchNone(binned: seq<Sample>, counts: seq<nat>, w: nat, nBins: nat)
    requires CountsCover(binned, counts, w)
    ensures BoxSearch(binned, counts, w, nBins).None? <==>
      (w == 0 || w > |binned| || CountSum(counts, 0, w) == 0)
  {
  }

  /** The mean of the window of `w` bins starting at `s`, without the
      running sum's memory of earlier NaNs. */
  ghost function PlainMean(a: seq<Sample>, w: nat, s: nat): Sample
    requires 0 < w && s + w <= |a|
  {
    Div(RangeTotal(a, s, s + w), w as real)
  }

  /** Over finite bins the box found is the deepest one: it is the finite
      mean of the window starting at `BestStart`, whose counts are the points
      under the box; no window of `w` bins has a smaller mean and every
      earlier window has a strictly larger one. */
  lemma BoxSearchDeepest(binned: seq<Sample>, counts: seq<nat>, w: nat, nBins: nat)
    requires CountsCover(binned, counts, w)
    requires BoxSearch(binned, counts, w, nBins).Some?
    requires forall i :: 0 <= i < |binned| ==> binned[i].Val?
    ensures 0 < w <= |binned|
    ensures var box := BoxSearch(binned, counts, w, nBins).value;
      var best := BestStart(binned, w, |binned| - w);
      && box.dip.Val?
      && box.dip == PlainMean(binned, w, best)
      && box.points == CountSum(counts, best, best + w)
      && (forall s :: 0 <= s <= |binned| - w ==> !Less(PlainMean(binned, w, s), box.dip))
      && (forall s :: 0 <= s < best ==> Less(box.dip, PlainMean(binned, w, s)))
  {
    var m := |binned| - w;
    BestStartMinimal(binned, w, m);
    forall s | 0 <= s <= m
      ensures WindowMean(binned, w, s) == PlainMean(binned, w, s)
      ensures PlainMean(binned, w, s).Val?
    {
      assert FiniteUpTo(binned, s);
      RangeTotalFinite(binned, s, s + w);
    }
  }

  // ---------------------------------------------------------------------
  // signal_to_noise_ratio, trial grids
  // ---------------------------------------------------------------------

  /** What is assumed of `f64::sqrt` on the non-negative point counts:
      it maps 0 to 0 and is strictly increasing. */
  ghost predicate IsRoot(root: real -> real)
  {
    && root(0.0) == 0.0
    && forall x, y :: 0.0 <= x < y ==> root(x) < root(y)
  }

  /** `signal_to_noise_ratio`: `(-deepest_dip / sigma) * sqrt(num_points)`,
      always `Some`. A zero `sigma` divides to an infinity or a NaN. */
  function SignalToNoiseRatio(dip: real, numPoints: real, sigma: real, root: real -> real): (r: Option<Sample>)
    ensures r.Some?
    ensures r.value.Val? <==> sigma != 0.0
    ensures dip == 0.0 && sigma != 0.0 ==> r.value == Val(0.0)
  {
    Some(if sigma == 0.0 then Masked else Val((-dip / sigma) * root(numPoints)))
  }

  /** For a fixed positive `sigma` and a positive point count, a deeper dip
      scores a strictly higher SNR, and a dip below zero scores above zero. */
  lemma SnrIncreasingInDepth(d1: real, d2: real, numPoints: real, sigma: real, root: real -> real)
    requires IsRoot(root) && sigma > 0.0 && numPoints > 0.0
    requires d1 < d2
    ensures SignalToNoiseRatio(d1, numPoints, sigma, root).value.v > SignalToNoiseRatio(d2, numPoints, sigma, root).value.v
    ensures d1 < 0.0 ==> SignalToNoiseRatio(d1, numPoints, sigma, root).value.v > 0.0
  {
    var r := root(numPoints);
    assert r > 0.0 by {
      assert root(0.0) < root(numPoints);
    }
    var q1, q2 := -d1 / sigma, -d2 / sigma;
    DivideByPositive(d1, d2, sigma);
    assert q1 * r - q2 * r == (q1 - q2) * r;
  }

  /** Negating and dividing by a positive `sigma` reverses the order, and
      maps a negative value above zero. */
  lemma DivideByPositive(d1: real, d2: real, sigma: real)
    requires sigma > 0.0 && d1 < d2
    ensures -d1 / sigma > -d2 / sigma
    ensures d1 < 0.0 ==> -d1 / sigma > 0.0
  {
    var q1, q2 := -d1 / sigma, -d2 / sigma;
    assert q1 * sigma == -d1 && q2 * sigma == -d2;
    var x := (q1 - q2) * sigma;
    assert x == q1 * sigma - q2 * sigma;
    assert x > 0.0;
  }

  /** `trial_periods(t_size)`: `i * 0.5` for `i` in `2..=t_size`. */
  function TrialPeriods(tSize: nat): (r: seq<real>)
    ensures |r| == if tSize >= 2 then tSize - 1 else 0
    ensures tSize >= 2 ==> r[0] == 1.0 && r[|r| - 1] == tSize as real * 0.5
    ensures forall i, j :: 0 <= i < j < |r| ==> r[i] < r[j]
    ensures forall i :: 0 <= i < |r| ==> r[i] >= 1.0
  {
    seq(if tSize >= 2 then tSize - 1 else 0, i requires 0 <= i => (i + 2) as real * 0.5)
  }

  /** `n as i32`: the low 32 bits, read as a signed integer. */
  function AsI32(n: nat): (r: int)
    ensures n < 0x8000_0000 ==> r == n
    ensures -0x8000_0000 <= r < 0x8000_0000
  {
    var m := n % 0x1_0000_0000;
    if m >= 0x8000_0000 then m - 0x1_0000_0000 else m
  }

  /** The trial durations of `find_candidates`: `i * 0.5` hours for `i` in
      `1..n_dur as i32`. */
  function TrialDurations(nDur: nat): (r: seq<real>)
    ensures nDur < 0x8000_0000 ==> |r| == if nDur >= 2 then nDur - 1 else 0
    ensures |r| > 0 ==> r[0] == 0.5
    ensures forall i, j :: 0 <= i < j < |r| ==> r[i] < r[j]
    ensures forall i :: 0 <= i < |r| ==> r[i] > 0.0
  {
    var k := AsI32(nDur);
    seq(if k >= 2 then k - 1 else 0, i requires 0 <= i => (i + 1) as real * 0.5)
  }

  // ---------------------------------------------------------------------
  // Best-so-far selection
  // ---------------------------------------------------------------------

  /** The index a best-so-far loop holds after the first `m` values when it
      adopts a value only if it is finite and strictly greater than the
      current best (`x > best`, with the best starting at -infinity). */
  ghost function FirstMax(xs: seq<Sample>, m: nat): (r: Option<nat>)
    requires m <= |xs|
    ensures r.Some? ==> r.value < m && xs[r.value].Val?
  {
    if m == 0 then None
    else
      var q := FirstMax(xs, m - 1);
      if xs[m - 1].Val? && (q.None? || xs[m - 1].v > xs[q.value].v) then Some(m - 1) else q
  }

  /** The held index is the first maximum of the finite values, and there is
      none exactly when no value is finite. */
  lemma {:induction false} FirstMaxIsFirstMaximum(xs: seq<Sample>, m: nat)
    requires m <= |xs|
    ensures FirstMax(xs, m).None? <==> forall j :: 0 <= j < m ==> xs[j].Masked?
    ensures FirstMax(xs, m).Some? ==>
      forall j :: 0 <= j < m && xs[j].Val? ==> xs[j].v <= xs[FirstMax(xs, m).value].v
    ensures FirstMax(xs, m).Some? ==>
      forall j :: 0 <= j < FirstMax(xs, m).value && xs[j].Val? ==> xs[j].v < xs[FirstMax(xs, m).value].v
  {
    if m > 0 {
      FirstMaxIsFirstMaximum(xs, m - 1);
    }
  }

  /** The values negated, so that a first maximum of these is a first
      minimum of the originals. */
  function Negated(xs: seq<Sample>): (r: seq<Sample>)
    ensures |r| == |xs|
    ensures forall i :: 0 <= i < |xs| ==> r[i].Val? == xs[i].Val?
    ensures forall i :: 0 <= i < |xs| && xs[i].Val? ==> r[i].v == -xs[i].v
  {
    seq(|xs|, i requires 0 <= i < |xs| => if xs[i].Val? then Val(-xs[i].v) else Masked)
  }

  /** A best-so-far loop adopting a finite value strictly below the current
      best (`x < best`, the best starting at +infinity). */
  ghost function FirstMin(xs: seq<Sample>, m: nat): Option<nat>
    requires m <= |xs|
  {
    FirstMax(Negated(xs), m)
  }

  /** The held index is the first minimum of the finite values. */
  lemma FirstMinIsFirstMinimum(xs: seq<Sample>, m: nat)
    requires m <= |xs|
    ensures FirstMin(xs, m).None? <==> forall j :: 0 <= j < m ==> xs[j].Masked?
    ensures FirstMin(xs, m).Some? ==> FirstMin(xs, m).value < m && xs[FirstMin(xs, m).value].Val?
    ensures FirstMin(xs, m).Some? ==>
      forall j :: 0 <= j < m && xs[j].Val? ==> xs[FirstMin(xs, m).value].v <= xs[j].v
    ensures FirstMin(xs, m).Some? ==>
      forall j :: 0 <= j < FirstMin(xs, m).value && xs[j].Val? ==> xs[FirstMin(xs, m).value].v < xs[j].v
  {
    FirstMaxIsFirstMaximum(Negated(xs), m);
  }

  /** One step of the minimum loop, in terms of `FirstMin` itself. */
  lemma FirstMinStep(xs: seq<Sample>, m: nat)
    requires m < |xs|
    ensures FirstMin(xs, m + 1) ==
      if xs[m].Val? && (FirstMin(xs, m).None? || xs[m].v < xs[FirstMin(xs, m).value].v)
      then Some(m) else FirstMin(xs, m)
  {
    var q := FirstMin(xs, m);
    if q.Some? {
      FirstMinIsFirstMinimum(xs, m);
    }
  }

  // ---------------------------------------------------------------------
  // find_candidates, transit_estimate
  // ---------------------------------------------------------------------

  /** The cleaned light curve a sweep runs on: time stamps, normalised flux
      (NaN where masked) and one noise level. */
  datatype LightCurve = LightCurve(time: seq<real>, flux: seq<Sample>, sigma: real)

  /** One scored trial period. */
  datatype Candidate = Candidate(period: real, snr: Sample, duration: real, phase: Sample)

  /** `binning` cannot panic: there is a bin for every sample, or no
      `(flux, phase)` pair at all. */
  predicate BinsFit(lc: LightCurve, nBins: nat)
  {
    nBins > 0 || |lc.time| == 0 || |lc.flux| == 0
  }

  /** `get_phases`' output. */
  ghost function FoldedPhases(times: seq<real>, period: real): (r: seq<Sample>)
    ensures |r| == |times|
  {
    seq(|times|, i requires 0 <= i < |times| => FoldPhase(times[i], period))
  }

  /** The box of every trial duration for one period. */
  ghost function PeriodBoxes(lc: LightCurve, period: real, nBins: nat, nDur: nat): (r: seq<Option<Box>>)
    ensures |r| == |TrialDurations(nDur)|
  {
    var phases := FoldedPhases(lc.time, period);
    var binned := BinnedFlux(lc.flux, phases, nBins);
    var counts := BinCounts(lc.flux, phases, nBins);
    var durs := TrialDurations(nDur);
    seq(|durs|, j requires 0 <= j < |durs| => BoxSearch(binned, counts, WindowWidth(durs[j], period, nBins), nBins))
  }

  /** The box averages, NaN standing in for a trial with no box. */
  function BoxDips(boxes: seq<Option<Box>>): (r: seq<Sample>)
    ensures |r| == |boxes|
    ensures forall j :: 0 <= j < |boxes| ==> r[j] == if boxes[j].Some? then boxes[j].value.dip else Masked
  {
    seq(|boxes|, j requires 0 <= j < |boxes| => if boxes[j].Some? then boxes[j].value.dip else Masked)
  }

  /** The per-period best-so-far: `deepest_dip` (`None` for the initial
      +infinity), `n_points`, `duration`, `centre_phase`. */
  datatype Choice = Choice(dip: Option<real>, points: nat, duration: real, phase: Sample)

  /** The best-so-far values once trial `q` (if any) is the deepest. */
  ghost function ChoiceOf(boxes: seq<Option<Box>>, durs: seq<real>, q: Option<nat>): Choice
  {
    if q.Some? && q.value < |boxes| && q.value < |durs| && boxes[q.value].Some? && boxes[q.value].value.dip.Val?
    then Choice(Some(boxes[q.value].value.dip.v), boxes[q.value].value.points, durs[q.value], boxes[q.value].value.centre)
    else Choice(None, 0, 0.0, Val(0.0))
  }

  /** One trial of the duration loop: a finite box average strictly below
      the best so far replaces it. */
  lemma ChoiceStep(boxes: seq<Option<Box>>, durs: seq<real>, j: nat)
    requires j < |boxes| == |durs|
    ensures var c := ChoiceOf(boxes, durs, FirstMin(BoxDips(boxes), j));
      ChoiceOf(boxes, durs, FirstMin(BoxDips(boxes), j + 1)) ==
        if boxes[j].Some? && boxes[j].value.dip.Val? && (c.dip.None? || boxes[j].value.dip.v < c.dip.value)
        then Choice(Some(boxes[j].value.dip.v), boxes[j].value.points, durs[j], boxes[j].value.centre)
        else c
  {
    FirstMinIsFirstMinimum(BoxDips(boxes), j);
    FirstMinStep(BoxDips(boxes), j);
  }

  /** A candidate from the boxes of all trial durations of one period: the
      first finite, strictly smallest box average picks the duration, the
      phase and the point count; with none, dip and duration are zero. */
  ghost function CandidateOf(period: real, boxes: seq<Option<Box>>, durs: seq<real>, sigma: real, root: real -> real): (c: Candidate)
    ensures c.period == period
  {
    var choice := ChoiceOf(boxes, durs, FirstMin(BoxDips(boxes), |boxes|));
    var dip := if choice.dip.None? then 0.0 else choice.dip.value;
    Candidate(period, SignalToNoiseRatio(dip, choice.points as real, sigma, root).value, choice.duration, choice.phase)
  }

  /** What `find_candidates` records for one trial period. */
  ghost function CandidateFor(lc: LightCurve, period: real, nBins: nat, nDur: nat, root: real -> real): (c: Candidate)
    ensures c.period == period
  {
    CandidateOf(period, PeriodBoxes(lc, period, nBins, nDur), TrialDurations(nDur), lc.sigma, root)
  }

  /** The inner loop over the trial durations of one period. */
  method ChooseDuration(period: real, binned: seq<Sample>, counts: seq<nat>, nBins: nat, durs: seq<real>, ghost boxes: seq<Option<Box>>)
    returns (choice: Choice)
    requires |binned| <= |counts| && |boxes| == |durs|
    requires forall j :: 0 <= j < |durs| ==> boxes[j] == BoxSearch(binned, counts, WindowWidth(durs[j], period, nBins), nBins)
    ensures choice == ChoiceOf(boxes, durs, FirstMin(BoxDips(boxes), |boxes|))
  {
    choice := Choice(None, 0, 0.0, Val(0.0));
    for j := 0 to |durs|
      invariant choice == ChoiceOf(boxes, durs, FirstMin(BoxDips(boxes), j))
    {
      ChoiceStep(boxes, durs, j);
      var box := SearchBins(period, durs[j], binned, counts, nBins);
      if box.Some? && box.value.dip.Val? && (choice.dip.None? || box.value.dip.v < choice.dip.value) {
        choice := Choice(Some(box.value.dip.v), box.value.points, durs[j], box.value.centre);
      }
    }
  }

  /** The body of `find_candidates`' period loop. */
  method CandidateForPeriod(lc: LightCurve, period: real, nBins: nat, nDur: nat, root: real -> real) returns (c: Candidate)
    requires BinsFit(lc, nBins)
    ensures c == CandidateFor(lc, period, nBins, nDur, root)
  {
    var phases := GetPhases(lc.time, period);
    assert BinsInRange(lc.flux, phases, nBins) by {
      forall i | 0 <= i < Pairs(lc.flux, phases) ensures BinIndex(phases[i], nBins) < nBins {
        FoldedBinInRange(lc.time[i], period, nBins);
      }
    }
    var binned, counts := Binning(lc.flux, phases, nBins);
    assert phases == FoldedPhases(lc.time, period);
    var durs := TrialDurations(nDur);
    var choice := ChooseDuration(period, binned, counts, nBins, durs, PeriodBoxes(lc, period, nBins, nDur));
    var dip := choice.dip;
    var deepest := if dip.None? then 0.0 else dip.value;
    var snr := SignalToNoiseRatio(deepest, choice.points as real, lc.sigma, root);
    c := Candidate(period, snr.value, choice.duration, choice.phase);
  }

  /** `f` applied to the first `n` trial periods, in order. */
  ghost function CandidateList(f: real -> Candidate, periods: seq<real>, n: nat): (r: seq<Candidate>)
    requires n <= |periods|
    ensures |r| == n
  {
    if n == 0 then [] else CandidateList(f, periods, n - 1) + [f(periods[n - 1])]
  }

  lemma {:induction false} CandidateListIndex(f: real -> Candidate, periods: seq<real>, n: nat, i: nat)
    requires i < n <= |periods|
    ensures CandidateList(f, periods, n)[i] == f(periods[i])
  {
    if i < n - 1 {
      CandidateListIndex(f, periods, n - 1, i);
    }
  }

  /** `find_candidates`: one candidate per trial period, in order. */
  method FindCandidates(lc: LightCurve, periods: seq<real>, nBins: nat, nDur: nat, root: real -> real)
    returns (candidates: seq<Candidate>)
    requires periods == [] || BinsFit(lc, nBins)
    ensures |candidates| == |periods|
    ensures forall i :: 0 <= i < |periods| ==> candidates[i].period == periods[i]
    ensures forall i :: 0 <= i < |periods| ==> candidates[i] == CandidateFor(lc, periods[i], nBins, nDur, root)
  {
    ghost var f := (p: real) => CandidateFor(lc, p, nBins, nDur, root);
    candidates := [];
    for i := 0 to |periods|
      invariant candidates == CandidateList(f, periods, i)
    {
      var c := CandidateForPeriod(lc, periods[i], nBins, nDur, root);
      candidates := candidates + [c];
    }
    forall i | 0 <= i < |periods|
      ensures candidates[i] == CandidateFor(lc, periods[i], nBins, nDur, root)
    {
      CandidateListIndex(f, periods, |periods|, i);
    }
  }

  /** A period's candidate keeps the first trial duration whose box average
      is finite and strictly smallest, scored by its points; when no
      duration yields a finite box, duration, phase and dip are all zero. */
  lemma CandidateDeepestDuration(period: real, boxes: seq<Option<Box>>, durs: seq<real>, sigma: real, root: real -> real)
    requires |boxes| == |durs|
    ensures (forall j :: 0 <= j < |boxes| ==> BoxDips(boxes)[j].Masked?) ==>
      var c := CandidateOf(period, boxes, durs, sigma, root);
      c.duration == 0.0 && c.phase == Val(0.0) && c.snr == SignalToNoiseRatio(0.0, 0.0, sigma, root).value
    ensures forall q :: 0 <= q < |boxes| && FirstMin(BoxDips(boxes), |boxes|) == Some(q) ==>
      var c := CandidateOf(period, boxes, durs, sigma, root);
      && boxes[q].Some? && boxes[q].value.dip.Val?
      && c.duration == durs[q] && c.phase == boxes[q].value.centre
      && c.snr == SignalToNoiseRatio(boxes[q].value.dip.v, boxes[q].value.points as real, sigma, root).value
      && (forall j :: 0 <= j < |boxes| && BoxDips(boxes)[j].Val? ==> boxes[q].value.dip.v <= BoxDips(boxes)[j].v)
      && (forall j :: 0 <= j < q && BoxDips(boxes)[j].Val? ==> boxes[q].value.dip.v < BoxDips(boxes)[j].v)
  {
    FirstMinIsFirstMinimum(BoxDips(boxes), |boxes|);
  }

  /** The SNR column of a candidate list. */
  function Snrs(cs: seq<Candidate>): (r: seq<Sample>)
    ensures |r| == |cs|
    ensures forall i :: 0 <= i < |cs| ==> r[i] == cs[i].snr
  {
    seq(|cs|, i requires 0 <= i < |cs| => cs[i].snr)
  }

  /** The index `max_index` ends on: the first maximal finite SNR, or 0. */
  ghost function MaxIndex(xs: seq<Sample>): (r: nat)
    ensures xs != [] ==> r < |xs|
  {
    match FirstMax(xs, |xs|)
    case None => 0
    case Some(q) => q
  }

  /** `transit_estimate`: the candidate with the first maximal SNR. Panics on
      an empty list. */
  method TransitEstimate(candidates: seq<Candidate>) returns (best: Candidate)
    requires |candidates| > 0
    ensures best == candidates[MaxIndex(Snrs(candidates))]
  {
    ghost var snrs := Snrs(candidates);
    var maxSnr: Option<real> := None;
    var maxIndex: nat := 0;
    for i := 0 to |candidates|
      invariant FirstMax(snrs, i).None? ==> maxSnr.None? && maxIndex == 0
      invariant FirstMax(snrs, i).Some? ==> maxIndex == FirstMax(snrs, i).value && maxSnr == Some(snrs[maxIndex].v)
    {
      var check := candidates[i].snr;
      if check.Val? && (maxSnr.None? || check.v > maxSnr.value) {
        maxIndex := i;
        maxSnr := Some(check.v);
      }
    }
    best := candidates[maxIndex];
  }

  /** The estimate has the largest finite SNR of all candidates, every
      earlier candidate scores strictly lower, and when no SNR is finite it
      is the first candidate. */
  lemma TransitEstimateIsBest(candidates: seq<Candidate>)
    requires |candidates| > 0
    ensures var best := candidates[MaxIndex(Snrs(candidates))];
      && ((forall j :: 0 <= j < |candidates| ==> candidates[j].snr.Masked?) ==> MaxIndex(Snrs(candidates)) == 0)
      && (forall j :: 0 <= j < |candidates| && candidates[j].snr.Val? ==>
            best.snr.Val? && candidates[j].snr.v <= best.snr.v)
      && (forall j :: 0 <= j < MaxIndex(Snrs(candidates)) && candidates[j].snr.Val? ==> candidates[j].snr.v < best.snr.v)
  {
    FirstMaxIsFirstMaximum(Snrs(candidates), |candidates|);
  }
}
