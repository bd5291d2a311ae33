/** src/old_main.rs: the first driver. After the TESS filter it cleans the
    flux as `clean_data` does (lines 287-305), estimates one noise level for
    the whole series, sweeps 250 trial periods with 200 bins and 20 trial
    durations, scores each period with the window width of its deepest box,
    and looks the best period up again among the candidates. */
module OldMain {
  import opened Wrappers
  import opened Samples
  import opened Statistics
  import opened DataCleaner
  import opened FindingCandidates

  /** `N_BINS`. */
  const NBins: nat := 200

  /** `K`, the clipping factor. */
  const ClipK: real := 6.0

  /** The trial periods `(1..=250)` times 0.5 days. */
  function SweepPeriods(): (r: seq<real>)
    ensures |r| == 250 && r[0] == 0.5 && r[249] == 125.0
    ensures forall i, j :: 0 <= i < j < |r| ==> r[i] < r[j]
  {
    seq(250, i requires 0 <= i => (i + 1) as real * 0.5)
  }

  /** The trial durations `(0..20)` times 0.5 hours; the first one is zero. */
  function SweepDurations(): (r: seq<real>)
    ensures |r| == 20 && r[0] == 0.0 && r[19] == 9.5
    ensures forall i, j :: 0 <= i < j < |r| ==> r[i] < r[j]
  {
    seq(20, i requires 0 <= i => i as real * 0.5)
  }

  // ---------------------------------------------------------------------
  // The const-generic search_bins
  // ---------------------------------------------------------------------

  /** `(deepest_dip, window_width, centre_phase, best_count)`. */
  datatype WideBox = WideBox(dip: Sample, width: nat, centre: Sample, count: nat)

  /** A box of `find_candidates`' `search_bins` with the window width added. */
  function Widen(box: Option<Box>, w: nat): Option<WideBox>
  {
    match box
    case None => None
    case Some(b) => Some(WideBox(b.dip, w, b.centre, b.points))
  }

  /** `search_bins::<N_BINS>`: the same window search as in
      finding_candidates.rs, returning the window width as well. A zero
      duration always gives `None`. */
  method SearchBins(period: real, duration: real, binned: seq<Sample>, counts: seq<nat>) returns (r: Option<WideBox>)
    requires CountsCover(binned, counts, WindowWidth(duration, period, NBins))
    ensures r == Widen(BoxSearch(binned, counts, WindowWidth(duration, period, NBins), NBins), WindowWidth(duration, period, NBins))
    ensures r.Some? ==> 0 < r.value.width <= |binned|
    ensures duration == 0.0 ==> r.None?
  {
    var w := WindowWidth(duration, period, NBins);
    var box := SearchWindow(binned, counts, w, NBins);
    r := Widen(box, w);
    WindowWidthOfZero(period, NBins);
  }

  // ---------------------------------------------------------------------
  // The sweep over trial periods
  // ---------------------------------------------------------------------

  /** A wide box as the duration loop of `main` uses it: its window width
      is what the SNR weighs. */
  function Weighted(r: Option<WideBox>): Option<Box>
  {
    match r
    case None => None
    case Some(b) => Some(Box(b.dip, b.width, b.centre))
  }

  /** The boxes of all trial durations of one period. */
  ghost function SweepBoxes(t: seq<real>, fAll: seq<Sample>, period: real): (r: seq<Option<Box>>)
    ensures |r| == |SweepDurations()|
  {
    var phases := FoldedPhases(t, period);
    var binned := BinnedFlux(fAll, phases, NBins);
    var counts := BinCounts(fAll, phases, NBins);
    var durs := SweepDurations();
    seq(|durs|, j requires 0 <= j < |durs| =>
      var w := WindowWidth(durs[j], period, NBins);
      Weighted(Widen(BoxSearch(binned, counts, w, NBins), w)))
  }

  /** The zero trial duration never yields a box, so it is never chosen. */
  lemma SweepSkipsZeroDuration(t: seq<real>, fAll: seq<Sample>, period: real)
    ensures SweepBoxes(t, fAll, period)[0].None?
  {
    WindowWidthOfZero(period, NBins);
  }

  /** The candidate `main` builds for one period. */
  ghost function SweepCandidate(t: seq<real>, fAll: seq<Sample>, sigma: real, period: real, root: real -> real): (c: Candidate)
    ensures c.period == period
  {
    CandidateOf(period, SweepBoxes(t, fAll, period), SweepDurations(), sigma, root)
  }

  /** The duration loop of `main` for one period. */
  method ChooseWidth(period: real, binned: seq<Sample>, counts: seq<nat>, ghost boxes: seq<Option<Box>>)
    returns (choice: Choice)
    requires |binned| <= |counts| && |boxes| == |SweepDurations()|
    requires forall j :: 0 <= j < |boxes| ==>
      boxes[j] == Weighted(Widen(BoxSearch(binned, counts, WindowWidth(SweepDurations()[j], period, NBins), NBins),
                                 WindowWidth(SweepDurations()[j], period, NBins)))
    ensures choice == ChoiceOf(boxes, SweepDurations(), FirstMin(BoxDips(boxes), |boxes|))
  {
    var durs := SweepDurations();
    choice := Choice(None, 0, 0.0, Val(0.0));
    for j := 0 to |durs|
      invariant choice == ChoiceOf(boxes, durs, FirstMin(BoxDips(boxes), j))
    {
      ChoiceStep(boxes, durs, j);
      var boxed := SearchBins(period, durs[j], binned, counts);
      if boxed.Some? && boxed.value.dip.Val? && (choice.dip.None? || boxed.value.dip.v < choice.dip.value) {
        choice := Choice(Some(boxed.value.dip.v), boxed.value.width, durs[j], boxed.value.centre);
      }
    }
  }

  /** The body of `main`'s period loop (lines 339-380). */
  method SweepPeriod(t: seq<real>, fAll: seq<Sample>, sigma: real, period: real, root: real -> real) returns (c: Candidate)
    ensures c == SweepCandidate(t, fAll, sigma, period, root)
  {
    var phases := GetPhases(t, period);
    assert BinsInRange(fAll, phases, NBins) by {
      forall i | 0 <= i < Pairs(fAll, phases) ensures BinIndex(phases[i], NBins) < NBins {
        FoldedBinInRange(t[i], period, NBins);
      }
    }
    var binned, counts := Binning(fAll, phases, NBins);
    assert phases == FoldedPhases(t, period);
    var choice := ChooseWidth(period, binned, counts, SweepBoxes(t, fAll, period));
    var dip := choice.dip;
    var deepest := if dip.None? then 0.0 else dip.value;
    var snr := SignalToNoiseRatio(deepest, choice.points as real, sigma, root);
    c := Candidate(period, snr.value, choice.duration, choice.phase);
  }

  /** The candidates of all trial periods. */
  ghost function SweepCandidates(t: seq<real>, fAll: seq<Sample>, sigma: real, root: real -> real): (r: seq<Candidate>)
    ensures |r| == |SweepPeriods()|
    ensures forall i :: 0 <= i < |r| ==> r[i].period == SweepPeriods()[i]
  {
    var periods := SweepPeriods();
    seq(|periods|, i requires 0 <= i < |periods| => SweepCandidate(t, fAll, sigma, periods[i], root))
  }

  /** `main`'s period loop (lines 336-381). */
  method SweepAll(t: seq<real>, fAll: seq<Sample>, sigma: real, root: real -> real) returns (candidates: seq<Candidate>)
    ensures candidates == SweepCandidates(t, fAll, sigma, root)
  {
    var periods := SweepPeriods();
    ghost var f := (p: real) => SweepCandidate(t, fAll, sigma, p, root);
    candidates := [];
    for i := 0 to |periods|
      invariant candidates == CandidateList(f, periods, i)
    {
      var c := SweepPeriod(t, fAll, sigma, periods[i], root);
      candidates := candidates + [c];
    }
    forall i | 0 <= i < |periods|
      ensures candidates[i] == SweepCandidates(t, fAll, sigma, root)[i]
    {
      CandidateListIndex(f, periods, |periods|, i);
    }
  }

  // ---------------------------------------------------------------------
  // find_max_candidate and the transit lookup
  // ---------------------------------------------------------------------

  /** `find_max_candidate`: the largest finite SNR (`None` standing for the
      initial -infinity when no SNR is finite) and the period at its first
      index, or at index 0. Panics when that index is not a period index. */
  method FindMaxCandidate(snrs: seq<Sample>, periods: seq<real>) returns (maxSnr: Option<real>, maxPeriod: real)
    requires MaxIndex(snrs) < |periods|
    ensures maxSnr.None? <==> forall j :: 0 <= j < |snrs| ==> snrs[j].Masked?
    ensures maxSnr.Some? ==> snrs[MaxIndex(snrs)] == Val(maxSnr.value)
    ensures maxSnr.Some? ==> forall j :: 0 <= j < |snrs| && snrs[j].Val? ==> snrs[j].v <= maxSnr.value
    ensures maxPeriod == periods[MaxIndex(snrs)]
  {
    maxSnr := None;
    var maxIndex: nat := 0;
    for i := 0 to |snrs|
      invariant FirstMax(snrs, i).None? ==> maxSnr.None? && maxIndex == 0
      invariant FirstMax(snrs, i).Some? ==> maxIndex == FirstMax(snrs, i).value && maxSnr == Some(snrs[maxIndex].v)
    {
      if snrs[i].Val? && (maxSnr.None? || snrs[i].v > maxSnr.value) {
        maxSnr := Some(snrs[i].v);
        maxIndex := i;
      }
    }
    FirstMaxIsFirstMaximum(snrs, |snrs|);
    maxPeriod := periods[maxIndex];
  }

  /** The period column of a candidate list. */
  function Periods(cs: seq<Candidate>): (r: seq<real>)
    ensures |r| == |cs|
    ensures forall i :: 0 <= i < |cs| ==> r[i] == cs[i].period
  {
    seq(|cs|, i requires 0 <= i < |cs| => cs[i].period)
  }

  /** `Candidate::default()`. */
  const DefaultCandidate: Candidate := Candidate(0.0, Val(0.0), 0.0, Val(0.0))

  /** The last of the first `n` candidates with period `p`, or the default. */
  ghost function LastWithPeriod(cands: seq<Candidate>, p: real, n: nat): Candidate
    requires n <= |cands|
  {
    if n == 0 then DefaultCandidate
    else if cands[n - 1].period == p then cands[n - 1]
    else LastWithPeriod(cands, p, n - 1)
  }

  /** The loop after `find_max_candidate`: every candidate whose period is
      `max_period` overwrites `transit`. */
  method TransitByPeriod(cands: seq<Candidate>, p: real) returns (transit: Candidate)
    ensures transit == LastWithPeriod(cands, p, |cands|)
  {
    transit := DefaultCandidate;
    for i := 0 to |cands|
      invariant transit == LastWithPeriod(cands, p, i)
    {
      if cands[i].period == p {
        transit := cands[i];
      }
    }
  }

  /** When the periods are pairwise distinct, looking a candidate's period
      up again finds that candidate, and nothing else. */
  lemma {:induction false} LastWithPeriodUnique(cands: seq<Candidate>, q: nat, n: nat)
    requires q < n <= |cands|
    requires forall i, j :: 0 <= i < j < |cands| ==> cands[i].period != cands[j].period
    ensures LastWithPeriod(cands, cands[q].period, n) == cands[q]
  {
    if q < n - 1 {
      LastWithPeriodUnique(cands, q, n - 1);
    }
  }

  // ---------------------------------------------------------------------
  // main, lines 287-395
  // ---------------------------------------------------------------------

  /** The candidate the sweep reports from the cleaned flux and its noise
      level: the first with the largest finite SNR, or the first candidate
      when no SNR is finite. */
  ghost function BestCandidate(t: seq<real>, fAll: seq<Sample>, sigma: real, root: real -> real): Candidate
  {
    var cands := SweepCandidates(t, fAll, sigma, root);
    cands[MaxIndex(Snrs(cands))]
  }

  /** The transit `main` reports once the flux is cleaned: `NoMad` when
      the stitched flux has no finite value. */
  ghost function ReportSpec(t: seq<real>, cleaned: Result<seq<Sample>, CleanError>, root: real -> real): Result<Candidate, CleanError>
  {
    match cleaned
    case Failure(e) => Failure(e)
    case Success(fAll) =>
      match MadOf(fAll)
      case None => Failure(NoMad)
      case Some(mad) => Success(BestCandidate(t, fAll, NoiseLevel(mad), root))
  }

  /** The transit `main` reports for the filtered series `(t, f)`. */
  ghost function SweepSpec(t: seq<real>, f: seq<real>, root: real -> real): Result<Candidate, CleanError>
    requires |t| == |f|
  {
    ReportSpec(t, CleanSpec(Lift(f), t, ClipK), root)
  }

  /** Lines 336-395: the candidates, `find_max_candidate` and the lookup of
      the best period. */
  method Report(t: seq<real>, fAll: seq<Sample>, sigma: real, root: real -> real) returns (transit: Candidate)
    ensures transit == BestCandidate(t, fAll, sigma, root)
  {
    var candidates := SweepAll(t, fAll, sigma, root);
    transit := PickBest(candidates);
  }

  /** `find_max_candidate` over the candidates, then the lookup of the
      winning period: with pairwise distinct periods this is the candidate
      with the first maximal SNR. */
  method PickBest(candidates: seq<Candidate>) returns (transit: Candidate)
    requires candidates != []
    requires forall i, j :: 0 <= i < j < |candidates| ==> candidates[i].period != candidates[j].period
    ensures transit == candidates[MaxIndex(Snrs(candidates))]
  {
    ghost var best := MaxIndex(Snrs(candidates));
    var maxSnr, maxPeriod := FindMaxCandidate(Snrs(candidates), Periods(candidates));
    transit := TransitByPeriod(candidates, maxPeriod);
    LastWithPeriodUnique(candidates, best, |candidates|);
  }

  /** Lines 307-395, after the cleaning. */
  method ReportCleaned(t: seq<real>, cleaned: Result<seq<Sample>, CleanError>, root: real -> real) returns (r: Result<Candidate, CleanError>)
    ensures r == ReportSpec(t, cleaned, root)
  {
    if cleaned.Failure? {
      return Failure(cleaned.error);
    }
    var mad := MedianAbsoluteDeviation(cleaned.value);
    if mad.None? {
      return Failure(NoMad);
    }
    var transit := Report(t, cleaned.value, NoiseLevel(mad.value), root);
    r := Success(transit);
  }

  /** `main` from the median cadence to the transit (lines 287-395). The
      `expect`s become errors: no cadence or a bad segment from the
      cleaning, and `NoMad` when the stitched flux has no finite value. */
  method Sweep(t: seq<real>, f: seq<real>, root: real -> real) returns (r: Result<Candidate, CleanError>)
    requires |t| == |f|
    ensures r == SweepSpec(t, f, root)
  {
    var cleaned := CleanData(Lift(f), t, ClipK);
    r := ReportCleaned(t, cleaned, root);
  }

  /** What the sweep reports is the candidate `transit_estimate` would pick
      from the same candidates: no period scores a higher finite SNR, and
      every earlier period scores strictly lower. */
  lemma SweepReportsBest(t: seq<real>, fAll: seq<Sample>, sigma: real, root: real -> real)
    ensures var cands := SweepCandidates(t, fAll, sigma, root);
      var c := BestCandidate(t, fAll, sigma, root);
      && (forall j :: 0 <= j < |cands| && cands[j].snr.Val? ==> c.snr.Val? && cands[j].snr.v <= c.snr.v)
      && (forall j :: 0 <= j < MaxIndex(Snrs(cands)) && cands[j].snr.Val? ==> cands[j].snr.v < c.snr.v)
      && ((forall j :: 0 <= j < |cands| ==> cands[j].snr.Masked?) ==> c == cands[0])
  {
    TransitEstimateIsBest(SweepCandidates(t, fAll, sigma, root));
  }
}
