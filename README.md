# Transit detector core in Dafny

This project models the numerical core of a TESS transit detector. The detector reads a light curve (time, flux and a quality flag per cadence) and cleans it. It then folds the series on a grid of trial periods, bins it by phase and slides a box over the bins to find the deepest dip. Each period is scored by a signal-to-noise ratio, and the best period is reported.

The model has eight modules:

- `Samples` (`Sample = Val(real) | Masked`). A `Masked` value is NaN. Arithmetic on it gives `Masked`, it fails every `is_finite` test, and every comparison with it is false. The model gives no infinite flux to the box search or the SNR comparisons: `segment_noise_clean` (src/data_access/data_cleaner.rs:13-14) turns every non-finite normalised flux into NaN before the flux reaches them. An infinity is modelled only where the code tests `is_finite`, which treats NaN and ±infinity alike. "## Left out" lists the comparisons that would treat an infinity differently.
- `Sorting`. The stable `sort_by` in place on an array, proved equal to a functional stable insertion sort.
- `Statistics` (src/statistical_methods/statistics.rs): `median`, `median_cadence`, `median_absolute_deviation`.
- `DataCleaner` (src/data_access/data_cleaner.rs):
  - `segment_on_gaps`;
  - `normalize_segments`;
  - the `NormSegment` class, with `segment_noise_clean` clipping its `f_norm` in place;
  - `clean_data`.
- `FindingCandidates` (src/candidacy/finding_candidates.rs):
  - `get_phases`;
  - `binning` over count and sum accumulator arrays;
  - the sliding-window `search_bins`;
  - `signal_to_noise_ratio`, `trial_periods`, `find_candidates`, `transit_estimate`.
- `TessFilter`: `filter_and_sort_tess_data`, whose text is the same in src/old_main.rs:58-74 and src/main.rs:20-35.
- `OldMain` (src/old_main.rs):
  - the const-generic `search_bins`, which also returns the window width;
  - `find_max_candidate`;
  - the sweep in `main` (lines 287-395) from the median cadence to the reported transit.
  - The copies of `median`, `median_cadence`, `segment_on_gaps`, `NormSegment`, `median_absolute_deviation` and `normalize_segments` at lines 76-179 have the same text as statistics.rs and data_cleaner.rs. `get_phases` and `binning` at lines 180-211 compute the same as finding_candidates.rs with `N_BINS = 200`. Those modules model them.
- `MainDraft` (src/main.rs):
  - `median(&mut Vec<f64>)`, which sorts the caller's vector;
  - `median_absolute_deviation(arr, med)`;
  - `normalize_segments`, whose `NormSegment<'a>` holds the `t[s..e]` and `f[s..e]` slices.
  - Its `segment_on_gaps` (lines 58-74) has the same text as data_cleaner.rs and is `DataCleaner.SegmentOnGaps`.

Loops that update state are methods with loop invariants. Each is proved equal to a specification function, and the properties the code promises are lemmas about those functions. The `expect` and `assert!` panics of the cleaning pipeline become `CleanError` results:

- `NoCadence`;
- `EmptySegment`;
- `ZeroMedian`;
- `NoMad`.

Index panics (`count[bin_index]`, `counts[..w]`, `c_period[max_index]`, `candidates[max_index]`) are preconditions.

## Model

| member | source | states |
|---|---|---|
| Samples.Add | src/candidacy/finding_candidates.rs:64 | `+` is finite exactly when both operands are |
| Samples.Sub | src/statistical_methods/statistics.rs:28 | `-` is finite exactly when both operands are |
| Samples.Div | src/candidacy/finding_candidates.rs:72 | division by a non-zero count is finite exactly when the dividend is |
| Samples.FiniteMembers | src/statistical_methods/statistics.rs:6 | `filter(is_finite)` keeps exactly the finite values |
| Samples.FiniteMultiset | src/statistical_methods/statistics.rs:6 | each finite value is kept as often as it occurs |
| Samples.FinitePermutation | src/statistical_methods/statistics.rs:6 | filtering permuted input gives a permutation of the filtered values |
| Samples.FiniteAppend | src/statistical_methods/statistics.rs:6 | filtering distributes over concatenation |
| Samples.FiniteOfLift | src/statistical_methods/statistics.rs:6 | filtering already-finite values returns them unchanged |
| Samples.FiniteEmpty | src/statistical_methods/statistics.rs:7-9 | nothing survives the filter exactly when every entry is non-finite |
| Sorting.SortInPlace | src/statistical_methods/statistics.rs:10 | `sort_by` leaves the array equal to the stable insertion sort of its old contents |
| Sorting.InsertLast | src/statistical_methods/statistics.rs:10 | one insertion step moves `a[i]` into the sorted prefix as the functional `Insert` does, leaving the rest alone |
| Sorting.InsertionSortSorted | src/statistical_methods/statistics.rs:10 | the sort output is ordered by the key |
| Sorting.InsertionSortPermutes | src/statistical_methods/statistics.rs:10 | the sort output is a permutation of its input |
| Sorting.InsertionSortStable | src/old_main.rs:69 | for every key value, the items with that key keep their input order (`sort_by` is stable) |
| Sorting.SortedUnique | src/statistical_methods/statistics.rs:10 | two sorted permutations of the same values are equal |
| Sorting.SortPermutationInvariant | src/statistical_methods/statistics.rs:6-10 | sorting permuted values gives the same sequence |
| Statistics.Median | src/statistical_methods/statistics.rs:1-20 | `median` is the middle (or mean of the two middles) of the sorted finite entries; `None` exactly when no entry is finite, the empty input included |
| Statistics.MiddleBounds | src/statistical_methods/statistics.rs:11-19 | the middle rule lies between the first and last sorted values |
| Statistics.SortedMedianBounds | src/statistical_methods/statistics.rs:10-19 | a median is at least one value and at most one value of the input |
| Statistics.MedianNone | src/statistical_methods/statistics.rs:2-9 | the median is `None` exactly when every entry is non-finite |
| Statistics.MedianWithinRange | src/statistical_methods/statistics.rs:10-19 | a median lies between the smallest and largest finite entry |
| Statistics.MedianPermutationInvariant | src/statistical_methods/statistics.rs:6-10 | permuting the input does not change the median |
| Statistics.MedianIgnoresMasked | src/statistical_methods/statistics.rs:6 | inserting a non-finite entry does not change the median |
| Statistics.SortedMedianOfConstant | src/statistical_methods/statistics.rs:11-19 | the median of equal values is that value |
| Statistics.PositiveSteps | src/statistical_methods/statistics.rs:26-30 | every kept time step is strictly positive |
| Statistics.PositiveStepsMembers | src/statistical_methods/statistics.rs:26-30 | no step is kept exactly when no successive difference is finite and positive |
| Statistics.CadenceNone | src/statistical_methods/statistics.rs:23-33 | `median_cadence` is `None` exactly for fewer than two samples or no finite positive step |
| Statistics.MedianCadence | src/statistical_methods/statistics.rs:22-35 | `median_cadence` is the median of the finite positive steps, and positive when it exists |
| Statistics.Deviations | src/statistical_methods/statistics.rs:43-48 | one non-negative deviation per finite entry |
| Statistics.MedianAbsoluteDeviation | src/statistical_methods/statistics.rs:37-54 | the median of `abs(f - median)` over the finite entries; `None` exactly when no entry is finite; never negative |
| Statistics.MadOfConstant | src/statistical_methods/statistics.rs:42-53 | the MAD is 0 when all finite values are equal |
| DataCleaner.NoiseLevel | src/data_access/data_cleaner.rs:30 | `1.4826 * mad` is non-negative for a non-negative MAD, positive for a positive one |
| DataCleaner.SegmentsUpToBounded | src/data_access/data_cleaner.rs:47-56 | every segment is a non-empty range inside `[0, n)` |
| DataCleaner.SegmentsUpToPartition | src/data_access/data_cleaner.rs:47-56 | the segments tile `[0, n)`: empty exactly for `n == 0`, first start 0, last end `n`, each end the next start |
| DataCleaner.SegmentsUpToStartAtGaps | src/data_access/data_cleaner.rs:48-53 | every segment after the first starts at a gap |
| DataCleaner.SegmentsUpToGapFree | src/data_access/data_cleaner.rs:48-53 | no gap falls strictly inside a segment |
| DataCleaner.GapSegmentsSplit | src/data_access/data_cleaner.rs:41-57 | the segmentation is a partition that splits exactly at the gaps |
| DataCleaner.PartitionCovers | src/data_access/data_cleaner.rs:47-56 | every index lies in some segment |
| DataCleaner.PartitionOrdered | src/data_access/data_cleaner.rs:47-56 | segments are in order and disjoint |
| DataCleaner.SegmentStartIffGap | src/data_access/data_cleaner.rs:48-53 | a segment starts at `i > 0` exactly when `t[i] - t[i-1] > dt_med * gap_factor` |
| DataCleaner.NoGapOneSegment | src/data_access/data_cleaner.rs:47-56 | without a gap the result is the single segment `(0, len)` |
| DataCleaner.SplitOnGaps | src/data_access/data_cleaner.rs:45-56 | the `start`/push loop builds the sample-by-sample segmentation |
| DataCleaner.SegmentOnGaps | src/data_access/data_cleaner.rs:41-57 | `segment_on_gaps` returns a partition of `[0, len)` split exactly at the gaps (empty for empty `t`) |
| DataCleaner.Clipped | src/data_access/data_cleaner.rs:9-17 | after clipping, the length is unchanged; every entry is masked or within `k*sigma`; every entry is masked or unchanged; finite entries within the threshold are kept |
| DataCleaner.ClippedIdempotent | src/data_access/data_cleaner.rs:10-16 | clipping twice is clipping once |
| DataCleaner.NormSegment.constructor | src/data_access/data_cleaner.rs:32-36 | a new segment holds the given normalised flux, median and sigma |
| DataCleaner.NormSegment.SegmentNoiseClean | src/data_access/data_cleaner.rs:9-17 | `segment_noise_clean` overwrites `f_norm` in place with its clipped value |
| DataCleaner.Normalized | src/data_access/data_cleaner.rs:27-28 | `f_norm[i] = f[i] / med - 1`, finite exactly where `f[i]` is |
| DataCleaner.NormalizeNeverNoMad | src/data_access/data_cleaner.rs:29 | once a segment has a median, the MAD `expect` cannot fire |
| DataCleaner.NormalizeOne | src/data_access/data_cleaner.rs:24-36 | one loop pass: `EmptySegment` without a finite value, `ZeroMedian` for a zero median, else the normalised flux, median and `1.4826 * MAD` |
| DataCleaner.CollectFails | src/data_access/data_cleaner.rs:23-37 | the first failing segment's panic is the panic of the whole loop |
| DataCleaner.CollectSuccess | src/data_access/data_cleaner.rs:23-37 | the loop succeeds exactly when every segment does, with their values in order |
| DataCleaner.NormalizeSegments | src/data_access/data_cleaner.rs:20-39 | `normalize_segments` makes one fresh, distinct `NormSegment` per bound, in order, with that slice's values, or fails with the first failing segment's error |
| DataCleaner.NormalizeAllStats | src/data_access/data_cleaner.rs:24-30 | segment `j` holds the median of `f[s..e]`, `f[s..e] / med - 1` and `1.4826 * MAD` of that |
| DataCleaner.NormalizeAllHolds | src/data_access/data_cleaner.rs:20-39 | every segment of a successful normalisation holds its own slice's statistics |
| DataCleaner.CleanSegments | src/data_access/data_cleaner.rs:65-67 | every segment's `f_norm` is clipped at `k` times its own sigma |
| DataCleaner.Stitch | src/data_access/data_cleaner.rs:68-71 | the `flat_map` concatenates the segments' flux in order |
| DataCleaner.CleanAndStitch | src/data_access/data_cleaner.rs:65-71 | clip every segment, then concatenate: the clipped segments in order |
| DataCleaner.CleanData | src/data_access/data_cleaner.rs:59-73 | `clean_data` is the specification `CleanSpec`: `NoCadence`, a segment's error, or the stitched clipped flux |
| DataCleaner.FlattenPrefixLength | src/data_access/data_cleaner.rs:68-71 | the first `m` stitched segments end where segment `m-1` ends |
| DataCleaner.FlattenLength | src/data_access/data_cleaner.rs:68-71 | stitching segments that tile `[0, n)` gives `n` values |
| DataCleaner.FlattenPrefixIndex | src/data_access/data_cleaner.rs:68-71 | within the first `m` segments, entry `i` of segment `j` sits at `bounds[j].0 + i` |
| DataCleaner.FlattenIndex | src/data_access/data_cleaner.rs:68-71 | the stitched output puts entry `i` of segment `j` at index `bounds[j].0 + i` |
| DataCleaner.ClippedEntry | src/data_access/data_cleaner.rs:9-17 | a clipped entry is `f/med - 1` when finite and within `k*sigma`, else masked |
| DataCleaner.CleanedSegmentsFit | src/data_access/data_cleaner.rs:28 | each clipped segment has the length of its bounds |
| DataCleaner.SegmentEntry | src/data_access/data_cleaner.rs:24-30 | entry `i` of clipped segment `j` is `flux[i]` normalised by segment `j`'s median, or masked |
| DataCleaner.CleanOnSegmentsEntries | src/data_access/data_cleaner.rs:62-71 | over a partition, the output has `n` values and entry `i` is `flux[i]` normalised by its own segment's median and clipped at its own sigma |
| DataCleaner.CleanDataEntries | src/data_access/data_cleaner.rs:59-73 | `clean_data` returns `times.len()` values in index order; entry `i` is masked or `flux[i] / med_j - 1` for its gap segment `j`, with the segment's statistics |
| FindingCandidates.Saturate | src/candidacy/finding_candidates.rs:62 | `as usize` is the identity in range, 0 below, at most `usize::MAX` |
| FindingCandidates.Trunc | src/candidacy/finding_candidates.rs:120 | truncation toward zero leaves a remainder of magnitude below 1, with the sign of `x` |
| FindingCandidates.FoldPhaseFraction | src/candidacy/finding_candidates.rs:120 | `(t % p) / p` is the signed fractional part of `t / p` |
| FindingCandidates.FoldPhaseBounds | src/candidacy/finding_candidates.rs:120 | a phase is finite, in `(-1, 1)`, and in `[0, 1)` for `t >= 0`, `p > 0` |
| FindingCandidates.FoldPhasePeriodic | src/candidacy/finding_candidates.rs:120 | shifting `t` by one period leaves its phase unchanged |
| FindingCandidates.GetPhases | src/candidacy/finding_candidates.rs:116-125 | one phase per time stamp, in order |
| FindingCandidates.FoldedBinInRange | src/candidacy/finding_candidates.rs:62-63 | every folded phase gets a bin index below `n_bins`, so `count[bin_index]` cannot panic |
| FindingCandidates.RangeTotalFinite | src/candidacy/finding_candidates.rs:92 | an `f64` sum is finite exactly when every term is |
| FindingCandidates.Accumulate | src/candidacy/finding_candidates.rs:61-65 | one pass: `count[b]` and `sum_flux[b]` become the size and sum of bin `b` after one more pair |
| FindingCandidates.Binning | src/candidacy/finding_candidates.rs:57-76 | `binning` returns, per bin, the mean of its samples (0.0 when empty) and its sample count, both of length `n_bins` |
| FindingCandidates.CountsUpToSum | src/candidacy/finding_candidates.rs:61-65 | after `m` pairs the counts sum to `m` |
| FindingCandidates.BinCountsTotal | src/candidacy/finding_candidates.rs:61-65 | the counts sum to the number of zipped `(flux, phase)` pairs |
| FindingCandidates.BinnedFinite | src/candidacy/finding_candidates.rs:68-74 | a bin's mean is finite exactly when all its samples are |
| FindingCandidates.WindowWidthOfZero | src/candidacy/finding_candidates.rs:85-86 | a zero duration gives a zero window width |
| FindingCandidates.SlideSum | src/candidacy/finding_candidates.rs:102 | `sum_flux += b[right] - b[right - w]` keeps the running sum of the window |
| FindingCandidates.SlideCount | src/old_main.rs:232-238 | the window count is at least the outgoing count, so `sum_count -= counts[right - w]` cannot underflow, and add-then-subtract gives the next window's count |
| FindingCandidates.BestStart | src/candidacy/finding_candidates.rs:101-111 | the best window start is among those scanned |
| FindingCandidates.BestStartMinimal | src/candidacy/finding_candidates.rs:100-111 | no scanned window's average is below the chosen one, and every earlier window's differs (strict `<` keeps the earliest) |
| FindingCandidates.Slide | src/candidacy/finding_candidates.rs:101-111 | one loop pass keeps the running sums equal to the current window's and the best-so-far equal to the earliest strict minimum |
| FindingCandidates.SearchWindow | src/candidacy/finding_candidates.rs:92-113 | the sliding loop returns the box the specification `BoxSearch` gives |
| FindingCandidates.SearchBins | src/candidacy/finding_candidates.rs:78-114 | `search_bins` is `BoxSearch` at the rounded window width |
| FindingCandidates.BoxSearchNone | src/candidacy/finding_candidates.rs:85-97 | `None` exactly when `w == 0`, `w > len` or the first window's count is 0 |
| FindingCandidates.BoxSearchDeepest | src/candidacy/finding_candidates.rs:98-113 | over finite bins: the dip is the mean of the earliest minimal window, no window is lower, every earlier window is strictly higher, and the count is that window's count |
| FindingCandidates.SignalToNoiseRatio | src/candidacy/finding_candidates.rs:52-55 | always `Some`; finite exactly for non-zero sigma; 0 for a zero dip |
| FindingCandidates.SnrIncreasingInDepth | src/candidacy/finding_candidates.rs:52-55 | for fixed positive sigma and points, a deeper dip scores strictly higher, and any dip below 0 scores above 0 |
| FindingCandidates.TrialPeriods | src/candidacy/finding_candidates.rs:127-129 | `trial_periods(n)` is `1.0, 1.5, …, n * 0.5`, increasing, of length `n - 1` |
| FindingCandidates.AsI32 | src/candidacy/finding_candidates.rs:144 | `n_dur as i32` keeps small values and is a 32-bit signed value |
| FindingCandidates.TrialDurations | src/candidacy/finding_candidates.rs:144 | the trial durations start at 0.5, increase, are positive, and number `n_dur - 1` |
| FindingCandidates.FirstMax | src/candidacy/finding_candidates.rs:177-185 | the held index is in range and finite |
| FindingCandidates.FirstMaxIsFirstMaximum | src/candidacy/finding_candidates.rs:177-185 | the strict `>` loop holds nothing exactly when no value is finite, else the first maximal finite value |
| FindingCandidates.FirstMinIsFirstMinimum | src/candidacy/finding_candidates.rs:145-161 | the strict `<` loop from +infinity holds the first minimal finite box average |
| FindingCandidates.FirstMinStep | src/candidacy/finding_candidates.rs:154-159 | one more trial replaces the held value exactly when finite and strictly smaller |
| FindingCandidates.BoxDips | src/candidacy/finding_candidates.rs:151-154 | the box averages, masked for a trial with no box |
| FindingCandidates.ChoiceStep | src/candidacy/finding_candidates.rs:150-161 | one pass of the duration loop, on the specification |
| FindingCandidates.ChooseDuration | src/candidacy/finding_candidates.rs:145-161 | the duration loop holds the first strictly deepest finite box's dip, points, duration and phase, or the zero fill |
| FindingCandidates.CandidateOf | src/candidacy/finding_candidates.rs:163-170 | the candidate carries its trial period |
| FindingCandidates.CandidateForPeriod | src/candidacy/finding_candidates.rs:139-170 | one period's candidate is `CandidateFor` |
| FindingCandidates.CandidateListIndex | src/candidacy/finding_candidates.rs:139-171 | candidate `i` of the list belongs to period `i` |
| FindingCandidates.FindCandidates | src/candidacy/finding_candidates.rs:131-174 | one candidate per trial period, in order, each the period's `CandidateFor` |
| FindingCandidates.CandidateDeepestDuration | src/candidacy/finding_candidates.rs:145-170 | with no finite box, duration and phase are 0 and the SNR is that of dip 0; otherwise the first strictly deepest finite box gives the duration, phase and SNR, and no box is deeper |
| FindingCandidates.Snrs | src/candidacy/finding_candidates.rs:180 | the SNR of each candidate, in order |
| FindingCandidates.MaxIndex | src/candidacy/finding_candidates.rs:176-188 | `max_index` is in range for a non-empty list |
| FindingCandidates.TransitEstimate | src/candidacy/finding_candidates.rs:176-188 | `transit_estimate` returns the candidate at the first maximal finite SNR (the first candidate when none is finite) |
| FindingCandidates.TransitEstimateIsBest | src/candidacy/finding_candidates.rs:176-188 | that candidate's SNR is at least every finite SNR and strictly above every earlier one |
| TessFilter.KeptPairsExact | src/old_main.rs:60-67 | a pair is kept exactly when it comes from a row with quality 0, finite time and finite flux |
| TessFilter.Zip | src/old_main.rs:71 | `unzip`'s inverse: pair `i` is `(t[i], f[i])` |
| TessFilter.GoodIndices | src/old_main.rs:60-62 | the good indices, in order, each picking the matching kept pair |
| TessFilter.FilterAndSort | src/old_main.rs:58-74 | the output columns have equal length, times are non-decreasing, the pairs are the stable sort of the kept pairs (a permutation; equal times keep input order) |
| TessFilter.Unzip | src/old_main.rs:71 | `unzip` splits the pairs into two equal-length columns that zip back to them |
| OldMain.SweepPeriods | src/old_main.rs:311-313 | 250 increasing periods from 0.5 to 125.0 days |
| OldMain.SweepDurations | src/old_main.rs:345-347 | 20 increasing durations from 0.0 to 9.5 hours |
| OldMain.SearchBins | src/old_main.rs:213-248 | the same box as finding_candidates.rs's `search_bins`, with the window width added; a width in `(0, len]` when found; `None` for a zero duration |
| OldMain.SweepBoxes | src/old_main.rs:353-365 | one box per trial duration |
| OldMain.SweepSkipsZeroDuration | src/old_main.rs:218-220 | the first trial duration (0.0) never yields a box |
| OldMain.SweepCandidate | src/old_main.rs:338-380 | the candidate carries its period |
| OldMain.ChooseWidth | src/old_main.rs:353-365 | the duration loop keeps the first strictly deepest finite box, with its window width as `window_length` |
| OldMain.SweepPeriod | src/old_main.rs:339-380 | one period's candidate, scored by the window width of its deepest box |
| OldMain.SweepCandidates | src/old_main.rs:336-381 | one candidate per trial period, in order |
| OldMain.SweepAll | src/old_main.rs:336-381 | the period loop builds `SweepCandidates` |
| OldMain.FindMaxCandidate | src/old_main.rs:256-266 | `None` exactly when no SNR is finite; else the maximal finite SNR at the first maximal index; the period at that index |
| OldMain.Periods | src/old_main.rs:384 | the period of each candidate, in order |
| OldMain.TransitByPeriod | src/old_main.rs:390-395 | the last candidate whose period matches, or the default candidate |
| OldMain.LastWithPeriodUnique | src/old_main.rs:390-395 | with distinct periods, looking up a candidate's period finds that candidate |
| OldMain.PickBest | src/old_main.rs:388-395 | `find_max_candidate` then the lookup give the candidate at the first maximal finite SNR |
| OldMain.Report | src/old_main.rs:336-395 | from the cleaned flux and sigma, the transit is the best candidate of the sweep |
| OldMain.ReportCleaned | src/old_main.rs:307-395 | `NoMad` when no stitched value is finite, else the best candidate at `sigma_all = 1.4826 * MAD` |
| OldMain.Sweep | src/old_main.rs:287-395 | the whole sweep from the median cadence is `SweepSpec`: a cleaning error, `NoMad`, or the best candidate |
| OldMain.SweepReportsBest | src/old_main.rs:388-395 | the reported transit's SNR is at least every finite SNR of the sweep and strictly above every earlier one; with no finite SNR it is the first candidate |
| MainDraft.MedianInPlace | src/main.rs:37-46 | `v` is left sorted, a permutation of its old contents; the result is `None` on empty input, else the middle rule |
| MainDraft.InPlaceMedianAgrees | src/main.rs:37-46 | on NaN-free input this median is statistics.rs's median, `None` exactly on empty input |
| MainDraft.MadAbout | src/main.rs:83-96 | the median of `abs(f - med)` over finite entries, with the given `med`; `None` exactly when no entry is finite; never negative |
| MainDraft.MadAboutMedian | src/main.rs:83-96 | given the input's own median, it equals statistics.rs's MAD |
| MainDraft.Rescaled | src/main.rs:124-125 | `f_norm[i] = f[i] / med - 1` |
| MainDraft.ViewResults | src/main.rs:119-133 | one view result per bound |
| MainDraft.NormalizeView | src/main.rs:120-132 | one loop pass: `EmptySegment`, `ZeroMedian`, or the slices, normalised flux and median |
| MainDraft.NormalizeSegmentViews | src/main.rs:112-135 | `normalize_segments` is the views of all bounds in order, or the first panic |
| MainDraft.ViewsSpecEntries | src/main.rs:119-133 | view `j` holds `t[s..e]` and `f[s..e]`, a non-zero median and `f_norm[i] == f[s+i] / med - 1` |
| MainDraft.ViewAgreesWithCleaner | src/main.rs:120-125 | this normalisation fails and succeeds exactly as data_cleaner.rs's on the same slice, with the same median and normalised flux |
| MainDraft.LiftRescaled | src/main.rs:124-125 | the rescaling agrees with data_cleaner.rs's normalisation on finite values |

## Left out

- FITS loading (`load_tess_data`, src/data_access/fits_access.rs), `plot_to_python` and plotting_data.py, every `println!`, the `Display` impls and the file paths are I/O and are not modelled.
- The checks in `main` before the sweep (src/old_main.rs:278-285): the length, finiteness and chronological-order assertions. `OldMain.Sweep` starts at line 287 and takes the filtered `t` and `f` with `|t| == |f|` as its precondition.
- OldMain.Sweep, DataCleaner.CleanData, DataCleaner.SegmentOnGaps, FindingCandidates.GetPhases: time stamps are `real`, so NaN and ±infinity times are excluded by type. In the source a NaN step never splits a segment and `median_cadence` drops it. Every caller passes times already filtered to finite values (src/old_main.rs:61 and :283).
- FindingCandidates.SearchWindow, FindingCandidates.ChooseDuration, FindingCandidates.TransitEstimate, OldMain.SearchBins, OldMain.ChooseWidth, OldMain.FindMaxCandidate: an infinite box average or SNR is modelled as `Masked`, which no comparison takes. In the source, `avg < deepest_dip` and `box_avg < deepest_dip` take −infinity, and `check_snr > max_snr` takes +infinity. Cleaned flux is finite or NaN, so an infinity reaches these comparisons only through floating-point overflow, which is not modelled, or through a zero sigma (below).
- IEEE-754 arithmetic: rounding of `+`, `-`, `*`, `/`, `f64 %`, `floor` and `round` is not modelled. The model computes on exact reals, and `%` is the exact truncated remainder.
- FindingCandidates.SignalToNoiseRatio: `f64::sqrt` is the parameter `root`, of which only `IsRoot` is assumed (0 at 0, strictly increasing).
- FindingCandidates.SignalToNoiseRatio: a zero sigma gives NaN or ±infinity in the source. The model gives the mask for all three, so `transit_estimate` and `find_max_candidate`, which would pick a +infinity, never pick such a candidate. With a positive sigma every SNR is finite and the two agree.
- FindingCandidates.CountSum: the `u32` counts and count sums are unbounded naturals; 32-bit overflow is not modelled.
- FindingCandidates.Binning: the counts are naturals, not `u32`, for the same reason.
- `CleanLightCurve` in src/data_access.rs has no `time()`, `flux()` or `sigma()` accessors; it is replaced by the record `FindingCandidates.LightCurve(time, flux, sigma)`.
- src/old_main.rs:99 reads `times3`; it is taken as `times`.
- `NormSegment::segment_noise_clean` in src/main.rs:99-109 calls `mad_segments_norm`, which is not defined anywhere. The data_cleaner.rs version is modelled instead.
- `binning_flux` (src/main.rs:137-168) indexes `count[200]` out of bounds. It is draft code and is not modelled.
- The rest of `main` in src/main.rs (lines 170-209) only repeats the pipeline up to cleaning, then builds an unused period grid.
- MainDraft.MedianInPlace: the entries are `real`, so the `partial_cmp(..).unwrap()` panic on NaN input is excluded by type rather than modelled.
