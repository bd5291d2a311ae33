/** src/data_access/data_cleaner.rs: splits the filtered series into
    stretches without large time gaps, normalises each stretch by its own
    median, clips outliers in place and stitches the stretches back together.
    The `expect`/`assert!` panics become `CleanError`s. */
module DataCleaner {
  import opened Wrappers
  import opened Samples
  import opened Statistics

  datatype CleanError =
    | NoCadence     // "median cadence not found"
    | EmptySegment  // "empty segment": a segment without a finite flux value
    | ZeroMedian    // "segment median zero or infinite"
    | NoMad         // "couldn't find MAD"

  /** The gap factor `clean_data` hard-codes. */
  const GapFactor: real := 5.0

  /** MAD to Gaussian standard deviation. */
  const MadToSigma: real := 1.4826

  /** `1.4826 * mad`: the Gaussian noise level of a median absolute
      deviation. */
  function NoiseLevel(mad: real): (sigma: real)
    ensures mad >= 0.0 ==> sigma >= 0.0
    ensures mad > 0.0 ==> sigma > 0.0
  {
    MadToSigma * mad
  }

  // ---------------------------------------------------------------------
  // segment_on_gaps

  /** A new segment starts at `i` when the step into `i` exceeds the threshold. */
  predicate IsGap(t: seq<real>, threshold: real, i: int)
  {
    0 < i < |t| && t[i] - t[i - 1] > threshold
  }

  /** `bounds` are non-empty half-open ranges that tile `[0, n)` in order. */
  ghost predicate Partition(bounds: seq<(nat, nat)>, n: nat)
  {
    && (n == 0 <==> bounds == [])
    && (bounds != [] ==> bounds[0].0 == 0 && bounds[|bounds| - 1].1 == n)
    && (forall j :: 0 <= j < |bounds| ==> bounds[j].0 < bounds[j].1)
    && (forall j :: 0 <= j < |bounds| - 1 ==> bounds[j].1 == bounds[j + 1].0)
  }

  /** Every segment after the first starts at a gap. */
  ghost predicate StartsAtGaps(t: seq<real>, threshold: real, bounds: seq<(nat, nat)>)
  {
    forall j :: 0 < j < |bounds| ==> IsGap(t, threshold, bounds[j].0)
  }

  /** No gap falls strictly inside a segment. */
  ghost predicate GapFreeInside(t: seq<real>, threshold: real, bounds: seq<(nat, nat)>)
  {
    forall j, i :: 0 <= j < |bounds| && bounds[j].0 < i < bounds[j].1 ==> !IsGap(t, threshold, i)
  }

  /** The segmentation `segment_on_gaps` promises: a partition of the indices
      of `t` whose segments start exactly at the gaps. */
  ghost predicate SplitsAtGaps(t: seq<real>, threshold: real, bounds: seq<(nat, nat)>)
  {
    Partition(bounds, |t|) && StartsAtGaps(t, threshold, bounds) && GapFreeInside(t, threshold, bounds)
  }

  /** The segmentation of the first `n` samples of `t`, built one sample at
      a time: a sample after a gap opens a new segment, any other sample
      extends the last one. */
  ghost function SegmentsUpTo(t: seq<real>, threshold: real, n: nat): (b: seq<(nat, nat)>)
    requires n <= |t|
    ensures n > 0 ==> |b| > 0 && b[|b| - 1].1 == n
  {
    if n == 0 then []
    else if n == 1 then [(0, 1)]
    else
      var b := SegmentsUpTo(t, threshold, n - 1);
      if IsGap(t, threshold, n - 1) then b + [(n - 1, n)]
      else b[..|b| - 1] + [(b[|b| - 1].0, n)]
  }

  /** The segmentation of the whole series at threshold `dtMed * gapFactor`. */
  ghost function GapSegments(t: seq<real>, dtMed: real, gapFactor: real): (b: seq<(nat, nat)>)
    ensures Bounded(b, |t|)
  {
    SegmentsUpToBounded(t, dtMed * gapFactor, |t|);
    SegmentsUpTo(t, dtMed * gapFactor, |t|)
  }

  /** Every segment lies within the first `n` samples. */
  predicate Bounded(b: seq<(nat, nat)>, n: nat)
  {
    forall j :: 0 <= j < |b| ==> b[j].0 < b[j].1 <= n
  }

  lemma {:induction false} SegmentsUpToBounded(t: seq<real>, threshold: real, n: nat)
    requires n <= |t|
    ensures Bounded(SegmentsUpTo(t, threshold, n), n)
  {
    if n >= 2 {
      var b' := SegmentsUpTo(t, threshold, n - 1);
      var b := SegmentsUpTo(t, threshold, n);
      SegmentsUpToBounded(t, threshold, n - 1);
      var m := |b'| - 1;
      if IsGap(t, threshold, n - 1) {
        assert b == b' + [(n - 1, n)];
      } else {
        assert b == b'[..m] + [(b'[m].0, n)];
      }
    }
  }

  lemma {:induction false} SegmentsUpToPartition(t: seq<real>, threshold: real, n: nat)
    requires n <= |t|
    ensures Partition(SegmentsUpTo(t, threshold, n), n)
  {
    if n >= 2 {
      var b' := SegmentsUpTo(t, threshold, n - 1);
      var b := SegmentsUpTo(t, threshold, n);
      SegmentsUpToPartition(t, threshold, n - 1);
      if IsGap(t, threshold, n - 1) {
        assert b == b' + [(n - 1, n)];
      } else {
        var m := |b'| - 1;
        assert b == b'[..m] + [(b'[m].0, n)];
        assert forall j :: 0 <= j < m ==> b[j] == b'[j];
      }
    }
  }

  lemma {:induction false} SegmentsUpToStartAtGaps(t: seq<real>, threshold: real, n: nat)
    requires n <= |t|
    ensures StartsAtGaps(t, threshold, SegmentsUpTo(t, threshold, n))
  {
    if n >= 2 {
      var b' := SegmentsUpTo(t, threshold, n - 1);
      var b := SegmentsUpTo(t, threshold, n);
      SegmentsUpToStartAtGaps(t, threshold, n - 1);
      forall j | 0 < j < |b| ensures IsGap(t, threshold, b[j].0) {
        if j < |b'| {
          assert b[j].0 == b'[j].0;
        }
      }
    }
  }

  lemma {:induction false} SegmentsUpToGapFree(t: seq<real>, threshold: real, n: nat)
    requires n <= |t|
    ensures GapFreeInside(t, threshold, SegmentsUpTo(t, threshold, n))
  {
    if n >= 2 {
      var b' := SegmentsUpTo(t, threshold, n - 1);
      var b := SegmentsUpTo(t, threshold, n);
      SegmentsUpToGapFree(t, threshold, n - 1);
      var m := |b'| - 1;
      if IsGap(t, threshold, n - 1) {
        assert b == b' + [(n - 1, n)];
      } else {
        assert b == b'[..m] + [(b'[m].0, n)];
      }
      forall j, i | 0 <= j < |b| && b[j].0 < i < b[j].1 ensures !IsGap(t, threshold, i) {
        if j < m || (j == m && IsGap(t, threshold, n - 1)) {
          assert b[j] == b'[j];
        } else if i < n - 1 {
          assert b'[m].0 < i < b'[m].1;
        }
      }
    }
  }

  /** The recursive segmentation meets the segmentation contract. */
  lemma GapSegmentsSplit(t: seq<real>, dtMed: real, gapFactor: real)
    ensures SplitsAtGaps(t, dtMed * gapFactor, GapSegments(t, dtMed, gapFactor))
  {
    var threshold := dtMed * gapFactor;
    SegmentsUpToPartition(t, threshold, |t|);
    SegmentsUpToStartAtGaps(t, threshold, |t|);
    SegmentsUpToGapFree(t, threshold, |t|);
  }

  /** Every index lies in a segment of a partition. */
  lemma {:induction false} PartitionCovers(bounds: seq<(nat, nat)>, n: nat, i: nat)
    requires Partition(bounds, n) && i < n
    ensures exists j :: 0 <= j < |bounds| && bounds[j].0 <= i < bounds[j].1
    decreases |bounds|
  {
    var last := |bounds| - 1;
    if i < bounds[last].0 {
      var b' := bounds[..last];
      assert Partition(b', bounds[last].0);
      PartitionCovers(b', bounds[last].0, i);
      var j :| 0 <= j < |b'| && b'[j].0 <= i < b'[j].1;
      assert bounds[j] == b'[j];
    } else {
      assert bounds[last].0 <= i < bounds[last].1;
    }
  }

  /** Segment starts increase, so segments are disjoint. */
  lemma {:induction false} PartitionOrdered(bounds: seq<(nat, nat)>, n: nat, j: nat, k: nat)
    requires Partition(bounds, n) && j < k < |bounds|
    ensures bounds[j].1 <= bounds[k].0
    decreases k - j
  {
    if j + 1 < k {
      PartitionOrdered(bounds, n, j + 1, k);
    }
  }

  /** A segment boundary falls at index `i` exactly when the step into `i`
      exceeds the threshold. */
  lemma SegmentStartIffGap(t: seq<real>, threshold: real, bounds: seq<(nat, nat)>, i: nat)
    requires SplitsAtGaps(t, threshold, bounds)
    requires 0 < i < |t|
    ensures IsGap(t, threshold, i) <==> exists j :: 0 < j < |bounds| && bounds[j].0 == i
  {
    PartitionCovers(bounds, |t|, i);
    var j :| 0 <= j < |bounds| && bounds[j].0 <= i < bounds[j].1;
    if IsGap(t, threshold, i) {
      assert bounds[j].0 == i;
      assert j != 0;
    }
  }

  /** Without a gap the whole series is one segment. */
  lemma NoGapOneSegment(t: seq<real>, threshold: real, bounds: seq<(nat, nat)>)
    requires SplitsAtGaps(t, threshold, bounds) && |t| > 0
    requires forall i :: 0 < i < |t| ==> !IsGap(t, threshold, i)
    ensures bounds == [(0, |t|)]
  {
  }

  /** The loop of `segment_on_gaps`, at a given threshold. */
  method SplitOnGaps(t: seq<real>, threshold: real) returns (bounds: seq<(nat, nat)>)
    ensures bounds == SegmentsUpTo(t, threshold, |t|)
  {
    bounds := [];
    if |t| > 0 {
      var start := 0;
      for i := 1 to |t|
        invariant start < i
        invariant bounds + [(start, i)] == SegmentsUpTo(t, threshold, i)
      {
        ghost var prev := bounds + [(start, i)];
        assert prev[..|prev| - 1] == bounds && prev[|prev| - 1].0 == start;
        if t[i] - t[i - 1] > threshold {
          assert SegmentsUpTo(t, threshold, i + 1) == prev + [(i, i + 1)];
          bounds := bounds + [(start, i)];
          start := i;
        } else {
          assert SegmentsUpTo(t, threshold, i + 1) == bounds + [(start, i + 1)];
        }
      }
      bounds := bounds + [(start, |t|)];
    }
  }

  /** `segment_on_gaps`: index ranges `[s, e)` covering `t`, a new one opening
      wherever `t[i] - t[i-1] > dt_med * gap_factor`. */
  method SegmentOnGaps(t: seq<real>, dtMed: real, gapFactor: real) returns (bounds: seq<(nat, nat)>)
    ensures bounds == GapSegments(t, dtMed, gapFactor)
    ensures SplitsAtGaps(t, dtMed * gapFactor, bounds)
  {
    bounds := SplitOnGaps(t, dtMed * gapFactor);
    GapSegmentsSplit(t, dtMed, gapFactor);
  }

  // ---------------------------------------------------------------------
  // NormSegment and segment_noise_clean

  /** One entry after clipping at `threshold`: non-finite values and values
      with `|x| > threshold` become the mask. */
  function ClipOne(x: Sample, threshold: real): Sample
  {
    if x.Masked? || Abs(x.v) > threshold then Masked else x
  }

  /** The clipping threshold `k * sigma` of `segment_noise_clean`. */
  function ClipThreshold(k: real, sigma: real): real
  {
    k * sigma
  }

  /** What `segment_noise_clean` leaves in `f_norm`. */
  function Clipped(xs: seq<Sample>, threshold: real): (r: seq<Sample>)
    ensures |r| == |xs|
    ensures forall i :: 0 <= i < |r| ==> r[i] == Masked || (r[i].Val? && Abs(r[i].v) <= threshold)
    ensures forall i :: 0 <= i < |r| ==> r[i] == Masked || r[i] == xs[i]
    ensures forall i :: 0 <= i < |r| && xs[i].Val? && Abs(xs[i].v) <= threshold ==> r[i] == xs[i]
  {
    seq(|xs|, i requires 0 <= i < |xs| => ClipOne(xs[i], threshold))
  }

  /** Clipping twice at the same threshold is clipping once. */
  lemma ClippedIdempotent(xs: seq<Sample>, threshold: real)
    ensures Clipped(Clipped(xs, threshold), threshold) == Clipped(xs, threshold)
  {
    var once := Clipped(xs, threshold);
    forall i | 0 <= i < |xs| ensures Clipped(once, threshold)[i] == once[i] {
      assert once[i] == Masked || Abs(once[i].v) <= threshold;
    }
  }

  /** The value of one normalised segment. */
  datatype SegmentValue = SegmentValue(fNorm: seq<Sample>, med: real, sigma: real)

  /** `NormSegment`: a segment's normalised flux, which clipping overwrites in
      place, with the median it was normalised by and its robust sigma. */
  class NormSegment {
    var fNorm: seq<Sample>
    const med: real
    const sigma: real

    constructor (fNorm: seq<Sample>, med: real, sigma: real)
      ensures this.fNorm == fNorm && this.med == med && this.sigma == sigma
    {
      this.fNorm := fNorm;
      this.med := med;
      this.sigma := sigma;
    }

    function Value(): SegmentValue
      reads this
    {
      SegmentValue(fNorm, med, sigma)
    }

    /** `segment_noise_clean(k)`: masks every entry that is non-finite or
        farther than `k * sigma` from zero, leaving the others as they are. */
    method SegmentNoiseClean(k: real)
      modifies this
      ensures fNorm == Clipped(old(fNorm), ClipThreshold(k, sigma))
    {
      var threshold := ClipThreshold(k, sigma);
      var i := 0;
      while i < |fNorm|
        invariant 0 <= i <= |fNorm| == |old(fNorm)|
        invariant forall j :: 0 <= j < i ==> fNorm[j] == ClipOne(old(fNorm)[j], threshold)
        invariant forall j :: i <= j < |fNorm| ==> fNorm[j] == old(fNorm)[j]
      {
        if fNorm[i].Masked? || Abs(fNorm[i].v) > threshold {
          fNorm := fNorm[i := Masked];
        }
        i := i + 1;
      }
    }
  }

  // ---------------------------------------------------------------------
  // normalize_segments

  /** `inv * f - 1` with `inv = 1 / med`; a non-finite value stays non-finite. */
  function Normalized(fSeg: seq<Sample>, med: real): (r: seq<Sample>)
    requires med != 0.0
    ensures |r| == |fSeg|
    ensures forall i :: 0 <= i < |r| ==> (r[i].Val? <==> fSeg[i].Val?)
    ensures forall i :: 0 <= i < |r| && fSeg[i].Val? ==> r[i].v == fSeg[i].v / med - 1.0
  {
    var inv := 1.0 / med;
    seq(|fSeg|, i requires 0 <= i < |fSeg| => if fSeg[i].Val? then Val(inv * fSeg[i].v - 1.0) else Masked)
  }

  /** What `normalize_segments` computes for one slice `f[s..e]`. */
  ghost function NormalizeSegment(fSeg: seq<Sample>): Result<SegmentValue, CleanError>
  {
    match MedianOf(fSeg)
    case None => Failure(EmptySegment)
    case Some(med) =>
      if med == 0.0 then Failure(ZeroMedian)
      else
        var fNorm := Normalized(fSeg, med);
        match MadOf(fNorm)
        case None => Failure(NoMad)
        case Some(mad) => Success(SegmentValue(fNorm, med, NoiseLevel(mad)))
  }

  ghost predicate InBounds(f: seq<Sample>, segments: seq<(nat, nat)>)
  {
    forall j :: 0 <= j < |segments| ==> segments[j].0 <= segments[j].1 <= |f|
  }

  /** The values of the first `n` results, or the first error among them. */
  ghost function CollectUpTo<T, E>(rs: seq<Result<T, E>>, n: nat): (r: Result<seq<T>, E>)
    requires n <= |rs|
    ensures r.Success? ==> |r.value| == n
  {
    if n == 0 then Success([])
    else
      match CollectUpTo(rs, n - 1)
      case Failure(e) => Failure(e)
      case Success(done) => if rs[n - 1].Failure? then Failure(rs[n - 1].error) else Success(done + [rs[n - 1].value])
  }

  ghost function Collect<T, E>(rs: seq<Result<T, E>>): (r: Result<seq<T>, E>)
    ensures r.Success? ==> |r.value| == |rs|
  {
    CollectUpTo(rs, |rs|)
  }

  /** A failure among the first `n` results is the failure of them all. */
  lemma {:induction false} CollectFails<T, E>(rs: seq<Result<T, E>>, n: nat)
    requires n <= |rs| && CollectUpTo(rs, n).Failure?
    ensures Collect(rs) == CollectUpTo(rs, n)
    decreases |rs| - n
  {
    if n < |rs| {
      CollectFails(rs, n + 1);
    }
  }

  /** `Collect` succeeds exactly when every result does, with their values
      in order. */
  lemma {:induction false} CollectSuccess<T, E>(rs: seq<Result<T, E>>, n: nat)
    requires n <= |rs|
    ensures CollectUpTo(rs, n).Success? <==> forall j :: 0 <= j < n ==> rs[j].Success?
    ensures CollectUpTo(rs, n).Success? ==> forall j :: 0 <= j < n ==> CollectUpTo(rs, n).value[j] == rs[j].value
  {
    if n > 0 {
      CollectSuccess(rs, n - 1);
    }
  }

  /** Every segment's own `normalize_segments` result. */
  ghost function SegmentResults(f: seq<Sample>, segments: seq<(nat, nat)>): (r: seq<Result<SegmentValue, CleanError>>)
    requires InBounds(f, segments)
    ensures |r| == |segments|
    ensures forall j :: 0 <= j < |segments| ==> r[j] == NormalizeSegment(f[segments[j].0..segments[j].1])
  {
    seq(|segments|, j requires 0 <= j < |segments| => NormalizeSegment(f[segments[j].0..segments[j].1]))
  }

  /** `normalize_segments` over all segments: the first failing segment
      decides the error. */
  ghost function NormalizeAll(f: seq<Sample>, segments: seq<(nat, nat)>): (r: Result<seq<SegmentValue>, CleanError>)
    requires InBounds(f, segments)
    ensures r.Success? ==> |r.value| == |segments|
  {
    Collect(SegmentResults(f, segments))
  }

  /** The MAD `expect` never fires: once a segment has a median its
      normalised values have a MAD. */
  lemma NormalizeNeverNoMad(fSeg: seq<Sample>)
    ensures NormalizeSegment(fSeg) != Failure(NoMad)
  {
    match MedianOf(fSeg)
    case None =>
    case Some(med) =>
      if med != 0.0 {
        var fNorm := Normalized(fSeg, med);
        MedianNone(fSeg);
        var i :| 0 <= i < |fSeg| && fSeg[i] != Masked;
        assert fNorm[i] != Masked;
        MedianNone(fNorm);
        assert MedianOf(fNorm).Some?;
      }
  }

  /** One pass of the `normalize_segments` loop body, on the slice `f[s..e]`. */
  method NormalizeOne(fSeg: seq<Sample>) returns (r: Result<SegmentValue, CleanError>)
    ensures r == NormalizeSegment(fSeg)
  {
    var med := Median(fSeg);
    if med.None? {
      assert NormalizeSegment(fSeg) == Failure(EmptySegment);
      return Failure(EmptySegment);
    }
    if med.value == 0.0 {
      assert NormalizeSegment(fSeg) == Failure(ZeroMedian);
      return Failure(ZeroMedian);
    }
    var fNorm := Normalized(fSeg, med.value);
    var mad := MedianAbsoluteDeviation(fNorm);
    assert NormalizeSegment(fSeg) ==
      if mad.None? then Failure(NoMad) else Success(SegmentValue(fNorm, med.value, NoiseLevel(mad.value)));
    if mad.None? {
      return Failure(NoMad);
    }
    r := Success(SegmentValue(fNorm, med.value, NoiseLevel(mad.value)));
  }

  /** No object occurs twice. */
  ghost predicate Distinct(s: seq<NormSegment>)
  {
    forall i, j :: 0 <= i < j < |s| ==> s[i] != s[j]
  }

  lemma DistinctAppend(s: seq<NormSegment>, o: NormSegment)
    requires Distinct(s) && o !in s
    ensures Distinct(s + [o])
  {
  }

  /** `normalize_segments`: one new `NormSegment` per bound, in order, each
      holding `f[s..e] / med - 1`, its median and `1.4826 * MAD`; the first
      failing segment's error otherwise. */
  method NormalizeSegments(f: seq<Sample>, segments: seq<(nat, nat)>)
    returns (r: Result<seq<NormSegment>, CleanError>)
    requires InBounds(f, segments)
    ensures r.Success? <==> NormalizeAll(f, segments).Success?
    ensures r.Failure? ==> NormalizeAll(f, segments) == Failure(r.error)
    ensures r.Success? ==> |r.value| == |segments|
    ensures r.Success? ==> forall j :: 0 <= j < |segments| ==>
      fresh(r.value[j]) && r.value[j].Value() == NormalizeAll(f, segments).value[j]
    ensures r.Success? ==> Distinct(r.value)
  {
    ghost var results := SegmentResults(f, segments);
    var out: seq<NormSegment> := [];
    ghost var done: seq<SegmentValue> := [];
    for n := 0 to |segments|
      invariant CollectUpTo(results, n) == Success(done)
      invariant |out| == n
      invariant forall j :: 0 <= j < n ==> fresh(out[j])
      invariant forall j :: 0 <= j < n ==> out[j].Value() == done[j]
      invariant Distinct(out)
    {
      var seg := NormalizeOne(f[segments[n].0..segments[n].1]);
      assert seg == results[n];
      if seg.Failure? {
        CollectFails(results, n + 1);
        return Failure(seg.error);
      }
      var o := new NormSegment(seg.value.fNorm, seg.value.med, seg.value.sigma);
      DistinctAppend(out, o);
      out := out + [o];
      done := done + [seg.value];
    }
    r := Success(out);
  }

  // ---------------------------------------------------------------------
  // clean_data

  /** The segments' values, concatenated in order (`flat_map`). */
  function Flatten(xss: seq<seq<Sample>>): (r: seq<Sample>)
    decreases |xss|
  {
    if xss == [] then [] else Flatten(xss[..|xss| - 1]) + xss[|xss| - 1]
  }

  /** Each segment after `segment_noise_clean(k)`. */
  ghost function CleanedSegments(segs: seq<SegmentValue>, k: real): (r: seq<seq<Sample>>)
    ensures |r| == |segs|
    ensures forall j :: 0 <= j < |segs| ==> r[j] == Clipped(segs[j].fNorm, ClipThreshold(k, segs[j].sigma))
  {
    seq(|segs|, j requires 0 <= j < |segs| => Clipped(segs[j].fNorm, ClipThreshold(k, segs[j].sigma)))
  }

  /** The normalised, clipped and stitched flux over given segment bounds. */
  ghost function CleanOnSegments(flux: seq<Sample>, bounds: seq<(nat, nat)>, k: real): Result<seq<Sample>, CleanError>
    requires InBounds(flux, bounds)
  {
    match NormalizeAll(flux, bounds)
    case Failure(e) => Failure(e)
    case Success(segs) => Success(Flatten(CleanedSegments(segs, k)))
  }

  /** What `clean_data` returns once the median cadence is known. */
  ghost function CleanWithCadence(flux: seq<Sample>, times: seq<real>, k: real, cadence: Option<real>): Result<seq<Sample>, CleanError>
    requires |times| <= |flux|
  {
    match cadence
    case None => Failure(NoCadence)
    case Some(dtMed) => CleanOnSegments(flux, GapSegments(times, dtMed, GapFactor), k)
  }

  /** What `clean_data` returns. */
  ghost function CleanSpec(flux: seq<Sample>, times: seq<real>, k: real): Result<seq<Sample>, CleanError>
    requires |times| <= |flux|
  {
    CleanWithCadence(flux, times, k, CadenceOf(Lift(times)))
  }

  /** `segment_noise_clean(k)` on every segment. */
  method CleanSegments(segs: seq<NormSegment>, k: real)
    requires Distinct(segs)
    modifies set j | 0 <= j < |segs| :: segs[j]
    ensures forall j :: 0 <= j < |segs| ==> segs[j].fNorm == Clipped(old(segs[j].fNorm), ClipThreshold(k, segs[j].sigma))
  {
    for j := 0 to |segs|
      invariant forall i :: 0 <= i < j ==> segs[i].fNorm == Clipped(old(segs[i].fNorm), ClipThreshold(k, segs[i].sigma))
      invariant forall i :: j <= i < |segs| ==> segs[i].fNorm == old(segs[i].fNorm)
    {
      segs[j].SegmentNoiseClean(k);
    }
  }

  /** The `flat_map` that stitches the segments' flux back together. */
  method Stitch(segs: seq<NormSegment>, ghost parts: seq<seq<Sample>>) returns (fAll: seq<Sample>)
    requires |parts| == |segs|
    requires forall j :: 0 <= j < |segs| ==> segs[j].fNorm == parts[j]
    ensures fAll == Flatten(parts)
  {
    fAll := [];
    for j := 0 to |segs|
      invariant fAll == Flatten(parts[..j])
    {
      assert parts[..j + 1][..j] == parts[..j];
      fAll := fAll + segs[j].fNorm;
    }
    assert parts[..|segs|] == parts;
  }

  /** The last two steps of `clean_data`: clip every segment, then
      concatenate them. */
  method CleanAndStitch(segs: seq<NormSegment>, k: real, ghost values: seq<SegmentValue>) returns (fAll: seq<Sample>)
    requires Distinct(segs) && |values| == |segs|
    requires forall j :: 0 <= j < |segs| ==> segs[j].Value() == values[j]
    modifies set j | 0 <= j < |segs| :: segs[j]
    ensures fAll == Flatten(CleanedSegments(values, k))
  {
    ghost var parts := CleanedSegments(values, k);
    CleanSegments(segs, k);
    assert forall j :: 0 <= j < |segs| ==> segs[j].fNorm == parts[j];
    fAll := Stitch(segs, parts);
  }

  /** `clean_data`: normalised, clipped flux in the original index order. */
  method CleanData(flux: seq<Sample>, times: seq<real>, k: real) returns (r: Result<seq<Sample>, CleanError>)
    requires |times| <= |flux|
    ensures r == CleanSpec(flux, times, k)
  {
    var dtMed := MedianCadence(Lift(times));
    if dtMed.None? {
      return Failure(NoCadence);
    }
    var segBounds := SegmentOnGaps(times, dtMed.value, GapFactor);
    var normalized := NormalizeSegments(flux, segBounds);
    if normalized.Failure? {
      return Failure(normalized.error);
    }
    var fAll := CleanAndStitch(normalized.value, k, NormalizeAll(flux, segBounds).value);
    r := Success(fAll);
  }

  /** Segment `j` of `parts` has the length of bound `j`. */
  ghost predicate Fits(parts: seq<seq<Sample>>, bounds: seq<(nat, nat)>)
  {
    |parts| == |bounds| && forall j :: 0 <= j < |bounds| ==> |parts[j]| + bounds[j].0 == bounds[j].1
  }

  /** Stitching the first `m` segments of a tiling of `[0, n)` gives the
      samples up to the end of segment `m - 1`. */
  lemma {:induction false} FlattenPrefixLength(parts: seq<seq<Sample>>, bounds: seq<(nat, nat)>, n: nat, m: nat)
    requires Partition(bounds, n) && Fits(parts, bounds)
    requires 0 < m <= |bounds|
    ensures |Flatten(parts[..m])| == bounds[m - 1].1
  {
    assert parts[..m][..m - 1] == parts[..m - 1];
    if m > 1 {
      FlattenPrefixLength(parts, bounds, n, m - 1);
      assert bounds[m - 2].1 == bounds[m - 1].0;
    }
  }

  /** Stitching segments that tile `[0, n)` gives `n` samples. */
  lemma FlattenLength(parts: seq<seq<Sample>>, bounds: seq<(nat, nat)>, n: nat)
    requires Partition(bounds, n) && Fits(parts, bounds)
    ensures |Flatten(parts)| == n
  {
    if bounds != [] {
      FlattenPrefixLength(parts, bounds, n, |bounds|);
      assert parts[..|bounds|] == parts;
    }
  }

  /** In the first `m` segments stitched together, entry `i` of segment `j`
      sits at index `bounds[j].0 + i`. */
  lemma {:induction false} FlattenPrefixIndex(parts: seq<seq<Sample>>, bounds: seq<(nat, nat)>, n: nat, m: nat, j: nat, i: nat)
    requires Partition(bounds, n) && Fits(parts, bounds)
    requires j < m <= |bounds| && bounds[j].0 <= i < bounds[j].1
    ensures i < |Flatten(parts[..m])| && Flatten(parts[..m])[i] == parts[j][i - bounds[j].0]
  {
    FlattenPrefixLength(parts, bounds, n, m);
    assert parts[..m][..m - 1] == parts[..m - 1];
    if j == m - 1 {
      if m > 1 {
        FlattenPrefixLength(parts, bounds, n, m - 1);
        assert bounds[m - 2].1 == bounds[m - 1].0;
      }
    } else {
      PartitionOrdered(bounds, n, j, m - 1);
      FlattenPrefixLength(parts, bounds, n, m - 1);
      FlattenPrefixIndex(parts, bounds, n, m - 1, j, i);
    }
  }

  /** Stitching segments that tile `[0, n)` puts entry `i` of segment `j` at
      index `bounds[j].0 + i`. */
  lemma FlattenIndex(parts: seq<seq<Sample>>, bounds: seq<(nat, nat)>, n: nat, j: nat, i: nat)
    requires Partition(bounds, n) && Fits(parts, bounds)
    requires j < |bounds| && bounds[j].0 <= i < bounds[j].1
    ensures |Flatten(parts)| == n
    ensures i < |Flatten(parts)| && Flatten(parts)[i] == parts[j][i - bounds[j].0]
  {
    FlattenLength(parts, bounds, n);
    FlattenPrefixIndex(parts, bounds, n, |bounds|, j, i);
    assert parts[..|bounds|] == parts;
  }

  /** `FlattenIndex` for a stitched sequence passed in by name. */
  lemma StitchedIndex(parts: seq<seq<Sample>>, bounds: seq<(nat, nat)>, n: nat, out: seq<Sample>, j: nat, i: nat)
    requires Partition(bounds, n) && Fits(parts, bounds) && out == Flatten(parts)
    requires j < |bounds| && bounds[j].0 <= i < bounds[j].1
    ensures i < |out| == n && out[i] == parts[j][i - bounds[j].0]
  {
    FlattenIndex(parts, bounds, n, j, i);
  }

  /** One entry of `clean_data`'s output: the input sample divided by its
      segment's median minus one, or the mask when that is non-finite or
      farther than `k * sigma` from zero. */
  ghost predicate CleanedEntry(x: Sample, out: Sample, seg: SegmentValue, k: real)
  {
    if x.Val? && seg.med != 0.0 && Abs(x.v / seg.med - 1.0) <= ClipThreshold(k, seg.sigma)
    then out == Val(x.v / seg.med - 1.0)
    else out == Masked
  }

  /** What segment `j` of a successful normalisation holds: the median of the
      segment's flux and 1.4826 times the MAD of the normalised flux. */
  ghost predicate SegmentStats(fSeg: seq<Sample>, seg: SegmentValue)
  {
    && MedianOf(fSeg) == Some(seg.med)
    && seg.med != 0.0
    && seg.fNorm == Normalized(fSeg, seg.med)
    && MadOf(Normalized(fSeg, seg.med)).Some?
    && seg.sigma == NoiseLevel(MadOf(Normalized(fSeg, seg.med)).value)
  }

  /** Clipping a normalised segment gives each entry as `CleanedEntry` says. */
  lemma ClippedEntry(fSeg: seq<Sample>, seg: SegmentValue, k: real, idx: nat)
    requires SegmentStats(fSeg, seg) && idx < |fSeg|
    ensures idx < |Clipped(seg.fNorm, ClipThreshold(k, seg.sigma))|
    ensures CleanedEntry(fSeg[idx], Clipped(seg.fNorm, ClipThreshold(k, seg.sigma))[idx], seg, k)
  {
  }

  /** `ClippedEntry` with the segment, its clipped samples and the entry
      passed in by name. */
  lemma StitchedEntry(fSeg: seq<Sample>, seg: SegmentValue, k: real, part: seq<Sample>, x: Sample, y: Sample, idx: nat)
    requires SegmentStats(fSeg, seg) && idx < |fSeg|
    requires part == Clipped(seg.fNorm, ClipThreshold(k, seg.sigma))
    requires x == fSeg[idx] && idx < |part| && y == part[idx]
    ensures CleanedEntry(x, y, seg, k)
  {
    ClippedEntry(fSeg, seg, k, idx);
  }

  /** Segment `j` of a successful `normalize_segments` holds the statistics
      of its own slice of the flux. */
  lemma NormalizeAllStats(flux: seq<Sample>, bounds: seq<(nat, nat)>, j: nat)
    requires InBounds(flux, bounds) && NormalizeAll(flux, bounds).Success?
    requires j < |bounds|
    ensures SegmentStats(flux[bounds[j].0..bounds[j].1], NormalizeAll(flux, bounds).value[j])
  {
    var results := SegmentResults(flux, bounds);
    CollectSuccess(results, |results|);
  }

  /** Every segment value holds the statistics of its own slice of the flux. */
  ghost predicate SegmentsHold(flux: seq<Sample>, bounds: seq<(nat, nat)>, segs: seq<SegmentValue>)
    requires InBounds(flux, bounds)
  {
    |segs| == |bounds| && forall j :: 0 <= j < |bounds| ==> SegmentStats(flux[bounds[j].0..bounds[j].1], segs[j])
  }

  /** A successful `normalize_segments` gives every segment its own statistics. */
  lemma NormalizeAllHolds(flux: seq<Sample>, bounds: seq<(nat, nat)>, segs: seq<SegmentValue>)
    requires InBounds(flux, bounds) && NormalizeAll(flux, bounds) == Success(segs)
    ensures SegmentsHold(flux, bounds, segs)
  {
    forall j | 0 <= j < |bounds| ensures SegmentStats(flux[bounds[j].0..bounds[j].1], segs[j]) {
      NormalizeAllStats(flux, bounds, j);
    }
  }

  /** The clipped segments have the lengths of their bounds. */
  lemma CleanedSegmentsFit(flux: seq<Sample>, bounds: seq<(nat, nat)>, k: real, segs: seq<SegmentValue>)
    requires InBounds(flux, bounds) && SegmentsHold(flux, bounds, segs)
    ensures Fits(CleanedSegments(segs, k), bounds)
  {
  }

  /** Entry `i` of segment `j`, clipped, is `flux[i]` as `CleanedEntry`
      says. */
  lemma SegmentEntry(flux: seq<Sample>, bounds: seq<(nat, nat)>, segs: seq<SegmentValue>, k: real,
                     part: seq<Sample>, y: Sample, j: nat, i: nat)
    requires InBounds(flux, bounds) && SegmentsHold(flux, bounds, segs)
    requires j < |bounds| && bounds[j].0 <= i < bounds[j].1
    requires part == Clipped(segs[j].fNorm, ClipThreshold(k, segs[j].sigma))
    requires i - bounds[j].0 < |part| && y == part[i - bounds[j].0]
    ensures CleanedEntry(flux[i], y, segs[j], k)
  {
    StitchedEntry(flux[bounds[j].0..bounds[j].1], segs[j], k, part, flux[i], y, i - bounds[j].0);
  }

  /** Over any tiling of the indices, the cleaned output keeps the index
      order: entry `i`, inside segment `j`, is `flux[i]` normalised by that
      segment's median and clipped at `k` times that segment's sigma. */
  lemma CleanOnSegmentsEntries(flux: seq<Sample>, bounds: seq<(nat, nat)>, n: nat, k: real,
                               segs: seq<SegmentValue>, out: seq<Sample>, j: nat, i: nat)
    requires Partition(bounds, n) && InBounds(flux, bounds) && SegmentsHold(flux, bounds, segs)
    requires out == Flatten(CleanedSegments(segs, k))
    requires j < |bounds| && bounds[j].0 <= i < bounds[j].1
    ensures i < |out| == n
    ensures CleanedEntry(flux[i], out[i], segs[j], k)
  {
    var parts := CleanedSegments(segs, k);
    var s := bounds[j].0;
    CleanedSegmentsFit(flux, bounds, k, segs);
    StitchedIndex(parts, bounds, n, out, j, i);
    SegmentEntry(flux, bounds, segs, k, parts[j], out[i], j, i);
  }

  /** `clean_data` end to end: when it returns `out`, there is one output
      entry per time stamp, and entry `i` of gap segment `j` (gaps measured
      against the median cadence `dtMed`) is `flux[i]` normalised by the
      median of that segment's flux and clipped at `k` times the segment's
      robust sigma. */
  lemma CleanDataEntries(flux: seq<Sample>, times: seq<real>, k: real, out: seq<Sample>,
                         dtMed: real, bounds: seq<(nat, nat)>, segs: seq<SegmentValue>, j: nat, i: nat)
    requires |times| <= |flux| && CleanSpec(flux, times, k) == Success(out)
    requires CadenceOf(Lift(times)) == Some(dtMed) && bounds == GapSegments(times, dtMed, GapFactor)
    requires InBounds(flux, bounds) && NormalizeAll(flux, bounds) == Success(segs)
    requires j < |bounds| && bounds[j].0 <= i < bounds[j].1
    ensures i < |out| == |times|
    ensures j < |segs| && SegmentStats(flux[bounds[j].0..bounds[j].1], segs[j])
    ensures CleanedEntry(flux[i], out[i], segs[j], k)
  {
    assert CleanSpec(flux, times, k) == CleanOnSegments(flux, bounds, k);
    assert Partition(bounds, |times|) by {
      GapSegmentsSplit(times, dtMed, GapFactor);
    }
    NormalizeAllHolds(flux, bounds, segs);
    CleanOnSegmentsEntries(flux, bounds, |times|, k, segs, out, j, i);
  }
}
