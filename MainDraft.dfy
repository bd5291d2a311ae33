/** src/main.rs: the second driver, a rework in progress. Its `median`
    sorts the caller's vector in place and does no filtering, its
    `median_absolute_deviation` takes the centre as an argument, and its
    `normalize_segments` keeps views of the time and flux slices next to
    the normalised flux. `segment_on_gaps` is the one of data_cleaner.rs. */
module MainDraft {
  import opened Wrappers
  import opened Samples
  import opened Sorting
  import opened Statistics
  import opened DataCleaner

  // ---------------------------------------------------------------------
  // median(&mut Vec<f64>)
  // ---------------------------------------------------------------------

  /** `median(v)`: `None` on an empty vector; otherwise `v` is left sorted
      and its middle is returned. A NaN makes `partial_cmp(..).unwrap()`
      panic, so the entries here are reals. */
  method MedianInPlace(v: array<real>) returns (r: Option<real>)
    modifies v
    ensures v[..] == InsertionSort(old(v[..]), Identity)
    ensures SortedBy(v[..], Identity) && multiset(v[..]) == multiset(old(v[..]))
    ensures r == SortedMedian(old(v[..]))
  {
    if v.Length == 0 {
      return None;
    }
    ghost var before := v[..];
    SortInPlace(v, Identity);
    InsertionSortSorted(before, Identity);
    InsertionSortPermutes(before, Identity);
    r := Some(Middle(v[..]));
  }

  /** On NaN-free input this median is the one of statistics.rs. */
  lemma InPlaceMedianAgrees(xs: seq<real>)
    ensures SortedMedian(xs) == MedianOf(Lift(xs))
    ensures SortedMedian(xs).None? <==> xs == []
  {
    FiniteOfLift(xs);
  }

  // ---------------------------------------------------------------------
  // median_absolute_deviation(arr, med)
  // ---------------------------------------------------------------------

  /** What `median_absolute_deviation(arr, med)` returns. */
  ghost function MadAboutSpec(arr: seq<Sample>, med: real): Option<real>
  {
    if arr == [] then None else SortedMedian(Deviations(arr, med))
  }

  /** `median_absolute_deviation(arr, med)`: the median distance of the
      finite entries from the given `med`. `None` exactly when no entry is
      finite; never negative. */
  method MadAbout(arr: seq<Sample>, med: real) returns (r: Option<real>)
    ensures r == MadAboutSpec(arr, med)
    ensures r.None? <==> forall i :: 0 <= i < |arr| ==> arr[i] == Masked
    ensures r.Some? ==> r.value >= 0.0
  {
    FiniteEmpty(arr);
    if |arr| == 0 {
      return None;
    }
    var deviations := Deviations(arr, med);
    if |deviations| == 0 {
      return None;
    }
    var a := new real[|deviations|](i requires 0 <= i < |deviations| => deviations[i]);
    assert a[..] == deviations;
    r := MedianInPlace(a);
    SortedMedianBounds(deviations);
    var i :| 0 <= i < |deviations| && r.value >= deviations[i];
    assert deviations[i] in deviations;
  }

  /** Given the median of `arr` itself, this is the `median_absolute_deviation`
      of statistics.rs. */
  lemma MadAboutMedian(arr: seq<Sample>, med: real)
    requires MedianOf(arr) == Some(med)
    ensures MadAboutSpec(arr, med) == MadOf(arr)
  {
  }

  // ---------------------------------------------------------------------
  // normalize_segments(t, f, segments)
  // ---------------------------------------------------------------------

  /** One `NormSegment<'a>`: the slices `t[s..e]` and `f[s..e]`, the
      normalised flux and the segment median. */
  datatype View = View(t: seq<real>, fRaw: seq<real>, fNorm: seq<real>, med: real)

  /** `inv * f - 1` with `inv = 1 / med`. */
  function Rescaled(fSeg: seq<real>, med: real): (r: seq<real>)
    requires med != 0.0
    ensures |r| == |fSeg|
    ensures forall i :: 0 <= i < |r| ==> r[i] == fSeg[i] / med - 1.0
  {
    var inv := 1.0 / med;
    seq(|fSeg|, i requires 0 <= i < |fSeg| => inv * fSeg[i] - 1.0)
  }

  /** Every bound slices both `t` and `f`. */
  ghost predicate ViewBounds(t: seq<real>, f: seq<real>, segments: seq<(nat, nat)>)
  {
    forall j :: 0 <= j < |segments| ==> segments[j].0 <= segments[j].1 <= |f| && segments[j].1 <= |t|
  }

  /** The view of one segment: "empty segment" when it has no sample, the
      assertion failure when its median is zero. */
  ghost function ViewOf(t: seq<real>, f: seq<real>, s: nat, e: nat): Result<View, CleanError>
    requires s <= e <= |f| && e <= |t|
  {
    match SortedMedian(f[s..e])
    case None => Failure(EmptySegment)
    case Some(med) =>
      if med == 0.0 then Failure(ZeroMedian)
      else Success(View(t[s..e], f[s..e], Rescaled(f[s..e], med), med))
  }

  /** Every segment's own view. */
  ghost function ViewResults(t: seq<real>, f: seq<real>, segments: seq<(nat, nat)>): (r: seq<Result<View, CleanError>>)
    requires ViewBounds(t, f, segments)
    ensures |r| == |segments|
    ensures forall j :: 0 <= j < |segments| ==> r[j] == ViewOf(t, f, segments[j].0, segments[j].1)
  {
    seq(|segments|, j requires 0 <= j < |segments| => ViewOf(t, f, segments[j].0, segments[j].1))
  }

  /** What `normalize_segments` returns: the views in order, or the first
      panic. */
  ghost function ViewsSpec(t: seq<real>, f: seq<real>, segments: seq<(nat, nat)>): Result<seq<View>, CleanError>
    requires ViewBounds(t, f, segments)
  {
    Collect(ViewResults(t, f, segments))
  }

  /** The body of the segment loop. */
  method NormalizeView(t: seq<real>, f: seq<real>, s: nat, e: nat) returns (r: Result<View, CleanError>)
    requires s <= e <= |f| && e <= |t|
    ensures r == ViewOf(t, f, s, e)
  {
    var fSeg := f[s..e];
    var temp := new real[e - s](i requires 0 <= i < e - s => fSeg[i]);
    assert temp[..] == fSeg;
    var med := MedianInPlace(temp);
    if med.None? {
      return Failure(EmptySegment);
    }
    if med.value == 0.0 {
      return Failure(ZeroMedian);
    }
    r := Success(View(t[s..e], fSeg, Rescaled(fSeg, med.value), med.value));
  }

  /** `normalize_segments(t, f, segments)`. */
  method NormalizeSegmentViews(t: seq<real>, f: seq<real>, segments: seq<(nat, nat)>) returns (r: Result<seq<View>, CleanError>)
    requires ViewBounds(t, f, segments)
    ensures r == ViewsSpec(t, f, segments)
  {
    ghost var results := ViewResults(t, f, segments);
    var out: seq<View> := [];
    for j := 0 to |segments|
      invariant CollectUpTo(results, j) == Success(out)
    {
      var view := NormalizeView(t, f, segments[j].0, segments[j].1);
      assert view == results[j];
      if view.Failure? {
        CollectFails(results, j + 1);
        return Failure(view.error);
      }
      out := out + [view.value];
    }
    r := Success(out);
  }

  /** Each view holds the `s..e` slices of `t` and `f`, and its normalised
      flux is `f[s+i] / med - 1` with a non-zero median. */
  lemma ViewsSpecEntries(t: seq<real>, f: seq<real>, segments: seq<(nat, nat)>, j: nat, i: nat)
    requires ViewBounds(t, f, segments) && ViewsSpec(t, f, segments).Success?
    requires j < |segments| && segments[j].0 + i < segments[j].1
    ensures |ViewsSpec(t, f, segments).value| == |segments|
    ensures var v := ViewsSpec(t, f, segments).value[j];
      && v.t == t[segments[j].0..segments[j].1] && v.fRaw == f[segments[j].0..segments[j].1]
      && v.med != 0.0 && |v.fNorm| == segments[j].1 - segments[j].0
      && v.fNorm[i] == f[segments[j].0 + i] / v.med - 1.0
  {
    var results := ViewResults(t, f, segments);
    CollectSuccess(results, |results|);
  }

  /** The view of a slice fails exactly when data_cleaner.rs's
      normalisation of the same slice fails, with the same error; otherwise
      both have the same median and the same normalised flux. */
  lemma ViewAgreesWithCleaner(fSeg: seq<real>)
    ensures var n := NormalizeSegment(Lift(fSeg));
      match SortedMedian(fSeg)
      case None => n == Failure(EmptySegment)
      case Some(med) =>
        if med == 0.0 then n == Failure(ZeroMedian)
        else n.Success? && n.value.med == med && n.value.fNorm == Lift(Rescaled(fSeg, med))
  {
    FiniteOfLift(fSeg);
    NormalizeNeverNoMad(Lift(fSeg));
    match SortedMedian(fSeg)
    case None =>
    case Some(med) =>
      if med != 0.0 {
        LiftRescaled(fSeg, med);
      }
  }

  /** Rescaling finite values, then marking them finite, is data_cleaner.rs's
      normalisation of the finite values. */
  lemma LiftRescaled(fSeg: seq<real>, med: real)
    requires med != 0.0
    ensures Lift(Rescaled(fSeg, med)) == Normalized(Lift(fSeg), med)
  {
    var a, b := Lift(Rescaled(fSeg, med)), Normalized(Lift(fSeg), med);
    forall i | 0 <= i < |fSeg| ensures a[i] == b[i] {
      assert b[i] == Val(fSeg[i] / med - 1.0);
    }
  }
}
