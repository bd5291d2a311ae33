/** `filter_and_sort_tess_data` (src/old_main.rs and src/main.rs hold the same
    text): keep the rows with quality flag 0 and a finite time and flux, put
    each row's `(time, flux)` pair together, stable-sort the pairs by time and
    unzip them. */
module TessFilter {
  import opened Samples
  import opened Sorting

  /** The filter's reads stay in range: `qual[i]` and `time[i]` for every
      row of `time`, and `flux[i]` only for the rows that pass the first two
      tests, since `&&` stops at the first one that fails. */
  predicate ReadsInRange(flux: seq<Sample>, time: seq<Sample>, qual: seq<int>)
  {
    && |time| <= |qual|
    && forall i :: 0 <= i < |time| && qual[i] == 0 && time[i].Val? ==> i < |flux|
  }

  /** A row survives the filter. */
  predicate Good(flux: seq<Sample>, time: seq<Sample>, qual: seq<int>, i: nat)
    requires i < |time| <= |qual|
  {
    qual[i] == 0 && time[i].Val? && i < |flux| && flux[i].Val?
  }

  /** The `(time, flux)` pairs of the good rows among the first `n`, in row
      order. */
  ghost function KeptPairs(flux: seq<Sample>, time: seq<Sample>, qual: seq<int>, n: nat): (r: seq<(real, real)>)
    requires n <= |time| <= |qual|
    ensures |r| <= n
  {
    if n == 0 then []
    else
      KeptPairs(flux, time, qual, n - 1)
        + (if Good(flux, time, qual, n - 1) then [(time[n - 1].v, flux[n - 1].v)] else [])
  }

  /** The pairs kept are exactly those of the good rows. */
  lemma {:induction false} KeptPairsExact(flux: seq<Sample>, time: seq<Sample>, qual: seq<int>, n: nat)
    requires n <= |time| <= |qual|
    ensures forall p :: p in KeptPairs(flux, time, qual, n) <==>
      exists i :: 0 <= i < n && Good(flux, time, qual, i) && p == (time[i].v, flux[i].v)
  {
    if n > 0 {
      KeptPairsExact(flux, time, qual, n - 1);
    }
  }

  /** The sort key: the time of a pair. */
  function PairTime(p: (real, real)): real { p.0 }

  /** The pairs `unzip` takes apart. */
  function Zip(t: seq<real>, f: seq<real>): (r: seq<(real, real)>)
    requires |t| == |f|
    ensures |r| == |t|
    ensures forall i :: 0 <= i < |t| ==> r[i].0 == t[i] && r[i].1 == f[i]
  {
    seq(|t|, i requires 0 <= i < |t| => (t[i], f[i]))
  }

  /** The indices `0..time.len()` that pass the filter. */
  method GoodIndices(flux: seq<Sample>, time: seq<Sample>, qual: seq<int>) returns (good: seq<nat>)
    requires ReadsInRange(flux, time, qual)
    ensures |good| == |KeptPairs(flux, time, qual, |time|)|
    ensures forall j :: 0 <= j < |good| ==>
      && good[j] < |time| && Good(flux, time, qual, good[j])
      && KeptPairs(flux, time, qual, |time|)[j] == (time[good[j]].v, flux[good[j]].v)
  {
    good := [];
    for i := 0 to |time|
      invariant |good| == |KeptPairs(flux, time, qual, i)|
      invariant forall j :: 0 <= j < |good| ==>
        && good[j] < i && Good(flux, time, qual, good[j])
        && KeptPairs(flux, time, qual, i)[j] == (time[good[j]].v, flux[good[j]].v)
    {
      if qual[i] == 0 && time[i].Val? && flux[i].Val? {
        good := good + [i];
      }
    }
  }

  /** `filter_and_sort_tess_data`. The time column is sorted, the output is
      the kept pairs reordered with every pair intact, rows with equal times
      keep their input order, and both columns have the same length. */
  method FilterAndSort(flux: seq<Sample>, time: seq<Sample>, qual: seq<int>) returns (t: seq<real>, f: seq<real>)
    requires ReadsInRange(flux, time, qual)
    ensures |t| == |f|
    ensures Zip(t, f) == InsertionSort(KeptPairs(flux, time, qual, |time|), PairTime)
    ensures forall i, j :: 0 <= i < j < |t| ==> t[i] <= t[j]
    ensures multiset(Zip(t, f)) == multiset(KeptPairs(flux, time, qual, |time|))
    ensures forall k :: WithKey(Zip(t, f), PairTime, k) == WithKey(KeptPairs(flux, time, qual, |time|), PairTime, k)
  {
    ghost var kept := KeptPairs(flux, time, qual, |time|);
    var good := GoodIndices(flux, time, qual);
    var paired := new (real, real)[|good|](j requires 0 <= j < |good| =>
      if good[j] < |time| && good[j] < |flux| && time[good[j]].Val? && flux[good[j]].Val? then (time[good[j]].v, flux[good[j]].v) else (0.0, 0.0));
    assert paired[..] == kept;
    SortInPlace(paired, PairTime);
    t, f := Unzip(paired);
    InsertionSortSorted(kept, PairTime);
    InsertionSortPermutes(kept, PairTime);
    forall k {
      InsertionSortStable(kept, PairTime, k);
    }
  }

  /** `unzip`: the first and second components of each pair. */
  method Unzip(paired: array<(real, real)>) returns (t: seq<real>, f: seq<real>)
    ensures |t| == |f| && Zip(t, f) == paired[..]
  {
    t, f := [], [];
    for i := 0 to paired.Length
      invariant |t| == |f| == i
      invariant Zip(t, f) == paired[..i]
    {
      t, f := t + [paired[i].0], f + [paired[i].1];
    }
  }
}
