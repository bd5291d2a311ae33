/** src/statistical_methods/statistics.rs: the robust statistics under the
    cleaning pipeline. Each primitive collects a vector of finite values and
    hands it to `median`, which sorts a filtered copy and takes its middle. */
module Statistics {
  import opened Wrappers
  import opened Samples
  import opened Sorting

  /** The middle value of a sorted, non-empty sequence, or the mean of its
      two middle values when its length is even. */
  function Middle(v: seq<real>): real
    requires |v| > 0
  {
    var mid := |v| / 2;
    if |v| % 2 == 0 then (v[mid - 1] + v[mid]) * 0.5 else v[mid]
  }

  /** The median of a sequence of finite values. */
  ghost function SortedMedian(xs: seq<real>): Option<real>
  {
    if xs == [] then None else Some(Middle(InsertionSort(xs, Identity)))
  }

  /** What `median` computes: the median of the finite entries. */
  ghost function MedianOf(data: seq<Sample>): Option<real>
  {
    SortedMedian(Finite(data))
  }

  function Abs(x: real): real { if x < 0.0 then -x else x }

  /** `median`: `None` for an empty input or one with no finite entry,
      otherwise the middle of the sorted finite entries. */
  method Median(data: seq<Sample>) returns (r: Option<real>)
    ensures r == MedianOf(data)
    ensures r.None? <==> forall i :: 0 <= i < |data| ==> data[i] == Masked
  {
    MedianNone(data);
    if |data| == 0 {
      return None;
    }
    var v := Finite(data);
    if |v| == 0 {
      return None;
    }
    var a := new real[|v|](i requires 0 <= i < |v| => v[i]);
    assert a[..] == v;
    SortInPlace(a, Identity);
    r := Some(Middle(a[..]));
  }

  /** The middle of a sorted sequence lies between its first and last values. */
  lemma MiddleBounds(v: seq<real>)
    requires |v| > 0 && SortedBy(v, Identity)
    ensures v[0] <= Middle(v) <= v[|v| - 1]
  {
  }

  /** The median lies between the smallest and the largest value. */
  lemma SortedMedianBounds(xs: seq<real>)
    requires xs != []
    ensures exists i :: 0 <= i < |xs| && xs[i] <= SortedMedian(xs).value
    ensures exists i :: 0 <= i < |xs| && SortedMedian(xs).value <= xs[i]
  {
    var s := InsertionSort(xs, Identity);
    InsertionSortSorted(xs, Identity);
    InsertionSortPermutes(xs, Identity);
    MiddleBounds(s);
    assert s[0] in multiset(xs) && s[|s| - 1] in multiset(xs);
    var i :| 0 <= i < |xs| && xs[i] == s[0];
    var j :| 0 <= j < |xs| && xs[j] == s[|s| - 1];
  }

  /** `median` is `None` exactly when no entry is finite (the empty input
      included). */
  lemma MedianNone(data: seq<Sample>)
    ensures MedianOf(data).None? <==> forall i :: 0 <= i < |data| ==> data[i] == Masked
  {
    FiniteEmpty(data);
  }

  /** When defined, the median lies between the smallest and the largest
      finite input value. */
  lemma MedianWithinRange(data: seq<Sample>)
    requires MedianOf(data).Some?
    ensures exists i :: 0 <= i < |data| && data[i].Val? && data[i].v <= MedianOf(data).value
    ensures exists i :: 0 <= i < |data| && data[i].Val? && MedianOf(data).value <= data[i].v
  {
    var fs := Finite(data);
    var m := MedianOf(data).value;
    SortedMedianBounds(fs);
    FiniteMembers(data);
    var i :| 0 <= i < |fs| && fs[i] <= m;
    var j :| 0 <= j < |fs| && m <= fs[j];
    assert fs[i] in fs && fs[j] in fs;
    var i' :| 0 <= i' < |data| && data[i'] == Val(fs[i]);
    var j' :| 0 <= j' < |data| && data[j'] == Val(fs[j]);
  }

  /** `median` depends only on the multiset of its input: the order of the
      samples does not matter. */
  lemma MedianPermutationInvariant(a: seq<Sample>, b: seq<Sample>)
    requires multiset(a) == multiset(b)
    ensures MedianOf(a) == MedianOf(b)
  {
    FinitePermutation(a, b);
    SortPermutationInvariant(Finite(a), Finite(b));
    assert |Finite(a)| == |multiset(Finite(a))| == |multiset(Finite(b))| == |Finite(b)|;
  }

  /** A masked entry anywhere in the input does not change the median. */
  lemma MedianIgnoresMasked(a: seq<Sample>, b: seq<Sample>)
    ensures MedianOf(a + [Masked] + b) == MedianOf(a + b)
  {
    FiniteAppend(a + [Masked], b);
    FiniteAppend(a, [Masked]);
    FiniteAppend(a, b);
    assert [Masked][..0] == [];
    assert Finite([Masked]) == [];
    assert Finite(a + [Masked] + b) == Finite(a + b);
  }

  /** The median of equal values is that value. */
  lemma SortedMedianOfConstant(xs: seq<real>, c: real)
    requires xs != []
    requires forall i :: 0 <= i < |xs| ==> xs[i] == c
    ensures SortedMedian(xs) == Some(c)
  {
    var s := InsertionSort(xs, Identity);
    InsertionSortPermutes(xs, Identity);
    forall i | 0 <= i < |s| ensures s[i] == c {
      assert s[i] in multiset(xs);
    }
  }

  /** The successive differences `t[i] - t[i-1]` that are finite and
      strictly positive, in order (`windows(2).map(..).filter(..)`). */
  function PositiveSteps(times: seq<Sample>): (r: seq<real>)
    ensures forall x :: x in r ==> x > 0.0
  {
    if |times| < 2 then []
    else
      var d := Sub(times[|times| - 1], times[|times| - 2]);
      PositiveSteps(times[..|times| - 1]) + (if d.Val? && d.v > 0.0 then [d.v] else [])
  }

  /** A difference is kept exactly when it is finite and positive. */
  lemma {:induction false} PositiveStepsMembers(times: seq<Sample>)
    ensures PositiveSteps(times) == [] <==>
      forall i :: 1 <= i < |times| ==> !(Sub(times[i], times[i - 1]).Val? && Sub(times[i], times[i - 1]).v > 0.0)
    decreases |times|
  {
    if |times| >= 2 {
      var t' := times[..|times| - 1];
      PositiveStepsMembers(t');
      assert forall i :: 0 <= i < |t'| ==> t'[i] == times[i];
    }
  }

  /** What `median_cadence` computes. */
  ghost function CadenceOf(times: seq<Sample>): Option<real>
  {
    if |times| < 2 then None else SortedMedian(PositiveSteps(times))
  }

  /** `median_cadence` is `None` exactly for fewer than two samples or when no
      step is finite and positive. */
  lemma CadenceNone(times: seq<Sample>)
    ensures CadenceOf(times).None? <==> (|times| < 2 ||
      forall i :: 1 <= i < |times| ==> !(Sub(times[i], times[i - 1]).Val? && Sub(times[i], times[i - 1]).v > 0.0))
  {
    PositiveStepsMembers(times);
  }

  /** `median_cadence`: the median of the positive finite time steps, which
      is itself positive. */
  method MedianCadence(times: seq<Sample>) returns (r: Option<real>)
    ensures r == CadenceOf(times)
    ensures r.Some? ==> r.value > 0.0
  {
    if |times| < 2 {
      return None;
    }
    var dts := PositiveSteps(times);
    if |dts| == 0 {
      return None;
    }
    FiniteOfLift(dts);
    r := Median(Lift(dts));
    assert r == SortedMedian(dts);
    SortedMedianBounds(dts);
    var i :| 0 <= i < |dts| && dts[i] <= r.value;
    assert dts[i] in dts;
  }

  /** `|f - med|` for every finite `f`, in order. */
  function Deviations(arr: seq<Sample>, med: real): (r: seq<real>)
    ensures |r| == |Finite(arr)|
    ensures forall x :: x in r ==> x >= 0.0
  {
    var fs := Finite(arr);
    seq(|fs|, i requires 0 <= i < |fs| => Abs(fs[i] - med))
  }

  /** What `median_absolute_deviation` computes. */
  ghost function MadOf(arr: seq<Sample>): Option<real>
  {
    if arr == [] then None
    else match MedianOf(arr)
      case None => None
      case Some(med) =>
        var d := Deviations(arr, med);
        if d == [] then None else SortedMedian(d)
  }

  /** `median_absolute_deviation`: the median of the distances of the finite
      entries from their median. `None` exactly when no entry is finite; never
      negative. */
  method MedianAbsoluteDeviation(arr: seq<Sample>) returns (r: Option<real>)
    ensures r == MadOf(arr)
    ensures r.None? <==> forall i :: 0 <= i < |arr| ==> arr[i] == Masked
    ensures r.Some? ==> r.value >= 0.0
  {
    MedianNone(arr);
    if |arr| == 0 {
      return None;
    }
    var m := Median(arr);
    if m.None? {
      return None;
    }
    var deviations := Deviations(arr, m.value);
    if |deviations| == 0 {
      return None;
    }
    FiniteOfLift(deviations);
    r := Median(Lift(deviations));
    assert r == SortedMedian(deviations);
    SortedMedianBounds(deviations);
    var i :| 0 <= i < |deviations| && r.value >= deviations[i];
    assert deviations[i] in deviations;
  }

  /** When every finite entry has the same value the deviation is zero. */
  lemma MadOfConstant(arr: seq<Sample>, c: real)
    requires exists i :: 0 <= i < |arr| && arr[i].Val?
    requires forall i :: 0 <= i < |arr| && arr[i].Val? ==> arr[i].v == c
    ensures MadOf(arr) == Some(0.0)
  {
    var fs := Finite(arr);
    FiniteMembers(arr);
    var k :| 0 <= k < |arr| && arr[k].Val?;
    assert arr[k].v in fs;
    forall i | 0 <= i < |fs| ensures fs[i] == c {
      assert fs[i] in fs;
    }
    SortedMedianOfConstant(fs, c);
    SortedMedianOfConstant(Deviations(arr, c), 0.0);
  }
}
