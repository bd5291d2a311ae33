/** The stable `sort_by(|a, b| key(a).partial_cmp(&key(b)).unwrap())` that the
    source runs on its `Vec`s, keyed by a real (NaN keys have been filtered out
    before every such sort, so `unwrap` never panics). The specification is a
    functional stable insertion sort; `SortInPlace` is proved equal to it. */
module Sorting {

  ghost predicate SortedBy<T>(s: seq<T>, key: T -> real)
  {
    forall i, j :: 0 <= i < j < |s| ==> key(s[i]) <= key(s[j])
  }

  /** Inserts `x` after every element whose key is at most `key(x)`. */
  ghost function Insert<T>(s: seq<T>, x: T, key: T -> real): (r: seq<T>)
    ensures |r| == |s| + 1
    decreases |s|
  {
    if s == [] || key(s[|s| - 1]) <= key(x) then s + [x]
    else Insert(s[..|s| - 1], x, key) + [s[|s| - 1]]
  }

  lemma {:induction false} InsertPermutes<T>(s: seq<T>, x: T, key: T -> real)
    ensures multiset(Insert(s, x, key)) == multiset(s) + multiset{x}
    decreases |s|
  {
    if !(s == [] || key(s[|s| - 1]) <= key(x)) {
      InsertPermutes(s[..|s| - 1], x, key);
      assert s == s[..|s| - 1] + [s[|s| - 1]];
    }
  }

  lemma {:induction false} InsertSorted<T>(s: seq<T>, x: T, key: T -> real)
    requires SortedBy(s, key)
    ensures SortedBy(Insert(s, x, key), key)
    decreases |s|
  {
    if !(s == [] || key(s[|s| - 1]) <= key(x)) {
      var s', last := s[..|s| - 1], s[|s| - 1];
      var r' := Insert(s', x, key);
      InsertSorted(s', x, key);
      InsertPermutes(s', x, key);
      forall y | y in multiset(r') ensures key(y) <= key(last) {
        if y != x {
          assert y in multiset(s');
          assert y in s';
        }
      }
      forall i | 0 <= i < |r'| ensures key(r'[i]) <= key(last) {
        assert r'[i] in multiset(r');
      }
    }
  }

  ghost function InsertionSort<T>(s: seq<T>, key: T -> real): (r: seq<T>)
    ensures |r| == |s|
    decreases |s|
  {
    if s == [] then []
    else Insert(InsertionSort(s[..|s| - 1], key), s[|s| - 1], key)
  }

  /** The sort's output is ordered by key. */
  lemma {:induction false} InsertionSortSorted<T>(s: seq<T>, key: T -> real)
    ensures SortedBy(InsertionSort(s, key), key)
    decreases |s|
  {
    if s != [] {
      InsertionSortSorted(s[..|s| - 1], key);
      InsertSorted(InsertionSort(s[..|s| - 1], key), s[|s| - 1], key);
    }
  }

  /** The sort's output is a permutation of its input. */
  lemma {:induction false} InsertionSortPermutes<T>(s: seq<T>, key: T -> real)
    ensures multiset(InsertionSort(s, key)) == multiset(s)
    decreases |s|
  {
    if s != [] {
      InsertionSortPermutes(s[..|s| - 1], key);
      InsertPermutes(InsertionSort(s[..|s| - 1], key), s[|s| - 1], key);
      assert s == s[..|s| - 1] + [s[|s| - 1]];
    }
  }

  /** The elements of `s` whose key is `k`, in their order in `s`. */
  ghost function WithKey<T>(s: seq<T>, key: T -> real, k: real): seq<T>
  {
    if s == [] then []
    else WithKey(s[..|s| - 1], key, k) + (if key(s[|s| - 1]) == k then [s[|s| - 1]] else [])
  }

  lemma {:induction false} WithKeyAppend<T>(a: seq<T>, b: seq<T>, key: T -> real, k: real)
    ensures WithKey(a + b, key, k) == WithKey(a, key, k) + WithKey(b, key, k)
    decreases |b|
  {
    if b == [] {
      assert a + b == a;
    } else {
      assert (a + b)[..|a + b| - 1] == a + b[..|b| - 1];
      WithKeyAppend(a, b[..|b| - 1], key, k);
    }
  }

  lemma {:induction false} InsertStable<T>(s: seq<T>, x: T, key: T -> real, k: real)
    ensures WithKey(Insert(s, x, key), key, k) == WithKey(s, key, k) + WithKey([x], key, k)
    decreases |s|
  {
    if s == [] || key(s[|s| - 1]) <= key(x) {
      WithKeyAppend(s, [x], key, k);
    } else {
      var s', last := s[..|s| - 1], s[|s| - 1];
      InsertStable(s', x, key, k);
      WithKeyAppend(Insert(s', x, key), [last], key, k);
      WithKeyAppend(s', [last], key, k);
      assert s == s' + [last];
    }
  }

  /** Stability: for every key, the elements carrying it keep their input order. */
  lemma {:induction false} InsertionSortStable<T>(s: seq<T>, key: T -> real, k: real)
    ensures WithKey(InsertionSort(s, key), key, k) == WithKey(s, key, k)
    decreases |s|
  {
    if s != [] {
      var s', last := s[..|s| - 1], s[|s| - 1];
      InsertionSortStable(s', key, k);
      InsertStable(InsertionSort(s', key), last, key, k);
      WithKeyAppend(s', [last], key, k);
      assert s == s' + [last];
    }
  }

  /** Where the inner loop of `SortInPlace` stops is where `Insert` puts `x`. */
  lemma {:induction false} InsertAt<T>(s: seq<T>, x: T, key: T -> real, j: nat)
    requires j <= |s|
    requires forall m :: j <= m < |s| ==> key(s[m]) > key(x)
    requires j == 0 || key(s[j - 1]) <= key(x)
    ensures Insert(s, x, key) == s[..j] + [x] + s[j..]
    decreases |s| - j
  {
    if j < |s| {
      var s', last := s[..|s| - 1], s[|s| - 1];
      assert key(last) > key(x);
      assert Insert(s, x, key) == Insert(s', x, key) + [last];
      InsertAt(s', x, key, j);
      assert s'[..j] == s[..j];
      assert s[j..] == s'[j..] + [last];
    } else {
      assert s[..j] == s;
    }
  }

  function Identity(x: real): real { x }

  lemma LastIsLargest(a: seq<real>, v: real)
    requires SortedBy(a, Identity) && v in a
    ensures v <= a[|a| - 1]
  {
  }

  lemma DropLast(a: seq<real>)
    requires a != []
    ensures multiset(a[..|a| - 1]) == multiset(a) - multiset{a[|a| - 1]}
    ensures SortedBy(a, Identity) ==> SortedBy(a[..|a| - 1], Identity)
    ensures a == a[..|a| - 1] + [a[|a| - 1]]
  {
    assert a == a[..|a| - 1] + [a[|a| - 1]];
  }

  /** A sorted sequence of reals is determined by its multiset. */
  lemma {:induction false} SortedUnique(a: seq<real>, b: seq<real>)
    requires SortedBy(a, Identity) && SortedBy(b, Identity)
    requires multiset(a) == multiset(b)
    ensures a == b
    decreases |a|
  {
    assert |a| == |b| by {
      assert |a| == |multiset(a)| && |b| == |multiset(b)|;
    }
    if |a| > 0 {
      var n := |a|;
      var x := a[n - 1];
      assert x == b[n - 1] by {
        assert x in multiset(b) && b[n - 1] in multiset(a);
        LastIsLargest(b, x);
        LastIsLargest(a, b[n - 1]);
      }
      DropLast(a);
      DropLast(b);
      SortedUnique(a[..n - 1], b[..n - 1]);
    }
  }

  /** Sorting a permutation gives the same sorted sequence. */
  lemma SortPermutationInvariant(a: seq<real>, b: seq<real>)
    requires multiset(a) == multiset(b)
    ensures InsertionSort(a, Identity) == InsertionSort(b, Identity)
  {
    InsertionSortSorted(a, Identity);
    InsertionSortSorted(b, Identity);
    InsertionSortPermutes(a, Identity);
    InsertionSortPermutes(b, Identity);
    SortedUnique(InsertionSort(a, Identity), InsertionSort(b, Identity));
  }

  /** One step of the in-place sort: moves `a[i]` left past the larger keys of
      the sorted prefix `a[..i]`. */
  method InsertLast<T>(a: array<T>, i: nat, key: T -> real)
    requires i < a.Length
    modifies a
    ensures a[..i + 1] == Insert(old(a[..i]), old(a[i]), key)
    ensures a[i + 1..] == old(a[i + 1..])
  {
    ghost var pre := a[..i];
    ghost var rest := a[i + 1..];
    var x := a[i];
    var j := i;
    while j > 0 && key(a[j - 1]) > key(x)
      invariant 0 <= j <= i
      invariant forall m :: 0 <= m < j ==> a[m] == pre[m]
      invariant a[j] == x
      invariant forall m :: j < m <= i ==> a[m] == pre[m - 1]
      invariant forall m :: j <= m < i ==> key(pre[m]) > key(x)
      invariant a[i + 1..] == rest
    {
      a[j - 1], a[j] := a[j], a[j - 1];
      j := j - 1;
    }
    InsertAt(pre, x, key, j);
    assert a[..i + 1] == pre[..j] + [x] + pre[j..];
  }

  /** In-place stable sort by `key`: insertion with adjacent swaps. */
  method SortInPlace<T>(a: array<T>, key: T -> real)
    modifies a
    ensures a[..] == InsertionSort(old(a[..]), key)
  {
    ghost var input := a[..];
    var i := 0;
    while i < a.Length
      invariant 0 <= i <= a.Length
      invariant a[..i] == InsertionSort(input[..i], key)
      invariant a[i..] == input[i..]
    {
      ghost var sortedPrefix := a[..i];
      assert a[i] == input[i];
      InsertLast(a, i, key);
      assert input[..i + 1][..i] == input[..i];
      assert a[..i + 1] == Insert(sortedPrefix, input[i], key);
      i := i + 1;
    }
    assert input[..a.Length] == input;
  }
}
