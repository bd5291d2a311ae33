/** Option and Result, used for the source's `Option<f64>` returns and for
    its `expect`/`assert!` failures. */
module Wrappers {
  datatype Option<T> = None | Some(value: T)

  datatype Result<T, E> = Success(value: T) | Failure(error: E)
}

/** One `f64` reading. `Masked` is NaN, the sentinel the cleaning step writes
    for every non-finite value: it fails `is_finite` and every comparison.
    Where the code only tests `is_finite` it also stands for the infinities,
    which that test treats alike; infinities that reach a comparison are not
    modelled. Floating-point rounding is not modelled: a finite value is a
    `real`. */
module Samples {

  datatype Sample = Val(v: real) | Masked

  /** IEEE addition: a non-finite operand makes the result non-finite. */
  function Add(a: Sample, b: Sample): (r: Sample)
    ensures r.Val? <==> a.Val? && b.Val?
  {
    if a.Val? && b.Val? then Val(a.v + b.v) else Masked
  }

  function Sub(a: Sample, b: Sample): (r: Sample)
    ensures r.Val? <==> a.Val? && b.Val?
  {
    if a.Val? && b.Val? then Val(a.v - b.v) else Masked
  }

  /** Division by a non-zero count or width. */
  function Div(a: Sample, d: real): (r: Sample)
    requires d != 0.0
    ensures r.Val? <==> a.Val?
  {
    if a.Val? then Val(a.v / d) else Masked
  }

  /** IEEE `<`: any comparison with NaN is false. */
  predicate Less(a: Sample, b: Sample)
  {
    a.Val? && b.Val? && a.v < b.v
  }

  /** The finite values of `s`, in order: `iter().filter(is_finite)`. */
  function Finite(s: seq<Sample>): (r: seq<real>)
    ensures |r| <= |s|
  {
    if s == [] then []
    else Finite(s[..|s| - 1]) + (if s[|s| - 1].Val? then [s[|s| - 1].v] else [])
  }

  /** Every value is finite. */
  function Lift(xs: seq<real>): (r: seq<Sample>)
    ensures |r| == |xs|
    ensures forall i :: 0 <= i < |xs| ==> r[i] == Val(xs[i])
  {
    seq(|xs|, i requires 0 <= i < |xs| => Val(xs[i]))
  }

  lemma {:induction false} FiniteAppend(a: seq<Sample>, b: seq<Sample>)
    ensures Finite(a + b) == Finite(a) + Finite(b)
    decreases |b|
  {
    if b == [] {
      assert a + b == a;
    } else {
      var b' := b[..|b| - 1];
      assert (a + b)[..|a + b| - 1] == a + b';
      FiniteAppend(a, b');
    }
  }

  /** Each finite value of `Finite(s)` comes from an entry of `s`, and each
      finite entry of `s` is kept. */
  lemma {:induction false} FiniteMembers(s: seq<Sample>)
    ensures forall x :: x in Finite(s) <==> Val(x) in s
    decreases |s|
  {
    if s != [] {
      var s' := s[..|s| - 1];
      FiniteMembers(s');
      assert s == s' + [s[|s| - 1]];
    }
  }

  /** The filter keeps exactly the finite values with their multiplicities. */
  lemma {:induction false} FiniteMultiset(s: seq<Sample>, x: real)
    ensures multiset(Finite(s))[x] == multiset(s)[Val(x)]
    decreases |s|
  {
    if s != [] {
      var s' := s[..|s| - 1];
      FiniteMultiset(s', x);
      assert s == s' + [s[|s| - 1]];
    }
  }

  /** Reordering the input reorders, but does not change, its finite values. */
  lemma FinitePermutation(a: seq<Sample>, b: seq<Sample>)
    requires multiset(a) == multiset(b)
    ensures multiset(Finite(a)) == multiset(Finite(b))
  {
    forall x: real
      ensures multiset(Finite(a))[x] == multiset(Finite(b))[x]
    {
      FiniteMultiset(a, x);
      FiniteMultiset(b, x);
    }
  }

  lemma {:induction false} FiniteOfLift(xs: seq<real>)
    ensures Finite(Lift(xs)) == xs
    decreases |xs|
  {
    if xs != [] {
      var xs' := xs[..|xs| - 1];
      assert Lift(xs)[..|xs| - 1] == Lift(xs');
      FiniteOfLift(xs');
    }
  }

  /** No entry is finite exactly when the filter leaves nothing. */
  lemma FiniteEmpty(s: seq<Sample>)
    ensures Finite(s) == [] <==> forall i :: 0 <= i < |s| ==> s[i] == Masked
  {
    FiniteMembers(s);
    if Finite(s) != [] {
      assert Finite(s)[0] in Finite(s);
    }
  }
}
