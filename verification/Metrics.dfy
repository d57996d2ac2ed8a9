/** Samples from the metrics server and their sums. */
module Metrics {
  datatype Sample = Sample(pod: string, value: real)

  function Sum(values: seq<real>): real {
    if values == [] then 0.0 else values[0] + Sum(values[1..])
  }

  function Values(samples: seq<Sample>): seq<real> {
    seq(|samples|, i requires 0 <= i < |samples| => samples[i].value)
  }

  lemma {:induction false} SumAppend(a: seq<real>, b: seq<real>)
    ensures Sum(a + b) == Sum(a) + Sum(b)
  {
    if a == [] {
      assert a + b == b;
    } else {
      assert (a + b)[1..] == a[1..] + b;
      SumAppend(a[1..], b);
    }
  }

  lemma SumWithout(before: seq<real>, x: real, after: seq<real>)
    ensures Sum(before + [x] + after) == x + Sum(before + after)
  {
    SumAppend(before + [x], after);
    SumAppend(before, [x]);
    SumAppend(before, after);
    assert Sum([x]) == x;
  }

  lemma SameRest<T>(x: T, rest: seq<T>, before: seq<T>, after: seq<T>)
    requires multiset([x] + rest) == multiset(before + [x] + after)
    ensures multiset(rest) == multiset(before + after)
  {
    var left, right := multiset(rest), multiset(before + after);
    assert multiset([x] + rest) == multiset{x} + left;
    assert multiset(before + [x] + after) == multiset{x} + right;
    forall y ensures left[y] == right[y] {
      assert (multiset{x} + left)[y] == (multiset{x} + right)[y];
    }
  }

  lemma Found<T>(x: T, rest: seq<T>, b: seq<T>) returns (i: nat)
    requires multiset([x] + rest) == multiset(b)
    ensures i < |b| && b == b[..i] + [x] + b[i + 1..]
  {
    assert x in multiset([x] + rest);
    assert x in b;
    i :| i < |b| && b[i] == x;
  }

  /** The order of the samples does not matter. */
  lemma {:induction false} SumPermutation(a: seq<real>, b: seq<real>)
    requires multiset(a) == multiset(b)
    ensures Sum(a) == Sum(b)
    decreases |a|
  {
    if a == [] {
      assert |multiset(b)| == |b|;
    } else {
      assert a == [a[0]] + a[1..];
      var i := Found(a[0], a[1..], b);
      SumWithout(b[..i], a[0], b[i + 1..]);
      SameRest(a[0], a[1..], b[..i], b[i + 1..]);
      SumPermutation(a[1..], b[..i] + b[i + 1..]);
    }
  }

  lemma {:induction false} SumNonNegative(values: seq<real>)
    requires forall i :: 0 <= i < |values| ==> values[i] >= 0.0
    ensures Sum(values) >= 0.0
  {
    if values != [] {
      SumNonNegative(values[1..]);
    }
  }

  /** Collapses per-pod samples into one figure for the namespace. */
  method SumValues(samples: seq<Sample>) returns (total: real)
    ensures total == Sum(Values(samples))
  {
    total := 0.0;
    for i := 0 to |samples|
      invariant total == Sum(Values(samples[..i]))
    {
      SumAppend(Values(samples[..i]), [samples[i].value]);
      assert Values(samples[..i + 1]) == Values(samples[..i]) + [samples[i].value];
      total := total + samples[i].value;
    }
    assert samples[..|samples|] == samples;
  }
}
