/** Facts about filtering logs: every table of the services that only grows is a sequence, and
    "the rows of one aggregate" is a filter of it. */
module Seqs {

  ghost predicate Distinct<T(!new)>(xs: seq<T>) {
    forall i, j :: 0 <= i < j < |xs| ==> xs[i] != xs[j]
  }

  /** The elements satisfying `keep`, in order. Defined from the end, since logs grow there. */
  function Filter<T>(xs: seq<T>, keep: T -> bool): (ys: seq<T>)
    ensures |ys| <= |xs|
    ensures forall y :: y in ys ==> y in xs && keep(y)
  {
    if xs == [] then []
    else
      var rest := Filter(xs[..|xs| - 1], keep);
      if keep(xs[|xs| - 1]) then rest + [xs[|xs| - 1]] else rest
  }

  lemma FilterAppend<T>(xs: seq<T>, x: T, keep: T -> bool)
    ensures Filter(xs + [x], keep) == Filter(xs, keep) + (if keep(x) then [x] else [])
  {
    assert (xs + [x])[..|xs|] == xs;
  }

  lemma {:induction false} FilterKeeps<T>(xs: seq<T>, x: T, keep: T -> bool)
    requires x in xs && keep(x)
    ensures x in Filter(xs, keep)
  {
    var last := |xs| - 1;
    if xs[last] != x {
      assert xs == xs[..last] + [xs[last]];
      FilterKeeps(xs[..last], x, keep);
    }
  }

  /** Filtering keeps order: of two elements kept, the earlier comes first. */
  lemma {:induction false} FilterKeepsOrder<T>(xs: seq<T>, i: nat, j: nat, keep: T -> bool) returns (a: nat, b: nat)
    requires i < j < |xs| && keep(xs[i]) && keep(xs[j])
    ensures a < b < |Filter(xs, keep)| && Filter(xs, keep)[a] == xs[i] && Filter(xs, keep)[b] == xs[j]
  {
    var last := |xs| - 1;
    if j < last {
      a, b := FilterKeepsOrder(xs[..last], i, j, keep);
    } else {
      FilterKeeps(xs[..last], xs[..last][i], keep);
      a :| a < |Filter(xs[..last], keep)| && Filter(xs[..last], keep)[a] == xs[i];
      b := |Filter(xs[..last], keep)|;
    }
  }

  function Map<T, U>(xs: seq<T>, f: T -> U): (ys: seq<U>)
    ensures |ys| == |xs|
    ensures forall i :: 0 <= i < |xs| ==> ys[i] == f(xs[i])
  {
    seq(|xs|, i requires 0 <= i < |xs| => f(xs[i]))
  }

  lemma MapAppend<T, U>(xs: seq<T>, x: T, f: T -> U)
    ensures Map(xs + [x], f) == Map(xs, f) + [f(x)]
  {
  }
}
