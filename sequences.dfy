// Order-preserving filtering of a sequence. The converter filters twice:
// `dropna()` keeps the non-missing cells of a column (fourth.py:34) and the
// comprehension at fourth.py:78 keeps the extracted values that are IPv4
// addresses.

module Sequences {

  /** The elements of `xs` that satisfy `keep`, in their original order. */
  function Filter<T>(keep: T -> bool, xs: seq<T>): (r: seq<T>)
    ensures |r| <= |xs|
    ensures forall i :: 0 <= i < |r| ==> keep(r[i])
    decreases |xs|
  {
    if |xs| == 0 then []
    else Filter(keep, xs[..|xs| - 1]) + (if keep(xs[|xs| - 1]) then [xs[|xs| - 1]] else [])
  }

  /** The positions in `xs` of the elements that satisfy `keep`, ascending. */
  function KeptPositions<T>(keep: T -> bool, xs: seq<T>): (idx: seq<nat>)
    ensures forall i :: 0 <= i < |idx| ==> idx[i] < |xs| && keep(xs[idx[i]])
    ensures forall i, j :: 0 <= i < j < |idx| ==> idx[i] < idx[j]
    ensures forall k :: 0 <= k < |xs| && keep(xs[k]) ==> k in idx
    decreases |xs|
  {
    if |xs| == 0 then []
    else KeptPositions(keep, xs[..|xs| - 1]) + (if keep(xs[|xs| - 1]) then [|xs| - 1] else [])
  }

  /** `Filter` picks exactly the elements at `KeptPositions`: the result is
      the subsequence of `xs` made of every element that satisfies `keep`
      and of nothing else, in order. */
  lemma {:induction false} FilterIsSelection<T>(keep: T -> bool, xs: seq<T>)
    ensures |Filter(keep, xs)| == |KeptPositions(keep, xs)|
    ensures forall i :: 0 <= i < |Filter(keep, xs)| ==>
              Filter(keep, xs)[i] == xs[KeptPositions(keep, xs)[i]]
    decreases |xs|
  {
    if |xs| > 0 {
      var init := xs[..|xs| - 1];
      FilterIsSelection(keep, init);
      assert forall k :: 0 <= k < |init| ==> init[k] == xs[k];
    }
  }

  /** Filtering distributes over concatenation. */
  lemma {:induction false} FilterAppend<T>(keep: T -> bool, xs: seq<T>, ys: seq<T>)
    ensures Filter(keep, xs + ys) == Filter(keep, xs) + Filter(keep, ys)
    decreases |ys|
  {
    if |ys| == 0 {
      assert xs + ys == xs;
    } else {
      var init := ys[..|ys| - 1];
      FilterAppend(keep, xs, init);
      assert (xs + ys)[..|xs + ys| - 1] == xs + init;
    }
  }

  /** A sequence whose elements all satisfy `keep` is left as it is. */
  lemma {:induction false} FilterKeepsAll<T>(keep: T -> bool, xs: seq<T>)
    requires forall i :: 0 <= i < |xs| ==> keep(xs[i])
    ensures Filter(keep, xs) == xs
    decreases |xs|
  {
    if |xs| > 0 {
      FilterKeepsAll(keep, xs[..|xs| - 1]);
    }
  }

  /** Filtering twice with the same test is filtering once. */
  lemma FilterIdempotent<T>(keep: T -> bool, xs: seq<T>)
    ensures Filter(keep, Filter(keep, xs)) == Filter(keep, xs)
  {
    FilterKeepsAll(keep, Filter(keep, xs));
  }
}
