// Column alignment `ajuster_longueurs` (fourth.py:37-39): pad every list on
// the right with '' up to the length of the longest.

module Aligner {
  import opened Cells

  /** `max(len(liste) for liste in listes)`; Python raises on no lists at all,
      and the converter always passes four. */
  function MaxLength(lists: seq<seq<Cell>>): (m: nat)
    requires |lists| > 0
    ensures forall i :: 0 <= i < |lists| ==> |lists[i]| <= m
    ensures exists i :: 0 <= i < |lists| && |lists[i]| == m
    decreases |lists|
  {
    if |lists| == 1 then |lists[0]|
    else
      var rest := MaxLength(lists[1..]);
      assert forall i :: 1 <= i < |lists| ==> lists[i] == lists[1..][i - 1];
      if |lists[0]| < rest then rest else |lists[0]|
  }

  /** `[''] * n`. */
  function Padding(n: nat): seq<Cell>
  {
    seq(n, _ => Blank)
  }

  /** `ajuster_longueurs(*listes)`: as many lists as given, each as long as the
      longest input, each starting with its input unchanged (nothing is ever
      cut off) and continuing with '' only. */
  function Align(lists: seq<seq<Cell>>): (aligned: seq<seq<Cell>>)
    requires |lists| > 0
    ensures |aligned| == |lists|
    ensures forall i :: 0 <= i < |lists| ==>
              |aligned[i]| == MaxLength(lists) && aligned[i][..|lists[i]|] == lists[i]
    ensures forall i, k :: 0 <= i < |lists| && |lists[i]| <= k < MaxLength(lists) ==> aligned[i][k] == Blank
  {
    var m := MaxLength(lists);
    seq(|lists|, i requires 0 <= i < |lists| => lists[i] + Padding(m - |lists[i]|))
  }

  /** Lists that are already aligned are left as they are. */
  lemma AlignEqualLengths(lists: seq<seq<Cell>>)
    requires |lists| > 0
    requires forall i :: 0 <= i < |lists| ==> |lists[i]| == |lists[0]|
    ensures Align(lists) == lists
  {
    var aligned := Align(lists);
    forall i | 0 <= i < |lists| ensures aligned[i] == lists[i] {
      assert aligned[i] == aligned[i][..|lists[i]|];
    }
  }

  /** Aligning twice is aligning once. */
  lemma AlignIdempotent(lists: seq<seq<Cell>>)
    requires |lists| > 0
    ensures Align(Align(lists)) == Align(lists)
  {
    AlignEqualLengths(Align(lists));
  }

  /** The example of four lists of lengths 2, 1, 0 and 3. */
  lemma AlignExample(a: Cell, b: Cell, x: Cell, p: Cell, q: Cell, r: Cell)
    ensures Align([[a, b], [x], [], [p, q, r]])
              == [[a, b, Blank], [x, Blank, Blank], [Blank, Blank, Blank], [p, q, r]]
  {
    var lists := [[a, b], [x], [], [p, q, r]];
    assert forall i :: 0 <= i < 4 ==> |lists[i]| <= 3;
    assert |lists[3]| == 3;
    assert MaxLength(lists) == 3;
    var aligned := Align(lists);
    assert aligned[0] == [a, b, Blank] by {
      assert aligned[0][..2] == [a, b];
    }
    assert aligned[1] == [x, Blank, Blank] by {
      assert aligned[1][..1] == [x];
    }
    assert aligned[2] == [Blank, Blank, Blank];
    assert aligned[3] == [p, q, r] by {
      assert aligned[3][..3] == [p, q, r];
    }
  }
}
