/**
 * Which of a view's sections moved: the pairs outside the longest run that kept
 * its order.
 */
module SectionMoves {
  import opened Sorting

  /** A section found in both states, by its index before and after. */
  datatype Pair = Pair(oldIndex: nat, newIndex: nat)

  function Max(a: nat, b: nat): nat {
    if a < b then b else a
  }

  // -- runs --------------------------------------------------------------

  /** Positions of a list, rising, with rising values above `last`, none before `from`. */
  predicate IsRun(values: seq<nat>, run: seq<nat>, from: nat, last: int) {
    && (forall j :: 0 <= j < |run| ==> from <= run[j] < |values| && last < values[run[j]])
    && (forall i, j :: 0 <= i < j < |run| ==> run[i] < run[j] && values[run[i]] < values[run[j]])
  }

  /** How long a run from `i` on, starting above `last`, can be. */
  function BestAbove(values: seq<nat>, i: nat, last: int): nat
    requires i <= |values|
    decreases |values| - i, 1
  {
    if i == |values| then 0
    else
      var rest := BestAbove(values, i + 1, last);
      if values[i] > last then Max(LongestFrom(values, i), rest) else rest
  }

  /** How long a run that starts at `i` can be. */
  function LongestFrom(values: seq<nat>, i: nat): (n: nat)
    requires i < |values|
    ensures n >= 1
    decreases |values| - i, 0
  {
    1 + BestAbove(values, i + 1, values[i])
  }

  /** No run beats it. */
  lemma {:induction false} RunBound(values: seq<nat>, run: seq<nat>, i: nat, last: int)
    requires i <= |values| && IsRun(values, run, i, last)
    ensures |run| <= BestAbove(values, i, last)
    decreases |values| - i
  {
    if run != [] {
      assert i <= run[0] < |values|;
      if run[0] == i {
        assert forall j :: 0 <= j < |run[1..]| ==> run[1..][j] == run[j + 1];
        RunBound(values, run[1..], i + 1, values[i]);
      } else {
        RunBound(values, run, i + 1, last);
      }
    }
  }

  /** The first position, from the front, at which a run of the length still needed can start; then on. */
  function Greedy(values: seq<nat>, i: nat, need: nat, last: int): seq<nat>
    requires i <= |values|
    decreases |values| - i
  {
    if i == |values| then []
    else if need > 0 && LongestFrom(values, i) == need && values[i] > last then
      [i] + Greedy(values, i + 1, need - 1, values[i])
    else Greedy(values, i + 1, need, last)
  }

  /** Compared element by element, the first difference decides. */
  predicate NotAfter(one: seq<nat>, other: seq<nat>)
    requires |one| == |other|
  {
    one == [] || one[0] < other[0] || (one[0] == other[0] && NotAfter(one[1..], other[1..]))
  }

  /** At the first place the two differ this one has the smaller entry. */
  ghost predicate Sooner(one: seq<nat>, other: seq<nat>)
    requires |one| == |other|
  {
    exists k :: 0 <= k < |one| && one[..k] == other[..k] && one[k] < other[k]
  }

  lemma {:induction false} NotAfterExactly(one: seq<nat>, other: seq<nat>)
    requires |one| == |other|
    ensures NotAfter(one, other) <==> one == other || Sooner(one, other)
  {
    if one != [] {
      NotAfterExactly(one[1..], other[1..]);
      if one[0] == other[0] {
        TailDecides(one, other);
      } else {
        forall k | 0 < k < |one| ensures one[..k] != other[..k] {
          assert one[..k][0] == one[0] && other[..k][0] == other[0];
        }
        assert one[..0] == other[..0];
      }
    }
  }

  lemma TailDecides(one: seq<nat>, other: seq<nat>)
    requires |one| == |other| && one != [] && one[0] == other[0]
    ensures one == other <==> one[1..] == other[1..]
    ensures Sooner(one, other) <==> Sooner(one[1..], other[1..])
  {
    assert one == [one[0]] + one[1..] && other == [other[0]] + other[1..];
    if k :| 0 <= k < |one| && one[..k] == other[..k] && one[k] < other[k] {
      assert one[1..][..k - 1] == one[..k][1..] && other[1..][..k - 1] == other[..k][1..];
    }
    if k :| 0 <= k < |one[1..]| && one[1..][..k] == other[1..][..k] && one[1..][k] < other[1..][k] {
      assert one[..k + 1] == [one[0]] + one[1..][..k] && other[..k + 1] == [other[0]] + other[1..][..k];
    }
  }

  lemma {:induction false} GreedyIsARun(values: seq<nat>, i: nat, need: nat, last: int)
    requires i <= |values| && need == BestAbove(values, i, last)
    ensures IsRun(values, Greedy(values, i, need, last), i, last)
    ensures |Greedy(values, i, need, last)| == need
    decreases |values| - i
  {
    if i < |values| {
      if need > 0 && LongestFrom(values, i) == need && values[i] > last {
        GreedyIsARun(values, i + 1, need - 1, values[i]);
      } else {
        GreedyIsARun(values, i + 1, need, last);
      }
    }
  }

  lemma {:induction false} GreedyIsFirst(values: seq<nat>, i: nat, need: nat, last: int, run: seq<nat>)
    requires i <= |values| && need == BestAbove(values, i, last)
    requires IsRun(values, run, i, last) && |run| == need
    ensures |Greedy(values, i, need, last)| == need && NotAfter(Greedy(values, i, need, last), run)
    decreases |values| - i
  {
    GreedyIsARun(values, i, need, last);
    if i < |values| && need > 0 {
      assert i <= run[0] < |values|;
      if run[0] == i {
        assert forall j :: 0 <= j < |run[1..]| ==> run[1..][j] == run[j + 1];
        assert IsRun(values, run[1..], i + 1, values[i]);
        RunBound(values, run[1..], i + 1, values[i]);
        GreedyIsFirst(values, i + 1, need - 1, values[i], run[1..]);
      } else if !(LongestFrom(values, i) == need && values[i] > last) {
        GreedyIsFirst(values, i + 1, need, last, run);
      }
    }
  }

  // -- `_moved` ----------------------------------------------------------

  /** The table of how long a run can be from each position, filled from the back. */
  method LongestTable(values: seq<nat>) returns (longest: array<nat>)
    ensures fresh(longest) && longest.Length == |values|
    ensures forall i :: 0 <= i < |values| ==> longest[i] == LongestFrom(values, i)
  {
    longest := new nat[|values|](_ => 1);
    for i := |values| downto 0
      invariant forall j :: 0 <= j < i ==> longest[j] == 1
      invariant forall j :: i <= j < |values| ==> longest[j] == LongestFrom(values, j)
    {
      for k := i + 1 to |values|
        invariant forall j :: 0 <= j < i ==> longest[j] == 1
        invariant forall j :: i < j < |values| ==> longest[j] == LongestFrom(values, j)
        invariant longest[i] >= 1
        invariant Max(longest[i], 1 + BestAbove(values, k, values[i])) == LongestFrom(values, i)
      {
        if values[k] > values[i] {
          longest[i] := Max(longest[i], longest[k] + 1);
        }
      }
    }
  }

  /** `max(longest, default=0)`. */
  method Highest(longest: array<nat>, ghost values: seq<nat>) returns (need: nat)
    requires longest.Length == |values|
    requires forall i :: 0 <= i < |values| ==> longest[i] == LongestFrom(values, i)
    ensures need == BestAbove(values, 0, -1)
  {
    need := 0;
    for i := 0 to longest.Length
      invariant Max(need, BestAbove(values, i, -1)) == BestAbove(values, 0, -1)
    {
      need := Max(need, longest[i]);
    }
  }

  /** The positions that stay, picked from the front. */
  method KeptRun(values: seq<nat>) returns (kept: seq<nat>)
    ensures kept == Greedy(values, 0, BestAbove(values, 0, -1), -1)
  {
    var longest := LongestTable(values);
    var need := Highest(longest, values);
    var last: int := -1;
    ghost var whole := Greedy(values, 0, need, -1);
    kept := [];
    for i := 0 to |values|
      invariant kept + Greedy(values, i, need, last) == whole
    {
      if need > 0 && longest[i] == need && values[i] > last {
        assert kept + ([i] + Greedy(values, i + 1, need - 1, values[i])) ==
          (kept + [i]) + Greedy(values, i + 1, need - 1, values[i]);
        kept := kept + [i];
        last := values[i];
        need := need - 1;
      }
    }
  }

  function OldIndex(pair: Pair): int {
    pair.oldIndex
  }

  predicate Sorted(pairs: seq<Pair>) {
    Rising(pairs, OldIndex)
  }

  /** The pairs in the order their sections stood in before. */
  function Ordered(pairs: seq<Pair>): (ordered: seq<Pair>)
    ensures multiset(ordered) == multiset(pairs) && Sorted(ordered)
  {
    ByRank(pairs, OldIndex)
  }

  function NewIndices(pairs: seq<Pair>): seq<nat> {
    seq(|pairs|, i requires 0 <= i < |pairs| => pairs[i].newIndex)
  }

  function At(pairs: seq<Pair>, run: seq<nat>): seq<Pair>
    requires forall j :: 0 <= j < |run| ==> run[j] < |pairs|
  {
    seq(|run|, j requires 0 <= j < |run| => pairs[run[j]])
  }

  /** Of the first `i` pairs, those passed over and those moved are all, each once. */
  ghost predicate Passed(ordered: seq<Pair>, kept: seq<nat>, i: nat, passed: nat, moved: seq<Pair>)
    requires i <= |ordered| && forall j :: 0 <= j < |kept| ==> kept[j] < |ordered|
  {
    && passed <= |kept|
    && (forall j :: 0 <= j < |kept| ==> (kept[j] < i <==> j < passed))
    && multiset(moved) + multiset(At(ordered, kept[..passed])) == multiset(ordered[..i])
  }

  lemma PassOne(ordered: seq<Pair>, kept: seq<nat>, i: nat, passed: nat, moved: seq<Pair>)
    requires IsRun(NewIndices(ordered), kept, 0, -1) && i < |ordered|
    requires Passed(ordered, kept, i, passed, moved) && i in kept
    ensures Passed(ordered, kept, i + 1, passed + 1, moved)
  {
    assert passed < |kept| && kept[passed] == i;
    assert ordered[..i + 1] == ordered[..i] + [ordered[i]];
    assert At(ordered, kept[..passed + 1]) == At(ordered, kept[..passed]) + [ordered[i]];
  }

  lemma MoveOne(ordered: seq<Pair>, kept: seq<nat>, i: nat, passed: nat, moved: seq<Pair>)
    requires IsRun(NewIndices(ordered), kept, 0, -1) && i < |ordered|
    requires Passed(ordered, kept, i, passed, moved) && i !in kept
    ensures Passed(ordered, kept, i + 1, passed, moved + [ordered[i]])
  {
    assert ordered[..i + 1] == ordered[..i] + [ordered[i]];
  }

  /** The pairs whose position is not in the run. */
  method Outside(ordered: seq<Pair>, kept: seq<nat>) returns (moved: seq<Pair>)
    requires IsRun(NewIndices(ordered), kept, 0, -1) && Sorted(ordered)
    ensures multiset(moved) + multiset(At(ordered, kept)) == multiset(ordered)
    ensures Sorted(moved)
  {
    moved := [];
    ghost var passed := 0;
    for i := 0 to |ordered|
      invariant Passed(ordered, kept, i, passed, moved)
      invariant Sorted(moved) && forall k, j :: 0 <= k < |moved| && i <= j < |ordered| ==>
        OldIndex(moved[k]) <= OldIndex(ordered[j])
    {
      if i in kept {
        PassOne(ordered, kept, i, passed, moved);
        passed := passed + 1;
      } else {
        MoveOne(ordered, kept, i, passed, moved);
        moved := moved + [ordered[i]];
      }
    }
    AllPassed(ordered, kept, passed, moved);
  }

  lemma AllPassed(ordered: seq<Pair>, kept: seq<nat>, passed: nat, moved: seq<Pair>)
    requires IsRun(NewIndices(ordered), kept, 0, -1) && Passed(ordered, kept, |ordered|, passed, moved)
    ensures multiset(moved) + multiset(At(ordered, kept)) == multiset(ordered)
  {
    assert kept != [] ==> kept[|kept| - 1] < |ordered|;
    assert kept[..passed] == kept && ordered[..|ordered|] == ordered;
  }

  /** The positions, in old order, of the sections that stay. */
  function Kept(pairs: seq<Pair>): seq<nat> {
    var values := NewIndices(Ordered(pairs));
    Greedy(values, 0, BestAbove(values, 0, -1), -1)
  }

  /**
   * What stays rises; no rising run is longer, so no smaller set of moves explains
   * the new order; and of the longest runs it is the one whose positions come first.
   */
  lemma KeptIsLongestAndFirst(pairs: seq<Pair>, run: seq<nat>)
    ensures IsRun(NewIndices(Ordered(pairs)), Kept(pairs), 0, -1)
    ensures IsRun(NewIndices(Ordered(pairs)), run, 0, -1) ==> |run| <= |Kept(pairs)|
    ensures IsRun(NewIndices(Ordered(pairs)), run, 0, -1) && |run| == |Kept(pairs)| ==> NotAfter(Kept(pairs), run)
    ensures IsRun(NewIndices(Ordered(pairs)), run, 0, -1) && |run| == |Kept(pairs)| && run != Kept(pairs) ==>
      Sooner(Kept(pairs), run)
  {
    var values := NewIndices(Ordered(pairs));
    var need := BestAbove(values, 0, -1);
    GreedyIsARun(values, 0, need, -1);
    if IsRun(values, run, 0, -1) {
      RunBound(values, run, 0, -1);
      if |run| == need {
        GreedyIsFirst(values, 0, need, -1, run);
        NotAfterExactly(Kept(pairs), run);
      }
    }
  }

  /** The pairs outside the run that stays, in the order their sections stood in before. */
  method Moved(pairs: seq<Pair>) returns (moved: seq<Pair>)
    ensures IsRun(NewIndices(Ordered(pairs)), Kept(pairs), 0, -1)
    ensures multiset(moved) + multiset(At(Ordered(pairs), Kept(pairs))) == multiset(pairs)
    ensures |moved| + |Kept(pairs)| == |pairs| && Sorted(moved)
  {
    var ordered := Ordered(pairs);
    var run := KeptRun(NewIndices(ordered));
    KeptIsLongestAndFirst(pairs, run);
    moved := Outside(ordered, run);
    SameSize(moved, At(ordered, run), pairs);
  }

  lemma SameSize(a: seq<Pair>, b: seq<Pair>, whole: seq<Pair>)
    requires multiset(a) + multiset(b) == multiset(whole)
    ensures |a| + |b| == |whole|
  {
    assert |multiset(a)| + |multiset(b)| == |multiset(whole)|;
  }
}
