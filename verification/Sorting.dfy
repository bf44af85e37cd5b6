/** Python's `sorted` by a number: what ranks equal stays in the order it came. */
module Sorting {
  predicate Rising<T>(row: seq<T>, rank: T -> int) {
    forall a, b :: 0 <= a < b < |row| ==> rank(row[a]) <= rank(row[b])
  }

  function ByRank<T>(row: seq<T>, rank: T -> int): (sorted: seq<T>)
    ensures Rising(sorted, rank) && multiset(sorted) == multiset(row)
  {
    if row == [] then []
    else
      var n := |row| - 1;
      assert row == row[..n] + [row[n]];
      PutBehind(ByRank(row[..n], rank), row[n], rank)
  }

  /** Behind everything that does not come after it. */
  function PutBehind<T>(sorted: seq<T>, x: T, rank: T -> int): (longer: seq<T>)
    requires Rising(sorted, rank)
    ensures Rising(longer, rank) && multiset(longer) == multiset(sorted) + multiset{x}
  {
    var at := Behind(sorted, rank(x), rank);
    PlacedRises(sorted, x, at, rank);
    assert sorted == sorted[..at] + sorted[at..];
    sorted[..at] + [x] + sorted[at..]
  }

  function Behind<T>(sorted: seq<T>, r: int, rank: T -> int): (at: nat)
    requires Rising(sorted, rank)
    ensures at <= |sorted|
    ensures forall i :: 0 <= i < |sorted| ==> (rank(sorted[i]) <= r <==> i < at)
  {
    if sorted == [] || rank(sorted[|sorted| - 1]) <= r then |sorted|
    else Behind(sorted[..|sorted| - 1], r, rank)
  }

  lemma PlacedRises<T>(sorted: seq<T>, x: T, at: nat, rank: T -> int)
    requires Rising(sorted, rank) && at <= |sorted|
    requires forall i :: 0 <= i < |sorted| ==> (rank(sorted[i]) <= rank(x) <==> i < at)
    ensures Rising(sorted[..at] + [x] + sorted[at..], rank)
  {
    var longer := sorted[..at] + [x] + sorted[at..];
    forall i, j | 0 <= i < j < |longer| ensures rank(longer[i]) <= rank(longer[j]) {
      assert longer[i] == if i < at then sorted[i] else if i == at then x else sorted[i - 1];
      assert longer[j] == if j < at then sorted[j] else if j == at then x else sorted[j - 1];
    }
  }
}
