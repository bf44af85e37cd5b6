/** Lists of lists, one after another, and rows with an entry less. */
module Sequences {
  function Concat<T>(lists: seq<seq<T>>): seq<T> {
    if lists == [] then [] else lists[0] + Concat(lists[1..])
  }

  /** A row without the entry at `s`. */
  function Neighbours<T>(row: seq<T>, s: nat): seq<T> {
    if s < |row| then row[..s] + row[s + 1..] else row
  }

  lemma NeighbourAt<T>(row: seq<T>, s: nat, k: nat)
    requires s < |row| && k < |row| - 1
    ensures |Neighbours(row, s)| == |row| - 1 && Neighbours(row, s)[k] == row[if k < s then k else k + 1]
  {
  }

  lemma {:induction false} InConcat<T>(lists: seq<seq<T>>, x: T) returns (k: nat)
    requires x in Concat(lists)
    ensures k < |lists| && x in lists[k]
  {
    if x in lists[0] {
      k := 0;
    } else {
      k := InConcat(lists[1..], x);
      k := k + 1;
    }
  }

  lemma {:induction false} ConcatHas<T>(lists: seq<seq<T>>, k: nat, x: T)
    requires k < |lists| && x in lists[k]
    ensures x in Concat(lists)
  {
    if k > 0 {
      ConcatHas(lists[1..], k - 1, x);
    }
  }

  lemma {:induction false} ConcatOneMore<T>(lists: seq<seq<T>>, k: nat)
    requires k < |lists|
    ensures Concat(lists[..k + 1]) == Concat(lists[..k]) + lists[k]
  {
    if k > 0 {
      assert lists[..k + 1][1..] == lists[1..][..k] && lists[..k][1..] == lists[1..][..k - 1];
      ConcatOneMore(lists[1..], k - 1);
    } else {
      assert lists[..1] == [lists[0]] && [lists[0]][1..] == [];
    }
  }
}
