/**
 * Pairing two lists of keys greedily: each old entry, in turn, takes the first
 * new entry of its key that nobody has taken yet.
 */
module Claims {
  import opened Wrappers

  type Pairs = seq<(nat, nat)>

  function Olds(pairs: Pairs): set<nat> {
    set p | p in pairs :: p.0
  }

  function News(pairs: Pairs): set<nat> {
    set p | p in pairs :: p.1
  }

  /** No old and no new entry in two pairs. */
  ghost predicate Apart(pairs: Pairs) {
    forall a, b :: 0 <= a < b < |pairs| ==> pairs[a].0 != pairs[b].0 && pairs[a].1 != pairs[b].1
  }

  /** Every pair within both lists and of one key. */
  ghost predicate SameKeys<K>(pairs: Pairs, oldKeys: seq<K>, newKeys: seq<K>) {
    forall p :: p in pairs ==> p.0 < |oldKeys| && p.1 < |newKeys| && oldKeys[p.0] == newKeys[p.1]
  }

  function Having<K(==)>(keys: seq<K>, key: K): set<nat> {
    set i: nat | i < |keys| && keys[i] == key
  }

  // -- the greedy pass ---------------------------------------------------

  /** The first entry of a key, from `from` on, that is not taken. */
  function FirstFree<K(==)>(keys: seq<K>, key: K, taken: set<nat>, from: nat): (j: Option<nat>)
    requires from <= |keys|
    ensures j.Some? ==> from <= j.value < |keys| && keys[j.value] == key && j.value !in taken
    ensures forall i :: from <= i < (if j.Some? then j.value else |keys|) ==> keys[i] == key ==> i in taken
    decreases |keys| - from
  {
    if from == |keys| then None
    else if keys[from] == key && from !in taken then Some(from)
    else FirstFree(keys, key, taken, from + 1)
  }

  predicate Within(order: seq<nat>, n: nat) {
    forall k :: 0 <= k < |order| ==> order[k] < n
  }

  function Claimed<K(==)>(order: seq<nat>, oldKeys: seq<K>, newKeys: seq<K>, takenOld: set<nat>,
                          takenNew: set<nat>): Pairs
    requires Within(order, |oldKeys|)
  {
    if order == [] then []
    else
      var i := order[0];
      var j := if i in takenOld then None else FirstFree(newKeys, oldKeys[i], takenNew, 0);
      if j.None? then Claimed(order[1..], oldKeys, newKeys, takenOld, takenNew)
      else [(i, j.value)] + Claimed(order[1..], oldKeys, newKeys, takenOld + {i}, takenNew + {j.value})
  }

  lemma {:induction false} ClaimedIsSound<K>(
      order: seq<nat>, oldKeys: seq<K>, newKeys: seq<K>, takenOld: set<nat>, takenNew: set<nat>)
    requires Within(order, |oldKeys|)
    ensures var pairs := Claimed(order, oldKeys, newKeys, takenOld, takenNew);
      Apart(pairs) && SameKeys(pairs, oldKeys, newKeys)
      && Olds(pairs) !! takenOld && News(pairs) !! takenNew && Olds(pairs) <= set i | i in order
  {
    if order != [] {
      var i := order[0];
      var j := if i in takenOld then None else FirstFree(newKeys, oldKeys[i], takenNew, 0);
      if j.None? {
        ClaimedIsSound(order[1..], oldKeys, newKeys, takenOld, takenNew);
      } else {
        ClaimedIsSound(order[1..], oldKeys, newKeys, takenOld + {i}, takenNew + {j.value});
        var rest := Claimed(order[1..], oldKeys, newKeys, takenOld + {i}, takenNew + {j.value});
        OneMore((i, j.value), rest);
      }
    }
  }

  lemma OneMore(p: (nat, nat), rest: Pairs)
    requires Apart(rest) && p.0 !in Olds(rest) && p.1 !in News(rest)
    ensures Apart([p] + rest)
    ensures Olds([p] + rest) == {p.0} + Olds(rest) && News([p] + rest) == {p.1} + News(rest)
  {
    forall a, b | 0 <= a < b < |[p] + rest|
      ensures ([p] + rest)[a].0 != ([p] + rest)[b].0 && ([p] + rest)[a].1 != ([p] + rest)[b].1
    {
      assert ([p] + rest)[b] == rest[b - 1] && rest[b - 1] in rest;
    }
  }

  /** What is left of a key after the pass is left on one side only. */
  lemma {:induction false} ClaimedIsMaximal<K>(
      order: seq<nat>, oldKeys: seq<K>, newKeys: seq<K>, takenOld: set<nat>, takenNew: set<nat>, i: nat, j: nat)
    requires Within(order, |oldKeys|)
    requires i in order && j < |newKeys| && oldKeys[i] == newKeys[j]
    ensures var pairs := Claimed(order, oldKeys, newKeys, takenOld, takenNew);
      i in takenOld + Olds(pairs) || j in takenNew + News(pairs)
  {
    var i0 := order[0];
    var j0 := if i0 in takenOld then None else FirstFree(newKeys, oldKeys[i0], takenNew, 0);
    if j0.None? {
      if i != i0 {
        ClaimedIsMaximal(order[1..], oldKeys, newKeys, takenOld, takenNew, i, j);
      }
    } else {
      var rest := Claimed(order[1..], oldKeys, newKeys, takenOld + {i0}, takenNew + {j0.value});
      assert forall p :: p in [(i0, j0.value)] + rest <==> p == (i0, j0.value) || p in rest;
      assert (i0, j0.value) in Claimed(order, oldKeys, newKeys, takenOld, takenNew);
      if i != i0 {
        ClaimedIsMaximal(order[1..], oldKeys, newKeys, takenOld + {i0}, takenNew + {j0.value}, i, j);
      }
    }
  }

  // -- counting ----------------------------------------------------------

  /** Pairs take as many old as new entries of every key. */
  lemma {:induction false} PairsCount<K>(pairs: Pairs, oldKeys: seq<K>, newKeys: seq<K>, key: K)
    requires Apart(pairs) && SameKeys(pairs, oldKeys, newKeys)
    ensures |Olds(pairs) * Having(oldKeys, key)| == |News(pairs) * Having(newKeys, key)|
  {
    if pairs != [] {
      var p, rest := pairs[0], pairs[1..];
      assert pairs == [p] + rest && p in pairs;
      forall q | q in rest ensures q in pairs && q.0 != p.0 && q.1 != p.1 {
        var k :| 0 <= k < |rest| && rest[k] == q;
        assert pairs[k + 1] == q;
      }
      OneMore(p, rest);
      PairsCount(rest, oldKeys, newKeys, key);
      WithOneMore(p.0, Olds(rest), Having(oldKeys, key));
      WithOneMore(p.1, News(rest), Having(newKeys, key));
    }
  }

  lemma WithOneMore(x: nat, taken: set<nat>, s: set<nat>)
    requires x !in taken
    ensures |({x} + taken) * s| == |taken * s| + if x in s then 1 else 0
  {
    assert ({x} + taken) * s == if x in s then {x} + taken * s else taken * s;
  }

  function Surplus(a: nat, b: nat): nat {
    if a < b then 0 else a - b
  }

  /** Pairs that leave a key over on one side only leave exactly the surplus. */
  lemma LeftOver<K>(pairs: Pairs, oldKeys: seq<K>, newKeys: seq<K>, key: K)
    requires Apart(pairs) && SameKeys(pairs, oldKeys, newKeys)
    requires Having(oldKeys, key) <= Olds(pairs) || Having(newKeys, key) <= News(pairs)
    ensures |Having(oldKeys, key) - Olds(pairs)| == Surplus(|Having(oldKeys, key)|, |Having(newKeys, key)|)
    ensures |Having(newKeys, key) - News(pairs)| == Surplus(|Having(newKeys, key)|, |Having(oldKeys, key)|)
  {
    PairsCount(pairs, oldKeys, newKeys, key);
    Splits(Having(oldKeys, key), Olds(pairs));
    Splits(Having(newKeys, key), News(pairs));
    if Having(oldKeys, key) <= Olds(pairs) {
      assert Having(oldKeys, key) - Olds(pairs) == {};
    } else {
      assert Having(newKeys, key) - News(pairs) == {};
    }
  }

  lemma Splits(s: set<nat>, taken: set<nat>)
    ensures |s| == |s - taken| + |taken * s|
  {
    assert s == (s - taken) + taken * s;
  }

  // -- some entries before the others ------------------------------------

  /** What comes first claims first; what comes behind finds it taken. */
  lemma {:induction false} ClaimedAppend<K>(
      a: seq<nat>, b: seq<nat>, oldKeys: seq<K>, newKeys: seq<K>, takenOld: set<nat>, takenNew: set<nat>)
    requires Within(a, |oldKeys|) && Within(b, |oldKeys|)
    ensures var first := Claimed(a, oldKeys, newKeys, takenOld, takenNew);
      Claimed(a + b, oldKeys, newKeys, takenOld, takenNew) ==
        first + Claimed(b, oldKeys, newKeys, takenOld + Olds(first), takenNew + News(first))
  {
    if a == [] {
      assert a + b == b;
      assert takenOld + Olds([]) == takenOld && takenNew + News([]) == takenNew;
    } else {
      var i := a[0];
      assert (a + b)[0] == i && (a + b)[1..] == a[1..] + b;
      var j := if i in takenOld then None else FirstFree(newKeys, oldKeys[i], takenNew, 0);
      if j.None? {
        ClaimedAppend(a[1..], b, oldKeys, newKeys, takenOld, takenNew);
      } else {
        ClaimedAppend(a[1..], b, oldKeys, newKeys, takenOld + {i}, takenNew + {j.value});
        var rest := Claimed(a[1..], oldKeys, newKeys, takenOld + {i}, takenNew + {j.value});
        Taken(takenOld, takenNew, (i, j.value), rest);
      }
    }
  }

  lemma Taken(takenOld: set<nat>, takenNew: set<nat>, p: (nat, nat), rest: Pairs)
    ensures takenOld + {p.0} + Olds(rest) == takenOld + Olds([p] + rest)
    ensures takenNew + {p.1} + News(rest) == takenNew + News([p] + rest)
  {
    assert forall q :: q in [p] + rest <==> q == p || q in rest;
  }

  lemma {:induction false} NothingFree<K>(order: seq<nat>, oldKeys: seq<K>, newKeys: seq<K>, takenOld: set<nat>,
                                          takenNew: set<nat>)
    requires Within(order, |oldKeys|) && forall j: nat :: j < |newKeys| ==> j in takenNew
    ensures Claimed(order, oldKeys, newKeys, takenOld, takenNew) == []
  {
    if order != [] {
      NothingFree(order[1..], oldKeys, newKeys, takenOld, takenNew);
    }
  }

  /** Keys of some entries only; the others have none. */
  function Masked<K>(keys: seq<K>, hidden: set<nat>): (masked: seq<Option<K>>)
    ensures |masked| == |keys| && forall i: nat :: i < |keys| ==>
      masked[i] == if i in hidden then None else Some(keys[i])
  {
    seq(|keys|, i requires 0 <= i < |keys| => if i in hidden then None else Some(keys[i]))
  }

  lemma {:induction false} FirstFreeMasked<K>(keys: seq<K>, key: K, taken: set<nat>, from: nat)
    requires from <= |keys|
    ensures FirstFree(Masked(keys, {}), Some(key), taken, from) == FirstFree(keys, key, taken, from)
    decreases |keys| - from
  {
    if from < |keys| {
      FirstFreeMasked(keys, key, taken, from + 1);
    }
  }

  /** Entries that are not asked make no difference. */
  lemma {:induction false} ClaimedMasked<K>(
      order: seq<nat>, oldKeys: seq<K>, newKeys: seq<K>, hidden: set<nat>, takenOld: set<nat>, takenNew: set<nat>)
    requires Within(order, |oldKeys|) && forall k :: 0 <= k < |order| ==> order[k] !in hidden
    ensures Claimed(order, Masked(oldKeys, hidden), Masked(newKeys, {}), takenOld, takenNew) ==
      Claimed(order, oldKeys, newKeys, takenOld, takenNew)
  {
    if order != [] {
      var i := order[0];
      FirstFreeMasked(newKeys, oldKeys[i], takenNew, 0);
      var j := if i in takenOld then None else FirstFree(newKeys, oldKeys[i], takenNew, 0);
      if j.None? {
        ClaimedMasked(order[1..], oldKeys, newKeys, hidden, takenOld, takenNew);
      } else {
        ClaimedMasked(order[1..], oldKeys, newKeys, hidden, takenOld + {i}, takenNew + {j.value});
      }
    }
  }
}
