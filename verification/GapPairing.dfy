/** How a view's sections pair up once one of them is gone, whatever stands twice. */
module GapPairing {
  import opened Wrappers
  import opened Sequences
  import opened Claims
  import opened CardMatching
  import opened SectionPairs

  /** The last entry below `n` that is the one at `s` or one just like it. */
  function LastLike<T(==)>(row: seq<T>, s: nat, n: nat): (last: nat)
    requires s < n <= |row|
    ensures s <= last < n && row[last] == row[s]
    ensures forall k :: last < k < n ==> row[k] != row[s]
  {
    if row[n - 1] == row[s] then n - 1 else LastLike(row, s, n - 1)
  }

  /** Every pair is of two equal sections, every new section has its partner, and of the old ones all but one. */
  ghost predicate PairedBut(p: SectionPairing, olds: seq<Section>, news: seq<Section>, left: nat) {
    && Apart(p.All()) && SameKeys(p.All(), olds, news)
    && (forall i: nat :: i in Olds(p.All()) <==> i < |olds| && i != left)
    && (forall j: nat :: j in News(p.All()) <==> j < |news|)
  }

  // -- counting ----------------------------------------------------------

  lemma {:induction false} HavingIsCount<K>(keys: seq<K>, key: K)
    ensures |Having(keys, key)| == multiset(keys)[key]
  {
    if keys == [] {
      assert Having(keys, key) == {};
    } else {
      var n := |keys| - 1;
      HavingIsCount(keys[..n], key);
      assert keys == keys[..n] + [keys[n]];
      assert Having(keys, key) == if keys[n] == key then Having(keys[..n], key) + {n} else Having(keys[..n], key);
    }
  }

  lemma OneFewer<K>(row: seq<K>, s: nat, key: K)
    requires s < |row|
    ensures |Having(row, key)| == |Having(Neighbours(row, s), key)| + if key == row[s] then 1 else 0
  {
    HavingIsCount(row, key);
    HavingIsCount(Neighbours(row, s), key);
    assert row == row[..s] + [row[s]] + row[s + 1..];
  }

  // -- the two passes over identical sections ----------------------------

  lemma IdenticalIsSound(p: SectionPairing, olds: seq<Section>, news: seq<Section>)
    requires IsPairing(p, olds, news)
    ensures Apart(p.Identical()) && SameKeys(p.Identical(), olds, news)
    ensures Olds(p.found) !! Olds(p.same) && News(p.found) !! News(p.same)
  {
    ClaimedIsSound(Counting(|olds|), olds, news, Olds(p.same), News(p.same));
    ApartPrefix(p.Identical(), p.settings + p.cards);
    assert p.All() == p.Identical() + (p.settings + p.cards);
    forall q | q in p.Identical() ensures q.0 < |olds| && q.1 < |news| && olds[q.0] == news[q.1] {
      assert (q.0, q.1) == q && (q in p.same || q in p.found);
    }
  }

  lemma ApartPrefix(a: Pairs, b: Pairs)
    requires Apart(a + b)
    ensures Apart(a)
  {
    forall x, y | 0 <= x < y < |a| ensures a[x].0 != a[y].0 && a[x].1 != a[y].1 {
      assert (a + b)[x] == a[x] && (a + b)[y] == a[y];
    }
  }

  /** A section of either side, or none of its like on the other, is left over. */
  lemma OneSideTaken(p: SectionPairing, olds: seq<Section>, news: seq<Section>, key: Section)
    requires IsPairing(p, olds, news)
    ensures Having(olds, key) <= Olds(p.Identical()) || Having(news, key) <= News(p.Identical())
  {
    if j :| j in Having(news, key) && j !in News(p.Identical()) {
      forall i | i in Having(olds, key) ensures i in Olds(p.Identical()) {
        TakenOnOneSide(p, olds, news, i, j);
      }
    }
  }

  lemma TakenOnOneSide(p: SectionPairing, olds: seq<Section>, news: seq<Section>, i: nat, j: nat)
    requires IsPairing(p, olds, news) && i < |olds| && j < |news| && olds[i] == news[j]
    ensures i in Olds(p.Identical()) || j in News(p.Identical())
  {
    assert forall q :: q in p.same || q in p.found ==> q in p.Identical();
    assert Counting(|olds|)[i] == i;
    ClaimedIsMaximal(Counting(|olds|), olds, news, Olds(p.same), News(p.same), i, j);
  }

  /** With every new section taken nothing is left for the passes that look at the same index only. */
  lemma NothingInPlace(p: SectionPairing, olds: seq<Section>, news: seq<Section>)
    requires IsPairing(p, olds, news) && forall j: nat :: j < |news| ==> j in News(p.Identical())
    ensures p.All() == p.Identical()
  {
    forall q ensures q !in p.settings && q !in p.cards {
      assert (q.0, q.1) == q;
    }
    FirstIn(p.settings);
    FirstIn(p.cards);
  }

  // -- the last of its like stays over -----------------------------------

  /** Of two entries of one key, the one asked first does not go without while the other is served. */
  lemma {:induction false} EarlierFirst<K>(
      order: seq<nat>, olds: seq<K>, news: seq<K>, takenOld: set<nat>, takenNew: set<nat>, a: nat, b: nat)
    requires Within(order, |olds|) && a < b < |order| && olds[order[a]] == olds[order[b]]
    requires forall x, y :: 0 <= x < y < |order| ==> order[x] != order[y]
    requires order[a] !in takenOld && order[b] in Olds(Claimed(order, olds, news, takenOld, takenNew))
    ensures order[a] in Olds(Claimed(order, olds, news, takenOld, takenNew))
  {
    var i := order[0];
    var j := if i in takenOld then None else FirstFree(news, olds[i], takenNew, 0);
    if j.None? {
      if a == 0 {
        NoneForItsLike(order[1..], olds, news, takenOld, takenNew, olds[i], order[b]);
      } else {
        EarlierFirst(order[1..], olds, news, takenOld, takenNew, a - 1, b - 1);
      }
    } else {
      var rest := Claimed(order[1..], olds, news, takenOld + {i}, takenNew + {j.value});
      assert forall q :: q in [(i, j.value)] + rest <==> q == (i, j.value) || q in rest;
      assert Olds([(i, j.value)] + rest) == {i} + Olds(rest);
      if a > 0 {
        EarlierFirst(order[1..], olds, news, takenOld + {i}, takenNew + {j.value}, a - 1, b - 1);
      }
    }
  }

  lemma NoneForItsLike<K>(order: seq<nat>, olds: seq<K>, news: seq<K>, takenOld: set<nat>, takenNew: set<nat>, key: K,
                          i: nat)
    requires Within(order, |olds|) && FirstFree(news, key, takenNew, 0).None? && i < |olds| && olds[i] == key
    ensures i !in Olds(Claimed(order, olds, news, takenOld, takenNew))
  {
    var pairs := Claimed(order, olds, news, takenOld, takenNew);
    ClaimedIsSound(order, olds, news, takenOld, takenNew);
    forall q | q in pairs ensures q.0 != i {
      assert q.1 in News(pairs);
    }
  }

  lemma LastIsLeft(p: SectionPairing, olds: seq<Section>, news: seq<Section>, i: nat, last: nat)
    requires IsPairing(p, olds, news) && i <= last < |olds| && olds[i] == olds[last]
    requires last !in Olds(p.same) && i !in Olds(p.Identical())
    ensures last !in Olds(p.Identical())
  {
    EitherPass(p, i);
    EitherPass(p, last);
    if i < last && last in Olds(p.found) {
      FoundBefore(p, olds, news, i, last);
    }
  }

  lemma EitherPass(p: SectionPairing, i: nat)
    ensures i in Olds(p.Identical()) <==> i in Olds(p.same) || i in Olds(p.found)
  {
    assert forall q :: q in p.Identical() <==> q in p.same || q in p.found;
  }

  lemma FoundBefore(p: SectionPairing, olds: seq<Section>, news: seq<Section>, i: nat, last: nat)
    requires IsPairing(p, olds, news) && i < last < |olds| && olds[i] == olds[last]
    requires i !in Olds(p.same) && last in Olds(p.found)
    ensures i in Olds(p.found)
  {
    EarlierFirst(Counting(|olds|), olds, news, Olds(p.same), News(p.same), i, last);
  }

  lemma LastIsNotSame(p: SectionPairing, row: seq<Section>, s: nat)
    requires s < |row| && IsPairing(p, row, Neighbours(row, s))
    ensures LastLike(row, s, |row|) !in Olds(p.same)
  {
    var last := LastLike(row, s, |row|);
    forall q | q in p.same ensures q.0 != last {
      assert (q.0, q.1) == q;
      if q.0 < |row| - 1 {
        NeighbourAt(row, s, q.0);
      }
    }
  }

  /** With one section gone, exactly the last one like it is left over, and every section there is has its equal. */
  lemma SectionsPairAround(p: SectionPairing, row: seq<Section>, s: nat)
    requires s < |row| && IsPairing(p, row, Neighbours(row, s))
    ensures PairedBut(p, row, Neighbours(row, s), LastLike(row, s, |row|))
  {
    var news := Neighbours(row, s);
    IdenticalIsSound(p, row, news);
    forall j: nat | j < |news| ensures j in News(p.Identical()) {
      NewIsTaken(p, row, s, j);
    }
    NothingInPlace(p, row, news);
    var i := OneIsLeft(p, row, s);
    LastIsNotSame(p, row, s);
    LastIsLeft(p, row, news, i, LastLike(row, s, |row|));
    forall i: nat | i < |row| && i != LastLike(row, s, |row|) ensures i in Olds(p.Identical()) {
      OldIsTaken(p, row, s, i);
    }
  }

  lemma Leftovers(p: SectionPairing, row: seq<Section>, s: nat, key: Section)
    requires s < |row| && IsPairing(p, row, Neighbours(row, s))
    ensures |Having(row, key) - Olds(p.Identical())| == if key == row[s] then 1 else 0
    ensures |Having(Neighbours(row, s), key) - News(p.Identical())| == 0
  {
    IdenticalIsSound(p, row, Neighbours(row, s));
    OneSideTaken(p, row, Neighbours(row, s), key);
    OneFewer(row, s, key);
    LeftOver(p.Identical(), row, Neighbours(row, s), key);
  }

  lemma NewIsTaken(p: SectionPairing, row: seq<Section>, s: nat, j: nat)
    requires s < |row| && IsPairing(p, row, Neighbours(row, s)) && j < |Neighbours(row, s)|
    ensures j in News(p.Identical())
  {
    var key := Neighbours(row, s)[j];
    Leftovers(p, row, s, key);
    assert j !in Having(Neighbours(row, s), key) - News(p.Identical());
  }

  lemma OneIsLeft(p: SectionPairing, row: seq<Section>, s: nat) returns (i: nat)
    requires s < |row| && IsPairing(p, row, Neighbours(row, s))
    ensures i < |row| && row[i] == row[s] && i !in Olds(p.Identical())
  {
    Leftovers(p, row, s, row[s]);
    var over := Having(row, row[s]) - Olds(p.Identical());
    i :| i in over;
  }

  lemma OldIsTaken(p: SectionPairing, row: seq<Section>, s: nat, i: nat)
    requires s < |row| && IsPairing(p, row, Neighbours(row, s)) && i < |row| && i != LastLike(row, s, |row|)
    requires LastLike(row, s, |row|) !in Olds(p.Identical())
    ensures i in Olds(p.Identical())
  {
    Leftovers(p, row, s, row[i]);
    var over := Having(row, row[i]) - Olds(p.Identical());
    if i in over {
      var last := LastLike(row, s, |row|);
      if row[i] == row[s] {
        assert {i, last} <= over;
        TwoAreMore(over, i, last);
      }
      SomethingIn(over, i);
    }
  }

  lemma SomethingIn(s: set<nat>, a: nat)
    requires a in s
    ensures |s| > 0
  {
  }

  lemma TwoAreMore(s: set<nat>, a: nat, b: nat)
    requires a in s && b in s && a != b
    ensures |s| >= 2
  {
    assert s == {a, b} + (s - {a, b});
  }

  /** An untouched row is paired with itself. */
  lemma SameRowPairs(p: SectionPairing, row: seq<Section>)
    requires IsPairing(p, row, row)
    ensures PairedBut(p, row, row, |row|)
  {
    IdenticalIsSound(p, row, row);
    forall i: nat | i < |row| ensures i in Olds(p.Identical()) && i in News(p.Identical()) {
      assert (i, i) in p.same && (i, i) in p.Identical();
      assert (i, i).0 == i && (i, i).1 == i;
    }
    NothingInPlace(p, row, row);
  }
}
