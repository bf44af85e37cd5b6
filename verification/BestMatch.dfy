/**
 * Two cards of one kind on one entity, one of which goes while the other is edited:
 * the one that is more alike to what stands there now is the one that was edited.
 */
module BestMatch {
  import opened Wrappers
  import opened Sequences
  import opened Claims
  import opened CardMatching
  import opened SectionPairs
  import opened Dashboard
  import opened FindRemoved
  import opened RoundTrip
  import opened SectionTrip

  // -- how alike two cards are, on their fields --------------------------

  type Fields = map<string, string>

  function Names(one: Fields, other: Fields): set<string> {
    one.Keys + other.Keys
  }

  /** The fields both have with one value. */
  function Agreeing(one: Fields, other: Fields): set<string> {
    set f | f in one && f in other && one[f] == other[f]
  }

  /** A larger share of the fields of `one` and the target agrees than of `other` and the target. */
  predicate Closer(one: Fields, other: Fields, target: Fields) {
    |Agreeing(one, target)| * |Names(other, target)| > |Agreeing(other, target)| * |Names(one, target)|
  }

  predicate AsClose(one: Fields, other: Fields, target: Fields) {
    |Agreeing(one, target)| * |Names(other, target)| == |Agreeing(other, target)| * |Names(one, target)|
  }

  predicate HasFields(card: Card) {
    card.body.Fields? && card.body.fields != map[]
  }

  lemma NotEmpty(s: set<string>, f: string)
    requires f in s
    ensures |s| > 0
  {
  }

  lemma SimilarityIsAShare(card: Card, target: Card)
    requires HasFields(card) && HasFields(target)
    ensures var one, other := card.body.fields, target.body.fields;
      && |Names(one, other)| > 0
      && Similarity(card, target) == (|Agreeing(one, other)| as real) / (|Names(one, other)| as real)
  {
    var one, other := card.body.fields, target.body.fields;
    var f :| f in other.Keys;
    NotEmpty(Names(one, other), f);
    if Alike(card, target) {
      assert Agreeing(one, other) == Names(one, other);
    } else {
      assert Agreeing(one, other) == set g | g in one.Keys + other.Keys && Field(card, g) == Field(target, g);
    }
  }

  lemma SharesCompare(a: nat, m: nat, b: nat, n: nat)
    requires m > 0 && n > 0
    ensures (a as real) / (m as real) > (b as real) / (n as real) <==> a * n > b * m
    ensures (a as real) / (m as real) == (b as real) / (n as real) <==> a * n == b * m
  {
    var x, y, p, q := a as real, b as real, m as real, n as real;
    assert x / p * (p * q) == x * q && y / q * (p * q) == y * p;
    assert p * q > 0.0;
    Scaled(x / p, y / q, p * q);
    assert x * q == (a * n) as real && y * p == (b * m) as real;
  }

  lemma Scaled(s: real, t: real, more: real)
    requires more > 0.0
    ensures s > t <==> s * more > t * more
    ensures s == t <==> s * more == t * more
  {
  }

  lemma CloserScoresHigher(one: Card, other: Card, target: Card)
    requires HasFields(one) && HasFields(other) && HasFields(target)
    ensures var o, p, t := one.body.fields, other.body.fields, target.body.fields;
      && (Similarity(one, target) > Similarity(other, target) <==> Closer(o, p, t))
      && (Similarity(one, target) == Similarity(other, target) <==> AsClose(o, p, t))
  {
    var o, p, t := one.body.fields, other.body.fields, target.body.fields;
    SimilarityIsAShare(one, target);
    SimilarityIsAShare(other, target);
    SharesCompare(|Agreeing(o, t)|, |Names(o, t)|, |Agreeing(p, t)|, |Names(p, t)|);
  }

  // -- one gone, one edited ----------------------------------------------

  /**
   * Of a list whose cards all differ the one at `a` goes, and where the one at `b`
   * stood there is a new one now; everything else is as it was.
   */
  ghost predicate OneGoneOneEdited(before: seq<Slot>, after: seq<Slot>, kept: seq<nat>, a: nat, b: nat, j: nat) {
    && a < |before| && b < |before| && a != b && before[a].place == before[b].place
    && j < |after| == |kept| && kept[j] == b
    && (forall k :: 0 <= k < |kept| ==> kept[k] < |before| && after[k].place == before[kept[k]].place)
    && (forall k :: 0 <= k < |kept| && k != j ==> after[k].card == before[kept[k]].card)
    && (forall k, l :: 0 <= k < l < |kept| ==> kept[k] < kept[l])
    && (forall i: nat :: i < |before| ==> (i in kept <==> i != a))
    && AllNew(before, a, after[j].card)
  }

  /** A list whose cards all differ, and a card that is none of them. */
  ghost predicate AllNew(before: seq<Slot>, a: nat, card: Card)
    requires a < |before|
  {
    && (forall i, k :: 0 <= i < k < |before| && before[i].place == before[k].place == before[a].place ==>
          before[i].card != before[k].card)
    && forall i :: 0 <= i < |before| && before[i].place == before[a].place ==> before[i].card != card
  }

  lemma OldKey(before: seq<Slot>, translate: Translation, i: nat)
    requires i < |before| && StaysPut(before, translate)
    ensures OldPlaceKeys(before, translate)[i] == (before[i].place, before[i].card)
  {
  }

  /** Only the two have their keys, and the new card's key is nobody's. */
  lemma TheirKeys(before: seq<Slot>, after: seq<Slot>, translate: Translation, kept: seq<nat>, a: nat, b: nat, j: nat,
                  i: nat, k: nat)
    requires OneGoneOneEdited(before, after, kept, a, b, j) && StaysPut(before, translate)
    requires i < |before| && k < |after| && OldPlaceKeys(before, translate)[i] == NewPlaceKeys(after)[k]
    ensures k != j && i != a && i != b
  {
    OldKey(before, translate, i);
    if k != j {
      assert before[kept[k]].place == before[i].place && before[kept[k]].card == before[i].card;
      assert kept[k] in kept;
      assert k < j ==> kept[k] < kept[j];
      assert j < k ==> kept[j] < kept[k];
    }
  }

  lemma AsManyOfTheRest(before: seq<Slot>, after: seq<Slot>, translate: Translation, kept: seq<nat>,
                        a: nat, b: nat, j: nat, i: nat)
    requires OneGoneOneEdited(before, after, kept, a, b, j) && StaysPut(before, translate)
    requires i < |before| && i != a && i != b
    ensures var key := OldPlaceKeys(before, translate)[i];
      |Having(OldPlaceKeys(before, translate), key)| == |Having(NewPlaceKeys(after), key)|
  {
    var olds, news := OldPlaceKeys(before, translate), NewPlaceKeys(after);
    var key := olds[i];
    OldKey(before, translate, i);
    forall k | k in Having(news, key) ensures k < |kept| && kept[k] in Having(olds, key) {
      TheirKeys(before, after, translate, kept, a, b, j, i, k);
      OldKey(before, translate, kept[k]);
    }
    ImageCount(kept, Having(news, key), Having(olds, key));
    forall h | h in Having(olds, key) ensures exists k: nat :: k < |kept| && k in Having(news, key) && kept[k] == h {
      OldKey(before, translate, h);
      OthersKey(before, after, kept, a, b, j, i, h);
      assert h in kept;
      var k: nat :| k < |kept| && kept[k] == h;
      assert k != j && news[k] == key;
    }
    AsManyBack(kept, Having(news, key), Having(olds, key));
  }

  lemma OthersKey(before: seq<Slot>, after: seq<Slot>, kept: seq<nat>, a: nat, b: nat, j: nat, i: nat, h: nat)
    requires OneGoneOneEdited(before, after, kept, a, b, j) && i < |before| && h < |before| && i != a && i != b
    requires before[h].place == before[i].place && before[h].card == before[i].card
    ensures h != a && h != b
  {
  }

  /** All the others claim their places, and nobody else does. */
  lemma OthersInPlace(before: seq<Slot>, after: seq<Slot>, translate: Translation, kept: seq<nat>,
                      a: nat, b: nat, j: nat, inPlace: Pairs)
    requires OneGoneOneEdited(before, after, kept, a, b, j) && StaysPut(before, translate)
    requires inPlace == Claimed(Order(before, translate), OldPlaceKeys(before, translate), NewPlaceKeys(after), {}, {})
    ensures forall i: nat :: i in Olds(inPlace) <==> i < |before| && i != a && i != b
    ensures forall k: nat :: k in News(inPlace) <==> k < |after| && k != j
  {
    var olds, news := OldPlaceKeys(before, translate), NewPlaceKeys(after);
    ClaimedIsSound(Order(before, translate), olds, news, {}, {});
    forall p | p in inPlace ensures p.0 < |before| && p.0 != a && p.0 != b && p.1 < |after| && p.1 != j {
      TheirKeys(before, after, translate, kept, a, b, j, p.0, p.1);
    }
    forall i: nat | i < |before| && i != a && i != b
      ensures Having(olds, olds[i]) <= Olds(inPlace) && Having(news, olds[i]) <= News(inPlace)
    {
      AsManyOfTheRest(before, after, translate, kept, a, b, j, i);
      OneSideIsAll(Order(before, translate), olds, news, olds[i], inPlace);
      BothSidesAll(inPlace, olds, news, olds[i]);
    }
    forall i: nat | i < |before| && i != a && i != b ensures i in Olds(inPlace) {
      assert i in Having(olds, olds[i]);
    }
    forall k: nat | k < |after| && k != j ensures k in News(inPlace) {
      KeptElsewhere(before, after, kept, a, b, j, k);
      OldKey(before, translate, kept[k]);
      assert k in Having(news, olds[kept[k]]);
    }
  }

  lemma KeptElsewhere(before: seq<Slot>, after: seq<Slot>, kept: seq<nat>, a: nat, b: nat, j: nat, k: nat)
    requires OneGoneOneEdited(before, after, kept, a, b, j) && k < |after| && k != j
    ensures kept[k] < |before| && kept[k] != a && kept[k] != b
  {
    assert kept[k] in kept;
    assert k < j ==> kept[k] < kept[j];
    assert j < k ==> kept[j] < kept[k];
  }

  /** What is left for the later passes: the two old cards and the new one. */
  lemma OnlyTheTwo(m: Matching, before: seq<Slot>, after: seq<Slot>, translate: Translation, kept: seq<nat>,
                   a: nat, b: nat, j: nat)
    requires IsMatching(m, before, after, translate) && StaysPut(before, translate)
    requires OneGoneOneEdited(before, after, kept, a, b, j)
    ensures m.displaced == [] && forall p :: p in m.edited ==> (p.0 == a || p.0 == b) && p.1 == j
    ensures forall i: nat :: i in Olds(m.inPlace) <==> i < |before| && i != a && i != b
    ensures forall k: nat :: k in News(m.inPlace) <==> k < |after| && k != j
  {
    OthersInPlace(before, after, translate, kept, a, b, j, m.inPlace);
    EveryCardOnce(m, before, after, translate);
    ClaimedIsSound(Order(before, translate), Marks(before), Marks(after), Olds(m.inPlace), News(m.inPlace));
    forall p | p in m.displaced
      ensures (p.0 == a || p.0 == b) && p.1 == j && before[p.0].card == after[p.1].card
    {
      assert p.0 in Olds(m.displaced) && p.1 in News(m.displaced);
      assert Marks(before)[p.0] == Marks(after)[p.1];
    }
    FirstIn(m.displaced);
    forall p | p in m.edited ensures (p.0 == a || p.0 == b) && p.1 == j {
      assert p.0 in Olds(m.edited) && p.1 in News(m.edited);
    }
  }

  lemma OneAtMost(pairs: Pairs, j: nat, p: (nat, nat))
    requires Apart(pairs) && p in pairs && forall q :: q in pairs ==> q.1 == j
    ensures pairs == [p]
  {
    assert |pairs| <= 1 || pairs[0].1 != pairs[1].1;
    forall k | 0 <= k < |pairs| ensures pairs[k].1 == j {
      assert pairs[k] in pairs;
    }
  }

  /** The better of the two candidates is claimed. */
  lemma BetterIsEdited(m: Matching, before: seq<Slot>, after: seq<Slot>, translate: Translation, kept: seq<nat>,
                       a: nat, b: nat, j: nat, one: nat, other: nat)
    requires IsMatching(m, before, after, translate) && StaysPut(before, translate)
    requires OneGoneOneEdited(before, after, kept, a, b, j) && {one, other} == {a, b} && one != other
    requires before[one].card.weak.Some? && before[one].card.weak == after[j].card.weak
    requires before[other].card.weak == after[j].card.weak ==>
      !Before(Candidate(Similarity(before[other].card, after[j].card), other, j),
              Candidate(Similarity(before[one].card, after[j].card), one, j))
    ensures m.edited == [(one, j)]
  {
    OnlyTheTwo(m, before, after, translate, kept, a, b, j);
    TheTwo(a, b, one, other);
    assert after[j].place == before[kept[j]].place;
    var best := BestOf(m, before, after, translate);
    ApartTail(m);
    BestIsAll(before, after, translate, m.inPlace, best, m.edited, one, other, j);
  }

  lemma BestIsAll(before: seq<Slot>, after: seq<Slot>, translate: Translation, exact: Pairs, best: Pairs, edited: Pairs,
                  one: nat, other: nat, j: nat)
    requires BestMatched(before, after, translate, exact, best) && StaysPut(before, translate)
    requires one < |before| && other < |before| && j < |after| && after[j].place == before[one].place
    requires forall i: nat :: i in Olds(exact) <==> i < |before| && i != one && i != other
    requires j !in News(exact) && Apart(edited)
    requires forall p :: p in edited ==> (p.0 == one || p.0 == other) && p.1 == j
    requires forall p :: p in best ==> p in edited
    requires before[one].card.weak.Some? && before[one].card.weak == after[j].card.weak
    requires before[other].card.weak == after[j].card.weak ==>
      !Before(Candidate(Similarity(before[other].card, after[j].card), other, j),
              Candidate(Similarity(before[one].card, after[j].card), one, j))
    ensures edited == [(one, j)]
  {
    BetterIsClaimed(before, after, translate, exact, best, one, other, j);
    OneAtMost(edited, j, (one, j));
  }

  lemma TheTwo(a: nat, b: nat, one: nat, other: nat)
    requires {one, other} == {a, b} && one != other && a != b
    ensures (one == a && other == b) || (one == b && other == a)
  {
    assert one in {a, b} && other in {a, b};
  }

  lemma BestOf(m: Matching, before: seq<Slot>, after: seq<Slot>, translate: Translation) returns (best: Pairs)
    requires IsMatching(m, before, after, translate) && m.displaced == []
    ensures BestMatched(before, after, translate, m.inPlace, best) && forall p :: p in best ==> p in m.edited
  {
    assert m.Exact() == m.inPlace;
    var found, renamed, swapped :|
      AreStages(before, after, translate, m.Exact(), m.edited, m.cards, found, renamed, swapped);
    best := found;
  }

  lemma BetterIsClaimed(before: seq<Slot>, after: seq<Slot>, translate: Translation, exact: Pairs, best: Pairs,
                        one: nat, other: nat, j: nat)
    requires BestMatched(before, after, translate, exact, best) && StaysPut(before, translate)
    requires one < |before| && other < |before| && j < |after| && after[j].place == before[one].place
    requires one !in Olds(exact) && j !in News(exact)
    requires (forall i: nat :: i < |before| && i !in Olds(exact) ==> i == one || i == other)
    requires forall p :: p in best ==> (p.0 == one || p.0 == other) && p.1 == j
    requires before[one].card.weak.Some? && before[one].card.weak == after[j].card.weak
    requires before[other].card.weak == after[j].card.weak ==>
      !Before(Candidate(Similarity(before[other].card, after[j].card), other, j),
              Candidate(Similarity(before[one].card, after[j].card), one, j))
    ensures (one, j) in best
  {
    var c := Candidate(Similarity(before[one].card, after[j].card), one, j);
    assert IsCandidate(c, before, after, translate, Olds(exact), News(exact));
    var d :| IsCandidate(d, before, after, translate, Olds(exact), News(exact))
      && (d.i, d.j) in best && Before(d, c) && (d.i == c.i || d.j == c.j);
    assert (d.i, d.j).0 == one || (d.i, d.j).0 == other;
    assert d == Candidate(Similarity(before[d.i].card, after[j].card), d.i, j);
  }

  lemma ApartTail(m: Matching)
    requires Apart(m.All())
    ensures Apart(m.edited)
  {
    var n := |m.inPlace + m.displaced|;
    forall x, y | 0 <= x < y < |m.edited| ensures m.edited[x].0 != m.edited[y].0 && m.edited[x].1 != m.edited[y].1 {
      assert m.All()[n + x] == m.edited[x] && m.All()[n + y] == m.edited[y];
    }
  }

  /**
   * The card that stays is the one edited, and the other one is the one removed,
   * exactly where it has the larger share of its fields in common with what stands
   * there now, or the same and stood ahead - or where the other one is no candidate.
   */
  lemma CloserIsTheSurvivor(m: Matching, before: seq<Slot>, after: seq<Slot>, translate: Translation, kept: seq<nat>,
                            a: nat, b: nat, j: nat)
    requires IsMatching(m, before, after, translate) && StaysPut(before, translate)
    requires OneGoneOneEdited(before, after, kept, a, b, j)
    requires before[b].card.weak.Some? && before[b].card.weak == after[j].card.weak
    requires HasFields(before[a].card) && HasFields(before[b].card) && HasFields(after[j].card)
    ensures m.displaced == [] && m.added == []
    ensures var gone, stays, today := before[a].card, before[b].card, after[j].card;
      if gone.weak != today.weak || Closer(stays.body.fields, gone.body.fields, today.body.fields)
         || (AsClose(stays.body.fields, gone.body.fields, today.body.fields) && b < a)
      then m.edited == [(b, j)] && m.removed == [a] else m.edited == [(a, j)] && m.removed == [b]
  {
    CloserScoresHigher(before[b].card, before[a].card, after[j].card);
    OnlyTheTwo(m, before, after, translate, kept, a, b, j);
    if before[a].card.weak != after[j].card.weak
       || !Before(Candidate(Similarity(before[a].card, after[j].card), a, j),
                  Candidate(Similarity(before[b].card, after[j].card), b, j)) {
      BetterIsEdited(m, before, after, translate, kept, a, b, j, b, a);
      RestIs(m, before, after, translate, a, b, j);
    } else {
      BetterIsEdited(m, before, after, translate, kept, a, b, j, a, b);
      RestIs(m, before, after, translate, b, a, j);
    }
  }

  lemma RestIs(m: Matching, before: seq<Slot>, after: seq<Slot>, translate: Translation, gone: nat, stays: nat, j: nat)
    requires IsMatching(m, before, after, translate) && m.displaced == [] && m.edited == [(stays, j)]
    requires gone < |before| && gone != stays && j < |after|
    requires forall i: nat :: i in Olds(m.inPlace) <==> i < |before| && i != gone && i != stays
    requires forall k: nat :: k in News(m.inPlace) <==> k < |after| && k != j
    ensures m.removed == [gone] && m.added == []
  {
    RestOfAll(m.inPlace, m.displaced, m.edited, stays, j);
    OneOver(m.removed, |before|, Olds(m.All()), gone);
    NoneOver(m.added, |after|, News(m.All()));
  }

  lemma RestOfAll(inPlace: Pairs, displaced: Pairs, edited: Pairs, stays: nat, j: nat)
    requires displaced == [] && edited == [(stays, j)]
    ensures forall i :: i in Olds(inPlace + (displaced + edited)) <==> i in Olds(inPlace) || i == stays
    ensures forall k :: k in News(inPlace + (displaced + edited)) <==> k in News(inPlace) || k == j
  {
    OnePairsSides(edited, stays, j);
    assert displaced + edited == edited;
    forall q ensures q in inPlace + edited <==> q in inPlace || q in edited {
    }
    assert forall i :: i in Olds(inPlace + edited) <==> i in Olds(inPlace) || i in Olds(edited);
    assert forall k :: k in News(inPlace + edited) <==> k in News(inPlace) || k in News(edited);
  }

  lemma OneOver(rest: seq<nat>, n: nat, taken: set<nat>, gone: nat)
    requires rest == Rest(n, taken) && gone < n && forall i: nat :: i < n ==> (i in taken <==> i != gone)
    ensures rest == [gone]
  {
    OnlyOne(rest, gone);
  }

  lemma NoneOver(rest: seq<nat>, n: nat, taken: set<nat>)
    requires rest == Rest(n, taken) && forall i: nat :: i < n ==> i in taken
    ensures rest == []
  {
    FirstIn(rest);
  }

  lemma OnePairsSides(pairs: Pairs, i: nat, j: nat)
    requires pairs == [(i, j)]
    ensures Olds(pairs) == {i} && News(pairs) == {j}
  {
    assert forall q :: q in pairs <==> q == (i, j);
    assert (i, j).0 == i && (i, j).1 == j;
  }

  lemma OnlyOne(s: seq<nat>, x: nat)
    requires (forall i: nat :: i in s <==> i == x) && forall a, b :: 0 <= a < b < |s| ==> s[a] < s[b]
    ensures s == [x]
  {
    assert |s| <= 1 || s[0] < s[1];
    forall k | 0 <= k < |s| ensures s[k] == x {
      assert s[k] in s;
    }
    assert x in s;
  }

  // -- in a whole dashboard ----------------------------------------------

  /** The dashboard with the card at `a` of one list gone and another in the place of the one at `b`. */
  function Replaced(config: Config, v: nat, at: Location, a: nat, b: nat, card: Card): Config
    requires v < |config| && ListAt(config, v, at).Some? && b < |List(config, v, at)|
  {
    WithList(config, v, at, Staying(List(config, v, at)[b := card], {a}, |List(config, v, at)|))
  }

  lemma ViewsStay(config: Config, v: nat, at: Location, cards: seq<Card>, u: nat)
    requires Original(config, v, at) && u < |config|
    ensures Partner(config, WithList(config, v, at, cards), u) == if config[u].View? then Some(u) else None
  {
    var now := WithList(config, v, at, cards);
    OnlyTheList(config, v, at, cards);
    if config[u].View? {
      var w := ViewOf(now, Key(config, u), |now|);
      assert Key(now, u) == Key(config, u);
      if w.Some? {
        OneViewAKey(config, u, w.value);
      }
    }
  }

  /** Whatever is written in one list, every section is paired with itself. */
  lemma ListsStay(c: Comparison, config: Config, v: nat, at: Location, cards: seq<Card>)
    requires Original(config, v, at) && IsComparison(c, config, WithList(config, v, at, cards))
    ensures StaysPut(c.before, c.translate)
    ensures c.blocks == Blocks(config, Keys(config)) && c.before == Flat(c.blocks)
    ensures c.after == Flat(Blocks(WithList(config, v, at, cards), Keys(config)))
  {
    var now := WithList(config, v, at, cards);
    KeysStay(config, v, at, cards);
    ComparedOver(c, config, now);
    PairedStill(c.pairings, config, v, at, cards);
    TranslationStays(config, c.pairings, |config|);
    SlotsStay(c.before, c.translate);
  }

  lemma KeysStay(config: Config, v: nat, at: Location, cards: seq<Card>)
    requires v < |config| && ListAt(config, v, at).Some?
    ensures Shared(config, WithList(config, v, at, cards)) == Keys(config)
  {
    OnlyTheList(config, v, at, cards);
  }

  /** What a comparison of two states with the same views compares. */
  lemma ComparedOver(c: Comparison, config: Config, now: Config)
    requires IsComparison(c, config, now) && Shared(config, now) == Keys(config)
    ensures ArePairings(c.pairings, config, now, |config|) && c.translate == TranslationOf(config, c.pairings, |config|)
    ensures c.blocks == Blocks(config, Keys(config)) && c.before == Flat(c.blocks)
    ensures c.after == Flat(Blocks(now, Keys(config)))
  {
  }

  lemma PairedStill(pairings: Pairings, config: Config, v: nat, at: Location, cards: seq<Card>)
    requires Original(config, v, at) && ArePairings(pairings, config, WithList(config, v, at, cards), |config|)
    ensures forall u: nat :: u in pairings ==>
      u < |config| && config[u].View? && AtHome(pairings[u], |config[u].sections|)
  {
    forall u: nat | u in pairings
      ensures u < |config| && config[u].View? && AtHome(pairings[u], |config[u].sections|)
    {
      ViewsStay(config, v, at, cards, u);
      var s := OnlyThatSection(config, v, at, cards, u);
      PairedAtHome(pairings[u], config[u].sections, WithList(config, v, at, cards)[u].sections, s);
    }
  }

  /** One list with as many cards written anew: slot for slot the same, but for its cards. */
  predicate SameSlotsBut(slots: seq<Slot>, other: seq<Slot>, place: Place, now: seq<Card>) {
    && |slots| == |other|
    && (forall i :: 0 <= i < |slots| ==> other[i].place == slots[i].place && other[i].index == slots[i].index)
    && (forall i :: 0 <= i < |slots| && slots[i].place != place ==> other[i].card == slots[i].card)
    && (forall i :: 0 <= i < |slots| && slots[i].place == place ==>
          slots[i].index < |now| && other[i].card == now[slots[i].index])
  }

  lemma {:induction false} FlatWritten(blocks: seq<Block>, other: seq<Block>, place: Place, was: seq<Card>,
                                       now: seq<Card>)
    requires SameBut(blocks, other, place, was, now) && |was| == |now|
    ensures SameSlotsBut(Flat(blocks), Flat(other), place, now)
  {
    if blocks != [] {
      FlatWritten(blocks[1..], other[1..], place, was, now);
      assert SameSlotsBut(ListSlots(blocks[0]), ListSlots(other[0]), place, now);
      JoinSlots(ListSlots(blocks[0]), ListSlots(other[0]), Flat(blocks[1..]), Flat(other[1..]), place, now);
    }
  }

  lemma JoinSlots(a: seq<Slot>, otherA: seq<Slot>, b: seq<Slot>, otherB: seq<Slot>, place: Place, now: seq<Card>)
    requires SameSlotsBut(a, otherA, place, now) && SameSlotsBut(b, otherB, place, now)
    ensures SameSlotsBut(a + b, otherA + otherB, place, now)
  {
  }

  /** The slots of the two states, by way of the one in which the card is replaced and none is gone. */
  lemma SlotsReplaced(config: Config, v: nat, at: Location, a: nat, b: nat, card: Card)
    returns (kept: seq<nat>, between: seq<Slot>)
    requires Original(config, v, at) && a < |List(config, v, at)| && b < |List(config, v, at)|
    ensures var place := PlaceOf(config, v, at);
      && SameSlotsBut(Flat(Blocks(config, Keys(config))), between, place, List(config, v, at)[b := card])
      && KeepsAllBut(between, Flat(Blocks(Replaced(config, v, at, a, b, card), Keys(config))), kept, map[place := {a}])
  {
    var place, was := PlaceOf(config, v, at), List(config, v, at);
    var cards := was[b := card];
    var edited := WithList(config, v, at, cards);
    OnlyTheList(config, v, at, cards);
    BlocksBut(config, v, at, cards, Keys(config));
    between := Flat(Blocks(edited, Keys(config)));
    FlatWritten(Blocks(config, Keys(config)), Blocks(edited, Keys(config)), place, was, cards);
    NoneShareStill(config, v, at, cards);
    BlocksBut(edited, v, at, Staying(cards, {a}, |cards|), Keys(config));
    OneThinned(Blocks(edited, Keys(config)), Blocks(Replaced(config, v, at, a, b, card), Keys(config)), place, cards,
               {a});
    kept := FlatKept(Blocks(edited, Keys(config)), Blocks(Replaced(config, v, at, a, b, card), Keys(config)),
                     map[place := {a}]);
  }

  lemma NoneShareStill(config: Config, v: nat, at: Location, cards: seq<Card>)
    requires Original(config, v, at)
    ensures !PathsShare(WithList(config, v, at, cards))
  {
    OnlyTheList(config, v, at, cards);
  }

  lemma TheListDiffers(config: Config, v: nat, at: Location, i: nat, card: Card)
    requires Original(config, v, at) && card !in List(config, v, at)
    requires i < |Flat(Blocks(config, Keys(config)))|
    requires Flat(Blocks(config, Keys(config)))[i].place == PlaceOf(config, v, at)
    ensures AllNew(Flat(Blocks(config, Keys(config))), i, card)
  {
    var blocks := Blocks(config, Keys(config));
    var cards := List(config, v, at);
    BlocksBut(config, v, at, cards, Keys(config));
    BlocksApart(config, Keys(config));
    ListIsDifferent(blocks, Blocks(WithList(config, v, at, cards), Keys(config)), config, v, at, cards);
    assert DifferentWhereGone(Flat(blocks), Only(config, v, at, {}));
    forall k: nat | k < |Flat(blocks)| && Flat(blocks)[k].place == PlaceOf(config, v, at)
      ensures Flat(blocks)[k].card != card
    {
      SlotOfTheList(blocks, Blocks(WithList(config, v, at, cards), Keys(config)), config, v, at, cards, k);
    }
  }

  /** By place and index a slot is found once. */
  lemma OneSlotThere(slots: seq<Slot>, i: nat, k: nat)
    requires Written(slots) && i < |slots| && k < |slots|
    requires slots[i].place == slots[k].place && slots[i].index == slots[k].index
    ensures i == k
  {
  }

  lemma OneGoneIs(before: seq<Slot>, between: seq<Slot>, after: seq<Slot>, kept: seq<nat>, place: Place,
                  cards: seq<Card>, i: nat, k: nat, b: nat, card: Card) returns (j: nat)
    requires SameSlotsBut(before, between, place, cards) && Written(before)
    requires i < |before| && k < |before| && i != k && before[i].place == before[k].place == place
    requires before[k].index == b
    requires b < |cards| && cards[b] == card
    requires forall x: nat :: x < |before| && before[x].place == place && x != k ==>
      cards[before[x].index] == before[x].card
    requires KeepsAllBut(between, after, kept, map[place := {before[i].index}])
    requires AllNew(before, i, card)
    ensures OneGoneOneEdited(before, after, kept, i, k, j) && after[j].card == card
  {
    forall x: nat | x < |before| ensures x in kept <==> x != i {
      GoneThere(before, between, place, cards, i, x);
    }
    j :| 0 <= j < |kept| && kept[j] == k;
    forall q | 0 <= q < |kept| && q != j ensures after[q].card == before[kept[q]].card {
      assert q < j ==> kept[q] < kept[j];
      assert j < q ==> kept[j] < kept[q];
    }
  }

  lemma GoneThere(before: seq<Slot>, between: seq<Slot>, place: Place, cards: seq<Card>, i: nat, x: nat)
    requires SameSlotsBut(before, between, place, cards) && Written(before)
    requires i < |before| && x < |before| && before[i].place == place
    ensures IsGone(between[x], map[place := {before[i].index}]) <==> x == i
  {
    if before[x].place == place && before[x].index == before[i].index {
      OneSlotThere(before, x, i);
    }
  }

  /**
   * Two cards of one weak key in a list of a dashboard: one goes, the other is edited.
   * The one edited is the one with the larger share of its fields in common with the
   * new card - or the same share and further ahead - and the other one is reported removed.
   */
  lemma EditIsSeen(c: Comparison, config: Config, v: nat, at: Location, a: nat, b: nat, card: Card)
    returns (i: nat, k: nat, j: nat)
    requires Original(config, v, at) && a < |List(config, v, at)| && b < |List(config, v, at)| && a != b
    requires card !in List(config, v, at) && card.weak.Some? && List(config, v, at)[b].weak == card.weak
    requires HasFields(card) && HasFields(List(config, v, at)[a]) && HasFields(List(config, v, at)[b])
    requires IsComparison(c, config, Replaced(config, v, at, a, b, card))
    ensures i < |c.before| && c.before[i] == Slot(PlaceOf(config, v, at), a, List(config, v, at)[a])
    ensures k < |c.before| && c.before[k] == Slot(PlaceOf(config, v, at), b, List(config, v, at)[b])
    ensures j < |c.after| && c.after[j].place == PlaceOf(config, v, at) && c.after[j].card == card
    ensures c.cards.displaced == [] && c.cards.added == []
    ensures var gone, stays := List(config, v, at)[a], List(config, v, at)[b];
      if gone.weak != card.weak || Closer(stays.body.fields, gone.body.fields, card.body.fields)
         || (AsClose(stays.body.fields, gone.body.fields, card.body.fields) && b < a)
      then c.cards.edited == [(k, j)] && c.cards.removed == [i]
      else c.cards.edited == [(i, j)] && c.cards.removed == [k]
  {
    var cards := List(config, v, at)[b := card];
    ListsStay(c, config, v, at, Staying(cards, {a}, |cards|));
    i := SlotOf(config, v, at, a);
    k := SlotOf(config, v, at, b);
    var kept, between := SlotsReplaced(config, v, at, a, b, card);
    BlocksApart(config, Keys(config));
    FlatIsWritten(Blocks(config, Keys(config)));
    TheListDiffers(config, v, at, i, card);
    OthersKeep(config, v, at, b, card, k);
    j := OneGoneIs(c.before, between, c.after, kept, PlaceOf(config, v, at), cards, i, k, b, card);
    CloserIsTheSurvivor(c.cards, c.before, c.after, c.translate, kept, i, k, j);
    WrittenOrder(c.before, i, k);
  }

  lemma WrittenOrder(slots: seq<Slot>, i: nat, k: nat)
    requires Written(slots) && i < |slots| && k < |slots| && i != k && slots[i].place == slots[k].place
    ensures k < i <==> slots[k].index < slots[i].index
  {
  }

  lemma OthersKeep(config: Config, v: nat, at: Location, b: nat, card: Card, k: nat)
    requires Original(config, v, at) && b < |List(config, v, at)|
    requires var slots := Flat(Blocks(config, Keys(config)));
      k < |slots| && slots[k].place == PlaceOf(config, v, at) && slots[k].index == b && Written(slots)
    ensures var slots := Flat(Blocks(config, Keys(config)));
      forall x: nat :: x < |slots| && slots[x].place == PlaceOf(config, v, at) && x != k ==>
        slots[x].index < |List(config, v, at)| && List(config, v, at)[b := card][slots[x].index] == slots[x].card
  {
    var blocks, cards := Blocks(config, Keys(config)), List(config, v, at);
    BlocksBut(config, v, at, cards, Keys(config));
    forall x: nat | x < |Flat(blocks)| && Flat(blocks)[x].place == PlaceOf(config, v, at) && x != k
      ensures Flat(blocks)[x].index < |cards| && cards[b := card][Flat(blocks)[x].index] == Flat(blocks)[x].card
    {
      SlotOfTheList(blocks, Blocks(WithList(config, v, at, cards), Keys(config)), config, v, at, cards, x);
      if Flat(blocks)[x].index == b {
        OneSlotThere(Flat(blocks), x, k);
      }
    }
  }

  // -- the only one of its kind left -------------------------------------

  /** A card whose weak key is its title, name or heading. */
  predicate IsTextCard(card: Card, kind: string) {
    card.weak.Some? && card.weak.value.kind == kind
    && (card.weak.value.field == "title" || card.weak.value.field == "name" || card.weak.value.field == "heading")
  }

  /** An old card of the list nobody claimed, outside sections nothing paired. */
  predicate LeftOld(before: seq<Slot>, translate: Translation, claimed: Pairs, place: Place, x: nat) {
    && x < |before| && Translated(before[x], translate) == place
    && x !in Olds(claimed) && !Unpaired(before[x], translate)
  }

  predicate LeftNew(after: seq<Slot>, claimed: Pairs, place: Place, y: nat) {
    y < |after| && after[y].place == place && y !in News(claimed)
  }

  /** The one text card of the kind left in the list before, and the one left in it now. */
  ghost predicate OnlyTexts(before: seq<Slot>, after: seq<Slot>, translate: Translation, claimed: Pairs,
                            place: Place, kind: string, i: nat, j: nat)
  {
    && (forall x: nat :: LeftOld(before, translate, claimed, place, x) && IsTextCard(before[x].card, kind) <==> x == i)
    && (forall y: nat :: LeftNew(after, claimed, place, y) && IsTextCard(after[y].card, kind) <==> y == j)
  }

  /** The one card alike in all but its entity left in the list before, and the one left in it now. */
  ghost predicate OnlySiblings(before: seq<Slot>, after: seq<Slot>, translate: Translation, claimed: Pairs,
                               place: Place, sibling: Sibling, i: nat, j: nat)
  {
    && (forall x: nat ::
          LeftOld(before, translate, claimed, place, x) && before[x].card.sibling == Some(sibling) <==> x == i)
    && (forall y: nat :: LeftNew(after, claimed, place, y) && after[y].card.sibling == Some(sibling) <==> y == j)
  }

  predicate InGroup<G(==)>(groups: seq<Option<G>>, group: G, x: nat) {
    x < |groups| && groups[x] == Some(group)
  }

  lemma GroupIsOne<G>(groups: seq<Option<G>>, group: G, i: nat)
    ensures Having(groups, Some(group)) == {i} <==> forall x: nat :: InGroup(groups, group, x) <==> x == i
  {
    var having := Having(groups, Some(group));
    forall x: nat ensures x in having <==> InGroup(groups, group, x) {
    }
    if forall x: nat :: InGroup(groups, group, x) <==> x == i {
      assert InGroup(groups, group, i);
      assert forall x :: x in having ==> InGroup(groups, group, x);
    } else {
      var x: nat :| InGroup(groups, group, x) != (x == i);
      assert (x in having) != (x in {i});
    }
  }

  lemma TextGroupOld(before: seq<Slot>, translate: Translation, claimed: Pairs, place: Place, kind: string, x: nat)
    requires x < |before|
    ensures var olds := TextGroups(before, OldPlaces(before, translate),
                                   Olds(claimed) + UnpairedSlots(before, translate));
      InGroup(olds, (place, kind), x) <==>
        LeftOld(before, translate, claimed, place, x) && IsTextCard(before[x].card, kind)
  {
    assert x in UnpairedSlots(before, translate) <==> Unpaired(before[x], translate);
  }

  lemma TextGroupNew(after: seq<Slot>, claimed: Pairs, place: Place, kind: string, y: nat)
    requires y < |after|
    ensures InGroup(TextGroups(after, NewPlaces(after), News(claimed)), (place, kind), y) <==>
      LeftNew(after, claimed, place, y) && IsTextCard(after[y].card, kind)
  {
  }

  lemma TextsAre(before: seq<Slot>, after: seq<Slot>, translate: Translation, claimed: Pairs,
                 place: Place, kind: string, i: nat, j: nat)
    ensures var olds := TextGroups(before, OldPlaces(before, translate),
                                   Olds(claimed) + UnpairedSlots(before, translate));
      var news := TextGroups(after, NewPlaces(after), News(claimed));
      OnlyTexts(before, after, translate, claimed, place, kind, i, j) <==>
        Having(olds, Some((place, kind))) == {i} && Having(news, Some((place, kind))) == {j}
  {
    var olds := TextGroups(before, OldPlaces(before, translate), Olds(claimed) + UnpairedSlots(before, translate));
    var news := TextGroups(after, NewPlaces(after), News(claimed));
    GroupIsOne(olds, (place, kind), i);
    GroupIsOne(news, (place, kind), j);
    forall x: nat ensures InGroup(olds, (place, kind), x) <==>
      LeftOld(before, translate, claimed, place, x) && IsTextCard(before[x].card, kind)
    {
      if x < |before| {
        TextGroupOld(before, translate, claimed, place, kind, x);
      }
    }
    forall y: nat ensures InGroup(news, (place, kind), y) <==>
      LeftNew(after, claimed, place, y) && IsTextCard(after[y].card, kind)
    {
      if y < |after| {
        TextGroupNew(after, claimed, place, kind, y);
      }
    }
  }

  /** Renamed are exactly the one text card of a kind left in a list before and the one left in it now. */
  lemma RenamedExactly(before: seq<Slot>, after: seq<Slot>, translate: Translation, claimed: Pairs, i: nat, j: nat)
    ensures OnlyRenamed(before, after, translate, claimed, i, j) <==>
      exists place, kind :: OnlyTexts(before, after, translate, claimed, place, kind, i, j)
  {
    var olds := TextGroups(before, OldPlaces(before, translate), Olds(claimed) + UnpairedSlots(before, translate));
    if OnlyRenamed(before, after, translate, claimed, i, j) {
      TextsAre(before, after, translate, claimed, olds[i].value.0, olds[i].value.1, i, j);
    }
    if place, kind :| OnlyTexts(before, after, translate, claimed, place, kind, i, j) {
      TextsAre(before, after, translate, claimed, place, kind, i, j);
      assert i in Having(olds, Some((place, kind)));
      assert j in Having(TextGroups(after, NewPlaces(after), News(claimed)), Some((place, kind)));
    }
  }

  lemma SiblingsAre(before: seq<Slot>, after: seq<Slot>, translate: Translation, claimed: Pairs,
                    place: Place, sibling: Sibling, i: nat, j: nat)
    ensures var olds := SiblingGroups(before, OldPlaces(before, translate),
                                      Olds(claimed) + UnpairedSlots(before, translate));
      var news := SiblingGroups(after, NewPlaces(after), News(claimed));
      OnlySiblings(before, after, translate, claimed, place, sibling, i, j) <==>
        Having(olds, Some((place, sibling))) == {i} && Having(news, Some((place, sibling))) == {j}
  {
    var olds := SiblingGroups(before, OldPlaces(before, translate), Olds(claimed) + UnpairedSlots(before, translate));
    var news := SiblingGroups(after, NewPlaces(after), News(claimed));
    GroupIsOne(olds, (place, sibling), i);
    GroupIsOne(news, (place, sibling), j);
    forall x: nat ensures InGroup(olds, (place, sibling), x) <==>
      LeftOld(before, translate, claimed, place, x) && before[x].card.sibling == Some(sibling)
    {
      if x < |before| {
        SiblingGroupOld(before, translate, claimed, place, sibling, x);
      }
    }
    forall y: nat ensures InGroup(news, (place, sibling), y) <==>
      LeftNew(after, claimed, place, y) && after[y].card.sibling == Some(sibling)
    {
      if y < |after| {
        SiblingGroupNew(after, claimed, place, sibling, y);
      }
    }
  }

  lemma SiblingGroupOld(before: seq<Slot>, translate: Translation, claimed: Pairs, place: Place, sibling: Sibling,
                        x: nat)
    requires x < |before|
    ensures var olds := SiblingGroups(before, OldPlaces(before, translate),
                                      Olds(claimed) + UnpairedSlots(before, translate));
      InGroup(olds, (place, sibling), x) <==>
        LeftOld(before, translate, claimed, place, x) && before[x].card.sibling == Some(sibling)
  {
    assert x in UnpairedSlots(before, translate) <==> Unpaired(before[x], translate);
  }

  lemma SiblingGroupNew(after: seq<Slot>, claimed: Pairs, place: Place, sibling: Sibling, y: nat)
    requires y < |after|
    ensures InGroup(SiblingGroups(after, NewPlaces(after), News(claimed)), (place, sibling), y) <==>
      LeftNew(after, claimed, place, y) && after[y].card.sibling == Some(sibling)
  {
  }

  /** Swapped are exactly the one card alike in all but its entity left in a list before and the one left in it now. */
  lemma SwappedExactly(before: seq<Slot>, after: seq<Slot>, translate: Translation, claimed: Pairs, i: nat, j: nat)
    ensures OnlySwapped(before, after, translate, claimed, i, j) <==>
      exists place, sibling :: OnlySiblings(before, after, translate, claimed, place, sibling, i, j)
  {
    var olds := SiblingGroups(before, OldPlaces(before, translate), Olds(claimed) + UnpairedSlots(before, translate));
    if OnlySwapped(before, after, translate, claimed, i, j) {
      SiblingsAre(before, after, translate, claimed, olds[i].value.0, olds[i].value.1, i, j);
    }
    if place, sibling :| OnlySiblings(before, after, translate, claimed, place, sibling, i, j) {
      SiblingsAre(before, after, translate, claimed, place, sibling, i, j);
      assert i in Having(olds, Some((place, sibling)));
      assert j in Having(SiblingGroups(after, NewPlaces(after), News(claimed)), Some((place, sibling)));
    }
  }
}
