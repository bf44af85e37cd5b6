/** Pairing one view's sections across two states, outside in. */
module SectionPairs {
  import opened Wrappers
  import opened Claims
  import opened CardMatching

  /** A section: its own settings, and its cards where it has a list of them. */
  datatype Section = Section(own: string, cards: Option<seq<Card>>) | Stray(text: string)

  function CardsOf(section: Section): seq<Card> {
    if section.Section? && section.cards.Some? then section.cards.value else []
  }

  /** The pairs by the pass that found them. */
  datatype SectionPairing = SectionPairing(same: Pairs, found: Pairs, settings: Pairs, cards: Pairs)
  {
    function Identical(): Pairs { same + found }
    function All(): Pairs { same + found + (settings + cards) }
  }

  function Min(a: nat, b: nat): nat {
    if a < b then a else b
  }

  function Counting(n: nat): (order: seq<nat>)
    ensures |order| == n && forall i :: 0 <= i < n ==> order[i] == i
  {
    seq(n, i requires 0 <= i < n => i)
  }

  predicate SettingsChanged(one: Section, other: Section) {
    one.Section? && other.Section? && one.cards == other.cards && one.own != other.own
  }

  predicate CardsChanged(one: Section, other: Section) {
    one.Section? && other.Section? && one.own == other.own && one.cards != other.cards
  }

  /** An index both states have and no identical pair has taken on either side. */
  predicate Open(i: nat, olds: seq<Section>, news: seq<Section>, identical: Pairs) {
    i < Min(|olds|, |news|) && i !in Olds(identical) && i !in News(identical)
  }

  /**
   * Identical at the same index; identical anywhere, first free first; and at the
   * same index only, the same cards under other settings or the same settings
   * over other cards.
   */
  ghost predicate IsPairing(p: SectionPairing, olds: seq<Section>, news: seq<Section>) {
    && Apart(p.All())
    && IsSame(p.same, olds, news)
    && p.found == Claimed(Counting(|olds|), olds, news, Olds(p.same), News(p.same))
    && IsSettings(p.settings, olds, news, p.Identical())
    && IsCards(p.cards, olds, news, p.Identical())
  }

  ghost predicate IsSame(same: Pairs, olds: seq<Section>, news: seq<Section>) {
    forall i: nat, j: nat :: (i, j) in same <==> i == j && i < Min(|olds|, |news|) && olds[i] == news[i]
  }

  ghost predicate IsSettings(pairs: Pairs, olds: seq<Section>, news: seq<Section>, identical: Pairs) {
    forall i: nat, j: nat :: (i, j) in pairs <==>
      i == j && Open(i, olds, news, identical) && SettingsChanged(olds[i], news[i])
  }

  ghost predicate IsCards(pairs: Pairs, olds: seq<Section>, news: seq<Section>, identical: Pairs) {
    forall i: nat, j: nat :: (i, j) in pairs <==>
      i == j && Open(i, olds, news, identical) && CardsChanged(olds[i], news[i])
  }

  method PairViewSections(olds: seq<Section>, news: seq<Section>) returns (p: SectionPairing)
    ensures IsPairing(p, olds, news)
  {
    var n := Min(|olds|, |news|);
    var same: Pairs := [];
    for i := 0 to n
      invariant forall a: nat, b: nat :: (a, b) in same <==> a == b && a < i && olds[a] == news[a]
      invariant Apart(same)
    {
      if olds[i] == news[i] {
        assert forall k :: 0 <= k < |same| ==> same[k] in same;
        same := same + [(i, i)];
      }
    }
    var found := Pass(Counting(|olds|), olds, news, Olds(same), News(same));
    ClaimedIsSound(Counting(|olds|), olds, news, Olds(same), News(same));
    JoinApart(same, found);
    var settings, cards := ChangedInPlace(olds, news, same + found);
    p := SectionPairing(same, found, settings, cards);
  }

  /** The ordinary save: a card edited inside a section, or the section's own settings. */
  method ChangedInPlace(olds: seq<Section>, news: seq<Section>, identical: Pairs)
    returns (settings: Pairs, cards: Pairs)
    requires Apart(identical)
    ensures IsSettings(settings, olds, news, identical) && IsCards(cards, olds, news, identical)
    ensures Apart(identical + (settings + cards))
  {
    settings, cards := [], [];
    for i := 0 to Min(|olds|, |news|)
      invariant forall a: nat, b: nat ::
        (a, b) in settings <==> a == b && a < i && Open(a, olds, news, identical) && SettingsChanged(olds[a], news[a])
      invariant forall a: nat, b: nat ::
        (a, b) in cards <==> a == b && a < i && Open(a, olds, news, identical) && CardsChanged(olds[a], news[a])
      invariant Apart(settings) && Apart(cards)
    {
      if !Open(i, olds, news, identical) {
        continue;
      }
      assert forall k :: 0 <= k < |settings| ==> settings[k] in settings;
      assert forall k :: 0 <= k < |cards| ==> cards[k] in cards;
      if SettingsChanged(olds[i], news[i]) {
        settings := settings + [(i, i)];
      } else if CardsChanged(olds[i], news[i]) {
        cards := cards + [(i, i)];
      }
    }
    JoinApart(settings, cards);
    assert forall q :: q in settings + cards ==> q in settings || q in cards;
    JoinApart(identical, settings + cards);
  }

  /** Where each paired section went. */
  function Went(pairs: Pairs): (went: map<nat, nat>)
    ensures went.Keys == Olds(pairs)
    ensures forall i :: i in went ==> (i, went[i]) in pairs
  {
    if pairs == [] then map[]
    else
      var n := |pairs| - 1;
      assert pairs == pairs[..n] + [pairs[n]];
      Went(pairs[..n])[pairs[n].0 := pairs[n].1]
  }

  /** What is left over on both sides has no twin on the other. */
  lemma NoTwinLeft(p: SectionPairing, olds: seq<Section>, news: seq<Section>, i: nat, j: nat)
    requires IsPairing(p, olds, news)
    requires i < |olds| && j < |news| && i !in Olds(p.All()) && j !in News(p.All())
    ensures olds[i] != news[j]
  {
    assert forall q :: q in p.same || q in p.found ==> q in p.All();
    assert Counting(|olds|)[i] == i;
    if olds[i] == news[j] {
      ClaimedIsMaximal(Counting(|olds|), olds, news, Olds(p.same), News(p.same), i, j);
    }
  }

  lemma FoundNothing(p: SectionPairing, olds: seq<Section>, news: seq<Section>, s: nat)
    requires IsPairing(p, olds, news) && |olds| == |news|
    requires forall i :: 0 <= i < |olds| && i != s ==> olds[i] == news[i]
    ensures p.found == []
  {
    ClaimedIsSound(Counting(|olds|), olds, news, Olds(p.same), News(p.same));
    forall q ensures q !in p.found {
      if q.0 < |olds| && q.1 < |news| && olds[q.0] == news[q.1] {
        OneOfThemTaken(p.same, olds, news, s, q);
      }
    }
    FirstIn(p.found);
  }

  lemma OneOfThemTaken(same: Pairs, olds: seq<Section>, news: seq<Section>, s: nat, q: (nat, nat))
    requires IsSame(same, olds, news) && |olds| == |news|
    requires forall i :: 0 <= i < |olds| && i != s ==> olds[i] == news[i]
    requires q.0 < |olds| && q.1 < |news| && olds[q.0] == news[q.1]
    ensures q.0 in Olds(same) || q.1 in News(same)
  {
    var i := if q.0 != s then q.0 else q.1;
    assert (i, i) in same;
  }

  /** One of the two things an ordinary save changes of a section. */
  predicate ChangedOneWay(one: Section, other: Section) {
    CardsChanged(one, other) || SettingsChanged(one, other)
  }

  /** Where only one section's cards or settings differ, every section is found at its own index. */
  lemma OneSectionsCards(p: SectionPairing, olds: seq<Section>, news: seq<Section>, s: nat)
    requires IsPairing(p, olds, news) && |olds| == |news|
    requires forall i :: 0 <= i < |olds| && i != s ==> olds[i] == news[i]
    requires s < |olds| ==> olds[s] == news[s] || ChangedOneWay(olds[s], news[s])
    ensures forall i: nat :: i < |olds| <==> i in Went(p.All())
    ensures forall i: nat :: i in Went(p.All()) ==> Went(p.All())[i] == i
  {
    FoundNothing(p, olds, news, s);
    forall i: nat | i < |olds| ensures (i, i) in p.All() {
      Diagonal(p, olds, news, s, i);
    }
    forall q | q in p.All() ensures q.0 == q.1 && q.0 < |olds| {
      assert q in p.same || q in p.settings || q in p.cards;
      assert (q.0, q.1) == q;
    }
    AllAtHome(p.All(), |olds|);
  }

  lemma AllAtHome(pairs: Pairs, n: nat)
    requires forall i: nat :: i < n ==> (i, i) in pairs
    requires forall q :: q in pairs ==> q.0 == q.1 && q.0 < n
    ensures forall i: nat :: i < n <==> i in Went(pairs)
    ensures forall i: nat :: i in Went(pairs) ==> Went(pairs)[i] == i
  {
    forall i: nat | i < n ensures i in Went(pairs) {
      assert (i, i) in pairs;
      assert i in Olds(pairs);
    }
  }

  lemma Diagonal(p: SectionPairing, olds: seq<Section>, news: seq<Section>, s: nat, i: nat)
    requires IsPairing(p, olds, news) && |olds| == |news| && p.found == []
    requires i < |olds| && (i != s ==> olds[i] == news[i])
    requires olds[i] == news[i] || ChangedOneWay(olds[i], news[i])
    ensures (i, i) in p.All()
  {
    if olds[i] == news[i] {
      assert (i, i) in p.same;
    } else {
      assert p.Identical() == p.same;
      NotTaken(p.same, olds, news, i);
      assert (i, i) in p.cards || (i, i) in p.settings;
    }
  }

  lemma NotTaken(same: Pairs, olds: seq<Section>, news: seq<Section>, i: nat)
    requires IsSame(same, olds, news) && i < |olds| == |news| && olds[i] != news[i]
    ensures Open(i, olds, news, same)
  {
    forall q | q in same ensures q.0 != i && q.1 != i {
      assert (q.0, q.1) == q;
    }
  }
}
