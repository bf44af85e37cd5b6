/** Cards deleted from any number of lists at once, as the comparison of two whole dashboards sees them. */
module Deletions {
  import opened Wrappers
  import opened Sequences
  import opened Claims
  import opened CardMatching
  import opened SectionPairs
  import opened Dashboard
  import opened FindRemoved
  import opened RoundTrip
  import opened Following

  // -- the dashboard without them ----------------------------------------

  function ThinList(cards: seq<Card>, gone: set<nat>): seq<Card> {
    Staying(cards, gone, |cards|)
  }

  function ThinSection(section: Section, place: Place, gone: Losses): (thin: Section)
    ensures thin.Section? == section.Section? && (section.Section? ==> thin.cards.Some? == section.cards.Some?)
  {
    if section.Section? && section.cards.Some? then
      section.(cards := Some(ThinList(section.cards.value, GoneAt(gone, place))))
    else section
  }

  function ThinSections(sections: seq<Section>, key: ViewKey, gone: Losses): (thin: seq<Section>)
    ensures |thin| == |sections|
    ensures forall s :: 0 <= s < |sections| ==> thin[s] == ThinSection(sections[s], Place(key, SectionCards(s)), gone)
  {
    seq(|sections|, s requires 0 <= s < |sections| => ThinSection(sections[s], Place(key, SectionCards(s)), gone))
  }

  function ThinView(view: View, key: ViewKey, gone: Losses): View
    requires view.View?
  {
    var cards := if view.cards.Some? then Some(ThinList(view.cards.value, GoneAt(gone, Place(key, Cards)))) else None;
    view.(cards := cards, sections := ThinSections(view.sections, key, gone))
  }

  /** The dashboard without the cards that are gone. */
  function WithoutAll(config: Config, gone: Losses): (thin: Config)
    ensures |thin| == |config|
    ensures forall u: nat :: u < |config| ==>
      thin[u] == if config[u].View? then ThinView(config[u], Key(config, u), gone) else config[u]
  {
    seq(|config|, u requires 0 <= u < |config| =>
      if config[u].View? then ThinView(config[u], Key(config, u), gone) else config[u])
  }

  lemma SameOutside(config: Config, gone: Losses)
    ensures var thin := WithoutAll(config, gone);
      && (forall u: nat :: u < |config| ==> thin[u].View? == config[u].View?)
      && (forall u: nat :: u < |config| && config[u].View? ==>
            Key(thin, u) == Key(config, u) && Layout(thin[u]) == Layout(config[u]) && thin[u].path == config[u].path)
      && Keys(thin) == Keys(config) && Shared(config, thin) == Keys(config) && PathsShare(thin) == PathsShare(config)
  {
    var thin := WithoutAll(config, gone);
    assert forall u: nat :: u < |config| && config[u].View? ==> Key(thin, u) == Key(config, u);
  }

  lemma {:induction false} SectionBlocksThinned(home: nat, key: ViewKey, sections: seq<Section>, gone: Losses,
                                                from: nat)
    requires from <= |sections|
    ensures AllThinned(SectionBlocks(home, key, sections, from),
                       SectionBlocks(home, key, ThinSections(sections, key, gone), from), gone)
    decreases |sections| - from
  {
    if from < |sections| {
      SectionBlocksThinned(home, key, sections, gone, from + 1);
    }
  }

  lemma JoinThinned(a: seq<Block>, otherA: seq<Block>, b: seq<Block>, otherB: seq<Block>, gone: Losses)
    requires AllThinned(a, otherA, gone) && AllThinned(b, otherB, gone)
    ensures AllThinned(a + b, otherA + otherB, gone)
  {
  }

  lemma ViewBlocksThinned(config: Config, gone: Losses, u: nat)
    requires u < |config| && config[u].View?
    ensures AllThinned(ViewBlocks(config, u), ViewBlocks(WithoutAll(config, gone), u), gone)
  {
    SameOutside(config, gone);
    var thin, key := WithoutAll(config, gone), Key(config, u);
    SectionBlocksThinned(u, key, config[u].sections, gone, 0);
    var first := if config[u].cards.Some? then [Block(u, Place(key, Cards), config[u].cards.value)] else [];
    var other := if thin[u].cards.Some? then [Block(u, Place(key, Cards), thin[u].cards.value)] else [];
    JoinThinned(first, other, SectionBlocks(u, key, config[u].sections, 0),
                SectionBlocks(u, key, thin[u].sections, 0), gone);
  }

  lemma {:induction false} ConcatThinned(lists: seq<seq<Block>>, others: seq<seq<Block>>, gone: Losses)
    requires |lists| == |others| && forall k :: 0 <= k < |lists| ==> AllThinned(lists[k], others[k], gone)
    ensures AllThinned(Concat(lists), Concat(others), gone)
  {
    if lists != [] {
      ConcatThinned(lists[1..], others[1..], gone);
      JoinThinned(lists[0], others[0], Concat(lists[1..]), Concat(others[1..]), gone);
    }
  }

  lemma BlocksThinned(config: Config, gone: Losses, keys: set<ViewKey>)
    ensures AllThinned(Blocks(config, keys), Blocks(WithoutAll(config, gone), keys), gone)
  {
    var thin := WithoutAll(config, gone);
    SameOutside(config, gone);
    forall u: nat | u < |config| ensures AllThinned(NamedBlocks(config, keys, u), NamedBlocks(thin, keys, u), gone) {
      if config[u].View? {
        ViewBlocksThinned(config, gone, u);
      }
    }
    ConcatThinned(BlocksByView(config, keys), BlocksByView(thin, keys), gone);
  }

  // -- no list holds a card twice ----------------------------------------

  predicate NoListTwice(config: Config) {
    forall u: nat :: u < |config| && config[u].View? ==>
      (config[u].cards.Some? ==> AllDifferent(config[u].cards.value))
      && forall s :: 0 <= s < |config[u].sections| ==> AllDifferent(CardsOf(config[u].sections[s]))
  }

  lemma {:induction false} SectionBlocksDiffer(home: nat, key: ViewKey, sections: seq<Section>, from: nat)
    requires from <= |sections| && forall s :: 0 <= s < |sections| ==> AllDifferent(CardsOf(sections[s]))
    ensures forall k :: 0 <= k < |SectionBlocks(home, key, sections, from)| ==>
      AllDifferent(SectionBlocks(home, key, sections, from)[k].cards)
    decreases |sections| - from
  {
    if from < |sections| {
      SectionBlocksDiffer(home, key, sections, from + 1);
      assert AllDifferent(CardsOf(sections[from]));
    }
  }

  lemma ViewBlocksDiffer(config: Config, u: nat)
    requires NoListTwice(config) && u < |config| && config[u].View?
    ensures forall k :: 0 <= k < |ViewBlocks(config, u)| ==> AllDifferent(ViewBlocks(config, u)[k].cards)
  {
    SectionBlocksDiffer(u, Key(config, u), config[u].sections, 0);
  }

  lemma BlockDiffers(config: Config, keys: set<ViewKey>, block: Block)
    requires NoListTwice(config) && block in Blocks(config, keys)
    ensures AllDifferent(block.cards)
  {
    var u := InConcat(BlocksByView(config, keys), block);
    ViewBlocksDiffer(config, u);
    var blocks := ViewBlocks(config, u);
    var k :| 0 <= k < |blocks| && blocks[k] == block;
  }

  lemma SlotsDiffer(config: Config, keys: set<ViewKey>)
    requires NoListTwice(config) && !PathsShare(config)
    ensures DistinctInLists(Flat(Blocks(config, keys)))
  {
    var blocks := Blocks(config, keys);
    var slots := Flat(blocks);
    BlocksApart(config, keys);
    FlatIsWritten(blocks);
    forall a, b | 0 <= a < b < |slots| && slots[a].place == slots[b].place ensures slots[a].card != slots[b].card {
      var i := FlatIsOf(blocks, a);
      var j := FlatIsOf(blocks, b);
      assert i == j;
      BlockDiffers(config, keys, blocks[i]);
    }
  }

  // -- the sections of a view -------------------------------------------

  /** A section that lost a card is not, as it was, what a section that lost one has become. */
  predicate NoneReadsAsAnother(olds: seq<Section>, news: seq<Section>)
    requires |olds| == |news|
  {
    forall s, t :: 0 <= s < |olds| && 0 <= t < |olds| && olds[s] != news[s] && olds[t] != news[t] ==> olds[s] != news[t]
  }

  /** That, in every view. */
  predicate NoneReadsAsAnotherIn(config: Config, gone: Losses) {
    forall u: nat :: u < |config| && config[u].View? ==>
      NoneReadsAsAnother(config[u].sections, ThinSections(config[u].sections, Key(config, u), gone))
  }

  lemma ThinnedChanges(section: Section, place: Place, gone: Losses)
    ensures var thin := ThinSection(section, place, gone); section == thin || CardsChanged(section, thin)
  {
  }

  /** A list that changed lost a card. */
  lemma {:induction false} SomeGone(cards: seq<Card>, gone: set<nat>, n: nat) returns (x: nat)
    requires n <= |cards| && Staying(cards, gone, n) != cards[..n]
    ensures x < n && x in gone
  {
    if n - 1 in gone {
      x := n - 1;
    } else {
      assert cards[..n] == cards[..n - 1] + [cards[n - 1]];
      x := SomeGone(cards, gone, n - 1);
    }
  }

  lemma LostACard(section: Section, place: Place, gone: Losses) returns (x: nat)
    requires section != ThinSection(section, place, gone)
    ensures section.Section? && section.cards.Some? && x < |section.cards.value| && x in GoneAt(gone, place)
  {
    var cards := section.cards.value;
    assert cards[..|cards|] == cards;
    x := SomeGone(cards, GoneAt(gone, place), |cards|);
  }

  lemma FoundLostBoth(p: SectionPairing, olds: seq<Section>, news: seq<Section>, q: (nat, nat))
    requires IsPairing(p, olds, news) && |olds| == |news| && q in p.found
    ensures q.0 < |olds| && q.1 < |news| && olds[q.0] == news[q.1] && olds[q.0] != news[q.0] && olds[q.1] != news[q.1]
  {
    ClaimedIsSound(Counting(|olds|), olds, news, Olds(p.same), News(p.same));
    assert q.0 in Olds(p.found) && q.1 in News(p.found);
    assert (q.0, q.0) in p.same ==> (q.0, q.0).0 in Olds(p.same);
    assert (q.1, q.1) in p.same ==> (q.1, q.1).1 in News(p.same);
  }

  /** Where no section reads as another, each is paired with itself. */
  lemma PairedAtHomeAll(p: SectionPairing, olds: seq<Section>, news: seq<Section>)
    requires IsPairing(p, olds, news) && |olds| == |news| && NoneReadsAsAnother(olds, news)
    requires forall s :: 0 <= s < |olds| ==> olds[s] == news[s] || CardsChanged(olds[s], news[s])
    ensures AtHome(p, |olds|)
  {
    forall q ensures q !in p.found {
      if q in p.found {
        FoundLostBoth(p, olds, news, q);
      }
    }
    FirstIn(p.found);
    forall i: nat | i < |olds| ensures (i, i) in p.All() && i in Olds(p.All()) {
      Diagonal(p, olds, news, i, i);
      assert (i, i).0 == i;
    }
    forall q | q in p.All() ensures q.0 == q.1 && q.0 < |olds| {
      assert q in p.same || q in p.settings || q in p.cards;
      assert (q.0, q.1) == q;
    }
    AllAtHome(p.All(), |olds|);
  }

  /** Where one reads as another, some section that lost a card is found where another did. */
  lemma SomeFound(p: SectionPairing, olds: seq<Section>, news: seq<Section>) returns (a: nat, b: nat)
    requires IsPairing(p, olds, news) && |olds| == |news| && !NoneReadsAsAnother(olds, news)
    ensures (a, b) in p.found
  {
    var s, t :| 0 <= s < |olds| && 0 <= t < |olds| && olds[s] != news[s] && olds[t] != news[t] && olds[s] == news[t];
    assert Counting(|olds|)[s] == s;
    ClaimedIsMaximal(Counting(|olds|), olds, news, Olds(p.same), News(p.same), s, t);
    NotTaken(p.same, olds, news, s);
    NotTaken(p.same, olds, news, t);
    var q :| q in p.found && (q.0 == s || q.1 == t);
    a, b := q.0, q.1;
    assert (a, b) == q;
  }

  // -- what the comparison says ------------------------------------------

  lemma ViewsArePartners(pairings: Pairings, config: Config, gone: Losses)
    requires !PathsShare(config) && ArePairings(pairings, config, WithoutAll(config, gone), |config|)
    ensures forall u: nat :: u in pairings <==> u < |config| && config[u].View?
    ensures forall u: nat :: u in pairings ==>
      IsPairing(pairings[u], config[u].sections, ThinSections(config[u].sections, Key(config, u), gone))
  {
    var thin := WithoutAll(config, gone);
    SameOutside(config, gone);
    forall u: nat | u < |config| && config[u].View? ensures Partner(config, thin, u) == Some(u) {
      var w := ViewOf(thin, Key(config, u), |thin|);
      assert Key(thin, u) == Key(config, u);
      if w.Some? {
        OneViewAKey(thin, u, w.value);
      }
    }
    forall u: nat | u < |config| && config[u].NotAView? ensures u !in pairings {
    }
    forall u: nat | u in pairings
      ensures IsPairing(pairings[u], config[u].sections, ThinSections(config[u].sections, Key(config, u), gone))
    {
      assert Partner(config, thin, u) == Some(u) && thin[u] == ThinView(config[u], Key(config, u), gone);
    }
  }

  lemma AllAtHomeWhere(pairings: Pairings, config: Config, gone: Losses)
    requires !PathsShare(config) && ArePairings(pairings, config, WithoutAll(config, gone), |config|)
    requires NoneReadsAsAnotherIn(config, gone)
    ensures forall u: nat :: u in pairings ==>
      u < |config| && config[u].View? && AtHome(pairings[u], |config[u].sections|)
  {
    ViewsArePartners(pairings, config, gone);
    forall u: nat | u in pairings ensures AtHome(pairings[u], |config[u].sections|) {
      var olds, news := config[u].sections, ThinSections(config[u].sections, Key(config, u), gone);
      forall s: nat | s < |olds| ensures olds[s] == news[s] || CardsChanged(olds[s], news[s]) {
        ThinnedChanges(olds[s], Place(Key(config, u), SectionCards(s)), gone);
      }
      PairedAtHomeAll(pairings[u], olds, news);
    }
  }

  ghost predicate ExactlyGone(c: Comparison, gone: Losses) {
    forall i: nat :: i in c.cards.removed <==> i < |c.before| && IsGone(c.before[i], gone)
  }

  lemma SeenWhereAtHome(c: Comparison, config: Config, gone: Losses)
    requires !PathsShare(config) && NoListTwice(config) && IsComparison(c, config, WithoutAll(config, gone))
    requires forall u: nat :: u in c.pairings ==>
      u < |config| && config[u].View? && AtHome(c.pairings[u], |config[u].sections|)
    ensures ExactlyGone(c, gone) && c.cards.added == [] && c.cards.edited == [] && c.cards.moved == []
  {
    var keys, thin := Keys(config), WithoutAll(config, gone);
    SameOutside(config, gone);
    BlocksThinned(config, gone, keys);
    var kept := FlatKept(Blocks(config, keys), Blocks(thin, keys), gone);
    BlocksApart(config, keys);
    BlocksApart(thin, keys);
    FlatIsWritten(Blocks(config, keys));
    FlatIsWritten(Blocks(thin, keys));
    SlotsDiffer(config, keys);
    TranslationStays(config, c.pairings, |config|);
    SlotsStay(c.before, c.translate);
    DeletionIsSeenAsDeletion(c.cards, c.before, c.after, c.translate, kept);
  }

  lemma AloneIsClaimed<K>(order: seq<nat>, olds: seq<K>, news: seq<K>, i: nat, j: nat)
    requires Within(order, |olds|) && i in order && j < |news| && olds[i] == news[j]
    requires forall k :: k in order && olds[k] == olds[i] ==> k == i
    ensures i in Olds(Claimed(order, olds, news, {}, {}))
  {
    var pairs := Claimed(order, olds, news, {}, {});
    ClaimedIsMaximal(order, olds, news, {}, {}, i, j);
    ClaimedIsSound(order, olds, news, {}, {});
    var q :| q in pairs && (q.0 == i || q.1 == j);
    assert q.0 in Olds(pairs);
  }

  /** A slot whose key no other paired slot has, and which is there on the other side, is paired in its place. */
  lemma AloneIsInPlace(m: Matching, before: seq<Slot>, after: seq<Slot>, translate: Translation, i: nat, j: nat)
    requires IsMatching(m, before, after, translate) && i < |before| && j < |after|
    requires !Unpaired(before[i], translate) && OldPlaceKeys(before, translate)[i] == NewPlaceKeys(after)[j]
    requires forall k: nat :: k < |before| && !Unpaired(before[k], translate) && SameKey(before, translate, k, i) ==>
      k == i
    ensures i !in m.removed
  {
    var paired, unpaired := Positions(before, translate, false, 0), Positions(before, translate, true, 0);
    var olds, news := OldPlaceKeys(before, translate), NewPlaceKeys(after);
    forall k | k in paired && olds[k] == olds[i] ensures k == i {
      assert SameKey(before, translate, k, i);
    }
    AloneIsClaimed(paired, olds, news, i, j);
    ClaimedAppend(paired, unpaired, olds, news, {}, {});
    FirstClaimsStay(Claimed(paired, olds, news, {}, {}), m.inPlace, i);
    EveryCardOnce(m, before, after, translate);
  }

  predicate SameKey(slots: seq<Slot>, translate: Translation, k: nat, i: nat)
    requires k < |slots| && i < |slots|
  {
    Translated(slots[k], translate) == Translated(slots[i], translate) && slots[k].card == slots[i].card
  }

  lemma FirstClaimsStay(first: Pairs, all: Pairs, i: nat)
    requires i in Olds(first) && exists more :: all == first + more
    ensures i in Olds(all)
  {
    var q :| q in first && q.0 == i;
    assert q in all;
  }

  /** A card that went from a section found where another stood is not reported. */
  lemma GoneUnseen(c: Comparison, config: Config, gone: Losses, u: nat, a: nat, b: nat) returns (i: nat)
    requires !PathsShare(config) && NoListTwice(config) && IsComparison(c, config, WithoutAll(config, gone))
    requires u in c.pairings && u < |config| && config[u].View? && (a, b) in c.pairings[u].found
    ensures i < |c.before| && IsGone(c.before[i], gone) && i !in c.cards.removed
    ensures c.before[i].place == PlaceOf(config, u, SectionCards(a))
  {
    ViewsArePartners(c.pairings, config, gone);
    SameOutside(config, gone);
    var j: nat;
    i, j := StillThere(c.pairings[u], config, gone, u, a, b);
    FoundGoes(c.pairings[u], a, b);
    AloneThere(config, c.pairings, u, a, b, i);
    AloneIsInPlace(c.cards, c.before, c.after, c.translate, i, j);
  }

  /** The card gone from the one, as it stood there and as it stands where the section is found. */
  lemma StillThere(p: SectionPairing, config: Config, gone: Losses, u: nat, a: nat, b: nat) returns (i: nat, j: nat)
    requires u < |config| && config[u].View? && (a, b) in p.found
    requires IsPairing(p, config[u].sections, ThinSections(config[u].sections, Key(config, u), gone))
    ensures var before := Flat(Blocks(config, Keys(config)));
      var after := Flat(Blocks(WithoutAll(config, gone), Keys(config)));
      && i < |before| && before[i].place == PlaceOf(config, u, SectionCards(a)) && IsGone(before[i], gone)
      && j < |after| && after[j].place == PlaceOf(config, u, SectionCards(b)) && after[j].card == before[i].card
  {
    var key, thin := Key(config, u), WithoutAll(config, gone);
    SameOutside(config, gone);
    FoundLostBoth(p, config[u].sections, ThinSections(config[u].sections, key, gone), (a, b));
    var x := LostACard(config[u].sections[a], Place(key, SectionCards(a)), gone);
    assert thin[u].sections[b] == config[u].sections[a];
    i := SlotAt(config, Keys(config), u, SectionCards(a), x);
    j := SlotAt(thin, Keys(config), u, SectionCards(b), x);
  }

  lemma FoundGoes(p: SectionPairing, a: nat, b: nat)
    requires Apart(p.All()) && (a, b) in p.found
    ensures a in Went(p.All()) && Went(p.All())[a] == b
  {
    assert (a, b) in p.All();
    WentOf(p.All(), (a, b));
  }

  /** It is followed to that place, and no other paired card like it is. */
  lemma AloneThere(config: Config, pairings: Pairings, u: nat, a: nat, b: nat, i: nat)
    requires !PathsShare(config) && NoListTwice(config)
    requires forall w: nat :: w in pairings ==> w < |config| && config[w].View? && Apart(pairings[w].All())
    requires u in pairings && a in Went(pairings[u].All()) && Went(pairings[u].All())[a] == b
    requires var before := Flat(Blocks(config, Keys(config)));
      i < |before| && before[i].place == PlaceOf(config, u, SectionCards(a))
    ensures var before, translate := Flat(Blocks(config, Keys(config))), TranslationOf(config, pairings, |config|);
      && !Unpaired(before[i], translate) && Translated(before[i], translate) == PlaceOf(config, u, SectionCards(b))
      && forall k: nat :: k < |before| && !Unpaired(before[k], translate) && SameKey(before, translate, k, i) ==> k == i
  {
    var before, translate := Flat(Blocks(config, Keys(config))), TranslationOf(config, pairings, |config|);
    TranslationIs(config, pairings, |config|, u, a);
    forall k: nat | k < |before| && !Unpaired(before[k], translate) && SameKey(before, translate, k, i) ensures k == i {
      OnlyOneThere(config, pairings, u, a, b, i, k);
    }
  }

  lemma OnlyOneThere(config: Config, pairings: Pairings, u: nat, a: nat, b: nat, i: nat, k: nat)
    requires !PathsShare(config) && NoListTwice(config)
    requires forall w: nat :: w in pairings ==> w < |config| && config[w].View? && Apart(pairings[w].All())
    requires u in pairings && a in Went(pairings[u].All()) && Went(pairings[u].All())[a] == b
    requires var before, translate := Flat(Blocks(config, Keys(config))), TranslationOf(config, pairings, |config|);
      && i < |before| && k < |before| && before[i].place == PlaceOf(config, u, SectionCards(a))
      && !Unpaired(before[k], translate) && SameKey(before, translate, k, i)
    ensures k == i
  {
    var before, translate := Flat(Blocks(config, Keys(config))), TranslationOf(config, pairings, |config|);
    TranslationIs(config, pairings, |config|, u, a);
    assert Translated(before[k], translate) == Place(Key(config, u), SectionCards(b));
    assert before[k].card == before[i].card;
    var at := before[k].place.location.section;
    TranslationIs(config, pairings, |config|, u, at);
    WentApart(pairings[u].All(), at, a);
    SlotsDiffer(config, Keys(config));
  }

  /**
   * Cards deleted from any lists, none of which holds a card twice, are reported as
   * exactly that - even with identical cards untouched in other lists - where and
   * only where no section that lost a card is, as it was, what another that lost one
   * has become. Then nothing else is reported either.
   */
  lemma DeletionsAreSeenExactly(c: Comparison, config: Config, gone: Losses)
    requires !PathsShare(config) && NoListTwice(config) && IsComparison(c, config, WithoutAll(config, gone))
    ensures c.before == Flat(Blocks(config, Keys(config)))
    ensures ExactlyGone(c, gone) <==> NoneReadsAsAnotherIn(config, gone)
    ensures ExactlyGone(c, gone) ==> c.cards.added == [] && c.cards.edited == [] && c.cards.moved == []
  {
    SameOutside(config, gone);
    if NoneReadsAsAnotherIn(config, gone) {
      AllAtHomeWhere(c.pairings, config, gone);
      SeenWhereAtHome(c, config, gone);
    } else {
      ViewsArePartners(c.pairings, config, gone);
      var u: nat :| u < |config| && config[u].View?
        && !NoneReadsAsAnother(config[u].sections, ThinSections(config[u].sections, Key(config, u), gone));
      var a, b := SomeFound(c.pairings[u], config[u].sections, ThinSections(config[u].sections, Key(config, u), gone));
      var i := GoneUnseen(c, config, gone, u, a, b);
    }
  }

  // -- one that reads as another -----------------------------------------

  /** Two sections with the same settings: the first holds two cards, the second another copy of its last. */
  function TwoSections(x: Card, y: Card): Config {
    [View(None, None, None, [Section("", Some([x, y])), Section("", Some([y]))], "")]
  }

  function InSection(s: nat): Place {
    Place(ByPosition(0), SectionCards(s))
  }

  /** The first card of each goes. */
  function BothFirst(): Losses {
    map[InSection(0) := {0}, InSection(1) := {0}]
  }

  lemma ThreeSlots(x: Card, y: Card)
    ensures Flat(Blocks(TwoSections(x, y), Keys(TwoSections(x, y)))) ==
      [Slot(InSection(0), 0, x), Slot(InSection(0), 1, y), Slot(InSection(1), 0, y)]
  {
    var config := TwoSections(x, y);
    assert Key(config, 0) in Keys(config);
    var sections := config[0].sections;
    assert SectionBlocks(0, ByPosition(0), sections, 2) == [];
    assert SectionBlocks(0, ByPosition(0), sections, 1) == [Block(0, InSection(1), [y])];
    BlocksOfOneView(config);
    FlatOfTwo(Block(0, InSection(0), [x, y]), Block(0, InSection(1), [y]));
    assert ListSlots(Block(0, InSection(0), [x, y])) == [Slot(InSection(0), 0, x), Slot(InSection(0), 1, y)];
    assert ListSlots(Block(0, InSection(1), [y])) == [Slot(InSection(1), 0, y)];
  }

  lemma BlocksOfOneView(config: Config)
    requires |config| == 1 && config[0].View?
    ensures Blocks(config, Keys(config)) == ViewBlocks(config, 0)
  {
    assert Key(config, 0) in Keys(config);
    var lists := BlocksByView(config, Keys(config));
    assert lists[0] == ViewBlocks(config, 0) && lists[1..] == [];
    assert Concat(lists) == lists[0] + Concat([]);
  }

  lemma FlatOfTwo(a: Block, b: Block)
    ensures Flat([a, b]) == ListSlots(a) + ListSlots(b)
  {
    assert [a, b][1..] == [b] && [b][1..] == [];
    assert Flat([b]) == ListSlots(b) + Flat([]);
  }

  lemma WhatIsLeft(x: Card, y: Card)
    ensures ThinSections(TwoSections(x, y)[0].sections, ByPosition(0), BothFirst()) ==
      [Section("", Some([y])), Section("", Some([]))]
  {
    assert Staying([x, y], {0}, 1) == [] && Staying([x, y], {0}, 2) == [y];
    assert Staying([y], {0}, 1) == [];
  }

  lemma OneSlot(x: Card, y: Card)
    ensures var now := WithoutAll(TwoSections(x, y), BothFirst());
      |Flat(Blocks(now, Keys(now)))| == 1
  {
    var now := WithoutAll(TwoSections(x, y), BothFirst());
    WhatIsLeft(x, y);
    var sections := now[0].sections;
    assert SectionBlocks(0, ByPosition(0), sections, 2) == [];
    assert SectionBlocks(0, ByPosition(0), sections, 1) == [Block(0, InSection(1), [])];
    BlocksOfOneView(now);
    FlatOfTwo(Block(0, InSection(0), [y]), Block(0, InSection(1), []));
  }

  lemma OnePairAtMost(pairs: Pairs, before: seq<Slot>, after: seq<Slot>, i: nat, k: nat)
    requires Apart(pairs) && InRange(pairs, before, after) && |after| == 1 && i in Olds(pairs) && k in Olds(pairs)
    ensures i == k
  {
    var q :| q in pairs && q.0 == i;
    var r :| r in pairs && r.0 == k;
    var a :| 0 <= a < |pairs| && pairs[a] == q;
    var b :| 0 <= b < |pairs| && pairs[b] == r;
    assert q.1 == 0 && r.1 == 0;
    assert a == b;
  }

  lemma TwoSectionsAreFine(x: Card, y: Card)
    requires x != y
    ensures !PathsShare(TwoSections(x, y)) && NoListTwice(TwoSections(x, y))
    ensures Key(TwoSections(x, y), 0) == ByPosition(0)
  {
    var config := TwoSections(x, y);
    assert forall s :: 0 <= s < |config[0].sections| ==> AllDifferent(CardsOf(config[0].sections[s]));
  }

  lemma SecondIsFound(p: SectionPairing, x: Card, y: Card)
    requires IsPairing(p, [Section("", Some([x, y])), Section("", Some([y]))],
                       [Section("", Some([y])), Section("", Some([]))])
    ensures (1, 0) in p.found
  {
    var olds := [Section("", Some([x, y])), Section("", Some([y]))];
    var news := [Section("", Some([y])), Section("", Some([]))];
    assert olds[1] == news[0] && olds[0].cards.value[1] == y && |news[1].cards.value| == 0;
    var a, b := SomeFound(p, olds, news);
    FoundLostBoth(p, olds, news, (a, b));
  }

  lemma SecondIsUnseen(c: Comparison, x: Card, y: Card)
    requires x != y && IsComparison(c, TwoSections(x, y), WithoutAll(TwoSections(x, y), BothFirst()))
    ensures exists i :: 0 <= i < |c.before| && c.before[i].place == InSection(1) && i !in c.cards.removed
  {
    var config := TwoSections(x, y);
    TwoSectionsAreFine(x, y);
    ViewsArePartners(c.pairings, config, BothFirst());
    WhatIsLeft(x, y);
    SecondIsFound(c.pairings[0], x, y);
    var i := GoneUnseen(c, config, BothFirst(), 0, 1, 0);
  }

  lemma SameThreeSlots(c: Comparison, x: Card, y: Card)
    requires IsComparison(c, TwoSections(x, y), WithoutAll(TwoSections(x, y), BothFirst()))
    ensures c.before == [Slot(InSection(0), 0, x), Slot(InSection(0), 1, y), Slot(InSection(1), 0, y)] && |c.after| == 1
  {
    SameOutside(TwoSections(x, y), BothFirst());
    ThreeSlots(x, y);
    OneSlot(x, y);
  }

  /**
   * Then the first section's last card, which is still there, is reported, and the
   * second section's, which went, is not.
   */
  lemma ReadsAsTheOther(c: Comparison, x: Card, y: Card)
    requires x != y && IsComparison(c, TwoSections(x, y), WithoutAll(TwoSections(x, y), BothFirst()))
    ensures c.before == [Slot(InSection(0), 0, x), Slot(InSection(0), 1, y), Slot(InSection(1), 0, y)]
    ensures forall i: nat :: i < |c.before| ==> (IsGone(c.before[i], BothFirst()) <==> i == 0 || i == 2)
    ensures forall i: nat :: i in c.cards.removed <==> i == 0 || i == 1
  {
    SameThreeSlots(c, x, y);
    SecondIsUnseen(c, x, y);
    OnlySecondIsPaired(c.cards, c.before, c.after, c.translate);
  }

  lemma OnlySecondIsPaired(m: Matching, before: seq<Slot>, after: seq<Slot>, translate: Translation)
    requires IsMatching(m, before, after, translate) && |before| == 3 && |after| == 1 && 2 !in m.removed
    ensures forall i: nat :: i in m.removed <==> i == 0 || i == 1
  {
    forall i: nat | i < 2 ensures i !in Olds(m.All()) {
      if i in Olds(m.All()) {
        OnePairAtMost(m.All(), before, after, i, 2);
      }
    }
  }

  /** None of the lists with cards gone is a section's. */
  predicate OutsideSections(gone: Losses) {
    forall place :: place in gone ==> !place.location.SectionCards?
  }

  lemma SectionUntouched(section: Section, place: Place, gone: Losses)
    requires place !in gone
    ensures ThinSection(section, place, gone) == section
  {
    if section.Section? && section.cards.Some? {
      var cards := section.cards.value;
      StayingAll(cards, |cards|);
      assert cards[..|cards|] == cards;
    }
  }

  /** From lists outside sections, any cards of any number of them. */
  lemma DeletionsOutsideSectionsAreSeen(c: Comparison, config: Config, gone: Losses)
    requires !PathsShare(config) && NoListTwice(config) && OutsideSections(gone)
    requires IsComparison(c, config, WithoutAll(config, gone))
    ensures c.before == Flat(Blocks(config, Keys(config)))
    ensures ExactlyGone(c, gone) && c.cards.added == [] && c.cards.edited == [] && c.cards.moved == []
  {
    forall u: nat, s: nat | u < |config| && config[u].View? && s < |config[u].sections|
      ensures config[u].sections[s] == ThinSections(config[u].sections, Key(config, u), gone)[s]
    {
      SectionUntouched(config[u].sections[s], Place(Key(config, u), SectionCards(s)), gone);
    }
    DeletionsAreSeenExactly(c, config, gone);
  }
}
