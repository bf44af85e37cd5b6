/** Deleting cards from one list and putting them back. */
module RoundTrip {
  import opened Wrappers
  import opened Sequences
  import opened Claims
  import opened CardMatching
  import opened SectionPairs
  import opened Dashboard
  import opened FindRemoved
  import opened PutBack

  /** No card stands twice in the list. */
  predicate AllDifferent(cards: seq<Card>) {
    forall a, b :: 0 <= a < b < |cards| ==> cards[a] != cards[b]
  }

  /** A dashboard, a list of it whose cards are all different, and a view that can be found again. */
  ghost predicate Original(config: Config, v: nat, at: Location) {
    && v < |config| && config[v].View? && ListAt(config, v, at).Some? && AllDifferent(ListAt(config, v, at).value)
    && !PathsShare(config) && FindView(config, config[v].path, Ordinal(config, v)) == Some(v)
  }

  function List(config: Config, v: nat, at: Location): seq<Card>
    requires v < |config| && ListAt(config, v, at).Some?
  {
    ListAt(config, v, at).value
  }

  /** The dashboard without the cards at some positions of one list. */
  function Without(config: Config, v: nat, at: Location, gone: set<nat>): Config
    requires v < |config| && ListAt(config, v, at).Some?
  {
    WithList(config, v, at, Staying(List(config, v, at), gone, |List(config, v, at)|))
  }

  // -- what the comparison sees ------------------------------------------

  lemma ViewsFindThemselves(config: Config, v: nat, at: Location, gone: set<nat>, u: nat)
    requires Original(config, v, at) && u < |config| && config[u].View?
    ensures Partner(config, Without(config, v, at, gone), u) == Some(u)
  {
    var now := Without(config, v, at, gone);
    OnlyTheList(config, v, at, List(now, v, at));
    var w := ViewOf(now, Key(config, u), |now|);
    assert Key(now, u) == Key(config, u);
    if w.Some? {
      OneViewAKey(now, u, w.value);
    }
  }

  /** Every section paired with itself. */
  predicate AtHome(pairing: SectionPairing, n: nat) {
    && (forall s: nat :: s < n ==> s in Olds(pairing.All()))
    && (forall s: nat :: s in Went(pairing.All()) ==> Went(pairing.All())[s] == s)
  }

  lemma OnlyThatSection(config: Config, v: nat, at: Location, cards: seq<Card>, u: nat) returns (s: nat)
    requires v < |config| && config[v].View? && ListAt(config, v, at).Some? && u < |config| && config[u].View?
    ensures var olds, news := config[u].sections, WithList(config, v, at, cards)[u].sections;
      |olds| == |news| && (forall i :: 0 <= i < |olds| && i != s ==> olds[i] == news[i])
      && (s < |olds| ==> olds[s] == news[s] || CardsChanged(olds[s], news[s]))
  {
    s := if u == v && at.SectionCards? then at.section else |config[u].sections|;
  }

  lemma PairedAtHome(p: SectionPairing, olds: seq<Section>, news: seq<Section>, s: nat)
    requires IsPairing(p, olds, news) && |olds| == |news|
    requires forall i :: 0 <= i < |olds| && i != s ==> olds[i] == news[i]
    requires s < |olds| ==> olds[s] == news[s] || ChangedOneWay(olds[s], news[s])
    ensures AtHome(p, |olds|)
  {
    OneSectionsCards(p, olds, news, s);
    forall i: nat | i < |olds| ensures i in Olds(p.All()) {
      assert i in Went(p.All());
    }
  }

  lemma SectionsStay(config: Config, v: nat, at: Location, gone: set<nat>, pairings: Pairings, u: nat)
    requires Original(config, v, at) && u < |config| && config[u].View?
    requires ArePairings(pairings, config, Without(config, v, at, gone), |config|)
    ensures u in pairings && AtHome(pairings[u], |config[u].sections|)
  {
    var cards := Staying(List(config, v, at), gone, |List(config, v, at)|);
    ViewsFindThemselves(config, v, at, gone, u);
    var s := OnlyThatSection(config, v, at, cards, u);
    PairedAtHome(pairings[u], config[u].sections, WithList(config, v, at, cards)[u].sections, s);
  }

  lemma {:induction false} TranslationStays(config: Config, pairings: Pairings, upto: nat)
    requires upto <= |config| && forall u: nat :: u in pairings ==> u < |config| && config[u].View?
    requires forall u: nat :: u in pairings ==> AtHome(pairings[u], |config[u].sections|)
    ensures forall at :: at in TranslationOf(config, pairings, upto) ==>
      TranslationOf(config, pairings, upto)[at] == at.1
  {
    if upto > 0 {
      TranslationStays(config, pairings, upto - 1);
    }
  }

  lemma {:induction false} NoSectionLeft(config: Config, pairings: Pairings, key: ViewKey, upto: nat)
    requires upto <= |config| && forall u: nat :: u in pairings ==> u < |config| && config[u].View?
    requires forall u: nat :: u in pairings ==> AtHome(pairings[u], |config[u].sections|)
    ensures LeftSections(config, pairings, key, upto) == []
  {
    if upto > 0 {
      NoSectionLeft(config, pairings, key, upto - 1);
    }
  }

  lemma PairingsStay(c: Comparison, config: Config, v: nat, at: Location, gone: set<nat>)
    requires Original(config, v, at) && ArePairings(c.pairings, config, Without(config, v, at, gone), |config|)
    ensures forall u: nat :: u in c.pairings ==>
      u < |config| && config[u].View? && AtHome(c.pairings[u], |config[u].sections|)
  {
    forall u: nat | u in c.pairings
      ensures u < |config| && config[u].View? && AtHome(c.pairings[u], |config[u].sections|)
    {
      SectionsStay(config, v, at, gone, c.pairings, u);
    }
  }

  lemma NoneLeftNoneWhole(c: Comparison, config: Config, now: Config, key: ViewKey)
    requires forall u: nat :: u in c.pairings ==> u < |config| && config[u].View?
    requires LeftSections(config, c.pairings, key, |config|) == []
    ensures WentWhole(c, config, now, key).None?
  {
  }

  lemma SlotsStay(slots: seq<Slot>, translate: Translation)
    requires forall at :: at in translate ==> translate[at] == at.1
    ensures StaysPut(slots, translate)
  {
  }

  lemma NothingWentWhole(c: Comparison, config: Config, v: nat, at: Location, gone: set<nat>, key: ViewKey)
    requires Original(config, v, at) && IsComparison(c, config, Without(config, v, at, gone)) && Readable(c, config)
    ensures StaysPut(c.before, c.translate)
    ensures WentWhole(c, config, Without(config, v, at, gone), key).None?
  {
    PairingsStay(c, config, v, at, gone);
    TranslationStays(config, c.pairings, |config|);
    SlotsStay(c.before, c.translate);
    NoSectionLeft(config, c.pairings, key, |config|);
    NoneLeftNoneWhole(c, config, Without(config, v, at, gone), key);
  }

  // -- what the matching gives up on -------------------------------------

  /** Slots of a list with cards gone are of different cards. */
  predicate DifferentWhereGone(slots: seq<Slot>, gone: Losses) {
    forall a, b :: 0 <= a < b < |slots| && slots[a].place == slots[b].place && slots[a].place in gone ==>
      slots[a].card != slots[b].card
  }

  lemma {:induction false} AsManyBack(kept: seq<nat>, s: set<nat>, into: set<nat>)
    requires forall i :: i in into ==> exists b: nat :: b < |kept| && b in s && kept[b] == i
    requires forall a, b :: 0 <= a < b < |kept| ==> kept[a] < kept[b]
    ensures |into| <= |s|
  {
    if into != {} {
      var i :| i in into;
      var b: nat :| b < |kept| && b in s && kept[b] == i;
      forall j | j in into - {i} ensures exists d: nat :: d < |kept| && d in s - {b} && kept[d] == j {
        var d: nat :| d < |kept| && d in s && kept[d] == j;
        assert d != b;
      }
      AsManyBack(kept, s - {b}, into - {i});
    }
  }

  /** With cards gone from lists of all different cards, exactly those are given up on. */
  lemma ExactlyTheGone(m: Matching, before: seq<Slot>, after: seq<Slot>, translate: Translation,
                       kept: seq<nat>, gone: Losses)
    requires IsMatching(m, before, after, translate) && StaysPut(before, translate)
    requires KeepsAllBut(before, after, kept, gone) && Written(before) && Written(after)
    requires DifferentWhereGone(before, gone)
    ensures forall i: nat :: i in m.removed <==> i < |before| && IsGone(before[i], gone)
    ensures m.displaced == []
  {
    LeftClaimTheirPlaces(before, after, translate, kept, m.inPlace);
    EveryCardOnce(m, before, after, translate);
    NothingLeft(m, |after|);
    assert m.All() == m.inPlace;
    forall i: nat | i < |before| ensures i in Olds(m.inPlace) <==> !IsGone(before[i], gone) {
      if IsGone(before[i], gone) {
        GoneIsNotPaired(before, after, translate, kept, gone, m.inPlace, i);
      } else {
        StayingIsPaired(before, after, translate, kept, gone, m.inPlace, i);
      }
    }
  }

  lemma GoneIsNotPaired(before: seq<Slot>, after: seq<Slot>, translate: Translation,
                        kept: seq<nat>, gone: Losses, inPlace: Pairs, i: nat)
    requires StaysPut(before, translate) && KeepsAllBut(before, after, kept, gone) && DifferentWhereGone(before, gone)
    requires inPlace == Claimed(Order(before, translate), OldPlaceKeys(before, translate), NewPlaceKeys(after), {}, {})
    requires i < |before| && IsGone(before[i], gone)
    ensures i !in Olds(inPlace)
  {
    ClaimedIsSound(Order(before, translate), OldPlaceKeys(before, translate), NewPlaceKeys(after), {}, {});
    forall p | p in inPlace ensures p.0 != i {
      assert OldPlaceKeys(before, translate)[p.0] == NewPlaceKeys(after)[p.1];
      assert before[kept[p.1]].place == before[p.0].place && before[kept[p.1]].card == before[p.0].card;
    }
  }

  lemma StayingIsPaired(before: seq<Slot>, after: seq<Slot>, translate: Translation,
                        kept: seq<nat>, gone: Losses, inPlace: Pairs, i: nat)
    requires StaysPut(before, translate) && KeepsAllBut(before, after, kept, gone) && DifferentWhereGone(before, gone)
    requires inPlace == Claimed(Order(before, translate), OldPlaceKeys(before, translate), NewPlaceKeys(after), {}, {})
    requires forall j: nat :: j < |after| ==> j in News(inPlace)
    requires i < |before| && !IsGone(before[i], gone)
    ensures i in Olds(inPlace)
  {
    var olds, news := OldPlaceKeys(before, translate), NewPlaceKeys(after);
    var key := olds[i];
    ClaimedIsSound(Order(before, translate), olds, news, {}, {});
    HoldersStay(before, after, translate, kept, gone, i);
    AsManyBack(kept, Having(news, key), Having(olds, key));
    AllPaired(inPlace, olds, news, key);
  }

  lemma HoldersStay(before: seq<Slot>, after: seq<Slot>, translate: Translation,
                    kept: seq<nat>, gone: Losses, i: nat)
    requires StaysPut(before, translate) && KeepsAllBut(before, after, kept, gone) && DifferentWhereGone(before, gone)
    requires i < |before| && !IsGone(before[i], gone)
    ensures var key := OldPlaceKeys(before, translate)[i];
      forall h :: h in Having(OldPlaceKeys(before, translate), key) ==>
        exists b: nat :: b < |kept| && b in Having(NewPlaceKeys(after), key) && kept[b] == h
  {
    var olds, news := OldPlaceKeys(before, translate), NewPlaceKeys(after);
    forall h | h in Having(olds, olds[i])
      ensures exists b: nat :: b < |kept| && b in Having(news, olds[i]) && kept[b] == h
    {
      assert before[h].place == before[i].place && before[h].card == before[i].card;
      assert !IsGone(before[h], gone) && h in kept;
      var b: nat :| b < |kept| && kept[b] == h;
      assert news[b] == olds[i];
    }
  }

  lemma AllPaired<K>(pairs: Pairs, olds: seq<K>, news: seq<K>, key: K)
    requires Apart(pairs) && SameKeys(pairs, olds, news)
    requires forall j: nat :: j < |news| ==> j in News(pairs)
    requires |Having(olds, key)| <= |Having(news, key)|
    ensures Having(olds, key) <= Olds(pairs)
  {
    assert forall j :: j in Having(news, key) ==> j in News(pairs);
    LeftOver(pairs, olds, news, key);
    assert |Having(olds, key) - Olds(pairs)| == 0;
    forall h | h in Having(olds, key) ensures h in Olds(pairs) {
      assert h !in Having(olds, key) - Olds(pairs);
    }
  }

  // -- the slots of the list ---------------------------------------------

  function PlaceOf(config: Config, v: nat, at: Location): Place
    requires v < |config| && config[v].View?
  {
    Place(Key(config, v), at)
  }

  function Only(config: Config, v: nat, at: Location, gone: set<nat>): Losses
    requires v < |config| && config[v].View?
  {
    map[PlaceOf(config, v, at) := gone]
  }

  lemma StillShared(config: Config, v: nat, at: Location, gone: set<nat>)
    requires Original(config, v, at)
    ensures var now := Without(config, v, at, gone);
      Keys(now) == Keys(config) && Shared(config, now) == Keys(config) && !PathsShare(now)
  {
    OnlyTheList(config, v, at, List(Without(config, v, at, gone), v, at));
  }

  lemma BlocksOf(config: Config, v: nat, at: Location, gone: set<nat>)
    requires Original(config, v, at)
    ensures var now, keys, L := Without(config, v, at, gone), Keys(config), List(config, v, at);
      && SameBut(Blocks(config, keys), Blocks(now, keys), PlaceOf(config, v, at), L, Staying(L, gone, |L|))
      && PlacesApart(Blocks(config, keys)) && PlacesApart(Blocks(now, keys))
  {
    var now, L := Without(config, v, at, gone), List(config, v, at);
    StillShared(config, v, at, gone);
    BlocksBut(config, v, at, Staying(L, gone, |L|), Keys(config));
    BlocksApart(config, Keys(config));
    BlocksApart(now, Keys(config));
  }

  /** A slot at the list's place is a card of the list, in its view. */
  lemma SlotOfTheList(blocks: seq<Block>, other: seq<Block>, config: Config, v: nat, at: Location, now: seq<Card>,
                      i: nat)
    requires Original(config, v, at) && blocks == Blocks(config, Keys(config))
    requires SameBut(blocks, other, PlaceOf(config, v, at), List(config, v, at), now)
    requires i < |Flat(blocks)| && Flat(blocks)[i].place == PlaceOf(config, v, at)
    ensures Flat(blocks)[i].index < |List(config, v, at)|
    ensures Flat(blocks)[i].card == List(config, v, at)[Flat(blocks)[i].index]
    ensures Homes(blocks)[i] == v
  {
    var k := FlatIsOf(blocks, i);
    BlockIsOf(config, Keys(config), blocks[k]);
    var home := blocks[k].home;
    assert blocks[k] in blocks;
    OneViewAKey(config, home, v);
  }

  lemma ListIsDifferent(blocks: seq<Block>, other: seq<Block>, config: Config, v: nat, at: Location, now: seq<Card>)
    requires Original(config, v, at) && blocks == Blocks(config, Keys(config)) && PlacesApart(blocks)
    requires SameBut(blocks, other, PlaceOf(config, v, at), List(config, v, at), now)
    ensures forall gone :: DifferentWhereGone(Flat(blocks), Only(config, v, at, gone))
  {
    FlatIsWritten(blocks);
    var slots := Flat(blocks);
    forall a, b | 0 <= a < b < |slots| && slots[a].place == slots[b].place == PlaceOf(config, v, at)
      ensures slots[a].card != slots[b].card
    {
      SlotOfTheList(blocks, other, config, v, at, now, a);
      SlotOfTheList(blocks, other, config, v, at, now, b);
    }
  }

  lemma {:induction false} FlatHas(blocks: seq<Block>, k: nat, index: nat) returns (i: nat)
    requires k < |blocks| && index < |blocks[k].cards|
    ensures i < |Flat(blocks)| && Flat(blocks)[i] == Slot(blocks[k].place, index, blocks[k].cards[index])
  {
    if k == 0 {
      i := index;
    } else {
      i := FlatHas(blocks[1..], k - 1, index);
      i := i + |ListSlots(blocks[0])|;
    }
  }

  lemma {:induction false} SectionBlockOf(home: nat, key: ViewKey, sections: seq<Section>, s: nat, from: nat)
    requires from <= s < |sections| && sections[s].Section? && sections[s].cards.Some?
    ensures Block(home, Place(key, SectionCards(s)), sections[s].cards.value) in
      SectionBlocks(home, key, sections, from)
    decreases s - from
  {
    if from < s {
      SectionBlockOf(home, key, sections, s, from + 1);
    }
  }

  lemma BlockOf(config: Config, v: nat, at: Location, keys: set<ViewKey>)
    requires v < |config| && config[v].View? && ListAt(config, v, at).Some? && Key(config, v) in keys
    ensures Block(v, PlaceOf(config, v, at), List(config, v, at)) in Blocks(config, keys)
  {
    if at.SectionCards? {
      SectionBlockOf(v, Key(config, v), config[v].sections, at.section, 0);
    }
    ConcatHas(BlocksByView(config, keys), v, Block(v, PlaceOf(config, v, at), List(config, v, at)));
  }

  /** Every card of the list has its slot. */
  lemma SlotOf(config: Config, v: nat, at: Location, index: nat) returns (i: nat)
    requires Original(config, v, at) && index < |List(config, v, at)|
    ensures var slots := Flat(Blocks(config, Keys(config)));
      i < |slots| && slots[i] == Slot(PlaceOf(config, v, at), index, List(config, v, at)[index])
  {
    BlockOf(config, v, at, Keys(config));
    var blocks := Blocks(config, Keys(config));
    var k: nat :| k < |blocks| && blocks[k] == Block(v, PlaceOf(config, v, at), List(config, v, at));
    i := FlatHas(blocks, k, index);
  }

  // -- the items ---------------------------------------------------------

  /** The comparison gives up on the cards gone and on nothing else, and nothing left for another list. */
  lemma ComparedExactly(c: Comparison, config: Config, v: nat, at: Location, gone: set<nat>)
    requires Original(config, v, at) && IsComparison(c, config, Without(config, v, at, gone)) && Readable(c, config)
    ensures c.before == Flat(Blocks(config, Keys(config)))
    ensures forall i: nat :: i in c.cards.removed <==> i < |c.before| && IsGone(c.before[i], Only(config, v, at, gone))
    ensures forall p :: p in c.cards.moved ==> c.SamePlace(p)
  {
    var now, L, keys, place := Without(config, v, at, gone), List(config, v, at), Keys(config), PlaceOf(config, v, at);
    StillShared(config, v, at, gone);
    BlocksOf(config, v, at, gone);
    var blocks, other := Blocks(config, keys), Blocks(now, keys);
    OneThinned(blocks, other, place, L, gone);
    var kept := FlatKept(blocks, other, Only(config, v, at, gone));
    FlatIsWritten(blocks);
    FlatIsWritten(other);
    ListIsDifferent(blocks, other, config, v, at, Staying(L, gone, |L|));
    NothingWentWhole(c, config, v, at, gone, Key(config, v));
    ExactlyTheGone(c.cards, c.before, c.after, c.translate, kept, Only(config, v, at, gone));
    forall p | p in c.cards.moved ensures c.SamePlace(p) {
      MovedInPlace(c.cards, c.before, c.after, c.translate, p);
    }
  }

  lemma MovedInPlace(m: Matching, before: seq<Slot>, after: seq<Slot>, translate: Translation, p: (nat, nat))
    requires IsMatching(m, before, after, translate) && m.displaced == [] && p in m.moved
    ensures p.0 < |before| && p.1 < |after| && Translated(before[p.0], translate) == after[p.1].place
  {
    MovedInRange(m, before, after, translate, p);
    ClaimedIsSound(Order(before, translate), OldPlaceKeys(before, translate), NewPlaceKeys(after), {}, {});
    assert OldPlaceKeys(before, translate)[p.0] == NewPlaceKeys(after)[p.1];
  }

  /** How the section of a card that went is recognised: by every card of it still there. */
  function AnchorFor(config: Config, v: nat, at: Location, gone: set<nat>, index: nat): Option<Anchor>
    requires v < |config| && ListAt(config, v, at).Some? && index < |List(config, v, at)|
  {
    var L := List(config, v, at);
    if !at.SectionCards? then None
    else Some(Anchor(|config[v].sections|, Some(config[v].sections[at.section].own),
                     Staying(L, gone, |L|), |Staying(L, gone, index)|, []))
  }

  function ItemFor(config: Config, v: nat, at: Location, gone: set<nat>, index: nat): Item
    requires v < |config| && config[v].View? && ListAt(config, v, at).Some? && index < |List(config, v, at)|
  {
    CardItem(config[v].path, Ordinal(config, v), at, index, List(config, v, at)[index],
             AnchorFor(config, v, at, gone, index))
  }

  lemma GoneIs(c: Comparison, config: Config, v: nat, at: Location, gone: set<nat>, u: nat)
    requires Original(config, v, at) && IsComparison(c, config, Without(config, v, at, gone)) && Readable(c, config)
    ensures forall i: nat :: i in Gone(c, config, Without(config, v, at, gone), u) <==>
      u == v && i < |c.before| && IsGone(c.before[i], Only(config, v, at, gone))
  {
    var now := Without(config, v, at, gone);
    ComparedExactly(c, config, v, at, gone);
    StillShared(config, v, at, gone);
    forall i: nat ensures i in Gone(c, config, now, u) <==>
      u == v && i < |c.before| && IsGone(c.before[i], Only(config, v, at, gone))
    {
      if i < |c.before| && IsGone(c.before[i], Only(config, v, at, gone)) {
        GoneIsLoose(c, config, v, at, gone, i);
      }
    }
  }

  /** A card gone stands in the view, and in no section that went whole. */
  lemma GoneIsLoose(c: Comparison, config: Config, v: nat, at: Location, gone: set<nat>, i: nat)
    requires Original(config, v, at) && IsComparison(c, config, Without(config, v, at, gone)) && Readable(c, config)
    requires i < |c.before| && IsGone(c.before[i], Only(config, v, at, gone)) && i in c.cards.removed
    requires c.blocks == Blocks(config, Keys(config))
    ensures Homes(c.blocks)[i] == v && Loose(c, config, Without(config, v, at, gone), i)
  {
    var now := Without(config, v, at, gone);
    BlocksOf(config, v, at, gone);
    SlotOfTheList(c.blocks, Blocks(now, Keys(config)), config, v, at, List(now, v, at), i);
    NothingWentWhole(c, config, v, at, gone, c.before[i].place.view);
  }

  lemma NothingAway(c: Comparison, config: Config, u: nat, within: bool)
    requires Readable(c, config) && forall p :: p in c.cards.moved ==> c.SamePlace(p)
    ensures Away(c, config, u, within) == {}
  {
  }

  lemma SpotsOf(slots: seq<Slot>, mine: set<nat>, at: Location, gone: set<nat>)
    requires forall i :: i in mine ==> i < |slots| && slots[i].place.location == at && slots[i].index in gone
    requires forall g :: g in gone ==> exists i :: i in mine && slots[i].index == g
    ensures PositionsAt(Spots(slots, mine), at) == gone
  {
    forall g: nat ensures g in PositionsAt(Spots(slots, mine), at) <==> g in gone {
      SpotIsThere(Spots(slots, mine), at, g);
      if g in gone {
        var i :| i in mine && slots[i].index == g;
        assert (slots[i].place.location, slots[i].index) in Spots(slots, mine);
      }
    }
  }

  lemma GoneAreMine(c: Comparison, config: Config, v: nat, at: Location, gone: set<nat>, mine: set<nat>)
    requires Original(config, v, at) && c.before == Flat(Blocks(config, Keys(config)))
    requires forall g :: g in gone ==> g < |List(config, v, at)|
    requires forall i: nat :: i in mine <==> i < |c.before| && IsGone(c.before[i], Only(config, v, at, gone))
    ensures PositionsAt(Spots(c.before, mine), at) == gone
  {
    forall g | g in gone ensures exists i :: i in mine && c.before[i].index == g {
      var i := SlotOf(config, v, at, g);
      assert i in mine;
    }
    SpotsOf(c.before, mine, at, gone);
  }

  lemma LeftIs(c: Comparison, config: Config, v: nat, at: Location, gone: set<nat>)
    requires Original(config, v, at) && IsComparison(c, config, Without(config, v, at, gone)) && Readable(c, config)
    requires forall g :: g in gone ==> g < |List(config, v, at)|
    ensures PositionsAt(Left(c, config, Without(config, v, at, gone), v), at) == gone
    ensures Away(c, config, v, true) == {}
  {
    var mine := Gone(c, config, Without(config, v, at, gone), v);
    ComparedExactly(c, config, v, at, gone);
    NothingAway(c, config, v, false);
    NothingAway(c, config, v, true);
    GoneIs(c, config, v, at, gone, v);
    GoneAreMine(c, config, v, at, gone, mine);
    LeftIsGone(c, config, Without(config, v, at, gone), v);
  }

  lemma LeftIsGone(c: Comparison, config: Config, now: Config, u: nat)
    requires Readable(c, config) && Away(c, config, u, false) == {}
    ensures Left(c, config, now, u) == Spots(c.before, Gone(c, config, now, u))
  {
  }

  lemma AnchorIs(config: Config, v: nat, at: Location, gone: set<nat>, left: set<Spot>, index: nat)
    requires v < |config| && config[v].View? && ListAt(config, v, at).Some? && index < |List(config, v, at)|
    requires PositionsAt(left, at) == gone
    ensures AnchorOf(config[v], at, index, left, {}) == AnchorFor(config, v, at, gone, index)
  {
    assert gone * PositionsAt({}, at) == {};
  }

  lemma {:induction false} CardItemsHave(
      view: View, home: nat, slots: seq<Slot>, gone: set<nat>, left: set<Spot>, departed: set<Spot>, upto: nat, i: nat)
    requires view.View? && i < upto <= |slots| && i in gone
    ensures CardItemOf(view, home, slots[i], left, departed) in CardItems(view, home, slots, gone, left, departed, upto)
  {
    if i < upto - 1 {
      CardItemsHave(view, home, slots, gone, left, departed, upto - 1, i);
    }
  }

  lemma ItemsHave(c: Comparison, config: Config, now: Config, u: nat, item: Item)
    requires Readable(c, config) && u < |config| && config[u].View? && item in ViewItems(c, config, now, u)
    ensures item in Items(c, config, now)
  {
    ConcatHas(ItemsByView(c, config, now), u, item);
  }

  lemma OnlyCardItems(c: Comparison, config: Config, v: nat, at: Location, gone: set<nat>, u: nat)
    requires Original(config, v, at) && IsComparison(c, config, Without(config, v, at, gone)) && Readable(c, config)
    requires u < |config| && config[u].View?
    ensures var now := Without(config, v, at, gone);
      ViewItems(c, config, now, u) == CardItems(config[u], Ordinal(config, u), c.before, Gone(c, config, now, u),
                                                Left(c, config, now, u), Away(c, config, u, true), |c.before|)
  {
    StillShared(config, v, at, gone);
    NothingWentWhole(c, config, v, at, gone, Key(config, u));
    assert Key(config, u) in Keys(config);
    CardItemsAlone(c, config, Without(config, v, at, gone), u);
  }

  lemma CardItemsAlone(c: Comparison, config: Config, now: Config, u: nat)
    requires Readable(c, config) && u < |config| && config[u].View?
    requires Key(config, u) in Keys(now) && WentWhole(c, config, now, Key(config, u)).None?
    ensures ViewItems(c, config, now, u) == CardItems(config[u], Ordinal(config, u), c.before, Gone(c, config, now, u),
                                                      Left(c, config, now, u), Away(c, config, u, true), |c.before|)
  {
    var whole := WentWhole(c, config, now, Key(config, u));
    assert SectionItems(c, config, now, u) == [];
  }

  lemma OfferedIsGone(c: Comparison, config: Config, v: nat, at: Location, gone: set<nat>, item: Item) returns (g: nat)
    requires Original(config, v, at) && IsComparison(c, config, Without(config, v, at, gone)) && Readable(c, config)
    requires forall g :: g in gone ==> g < |List(config, v, at)|
    requires item in Items(c, config, Without(config, v, at, gone))
    ensures g in gone && item == ItemFor(config, v, at, gone, g)
  {
    var now := Without(config, v, at, gone);
    var u := ItemsAreOf(c, config, now, item);
    OnlyCardItems(c, config, v, at, gone, u);
    GoneIs(c, config, v, at, gone, u);
    var i := CardItemsAreOf(config[u], Ordinal(config, u), c.before, Gone(c, config, now, u),
                            Left(c, config, now, u), Away(c, config, u, true), |c.before|, item);
    LeftIs(c, config, v, at, gone);
    StillShared(config, v, at, gone);
    BlocksOf(config, v, at, gone);
    SlotOfTheList(c.blocks, Blocks(now, Keys(config)), config, v, at, List(now, v, at), i);
    g := c.before[i].index;
    AnchorIs(config, v, at, gone, Left(c, config, now, v), g);
  }

  /** The slot of a card that is gone is among those offered. */
  lemma GoneSlot(c: Comparison, config: Config, v: nat, at: Location, gone: set<nat>, g: nat) returns (i: nat)
    requires Original(config, v, at) && IsComparison(c, config, Without(config, v, at, gone)) && Readable(c, config)
    requires g in gone && g < |List(config, v, at)|
    ensures i in Gone(c, config, Without(config, v, at, gone), v)
    ensures i < |c.before| && c.before[i] == Slot(PlaceOf(config, v, at), g, List(config, v, at)[g])
  {
    GoneIs(c, config, v, at, gone, v);
    StillShared(config, v, at, gone);
    i := SlotOf(config, v, at, g);
  }

  lemma GoneIsOffered(c: Comparison, config: Config, v: nat, at: Location, gone: set<nat>, g: nat)
    requires Original(config, v, at) && IsComparison(c, config, Without(config, v, at, gone)) && Readable(c, config)
    requires forall g :: g in gone ==> g < |List(config, v, at)|
    requires g in gone
    ensures ItemFor(config, v, at, gone, g) in Items(c, config, Without(config, v, at, gone))
  {
    var i := GoneSlot(c, config, v, at, gone, g);
    OnlyCardItems(c, config, v, at, gone, v);
    LeftIs(c, config, v, at, gone);
    OfferedAs(c, config, Without(config, v, at, gone), v, at, gone, g, i);
  }

  lemma OfferedAs(c: Comparison, config: Config, now: Config, v: nat, at: Location, gone: set<nat>, g: nat, i: nat)
    requires Readable(c, config) && v < |config| && config[v].View? && ListAt(config, v, at).Some?
    requires g < |List(config, v, at)|
    requires i in Gone(c, config, now, v) && c.before[i] == Slot(PlaceOf(config, v, at), g, List(config, v, at)[g])
    requires PositionsAt(Left(c, config, now, v), at) == gone && Away(c, config, v, true) == {}
    requires ViewItems(c, config, now, v) == CardItems(config[v], Ordinal(config, v), c.before, Gone(c, config, now, v),
                                                       Left(c, config, now, v), Away(c, config, v, true), |c.before|)
    ensures ItemFor(config, v, at, gone, g) in Items(c, config, now)
  {
    AnchorIs(config, v, at, gone, Left(c, config, now, v), g);
    OneIsOffered(c, config, now, v, i);
  }

  /** A card of a view that is gone is among the items. */
  lemma OneIsOffered(c: Comparison, config: Config, now: Config, v: nat, i: nat)
    requires Readable(c, config) && v < |config| && config[v].View? && i in Gone(c, config, now, v)
    requires ViewItems(c, config, now, v) == CardItems(config[v], Ordinal(config, v), c.before, Gone(c, config, now, v),
                                                       Left(c, config, now, v), Away(c, config, v, true), |c.before|)
    ensures CardItemOf(config[v], Ordinal(config, v), c.before[i], Left(c, config, now, v), Away(c, config, v, true))
      in Items(c, config, now)
  {
    CardItemsHave(config[v], Ordinal(config, v), c.before, Gone(c, config, now, v),
                  Left(c, config, now, v), Away(c, config, v, true), |c.before|, i);
    ItemsHave(c, config, now, v,
              CardItemOf(config[v], Ordinal(config, v), c.before[i], Left(c, config, now, v),
                         Away(c, config, v, true)));
  }

  // -- a card back in its list -------------------------------------------

  lemma {:induction false} StayingSame(cards: seq<Card>, gone: set<nat>, g: nat, n: nat)
    requires n <= g && n <= |cards|
    ensures Staying(cards, gone - {g}, n) == Staying(cards, gone, n)
  {
    if n > 0 {
      StayingSame(cards, gone, g, n - 1);
      StayingStep(cards, gone, n - 1);
      StayingStep(cards, gone - {g}, n - 1);
    }
  }

  predicate GivesBack(s: seq<Card>, index: nat, card: Card, longer: seq<Card>) {
    index <= |s| && InsertAt(s, index, card) == longer
  }

  lemma InsertThenMore(s: seq<Card>, index: nat, card: Card, longer: seq<Card>, more: seq<Card>)
    requires GivesBack(s, index, card, longer)
    ensures GivesBack(s + more, index, card, longer + more)
  {
    assert (s + more)[..index] == s[..index] && (s + more)[index..] == s[index..] + more;
  }

  lemma StayingInsertHere(cards: seq<Card>, gone: set<nat>, g: nat)
    requires g in gone && g < |cards|
    ensures Staying(cards, gone, g + 1) == Staying(cards, gone, g)
    ensures GivesBack(Staying(cards, gone, g), |Staying(cards, gone, g)|, cards[g], Staying(cards, gone - {g}, g + 1))
  {
    StayingStep(cards, gone, g);
    StayingStep(cards, gone - {g}, g);
    StayingSame(cards, gone, g, g);
  }

  lemma StayingMore(cards: seq<Card>, gone: set<nat>, g: nat, n: nat) returns (more: seq<Card>)
    requires g < n < |cards|
    ensures Staying(cards, gone, n + 1) == Staying(cards, gone, n) + more
    ensures Staying(cards, gone - {g}, n + 1) == Staying(cards, gone - {g}, n) + more
  {
    StayingStep(cards, gone, n);
    StayingStep(cards, gone - {g}, n);
    more := if n in gone then [] else [cards[n]];
  }

  lemma StayingInsert(cards: seq<Card>, gone: set<nat>, g: nat, n: nat)
    requires g in gone && g < n <= |cards|
    ensures GivesBack(Staying(cards, gone, n), |Staying(cards, gone, g)|, cards[g], Staying(cards, gone - {g}, n))
  {
    var behind := StayingBehind(cards, gone, g, n);
    StayingInsertHere(cards, gone, g);
    InsertThenMore(Staying(cards, gone, g), |Staying(cards, gone, g)|, cards[g], Staying(cards, gone - {g}, g + 1),
                   behind);
  }

  lemma {:induction false} StayingBehind(cards: seq<Card>, gone: set<nat>, g: nat, n: nat) returns (behind: seq<Card>)
    requires g < n <= |cards|
    ensures Staying(cards, gone, n) == Staying(cards, gone, g + 1) + behind
    ensures Staying(cards, gone - {g}, n) == Staying(cards, gone - {g}, g + 1) + behind
  {
    behind := [];
    for m := g + 1 to n
      invariant Staying(cards, gone, m) == Staying(cards, gone, g + 1) + behind
      invariant Staying(cards, gone - {g}, m) == Staying(cards, gone - {g}, g + 1) + behind
    {
      var more := StayingMore(cards, gone, g, m);
      behind := behind + more;
    }
  }

  predicate NoneOf(gone: set<nat>, from: nat, n: nat) {
    forall h: nat :: from <= h < n ==> h !in gone
  }

  predicate AllOf(gone: set<nat>, from: nat, n: nat) {
    forall h: nat :: from <= h < n ==> h in gone
  }

  lemma OneFurther(gone: set<nat>, from: nat, n: nat)
    requires from < n
    ensures NoneOf(gone, from, n) <==> NoneOf(gone, from, n - 1) && n - 1 !in gone
    ensures AllOf(gone, from, n) <==> AllOf(gone, from, n - 1) && n - 1 in gone
  {
  }

  lemma {:induction false} StayingCount(cards: seq<Card>, gone: set<nat>, from: nat, n: nat)
    requires from <= n <= |cards|
    ensures |Staying(cards, gone, from)| <= |Staying(cards, gone, n)| <= |Staying(cards, gone, from)| + n - from
    ensures |Staying(cards, gone, n)| == |Staying(cards, gone, from)| + n - from <==> NoneOf(gone, from, n)
    ensures |Staying(cards, gone, n)| == |Staying(cards, gone, from)| <==> AllOf(gone, from, n)
  {
    if from < n {
      StayingCount(cards, gone, from, n - 1);
      StayingStep(cards, gone, n - 1);
      OneFurther(gone, from, n);
    }
  }

  lemma SameListWritten(config: Config, v: nat, at: Location)
    requires v < |config| && ListAt(config, v, at).Some?
    ensures WithList(config, v, at, List(config, v, at)) == config
  {
    var same := WithList(config, v, at, List(config, v, at));
    if at.SectionCards? {
      assert same[v].sections == config[v].sections;
    }
    assert same[v] == config[v];
    assert same == config;
  }

  lemma NoneGone(config: Config, v: nat, at: Location)
    requires v < |config| && ListAt(config, v, at).Some?
    ensures Without(config, v, at, {}) == config
  {
    var L := List(config, v, at);
    StayingAll(L, |L|);
    assert L[..|L|] == L;
    SameListWritten(config, v, at);
  }

  lemma FoundInBoth(config: Config, v: nat, at: Location, gone: set<nat>)
    requires Original(config, v, at)
    ensures FindView(Without(config, v, at, gone), config[v].path, Ordinal(config, v)) == Some(v)
  {
    var now := Without(config, v, at, gone);
    OnlyTheList(config, v, at, List(now, v, at));
  }

  lemma PutIn(config: Config, v: nat, at: Location, gone: set<nat>, g: nat, cards: seq<Card>)
    requires Original(config, v, at) && g in gone && g < |List(config, v, at)|
    ensures var now, L := Without(config, v, at, gone), List(config, v, at);
      WithList(now, v, at, cards) == Without(config, v, at, gone - {g}) <==> cards == Staying(L, gone - {g}, |L|)
  {
    var now := Without(config, v, at, gone);
    OnlyTheList(config, v, at, List(now, v, at));
    assert ListAt(WithList(now, v, at, cards), v, at) == Some(cards);
  }

  lemma NotAmbiguous(sections: seq<Section>, at: nat, settings: string)
    ensures !DepartedIsAmbiguous(sections, at, settings, [])
  {
  }

  lemma EmbedsInItself(cards: seq<Card>)
    ensures Embeds(cards, cards)
  {
    assert IsEmbedding(Counting(|cards|), cards, cards);
  }

  lemma SectionRecognised(config: Config, v: nat, s: nat, gone: set<nat>, g: nat)
    requires Original(config, v, SectionCards(s)) && g in gone && g < |List(config, v, SectionCards(s))|
    ensures var now, item := Without(config, v, SectionCards(s), gone), ItemFor(config, v, SectionCards(s), gone, g);
      Recognised(now[v].sections, s, item.anchor.value)
  {
    var now, L := Without(config, v, SectionCards(s), gone), List(config, v, SectionCards(s));
    NotAmbiguous(now[v].sections, s, now[v].sections[s].own);
    EmbedsInItself(Staying(L, gone, |L|));
    assert CardsOf(now[v].sections[s]) == Staying(L, gone, |L|);
  }

  /** A card offered back to its section is not refused. */
  lemma NotRefused(config: Config, v: nat, s: nat, gone: set<nat>, g: nat)
    requires Original(config, v, SectionCards(s)) && g in gone && g < |List(config, v, SectionCards(s))|
    ensures CanPutBack(Without(config, v, SectionCards(s), gone), ItemFor(config, v, SectionCards(s), gone, g))
  {
    StillShared(config, v, SectionCards(s), gone);
    FoundInBoth(config, v, SectionCards(s), gone);
    SectionRecognised(config, v, s, gone, g);
  }

  /** It goes exactly where it was. */
  lemma BackInItsSection(config: Config, v: nat, s: nat, gone: set<nat>, g: nat, next: Config)
    requires Original(config, v, SectionCards(s)) && g in gone && g < |List(config, v, SectionCards(s))|
    requires IsPutBack(Without(config, v, SectionCards(s), gone), ItemFor(config, v, SectionCards(s), gone, g), next)
    ensures next == Without(config, v, SectionCards(s), gone - {g})
  {
    var at := SectionCards(s);
    var now, item, L := Without(config, v, at, gone), ItemFor(config, v, at, gone, g), List(config, v, at);
    var left := Staying(L, gone, |L|);
    FoundInBoth(config, v, at, gone);
    var k :| IsBeside(item.anchor.value.survivors, item.anchor.value.before, ListAt(now, v, at).value, k)
      && next == WithList(now, v, at, InsertAt(left, k, item.card));
    StayingInsert(L, gone, g, |L|);
    BesideIsThePlace(left, item.anchor.value.before, k);
    PutIn(config, v, at, gone, g, InsertAt(left, k, item.card));
  }

  /**
   * A card offered back to a plain list goes to its old index. That is its old place
   * exactly where nothing ahead of it is gone still, or nothing behind it is left.
   */
  lemma BackInAPlainListExactly(config: Config, v: nat, gone: set<nat>, g: nat, next: Config)
    requires Original(config, v, Cards) && g in gone && g < |List(config, v, Cards)|
    requires IsPutBack(Without(config, v, Cards, gone), ItemFor(config, v, Cards, gone, g), next)
    ensures next == Without(config, v, Cards, gone - {g}) <==>
      NoneOf(gone, 0, g) || AllOf(gone, g + 1, |List(config, v, Cards)|)
  {
    var L := List(config, v, Cards);
    var left, ahead := Staying(L, gone, |L|), |Staying(L, gone, g)|;
    FoundInBoth(config, v, Cards, gone);
    StayingInsert(L, gone, g, |L|);
    StayingCount(L, gone, 0, g);
    StayingCount(L, gone, g + 1, |L|);
    StayingStep(L, gone, g);
    PutIn(config, v, Cards, gone, g, InsertAt(left, g, L[g]));
    NotLeft(L, gone, g);
    InsertedApart(left, ahead, if g < |left| then g else |left|, L[g]);
  }

  lemma NotLeft(cards: seq<Card>, gone: set<nat>, g: nat)
    requires AllDifferent(cards) && g in gone && g < |cards|
    ensures cards[g] !in Staying(cards, gone, |cards|)
  {
    StayingAtIs(gone, |cards|);
    StayingArePicked(cards, gone, |cards|);
    PickedAt(StayingAt(gone, |cards|), cards, Staying(cards, gone, |cards|));
  }

  lemma InsertedApart(cards: seq<Card>, a: nat, b: nat, card: Card)
    requires a <= |cards| && b <= |cards| && card !in cards
    ensures InsertAt(cards, a, card) == InsertAt(cards, b, card) <==> a == b
  {
    if a < b {
      assert InsertAt(cards, b, card)[a] == cards[a];
    } else if b < a {
      assert InsertAt(cards, a, card)[b] == cards[b];
    }
  }

  // -- a whole run of it -------------------------------------------------

  /** Somebody puts back one of the items offered against the earlier state. */
  ghost predicate PutsBackOne(config: Config, now: Config, next: Config) {
    exists c, item :: IsComparison(c, config, now) && Readable(c, config)
      && item in Items(c, config, now) && IsPutBack(now, item, next)
  }

  lemma OneStep(config: Config, v: nat, s: nat, gone: set<nat>, next: Config) returns (g: nat)
    requires Original(config, v, SectionCards(s)) && forall g :: g in gone ==> g < |List(config, v, SectionCards(s))|
    requires PutsBackOne(config, Without(config, v, SectionCards(s), gone), next)
    ensures g in gone && next == Without(config, v, SectionCards(s), gone - {g})
  {
    var now := Without(config, v, SectionCards(s), gone);
    var c, item :| IsComparison(c, config, now) && Readable(c, config)
      && item in Items(c, config, now) && IsPutBack(now, item, next);
    g := OfferedIsGone(c, config, v, SectionCards(s), gone, item);
    BackInItsSection(config, v, s, gone, g, next);
  }

  /**
   * Several cards gone from one section: whichever item is put back next, every
   * step brings back one card in its place, and the last one the dashboard as it was.
   */
  lemma {:induction false} PutBackInAnyOrder(config: Config, v: nat, s: nat, gone: set<nat>, run: seq<Config>)
    returns (left: set<nat>)
    requires Original(config, v, SectionCards(s)) && forall g :: g in gone ==> g < |List(config, v, SectionCards(s))|
    requires run != [] && run[0] == Without(config, v, SectionCards(s), gone)
    requires forall k :: 0 <= k < |run| - 1 ==> PutsBackOne(config, run[k], run[k + 1])
    ensures left <= gone && |left| + |run| == |gone| + 1
    ensures run[|run| - 1] == Without(config, v, SectionCards(s), left)
    ensures |run| == |gone| + 1 ==> run[|run| - 1] == config
  {
    if |run| == 1 {
      left := gone;
    } else {
      assert PutsBackOne(config, run[0], run[1]);
      var g := OneStep(config, v, s, gone, run[1]);
      AllButTheFirst(config, run);
      left := PutBackInAnyOrder(config, v, s, gone - {g}, run[1..]);
    }
    NoneGone(config, v, SectionCards(s));
  }

  lemma AllButTheFirst(config: Config, run: seq<Config>)
    requires run != [] && forall k :: 0 <= k < |run| - 1 ==> PutsBackOne(config, run[k], run[k + 1])
    ensures forall k :: 0 <= k < |run[1..]| - 1 ==> PutsBackOne(config, run[1..][k], run[1..][k + 1])
  {
    forall k | 0 <= k < |run[1..]| - 1 ensures PutsBackOne(config, run[1..][k], run[1..][k + 1]) {
      assert PutsBackOne(config, run[k + 1], run[k + 2]);
    }
  }

  /** While a card is gone one is offered, and nothing offered is refused. */
  lemma NeverStuck(c: Comparison, config: Config, v: nat, s: nat, gone: set<nat>)
    requires Original(config, v, SectionCards(s)) && forall g :: g in gone ==> g < |List(config, v, SectionCards(s))|
    requires IsComparison(c, config, Without(config, v, SectionCards(s), gone)) && Readable(c, config)
    ensures var now := Without(config, v, SectionCards(s), gone);
      && (Items(c, config, now) == [] <==> gone == {})
      && forall item :: item in Items(c, config, now) ==> CanPutBack(now, item)
  {
    var now := Without(config, v, SectionCards(s), gone);
    var items := Items(c, config, now);
    if g :| g in gone {
      GoneIsOffered(c, config, v, SectionCards(s), gone, g);
    } else if items != [] {
      var g := OfferedIsGone(c, config, v, SectionCards(s), gone, items[0]);
    }
    forall item | item in items ensures CanPutBack(now, item) {
      var g := OfferedIsGone(c, config, v, SectionCards(s), gone, item);
      NotRefused(config, v, s, gone, g);
    }
  }

  lemma OneBackInAPlainList(config: Config, v: nat, g: nat, next: Config)
    requires Original(config, v, Cards) && g < |List(config, v, Cards)|
    requires IsPutBack(Without(config, v, Cards, {g}), ItemFor(config, v, Cards, {g}, g), next)
    ensures next == config
  {
    BackInAPlainListExactly(config, v, {g}, g, next);
    assert NoneOf({g}, 0, g);
    assert {g} - {g} == {};
    NoneGone(config, v, Cards);
  }

  /** One card deleted from a plain list is offered alone, and goes back where it was. */
  lemma OneCardOfAPlainList(c: Comparison, config: Config, v: nat, g: nat, item: Item, next: Config)
    requires Original(config, v, Cards) && g < |List(config, v, Cards)|
    requires var now := Without(config, v, Cards, {g});
      && IsComparison(c, config, now) && Readable(c, config)
      && item in Items(c, config, now) && IsPutBack(now, item, next)
    ensures item == ItemFor(config, v, Cards, {g}, g) && next == config
  {
    var h := OfferedIsGone(c, config, v, Cards, {g}, item);
    OneBackInAPlainList(config, v, g, next);
  }

  /** Put back the other way round, two cards ahead of a third end up behind it. */
  lemma SecondFirstGoesAstray(config: Config, v: nat, next: Config)
    requires Original(config, v, Cards) && |List(config, v, Cards)| == 3
    requires IsPutBack(Without(config, v, Cards, {0, 1}), ItemFor(config, v, Cards, {0, 1}, 1), next)
    ensures var L := List(config, v, Cards); ListAt(next, v, Cards) == Some([L[2], L[1]])
    ensures next != Without(config, v, Cards, {0})
  {
    var L, gone := List(config, v, Cards), {0, 1};
    FoundInBoth(config, v, Cards, gone);
    StayingStep(L, gone, 0);
    StayingStep(L, gone, 1);
    StayingStep(L, gone, 2);
    assert List(Without(config, v, Cards, gone), v, Cards) == [L[2]];
    assert InsertAt([L[2]], 1, L[1]) == [L[2], L[1]];
    assert ListAt(next, v, Cards) == Some(InsertAt([L[2]], 1, L[1]));
    BackInAPlainListExactly(config, v, gone, 1, next);
    assert gone - {1} == {0};
  }

  lemma OfferedGoesBack(c: Comparison, config: Config, v: nat, s: nat, left: set<nat>, item: Item) returns (g: nat)
    requires Original(config, v, SectionCards(s)) && forall g :: g in left ==> g < |List(config, v, SectionCards(s))|
    requires IsComparison(c, config, Without(config, v, SectionCards(s), left)) && Readable(c, config)
    requires item in Items(c, config, Without(config, v, SectionCards(s), left))
    ensures g in left && WellFormed(item) && CanPutBack(Without(config, v, SectionCards(s), left), item)
    ensures forall next :: IsPutBack(Without(config, v, SectionCards(s), left), item, next) ==>
      next == Without(config, v, SectionCards(s), left - {g})
  {
    g := OfferedIsGone(c, config, v, SectionCards(s), left, item);
    NotRefused(config, v, s, left, g);
    StayingCount(List(config, v, SectionCards(s)), left, g, |List(config, v, SectionCards(s))|);
    forall next | IsPutBack(Without(config, v, SectionCards(s), left), item, next)
      ensures next == Without(config, v, SectionCards(s), left - {g})
    {
      BackInItsSection(config, v, s, left, g, next);
    }
  }

  method PutOneBack(config: Config, v: nat, s: nat, now: Config, pick: nat, ghost left: set<nat>)
    returns (next: Config, ghost g: nat)
    requires Original(config, v, SectionCards(s)) && forall g :: g in left ==> g < |List(config, v, SectionCards(s))|
    requires now == Without(config, v, SectionCards(s), left) && left != {}
    ensures g in left && next == Without(config, v, SectionCards(s), left - {g})
  {
    var items := FindRemoved.FindRemoved(config, now);
    ghost var c :| IsReport(c, items, config, now);
    NeverStuck(c, config, v, s, left);
    var item := items[pick % |items|];
    g := OfferedGoesBack(c, config, v, s, left, item);
    var answer := Reinsert(now, item);
    next := answer.value;
  }

  /** Asking for what is gone and putting one of it back, as often as something is gone. */
  method PutAllBack(config: Config, v: nat, s: nat, gone: set<nat>, picks: seq<nat>) returns (now: Config)
    requires Original(config, v, SectionCards(s)) && forall g :: g in gone ==> g < |List(config, v, SectionCards(s))|
    requires |picks| == |gone|
    ensures now == config
  {
    now := Without(config, v, SectionCards(s), gone);
    ghost var left := gone;
    for k := 0 to |picks|
      invariant left <= gone && |left| + k == |gone|
      invariant now == Without(config, v, SectionCards(s), left)
    {
      ghost var g;
      now, g := PutOneBack(config, v, s, now, picks[k], left);
      left := left - {g};
    }
    NoneGone(config, v, SectionCards(s));
  }

  // -- a state against itself --------------------------------------------

  lemma ViewsAreTheirOwn(config: Config, u: nat)
    requires !PathsShare(config) && u < |config| && config[u].View?
    ensures Partner(config, config, u) == Some(u)
  {
    var w := ViewOf(config, Key(config, u), |config|);
    if w.Some? {
      OneViewAKey(config, u, w.value);
    }
  }

  lemma SelfPairings(pairings: Pairings, config: Config)
    requires !PathsShare(config) && ArePairings(pairings, config, config, |config|)
    ensures forall u: nat :: u in pairings ==>
      u < |config| && config[u].View? && AtHome(pairings[u], |config[u].sections|)
  {
    forall u: nat | u in pairings
      ensures u < |config| && config[u].View? && AtHome(pairings[u], |config[u].sections|)
    {
      ViewsAreTheirOwn(config, u);
      PairedAtHome(pairings[u], config[u].sections, config[u].sections, |config[u].sections|);
    }
  }

  /** A dashboard whose views do not share a path, compared with itself, reports nothing at all. */
  lemma NothingAgainstItself(c: Comparison, config: Config)
    requires !PathsShare(config) && IsComparison(c, config, config)
    ensures c.cards.removed == [] && c.cards.added == [] && c.cards.edited == [] && c.cards.moved == []
  {
    SelfPairings(c.pairings, config);
    TranslationStays(config, c.pairings, |config|);
    SlotsStay(c.before, c.translate);
    NothingChangedNothingReported(c.cards, c.before, c.translate);
  }
}
