/**
 * Cards deleted from a section while others of it are dragged to other lists: what
 * the comparison sees, what is offered, and where it goes back.
 */
module Dragging {
  import opened Wrappers
  import opened Sequences
  import opened Claims
  import opened CardMatching
  import opened SectionPairs
  import opened GapPairing
  import opened Dashboard
  import opened FindRemoved
  import opened PutBack
  import opened RoundTrip
  import opened Following
  import opened SectionTrip
  import opened Deletions
  import opened BestMatch

  // -- what the passes make of it ----------------------------------------

  /**
   * Some slots left, those in `to` for another list, the others for good. Every other
   * card is still where it was, as often as before; and but for the one card more
   * where each of those in `to` went, nothing is new.
   */
  ghost predicate Drift(before: seq<Slot>, after: seq<Slot>, gone: set<nat>, to: map<nat, Place>) {
    && gone !! to.Keys && (forall i :: i in gone + to.Keys ==> i < |before|)
    && (forall i, k :: i in gone + to.Keys && k in gone + to.Keys && i != k ==> before[i].card != before[k].card)
    && (forall i: nat :: i < |before| ==> Stays(before, after, gone + to.Keys, i))
    && (forall d :: d in to ==> OneMoreThere(before, after, (to[d], before[d].card)))
    && (forall key :: Having(NewPlaceKeys(after), key) != {} ==> OnlyArrivals(before, after, to, key))
  }

  ghost predicate Stays(before: seq<Slot>, after: seq<Slot>, left: set<nat>, i: nat)
    requires i < |before|
  {
    var key := (before[i].place, before[i].card);
    if i in left then Having(NewPlaceKeys(after), key) == {}
    else |Having(NewPlaceKeys(before), key)| <= |Having(NewPlaceKeys(after), key)|
  }

  predicate OneMoreThere(before: seq<Slot>, after: seq<Slot>, key: (Place, Card)) {
    |Having(NewPlaceKeys(after), key)| == |Having(NewPlaceKeys(before), key)| + 1
  }

  /** More of a card in a list than before only where one of those arrived. */
  ghost predicate OnlyArrivals(before: seq<Slot>, after: seq<Slot>, to: map<nat, Place>, key: (Place, Card)) {
    |Having(NewPlaceKeys(after), key)| > |Having(NewPlaceKeys(before), key)| ==>
      exists d :: d in to && d < |before| && key == (to[d], before[d].card)
  }

  lemma KeysStayPut(before: seq<Slot>, translate: Translation)
    requires StaysPut(before, translate)
    ensures OldPlaceKeys(before, translate) == NewPlaceKeys(before)
  {
  }

  ghost predicate InPlaceOf(inPlace: Pairs, before: seq<Slot>, after: seq<Slot>, translate: Translation) {
    inPlace == Claimed(Order(before, translate), NewPlaceKeys(before), NewPlaceKeys(after), {}, {})
  }

  /** What the first pass leaves of a key is the surplus of one side. */
  lemma FirstPassLeaves(before: seq<Slot>, after: seq<Slot>, translate: Translation, inPlace: Pairs, key: (Place, Card))
    requires InPlaceOf(inPlace, before, after, translate)
    ensures var olds, news := Having(NewPlaceKeys(before), key), Having(NewPlaceKeys(after), key);
      && |olds - Olds(inPlace)| == Surplus(|olds|, |news|) && |news - News(inPlace)| == Surplus(|news|, |olds|)
  {
    var order := Order(before, translate);
    ClaimedIsSound(order, NewPlaceKeys(before), NewPlaceKeys(after), {}, {});
    OneSideIsAll(order, NewPlaceKeys(before), NewPlaceKeys(after), key, inPlace);
    LeftOver(inPlace, NewPlaceKeys(before), NewPlaceKeys(after), key);
  }

  lemma NotInEmpty(s: set<nat>, i: nat)
    requires |s| == 0
    ensures i !in s
  {
  }

  /** Exactly those that left are not found in their places. */
  lemma LeftAreNotInPlace(before: seq<Slot>, after: seq<Slot>, translate: Translation, gone: set<nat>,
                          to: map<nat, Place>,
                          inPlace: Pairs)
    requires Drift(before, after, gone, to) && InPlaceOf(inPlace, before, after, translate)
    ensures forall i: nat :: i in Olds(inPlace) <==> i < |before| && i !in gone + to.Keys
  {
    ClaimedIsSound(Order(before, translate), NewPlaceKeys(before), NewPlaceKeys(after), {}, {});
    forall p | p in inPlace ensures p.0 < |before| && p.0 !in gone + to.Keys {
      assert Stays(before, after, gone + to.Keys, p.0);
      assert p.1 in Having(NewPlaceKeys(after), NewPlaceKeys(before)[p.0]);
    }
    forall i: nat | i < |before| && i !in gone + to.Keys ensures i in Olds(inPlace) {
      var key := NewPlaceKeys(before)[i];
      assert Stays(before, after, gone + to.Keys, i);
      FirstPassLeaves(before, after, translate, inPlace, key);
      NotInEmpty(Having(NewPlaceKeys(before), key) - Olds(inPlace), i);
      assert i in Having(NewPlaceKeys(before), key);
    }
  }

  /** What is new and not found in its place is one of those that arrived, and the only one of its key. */
  lemma UnclaimedArrived(before: seq<Slot>, after: seq<Slot>, translate: Translation, gone: set<nat>,
                         to: map<nat, Place>,
                         inPlace: Pairs, j: nat) returns (d: nat)
    requires Drift(before, after, gone, to) && InPlaceOf(inPlace, before, after, translate)
    requires j < |after| && j !in News(inPlace)
    ensures d in to && d < |before| && after[j].place == to[d] && after[j].card == before[d].card
    ensures |Having(NewPlaceKeys(after), NewPlaceKeys(after)[j]) - News(inPlace)| == 1
  {
    var key := NewPlaceKeys(after)[j];
    var over := Having(NewPlaceKeys(after), key) - News(inPlace);
    assert j in over;
    FirstPassLeaves(before, after, translate, inPlace, key);
    assert j in Having(NewPlaceKeys(after), key);
    assert OnlyArrivals(before, after, to, key);
    d :| d in to && d < |before| && key == (to[d], before[d].card);
    assert OneMoreThere(before, after, (to[d], before[d].card));
  }

  /** One of each that left for another list is new there and not found in its place. */
  lemma ArrivedUnclaimed(before: seq<Slot>, after: seq<Slot>, translate: Translation, gone: set<nat>,
                         to: map<nat, Place>,
                         inPlace: Pairs, d: nat) returns (j: nat)
    requires Drift(before, after, gone, to) && InPlaceOf(inPlace, before, after, translate) && d in to
    ensures j < |after| && j !in News(inPlace) && after[j].place == to[d] && after[j].card == before[d].card
  {
    var key := (to[d], before[d].card);
    assert OneMoreThere(before, after, key);
    FirstPassLeaves(before, after, translate, inPlace, key);
    var over := Having(NewPlaceKeys(after), key) - News(inPlace);
    j :| j in over;
  }

  ghost predicate DisplacedOf(displaced: Pairs, before: seq<Slot>, after: seq<Slot>, translate: Translation,
                              inPlace: Pairs) {
    displaced == Claimed(Order(before, translate), Marks(before), Marks(after), Olds(inPlace), News(inPlace))
  }

  /** Whoever is found elsewhere is one that left for there. */
  lemma FoundWhereItWent(before: seq<Slot>, after: seq<Slot>, translate: Translation, gone: set<nat>,
                         to: map<nat, Place>,
                         inPlace: Pairs, displaced: Pairs, p: (nat, nat))
    requires Drift(before, after, gone, to) && InPlaceOf(inPlace, before, after, translate)
    requires DisplacedOf(displaced, before, after, translate, inPlace) && p in displaced
    ensures p.0 in to && p.0 < |before| && p.1 < |after| && p.1 !in News(inPlace)
    ensures after[p.1].place == to[p.0] && after[p.1].card == before[p.0].card
  {
    ClaimedIsSound(Order(before, translate), Marks(before), Marks(after), Olds(inPlace), News(inPlace));
    assert p.0 in Olds(displaced) && p.1 in News(displaced);
    assert Marks(before)[p.0] == Marks(after)[p.1];
    LeftAreNotInPlace(before, after, translate, gone, to, inPlace);
    var d := UnclaimedArrived(before, after, translate, gone, to, inPlace, p.1);
  }

  /** And each that left for another list is found there. */
  lemma EachIsFound(before: seq<Slot>, after: seq<Slot>, translate: Translation, gone: set<nat>, to: map<nat, Place>,
                    inPlace: Pairs, displaced: Pairs, d: nat)
    requires Drift(before, after, gone, to) && InPlaceOf(inPlace, before, after, translate)
    requires DisplacedOf(displaced, before, after, translate, inPlace) && d in to
    ensures d in Olds(displaced)
  {
    var j := ArrivedUnclaimed(before, after, translate, gone, to, inPlace, d);
    LeftAreNotInPlace(before, after, translate, gone, to, inPlace);
    ClaimedIsMaximal(Order(before, translate), Marks(before), Marks(after), Olds(inPlace), News(inPlace), d, j);
    if d !in Olds(displaced) {
      var p :| p in displaced && p.1 == j;
      FoundWhereItWent(before, after, translate, gone, to, inPlace, displaced, p);
    }
  }

  /** Nothing new is left for the later passes. */
  lemma AllAreFound(before: seq<Slot>, after: seq<Slot>, translate: Translation, gone: set<nat>, to: map<nat, Place>,
                    inPlace: Pairs, displaced: Pairs, j: nat)
    requires Drift(before, after, gone, to) && InPlaceOf(inPlace, before, after, translate)
    requires DisplacedOf(displaced, before, after, translate, inPlace) && j < |after|
    ensures j in News(inPlace) || j in News(displaced)
  {
    if j !in News(inPlace) {
      var d := UnclaimedArrived(before, after, translate, gone, to, inPlace, j);
      EachIsFound(before, after, translate, gone, to, inPlace, displaced, d);
      var p :| p in displaced && p.0 == d;
      FoundWhereItWent(before, after, translate, gone, to, inPlace, displaced, p);
      var over := Having(NewPlaceKeys(after), NewPlaceKeys(after)[j]) - News(inPlace);
      assert p.1 in over && j in over;
      OneIsAll(over, p.1, j);
    }
  }

  lemma OneIsAll(s: set<nat>, a: nat, b: nat)
    requires |s| == 1 && a in s && b in s
    ensures a == b
  {
    var rest := s - {a};
    assert |rest| == 0;
  }

  /**
   * Exactly the cards deleted are given up on; each that was dragged is found where it
   * went; and nothing reads as added or edited.
   */
  lemma DriftIsSeen(m: Matching, before: seq<Slot>, after: seq<Slot>, translate: Translation, gone: set<nat>,
                    to: map<nat, Place>)
    requires IsMatching(m, before, after, translate) && StaysPut(before, translate) && Drift(before, after, gone, to)
    ensures forall i: nat :: i in m.removed <==> i in gone
    ensures forall p :: p in m.displaced ==> p.0 in to && p.1 < |after| && after[p.1].place == to[p.0]
    ensures forall d :: d in to ==> d in Olds(m.displaced)
    ensures m.added == [] && m.edited == []
  {
    KeysStayPut(before, translate);
    assert InPlaceOf(m.inPlace, before, after, translate);
    assert DisplacedOf(m.displaced, before, after, translate, m.inPlace);
    forall p | p in m.displaced ensures p.0 in to && p.1 < |after| && after[p.1].place == to[p.0] {
      FoundWhereItWent(before, after, translate, gone, to, m.inPlace, m.displaced, p);
    }
    forall d | d in to ensures d in Olds(m.displaced) {
      EachIsFound(before, after, translate, gone, to, m.inPlace, m.displaced, d);
    }
    forall j: nat | j < |after| ensures j in News(m.inPlace) || j in News(m.displaced) {
      AllAreFound(before, after, translate, gone, to, m.inPlace, m.displaced, j);
    }
    LeftAreNotInPlace(before, after, translate, gone, to, m.inPlace);
    EveryCardOnce(m, before, after, translate);
    NothingElse(m, |before|, |after|, gone, to.Keys);
  }

  lemma NothingElse(m: Matching, n: nat, k: nat, gone: set<nat>, away: set<nat>)
    requires News(m.edited) !! News(m.inPlace) && News(m.edited) !! News(m.displaced)
    requires forall j: nat :: j in News(m.edited) || j in m.added ==> j < k
    requires forall j: nat :: j in m.added ==> j !in News(m.inPlace) && j !in News(m.displaced)
    requires forall j: nat :: j < k ==> j in News(m.inPlace) || j in News(m.displaced)
    requires forall i: nat :: i in Olds(m.inPlace) <==> i < n && i !in gone + away
    requires gone !! away && (forall i :: i in gone + away ==> i < n)
    requires forall i :: i in Olds(m.displaced) <==> i in away
    requires forall i: nat :: i < n <==> i in Olds(m.inPlace) + Olds(m.displaced) + Olds(m.edited) || i in m.removed
    requires forall i: nat :: i in m.removed ==> i !in Olds(m.inPlace) && i !in Olds(m.displaced)
    ensures m.added == [] && m.edited == [] && forall i: nat :: i in m.removed <==> i in gone
  {
    FirstIn(m.added);
    FirstIn(m.edited);
    assert m.edited == [] || m.edited[0].1 in News(m.edited);
    assert m.edited == [] && Olds(m.edited) == {};
    forall i: nat ensures i in m.removed <==> i in gone {
      assert i in gone + away <==> i in gone || i in away;
      assert i in Olds(m.inPlace) + Olds(m.displaced) + Olds(m.edited) <==>
        i in Olds(m.inPlace) || i in Olds(m.displaced);
    }
  }

  // -- the two states ----------------------------------------------------

  predicate SameShell(one: Section, other: Section) {
    if one.Section? && other.Section? then
      one.own == other.own && one.cards.Some? == other.cards.Some?
    else one == other
  }

  /** The same views and sections, but for the cards in them. */
  ghost predicate SameFrame(config: Config, now: Config) {
    && |now| == |config|
    && (forall u: nat :: u < |config| ==> now[u].View? == config[u].View?)
    && (forall u: nat :: u < |config| && config[u].View? ==>
          && now[u].path == config[u].path && now[u].kind == config[u].kind
          && now[u].cards.Some? == config[u].cards.Some?
          && |now[u].sections| == |config[u].sections|
          && forall s :: 0 <= s < |config[u].sections| ==> SameShell(config[u].sections[s], now[u].sections[s]))
  }

  lemma FrameIsTheSame(config: Config, now: Config)
    requires SameFrame(config, now)
    ensures forall u: nat :: u < |config| && config[u].View? ==>
      Key(now, u) == Key(config, u) && Layout(now[u]) == Layout(config[u])
    ensures Keys(now) == Keys(config) && Shared(config, now) == Keys(config) && PathsShare(now) == PathsShare(config)
    ensures forall u: nat, at :: u < |config| ==> ListAt(now, u, at).Some? == ListAt(config, u, at).Some?
  {
    assert forall u: nat :: u < |config| && config[u].View? ==> Key(now, u) == Key(config, u);
    forall u: nat, at | u < |config| ensures ListAt(now, u, at).Some? == ListAt(config, u, at).Some? {
      if config[u].View? && at.SectionCards? && at.section < |config[u].sections| {
        assert SameShell(config[u].sections[at.section], now[u].sections[at.section]);
      }
    }
  }

  /** Where each position that was dragged away went: a view, and a list of it. */
  type Dest = map<nat, (nat, Location)>

  /** The cards of a list that went to one place. */
  function Arrived(cards: seq<Card>, dest: Dest, to: (nat, Location)): set<Card> {
    set x: nat | x in dest && x < |cards| && dest[x] == to :: cards[x]
  }

  /**
   * From one section, whose cards all differ, those at `gone` were deleted and those of
   * `dest` dragged to other lists, anywhere in them; no other card went or came.
   */
  ghost predicate Dragged(config: Config, now: Config, v: nat, s: nat, gone: set<nat>, dest: Dest) {
    var at := SectionCards(s);
    && Original(config, v, at) && SameFrame(config, now) && gone !! dest.Keys
    && (forall x :: x in gone + dest.Keys ==> x < |List(config, v, at)|)
    && (forall x :: x in dest ==>
          dest[x] != (v, at) && dest[x].0 < |config| && ListAt(config, dest[x].0, dest[x].1).Some?)
    && ListAt(now, v, at) == Some(Staying(List(config, v, at), gone + dest.Keys, |List(config, v, at)|))
    && (forall u: nat, other :: u < |config| && ListAt(config, u, other).Some? && (u, other) != (v, at) ==>
          ArrivedOnly(config, now, v, at, dest, u, other))
  }

  ghost predicate ArrivedOnly(config: Config, now: Config, v: nat, at: Location, dest: Dest, u: nat, other: Location)
    requires v < |config| && ListAt(config, v, at).Some? && u < |config| == |now| && ListAt(config, u, other).Some?
  {
    && ListAt(now, u, other).Some?
    && multiset(List(now, u, other)) ==
      multiset(List(config, u, other)) + multiset(Arrived(List(config, v, at), dest, (u, other)))
  }

  /** No section whose cards changed is, as it was, what another one has become. */
  ghost predicate SectionsTellApart(config: Config, now: Config) {
    && |now| == |config|
    && forall u: nat :: u < |config| && config[u].View? ==>
         now[u].View? && |now[u].sections| == |config[u].sections|
         && NoneReadsAsAnother(config[u].sections, now[u].sections)
  }

  // -- sections stay -----------------------------------------------------

  lemma FramesArePartners(config: Config, now: Config, u: nat)
    requires !PathsShare(config) && SameFrame(config, now) && u < |config|
    ensures Partner(config, now, u) == if config[u].View? then Some(u) else None
  {
    FrameIsTheSame(config, now);
    if config[u].View? {
      var w := ViewOf(now, Key(config, u), |now|);
      assert Key(now, u) == Key(config, u);
      if w.Some? {
        OneViewAKey(config, u, w.value);
      }
    }
  }

  lemma SectionsPutStay(pairings: Pairings, config: Config, now: Config)
    requires !PathsShare(config) && SameFrame(config, now) && SectionsTellApart(config, now)
    requires ArePairings(pairings, config, now, |config|)
    ensures forall u: nat :: u in pairings ==>
      u < |config| && config[u].View? && AtHome(pairings[u], |config[u].sections|)
  {
    forall u: nat | u in pairings
      ensures u < |config| && config[u].View? && AtHome(pairings[u], |config[u].sections|)
    {
      FramesArePartners(config, now, u);
      forall s | 0 <= s < |config[u].sections|
        ensures config[u].sections[s] == now[u].sections[s] || CardsChanged(config[u].sections[s], now[u].sections[s])
      {
        assert SameShell(config[u].sections[s], now[u].sections[s]);
      }
      PairedAtHomeAll(pairings[u], config[u].sections, now[u].sections);
    }
  }

  // -- how often a card stands in a list ---------------------------------

  /** As often as in the list its place names. */
  lemma HoldingCount(config: Config, keys: set<ViewKey>, u: nat, at: Location, card: Card)
    requires !PathsShare(config) && u < |config| && config[u].View? && ListAt(config, u, at).Some?
    requires Key(config, u) in keys
    ensures |Having(NewPlaceKeys(Flat(Blocks(config, keys))), (PlaceOf(config, u, at), card))| ==
      multiset(List(config, u, at))[card]
  {
    var slots, cards := Flat(Blocks(config, keys)), List(config, u, at);
    var one, other := Having(NewPlaceKeys(slots), (PlaceOf(config, u, at), card)), Having(cards, card);
    BlocksApart(config, keys);
    FlatIsWritten(Blocks(config, keys));
    forall i | i in one ensures i < |slots| && slots[i].index in other {
      var w, there := SlotIn(config, keys, i);
      ListOfPlace(config, u, at, w, there);
    }
    forall x | x in other ensures exists i :: i in one && slots[i].index == x {
      var i := SlotAt(config, keys, u, at, x);
      assert i in one;
    }
    Indexed(slots, one, other, PlaceOf(config, u, at));
    HavingIsCount(cards, card);
  }

  lemma Indexed(slots: seq<Slot>, one: set<nat>, other: set<nat>, place: Place)
    requires Written(slots) && forall i :: i in one ==>
      i < |slots| && slots[i].place == place && slots[i].index in other
    requires forall x :: x in other ==> exists i :: i in one && slots[i].index == x
    ensures |one| == |other|
  {
    var links := ByIndex(slots, one);
    forall i | i in one ensures exists p :: p in links && p.0 == i {
      assert (i, slots[i].index) in links;
    }
    forall x | x in other ensures exists p :: p in links && p.1 == x {
      var i :| i in one && slots[i].index == x;
      assert (i, slots[i].index) in links;
    }
    forall p, q | p in links && q in links ensures p.0 == q.0 <==> p.1 == q.1 {
      if p.1 == q.1 {
        OneSlotThere(slots, p.0, q.0);
      }
    }
    AsMany(links, one, other);
  }

  function ByIndex(slots: seq<Slot>, some: set<nat>): (links: set<(nat, nat)>)
    requires forall i :: i in some ==> i < |slots|
    ensures forall p :: p in links <==> p.0 in some && p.1 == slots[p.0].index
  {
    set i | i in some :: (i, slots[i].index)
  }

  lemma {:induction false} StayingFewer(cards: seq<Card>, left: set<nat>, n: nat)
    requires n <= |cards|
    ensures multiset(Staying(cards, left, n)) <= multiset(cards[..n])
  {
    if n > 0 {
      StayingFewer(cards, left, n - 1);
      assert cards[..n] == cards[..n - 1] + [cards[n - 1]];
    }
  }

  lemma {:induction false} StayingHolds(cards: seq<Card>, left: set<nat>, n: nat, card: Card)
    requires n <= |cards|
    ensures card in Staying(cards, left, n) <==> exists x: nat :: x < n && x !in left && cards[x] == card
  {
    if n > 0 {
      StayingHolds(cards, left, n - 1, card);
      StayingStep(cards, left, n - 1);
    }
  }

  lemma {:induction false} DifferentCount(cards: seq<Card>, card: Card)
    requires AllDifferent(cards)
    ensures multiset(cards)[card] <= 1
  {
    if cards != [] {
      var n := |cards| - 1;
      DifferentCount(cards[..n], card);
      assert cards == cards[..n] + [cards[n]];
      assert cards[n] !in cards[..n];
    }
  }

  /** What stays of a list: as often as before what was not left, and what left not at all. */
  lemma StayingCounts(cards: seq<Card>, left: set<nat>, x: nat)
    requires AllDifferent(cards) && x < |cards|
    ensures var stays := Staying(cards, left, |cards|);
      multiset(stays)[cards[x]] == if x in left then 0 else multiset(cards)[cards[x]]
  {
    StayingHolds(cards, left, |cards|, cards[x]);
    StayingFewer(cards, left, |cards|);
    assert cards[..|cards|] == cards;
    DifferentCount(cards, cards[x]);
    assert cards[x] in multiset(cards);
    assert multiset(Staying(cards, left, |cards|))[cards[x]] <= multiset(cards)[cards[x]];
  }

  // -- the drift of the slots --------------------------------------------

  /** The slots of a list at some of its positions. */
  function SlotsAt(slots: seq<Slot>, place: Place, positions: set<nat>): (found: set<nat>)
    ensures forall i: nat :: i in found <==> i < |slots| && slots[i].place == place && slots[i].index in positions
  {
    set i: nat | i < |slots| && slots[i].place == place && slots[i].index in positions
  }

  /** Where each slot that was dragged away is found. */
  function To(slots: seq<Slot>, config: Config, place: Place, dest: Dest): (to: map<nat, Place>)
    requires forall x :: x in dest ==> dest[x].0 < |config| && config[dest[x].0].View?
    ensures to.Keys == SlotsAt(slots, place, dest.Keys)
    ensures forall i :: i in to ==> to[i] == PlaceOf(config, dest[slots[i].index].0, dest[slots[i].index].1)
  {
    map i | i in SlotsAt(slots, place, dest.Keys) :: PlaceOf(config, dest[slots[i].index].0, dest[slots[i].index].1)
  }

  lemma SlotsApart(slots: seq<Slot>, place: Place, a: set<nat>, b: set<nat>)
    requires a !! b
    ensures SlotsAt(slots, place, a) !! SlotsAt(slots, place, b)
    ensures SlotsAt(slots, place, a) + SlotsAt(slots, place, b) == SlotsAt(slots, place, a + b)
  {
  }

  /** A slot of the section is one of its cards. */
  lemma SectionSlot(config: Config, v: nat, at: Location, i: nat)
    requires Original(config, v, at) && i < |Flat(Blocks(config, Keys(config)))|
    requires Flat(Blocks(config, Keys(config)))[i].place == PlaceOf(config, v, at)
    ensures var slot := Flat(Blocks(config, Keys(config)))[i];
      slot.index < |List(config, v, at)| && slot.card == List(config, v, at)[slot.index]
  {
    var u, there := SlotIn(config, Keys(config), i);
    ListOfPlace(config, v, at, u, there);
  }

  lemma CountsIn(config: Config, now: Config, u: nat, at: Location, card: Card)
    requires !PathsShare(config) && SameFrame(config, now) && u < |config| && config[u].View?
    requires ListAt(config, u, at).Some?
    ensures ListAt(now, u, at).Some?
    ensures var key := (PlaceOf(config, u, at), card);
      && |Having(NewPlaceKeys(Flat(Blocks(config, Keys(config)))), key)| == multiset(List(config, u, at))[card]
      && |Having(NewPlaceKeys(Flat(Blocks(now, Keys(config)))), key)| == multiset(List(now, u, at))[card]
  {
    FrameIsTheSame(config, now);
    HoldingCount(config, Keys(config), u, at, card);
    HoldingCount(now, Keys(config), u, at, card);
  }

  /** What stays in the section is there once as before, what left not at all. */
  lemma SectionStays(config: Config, now: Config, v: nat, s: nat, gone: set<nat>, dest: Dest, i: nat)
    requires Dragged(config, now, v, s, gone, dest) && i < |Flat(Blocks(config, Keys(config)))|
    requires Flat(Blocks(config, Keys(config)))[i].place == PlaceOf(config, v, SectionCards(s))
    ensures var before, after, place := Flat(Blocks(config, Keys(config))), Flat(Blocks(now, Keys(config))),
                                        PlaceOf(config, v, SectionCards(s));
      Stays(before, after, SlotsAt(before, place, gone + dest.Keys), i)
  {
    var before, at := Flat(Blocks(config, Keys(config))), SectionCards(s);
    SectionSlot(config, v, at, i);
    CountsIn(config, now, v, at, before[i].card);
    StayingCounts(List(config, v, at), gone + dest.Keys, before[i].index);
  }

  /** In the other lists every card stays. */
  lemma OthersStay(config: Config, now: Config, v: nat, s: nat, gone: set<nat>, dest: Dest, i: nat)
    requires Dragged(config, now, v, s, gone, dest) && i < |Flat(Blocks(config, Keys(config)))|
    requires Flat(Blocks(config, Keys(config)))[i].place != PlaceOf(config, v, SectionCards(s))
    ensures var before, after, place := Flat(Blocks(config, Keys(config))), Flat(Blocks(now, Keys(config))),
                                        PlaceOf(config, v, SectionCards(s));
      Stays(before, after, SlotsAt(before, place, gone + dest.Keys), i)
  {
    var before := Flat(Blocks(config, Keys(config)));
    var u, other := SlotIn(config, Keys(config), i);
    CountsIn(config, now, u, other, before[i].card);
    assert ArrivedOnly(config, now, v, SectionCards(s), dest, u, other);
  }

  lemma OneArrived(cards: seq<Card>, dest: Dest, x: nat)
    requires AllDifferent(cards) && x in dest && x < |cards|
    ensures multiset(Arrived(cards, dest, dest[x]))[cards[x]] == 1
  {
    assert cards[x] in Arrived(cards, dest, dest[x]);
  }

  lemma OneMoreWhereItWent(config: Config, now: Config, v: nat, s: nat, gone: set<nat>, dest: Dest, d: nat)
    requires Dragged(config, now, v, s, gone, dest)
    requires var before := Flat(Blocks(config, Keys(config)));
      d < |before| && before[d].place == PlaceOf(config, v, SectionCards(s)) && before[d].index in dest
    ensures var before, after := Flat(Blocks(config, Keys(config))), Flat(Blocks(now, Keys(config)));
      var to := dest[before[d].index];
      && to.0 < |config| && config[to.0].View?
      && OneMoreThere(before, after, (PlaceOf(config, to.0, to.1), before[d].card))
  {
    var before, at := Flat(Blocks(config, Keys(config))), SectionCards(s);
    var x := before[d].index;
    var u, other := dest[x].0, dest[x].1;
    SectionSlot(config, v, at, d);
    assert (u, other) == dest[x];
    CountsIn(config, now, u, other, before[d].card);
    assert ArrivedOnly(config, now, v, at, dest, u, other);
    OneArrived(List(config, v, at), dest, x);
  }

  lemma NewOnlyWhereTheyWent(config: Config, now: Config, v: nat, s: nat, gone: set<nat>, dest: Dest,
                             to: map<nat, Place>, b: nat)
    requires Dragged(config, now, v, s, gone, dest) && b < |Flat(Blocks(now, Keys(config)))|
    requires forall x :: x in dest ==> config[dest[x].0].View?
    requires to == To(Flat(Blocks(config, Keys(config))), config, PlaceOf(config, v, SectionCards(s)), dest)
    ensures var before, after := Flat(Blocks(config, Keys(config))), Flat(Blocks(now, Keys(config)));
      OnlyArrivals(before, after, to, NewPlaceKeys(after)[b])
  {
    var before, after := Flat(Blocks(config, Keys(config))), Flat(Blocks(now, Keys(config)));
    var at, L := SectionCards(s), List(config, v, SectionCards(s));
    FrameIsTheSame(config, now);
    var u, other := SlotIn(now, Keys(config), b);
    CountsIn(config, now, u, other, after[b].card);
    if (u, other) == (v, at) {
      StayingFewer(L, gone + dest.Keys, |L|);
      assert L[..|L|] == L;
      assert multiset(List(now, v, at))[after[b].card] <= multiset(L)[after[b].card];
    } else {
      assert ArrivedOnly(config, now, v, at, dest, u, other);
      if after[b].card in Arrived(L, dest, (u, other)) {
        var x: nat :| x in dest && x < |L| && dest[x] == (u, other) && L[x] == after[b].card;
        var d := SlotOf(config, v, at, x);
        assert d in to && to[d] == PlaceOf(config, u, other);
      }
    }
  }

  lemma LeftDiffer(config: Config, v: nat, at: Location, left: set<nat>, i: nat, k: nat)
    requires Original(config, v, at)
    requires var slots := Flat(Blocks(config, Keys(config)));
      i in SlotsAt(slots, PlaceOf(config, v, at), left) && k in SlotsAt(slots, PlaceOf(config, v, at), left) && i != k
    ensures var slots := Flat(Blocks(config, Keys(config))); slots[i].card != slots[k].card
  {
    var slots := Flat(Blocks(config, Keys(config)));
    BlocksApart(config, Keys(config));
    FlatIsWritten(Blocks(config, Keys(config)));
    SectionSlot(config, v, at, i);
    SectionSlot(config, v, at, k);
    if slots[i].index == slots[k].index {
      OneSlotThere(slots, i, k);
    }
  }

  lemma DestinationsAreViews(config: Config, now: Config, v: nat, s: nat, gone: set<nat>, dest: Dest)
    requires Dragged(config, now, v, s, gone, dest)
    ensures forall x :: x in dest ==> dest[x].0 < |config| && config[dest[x].0].View?
  {
  }

  /** That is all that happened to the slots. */
  lemma DraggedIsDrift(config: Config, now: Config, v: nat, s: nat, gone: set<nat>, dest: Dest)
    requires Dragged(config, now, v, s, gone, dest) && forall x :: x in dest ==> config[dest[x].0].View?
    ensures var before, after, place := Flat(Blocks(config, Keys(config))), Flat(Blocks(now, Keys(config))),
                                        PlaceOf(config, v, SectionCards(s));
      Drift(before, after, SlotsAt(before, place, gone), To(before, config, place, dest))
  {
    var before, after := Flat(Blocks(config, Keys(config))), Flat(Blocks(now, Keys(config)));
    var place := PlaceOf(config, v, SectionCards(s));
    var mine, to := SlotsAt(before, place, gone), To(before, config, place, dest);
    SlotsApart(before, place, gone, dest.Keys);
    forall i, k | i in mine + to.Keys && k in mine + to.Keys && i != k ensures before[i].card != before[k].card {
      LeftDiffer(config, v, SectionCards(s), gone + dest.Keys, i, k);
    }
    forall i: nat | i < |before| ensures Stays(before, after, mine + to.Keys, i) {
      if before[i].place == place {
        SectionStays(config, now, v, s, gone, dest, i);
      } else {
        OthersStay(config, now, v, s, gone, dest, i);
      }
    }
    forall d | d in to ensures OneMoreThere(before, after, (to[d], before[d].card)) {
      OneMoreWhereItWent(config, now, v, s, gone, dest, d);
    }
    forall key | Having(NewPlaceKeys(after), key) != {} ensures OnlyArrivals(before, after, to, key) {
      var b :| b in Having(NewPlaceKeys(after), key);
      NewOnlyWhereTheyWent(config, now, v, s, gone, dest, to, b);
    }
  }

  // -- what the comparison says ------------------------------------------

  /** Exactly the cards deleted are removed, each dragged one is found where it went, and nothing else is said. */
  lemma ComparedAfterDrag(c: Comparison, config: Config, now: Config, v: nat, s: nat, gone: set<nat>, dest: Dest)
    requires Dragged(config, now, v, s, gone, dest) && SectionsTellApart(config, now) && IsComparison(c, config, now)
    requires forall x :: x in dest ==> config[dest[x].0].View?
    ensures StaysPut(c.before, c.translate) && c.blocks == Blocks(config, Keys(config)) && c.before == Flat(c.blocks)
    ensures var place := PlaceOf(config, v, SectionCards(s)); var to := To(c.before, config, place, dest);
      && (forall i: nat :: i in c.cards.removed <==> i in SlotsAt(c.before, place, gone))
      && (forall p :: p in c.cards.displaced ==> p.0 in to && p.1 < |c.after| && c.after[p.1].place == to[p.0])
      && (forall d :: d in to ==> d in Olds(c.cards.displaced))
    ensures c.cards.added == [] && c.cards.edited == []
  {
    FrameIsTheSame(config, now);
    ComparedOver(c, config, now);
    SectionsPutStay(c.pairings, config, now);
    TranslationStays(config, c.pairings, |config|);
    SlotsStay(c.before, c.translate);
    DraggedIsDrift(config, now, v, s, gone, dest);
    var place := PlaceOf(config, v, SectionCards(s));
    DriftIsSeen(c.cards, c.before, c.after, c.translate, SlotsAt(c.before, place, gone),
                To(c.before, config, place, dest));
  }

  lemma NoneWentWhole(c: Comparison, config: Config, now: Config, key: ViewKey)
    requires !PathsShare(config) && SameFrame(config, now) && SectionsTellApart(config, now)
    requires IsComparison(c, config, now) && Readable(c, config)
    ensures WentWhole(c, config, now, key).None?
  {
    SectionsPutStay(c.pairings, config, now);
    NoSectionLeft(config, c.pairings, key, |config|);
    NoneLeftNoneWhole(c, config, now, key);
  }

  lemma HomeOfSlot(config: Config, i: nat, v: nat, at: Location)
    requires !PathsShare(config) && v < |config| && config[v].View? && i < |Flat(Blocks(config, Keys(config)))|
    requires Flat(Blocks(config, Keys(config)))[i].place == PlaceOf(config, v, at)
    ensures Homes(Blocks(config, Keys(config)))[i] == v
  {
    var blocks := Blocks(config, Keys(config));
    var k := FlatIsOf(blocks, i);
    assert blocks[k] in blocks;
    BlockIsOf(config, Keys(config), blocks[k]);
    OneViewAKey(config, v, blocks[k].home);
  }

  /** The cards given up on, view by view. */
  lemma GoneAfterDrag(c: Comparison, config: Config, now: Config, v: nat, s: nat, gone: set<nat>, dest: Dest, u: nat)
    requires Dragged(config, now, v, s, gone, dest) && SectionsTellApart(config, now) && IsComparison(c, config, now)
    requires Readable(c, config) && forall x :: x in dest ==> config[dest[x].0].View?
    ensures forall i: nat :: i in Gone(c, config, now, u) <==>
      u == v && i in SlotsAt(c.before, PlaceOf(config, v, SectionCards(s)), gone)
  {
    ComparedAfterDrag(c, config, now, v, s, gone, dest);
    forall i: nat ensures i in Gone(c, config, now, u) <==>
      u == v && i in SlotsAt(c.before, PlaceOf(config, v, SectionCards(s)), gone)
    {
      if i in SlotsAt(c.before, PlaceOf(config, v, SectionCards(s)), gone) {
        HomeOfSlot(config, i, v, SectionCards(s));
        NoneWentWhole(c, config, now, c.before[i].place.view);
      }
    }
  }

  /** The positions dragged to another list of the view itself. */
  function Within(dest: Dest, v: nat): set<nat> {
    set x | x in dest && dest[x].0 == v
  }

  lemma DisplacedIsMoved(c: Comparison, config: Config, now: Config, p: (nat, nat))
    requires IsComparison(c, config, now) && Readable(c, config)
    ensures p in c.cards.displaced ==> p in c.cards.moved
    ensures p in c.cards.moved && !c.SamePlace(p) ==> p in c.cards.displaced
  {
    if p in c.cards.moved && p !in c.cards.displaced {
      MovedInRange(c.cards, c.before, c.after, c.translate, p);
      ClaimedIsSound(Order(c.before, c.translate), OldPlaceKeys(c.before, c.translate), NewPlaceKeys(c.after), {}, {});
      assert OldPlaceKeys(c.before, c.translate)[p.0] == NewPlaceKeys(c.after)[p.1];
    }
  }

  /** What counts as away from the view's lists, and what as departed within it. */
  lemma AwayAfterDrag(c: Comparison, config: Config, now: Config, v: nat, s: nat, gone: set<nat>, dest: Dest,
                      within: bool)
    requires Dragged(config, now, v, s, gone, dest) && SectionsTellApart(config, now) && IsComparison(c, config, now)
    requires Readable(c, config) && forall x :: x in dest ==> config[dest[x].0].View?
    ensures PositionsAt(Away(c, config, v, within), SectionCards(s)) == if within then Within(dest, v) else dest.Keys
  {
    var at := SectionCards(s);
    ComparedAfterDrag(c, config, now, v, s, gone, dest);
    forall x: nat ensures (at, x) in Away(c, config, v, within) <==> x in dest && (within ==> dest[x].0 == v) {
      if x in dest && (within ==> dest[x].0 == v) {
        DraggedIsAway(c, config, now, v, s, gone, dest, within, x);
      }
      if (at, x) in Away(c, config, v, within) {
        AwayIsDragged(c, config, now, v, s, gone, dest, within, x);
      }
    }
    forall x: nat ensures x in PositionsAt(Away(c, config, v, within), at) <==> (at, x) in Away(c, config, v, within) {
      SpotIsThere(Away(c, config, v, within), at, x);
    }
  }

  lemma DraggedIsAway(c: Comparison, config: Config, now: Config, v: nat, s: nat, gone: set<nat>, dest: Dest,
                      within: bool, x: nat)
    requires Dragged(config, now, v, s, gone, dest) && SectionsTellApart(config, now) && IsComparison(c, config, now)
    requires Readable(c, config) && (forall y :: y in dest ==> config[dest[y].0].View?)
    requires x in dest && (within ==> dest[x].0 == v)
    ensures (SectionCards(s), x) in Away(c, config, v, within)
  {
    var at := SectionCards(s);
    ComparedAfterDrag(c, config, now, v, s, gone, dest);
    var d := SlotOf(config, v, at, x);
    HomeOfSlot(config, d, v, at);
    var p := FoundMoved(c, config, now, PlaceOf(config, v, at), To(c.before, config, PlaceOf(config, v, at), dest), d);
    ElsewhereThan(config, v, at, dest[x]);
    SpotIsAway(c, config, v, within, p);
  }

  lemma ElsewhereThan(config: Config, v: nat, at: Location, to: (nat, Location))
    requires !PathsShare(config) && v < |config| && config[v].View? && to.0 < |config| && config[to.0].View?
    requires to != (v, at)
    ensures PlaceOf(config, to.0, to.1) != PlaceOf(config, v, at)
  {
    if PlaceOf(config, to.0, to.1) == PlaceOf(config, v, at) {
      ListOfPlace(config, to.0, to.1, v, at);
    }
  }

  lemma FoundMoved(c: Comparison, config: Config, now: Config, place: Place, to: map<nat, Place>, d: nat)
    returns (p: (nat, nat))
    requires IsComparison(c, config, now) && Readable(c, config) && StaysPut(c.before, c.translate)
    requires d in to && d < |c.before| && c.before[d].place == place && d in Olds(c.cards.displaced)
    requires forall q :: q in c.cards.displaced ==> q.0 in to && q.1 < |c.after| && c.after[q.1].place == to[q.0]
    ensures p in c.cards.moved && p.0 == d && p.1 < |c.after| && c.after[p.1].place == to[d]
    ensures Translated(c.before[d], c.translate) == place
  {
    p :| p in c.cards.displaced && p.0 == d;
    DisplacedIsMoved(c, config, now, p);
  }

  lemma SpotIsAway(c: Comparison, config: Config, v: nat, within: bool, p: (nat, nat))
    requires Readable(c, config) && p in c.cards.moved && p.0 < |c.before| && p.1 < |c.after|
    requires Translated(c.before[p.0], c.translate) != c.after[p.1].place && c.before == Flat(c.blocks)
    requires Homes(c.blocks)[p.0] == v && (within ==> c.after[p.1].place.view == c.before[p.0].place.view)
    ensures (c.before[p.0].place.location, c.before[p.0].index) in Away(c, config, v, within)
  {
    assert !c.SamePlace(p);
  }

  lemma AwayIsDragged(c: Comparison, config: Config, now: Config, v: nat, s: nat, gone: set<nat>, dest: Dest,
                      within: bool, x: nat)
    requires Dragged(config, now, v, s, gone, dest) && SectionsTellApart(config, now) && IsComparison(c, config, now)
    requires Readable(c, config) && (forall y :: y in dest ==> config[dest[y].0].View?)
    requires (SectionCards(s), x) in Away(c, config, v, within)
    ensures x in dest && (within ==> dest[x].0 == v)
  {
    ComparedAfterDrag(c, config, now, v, s, gone, dest);
    var p :| p in c.cards.moved && !c.SamePlace(p) && Homes(c.blocks)[p.0] == v
      && (within ==> c.after[p.1].place.view == c.before[p.0].place.view)
      && (c.before[p.0].place.location, c.before[p.0].index) == (SectionCards(s), x);
    DisplacedIsMoved(c, config, now, p);
    if within {
      OneViewAKey(config, dest[x].0, v);
    }
  }

  // -- what is offered ---------------------------------------------------

  /** How the section is recognised: by every card still there, with the cards that left within the view beside it. */
  function DraggedAnchor(config: Config, v: nat, s: nat, left: set<nat>, within: set<nat>, g: nat): Anchor
    requires v < |config| && ListAt(config, v, SectionCards(s)).Some? && g < |List(config, v, SectionCards(s))|
  {
    var L := List(config, v, SectionCards(s));
    Anchor(|config[v].sections|, Some(config[v].sections[s].own),
           Staying(L, left, |L|), |Staying(L, left, g)|, At(L, within, |L|))
  }

  function DraggedItem(config: Config, v: nat, s: nat, gone: set<nat>, dest: Dest, g: nat): Item
    requires v < |config| && config[v].View? && ListAt(config, v, SectionCards(s)).Some?
    requires g < |List(config, v, SectionCards(s))|
  {
    CardItem(config[v].path, Ordinal(config, v), SectionCards(s), g, List(config, v, SectionCards(s))[g],
             Some(DraggedAnchor(config, v, s, gone + dest.Keys, Within(dest, v), g)))
  }

  lemma LeftAfterDrag(c: Comparison, config: Config, now: Config, v: nat, s: nat, gone: set<nat>, dest: Dest)
    requires Dragged(config, now, v, s, gone, dest) && SectionsTellApart(config, now) && IsComparison(c, config, now)
    requires Readable(c, config) && forall x :: x in dest ==> config[dest[x].0].View?
    ensures PositionsAt(Left(c, config, now, v), SectionCards(s)) == gone + dest.Keys
  {
    var at, mine := SectionCards(s), Gone(c, config, now, v);
    ComparedAfterDrag(c, config, now, v, s, gone, dest);
    GoneAfterDrag(c, config, now, v, s, gone, dest, v);
    AwayAfterDrag(c, config, now, v, s, gone, dest, false);
    forall g | g in gone ensures exists i :: i in mine && c.before[i].index == g {
      var i := SlotOf(config, v, at, g);
      assert i in mine;
    }
    SpotsOf(c.before, mine, at, gone);
    BothSpots(Spots(c.before, mine), Away(c, config, v, false), at);
  }

  lemma BothSpots(a: set<Spot>, b: set<Spot>, at: Location)
    ensures PositionsAt(a + b, at) == PositionsAt(a, at) + PositionsAt(b, at)
  {
  }

  lemma DraggedItemIs(c: Comparison, config: Config, now: Config, v: nat, s: nat, gone: set<nat>, dest: Dest, i: nat)
    requires Dragged(config, now, v, s, gone, dest) && SectionsTellApart(config, now) && IsComparison(c, config, now)
    requires Readable(c, config) && forall x :: x in dest ==> config[dest[x].0].View?
    requires i < |c.before| && i in SlotsAt(c.before, PlaceOf(config, v, SectionCards(s)), gone)
    ensures c.before[i].index in gone && c.before[i].index < |List(config, v, SectionCards(s))|
    ensures CardItemOf(config[v], Ordinal(config, v), c.before[i], Left(c, config, now, v), Away(c, config, v, true)) ==
      DraggedItem(config, v, s, gone, dest, c.before[i].index)
  {
    ComparedAfterDrag(c, config, now, v, s, gone, dest);
    SectionSlot(config, v, SectionCards(s), i);
    LeftAfterDrag(c, config, now, v, s, gone, dest);
    AwayAfterDrag(c, config, now, v, s, gone, dest, true);
    AnchorAfterDrag(config, v, s, gone + dest.Keys, Within(dest, v), Left(c, config, now, v), Away(c, config, v, true),
                    c.before[i].index);
  }

  lemma AnchorAfterDrag(config: Config, v: nat, s: nat, left: set<nat>, within: set<nat>, spots: set<Spot>,
                        departed: set<Spot>, g: nat)
    requires v < |config| && config[v].View? && ListAt(config, v, SectionCards(s)).Some?
    requires g < |List(config, v, SectionCards(s))| && within <= left
    requires PositionsAt(spots, SectionCards(s)) == left && PositionsAt(departed, SectionCards(s)) == within
    ensures AnchorOf(config[v], SectionCards(s), g, spots, departed) ==
      Some(DraggedAnchor(config, v, s, left, within, g))
  {
    assert left * within == within;
  }

  /** Exactly the cards deleted are offered, each with every card still there as its anchor. */
  lemma OfferedAfterDrag(c: Comparison, config: Config, now: Config, v: nat, s: nat, gone: set<nat>, dest: Dest,
                         item: Item)
    requires Dragged(config, now, v, s, gone, dest) && SectionsTellApart(config, now) && IsComparison(c, config, now)
    requires Readable(c, config)
    ensures item in Items(c, config, now) <==> exists g :: g in gone && item == DraggedItem(config, v, s, gone, dest, g)
  {
    DestinationsAreViews(config, now, v, s, gone, dest);
    if item in Items(c, config, now) {
      var u := ItemsAreOf(c, config, now, item);
      OnlyCards(c, config, now, u);
      GoneAfterDrag(c, config, now, v, s, gone, dest, u);
      var i := CardItemsAreOf(config[u], Ordinal(config, u), c.before, Gone(c, config, now, u),
                              Left(c, config, now, u), Away(c, config, u, true), |c.before|, item);
      DraggedItemIs(c, config, now, v, s, gone, dest, i);
    }
    forall g | g in gone && item == DraggedItem(config, v, s, gone, dest, g) ensures item in Items(c, config, now) {
      var i := SlotOf(config, v, SectionCards(s), g);
      ComparedAfterDrag(c, config, now, v, s, gone, dest);
      GoneAfterDrag(c, config, now, v, s, gone, dest, v);
      DraggedItemIs(c, config, now, v, s, gone, dest, i);
      OnlyCards(c, config, now, v);
      OneIsOffered(c, config, now, v, i);
    }
  }

  lemma OnlyCards(c: Comparison, config: Config, now: Config, u: nat)
    requires !PathsShare(config) && SameFrame(config, now) && SectionsTellApart(config, now)
    requires IsComparison(c, config, now) && Readable(c, config) && u < |config| && config[u].View?
    ensures ViewItems(c, config, now, u) == CardItems(config[u], Ordinal(config, u), c.before, Gone(c, config, now, u),
                                                      Left(c, config, now, u), Away(c, config, u, true), |c.before|)
  {
    FrameIsTheSame(config, now);
    NoneWentWhole(c, config, now, Key(config, u));
    assert Key(config, u) in Keys(config);
    CardItemsAlone(c, config, now, u);
  }

  // -- whether it can go back --------------------------------------------

  /** How often a card stands in the sections from `from` on. */
  function Standing(sections: seq<Section>, card: Card, from: nat): nat
    requires from <= |sections|
    decreases |sections| - from
  {
    if from == |sections| then 0 else multiset(CardsOf(sections[from]))[card] + Standing(sections, card, from + 1)
  }

  lemma {:induction false} OccursCount(cards: seq<Card>, card: Card)
    ensures Occurrences(cards, card) == multiset(cards)[card]
  {
    if cards != [] {
      OccursCount(cards[1..], card);
      assert cards == [cards[0]] + cards[1..];
    }
  }

  lemma {:induction false} HoldersAre(sections: seq<Section>, card: Card, from: nat)
    requires from <= |sections|
    ensures |Holders(sections, card, from)| == Standing(sections, card, from)
    ensures forall h: nat :: h in Holders(sections, card, from) <==>
      from <= h < |sections| && card in CardsOf(sections[h])
    decreases |sections| - from
  {
    if from < |sections| {
      HoldersAre(sections, card, from + 1);
      OccursCount(CardsOf(sections[from]), card);
      var here := Repeat(from, Occurrences(CardsOf(sections[from]), card));
      assert here != [] ==> here[0] in here;
    }
  }

  /** The card stands more than once now, or in another section with these very settings. */
  ghost predicate CouldBeEither(sections: seq<Section>, s: nat, own: string, card: Card) {
    || Standing(sections, card, 0) > 1
    || exists h: nat :: h < |sections| && h != s && sections[h].Section? && sections[h].own == own
         && card in CardsOf(sections[h])
  }

  lemma AmbiguousExactly(sections: seq<Section>, s: nat, own: string, card: Card)
    ensures AmbiguousCard(sections, s, own, card) <==> CouldBeEither(sections, s, own, card)
  {
    var holders := Holders(sections, card, 0);
    HoldersAre(sections, card, 0);
    if |holders| == 1 {
      assert holders[0] in holders;
      forall h: nat | h in holders ensures h == holders[0] {
        var k :| 0 <= k < |holders| && holders[k] == h;
      }
    }
  }

  lemma {:induction false} AtHolds(cards: seq<Card>, positions: set<nat>, n: nat, card: Card)
    requires n <= |cards|
    ensures card in At(cards, positions, n) <==> exists x: nat :: x < n && x in positions && cards[x] == card
  {
    if n > 0 {
      AtHolds(cards, positions, n - 1, card);
      assert At(cards, positions, n) == At(cards, positions, n - 1) + if n - 1 in positions then [cards[n - 1]] else [];
    }
  }

  /** Whether one of the cards dragged away within the view could have been swapped for the section as well. */
  ghost predicate NeighbourTellsNothing(config: Config, now: Config, v: nat, s: nat, dest: Dest)
    requires v < |config| == |now| && now[v].View? && config[v].View? && s < |config[v].sections|
    requires config[v].sections[s].Section? && ListAt(config, v, SectionCards(s)).Some?
  {
    exists x: nat :: x < |List(config, v, SectionCards(s))| && x in dest && dest[x].0 == v
      && CouldBeEither(now[v].sections, s, config[v].sections[s].own, List(config, v, SectionCards(s))[x])
  }

  lemma DepartedExactly(config: Config, now: Config, v: nat, s: nat, dest: Dest)
    requires v < |config| == |now| && now[v].View? && config[v].View? && s < |config[v].sections|
    requires config[v].sections[s].Section? && ListAt(config, v, SectionCards(s)).Some?
    ensures var L := List(config, v, SectionCards(s));
      DepartedIsAmbiguous(now[v].sections, s, config[v].sections[s].own, At(L, Within(dest, v), |L|)) <==>
        NeighbourTellsNothing(config, now, v, s, dest)
  {
    var L, own, sections := List(config, v, SectionCards(s)), config[v].sections[s].own, now[v].sections;
    var departed := At(L, Within(dest, v), |L|);
    if card :| card in departed && AmbiguousCard(sections, s, own, card) {
      AtHolds(L, Within(dest, v), |L|, card);
      AmbiguousExactly(sections, s, own, card);
    }
    if x: nat :| x < |L| && x in dest && dest[x].0 == v && CouldBeEither(sections, s, own, L[x]) {
      AtHolds(L, Within(dest, v), |L|, L[x]);
      AmbiguousExactly(sections, s, own, L[x]);
    }
  }

  lemma FoundAfterDrag(config: Config, now: Config, v: nat, s: nat, gone: set<nat>, dest: Dest)
    requires Dragged(config, now, v, s, gone, dest)
    ensures FindView(now, config[v].path, Ordinal(config, v)) == Some(v) && !PathsShare(now)
    ensures s < |config[v].sections| == |now[v].sections|
    ensures config[v].sections[s].Section? && now[v].sections[s].Section?
    ensures now[v].sections[s].own == config[v].sections[s].own
    ensures CardsOf(now[v].sections[s]) == Staying(List(config, v, SectionCards(s)), gone + dest.Keys,
                                                   |List(config, v, SectionCards(s))|)
  {
    FrameIsTheSame(config, now);
    assert SameShell(config[v].sections[s], now[v].sections[s]);
    SameFound(config, now, config[v].path, Ordinal(config, v));
  }

  lemma SameFound(config: Config, now: Config, path: Option<string>, home: nat)
    requires SameFrame(config, now)
    ensures FindView(now, path, home) == FindView(config, path, home)
  {
    if path.Some? {
      SameFirst(config, now, path.value, 0);
    }
  }

  lemma {:induction false} SameFirst(config: Config, now: Config, path: string, from: nat)
    requires SameFrame(config, now) && from <= |config|
    ensures FirstWithPath(now, path, from) == FirstWithPath(config, path, from)
    decreases |config| - from
  {
    if from < |config| {
      SameFirst(config, now, path, from + 1);
    }
  }

  lemma WholeEmbeds(cards: seq<Card>)
    ensures Embeds(cards, cards)
  {
    assert IsEmbedding(Counting(|cards|), cards, cards);
  }

  /**
   * What was offered is not refused exactly where a card of the section still stands
   * in it, or no neighbour dragged away within the view stands where it could as well
   * have come with the section.
   */
  lemma NotRefusedAfterDrag(config: Config, now: Config, v: nat, s: nat, gone: set<nat>, dest: Dest, g: nat)
    requires Dragged(config, now, v, s, gone, dest) && g in gone
    ensures s < |config[v].sections| && config[v].sections[s].Section?
    ensures CanPutBack(now, DraggedItem(config, v, s, gone, dest, g)) <==>
      (|| (exists y: nat :: y < |List(config, v, SectionCards(s))| && y !in gone && y !in dest)
       || !NeighbourTellsNothing(config, now, v, s, dest))
  {
    var L, left := List(config, v, SectionCards(s)), gone + dest.Keys;
    FoundAfterDrag(config, now, v, s, gone, dest);
    DepartedExactly(config, now, v, s, dest);
    WholeEmbeds(Staying(L, left, |L|));
    SomeStay(L, left);
  }

  lemma SomeStay(cards: seq<Card>, left: set<nat>)
    ensures Staying(cards, left, |cards|) != [] <==> exists y: nat :: y < |cards| && y !in left
  {
    var stays := Staying(cards, left, |cards|);
    if stays != [] {
      assert stays[0] in stays;
      StayingHolds(cards, left, |cards|, stays[0]);
    }
    if y: nat :| y < |cards| && y !in left {
      StayingHolds(cards, left, |cards|, cards[y]);
    }
  }

  /** It goes back among the cards still there, to its place between them. */
  lemma BackAfterDrag(config: Config, now: Config, v: nat, s: nat, gone: set<nat>, dest: Dest, g: nat, next: Config)
    requires Dragged(config, now, v, s, gone, dest) && g in gone
    requires IsPutBack(now, DraggedItem(config, v, s, gone, dest, g), next)
    ensures ListAt(now, v, SectionCards(s)).Some?
    ensures next == WithList(now, v, SectionCards(s), Staying(List(config, v, SectionCards(s)), gone + dest.Keys - {g},
                                                              |List(config, v, SectionCards(s))|))
  {
    var at, L, left := SectionCards(s), List(config, v, SectionCards(s)), gone + dest.Keys;
    var survivors, before := Staying(L, left, |L|), |Staying(L, left, g)|;
    FoundAfterDrag(config, now, v, s, gone, dest);
    var k :| IsBeside(survivors, before, ListAt(now, v, at).value, k)
      && next == WithList(now, v, at, InsertAt(survivors, k, L[g]));
    StayingInsert(L, left, g, |L|);
    BesideIsThePlace(survivors, before, k);
  }
}
