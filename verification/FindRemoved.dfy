/** What a change removed, for Put back. */
module FindRemoved {
  import opened Wrappers
  import opened Sequences
  import opened Claims
  import opened CardMatching
  import opened SectionPairs
  import opened Dashboard

  /** What the section a removed card sat in was. */
  datatype Anchor = Anchor(count: nat, settings: Option<string>, survivors: seq<Card>, before: nat, departed: seq<Card>)

  datatype Item =
    | ViewItem(path: Option<string>, home: nat, index: nat, payload: View)
    | SectionItem(path: Option<string>, home: nat, index: nat, section: Section, neighbours: seq<Section>)
    | CardItem(path: Option<string>, home: nat, at: Location, index: nat, card: Card, anchor: Option<Anchor>)

  // -- pairing the sections of every view --------------------------------

  /** The view today a view of before is compared with, unless its layout changed. */
  function Partner(config: Config, now: Config, u: nat): (v: Option<nat>)
    requires u < |config|
    ensures v.Some? ==> v.value < |now| && now[v.value].View? && config[u].View?
  {
    if config[u].NotAView? then None
    else
      var v := ViewOf(now, Key(config, u), |now|);
      if v.Some? && Layout(config[u]) == Layout(now[v.value]) then v else None
  }

  type Pairings = map<nat, SectionPairing>

  ghost predicate ArePairings(pairings: Pairings, config: Config, now: Config, upto: nat)
    requires upto <= |config|
  {
    && (forall u: nat :: u in pairings <==> u < upto && Partner(config, now, u).Some?)
    && (forall u: nat :: u in pairings ==>
          IsPairing(pairings[u], config[u].sections, now[Partner(config, now, u).value].sections))
  }

  method PairSections(config: Config, now: Config) returns (pairings: Pairings)
    ensures ArePairings(pairings, config, now, |config|)
  {
    pairings := map[];
    for u := 0 to |config|
      invariant ArePairings(pairings, config, now, u)
    {
      var v := Partner(config, now, u);
      if v.Some? {
        var p := PairViewSections(config[u].sections, now[v.value].sections);
        pairings := pairings[u := p];
      }
    }
  }

  /** Where every paired section of the first `upto` views went; a later view of a key has the last word. */
  function TranslationOf(config: Config, pairings: Pairings, upto: nat): Translation
    requires upto <= |config| && forall u: nat :: u in pairings ==> u < |config| && config[u].View?
  {
    if upto == 0 then map[]
    else if upto - 1 in pairings then
      TranslationOf(config, pairings, upto - 1) + ViewTranslation(Key(config, upto - 1), Went(pairings[upto - 1].All()))
    else TranslationOf(config, pairings, upto - 1)
  }

  function ViewTranslation(key: ViewKey, went: map<nat, nat>): (translation: Translation)
    ensures forall at :: at in translation <==> at.0 == key && at.1 in went
    ensures forall at :: at in translation ==> translation[at] == went[at.1]
  {
    map at: (ViewKey, nat) | at in Sources(key, went) :: went[at.1]
  }

  function Sources(key: ViewKey, went: map<nat, nat>): (found: set<(ViewKey, nat)>)
    ensures forall at :: at in found <==> at.0 == key && at.1 in went
  {
    set s | s in went :: (key, s)
  }

  // -- all cards of two states -------------------------------------------

  datatype Comparison = Comparison(pairings: Pairings, translate: Translation, blocks: seq<Block>,
                                   before: seq<Slot>, after: seq<Slot>, cards: Matching)
  {
    function SamePlace(p: (nat, nat)): bool
      requires p.0 < |before| && p.1 < |after|
    {
      Translated(before[p.0], translate) == after[p.1].place
    }
  }

  function Shared(config: Config, now: Config): set<ViewKey> {
    Keys(config) * Keys(now)
  }

  ghost predicate IsComparison(c: Comparison, config: Config, now: Config) {
    && ArePairings(c.pairings, config, now, |config|)
    && c.translate == TranslationOf(config, c.pairings, |config|)
    && c.blocks == Blocks(config, Shared(config, now))
    && c.before == Flat(c.blocks) && c.after == Flat(Blocks(now, Shared(config, now)))
    && IsMatching(c.cards, c.before, c.after, c.translate)
  }

  method MatchCards(config: Config, now: Config) returns (c: Comparison)
    ensures IsComparison(c, config, now)
  {
    var pairings := PairSections(config, now);
    var translate := TranslationOf(config, pairings, |config|);
    var blocks := Blocks(config, Shared(config, now));
    var before, after := Flat(blocks), Flat(Blocks(now, Shared(config, now)));
    var cards := MatchSlots(before, after, translate, true);
    c := Comparison(pairings, translate, blocks, before, after, cards);
  }

  // -- a section that went whole -----------------------------------------

  /** The positions of a key's sections nothing paired, view by view. */
  function LeftSections(config: Config, pairings: Pairings, key: ViewKey, upto: nat): (left: seq<(nat, nat)>)
    requires upto <= |config| && forall u: nat :: u in pairings ==> u < |config| && config[u].View?
    ensures forall k :: 0 <= k < |left| ==>
      left[k].0 < upto && left[k].0 in pairings && left[k].1 < |config[left[k].0].sections|
  {
    if upto == 0 then []
    else LeftSections(config, pairings, key, upto - 1) + LeftSectionsOf(config, pairings, key, upto - 1)
  }

  /** Those of one view, where it has the key. */
  function LeftSectionsOf(config: Config, pairings: Pairings, key: ViewKey, u: nat): (left: seq<(nat, nat)>)
    requires u < |config| && (u in pairings ==> config[u].View?)
    ensures forall k :: 0 <= k < |left| ==> left[k].0 == u && u in pairings && left[k].1 < |config[u].sections|
  {
    if u in pairings && Key(config, u) == key then LeftOf(u, |config[u].sections|, Olds(pairings[u].All())) else []
  }

  function LeftOf(u: nat, n: nat, paired: set<nat>): (left: seq<(nat, nat)>)
    ensures forall k :: 0 <= k < |left| ==> left[k].0 == u && left[k].1 < n
    ensures (forall i: nat :: i < n ==> i in paired) ==> left == []
  {
    if n == 0 then []
    else LeftOf(u, n - 1, paired) + if n - 1 in paired then [] else [(u, n - 1)]
  }

  /** How many of the cards the matching gave up on stood at a place. */
  function CountAt(slots: seq<Slot>, removed: seq<nat>, place: Place): nat {
    |set i: nat | i < |slots| && i in removed && slots[i].place == place|
  }

  /** Whether every card of a section is among the cards given up on; an empty one never counts. */
  predicate Whole(c: Comparison, key: ViewKey, section: Section, s: nat) {
    && section.Section? && section.cards.Some? && section.cards.value != []
    && CountAt(c.before, c.cards.removed, Place(key, SectionCards(s))) == |section.cards.value|
  }

  function Wholes(c: Comparison, config: Config, key: ViewKey, left: seq<(nat, nat)>): (found: seq<(nat, nat)>)
    requires forall k :: 0 <= k < |left| ==>
      left[k].0 < |config| && config[left[k].0].View? && left[k].1 < |config[left[k].0].sections|
    ensures forall k :: 0 <= k < |found| ==>
      found[k].0 < |config| && config[found[k].0].View? && found[k].1 < |config[found[k].0].sections|
    ensures left == [] ==> found == []
  {
    if left == [] then []
    else (if Whole(c, key, config[left[0].0].sections[left[0].1], left[0].1) then [left[0]] else [])
         + Wholes(c, config, key, left[1..])
  }

  /** The one section a view that lost exactly one has proven to have lost whole. */
  function WentWhole(c: Comparison, config: Config, now: Config, key: ViewKey): (gone: Option<(nat, nat)>)
    requires forall u: nat :: u in c.pairings ==> u < |config| && config[u].View?
    ensures gone.Some? ==>
      gone.value.0 < |config| && config[gone.value.0].View? && gone.value.1 < |config[gone.value.0].sections|
  {
    var one, other := ViewOf(config, key, |config|), ViewOf(now, key, |now|);
    var found := Wholes(c, config, key, LeftSections(config, c.pairings, key, |config|));
    if one.Some? && other.Some? && |config[one.value].sections| == |now[other.value].sections| + 1 && |found| == 1
    then Some(found[0]) else None
  }

  /** A card given up on that is not part of a section that went whole. */
  predicate Loose(c: Comparison, config: Config, now: Config, i: nat)
    requires forall u: nat :: u in c.pairings ==> u < |config| && config[u].View?
  {
    i < |c.before| && i in c.cards.removed
    && (var whole := WentWhole(c, config, now, c.before[i].place.view);
        whole.None? || c.before[i].place.location != SectionCards(whole.value.1))
  }

  // -- the anchor of a card that sat in a section ------------------------

  /** The cards of a list at the positions named, of the first `n`. */
  function At(cards: seq<Card>, positions: set<nat>, n: nat): (found: seq<Card>)
    requires n <= |cards|
    ensures positions == {} ==> found == []
  {
    if n == 0 then [] else At(cards, positions, n - 1) + if n - 1 in positions then [cards[n - 1]] else []
  }

  type Spot = (Location, nat)

  function PositionsAt(spots: set<Spot>, at: Location): set<nat> {
    set spot | spot in spots && spot.0 == at :: spot.1
  }

  lemma SpotIsThere(spots: set<Spot>, at: Location, position: nat)
    ensures position in PositionsAt(spots, at) <==> (at, position) in spots
  {
    if position in PositionsAt(spots, at) {
      var spot :| spot in spots && spot.0 == at && spot.1 == position;
      assert spot == (at, position);
    }
    if (at, position) in spots {
      assert (at, position).1 in PositionsAt(spots, at);
    }
  }

  /** What the section was, and which of its cards should still stand in it. */
  function AnchorOf(view: View, at: Location, index: nat, left: set<Spot>, departed: set<Spot>): Option<Anchor>
    requires view.View?
  {
    if !at.SectionCards? then None
    else if at.section >= |view.sections| || view.sections[at.section].Stray? then
      Some(Anchor(|view.sections|, None, [], 0, []))
    else
      var cards, gone := CardsOf(view.sections[at.section]), PositionsAt(left, at);
      Some(Anchor(|view.sections|, Some(view.sections[at.section].own), Staying(cards, gone, |cards|),
                  |Staying(cards, gone, if index < |cards| then index else |cards|)|,
                  At(cards, gone * PositionsAt(departed, at), |cards|)))
  }

  method SectionAnchor(view: View, at: Location, index: nat, left: set<Spot>, departed: set<Spot>)
    returns (anchor: Option<Anchor>)
    requires view.View?
    ensures anchor == AnchorOf(view, at, index, left, departed)
  {
    if !at.SectionCards? {
      return None;
    }
    var settings: Option<string>, survivors: seq<Card>, away: seq<Card>, before := None, [], [], 0;
    if at.section < |view.sections| && view.sections[at.section].Section? {
      settings := Some(view.sections[at.section].own);
      var cards := CardsOf(view.sections[at.section]);
      ghost var gone := PositionsAt(left, at);
      for position := 0 to |cards|
        invariant survivors == Staying(cards, gone, position)
        invariant before == |Staying(cards, gone, if index < position then index else position)|
        invariant away == At(cards, gone * PositionsAt(departed, at), position)
      {
        SpotIsThere(left, at, position);
        SpotIsThere(departed, at, position);
        StayingStep(cards, gone, position);
        if (at, position) in left {
          if (at, position) in departed {
            away := away + [cards[position]];
          }
          continue;
        }
        survivors := survivors + [cards[position]];
        if position < index {
          before := before + 1;
        }
      }
    }
    anchor := Some(Anchor(|view.sections|, settings, survivors, before, away));
  }

  // -- the items ---------------------------------------------------------

  predicate Readable(c: Comparison, config: Config) {
    && (forall u: nat :: u in c.pairings ==> u < |config| && config[u].View?)
    && c.before == Flat(c.blocks)
    && (forall p :: p in c.cards.moved ==> p.0 < |c.before| && p.1 < |c.after|)
  }

  lemma ComparisonIsReadable(c: Comparison, config: Config, now: Config)
    requires IsComparison(c, config, now)
    ensures Readable(c, config)
  {
    forall p | p in c.cards.moved ensures p.0 < |c.before| && p.1 < |c.after| {
      MovedInRange(c.cards, c.before, c.after, c.translate, p);
    }
  }

  lemma MovedInRange(m: Matching, before: seq<Slot>, after: seq<Slot>, translate: Translation, p: (nat, nat))
    requires IsMatching(m, before, after, translate) && p in m.moved
    ensures p.0 < |before| && p.1 < |after|
    ensures p in m.displaced || p in m.inPlace
  {
    if p in m.displaced {
      assert p in m.All();
    } else {
      assert MovedInItsList(m, before, after, p);
      assert p in m.All();
    }
    var q :| 0 <= q < |m.All()| && m.All()[q] == p;
  }

  /** The spots of a view whose card left for another list, anywhere or within the view. */
  function Away(c: Comparison, config: Config, u: nat, within: bool): set<Spot>
    requires Readable(c, config)
  {
    set p | p in c.cards.moved && !c.SamePlace(p) && Homes(c.blocks)[p.0] == u
            && (within ==> c.after[p.1].place.view == c.before[p.0].place.view)
         :: (c.before[p.0].place.location, c.before[p.0].index)
  }

  /** The cards of a view that are gone, less those of a section that went whole. */
  function Gone(c: Comparison, config: Config, now: Config, u: nat): (gone: set<nat>)
    requires Readable(c, config)
    ensures forall i: nat :: i in gone <==> i < |c.before| && Homes(c.blocks)[i] == u && Loose(c, config, now, i)
  {
    set i: nat | i < |c.before| && Homes(c.blocks)[i] == u && Loose(c, config, now, i)
  }

  function Spots(slots: seq<Slot>, gone: set<nat>): set<Spot> {
    set i: nat | i < |slots| && i in gone :: (slots[i].place.location, slots[i].index)
  }

  function SectionItems(c: Comparison, config: Config, now: Config, u: nat): (items: seq<Item>)
    requires Readable(c, config) && u < |config| && config[u].View?
  {
    var whole := WentWhole(c, config, now, Key(config, u));
    if whole.None? then []
    else [SectionItem(config[u].path, Ordinal(config, u), whole.value.1, config[whole.value.0].sections[whole.value.1],
                      Neighbours(config[u].sections, whole.value.1))]
  }

  function CardItemOf(view: View, home: nat, slot: Slot, left: set<Spot>, departed: set<Spot>): Item
    requires view.View?
  {
    CardItem(view.path, home, slot.place.location, slot.index, slot.card,
             AnchorOf(view, slot.place.location, slot.index, left, departed))
  }

  function CardItems(view: View, home: nat, slots: seq<Slot>, gone: set<nat>, left: set<Spot>, departed: set<Spot>,
                     upto: nat): seq<Item>
    requires view.View? && upto <= |slots|
  {
    if upto == 0 then []
    else CardItems(view, home, slots, gone, left, departed, upto - 1)
         + if upto - 1 in gone then [CardItemOf(view, home, slots[upto - 1], left, departed)] else []
  }

  function Left(c: Comparison, config: Config, now: Config, u: nat): set<Spot>
    requires Readable(c, config)
  {
    Spots(c.before, Gone(c, config, now, u)) + Away(c, config, u, false)
  }

  function ViewItems(c: Comparison, config: Config, now: Config, u: nat): seq<Item>
    requires Readable(c, config) && u < |config| && config[u].View?
  {
    if Key(config, u) !in Keys(now) then [ViewItem(config[u].path, Ordinal(config, u), Ordinal(config, u), config[u])]
    else SectionItems(c, config, now, u)
         + CardItems(config[u], Ordinal(config, u), c.before, Gone(c, config, now, u),
                     Left(c, config, now, u), Away(c, config, u, true), |c.before|)
  }

  function ItemsOf(c: Comparison, config: Config, now: Config, u: nat): seq<Item>
    requires Readable(c, config) && u < |config|
  {
    if config[u].View? then ViewItems(c, config, now, u) else []
  }

  function ItemsByView(c: Comparison, config: Config, now: Config): seq<seq<Item>>
    requires Readable(c, config)
  {
    seq(|config|, u requires 0 <= u < |config| => ItemsOf(c, config, now, u))
  }

  /** What disappeared, view by view. */
  function Items(c: Comparison, config: Config, now: Config): seq<Item>
    requires Readable(c, config)
  {
    Concat(ItemsByView(c, config, now))
  }

  /** What disappeared from one view: the view itself, or a whole section and the loose cards. */
  method RemovedFrom(c: Comparison, config: Config, now: Config, u: nat) returns (items: seq<Item>)
    requires Readable(c, config) && u < |config| && config[u].View?
    ensures items == ViewItems(c, config, now, u)
  {
    if Key(config, u) !in Keys(now) {
      return [ViewItem(config[u].path, Ordinal(config, u), Ordinal(config, u), config[u])];
    }
    var cards := RemovedCards(config[u], Ordinal(config, u), c.before, Gone(c, config, now, u),
                              Left(c, config, now, u), Away(c, config, u, true));
    items := SectionItems(c, config, now, u) + cards;
  }

  method RemovedCards(view: View, home: nat, slots: seq<Slot>, gone: set<nat>, left: set<Spot>, departed: set<Spot>)
    returns (items: seq<Item>)
    requires view.View?
    ensures items == CardItems(view, home, slots, gone, left, departed, |slots|)
  {
    items := [];
    for i := 0 to |slots|
      invariant items == CardItems(view, home, slots, gone, left, departed, i)
    {
      if i in gone {
        var anchor := SectionAnchor(view, slots[i].place.location, slots[i].index, left, departed);
        items := items + [CardItem(view.path, home, slots[i].place.location, slots[i].index, slots[i].card, anchor)];
      }
    }
  }

  method ItemsOfView(c: Comparison, config: Config, now: Config, u: nat, ghost lists: seq<seq<Item>>)
    returns (items: seq<Item>)
    requires Readable(c, config) && u < |config| && lists == ItemsByView(c, config, now)
    ensures u < |lists| && items == lists[u]
  {
    items := [];
    if config[u].View? {
      items := RemovedFrom(c, config, now, u);
    }
  }

  /** The items are those of a comparison of the two states. */
  ghost predicate Reported(items: seq<Item>, config: Config, now: Config) {
    exists c :: IsReport(c, items, config, now)
  }

  ghost predicate IsReport(c: Comparison, items: seq<Item>, config: Config, now: Config) {
    IsComparison(c, config, now) && Readable(c, config) && items == Items(c, config, now)
  }

  /** Everything that disappeared between two states. */
  method FindRemoved(config: Config, now: Config) returns (items: seq<Item>)
    ensures Reported(items, config, now)
  {
    var c := MatchCards(config, now);
    ComparisonIsReadable(c, config, now);
    items := AllItems(c, config, now);
    assert IsReport(c, items, config, now);
  }

  method AllItems(c: Comparison, config: Config, now: Config) returns (items: seq<Item>)
    requires Readable(c, config)
    ensures items == Items(c, config, now)
  {
    ghost var lists := ItemsByView(c, config, now);
    items := [];
    for u := 0 to |config|
      invariant items == Concat(lists[..u])
    {
      var ofView := ItemsOfView(c, config, now, u, lists);
      ConcatOneMore(lists, u);
      items := items + ofView;
    }
    assert lists[..|config|] == lists;
  }

  /**
   * A card is offered back only where today's dashboard has fewer of it than the
   * state it went from: one that merely moved is never offered.
   */
  lemma OfferedOnlyIfMissing(c: Comparison, config: Config, now: Config, item: Item)
    requires IsComparison(c, config, now) && Readable(c, config)
    requires item in Items(c, config, now) && item.CardItem?
    ensures Count(c.after, item.card) < Count(c.before, item.card)
  {
    var u := ItemsAreOf(c, config, now, item);
    CardItemsOfView(c, config, now, u, item);
    var i := CardItemsAreOf(config[u], Ordinal(config, u), c.before, Gone(c, config, now, u),
                            Left(c, config, now, u), Away(c, config, u, true), |c.before|, item);
    assert i in c.cards.removed;
    RemovedIsSurplus(c.cards, c.before, c.after, c.translate, i);
  }

  lemma CardItemsOfView(c: Comparison, config: Config, now: Config, u: nat, item: Item)
    requires Readable(c, config) && u < |config| && config[u].View? && item in ViewItems(c, config, now, u)
    requires item.CardItem?
    ensures item in CardItems(config[u], Ordinal(config, u), c.before, Gone(c, config, now, u),
                              Left(c, config, now, u), Away(c, config, u, true), |c.before|)
  {
  }

  lemma RemovedIsSurplus(m: Matching, before: seq<Slot>, after: seq<Slot>, translate: Translation, i: nat)
    requires IsMatching(m, before, after, translate) && i in m.removed && i < |before|
    ensures Count(after, before[i].card) < Count(before, before[i].card)
  {
    ContentIsCounted(m, before, after, translate, before[i].card);
    ExactAreAll(m);
    OneOver(Having(Marks(before), before[i].card), Olds(m.Exact()), i);
  }

  lemma ExactAreAll(m: Matching)
    ensures Olds(m.Exact()) <= Olds(m.All())
  {
    assert forall p :: p in m.Exact() ==> p in m.All();
  }

  lemma OneOver(having: set<nat>, taken: set<nat>, i: nat)
    requires i in having && i !in taken
    ensures |having - taken| > 0
  {
    assert i in having - taken;
  }

  lemma ItemsAreOf(c: Comparison, config: Config, now: Config, item: Item) returns (u: nat)
    requires Readable(c, config)
    requires item in Items(c, config, now)
    ensures u < |config| && config[u].View? && item in ViewItems(c, config, now, u)
  {
    u := InConcat(ItemsByView(c, config, now), item);
  }

  lemma {:induction false} CardItemsAreOf(
      view: View, home: nat, slots: seq<Slot>, gone: set<nat>, left: set<Spot>, departed: set<Spot>, upto: nat,
      item: Item)
    returns (i: nat)
    requires view.View? && upto <= |slots|
    requires item in CardItems(view, home, slots, gone, left, departed, upto)
    ensures i < upto && i in gone && item == CardItemOf(view, home, slots[i], left, departed)
  {
    if item in CardItems(view, home, slots, gone, left, departed, upto - 1) {
      i := CardItemsAreOf(view, home, slots, gone, left, departed, upto - 1, item);
    } else {
      i := upto - 1;
    }
  }
}
