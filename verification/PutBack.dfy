/**
 * Putting a removed card back into the section it sat in: how the section is
 * recognised, where in it the card goes, and what a whole round of it restores.
 */
module PutBack {
  import opened Wrappers
  import opened Claims
  import opened CardMatching
  import opened SectionPairs
  import opened Dashboard
  import opened FindRemoved

  // -- finding the survivors in order ------------------------------------

  /** Positions, rising, at which `wanted` stands in `cards` as `==` sees it. */
  predicate IsEmbedding(at: seq<nat>, wanted: seq<Card>, cards: seq<Card>) {
    && |at| == |wanted|
    && (forall k :: 0 <= k < |at| ==> at[k] < |cards| && Alike(cards[at[k]], wanted[k]))
    && (forall a, b :: 0 <= a < b < |at| ==> at[a] < at[b])
  }

  ghost predicate Embeds(wanted: seq<Card>, cards: seq<Card>) {
    exists at :: IsEmbedding(at, wanted, cards)
  }

  /** No embedding has its k-th place before this one. */
  ghost predicate Earliest(at: seq<nat>, wanted: seq<Card>, cards: seq<Card>) {
    forall other :: IsEmbedding(other, wanted, cards) ==> forall k :: 0 <= k < |at| <= |other| ==> at[k] <= other[k]
  }

  /** Each survivor is looked for behind the last one found; cards in between do not matter. */
  method FindInOrder(wanted: seq<Card>, cards: seq<Card>) returns (found: Option<seq<nat>>)
    ensures found.Some? <==> Embeds(wanted, cards)
    ensures found.Some? ==> IsEmbedding(found.value, wanted, cards) && Earliest(found.value, wanted, cards)
  {
    var at: seq<nat> := [];
    var position := 0;
    for k := 0 to |wanted|
      invariant IsEmbedding(at, wanted[..k], cards)
      invariant position <= |cards| && forall a :: 0 <= a < k ==> at[a] < position
      invariant position == if k == 0 then 0 else at[k - 1] + 1
      invariant Earliest(at, wanted, cards)
    {
      ghost var from := position;
      while position < |cards| && !Alike(cards[position], wanted[k])
        invariant from <= position <= |cards|
        invariant forall p :: from <= p < position ==> !Alike(cards[p], wanted[k])
      {
        position := position + 1;
      }
      NotEarlier(at, wanted, cards, k, from, position);
      if position == |cards| {
        return None;
      }
      at := at + [position];
      position := position + 1;
    }
    assert wanted[..|wanted|] == wanted;
    return Some(at);
  }

  lemma NotEarlier(at: seq<nat>, wanted: seq<Card>, cards: seq<Card>, k: nat, from: nat, position: nat)
    requires k < |wanted| && |at| == k && Earliest(at, wanted, cards)
    requires from == if k == 0 then 0 else at[k - 1] + 1
    requires from <= position <= |cards| && forall p :: from <= p < position ==> !Alike(cards[p], wanted[k])
    ensures forall other :: IsEmbedding(other, wanted, cards) ==> position <= other[k] < |cards|
    ensures Earliest(at + [position], wanted, cards)
  {
    forall other | IsEmbedding(other, wanted, cards)
      ensures position <= other[k] < |cards|
      ensures forall j :: 0 <= j < k + 1 ==> (at + [position])[j] <= other[j]
    {
      if k > 0 {
        assert at[k - 1] <= other[k - 1] < other[k];
      }
    }
  }

  // -- `_anchored_index` -------------------------------------------------

  /** How often a card stands in today's sections, and in which one last. */
  function Holders(sections: seq<Section>, card: Card, from: nat): (holders: seq<nat>)
    requires from <= |sections|
    ensures forall h :: h in holders ==> from <= h < |sections| && sections[h].Section? && card in CardsOf(sections[h])
    decreases |sections| - from
  {
    if from == |sections| then []
    else Repeat(from, Occurrences(CardsOf(sections[from]), card)) + Holders(sections, card, from + 1)
  }

  function Occurrences(cards: seq<Card>, card: Card): (n: nat)
    ensures n > 0 <==> card in cards
  {
    if cards == [] then 0 else (if cards[0] == card then 1 else 0) + Occurrences(cards[1..], card)
  }

  function Repeat(h: nat, n: nat): (r: seq<nat>)
    ensures |r| == n && forall x :: x in r ==> x == h
  {
    if n == 0 then [] else [h] + Repeat(h, n - 1)
  }

  /** Whether a neighbour that left makes "swapped" and "dragged across" the same bytes. */
  predicate DepartedIsAmbiguous(sections: seq<Section>, at: nat, settings: string, departed: seq<Card>) {
    exists card :: card in departed && AmbiguousCard(sections, at, settings, card)
  }

  predicate AmbiguousCard(sections: seq<Section>, at: nat, settings: string, card: Card) {
    var holders := Holders(sections, card, 0);
    || |holders| > 1
    || (|holders| == 1
        && (assert holders[0] in holders; holders[0] != at && sections[holders[0]].own == settings))
  }

  /** Whether today's section is proven to be the one the card left. */
  ghost predicate Recognised(sections: seq<Section>, at: nat, anchor: Anchor) {
    && |sections| == anchor.count && at < |sections|
    && sections[at].Section? && Some(sections[at].own) == anchor.settings
    && (if anchor.survivors == [] then
          !DepartedIsAmbiguous(sections, at, sections[at].own, anchor.departed) && CardsOf(sections[at]) == []
        else Embeds(anchor.survivors, CardsOf(sections[at])))
  }

  /** Right after the last survivor that stood ahead of the card, or right before the first. */
  ghost predicate IsBeside(survivors: seq<Card>, before: nat, cards: seq<Card>, index: nat) {
    if survivors == [] then index == 0
    else exists at :: IsEmbedding(at, survivors, cards) && Earliest(at, survivors, cards) && GoesAt(at, before, index)
  }

  predicate GoesAt(at: seq<nat>, before: nat, index: nat) {
    at != [] && before <= |at| && index == if before > 0 then at[before - 1] + 1 else at[0]
  }

  method AnchoredIndex(sections: seq<Section>, at: nat, anchor: Anchor) returns (r: Option<nat>)
    requires anchor.before <= |anchor.survivors|
    ensures r.Some? <==> Recognised(sections, at, anchor)
    ensures r.Some? ==> IsBeside(anchor.survivors, anchor.before, CardsOf(sections[at]), r.value)
  {
    if |sections| != anchor.count || at >= |sections| {
      return None;
    }
    if sections[at].Stray? || Some(sections[at].own) != anchor.settings {
      return None;
    }
    if anchor.survivors == [] && DepartedIsAmbiguous(sections, at, sections[at].own, anchor.departed) {
      return None;
    }
    var cards := CardsOf(sections[at]);
    if anchor.survivors == [] {
      return if cards == [] then Some(0) else None;
    }
    var found := FindInOrder(anchor.survivors, cards);
    if found.None? {
      return None;
    }
    var index := if anchor.before > 0 then found.value[anchor.before - 1] + 1 else found.value[0];
    assert GoesAt(found.value, anchor.before, index);
    return Some(index);
  }

  function InsertAt<T>(s: seq<T>, index: nat, x: T): seq<T> {
    var k := if index < |s| then index else |s|;
    s[..k] + [x] + s[k..]
  }

  /** However the section grew, a card put back beside its survivors leaves everybody in the order they had. */
  lemma BesideKeepsTheOrder(survivors: seq<Card>, before: nat, cards: seq<Card>, index: nat, card: Card)
    requires before <= |survivors| && Embeds(survivors, cards)
    requires IsBeside(survivors, before, cards, index)
    ensures index <= |cards|
    ensures Embeds(InsertAt(survivors, before, card), InsertAt(cards, index, card))
  {
    if survivors == [] {
      assert IsEmbedding([0], InsertAt(survivors, before, card), InsertAt(cards, index, card));
    } else {
      var at :| IsEmbedding(at, survivors, cards) && Earliest(at, survivors, cards) && GoesAt(at, before, index);
      FitsBesideAt(at, survivors, cards, before, index, card);
    }
  }

  lemma FitsBesideAt(at: seq<nat>, survivors: seq<Card>, cards: seq<Card>, before: nat, index: nat, card: Card)
    requires IsEmbedding(at, survivors, cards) && survivors != [] && before <= |survivors| && GoesAt(at, before, index)
    ensures index <= |cards|
    ensures Embeds(InsertAt(survivors, before, card), InsertAt(cards, index, card))
  {
    FitsBeside(at, survivors, cards, before, index, card);
  }

  /** Where nothing was added since, beside the survivors is where the card was. */
  lemma BesideIsThePlace(survivors: seq<Card>, before: nat, index: nat)
    requires before <= |survivors| && IsBeside(survivors, before, survivors, index)
    ensures index == before
  {
    if survivors != [] {
      var at :| IsEmbedding(at, survivors, survivors) && Earliest(at, survivors, survivors)
        && GoesAt(at, before, index);
      EarliestIsItself(at, survivors);
    }
  }

  /** A card put in right behind the survivors ahead of it keeps everybody's order. */
  lemma FitsBeside(at: seq<nat>, survivors: seq<Card>, cards: seq<Card>, before: nat, index: nat, card: Card)
    requires IsEmbedding(at, survivors, cards) && survivors != [] && before <= |survivors|
    requires index == if before > 0 then at[before - 1] + 1 else at[0]
    ensures index <= |cards|
    ensures Embeds(survivors[..before] + [card] + survivors[before..], cards[..index] + [card] + cards[index..])
  {
    assert index <= |cards|;
    var wider := Wider(at, before, index);
    forall k | 0 <= k < |wider| ensures
      wider[k] < |cards| + 1 && Alike((cards[..index] + [card] + cards[index..])[wider[k]],
                                      (survivors[..before] + [card] + survivors[before..])[k])
    {
      WiderFits(at, survivors, cards, before, index, card, k);
    }
    forall a, b | 0 <= a < b < |wider| ensures wider[a] < wider[b] {
      WiderRises(at, before, index, a, b);
    }
    assert IsEmbedding(wider, survivors[..before] + [card] + survivors[before..],
                       cards[..index] + [card] + cards[index..]);
  }

  /** The places found, with one more in between; what is behind it moves on by one. */
  function Wider(at: seq<nat>, before: nat, index: nat): (wider: seq<nat>)
    requires before <= |at|
    ensures |wider| == |at| + 1
    ensures forall k :: 0 <= k < |wider| ==>
      wider[k] == if k < before then at[k] else if k == before then index else at[k - 1] + 1
  {
    seq(|at| + 1, k requires 0 <= k < |at| + 1 =>
      if k < before then at[k] else if k == before then index else at[k - 1] + 1)
  }

  lemma WiderFits(at: seq<nat>, survivors: seq<Card>, cards: seq<Card>, before: nat, index: nat, card: Card, k: nat)
    requires IsEmbedding(at, survivors, cards) && survivors != [] && before <= |survivors| && k <= |survivors|
    requires index == (if before > 0 then at[before - 1] + 1 else at[0]) && index <= |cards|
    ensures var i, longer := Wider(at, before, index)[k], cards[..index] + [card] + cards[index..];
      i < |longer| && Alike(longer[i], (survivors[..before] + [card] + survivors[before..])[k])
  {
    var longer := cards[..index] + [card] + cards[index..];
    if k < before {
      assert at[k] <= at[before - 1];
      assert longer[at[k]] == cards[at[k]];
    } else if k > before {
      assert before == 0 || at[before - 1] < at[k - 1];
      assert longer[at[k - 1] + 1] == cards[at[k - 1]];
    }
  }

  lemma WiderRises(at: seq<nat>, before: nat, index: nat, a: nat, b: nat)
    requires at != [] && before <= |at| && (forall x, y :: 0 <= x < y < |at| ==> at[x] < at[y])
    requires index == if before > 0 then at[before - 1] + 1 else at[0]
    requires a < b <= |at|
    ensures Wider(at, before, index)[a] < Wider(at, before, index)[b]
  {
    assert a < before ==> at[a] <= at[before - 1];
    assert b > before ==> at[b - 1] >= index;
  }

  /** A list found in itself is found place by place. */
  lemma EarliestIsItself(at: seq<nat>, cards: seq<Card>)
    requires IsEmbedding(at, cards, cards) && Earliest(at, cards, cards)
    ensures forall k :: 0 <= k < |cards| ==> at[k] == k
  {
    var same := seq(|cards|, k requires 0 <= k < |cards| => k);
    assert IsEmbedding(same, cards, cards);
    forall k: nat | k < |cards| ensures at[k] >= k {
      Rising(at, k);
    }
  }

  lemma {:induction false} Rising(at: seq<nat>, k: nat)
    requires k < |at| && forall a, b :: 0 <= a < b < |at| ==> at[a] < at[b]
    ensures at[k] >= k
  {
    if k > 0 {
      Rising(at, k - 1);
    }
  }

  // -- the view an item belongs to ---------------------------------------

  /** The first view with a path. */
  function FirstWithPath(config: Config, path: string, from: nat): (v: Option<nat>)
    requires from <= |config|
    ensures v.Some? ==> from <= v.value < |config| && config[v.value].View? && config[v.value].path == Some(path)
    ensures forall u :: from <= u < (if v.Some? then v.value else |config|) ==>
      !(config[u].View? && config[u].path == Some(path))
    decreases |config| - from
  {
    if from == |config| then None
    else if config[from].View? && config[from].path == Some(path) then Some(from)
    else FirstWithPath(config, path, from + 1)
  }

  /** By path, or else by position. */
  function FindView(config: Config, path: Option<string>, home: nat): (v: Option<nat>)
    ensures v.Some? ==> v.value < |config| && config[v.value].View?
  {
    if path.Some? then FirstWithPath(config, path.value, 0)
    else if home < |config| && config[home].View? then Some(home)
    else None
  }

  /**
   * An item finds its view again, in a dashboard whose views stand where they did,
   * exactly where no view ahead of it has its path or, for a view without one,
   * where every entry ahead of it is a view.
   */
  lemma FoundAgainExactly(config: Config, v: nat)
    requires v < |config| && config[v].View?
    ensures FindView(config, config[v].path, Ordinal(config, v)) == Some(v) <==>
      if config[v].path.Some? then forall u: nat :: u < v && config[u].View? ==> config[u].path != config[v].path
      else forall u: nat :: u < v ==> config[u].View?
  {
    OrdinalCounts(config, v);
    if config[v].path.Some? {
      FoundFirst(config, v, config[v].path.value);
    }
  }

  lemma FoundFirst(config: Config, v: nat, path: string)
    requires v < |config| && config[v].View? && config[v].path == Some(path)
    ensures FirstWithPath(config, path, 0) == Some(v) <==>
      forall u: nat :: u < v && config[u].View? ==> config[u].path != Some(path)
  {
  }

  lemma {:induction false} OrdinalCounts(config: Config, v: nat)
    requires v <= |config|
    ensures Ordinal(config, v) <= v
    ensures Ordinal(config, v) == v <==> forall u: nat :: u < v ==> config[u].View?
  {
    if v > 0 {
      OrdinalCounts(config, v - 1);
    }
  }

  // -- Python's == on sections and views ---------------------------------

  predicate AlikeCards(one: seq<Card>, other: seq<Card>) {
    |one| == |other| && forall k :: 0 <= k < |one| ==> Alike(one[k], other[k])
  }

  predicate AlikeLists(one: Option<seq<Card>>, other: Option<seq<Card>>) {
    if one.Some? && other.Some? then AlikeCards(one.value, other.value) else one == other
  }

  predicate AlikeSection(one: Section, other: Section) {
    if one.Section? && other.Section? then one.own == other.own && AlikeLists(one.cards, other.cards) else one == other
  }

  predicate AlikeSections(one: seq<Section>, other: seq<Section>) {
    |one| == |other| && forall k :: 0 <= k < |one| ==> AlikeSection(one[k], other[k])
  }

  predicate AlikeView(one: View, other: View) {
    if one.View? && other.View? then
      one.path == other.path && one.kind == other.kind && one.rest == other.rest
      && AlikeLists(one.cards, other.cards) && AlikeSections(one.sections, other.sections)
    else one == other
  }

  /** What `==` sees of a card, a list, a section and a view. */
  function Bare(card: Card): Card {
    Card("", card.body, None, None)
  }

  function BareCards(cards: seq<Card>): seq<Card> {
    seq(|cards|, k requires 0 <= k < |cards| => Bare(cards[k]))
  }

  function BareList(list: Option<seq<Card>>): Option<seq<Card>> {
    if list.Some? then Some(BareCards(list.value)) else None
  }

  function BareSection(section: Section): Section {
    if section.Section? then section.(cards := BareList(section.cards)) else section
  }

  function BareView(view: View): View {
    if view.View? then
      view.(cards := BareList(view.cards),
            sections := seq(|view.sections|, k requires 0 <= k < |view.sections| => BareSection(view.sections[k])))
    else view
  }

  lemma AlikeCardsExactly(one: seq<Card>, other: seq<Card>)
    ensures AlikeCards(one, other) <==> BareCards(one) == BareCards(other)
  {
    if BareCards(one) == BareCards(other) {
      forall k | 0 <= k < |one| ensures Alike(one[k], other[k]) {
        assert BareCards(one)[k] == BareCards(other)[k];
      }
    }
  }

  lemma AlikeSectionExactly(one: Section, other: Section)
    ensures AlikeSection(one, other) <==> BareSection(one) == BareSection(other)
  {
    if one.Section? && other.Section? && one.cards.Some? && other.cards.Some? {
      AlikeCardsExactly(one.cards.value, other.cards.value);
    }
  }

  /** Two views are the same where nothing is different but what a comparison worked out about their cards. */
  lemma AlikeViewExactly(one: View, other: View)
    ensures AlikeView(one, other) <==> BareView(one) == BareView(other)
  {
    if one.View? && other.View? {
      if one.cards.Some? && other.cards.Some? {
        AlikeCardsExactly(one.cards.value, other.cards.value);
      }
      assert AlikeLists(one.cards, other.cards) <==> BareList(one.cards) == BareList(other.cards);
      AlikeSectionsExactly(one.sections, other.sections);
    }
  }

  lemma AlikeSectionsExactly(one: seq<Section>, other: seq<Section>)
    ensures AlikeSections(one, other) <==>
      seq(|one|, k requires 0 <= k < |one| => BareSection(one[k]))
      == seq(|other|, k requires 0 <= k < |other| => BareSection(other[k]))
  {
    var bare := seq(|one|, k requires 0 <= k < |one| => BareSection(one[k]));
    var bareOther := seq(|other|, k requires 0 <= k < |other| => BareSection(other[k]));
    forall k | 0 <= k < |one| && k < |other|
      ensures AlikeSection(one[k], other[k]) <==> bare[k] == bareOther[k]
    {
      AlikeSectionExactly(one[k], other[k]);
    }
  }

  // -- putting back ------------------------------------------------------

  predicate WellFormed(item: Item) {
    item.CardItem? && item.anchor.Some? ==> item.anchor.value.before <= |item.anchor.value.survivors|
  }

  function ViewFor(config: Config, item: Item): (v: Option<nat>)
    ensures v.Some? ==> v.value < |config| && config[v.value].View?
  {
    FindView(config, item.path, item.home)
  }

  ghost predicate AnchorHolds(view: View, item: Item)
    requires view.View? && item.CardItem?
  {
    item.anchor.Some? ==> item.at.SectionCards? && Recognised(view.sections, item.at.section, item.anchor.value)
  }

  /** What putting an item back asks of today's dashboard. */
  ghost predicate CanPutBack(config: Config, item: Item) {
    !PathsShare(config) && match item
      case ViewItem(path, _, _, payload) =>
        path.Some? || forall k :: 0 <= k < |config| ==> !AlikeView(config[k], payload)
      case SectionItem(_, _, _, _, neighbours) =>
        var v := ViewFor(config, item);
        v.Some? && AlikeSections(config[v.value].sections, neighbours)
      case CardItem(_, _, at, _, _, _) =>
        var v := ViewFor(config, item);
        v.Some? && AnchorHolds(config[v.value], item) && ListAt(config, v.value, at).Some?
  }

  /** The dashboard with the item put back, and nothing else touched. */
  ghost predicate IsPutBack(config: Config, item: Item, next: Config) {
    CanPutBack(config, item) && match item
      case ViewItem(_, _, index, payload) => next == InsertAt(config, index, payload)
      case SectionItem(_, _, index, section, _) =>
        var v := ViewFor(config, item).value;
        next == config[v := config[v].(sections := InsertAt(config[v].sections, index, section))]
      case CardItem(_, _, at, index, card, anchor) =>
        var v := ViewFor(config, item).value;
        if anchor.None? then
          next == WithList(config, v, at, InsertAt(ListAt(config, v, at).value, index, card))
        else exists k :: (IsBeside(anchor.value.survivors, anchor.value.before, ListAt(config, v, at).value, k)
          && next == WithList(config, v, at, InsertAt(ListAt(config, v, at).value, k, card)))
  }

  method Reinsert(config: Config, item: Item) returns (next: Option<Config>)
    requires WellFormed(item)
    ensures next.Some? <==> CanPutBack(config, item)
    ensures next.Some? ==> IsPutBack(config, item, next.value)
  {
    if PathsShare(config) {
      return None;
    }
    match item
    case ViewItem(path, _, index, payload) =>
      if path.None? && exists k :: 0 <= k < |config| && AlikeView(config[k], payload) {
        return None;
      }
      return Some(InsertAt(config, index, payload));
    case SectionItem(_, _, index, section, neighbours) =>
      var v := ViewFor(config, item);
      if v.None? || !AlikeSections(config[v.value].sections, neighbours) {
        return None;
      }
      return Some(config[v.value := config[v.value].(sections := InsertAt(config[v.value].sections, index, section))]);
    case CardItem(_, _, at, index, card, anchor) =>
      var v := ViewFor(config, item);
      if v.None? {
        return None;
      }
      var place := Some(index);
      if anchor.Some? {
        if !at.SectionCards? {
          return None;
        }
        place := AnchoredIndex(config[v.value].sections, at.section, anchor.value);
      }
      var cards := ListAt(config, v.value, at);
      if place.None? || cards.None? {
        return None;
      }
      return Some(WithList(config, v.value, at, InsertAt(cards.value, place.value, card)));
  }

  // -- "Imported cards" --------------------------------------------------

  /** Whether an item goes where nothing is guessed, its section no longer proven. */
  ghost predicate Parks(config: Config, item: Item) {
    && item.path.Some? && !PathsShare(config)
    && var v := ViewFor(config, item);
    && v.Some? && config[v.value].kind == Some("sections")
    && match item
       case ViewItem(_, _, _, _) => false
       case SectionItem(_, _, _, _, neighbours) => !AlikeSections(config[v.value].sections, neighbours)
       case CardItem(_, _, at, _, _, anchor) =>
         anchor.Some? && (!AnchorHolds(config[v.value], item) || ListAt(config, v.value, at).None?)
  }

  /** The dashboard with the item at the end of its view's own cards, or for a section at the end of its sections. */
  ghost predicate IsParked(config: Config, item: Item, next: Config)
    requires !item.ViewItem?
  {
    var v := ViewFor(config, item);
    && v.Some?
    && match item
       case SectionItem(_, _, _, section, _) =>
         next == config[v.value := config[v.value].(sections := config[v.value].sections + [section])]
       case CardItem(_, _, _, _, card, _) =>
         next == config[v.value := config[v.value].(cards := Some(OwnCards(config[v.value]) + [card]))]
  }

  function OwnCards(view: View): seq<Card>
    requires view.View?
  {
    if view.cards.Some? then view.cards.value else []
  }

  method Park(config: Config, item: Item) returns (next: Option<Config>)
    requires !item.ViewItem?
    ensures next.Some? <==> ViewFor(config, item).Some?
    ensures next.Some? ==> IsParked(config, item, next.value)
  {
    var v := ViewFor(config, item);
    if v.None? {
      return None;
    }
    var view := config[v.value];
    match item
    case SectionItem(_, _, _, section, _) =>
      return Some(config[v.value := view.(sections := view.sections + [section])]);
    case CardItem(_, _, _, _, card, _) =>
      return Some(config[v.value := view.(cards := Some(OwnCards(view) + [card]))]);
  }

  /** Never both; and on a sections view found by its path, what cannot be put back is parked. */
  lemma PutBackOrParked(config: Config, item: Item)
    requires !item.ViewItem?
    ensures !(CanPutBack(config, item) && Parks(config, item))
    ensures (&& item.path.Some? && !PathsShare(config) && ViewFor(config, item).Some?
             && config[ViewFor(config, item).value].kind == Some("sections")
             && (item.CardItem? ==> item.anchor.Some?))
      ==> CanPutBack(config, item) || Parks(config, item)
  {
  }
}
