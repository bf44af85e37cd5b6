/** A whole dashboard as views, and its card lists one after another. */
module Dashboard {
  import opened Wrappers
  import opened Sequences
  import opened CardMatching
  import opened SectionPairs

  /** A view: what of it the comparison reads, and the rest of it as one value. */
  datatype View =
    | View(path: Option<string>, kind: Option<string>, cards: Option<seq<Card>>, sections: seq<Section>, rest: string)
    | NotAView(text: string)

  type Config = seq<View>

  /** A view's path where it has one that is not empty, else its position. */
  function Key(config: Config, v: nat): ViewKey
    requires v < |config| && config[v].View?
  {
    if config[v].path.Some? && config[v].path.value != "" then ByPath(config[v].path.value) else ByPosition(v)
  }

  function Keys(config: Config): set<ViewKey> {
    set v: nat | v < |config| && config[v].View? :: Key(config, v)
  }

  /** The view a key means: the last one that has it. */
  function ViewOf(config: Config, key: ViewKey, upto: nat): (v: Option<nat>)
    requires upto <= |config|
    ensures v.Some? ==> v.value < upto && config[v.value].View? && Key(config, v.value) == key
    ensures v.Some? ==> forall u: nat :: v.value < u < upto && config[u].View? ==> Key(config, u) != key
    ensures v.None? ==> forall u: nat :: u < upto && config[u].View? ==> Key(config, u) != key
  {
    if upto == 0 then None
    else if config[upto - 1].View? && Key(config, upto - 1) == key then Some(upto - 1)
    else ViewOf(config, key, upto - 1)
  }

  /** How a view counts among the views that are views. */
  function Ordinal(config: Config, v: nat): nat
    requires v <= |config|
  {
    if v == 0 then 0 else Ordinal(config, v - 1) + if config[v - 1].View? then 1 else 0
  }

  /** A view's own layout, where none is written the classic one. */
  function Layout(view: View): string
    requires view.View?
  {
    if view.kind.Some? && view.kind.value != "" then view.kind.value else "masonry"
  }

  // -- card lists --------------------------------------------------------

  /** One card list, with the view it stands in. */
  datatype Block = Block(home: nat, place: Place, cards: seq<Card>)

  function SectionBlocks(home: nat, key: ViewKey, sections: seq<Section>, from: nat): (blocks: seq<Block>)
    requires from <= |sections|
    ensures forall k :: 0 <= k < |blocks| ==> blocks[k].home == home && blocks[k].place.view == key
    decreases |sections| - from
  {
    if from == |sections| then []
    else
      (if sections[from].Section? && sections[from].cards.Some? then
         [Block(home, Place(key, SectionCards(from)), sections[from].cards.value)]
       else [])
      + SectionBlocks(home, key, sections, from + 1)
  }

  /** A view's own list, then one a section. */
  function ViewBlocks(config: Config, v: nat): (blocks: seq<Block>)
    requires v < |config| && config[v].View?
    ensures forall k :: 0 <= k < |blocks| ==> blocks[k].home == v && blocks[k].place.view == Key(config, v)
  {
    (if config[v].cards.Some? then [Block(v, Place(Key(config, v), Cards), config[v].cards.value)] else [])
    + SectionBlocks(v, Key(config, v), config[v].sections, 0)
  }

  /** A view's card lists where it is one of the views named. */
  function NamedBlocks(config: Config, keys: set<ViewKey>, v: nat): (blocks: seq<Block>)
    requires v < |config|
    ensures forall k :: 0 <= k < |blocks| ==>
      config[v].View? && blocks[k].home == v && blocks[k].place.view == Key(config, v)
  {
    if config[v].View? && Key(config, v) in keys then ViewBlocks(config, v) else []
  }

  function BlocksByView(config: Config, keys: set<ViewKey>): (lists: seq<seq<Block>>)
    ensures |lists| == |config| && forall v :: 0 <= v < |lists| ==> lists[v] == NamedBlocks(config, keys, v)
  {
    seq(|config|, v requires 0 <= v < |config| => NamedBlocks(config, keys, v))
  }

  /** The card lists of the views named, in the order they are written. */
  function Blocks(config: Config, keys: set<ViewKey>): seq<Block> {
    Concat(BlocksByView(config, keys))
  }

  function ListSlots(block: Block): (slots: seq<Slot>)
    ensures |slots| == |block.cards|
  {
    seq(|block.cards|, i requires 0 <= i < |block.cards| => Slot(block.place, i, block.cards[i]))
  }

  function Flat(blocks: seq<Block>): seq<Slot> {
    if blocks == [] then [] else ListSlots(blocks[0]) + Flat(blocks[1..])
  }

  /** The view each slot stands in. */
  function Homes(blocks: seq<Block>): (homes: seq<nat>)
    ensures |homes| == |Flat(blocks)|
  {
    if blocks == [] then [] else seq(|blocks[0].cards|, _ => blocks[0].home) + Homes(blocks[1..])
  }

  /** The card list a location names, where there is one. */
  function ListAt(config: Config, v: nat, at: Location): Option<seq<Card>>
    requires v < |config|
  {
    if config[v].NotAView? then None
    else match at
      case Cards => config[v].cards
      case Badges => None
      case SectionCards(s) =>
        if s < |config[v].sections| && config[v].sections[s].Section? then config[v].sections[s].cards else None
  }

  /** The dashboard with one card list written anew. */
  function WithList(config: Config, v: nat, at: Location, cards: seq<Card>): (changed: Config)
    requires v < |config| && ListAt(config, v, at).Some?
    ensures |changed| == |config| && ListAt(changed, v, at) == Some(cards)
  {
    match at
    case Cards => config[v := config[v].(cards := Some(cards))]
    case SectionCards(s) =>
      config[v := config[v].(sections := config[v].sections[s := config[v].sections[s].(cards := Some(cards))])]
  }

  lemma OnlyTheList(config: Config, v: nat, at: Location, cards: seq<Card>)
    requires v < |config| && ListAt(config, v, at).Some?
    ensures var changed := WithList(config, v, at, cards);
      && (forall u: nat :: u < |config| && u != v ==> changed[u] == config[u])
      && (forall u: nat :: u < |config| ==> changed[u].View? == config[u].View?)
      && (forall u: nat :: u < |config| && config[u].View? ==>
            Key(changed, u) == Key(config, u) && changed[u].path == config[u].path
            && Layout(changed[u]) == Layout(config[u]))
      && Keys(changed) == Keys(config)
      && forall other :: WithList(changed, v, at, other) == WithList(config, v, at, other)
  {
    var changed := WithList(config, v, at, cards);
    assert forall u: nat :: u < |config| && config[u].View? ==> Key(changed, u) == Key(config, u);
    forall other ensures WithList(changed, v, at, other) == WithList(config, v, at, other) {
      var one, two := WithList(changed, v, at, other), WithList(config, v, at, other);
      if at.SectionCards? {
        assert one[v].sections == two[v].sections;
      }
      assert one[v] == two[v];
      assert one == two;
    }
  }

  // -- one list written anew, in the flat order --------------------------

  predicate PlacesApart(blocks: seq<Block>) {
    forall a, b :: 0 <= a < b < |blocks| ==> blocks[a].place != blocks[b].place
  }

  /** The same lists, all but the one at `place` with the same cards. */
  predicate SameBut(blocks: seq<Block>, other: seq<Block>, place: Place, was: seq<Card>, now: seq<Card>) {
    && |blocks| == |other|
    && (forall k :: 0 <= k < |blocks| ==> other[k].place == blocks[k].place && other[k].home == blocks[k].home)
    && (forall k :: 0 <= k < |blocks| && blocks[k].place != place ==> other[k] == blocks[k])
    && (forall k :: 0 <= k < |blocks| && blocks[k].place == place ==> blocks[k].cards == was && other[k].cards == now)
  }

  /** Whether two views claim one URL path. */
  predicate PathsShare(config: Config) {
    exists a: nat, b: nat :: (a < b < |config| && config[a].View? && config[b].View?
      && config[a].path == config[b].path && config[a].path.Some? && config[a].path.value != "")
  }

  lemma KeysApart(config: Config, a: nat, b: nat)
    requires !PathsShare(config) && a < b < |config| && config[a].View? && config[b].View?
    ensures Key(config, a) != Key(config, b)
  {
  }

  lemma OneViewAKey(config: Config, u: nat, w: nat)
    requires !PathsShare(config) && u < |config| && config[u].View? && w < |config| && config[w].View?
    ensures Key(config, u) == Key(config, w) ==> u == w
  {
    if u != w {
      KeysApart(config, if u < w then u else w, if u < w then w else u);
    }
  }

  lemma BlockIsOf(config: Config, keys: set<ViewKey>, block: Block)
    requires block in Blocks(config, keys)
    ensures block.home < |config| && config[block.home].View? && block.place.view == Key(config, block.home)
  {
    var v := InConcat(BlocksByView(config, keys), block);
    var blocks := NamedBlocks(config, keys, v);
    var k :| 0 <= k < |blocks| && blocks[k] == block;
  }

  lemma {:induction false} SectionBlocksApart(home: nat, key: ViewKey, sections: seq<Section>, from: nat)
    requires from <= |sections|
    ensures PlacesApart(SectionBlocks(home, key, sections, from))
    ensures forall block :: block in SectionBlocks(home, key, sections, from) ==>
      block.place.location.SectionCards? && block.place.location.section >= from
    decreases |sections| - from
  {
    if from < |sections| {
      SectionBlocksApart(home, key, sections, from + 1);
      var rest := SectionBlocks(home, key, sections, from + 1);
      assert forall k :: 0 <= k < |rest| ==> rest[k] in rest;
    }
  }

  lemma JoinBlocks(a: seq<Block>, b: seq<Block>)
    requires PlacesApart(a) && PlacesApart(b)
    requires forall x, y :: x in a && y in b ==> x.place != y.place
    ensures PlacesApart(a + b)
  {
    assert forall k :: 0 <= k < |a| ==> a[k] in a;
    assert forall k :: 0 <= k < |b| ==> b[k] in b;
  }

  lemma ViewBlocksApart(config: Config, v: nat)
    requires v < |config| && config[v].View?
    ensures PlacesApart(ViewBlocks(config, v))
  {
    SectionBlocksApart(v, Key(config, v), config[v].sections, 0);
    var first := if config[v].cards.Some? then [Block(v, Place(Key(config, v), Cards), config[v].cards.value)] else [];
    JoinBlocks(first, SectionBlocks(v, Key(config, v), config[v].sections, 0));
  }

  lemma {:induction false} ConcatApart(lists: seq<seq<Block>>)
    requires forall k :: 0 <= k < |lists| ==> PlacesApart(lists[k])
    requires forall a, b, x, y :: 0 <= a < b < |lists| && x in lists[a] && y in lists[b] ==> x.place != y.place
    ensures PlacesApart(Concat(lists))
  {
    if lists != [] {
      ConcatApart(lists[1..]);
      forall x, y | x in lists[0] && y in Concat(lists[1..]) ensures x.place != y.place {
        var k := InConcat(lists[1..], y);
        assert lists[1..][k] == lists[k + 1];
      }
      JoinBlocks(lists[0], Concat(lists[1..]));
    }
  }

  /** Where no two views share a path, no two card lists are at one place. */
  lemma BlocksApart(config: Config, keys: set<ViewKey>)
    requires !PathsShare(config)
    ensures PlacesApart(Blocks(config, keys))
  {
    var lists := BlocksByView(config, keys);
    forall v | 0 <= v < |lists| ensures PlacesApart(lists[v]) {
      if config[v].View? {
        ViewBlocksApart(config, v);
      }
    }
    forall a, b, x: Block, y: Block | 0 <= a < b < |lists| && x in lists[a] && y in lists[b]
      ensures x.place != y.place
    {
      BlocksOfTwoViews(config, keys, a, b, x, y);
    }
    ConcatApart(lists);
  }

  lemma BlocksOfTwoViews(config: Config, keys: set<ViewKey>, a: nat, b: nat, x: Block, y: Block)
    requires !PathsShare(config) && a < b < |config|
    requires x in NamedBlocks(config, keys, a) && y in NamedBlocks(config, keys, b)
    ensures x.place != y.place
  {
    KeysApart(config, a, b);
  }

  lemma {:induction false} SectionBlocksBut(home: nat, key: ViewKey, sections: seq<Section>, s: nat, cards: seq<Card>,
                                            from: nat)
    requires from <= |sections| && s < |sections| && sections[s].Section? && sections[s].cards.Some?
    ensures SameBut(SectionBlocks(home, key, sections, from),
                    SectionBlocks(home, key, sections[s := sections[s].(cards := Some(cards))], from),
                    Place(key, SectionCards(s)), sections[s].cards.value, cards)
    decreases |sections| - from
  {
    if from < |sections| {
      SectionBlocksBut(home, key, sections, s, cards, from + 1);
    }
  }

  lemma {:induction false} NotThere(home: nat, key: ViewKey, sections: seq<Section>, place: Place, was: seq<Card>,
                                    now: seq<Card>)
    requires !place.location.SectionCards? || place.view != key
    ensures SameBut(SectionBlocks(home, key, sections, 0), SectionBlocks(home, key, sections, 0), place, was, now)
  {
    SectionBlocksApart(home, key, sections, 0);
    var blocks := SectionBlocks(home, key, sections, 0);
    assert forall k :: 0 <= k < |blocks| ==> blocks[k] in blocks;
  }

  lemma ViewBlocksBut(config: Config, v: nat, at: Location, cards: seq<Card>)
    requires v < |config| && ListAt(config, v, at).Some?
    ensures SameBut(ViewBlocks(config, v), ViewBlocks(WithList(config, v, at, cards), v),
                    Place(Key(config, v), at), ListAt(config, v, at).value, cards)
  {
    var place := Place(Key(config, v), at);
    if at.SectionCards? {
      SectionBlocksBut(v, Key(config, v), config[v].sections, at.section, cards, 0);
    } else {
      NotThere(v, Key(config, v), config[v].sections, place, ListAt(config, v, at).value, cards);
    }
  }

  lemma {:induction false} ConcatBut(lists: seq<seq<Block>>, others: seq<seq<Block>>, place: Place, was: seq<Card>,
                                     now: seq<Card>)
    requires |lists| == |others| && forall k :: 0 <= k < |lists| ==> SameBut(lists[k], others[k], place, was, now)
    ensures SameBut(Concat(lists), Concat(others), place, was, now)
  {
    if lists != [] {
      ConcatBut(lists[1..], others[1..], place, was, now);
      JoinBut(lists[0], others[0], Concat(lists[1..]), Concat(others[1..]), place, was, now);
    }
  }

  lemma JoinBut(a: seq<Block>, otherA: seq<Block>, b: seq<Block>, otherB: seq<Block>, place: Place, was: seq<Card>,
                now: seq<Card>)
    requires SameBut(a, otherA, place, was, now) && SameBut(b, otherB, place, was, now)
    ensures SameBut(a + b, otherA + otherB, place, was, now)
  {
  }

  /** Writing one card list anew changes that list, and no other. */
  lemma BlocksBut(config: Config, v: nat, at: Location, cards: seq<Card>, keys: set<ViewKey>)
    requires v < |config| && ListAt(config, v, at).Some? && !PathsShare(config)
    ensures SameBut(Blocks(config, keys), Blocks(WithList(config, v, at, cards), keys),
                    Place(Key(config, v), at), ListAt(config, v, at).value, cards)
  {
    var changed, place := WithList(config, v, at, cards), Place(Key(config, v), at);
    var lists, others := BlocksByView(config, keys), BlocksByView(changed, keys);
    forall u | 0 <= u < |lists| ensures SameBut(lists[u], others[u], place, ListAt(config, v, at).value, cards) {
      NamedBlocksBut(config, v, at, cards, keys, u);
    }
    ConcatBut(lists, others, place, ListAt(config, v, at).value, cards);
  }

  lemma NamedBlocksBut(config: Config, v: nat, at: Location, cards: seq<Card>, keys: set<ViewKey>, u: nat)
    requires v < |config| && ListAt(config, v, at).Some? && u < |config| && !PathsShare(config)
    ensures SameBut(NamedBlocks(config, keys, u), NamedBlocks(WithList(config, v, at, cards), keys, u),
                    Place(Key(config, v), at), ListAt(config, v, at).value, cards)
  {
    OnlyTheList(config, v, at, cards);
    if u == v {
      ViewBlocksBut(config, v, at, cards);
    } else if config[u].View? {
      OtherViewBlocks(config, v, at, cards, u);
    }
  }

  lemma OtherViewBlocks(config: Config, v: nat, at: Location, cards: seq<Card>, u: nat)
    requires v < |config| && ListAt(config, v, at).Some? && u < |config| && u != v && config[u].View?
    requires !PathsShare(config)
    ensures SameBut(ViewBlocks(config, u), ViewBlocks(WithList(config, v, at, cards), u),
                    Place(Key(config, v), at), ListAt(config, v, at).value, cards)
  {
    OnlyTheList(config, v, at, cards);
    if u < v { KeysApart(config, u, v); } else { KeysApart(config, v, u); }
    assert ViewBlocks(config, u) == ViewBlocks(WithList(config, v, at, cards), u);
  }

  // -- some cards of some lists gone -------------------------------------

  /** The first `n` cards of a list without those at the positions in `gone`. */
  function Staying(cards: seq<Card>, gone: set<nat>, n: nat): (left: seq<Card>)
    requires n <= |cards|
  {
    if n == 0 then [] else Staying(cards, gone, n - 1) + if n - 1 in gone then [] else [cards[n - 1]]
  }

  lemma StayingStep(cards: seq<Card>, gone: set<nat>, n: nat)
    requires n < |cards|
    ensures Staying(cards, gone, n + 1) == Staying(cards, gone, n) + if n in gone then [] else [cards[n]]
  {
  }

  /** The cards at some positions of a list. */
  predicate Picks(at: seq<nat>, cards: seq<Card>, picked: seq<Card>) {
    if at == [] then picked == []
    else
      var n := |at| - 1;
      |picked| == |at| && at[n] < |cards| && picked[n] == cards[at[n]] && Picks(at[..n], cards, picked[..n])
  }

  lemma {:induction false} PickedAt(at: seq<nat>, cards: seq<Card>, picked: seq<Card>)
    requires Picks(at, cards, picked)
    ensures |picked| == |at| && forall k :: 0 <= k < |at| ==> at[k] < |cards| && picked[k] == cards[at[k]]
  {
    if at != [] {
      var n := |at| - 1;
      PickedAt(at[..n], cards, picked[..n]);
      assert forall k :: 0 <= k < n ==> at[..n][k] == at[k] && picked[..n][k] == picked[k];
    }
  }

  lemma PicksMore(at: seq<nat>, cards: seq<Card>, picked: seq<Card>, more: nat)
    requires Picks(at, cards, picked) && more < |cards|
    ensures Picks(at + [more], cards, picked + [cards[more]])
  {
    PickedAt(at, cards, picked);
    assert (at + [more])[..|at|] == at && (picked + [cards[more]])[..|at|] == picked;
  }

  /** The positions below `n` that are not gone. */
  function StayingAt(gone: set<nat>, n: nat): seq<nat> {
    if n == 0 then [] else StayingAt(gone, n - 1) + if n - 1 in gone then [] else [n - 1]
  }

  lemma {:induction false} StayingAtIs(gone: set<nat>, n: nat)
    ensures forall k :: 0 <= k < |StayingAt(gone, n)| ==> StayingAt(gone, n)[k] < n && StayingAt(gone, n)[k] !in gone
    ensures forall a, b :: 0 <= a < b < |StayingAt(gone, n)| ==> StayingAt(gone, n)[a] < StayingAt(gone, n)[b]
    ensures forall i: nat :: i < n && i !in gone ==> i in StayingAt(gone, n)
  {
    if n > 0 {
      StayingAtIs(gone, n - 1);
    }
  }

  lemma {:induction false} StayingArePicked(cards: seq<Card>, gone: set<nat>, n: nat)
    requires n <= |cards|
    ensures Picks(StayingAt(gone, n), cards, Staying(cards, gone, n))
  {
    if n > 0 {
      StayingArePicked(cards, gone, n - 1);
      if n - 1 in gone {
        assert StayingAt(gone, n) == StayingAt(gone, n - 1) && Staying(cards, gone, n) == Staying(cards, gone, n - 1);
      } else {
        PicksMore(StayingAt(gone, n - 1), cards, Staying(cards, gone, n - 1), n - 1);
      }
    }
  }

  /** The positions that are gone, list by list. */
  type Losses = map<Place, set<nat>>

  function GoneAt(gone: Losses, place: Place): set<nat> {
    if place in gone then gone[place] else {}
  }

  /** Whether a slot is among the cards that are gone. */
  predicate IsGone(slot: Slot, gone: Losses) {
    slot.place in gone && slot.index in gone[slot.place]
  }

  /** A list without its cards that are gone. */
  function Thinned(block: Block, gone: Losses): seq<Card> {
    Staying(block.cards, GoneAt(gone, block.place), |block.cards|)
  }

  /** The same lists, each without its cards that are gone. */
  predicate AllThinned(blocks: seq<Block>, other: seq<Block>, gone: Losses) {
    && |blocks| == |other|
    && forall k :: 0 <= k < |blocks| ==>
         other[k].place == blocks[k].place && other[k].home == blocks[k].home
         && other[k].cards == Thinned(blocks[k], gone)
  }

  lemma {:induction false} StayingAll(cards: seq<Card>, n: nat)
    requires n <= |cards|
    ensures Staying(cards, {}, n) == cards[..n]
  {
    if n > 0 {
      StayingAll(cards, n - 1);
      assert cards[..n] == cards[..n - 1] + [cards[n - 1]];
    }
  }

  /** One list without some of its cards, and every other as it was. */
  lemma OneThinned(blocks: seq<Block>, other: seq<Block>, place: Place, was: seq<Card>, gone: set<nat>)
    requires SameBut(blocks, other, place, was, Staying(was, gone, |was|))
    ensures AllThinned(blocks, other, map[place := gone])
  {
    forall k | 0 <= k < |blocks| ensures other[k].cards == Thinned(blocks[k], map[place := gone]) {
      StayingAll(blocks[k].cards, |blocks[k].cards|);
      assert blocks[k].cards[..|blocks[k].cards|] == blocks[k].cards;
    }
  }

  ghost predicate KeepsAllBut(before: seq<Slot>, after: seq<Slot>, kept: seq<nat>, gone: Losses) {
    && |kept| == |after|
    && (forall b :: 0 <= b < |kept| ==> kept[b] < |before|)
    && (forall b :: 0 <= b < |kept| ==>
          after[b].place == before[kept[b]].place && after[b].card == before[kept[b]].card)
    && (forall a, b :: 0 <= a < b < |kept| ==> kept[a] < kept[b])
    && (forall b :: 0 <= b < |kept| ==> !IsGone(before[kept[b]], gone))
    && (forall i: nat :: i < |before| && !IsGone(before[i], gone) ==> i in kept)
  }

  /** What `Picks` says of a list and what of it stays, as slots. */
  lemma PickedSlots(block: Block, other: Block, kept: seq<nat>, gone: Losses)
    requires other.place == block.place && Picks(kept, block.cards, other.cards)
    requires forall a, b :: 0 <= a < b < |kept| ==> kept[a] < kept[b]
    requires forall k :: 0 <= k < |kept| ==> kept[k] !in GoneAt(gone, block.place)
    requires forall i: nat :: i < |block.cards| && i !in GoneAt(gone, block.place) ==> i in kept
    ensures KeepsAllBut(ListSlots(block), ListSlots(other), kept, gone)
  {
    var before, after := ListSlots(block), ListSlots(other);
    PickedAt(kept, block.cards, other.cards);
    forall b | 0 <= b < |kept|
      ensures kept[b] < |before| && after[b].place == before[kept[b]].place && after[b].card == before[kept[b]].card
      ensures !IsGone(before[kept[b]], gone)
    {
      OnePicked(block, other, kept[b], b, gone);
    }
    forall i: nat | i < |before| && !IsGone(before[i], gone) ensures i in kept {
      OneStaying(block, i, gone);
    }
  }

  lemma OnePicked(block: Block, other: Block, i: nat, b: nat, gone: Losses)
    requires other.place == block.place && i < |block.cards| && b < |other.cards| && other.cards[b] == block.cards[i]
    requires i !in GoneAt(gone, block.place)
    ensures var before, after := ListSlots(block), ListSlots(other);
      after[b].place == before[i].place && after[b].card == before[i].card && !IsGone(before[i], gone)
  {
  }

  lemma OneStaying(block: Block, i: nat, gone: Losses)
    requires i < |block.cards|
    ensures IsGone(ListSlots(block)[i], gone) <==> i in GoneAt(gone, block.place)
  {
  }

  lemma OneListKept(block: Block, other: Block, gone: Losses)
    requires other.place == block.place && other.cards == Thinned(block, gone)
    ensures KeepsAllBut(ListSlots(block), ListSlots(other), StayingAt(GoneAt(gone, block.place), |block.cards|), gone)
  {
    var here := GoneAt(gone, block.place);
    StayingArePicked(block.cards, here, |block.cards|);
    StayingAtIs(here, |block.cards|);
    PickedSlots(block, other, StayingAt(here, |block.cards|), gone);
  }

  function Shifted(kept: seq<nat>, steps: nat): (shifted: seq<nat>)
    ensures |shifted| == |kept| && forall k :: 0 <= k < |kept| ==> shifted[k] == kept[k] + steps
  {
    seq(|kept|, k requires 0 <= k < |kept| => kept[k] + steps)
  }

  lemma JoinSame(b1: seq<Slot>, a1: seq<Slot>, k1: seq<nat>, b2: seq<Slot>, a2: seq<Slot>, k2: seq<nat>,
                 gone: Losses, b: nat)
    requires KeepsAllBut(b1, a1, k1, gone) && KeepsAllBut(b2, a2, k2, gone) && b < |k1| + |k2|
    ensures var kept := (k1 + Shifted(k2, |b1|))[b];
      kept < |b1 + b2| && (a1 + a2)[b].place == (b1 + b2)[kept].place && (a1 + a2)[b].card == (b1 + b2)[kept].card
      && !IsGone((b1 + b2)[kept], gone)
  {
    if b < |k1| {
      assert (b1 + b2)[k1[b]] == b1[k1[b]];
    } else {
      assert (b1 + b2)[k2[b - |k1|] + |b1|] == b2[k2[b - |k1|]];
    }
  }

  lemma JoinAll(b1: seq<Slot>, a1: seq<Slot>, k1: seq<nat>, b2: seq<Slot>, a2: seq<Slot>, k2: seq<nat>,
                gone: Losses, i: nat)
    requires KeepsAllBut(b1, a1, k1, gone) && KeepsAllBut(b2, a2, k2, gone)
    requires i < |b1 + b2| && !IsGone((b1 + b2)[i], gone)
    ensures i in k1 + Shifted(k2, |b1|)
  {
    if i < |b1| {
      assert i in k1;
    } else {
      assert (b1 + b2)[i] == b2[i - |b1|];
      var k :| 0 <= k < |k2| && k2[k] == i - |b1|;
      assert Shifted(k2, |b1|)[k] == i;
    }
  }

  lemma JoinRising(k1: seq<nat>, k2: seq<nat>, n: nat)
    requires forall k :: 0 <= k < |k1| ==> k1[k] < n
    requires forall a, b :: 0 <= a < b < |k1| ==> k1[a] < k1[b]
    requires forall a, b :: 0 <= a < b < |k2| ==> k2[a] < k2[b]
    ensures var kept := k1 + Shifted(k2, n); forall a, b :: 0 <= a < b < |kept| ==> kept[a] < kept[b]
  {
  }

  lemma JoinKept(b1: seq<Slot>, a1: seq<Slot>, k1: seq<nat>, b2: seq<Slot>, a2: seq<Slot>, k2: seq<nat>, gone: Losses)
    requires KeepsAllBut(b1, a1, k1, gone) && KeepsAllBut(b2, a2, k2, gone)
    ensures KeepsAllBut(b1 + b2, a1 + a2, k1 + Shifted(k2, |b1|), gone)
  {
    var kept, before, after := k1 + Shifted(k2, |b1|), b1 + b2, a1 + a2;
    forall b | 0 <= b < |kept|
      ensures kept[b] < |before| && after[b].place == before[kept[b]].place && after[b].card == before[kept[b]].card
      ensures !IsGone(before[kept[b]], gone)
    {
      JoinSame(b1, a1, k1, b2, a2, k2, gone, b);
    }
    forall i: nat | i < |before| && !IsGone(before[i], gone) ensures i in kept {
      JoinAll(b1, a1, k1, b2, a2, k2, gone, i);
    }
    JoinRising(k1, k2, |b1|);
  }

  lemma {:induction false} FlatKept(blocks: seq<Block>, other: seq<Block>, gone: Losses) returns (kept: seq<nat>)
    requires AllThinned(blocks, other, gone)
    ensures KeepsAllBut(Flat(blocks), Flat(other), kept, gone)
  {
    if blocks == [] {
      kept := [];
    } else {
      OneListKept(blocks[0], other[0], gone);
      var first := StayingAt(GoneAt(gone, blocks[0].place), |blocks[0].cards|);
      var rest := FlatKept(blocks[1..], other[1..], gone);
      JoinKept(ListSlots(blocks[0]), ListSlots(other[0]), first, Flat(blocks[1..]), Flat(other[1..]), rest, gone);
      kept := first + Shifted(rest, |ListSlots(blocks[0])|);
    }
  }

  predicate StandsIn(slot: Slot, home: nat, block: Block) {
    && slot.place == block.place && home == block.home
    && slot.index < |block.cards| && slot.card == block.cards[slot.index]
  }

  lemma {:induction false} FlatIsOf(blocks: seq<Block>, a: nat) returns (k: nat)
    requires a < |Flat(blocks)|
    ensures k < |blocks| && StandsIn(Flat(blocks)[a], Homes(blocks)[a], blocks[k])
  {
    var n := |ListSlots(blocks[0])|;
    if a < n {
      k := 0;
    } else {
      k := FlatIsOf(blocks[1..], a - n);
      k := k + 1;
    }
  }

  lemma OtherPlace(blocks: seq<Block>, b: nat)
    requires blocks != [] && PlacesApart(blocks) && b < |Flat(blocks[1..])|
    ensures Flat(blocks[1..])[b].place != blocks[0].place
  {
    var k := FlatIsOf(blocks[1..], b);
    assert blocks[1..][k] == blocks[k + 1];
  }

  lemma {:induction false} FlatIsWritten(blocks: seq<Block>)
    requires PlacesApart(blocks)
    ensures Written(Flat(blocks))
  {
    if blocks != [] {
      FlatIsWritten(blocks[1..]);
      var slots, n := Flat(blocks), |ListSlots(blocks[0])|;
      forall a, b | 0 <= a < b < |slots| && slots[a].place == slots[b].place ensures slots[a].index < slots[b].index {
        if n <= a {
          assert slots[a] == Flat(blocks[1..])[a - n] && slots[b] == Flat(blocks[1..])[b - n];
        } else if n <= b {
          OtherPlace(blocks, b - n);
        }
      }
    }
  }
}
