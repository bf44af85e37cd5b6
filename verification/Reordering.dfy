/** A view's sections in another order: no card is said to have gone anywhere. */
module Reordering {
  import opened Wrappers
  import opened Claims
  import opened CardMatching
  import opened SectionPairs
  import opened GapPairing
  import opened Dashboard
  import opened FindRemoved
  import opened RoundTrip
  import opened Following
  import opened SectionTrip

  /** The same views with the same sections, in any order. */
  ghost predicate Reordered(config: Config, now: Config) {
    && SameViews(config, now)
    && forall u: nat :: u < |config| && config[u].View? ==> multiset(now[u].sections) == multiset(config[u].sections)
  }

  lemma NoneOver(p: SectionPairing, olds: seq<Section>, news: seq<Section>, key: Section)
    requires IsPairing(p, olds, news) && multiset(olds) == multiset(news)
    ensures Having(olds, key) <= Olds(p.Identical()) && Having(news, key) <= News(p.Identical())
  {
    IdenticalIsSound(p, olds, news);
    OneSideTaken(p, olds, news, key);
    HavingIsCount(olds, key);
    HavingIsCount(news, key);
    BothSidesAll(p.Identical(), olds, news, key);
  }

  /** Every section is paired with an equal one. */
  lemma ReorderedPairs(p: SectionPairing, olds: seq<Section>, news: seq<Section>)
    requires IsPairing(p, olds, news) && multiset(olds) == multiset(news)
    ensures PairedBut(p, olds, news, |olds|)
  {
    IdenticalIsSound(p, olds, news);
    forall i: nat | i < |olds| ensures i in Olds(p.Identical()) {
      NoneOver(p, olds, news, olds[i]);
      assert i in Having(olds, olds[i]);
    }
    forall j: nat | j < |news| ensures j in News(p.Identical()) {
      NoneOver(p, olds, news, news[j]);
      assert j in Having(news, news[j]);
    }
    NothingInPlace(p, olds, news);
  }

  lemma AllPairedAround(pairings: Pairings, config: Config, now: Config, v: nat)
    requires !PathsShare(config) && Reordered(config, now) && ArePairings(pairings, config, now, |config|)
    requires v < |config| && config[v].View?
    ensures PairedAround(pairings, config, now, v, |config[v].sections|)
  {
    ViewsArePaired(pairings, config, now);
    forall u: nat | u in pairings
      ensures PairedBut(pairings[u], config[u].sections, now[u].sections, LeftIn(config, v, |config[v].sections|, u))
    {
      OneViewPaired(pairings, config, now, u);
    }
  }

  lemma ViewsArePaired(pairings: Pairings, config: Config, now: Config)
    requires !PathsShare(config) && SameViews(config, now) && ArePairings(pairings, config, now, |config|)
    ensures forall u: nat :: u in pairings <==> u < |config| && config[u].View?
  {
    forall u: nat ensures u in pairings <==> u < |config| && config[u].View? {
      if u < |config| {
        PartnersStay(config, now, u);
      }
    }
  }

  lemma OneViewPaired(pairings: Pairings, config: Config, now: Config, u: nat)
    requires !PathsShare(config) && Reordered(config, now) && ArePairings(pairings, config, now, |config|)
    requires u in pairings && u < |config| && config[u].View?
    ensures PairedBut(pairings[u], config[u].sections, now[u].sections, |config[u].sections|)
  {
    PartnersStay(config, now, u);
    ReorderedPairs(pairings[u], config[u].sections, now[u].sections);
  }

  lemma StillNoneShared(config: Config, now: Config)
    requires !PathsShare(config) && SameViews(config, now)
    ensures !PathsShare(now) && Shared(config, now) == Keys(config)
  {
  }

  /**
   * Whatever order the sections of however many views were put in, and whatever
   * stands twice: no card is reported as gone, added, edited or in another list.
   */
  lemma ReorderingMovesNoCard(c: Comparison, config: Config, now: Config)
    requires !PathsShare(config) && Reordered(config, now) && IsComparison(c, config, now)
    ensures c.cards.removed == [] && c.cards.added == [] && c.cards.edited == [] && c.cards.displaced == []
    ensures forall p :: p in c.cards.moved ==> MovedInItsList(c.cards, c.before, c.after, p)
  {
    StillNoneShared(config, now);
    if v: nat :| v < |config| && config[v].View? {
      NoCardMoved(c, config, now, v);
    } else {
      NoSlots(config, now, c);
    }
    assert c.cards.displaced == [];
  }

  lemma NoCardMoved(c: Comparison, config: Config, now: Config, v: nat)
    requires !PathsShare(config) && Reordered(config, now) && IsComparison(c, config, now)
    requires v < |config| && config[v].View? && !PathsShare(now) && Shared(config, now) == Keys(config)
    ensures c.cards.removed == [] && c.cards.added == [] && c.cards.edited == [] && c.cards.displaced == []
  {
    var gap := GapAt(config, v, |config[v].sections|);
    AllPairedAround(c.pairings, config, now, v);
    SlotsMirrored(config, now, c.pairings, v, |config[v].sections|);
    ExactlyTheGap(c.cards, c.before, c.after, c.translate, gap);
    forall i: nat | i < |c.before| ensures c.before[i].place != gap {
      NoSlotBeyond(config, v, i);
    }
    FirstIn(c.cards.removed);
  }

  lemma NoSlotBeyond(config: Config, v: nat, i: nat)
    requires !PathsShare(config) && v < |config| && config[v].View? && i < |Flat(Blocks(config, Keys(config)))|
    ensures Flat(Blocks(config, Keys(config)))[i].place != GapAt(config, v, |config[v].sections|)
  {
    var u, at := SlotIn(config, Keys(config), i);
    GapIsOne(config, v, |config[v].sections|, u, at);
  }

  lemma NoSlots(config: Config, now: Config, c: Comparison)
    requires SameViews(config, now) && IsComparison(c, config, now) && Shared(config, now) == Keys(config)
    requires forall v: nat :: v < |config| ==> !config[v].View?
    ensures c.cards.removed == [] && c.cards.added == [] && c.cards.edited == [] && c.cards.displaced == []
  {
    if c.before != [] {
      var u, at := SlotIn(config, Keys(config), 0);
    }
    if c.after != [] {
      var u, at := SlotIn(now, Keys(config), 0);
    }
    EveryCardOnce(c.cards, c.before, c.after, c.translate);
    NothingLeft(c.cards, 0);
    FirstIn(c.cards.removed);
  }

  // -- other settings ----------------------------------------------------

  /** One section of a view with other settings, its cards as they were. */
  function Reset(config: Config, v: nat, s: nat, own: string): Config
    requires v < |config| && config[v].View? && s < |config[v].sections| && config[v].sections[s].Section?
  {
    config[v := config[v].(sections := config[v].sections[s := config[v].sections[s].(own := own)])]
  }

  lemma {:induction false} SectionBlocksReset(home: nat, key: ViewKey, sections: seq<Section>, s: nat, own: string,
                                              from: nat)
    requires from <= |sections| && s < |sections| && sections[s].Section?
    ensures SectionBlocks(home, key, sections[s := sections[s].(own := own)], from) ==
      SectionBlocks(home, key, sections, from)
    decreases |sections| - from
  {
    if from < |sections| {
      SectionBlocksReset(home, key, sections, s, own, from + 1);
    }
  }

  lemma ResetIsTheSame(config: Config, v: nat, s: nat, own: string)
    requires v < |config| && config[v].View? && s < |config[v].sections| && config[v].sections[s].Section?
    ensures SameViews(config, Reset(config, v, s, own))
    ensures forall keys :: Blocks(Reset(config, v, s, own), keys) == Blocks(config, keys)
  {
    var now := Reset(config, v, s, own);
    assert forall u: nat :: u < |config| && config[u].View? ==> Key(now, u) == Key(config, u);
    SectionBlocksReset(v, Key(config, v), config[v].sections, s, own, 0);
    forall keys ensures Blocks(now, keys) == Blocks(config, keys) {
      forall u | 0 <= u < |config| ensures BlocksByView(now, keys)[u] == BlocksByView(config, keys)[u] {
        assert NamedBlocks(now, keys, u) == NamedBlocks(config, keys, u);
      }
      assert BlocksByView(now, keys) == BlocksByView(config, keys);
    }
  }

  /** Another setting of a section moves none of its cards, and no card at all is reported. */
  lemma ResettingMovesNoCard(c: Comparison, config: Config, v: nat, s: nat, own: string)
    requires v < |config| && config[v].View? && s < |config[v].sections| && config[v].sections[s].Section?
    requires !PathsShare(config) && IsComparison(c, config, Reset(config, v, s, own))
    ensures c.cards.removed == [] && c.cards.added == [] && c.cards.edited == [] && c.cards.moved == []
  {
    var now := Reset(config, v, s, own);
    ResetIsTheSame(config, v, s, own);
    StillNoneShared(config, now);
    forall u: nat | u in c.pairings
      ensures u < |config| && config[u].View? && AtHome(c.pairings[u], |config[u].sections|)
    {
      PartnersStay(config, now, u);
      PairedAtHome(c.pairings[u], config[u].sections, now[u].sections, if u == v then s else |config[u].sections|);
    }
    TranslationStays(config, c.pairings, |config|);
    SlotsStay(c.before, c.translate);
    NothingChangedNothingReported(c.cards, c.before, c.translate);
  }

  // -- another layout ----------------------------------------------------

  /** A view's sections are compared with those of the view of its path or place exactly where both have one layout. */
  lemma PairedExactly(pairings: Pairings, config: Config, now: Config, u: nat)
    requires ArePairings(pairings, config, now, |config|) && !PathsShare(now)
    ensures u in pairings <==>
      (&& u < |config| && config[u].View?
       && exists w: nat ::
            w < |now| && now[w].View? && SameIdentity(config, u, now, w) && SameLayout(config[u], now[w]))
  {
    if u < |config| && config[u].View? {
      var w := ViewOf(now, Key(config, u), |now|);
      forall x: nat | x < |now| && now[x].View? && SameIdentity(config, u, now, x) ensures w == Some(x) {
        OneViewAKey(now, x, w.value);
      }
    }
  }

  /** The same path where there is one that is not empty, else the same place. */
  predicate SameIdentity(config: Config, u: nat, now: Config, w: nat)
    requires u < |config| && config[u].View? && w < |now| && now[w].View?
  {
    if Named(config[u]) then Named(now[w]) && now[w].path == config[u].path else !Named(now[w]) && u == w
  }

  predicate Named(view: View)
    requires view.View?
  {
    view.path.Some? && view.path.value != ""
  }

  /** Written or not, a view without a layout of its own has the classic one. */
  predicate SameLayout(one: View, other: View)
    requires one.View? && other.View?
  {
    || one.kind == other.kind
    || (Classic(one) && Classic(other))
  }

  predicate Classic(view: View)
    requires view.View?
  {
    view.kind.None? || view.kind.value == "" || view.kind.value == "masonry"
  }
}
