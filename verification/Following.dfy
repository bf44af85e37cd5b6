/** Where every card list of one dashboard is looked for in another: its section followed through the pairing. */
module Following {
  import opened Wrappers
  import opened Sequences
  import opened Claims
  import opened CardMatching
  import opened SectionPairs
  import opened Dashboard
  import opened FindRemoved
  import opened RoundTrip

  // -- the translation ---------------------------------------------------

  /** Where no two views share a path, a section goes where its own view's pairing says, and nowhere else. */
  lemma {:induction false} TranslationIs(config: Config, pairings: Pairings, upto: nat, u: nat, i: nat)
    requires !PathsShare(config) && upto <= |config| && u < |config| && config[u].View?
    requires forall w: nat :: w in pairings ==> w < |config| && config[w].View?
    ensures var translate, at := TranslationOf(config, pairings, upto), (Key(config, u), i);
      && (at in translate <==> u < upto && u in pairings && i in Went(pairings[u].All()))
      && (at in translate ==> translate[at] == Went(pairings[u].All())[i])
  {
    if upto > 0 {
      TranslationIs(config, pairings, upto - 1, u, i);
      if upto - 1 in pairings {
        var w := upto - 1;
        OneViewAKey(config, u, w);
        LaidOver(TranslationOf(config, pairings, w), Key(config, w), Went(pairings[w].All()), (Key(config, u), i));
      }
    }
  }

  lemma LaidOver(translate: Translation, key: ViewKey, went: map<nat, nat>, at: (ViewKey, nat))
    ensures var longer := translate + ViewTranslation(key, went);
      && (at in longer <==> at in translate || (at.0 == key && at.1 in went))
      && (at in longer ==> longer[at] == if at.0 == key && at.1 in went then went[at.1] else translate[at])
  {
  }

  lemma WentOf(pairs: Pairs, q: (nat, nat))
    requires Apart(pairs) && q in pairs
    ensures q.0 in Went(pairs) && Went(pairs)[q.0] == q.1
  {
    var k :| 0 <= k < |pairs| && pairs[k] == q;
    assert q.0 in Olds(pairs);
    var other := (q.0, Went(pairs)[q.0]);
    var m :| 0 <= m < |pairs| && pairs[m] == other;
    assert k == m;
  }

  /** Two sections of one view never go to one place. */
  lemma WentApart(pairs: Pairs, i: nat, other: nat)
    requires Apart(pairs) && i in Went(pairs) && other in Went(pairs) && Went(pairs)[i] == Went(pairs)[other]
    ensures i == other
  {
    var q, r := (i, Went(pairs)[i]), (other, Went(pairs)[other]);
    var k :| 0 <= k < |pairs| && pairs[k] == q;
    var m :| 0 <= m < |pairs| && pairs[m] == r;
    assert k == m;
  }

  // -- the slots of a list -----------------------------------------------

  /** A slot is a card of the list its place names. */
  ghost predicate IsCardOf(slot: Slot, config: Config, u: nat, at: Location) {
    && u < |config| && config[u].View? && ListAt(config, u, at).Some? && slot.place == PlaceOf(config, u, at)
    && slot.index < |List(config, u, at)| && slot.card == List(config, u, at)[slot.index]
  }

  lemma {:induction false} BlockInSection(home: nat, key: ViewKey, sections: seq<Section>, from: nat, block: Block)
    requires from <= |sections| && block in SectionBlocks(home, key, sections, from)
    ensures block.place.view == key && block.place.location.SectionCards? && block.place.location.section < |sections|
    ensures var section := sections[block.place.location.section];
      section.Section? && section.cards == Some(block.cards)
    decreases |sections| - from
  {
    if from < |sections| {
      var rest := SectionBlocks(home, key, sections, from + 1);
      if block in rest {
        BlockInSection(home, key, sections, from + 1, block);
      }
    }
  }

  lemma SlotIn(config: Config, keys: set<ViewKey>, i: nat) returns (u: nat, at: Location)
    requires i < |Flat(Blocks(config, keys))|
    ensures IsCardOf(Flat(Blocks(config, keys))[i], config, u, at) && Key(config, u) in keys
  {
    var blocks := Blocks(config, keys);
    var k := FlatIsOf(blocks, i);
    u := InConcat(BlocksByView(config, keys), blocks[k]);
    at := blocks[k].place.location;
    BlockIsItsList(config, u, blocks[k]);
  }

  lemma BlockIsItsList(config: Config, u: nat, block: Block)
    requires u < |config| && config[u].View? && block in ViewBlocks(config, u)
    ensures block.place == PlaceOf(config, u, block.place.location)
    ensures ListAt(config, u, block.place.location) == Some(block.cards)
  {
    if block in SectionBlocks(u, Key(config, u), config[u].sections, 0) {
      BlockInSection(u, Key(config, u), config[u].sections, 0, block);
    }
  }

  lemma SlotAt(config: Config, keys: set<ViewKey>, u: nat, at: Location, index: nat) returns (i: nat)
    requires u < |config| && config[u].View? && ListAt(config, u, at).Some? && Key(config, u) in keys
    requires index < |List(config, u, at)|
    ensures var slots := Flat(Blocks(config, keys));
      i < |slots| && slots[i] == Slot(PlaceOf(config, u, at), index, List(config, u, at)[index])
  {
    BlockOf(config, u, at, keys);
    var blocks := Blocks(config, keys);
    var k: nat :| k < |blocks| && blocks[k] == Block(u, PlaceOf(config, u, at), List(config, u, at));
    i := FlatHas(blocks, k, index);
  }

  /** One place, one list. */
  lemma ListOfPlace(config: Config, u: nat, at: Location, w: nat, other: Location)
    requires !PathsShare(config) && u < |config| && config[u].View? && w < |config| && config[w].View?
    requires PlaceOf(config, u, at) == PlaceOf(config, w, other)
    ensures u == w && at == other
  {
    OneViewAKey(config, u, w);
  }

  // -- as many on both sides ---------------------------------------------

  /** Links that reach all of both sides and never two of one. */
  ghost predicate OneToOne(links: set<(nat, nat)>, one: set<nat>, other: set<nat>) {
    && (forall p :: p in links ==> p.0 in one && p.1 in other)
    && (forall i :: i in one ==> exists p :: p in links && p.0 == i)
    && (forall j :: j in other ==> exists p :: p in links && p.1 == j)
    && (forall p, q :: p in links && q in links ==> (p.0 == q.0 <==> p.1 == q.1))
  }

  lemma {:induction false} AsMany(links: set<(nat, nat)>, one: set<nat>, other: set<nat>)
    requires OneToOne(links, one, other)
    ensures |one| == |other|
    decreases |one|
  {
    if one == {} {
      assert other == {};
    } else {
      var i :| i in one;
      var p :| p in links && p.0 == i;
      var fewer := links - {p};
      forall k | k in one - {i} ensures exists q :: q in fewer && q.0 == k {
        var q :| q in links && q.0 == k;
        assert q in fewer;
      }
      forall k | k in other - {p.1} ensures exists q :: q in fewer && q.1 == k {
        var q :| q in links && q.1 == k;
        assert q in fewer;
      }
      AsMany(fewer, one - {i}, other - {p.1});
    }
  }
}
