/** Deleting a whole section and putting it back, whatever stands twice. */
module SectionTrip {
  import opened Wrappers
  import opened Sequences
  import opened Claims
  import opened CardMatching
  import opened SectionPairs
  import opened GapPairing
  import opened Dashboard
  import opened FindRemoved
  import opened PutBack
  import opened RoundTrip
  import opened Following

  /** A section of a view goes, with cards in it or without. */
  ghost predicate Drops(config: Config, v: nat, s: nat) {
    v < |config| && config[v].View? && s < |config[v].sections| && !PathsShare(config)
  }

  function Closed(config: Config, v: nat, s: nat): Config
    requires v < |config| && config[v].View?
  {
    config[v := config[v].(sections := Neighbours(config[v].sections, s))]
  }

  /** The last section of the view like the one that went: the one the pairing leaves over. */
  function Twin(config: Config, v: nat, s: nat): (last: nat)
    requires v < |config| && config[v].View? && s < |config[v].sections|
    ensures s <= last < |config[v].sections| && config[v].sections[last] == config[v].sections[s]
  {
    LastLike(config[v].sections, s, |config[v].sections|)
  }

  function GapAt(config: Config, v: nat, s: nat): Place
    requires v < |config| && config[v].View?
  {
    Place(Key(config, v), SectionCards(s))
  }

  lemma ClosedIsTheSame(config: Config, v: nat, s: nat)
    requires Drops(config, v, s)
    ensures var now := Closed(config, v, s);
      && SameViews(config, now) && now[v].sections == Neighbours(config[v].sections, s)
      && (forall u: nat :: u < |config| && u != v ==> now[u] == config[u])
      && Shared(config, now) == Keys(config) && PathsShare(now) == PathsShare(config)
  {
    var now := Closed(config, v, s);
    assert forall u: nat :: u < |config| && config[u].View? ==> Key(now, u) == Key(config, u);
    assert forall u: nat :: u < |config| && now[u].View? ==> config[u].View?;
  }

  /** The same views, each with its path, its layout and its own cards. */
  ghost predicate SameViews(config: Config, now: Config) {
    && |now| == |config| && Keys(now) == Keys(config)
    && (forall u: nat :: u < |config| ==> now[u].View? == config[u].View?)
    && (forall u: nat :: u < |config| && config[u].View? ==>
          Key(now, u) == Key(config, u) && Layout(now[u]) == Layout(config[u])
          && now[u].path == config[u].path && now[u].cards == config[u].cards)
  }

  // -- the sections pair up around the gap -------------------------------

  /** Each view's sections are paired with their equals, but for one of the view with the gap. */
  ghost predicate PairedAround(pairings: Pairings, config: Config, now: Config, v: nat, left: nat) {
    && |now| == |config|
    && (forall u: nat :: u in pairings <==> u < |config| && config[u].View?)
    && (forall u: nat :: u in pairings ==> now[u].View?)
    && (forall u: nat :: u in pairings ==>
          PairedBut(pairings[u], config[u].sections, now[u].sections, LeftIn(config, v, left, u)))
  }

  function LeftIn(config: Config, v: nat, left: nat, u: nat): nat
    requires u < |config| && config[u].View?
  {
    if u == v then left else |config[u].sections|
  }

  lemma PartnersStay(config: Config, now: Config, u: nat)
    requires !PathsShare(config) && SameViews(config, now) && u < |config|
    ensures Partner(config, now, u) == if config[u].View? then Some(u) else None
  {
    if config[u].View? {
      var w := ViewOf(now, Key(config, u), |now|);
      assert Key(now, u) == Key(config, u);
      if w.Some? {
        OneViewAKey(config, u, w.value);
      }
    }
  }

  lemma PairingsAround(pairings: Pairings, config: Config, v: nat, s: nat)
    requires Drops(config, v, s) && ArePairings(pairings, config, Closed(config, v, s), |config|)
    ensures PairedAround(pairings, config, Closed(config, v, s), v, Twin(config, v, s))
  {
    var now := Closed(config, v, s);
    ClosedIsTheSame(config, v, s);
    forall u: nat ensures u in pairings <==> u < |config| && config[u].View? {
      if u < |config| {
        PartnersStay(config, now, u);
      }
    }
    forall u: nat | u in pairings
      ensures PairedBut(pairings[u], config[u].sections, now[u].sections, LeftIn(config, v, Twin(config, v, s), u))
    {
      PartnersStay(config, now, u);
      if u == v {
        SectionsPairAround(pairings[u], config[u].sections, s);
      } else {
        SameRowPairs(pairings[u], config[u].sections);
      }
    }
  }

  // -- every card but those of the gap is followed to its equal ----------

  /** The card of before in its list where that went. */
  predicate Follows(before: Slot, after: Slot, translate: Translation) {
    after.place == Translated(before, translate) && after.index == before.index && after.card == before.card
  }

  /** The same cards on both sides, each followed to its place, and nothing else; but for those of the gap. */
  ghost predicate Mirrored(before: seq<Slot>, after: seq<Slot>, translate: Translation, gap: Place) {
    && (forall i: nat :: i < |before| ==> (Unpaired(before[i], translate) <==> before[i].place == gap))
    && (forall i: nat :: i < |before| && before[i].place != gap ==> HasFollower(before[i], after, translate))
    && (forall b: nat :: b < |after| ==> Followed(before, after[b], translate, gap))
    && (forall b, d :: 0 <= b < d < |after| && after[b].place == after[d].place ==> after[b].index != after[d].index)
    && (forall i, k :: 0 <= i < k < |before| && before[i].place != gap && before[k].place != gap ==>
          LandApart(before[i], before[k], translate))
  }

  predicate LandApart(one: Slot, other: Slot, translate: Translation) {
    Translated(one, translate) == Translated(other, translate) ==> one.index != other.index
  }

  ghost predicate HasFollower(slot: Slot, after: seq<Slot>, translate: Translation) {
    exists b: nat :: b < |after| && Follows(slot, after[b], translate)
  }

  ghost predicate Followed(before: seq<Slot>, slot: Slot, translate: Translation, gap: Place) {
    exists i: nat :: i < |before| && before[i].place != gap && Follows(before[i], slot, translate)
  }

  /** A list of a section goes where the pairing says, unless it is the one of the gap. */
  lemma SectionFollowed(config: Config, now: Config, pairings: Pairings, v: nat, left: nat, u: nat, x: nat)
    requires !PathsShare(config) && SameViews(config, now) && PairedAround(pairings, config, now, v, left)
    requires u < |config| && config[u].View? && x < |config[u].sections|
    ensures var translate, at := TranslationOf(config, pairings, |config|), (Key(config, u), x);
      && (at in translate <==> !(u == v && x == left))
      && (at in translate ==>
            translate[at] < |now[u].sections| && config[u].sections[x] == now[u].sections[translate[at]])
  {
    TranslationIs(config, pairings, |config|, u, x);
    var pairs := pairings[u].All();
    if x in Went(pairs) {
      assert (x, Went(pairs)[x]) in pairs;
    }
  }

  lemma OldIsFollowed(config: Config, now: Config, pairings: Pairings, v: nat, left: nat, i: nat)
    requires !PathsShare(config) && SameViews(config, now) && PairedAround(pairings, config, now, v, left)
    requires v < |config| && config[v].View? && i < |Flat(Blocks(config, Keys(config)))|
    ensures var slot, translate := Flat(Blocks(config, Keys(config)))[i], TranslationOf(config, pairings, |config|);
      && (Unpaired(slot, translate) <==> slot.place == GapAt(config, v, left))
      && (slot.place != GapAt(config, v, left) ==> HasFollower(slot, Flat(Blocks(now, Keys(config))), translate))
  {
    var slot, translate := Flat(Blocks(config, Keys(config)))[i], TranslationOf(config, pairings, |config|);
    var u, at := SlotIn(config, Keys(config), i);
    if at.SectionCards? {
      SectionFollowed(config, now, pairings, v, left, u, at.section);
      GapIsOne(config, v, left, u, at);
      if slot.place != GapAt(config, v, left) {
        var b := SlotAt(now, Keys(config), u, SectionCards(translate[(Key(config, u), at.section)]), slot.index);
        assert Follows(slot, Flat(Blocks(now, Keys(config)))[b], translate);
      }
    } else {
      var b := SlotAt(now, Keys(config), u, at, slot.index);
      assert Follows(slot, Flat(Blocks(now, Keys(config)))[b], translate);
    }
  }

  lemma GapIsOne(config: Config, v: nat, left: nat, u: nat, at: Location)
    requires !PathsShare(config) && v < |config| && config[v].View? && u < |config| && config[u].View?
    ensures PlaceOf(config, u, at) == GapAt(config, v, left) <==> u == v && at == SectionCards(left)
  {
    if PlaceOf(config, u, at) == GapAt(config, v, left) {
      ListOfPlace(config, u, at, v, SectionCards(left));
    }
  }

  /** Every section there is came from one, and not from that of the gap. */
  lemma CameFrom(config: Config, now: Config, pairings: Pairings, v: nat, left: nat, u: nat, y: nat) returns (x: nat)
    requires !PathsShare(config) && SameViews(config, now) && PairedAround(pairings, config, now, v, left)
    requires u < |config| && config[u].View? && y < |now[u].sections|
    ensures x < |config[u].sections| && config[u].sections[x] == now[u].sections[y] && !(u == v && x == left)
    ensures var translate, at := TranslationOf(config, pairings, |config|), (Key(config, u), x);
      at in translate && translate[at] == y
  {
    var pairs := pairings[u].All();
    assert y in News(pairs);
    var q :| q in pairs && q.1 == y;
    x := q.0;
    WentOf(pairs, q);
    assert x in Olds(pairs);
    TranslationIs(config, pairings, |config|, u, x);
  }

  lemma NewIsFollowed(config: Config, now: Config, pairings: Pairings, v: nat, left: nat, b: nat)
    requires !PathsShare(config) && SameViews(config, now) && PairedAround(pairings, config, now, v, left)
    requires v < |config| && config[v].View? && b < |Flat(Blocks(now, Keys(config)))|
    ensures var slot, translate := Flat(Blocks(now, Keys(config)))[b], TranslationOf(config, pairings, |config|);
      Followed(Flat(Blocks(config, Keys(config))), slot, translate, GapAt(config, v, left))
  {
    var slot, translate := Flat(Blocks(now, Keys(config)))[b], TranslationOf(config, pairings, |config|);
    var before := Flat(Blocks(config, Keys(config)));
    var u, at := SlotIn(now, Keys(config), b);
    var from := at;
    if at.SectionCards? {
      var x := CameFrom(config, now, pairings, v, left, u, at.section);
      from := SectionCards(x);
    }
    var i := SlotAt(config, Keys(config), u, from, slot.index);
    GapIsOne(config, v, left, u, from);
    assert Follows(before[i], slot, translate);
  }

  /** No two lists are followed to one place. */
  lemma FollowedApart(config: Config, now: Config, pairings: Pairings, v: nat, left: nat, i: nat, k: nat)
    requires !PathsShare(config) && SameViews(config, now) && PairedAround(pairings, config, now, v, left)
    requires v < |config| && config[v].View?
    requires var before, translate := Flat(Blocks(config, Keys(config))), TranslationOf(config, pairings, |config|);
      && i < k < |before| && Translated(before[i], translate) == Translated(before[k], translate)
      && before[i].place != GapAt(config, v, left) && before[k].place != GapAt(config, v, left)
    ensures var before := Flat(Blocks(config, Keys(config))); before[i].index != before[k].index
  {
    var before, translate := Flat(Blocks(config, Keys(config))), TranslationOf(config, pairings, |config|);
    var u, at := SlotIn(config, Keys(config), i);
    var w, other := SlotIn(config, Keys(config), k);
    OneViewAKey(config, u, w);
    if at.SectionCards? && other.SectionCards? {
      GapIsOne(config, v, left, u, at);
      GapIsOne(config, v, left, u, other);
      SectionsLandApart(config, now, pairings, v, left, u, at.section, other.section);
    }
    BlocksApart(config, Keys(config));
    FlatIsWritten(Blocks(config, Keys(config)));
  }

  lemma SectionsLandApart(config: Config, now: Config, pairings: Pairings, v: nat, left: nat, u: nat, x: nat, y: nat)
    requires !PathsShare(config) && SameViews(config, now) && PairedAround(pairings, config, now, v, left)
    requires u < |config| && config[u].View? && x < |config[u].sections| && y < |config[u].sections|
    requires !(u == v && x == left) && !(u == v && y == left)
    ensures var translate, key := TranslationOf(config, pairings, |config|), Key(config, u);
      && (key, x) in translate && (key, y) in translate
      && (translate[(key, x)] == translate[(key, y)] ==> x == y)
  {
    TranslationIs(config, pairings, |config|, u, x);
    TranslationIs(config, pairings, |config|, u, y);
    var pairs := pairings[u].All();
    assert x in Olds(pairs) && y in Olds(pairs);
    if Went(pairs)[x] == Went(pairs)[y] {
      WentApart(pairs, x, y);
    }
  }

  lemma SlotsMirrored(config: Config, now: Config, pairings: Pairings, v: nat, left: nat)
    requires !PathsShare(config) && !PathsShare(now) && SameViews(config, now)
    requires PairedAround(pairings, config, now, v, left) && v < |config| && config[v].View?
    ensures Mirrored(Flat(Blocks(config, Keys(config))), Flat(Blocks(now, Keys(config))),
                     TranslationOf(config, pairings, |config|), GapAt(config, v, left))
  {
    var before, after := Flat(Blocks(config, Keys(config))), Flat(Blocks(now, Keys(config)));
    var translate, gap := TranslationOf(config, pairings, |config|), GapAt(config, v, left);
    BlocksApart(now, Keys(config));
    FlatIsWritten(Blocks(now, Keys(config)));
    forall i: nat | i < |before|
      ensures Unpaired(before[i], translate) <==> before[i].place == gap
      ensures before[i].place != gap ==> HasFollower(before[i], after, translate)
    {
      OldIsFollowed(config, now, pairings, v, left, i);
    }
    forall b: nat | b < |after| ensures Followed(before, after[b], translate, gap) {
      NewIsFollowed(config, now, pairings, v, left, b);
    }
    forall i, k | 0 <= i < k < |before| && before[i].place != gap && before[k].place != gap
      ensures LandApart(before[i], before[k], translate)
    {
      if Translated(before[i], translate) == Translated(before[k], translate) {
        FollowedApart(config, now, pairings, v, left, i, k);
      }
    }
  }

  // -- what the matching gives up on -------------------------------------

  function AtGap(slots: seq<Slot>, gap: Place): set<nat> {
    set i: nat | i < |slots| && slots[i].place == gap
  }

  /** As many cards of a key were there before, the gap's left out, as there are now. */
  lemma AsManyAround(before: seq<Slot>, after: seq<Slot>, translate: Translation, gap: Place, key: (Place, Card))
    requires Mirrored(before, after, translate, gap)
    ensures |Having(Masked(OldPlaceKeys(before, translate), AtGap(before, gap)), Some(key))| ==
      |Having(Masked(NewPlaceKeys(after), {}), Some(key))|
  {
    var olds := Having(Masked(OldPlaceKeys(before, translate), AtGap(before, gap)), Some(key));
    var news := Having(Masked(NewPlaceKeys(after), {}), Some(key));
    HoldersBefore(before, translate, gap, key);
    HoldersAfter(after, key);
    AllLinked(before, after, translate, gap, olds, news);
    forall p, q | p in Links(before, after, translate, olds, news) && q in Links(before, after, translate, olds, news)
      ensures p.0 == q.0 <==> p.1 == q.1
    {
      OneFollower(before, after, translate, gap, p, q);
    }
    AsMany(Links(before, after, translate, olds, news), olds, news);
  }

  /** Each card of one set with those of the other that follow it. */
  function Links(before: seq<Slot>, after: seq<Slot>, translate: Translation, olds: set<nat>,
                 news: set<nat>): (links: set<(nat, nat)>)
    ensures forall p :: p in links <==>
      p.0 in olds && p.1 in news && p.0 < |before| && p.1 < |after| && Follows(before[p.0], after[p.1], translate)
  {
    set i, b | i in olds && b in news && i < |before| && b < |after| && Follows(before[i], after[b], translate)
      :: (i, b)
  }

  lemma AllLinked(before: seq<Slot>, after: seq<Slot>, translate: Translation, gap: Place, olds: set<nat>,
                  news: set<nat>)
    requires Mirrored(before, after, translate, gap)
    requires forall i :: i in olds ==> i < |before| && before[i].place != gap
    requires forall b :: b in news ==> b < |after|
    requires forall i: nat, b: nat :: i < |before| && b < |after| && before[i].place != gap ==>
      Follows(before[i], after[b], translate) ==> (i in olds <==> b in news)
    ensures forall i :: i in olds ==> exists p :: p in Links(before, after, translate, olds, news) && p.0 == i
    ensures forall b :: b in news ==> exists p :: p in Links(before, after, translate, olds, news) && p.1 == b
  {
    forall i | i in olds ensures exists p :: p in Links(before, after, translate, olds, news) && p.0 == i {
      assert HasFollower(before[i], after, translate);
      var b: nat :| b < |after| && Follows(before[i], after[b], translate);
      assert (i, b) in Links(before, after, translate, olds, news);
    }
    forall b | b in news ensures exists p :: p in Links(before, after, translate, olds, news) && p.1 == b {
      assert Followed(before, after[b], translate, gap);
      var i: nat :| i < |before| && before[i].place != gap && Follows(before[i], after[b], translate);
      assert (i, b) in Links(before, after, translate, olds, news);
    }
  }

  /** A card has one follower and is the one it follows. */
  lemma OneFollower(before: seq<Slot>, after: seq<Slot>, translate: Translation, gap: Place, p: (nat, nat),
                    q: (nat, nat))
    requires Mirrored(before, after, translate, gap)
    requires p.0 < |before| && q.0 < |before| && p.1 < |after| && q.1 < |after|
    requires before[p.0].place != gap && before[q.0].place != gap
    requires Follows(before[p.0], after[p.1], translate) && Follows(before[q.0], after[q.1], translate)
    ensures p.0 == q.0 <==> p.1 == q.1
  {
    var i, k := if p.0 < q.0 then p.0 else q.0, if p.0 < q.0 then q.0 else p.0;
    assert i < k ==> LandApart(before[i], before[k], translate);
  }

  lemma HoldersBefore(before: seq<Slot>, translate: Translation, gap: Place, key: (Place, Card))
    ensures forall i: nat :: i in Having(Masked(OldPlaceKeys(before, translate), AtGap(before, gap)), Some(key)) <==>
      i < |before| && before[i].place != gap && (Translated(before[i], translate), before[i].card) == key
  {
  }

  lemma HoldersAfter(after: seq<Slot>, key: (Place, Card))
    ensures forall b: nat :: b in Having(Masked(NewPlaceKeys(after), {}), Some(key)) <==>
      b < |after| && (after[b].place, after[b].card) == key
  {
  }

  lemma NoneHasNone<K>(keys: seq<K>, hidden: set<nat>, i: nat)
    requires i < |keys| && i !in hidden
    ensures i in Having(Masked(keys, hidden), Some(keys[i]))
  {
  }

  /** The paired cards claim everything, before the gap's cards come to ask. */
  lemma PairedClaimAll(before: seq<Slot>, after: seq<Slot>, translate: Translation, gap: Place, first: Pairs)
    requires Mirrored(before, after, translate, gap)
    requires first == Claimed(Positions(before, translate, false, 0), OldPlaceKeys(before, translate),
                              NewPlaceKeys(after), {}, {})
    ensures forall j: nat :: j < |after| ==> j in News(first)
    ensures forall i: nat :: i in Olds(first) <==> i < |before| && before[i].place != gap
  {
    PairedIsMasked(before, after, translate, gap, first);
    forall j: nat | j < |after| ensures j in News(first) {
      NewIsClaimed(before, after, translate, gap, first, j);
    }
    forall i: nat | i < |before| && before[i].place != gap ensures i in Olds(first) {
      OldIsClaimed(before, after, translate, gap, first, i);
    }
  }

  lemma PairedIsMasked(before: seq<Slot>, after: seq<Slot>, translate: Translation, gap: Place, first: Pairs)
    requires forall i: nat :: i < |before| ==> (Unpaired(before[i], translate) <==> before[i].place == gap)
    requires first == Claimed(Positions(before, translate, false, 0), OldPlaceKeys(before, translate),
                              NewPlaceKeys(after), {}, {})
    ensures MaskedPass(before, after, translate, gap, first)
    ensures forall i :: i in Olds(first) ==> i < |before| && before[i].place != gap
  {
    var order := Positions(before, translate, false, 0);
    assert forall k :: 0 <= k < |order| ==> order[k] !in AtGap(before, gap);
    ClaimedMasked(order, OldPlaceKeys(before, translate), NewPlaceKeys(after), AtGap(before, gap), {}, {});
    ClaimedIsSound(order, OldPlaceKeys(before, translate), NewPlaceKeys(after), {}, {});
    forall i | i in Olds(first) ensures i < |before| && before[i].place != gap {
      assert i in order;
    }
  }

  ghost predicate MaskedPass(before: seq<Slot>, after: seq<Slot>, translate: Translation, gap: Place, first: Pairs) {
    first == Claimed(Positions(before, translate, false, 0),
                     Masked(OldPlaceKeys(before, translate), AtGap(before, gap)),
                     Masked(NewPlaceKeys(after), {}), {}, {})
  }

  lemma NewIsClaimed(before: seq<Slot>, after: seq<Slot>, translate: Translation, gap: Place, first: Pairs, j: nat)
    requires Mirrored(before, after, translate, gap)
    requires MaskedPass(before, after, translate, gap, first) && j < |after|
    ensures j in News(first)
  {
    OneClaimed(before, after, translate, gap, first, NewPlaceKeys(after)[j]);
    NoneHasNone(NewPlaceKeys(after), {}, j);
  }

  lemma OldIsClaimed(before: seq<Slot>, after: seq<Slot>, translate: Translation, gap: Place, first: Pairs, i: nat)
    requires Mirrored(before, after, translate, gap)
    requires MaskedPass(before, after, translate, gap, first) && i < |before| && before[i].place != gap
    ensures i in Olds(first)
  {
    OneClaimed(before, after, translate, gap, first, OldPlaceKeys(before, translate)[i]);
    NoneHasNone(OldPlaceKeys(before, translate), AtGap(before, gap), i);
  }

  lemma OneClaimed(before: seq<Slot>, after: seq<Slot>, translate: Translation, gap: Place, first: Pairs,
                   key: (Place, Card))
    requires Mirrored(before, after, translate, gap)
    requires MaskedPass(before, after, translate, gap, first)
    ensures Having(Masked(NewPlaceKeys(after), {}), Some(key)) <= News(first)
    ensures Having(Masked(OldPlaceKeys(before, translate), AtGap(before, gap)), Some(key)) <= Olds(first)
  {
    var order := Positions(before, translate, false, 0);
    var olds, news := Masked(OldPlaceKeys(before, translate), AtGap(before, gap)), Masked(NewPlaceKeys(after), {});
    ClaimedIsSound(order, olds, news, {}, {});
    AsManyAround(before, after, translate, gap, key);
    OneSideIsAll(order, olds, news, Some(key), first);
    BothSidesAll(first, olds, news, Some(key));
  }

  lemma OneSideIsAll<K>(order: seq<nat>, olds: seq<K>, news: seq<K>, key: K, pairs: Pairs)
    requires Within(order, |olds|) && forall i :: i in Having(olds, key) ==> i in order
    requires pairs == Claimed(order, olds, news, {}, {})
    ensures Having(olds, key) <= Olds(pairs) || Having(news, key) <= News(pairs)
  {
    if j :| j in Having(news, key) && j !in News(pairs) {
      forall i | i in Having(olds, key) ensures i in Olds(pairs) {
        ClaimedIsMaximal(order, olds, news, {}, {}, i, j);
      }
    }
  }

  lemma BothSidesAll<K>(pairs: Pairs, olds: seq<K>, news: seq<K>, key: K)
    requires Apart(pairs) && SameKeys(pairs, olds, news)
    requires Having(olds, key) <= Olds(pairs) || Having(news, key) <= News(pairs)
    requires |Having(olds, key)| == |Having(news, key)|
    ensures Having(olds, key) <= Olds(pairs) && Having(news, key) <= News(pairs)
  {
    LeftOver(pairs, olds, news, key);
    forall i | i in Having(olds, key) ensures i in Olds(pairs) {
      assert i !in Having(olds, key) - Olds(pairs);
    }
    forall j | j in Having(news, key) ensures j in News(pairs) {
      assert j !in Having(news, key) - News(pairs);
    }
  }

  /** Exactly the cards of the section that went are given up on, and no card left its list. */
  lemma ExactlyTheGap(m: Matching, before: seq<Slot>, after: seq<Slot>, translate: Translation, gap: Place)
    requires IsMatching(m, before, after, translate)
    requires Mirrored(before, after, translate, gap)
    ensures forall i: nat :: i in m.removed <==> i in AtGap(before, gap)
    ensures m.displaced == [] && m.edited == [] && m.added == []
  {
    var paired, unpaired := Positions(before, translate, false, 0), Positions(before, translate, true, 0);
    var olds, news := OldPlaceKeys(before, translate), NewPlaceKeys(after);
    var first := Claimed(paired, olds, news, {}, {});
    PairedClaimAll(before, after, translate, gap, first);
    ClaimedAppend(paired, unpaired, olds, news, {}, {});
    NothingFree(unpaired, olds, news, {} + Olds(first), {} + News(first));
    assert m.inPlace == first;
    EveryCardOnce(m, before, after, translate);
    NothingLeft(m, |after|);
    assert m.All() == m.inPlace;
  }

  /** The comparison gives up on the cards of the last section like the one that went, and nothing left its list. */
  lemma ComparedAround(c: Comparison, config: Config, v: nat, s: nat)
    requires Drops(config, v, s) && IsComparison(c, config, Closed(config, v, s))
    ensures PairedAround(c.pairings, config, Closed(config, v, s), v, Twin(config, v, s))
    ensures c.before == Flat(Blocks(config, Keys(config)))
    ensures forall i: nat :: i in c.cards.removed <==> i in AtGap(c.before, GapAt(config, v, Twin(config, v, s)))
  {
    ClosedIsTheSame(config, v, s);
    PairingsAround(c.pairings, config, v, s);
    SlotsMirrored(config, Closed(config, v, s), c.pairings, v, Twin(config, v, s));
    ExactlyTheGap(c.cards, c.before, c.after, c.translate, GapAt(config, v, Twin(config, v, s)));
  }

  // -- the section is proven to have gone whole --------------------------

  function GapSize(slots: seq<Slot>, gap: Place): nat {
    if slots == [] then 0
    else GapSize(slots[..|slots| - 1], gap) + if slots[|slots| - 1].place == gap then 1 else 0
  }

  lemma {:induction false} GapIsItsSize(slots: seq<Slot>, gap: Place)
    ensures |AtGap(slots, gap)| == GapSize(slots, gap)
  {
    if slots == [] {
      assert AtGap(slots, gap) == {};
    } else {
      var n := |slots| - 1;
      GapIsItsSize(slots[..n], gap);
      var fewer := AtGap(slots[..n], gap);
      assert AtGap(slots, gap) == if slots[n].place == gap then fewer + {n} else fewer;
    }
  }

  lemma {:induction false} GapJoin(a: seq<Slot>, b: seq<Slot>, gap: Place)
    ensures GapSize(a + b, gap) == GapSize(a, gap) + GapSize(b, gap)
  {
    if b == [] {
      assert a + b == a;
    } else {
      GapJoin(a, b[..|b| - 1], gap);
      assert (a + b)[..|a + b| - 1] == a + b[..|b| - 1];
    }
  }

  lemma {:induction false} GapOfOne(slots: seq<Slot>, place: Place, gap: Place)
    requires forall i :: 0 <= i < |slots| ==> slots[i].place == place
    ensures GapSize(slots, gap) == if place == gap then |slots| else 0
  {
    if slots != [] {
      GapOfOne(slots[..|slots| - 1], place, gap);
    }
  }

  /** How many cards stand at one place. */
  lemma {:induction false} GapCount(blocks: seq<Block>, k: nat, gap: Place)
    requires PlacesApart(blocks) && k < |blocks| && blocks[k].place == gap
    ensures GapSize(Flat(blocks), gap) == |blocks[k].cards|
  {
    GapJoin(ListSlots(blocks[0]), Flat(blocks[1..]), gap);
    GapOfOne(ListSlots(blocks[0]), blocks[0].place, gap);
    if k == 0 {
      NoneAtGap(blocks[1..], gap);
    } else {
      GapCount(blocks[1..], k - 1, gap);
    }
  }

  lemma {:induction false} NoneAtGap(blocks: seq<Block>, gap: Place)
    requires forall k :: 0 <= k < |blocks| ==> blocks[k].place != gap || blocks[k].cards == []
    ensures GapSize(Flat(blocks), gap) == 0
  {
    if blocks != [] {
      NoneAtGap(blocks[1..], gap);
      GapJoin(ListSlots(blocks[0]), Flat(blocks[1..]), gap);
      GapOfOne(ListSlots(blocks[0]), blocks[0].place, gap);
    }
  }

  lemma GapHolds(config: Config, v: nat, s: nat)
    requires Drops(config, v, s)
    ensures |AtGap(Flat(Blocks(config, Keys(config))), GapAt(config, v, s))| == |CardsOf(config[v].sections[s])|
  {
    var blocks, gap := Blocks(config, Keys(config)), GapAt(config, v, s);
    BlocksApart(config, Keys(config));
    GapIsItsSize(Flat(blocks), gap);
    if ListAt(config, v, SectionCards(s)).Some? {
      assert Key(config, v) in Keys(config);
      BlockOf(config, v, SectionCards(s), Keys(config));
      var block := Block(v, PlaceOf(config, v, SectionCards(s)), List(config, v, SectionCards(s)));
      var k: nat :| k < |blocks| && blocks[k] == block;
      GapCount(blocks, k, gap);
    } else {
      forall k | 0 <= k < |blocks| ensures blocks[k].place != gap {
        NoBlockAtGap(config, v, s, blocks[k]);
      }
      NoneAtGap(blocks, gap);
    }
  }

  lemma NoBlockAtGap(config: Config, v: nat, s: nat, block: Block)
    requires Drops(config, v, s) && ListAt(config, v, SectionCards(s)).None? && block in Blocks(config, Keys(config))
    ensures block.place != GapAt(config, v, s)
  {
    var u := InConcat(BlocksByView(config, Keys(config)), block);
    BlockIsItsList(config, u, block);
    GapIsOne(config, v, s, u, block.place.location);
  }

  lemma {:induction false} LeftOfOne(u: nat, n: nat, paired: set<nat>, s: nat)
    requires forall i: nat :: i < n ==> (i in paired <==> i != s)
    ensures LeftOf(u, n, paired) == if s < n then [(u, s)] else []
  {
    if n > 0 {
      LeftOfOne(u, n - 1, paired, s);
    }
  }

  lemma {:induction false} LeftInOneView(config: Config, pairings: Pairings, key: ViewKey, v: nat,
                                         left: seq<(nat, nat)>, upto: nat)
    requires upto <= |config| && forall u: nat :: u in pairings ==> u < |config| && config[u].View?
    requires forall u: nat :: u < |config| ==> LeftSectionsOf(config, pairings, key, u) == if u == v then left else []
    ensures LeftSections(config, pairings, key, upto) == if v < upto then left else []
  {
    if upto > 0 {
      LeftInOneView(config, pairings, key, v, left, upto - 1);
      assert LeftSectionsOf(config, pairings, key, upto - 1) == if upto - 1 == v then left else [];
    }
  }

  /** The one section nothing paired is the last like the one that went. */
  lemma OneSectionLeft(config: Config, now: Config, pairings: Pairings, v: nat, left: nat, key: ViewKey)
    requires !PathsShare(config) && v < |config| && config[v].View? && left < |config[v].sections|
    requires PairedAround(pairings, config, now, v, left)
    ensures LeftSections(config, pairings, key, |config|) == if key == Key(config, v) then [(v, left)] else []
  {
    var one := if key == Key(config, v) then [(v, left)] else [];
    forall u: nat | u < |config| ensures LeftSectionsOf(config, pairings, key, u) == if u == v then one else [] {
      LeftOfView(config, now, pairings, v, left, key, u);
    }
    LeftInOneView(config, pairings, key, v, one, |config|);
  }

  lemma LeftOfView(config: Config, now: Config, pairings: Pairings, v: nat, left: nat, key: ViewKey, u: nat)
    requires !PathsShare(config) && v < |config| && config[v].View? && left < |config[v].sections|
    requires PairedAround(pairings, config, now, v, left) && u < |config|
    ensures LeftSectionsOf(config, pairings, key, u) == if key == Key(config, v) && u == v then [(v, left)] else []
  {
    if u in pairings && Key(config, u) == key {
      LeftOfOne(u, |config[u].sections|, Olds(pairings[u].All()), LeftIn(config, v, left, u));
    }
  }

  lemma ViewOfItsKey(config: Config, v: nat)
    requires !PathsShare(config) && v < |config| && config[v].View?
    ensures ViewOf(config, Key(config, v), |config|) == Some(v)
  {
    var w := ViewOf(config, Key(config, v), |config|);
    if w.Some? {
      OneViewAKey(config, v, w.value);
    }
  }

  lemma GivenUpWhole(slots: seq<Slot>, removed: seq<nat>, config: Config, v: nat, left: nat)
    requires Drops(config, v, left) && slots == Flat(Blocks(config, Keys(config)))
    requires forall i: nat :: i in removed <==> i in AtGap(slots, GapAt(config, v, left))
    ensures CountAt(slots, removed, GapAt(config, v, left)) == |CardsOf(config[v].sections[left])|
  {
    GapHolds(config, v, left);
    CountIsGap(slots, removed, GapAt(config, v, left));
  }

  lemma CountIsGap(slots: seq<Slot>, removed: seq<nat>, gap: Place)
    requires forall i: nat :: i in removed <==> i in AtGap(slots, gap)
    ensures CountAt(slots, removed, gap) == |AtGap(slots, gap)|
  {
    assert (set i: nat | i < |slots| && i in removed && slots[i].place == gap) == AtGap(slots, gap);
  }

  /**
   * A section that went is proven to have gone whole exactly where it held a card;
   * and it is the last one like it that is said to have gone.
   */
  lemma ProvenWholeExactly(c: Comparison, config: Config, v: nat, s: nat, key: ViewKey)
    requires Drops(config, v, s) && IsComparison(c, config, Closed(config, v, s)) && Readable(c, config)
    ensures WentWhole(c, config, Closed(config, v, s), key) ==
      if key == Key(config, v) && CardsOf(config[v].sections[s]) != [] then Some((v, Twin(config, v, s))) else None
  {
    ComparedAround(c, config, v, s);
    GivenUpWhole(c.before, c.cards.removed, config, v, Twin(config, v, s));
    WholeByCount(c, config, v, s, Twin(config, v, s), key);
  }

  /** One section left over, all its cards given up on, one section fewer. */
  lemma WholeByCount(c: Comparison, config: Config, v: nat, s: nat, left: nat, key: ViewKey)
    requires Drops(config, v, s) && left < |config[v].sections|
    requires PairedAround(c.pairings, config, Closed(config, v, s), v, left)
    requires CountAt(c.before, c.cards.removed, GapAt(config, v, left)) == |CardsOf(config[v].sections[left])|
    ensures WentWhole(c, config, Closed(config, v, s), key) ==
      if key == Key(config, v) && CardsOf(config[v].sections[left]) != [] then Some((v, left)) else None
  {
    OneSectionLeft(config, Closed(config, v, s), c.pairings, v, left, key);
    assert forall u: nat :: u in c.pairings ==> u < |config| && config[u].View?;
    if key == Key(config, v) {
      WholeHere(c, config, v, s, left);
    } else {
      NoneLeftNoneWhole(c, config, Closed(config, v, s), key);
    }
  }

  lemma WholeHere(c: Comparison, config: Config, v: nat, s: nat, left: nat)
    requires Drops(config, v, s) && left < |config[v].sections|
    requires forall u: nat :: u in c.pairings ==> u < |config| && config[u].View?
    requires LeftSections(config, c.pairings, Key(config, v), |config|) == [(v, left)]
    requires CountAt(c.before, c.cards.removed, GapAt(config, v, left)) == |CardsOf(config[v].sections[left])|
    ensures WentWhole(c, config, Closed(config, v, s), Key(config, v)) ==
      if CardsOf(config[v].sections[left]) != [] then Some((v, left)) else None
  {
    var found := WholesOfOne(c, config, Key(config, v), v, left);
    OneSectionFewer(config, v, s);
    WentWholeBy(c, config, Closed(config, v, s), Key(config, v), v, v, [(v, left)], found);
  }

  lemma OneSectionFewer(config: Config, v: nat, s: nat)
    requires Drops(config, v, s)
    ensures var now := Closed(config, v, s);
      && |now| == |config| && now[v].View? && |config[v].sections| == |now[v].sections| + 1
      && ViewOf(config, Key(config, v), |config|) == Some(v) && ViewOf(now, Key(config, v), |now|) == Some(v)
  {
    ClosedIsTheSame(config, v, s);
    ViewOfItsKey(config, v);
    ViewOfItsKey(Closed(config, v, s), v);
  }

  lemma WentWholeBy(c: Comparison, config: Config, now: Config, key: ViewKey, v: nat, w: nat,
                    left: seq<(nat, nat)>, found: seq<(nat, nat)>)
    requires forall u: nat :: u in c.pairings ==> u < |config| && config[u].View?
    requires v < |config| && config[v].View? && w < |now| && now[w].View?
    requires ViewOf(config, key, |config|) == Some(v) && ViewOf(now, key, |now|) == Some(w)
    requires |config[v].sections| == |now[w].sections| + 1
    requires LeftSections(config, c.pairings, key, |config|) == left
    requires Wholes(c, config, key, left) == found
    ensures WentWhole(c, config, now, key) == if |found| == 1 then Some(found[0]) else None
  {
  }

  lemma WholesOfOne(c: Comparison, config: Config, key: ViewKey, v: nat, s: nat) returns (found: seq<(nat, nat)>)
    requires v < |config| && config[v].View? && s < |config[v].sections|
    requires CountAt(c.before, c.cards.removed, Place(key, SectionCards(s))) == |CardsOf(config[v].sections[s])|
    ensures Wholes(c, config, key, [(v, s)]) == found
    ensures |found| == if CardsOf(config[v].sections[s]) != [] then 1 else 0
    ensures |found| == 1 ==> found[0] == (v, s)
  {
    found := if CardsOf(config[v].sections[s]) != [] then [(v, s)] else [];
    assert [(v, s)][1..] == [];
    assert Wholes(c, config, key, []) == [];
  }

  // -- the item ----------------------------------------------------------

  function ItemOf(config: Config, v: nat, s: nat): Item
    requires v < |config| && config[v].View? && s < |config[v].sections|
  {
    SectionItem(config[v].path, Ordinal(config, v), s, config[v].sections[s], Neighbours(config[v].sections, s))
  }

  lemma NothingLoose(c: Comparison, config: Config, v: nat, s: nat, u: nat)
    requires Drops(config, v, s) && IsComparison(c, config, Closed(config, v, s)) && Readable(c, config)
    ensures Gone(c, config, Closed(config, v, s), u) == {}
  {
    var gap := GapAt(config, v, Twin(config, v, s));
    ComparedAround(c, config, v, s);
    GapHolds(config, v, Twin(config, v, s));
    forall i: nat ensures i !in Gone(c, config, Closed(config, v, s), u) {
      if i in AtGap(c.before, gap) {
        assert |AtGap(c.before, gap)| > 0;
        ProvenWholeExactly(c, config, v, s, c.before[i].place.view);
      }
    }
  }

  lemma {:induction false} NoCardItems(view: View, home: nat, slots: seq<Slot>, left: set<Spot>, departed: set<Spot>,
                                       upto: nat)
    requires view.View? && upto <= |slots|
    ensures CardItems(view, home, slots, {}, left, departed, upto) == []
  {
    if upto > 0 {
      NoCardItems(view, home, slots, left, departed, upto - 1);
    }
  }

  lemma ItemsOfOneView(c: Comparison, config: Config, v: nat, s: nat, u: nat)
    requires Drops(config, v, s) && IsComparison(c, config, Closed(config, v, s)) && Readable(c, config)
    requires u < |config|
    ensures ItemsOf(c, config, Closed(config, v, s), u) ==
      if u == v && CardsOf(config[v].sections[s]) != [] then [ItemOf(config, v, Twin(config, v, s))] else []
  {
    var now := Closed(config, v, s);
    if config[u].View? {
      ClosedIsTheSame(config, v, s);
      assert Key(config, u) in Keys(config);
      NothingLoose(c, config, v, s, u);
      NoCardItems(config[u], Ordinal(config, u), c.before, Left(c, config, now, u), Away(c, config, u, true),
                  |c.before|);
      ProvenWholeExactly(c, config, v, s, Key(config, u));
      if u != v {
        KeysApart(config, if u < v then u else v, if u < v then v else u);
      }
    }
  }

  lemma {:induction false} ConcatOfOne<T>(lists: seq<seq<T>>, k: nat)
    requires k < |lists| && forall j :: 0 <= j < |lists| && j != k ==> lists[j] == []
    ensures Concat(lists) == lists[k]
  {
    if k == 0 {
      ConcatOfNone(lists[1..]);
    } else {
      ConcatOfOne(lists[1..], k - 1);
    }
  }

  lemma {:induction false} ConcatOfNone<T>(lists: seq<seq<T>>)
    requires forall j :: 0 <= j < |lists| ==> lists[j] == []
    ensures Concat(lists) == []
  {
    if lists != [] {
      ConcatOfNone(lists[1..]);
    }
  }

  /** A section that went with its cards is offered alone, as the last one like it; an empty one is not offered. */
  lemma OfferedAlone(c: Comparison, config: Config, v: nat, s: nat)
    requires Drops(config, v, s) && IsComparison(c, config, Closed(config, v, s)) && Readable(c, config)
    ensures Items(c, config, Closed(config, v, s)) ==
      if CardsOf(config[v].sections[s]) != [] then [ItemOf(config, v, Twin(config, v, s))] else []
  {
    var lists := ItemsByView(c, config, Closed(config, v, s));
    forall u: nat | u < |config|
      ensures lists[u] ==
        if u == v && CardsOf(config[v].sections[s]) != [] then [ItemOf(config, v, Twin(config, v, s))] else []
    {
      ItemsOfOneView(c, config, v, s, u);
    }
    ConcatOfOne(lists, v);
  }

  // -- back in the gap ---------------------------------------------------

  /** The sections from the one that went up to the last like it are all like it. */
  predicate AlikeRun(sections: seq<Section>, s: nat, last: nat)
    requires last < |sections|
  {
    forall k :: s < k < last ==> AlikeSection(sections[k], sections[s])
  }

  predicate SameRun(sections: seq<Section>, s: nat, last: nat)
    requires last < |sections|
  {
    forall k :: s < k < last ==> sections[k] == sections[s]
  }

  lemma {:induction false} AlikeAlong(sections: seq<Section>, s: nat, last: nat, k: nat)
    requires s < k <= last < |sections| && AlikeSections(Neighbours(sections, s), Neighbours(sections, last))
    ensures AlikeSection(sections[k], sections[s])
  {
    NeighbourAt(sections, s, k - 1);
    NeighbourAt(sections, last, k - 1);
    if s < k - 1 {
      AlikeAlong(sections, s, last, k - 1);
    }
  }

  /** Without the one or without the other the row compares equal exactly where the sections between are like them. */
  lemma StandsBesideExactly(sections: seq<Section>, s: nat, last: nat)
    requires s <= last < |sections| && sections[last] == sections[s]
    ensures AlikeSections(Neighbours(sections, s), Neighbours(sections, last)) <==> AlikeRun(sections, s, last)
  {
    if AlikeSections(Neighbours(sections, s), Neighbours(sections, last)) {
      forall k: nat | s < k < last ensures AlikeSection(sections[k], sections[s]) {
        AlikeAlong(sections, s, last, k);
      }
    } else {
      var k: nat :| k < |sections| - 1 && !AlikeSection(Neighbours(sections, s)[k], Neighbours(sections, last)[k]);
      NeighbourAt(sections, s, k);
      NeighbourAt(sections, last, k);
      assert s <= k < last;
      assert !AlikeSection(sections[k + 1], sections[s]) || !AlikeSection(sections[k], sections[s]);
    }
  }

  lemma {:induction false} SameAlong(sections: seq<Section>, s: nat, last: nat, k: nat)
    requires s < k <= last < |sections| && InsertAt(Neighbours(sections, s), last, sections[last]) == sections
    requires sections[last] == sections[s]
    ensures sections[k] == sections[s]
  {
    if s < k - 1 {
      SameAlong(sections, s, last, k - 1);
    }
    NeighbourAt(sections, s, k - 1);
    assert InsertAt(Neighbours(sections, s), last, sections[last])[k - 1] == Neighbours(sections, s)[k - 1];
  }

  /**
   * Put in where the last one like it stood, a section makes the row what it was exactly
   * where all between are the same.
   */
  lemma BackInTheGapExactly(sections: seq<Section>, s: nat, last: nat)
    requires s <= last < |sections| && sections[last] == sections[s]
    ensures InsertAt(Neighbours(sections, s), last, sections[last]) == sections <==> SameRun(sections, s, last)
  {
    var next := InsertAt(Neighbours(sections, s), last, sections[last]);
    if next == sections {
      forall k: nat | s < k < last ensures sections[k] == sections[s] {
        SameAlong(sections, s, last, k);
      }
    } else {
      assert |next| == |sections|;
      var k: nat :| k < |sections| && next[k] != sections[k];
      assert s <= k < last && next[k] == sections[k + 1];
    }
  }

  /**
   * Round trip of a whole section. The one item offered is refused exactly where a
   * section between the one that went and the last like it is not like it; and put
   * back it makes the dashboard what it was exactly where those between are the same.
   */
  lemma WholeSectionRoundTrips(c: Comparison, config: Config, v: nat, s: nat, item: Item)
    requires Drops(config, v, s) && FindView(config, config[v].path, Ordinal(config, v)) == Some(v)
    requires IsComparison(c, config, Closed(config, v, s)) && Readable(c, config)
    requires item in Items(c, config, Closed(config, v, s))
    ensures CanPutBack(Closed(config, v, s), item) <==> AlikeRun(config[v].sections, s, Twin(config, v, s))
    ensures forall next :: IsPutBack(Closed(config, v, s), item, next) ==>
      (next == config <==> SameRun(config[v].sections, s, Twin(config, v, s)))
  {
    OfferedAlone(c, config, v, s);
    assert item == ItemOf(config, v, Twin(config, v, s));
    TakenBackExactly(config, v, s);
  }

  lemma TakenBackExactly(config: Config, v: nat, s: nat)
    requires Drops(config, v, s) && FindView(config, config[v].path, Ordinal(config, v)) == Some(v)
    ensures var now, item := Closed(config, v, s), ItemOf(config, v, Twin(config, v, s));
      && (CanPutBack(now, item) <==> AlikeRun(config[v].sections, s, Twin(config, v, s)))
      && forall next :: IsPutBack(now, item, next) ==>
        (next == config <==> SameRun(config[v].sections, s, Twin(config, v, s)))
  {
    var now, last, item := Closed(config, v, s), Twin(config, v, s), ItemOf(config, v, Twin(config, v, s));
    ClosedIsTheSame(config, v, s);
    GapIsFound(config, v, s);
    StandsBesideExactly(config[v].sections, s, last);
    BackInTheGapExactly(config[v].sections, s, last);
    forall next | IsPutBack(now, item, next)
      ensures next == config <==> InsertAt(now[v].sections, last, config[v].sections[last]) == config[v].sections
    {
      WrittenBack(config, v, s, next);
    }
  }

  lemma GapIsFound(config: Config, v: nat, s: nat)
    requires Drops(config, v, s) && FindView(config, config[v].path, Ordinal(config, v)) == Some(v)
    ensures FindView(Closed(config, v, s), config[v].path, Ordinal(config, v)) == Some(v)
  {
    ClosedIsTheSame(config, v, s);
  }

  lemma WrittenBack(config: Config, v: nat, s: nat, next: Config)
    requires Drops(config, v, s)
    requires var now := Closed(config, v, s); exists row :: next == now[v := now[v].(sections := row)]
    ensures next == config <==> next[v].sections == config[v].sections
  {
    var now := Closed(config, v, s);
    if next[v].sections == config[v].sections {
      assert next[v] == config[v];
    }
  }

  predicate SectionsDiffer(sections: seq<Section>) {
    forall a, b :: 0 <= a < b < |sections| ==> sections[a] != sections[b]
  }

  /** In a view whose sections all differ a section that held a card comes back, and the dashboard is what it was. */
  lemma DifferentSectionsRoundTrip(c: Comparison, config: Config, v: nat, s: nat)
    requires Drops(config, v, s) && FindView(config, config[v].path, Ordinal(config, v)) == Some(v)
    requires SectionsDiffer(config[v].sections) && CardsOf(config[v].sections[s]) != []
    requires IsComparison(c, config, Closed(config, v, s)) && Readable(c, config)
    ensures Items(c, config, Closed(config, v, s)) == [ItemOf(config, v, s)]
    ensures CanPutBack(Closed(config, v, s), ItemOf(config, v, s))
    ensures forall next :: IsPutBack(Closed(config, v, s), ItemOf(config, v, s), next) ==> next == config
  {
    OfferedAlone(c, config, v, s);
    assert Twin(config, v, s) == s;
    WholeSectionRoundTrips(c, config, v, s, ItemOf(config, v, s));
  }

  lemma LastOfThree(one: Section, other: Section)
    requires !AlikeSection(other, one)
    ensures LastLike([one, other, one], 0, 3) == 2 && !AlikeRun([one, other, one], 0, 2)
  {
    assert [one, other, one][1] == other;
  }

  /** Of two like sections with another between them, the first one deleted is offered and refused. */
  lemma FirstOfTwinsIsRefused(c: Comparison, config: Config, v: nat, one: Section, other: Section)
    requires v < |config| && config[v].View? && !PathsShare(config) && config[v].sections == [one, other, one]
    requires FindView(config, config[v].path, Ordinal(config, v)) == Some(v)
    requires CardsOf(one) != [] && !AlikeSection(other, one)
    requires IsComparison(c, config, Closed(config, v, 0)) && Readable(c, config)
    ensures Items(c, config, Closed(config, v, 0)) == [ItemOf(config, v, 2)]
    ensures !CanPutBack(Closed(config, v, 0), ItemOf(config, v, 2))
  {
    OfferedAlone(c, config, v, 0);
    LastOfThree(one, other);
    WholeSectionRoundTrips(c, config, v, 0, ItemOf(config, v, 2));
  }

  /**
   * Whatever happened to a dashboard, and whatever stands twice: a section offered is
   * refused, or its view gets back the very row of sections it had.
   */
  lemma SectionBackOrRefused(c: Comparison, config: Config, now: Config, item: Item, next: Config) returns (u: nat)
    requires !PathsShare(config) && Readable(c, config) && item in Items(c, config, now) && item.SectionItem?
    requires IsPutBack(now, item, next)
    ensures u < |config| && config[u].View? && item.path == config[u].path && item.home == Ordinal(config, u)
    ensures var w := ViewFor(now, item).value;
      |next| == |now| && next[w].View? && AlikeSections(next[w].sections, config[u].sections)
  {
    u := ItemsAreOf(c, config, now, item);
    var s := SectionIsOfItsView(c, config, now, u, item);
    var w := ViewFor(now, item).value;
    AlikeInTheGap(now[w].sections, config[u].sections, s);
  }

  lemma SectionIsOfItsView(c: Comparison, config: Config, now: Config, u: nat, item: Item) returns (s: nat)
    requires !PathsShare(config) && Readable(c, config) && u < |config| && config[u].View?
    requires item in ViewItems(c, config, now, u) && item.SectionItem?
    ensures s < |config[u].sections| && item == ItemOf(config, u, s)
  {
    SectionItemsOfView(c, config, now, u, item);
    var whole := WentWhole(c, config, now, Key(config, u)).value;
    WholeIsOfItsKey(c, config, now, Key(config, u));
    if whole.0 != u {
      KeysApart(config, if u < whole.0 then u else whole.0, if u < whole.0 then whole.0 else u);
    }
    s := whole.1;
  }

  lemma WholeIsOfItsKey(c: Comparison, config: Config, now: Config, key: ViewKey)
    requires forall u: nat :: u in c.pairings ==> u < |config| && config[u].View?
    requires WentWhole(c, config, now, key).Some?
    ensures Key(config, WentWhole(c, config, now, key).value.0) == key
  {
    var left := LeftSections(config, c.pairings, key, |config|);
    WholesAreLeft(c, config, key, left);
    assert WentWhole(c, config, now, key).value in Wholes(c, config, key, left);
    LeftIsOfTheKey(config, c.pairings, key, |config|, WentWhole(c, config, now, key).value);
  }

  lemma {:induction false} LeftIsOfTheKey(config: Config, pairings: Pairings, key: ViewKey, upto: nat, at: (nat, nat))
    requires upto <= |config| && forall u: nat :: u in pairings ==> u < |config| && config[u].View?
    requires at in LeftSections(config, pairings, key, upto)
    ensures at.0 in pairings && Key(config, at.0) == key
  {
    InOneOf(LeftSections(config, pairings, key, upto - 1), LeftSectionsOf(config, pairings, key, upto - 1), at);
    if at in LeftSections(config, pairings, key, upto - 1) {
      LeftIsOfTheKey(config, pairings, key, upto - 1, at);
    } else {
      LeftHasTheKey(config, pairings, key, upto - 1, at);
    }
  }

  lemma InOneOf<T>(a: seq<T>, b: seq<T>, x: T)
    requires x in a + b
    ensures x in a || x in b
  {
  }

  lemma LeftHasTheKey(config: Config, pairings: Pairings, key: ViewKey, u: nat, at: (nat, nat))
    requires u < |config| && (u in pairings ==> config[u].View?)
    requires at in LeftSectionsOf(config, pairings, key, u)
    ensures at.0 in pairings && at.0 == u && Key(config, u) == key
  {
    var k :| 0 <= k < |LeftSectionsOf(config, pairings, key, u)| && LeftSectionsOf(config, pairings, key, u)[k] == at;
  }

  lemma {:induction false} WholesAreLeft(c: Comparison, config: Config, key: ViewKey, left: seq<(nat, nat)>)
    requires forall k :: 0 <= k < |left| ==>
      left[k].0 < |config| && config[left[k].0].View? && left[k].1 < |config[left[k].0].sections|
    ensures forall at :: at in Wholes(c, config, key, left) ==> at in left
  {
    if left != [] {
      WholesAreLeft(c, config, key, left[1..]);
    }
  }

  lemma SectionItemsOfView(c: Comparison, config: Config, now: Config, u: nat, item: Item)
    requires Readable(c, config) && u < |config| && config[u].View? && item in ViewItems(c, config, now, u)
    requires item.SectionItem?
    ensures item in SectionItems(c, config, now, u)
  {
    if Key(config, u) in Keys(now) {
      NoSectionAmongCards(config[u], Ordinal(config, u), c.before, Gone(c, config, now, u),
                          Left(c, config, now, u), Away(c, config, u, true), |c.before|, item);
    }
  }

  lemma {:induction false} NoSectionAmongCards(view: View, home: nat, slots: seq<Slot>, gone: set<nat>, left: set<Spot>,
                                               departed: set<Spot>, upto: nat, item: Item)
    requires view.View? && upto <= |slots| && item.SectionItem?
    ensures item !in CardItems(view, home, slots, gone, left, departed, upto)
  {
    if upto > 0 {
      NoSectionAmongCards(view, home, slots, gone, left, departed, upto - 1, item);
    }
  }

  lemma AlikeInTheGap(now: seq<Section>, sections: seq<Section>, s: nat)
    requires s < |sections| && AlikeSections(now, Neighbours(sections, s))
    ensures AlikeSections(InsertAt(now, s, sections[s]), sections)
  {
    forall k | 0 <= k < |sections| ensures AlikeSection(InsertAt(now, s, sections[s])[k], sections[k]) {
      if k != s {
        var m := if k < s then k else k - 1;
        assert InsertAt(now, s, sections[s])[k] == now[m] && Neighbours(sections, s)[m] == sections[k];
      }
    }
  }

  // -- parked ------------------------------------------------------------

  /** A view with as many sections as it had is not offered one back. */
  lemma OldCountOffersNone(c: Comparison, config: Config, later: Config, u: nat)
    requires Readable(c, config) && u < |config| && config[u].View?
    requires var key := Key(config, u); var one, other := ViewOf(config, key, |config|), ViewOf(later, key, |later|);
      one.Some? && other.Some? ==> |config[one.value].sections| == |later[other.value].sections|
    ensures SectionItems(c, config, later, u) == []
  {
  }

  /** A view with a path is found by it, in whatever dashboard, where its key says. */
  lemma FoundByItsKey(config: Config, u: nat, now: Config)
    requires u < |config| && config[u].View? && Key(config, u).ByPath? && !PathsShare(now)
    ensures FindView(now, config[u].path, Ordinal(config, u)) == ViewOf(now, Key(config, u), |now|)
  {
    var found, meant := FindView(now, config[u].path, Ordinal(config, u)), ViewOf(now, Key(config, u), |now|);
    if found.Some? && meant.Some? {
      OneViewAKey(now, found.value, meant.value);
    }
  }

  /**
   * A section that was offered and parked is offered no more. A view whose path is
   * the empty text is looked for by that text and compared by its position; the two
   * have to mean one view.
   */
  lemma ParkedIsOfferedNoMore(c: Comparison, config: Config, now: Config, u: nat, item: Item, next: Config,
                              again: Comparison)
    requires Readable(c, config) && u < |config| && config[u].View? && !PathsShare(config)
    requires item in SectionItems(c, config, now, u) && Parks(now, item) && IsParked(now, item, next)
    requires item.path == Some("") ==> ViewFor(now, item) == Some(u)
    requires Readable(again, config)
    ensures SectionItems(again, config, next, u) == []
  {
    OneFewer(c, config, now, u, item);
    var w := ViewFor(now, item).value;
    if item.path != Some("") {
      FoundByItsKey(config, u, now);
    } else {
      PositionIsItself(now, u);
    }
    SameViewOf(now, next, w, Key(config, u), |now|);
    OldCountOffersNone(again, config, next, u);
  }

  lemma PositionIsItself(now: Config, u: nat)
    requires u < |now| && now[u].View? && now[u].path == Some("")
    ensures ViewOf(now, ByPosition(u), |now|) == Some(u)
  {
    assert Key(now, u) == ByPosition(u);
  }

  /** Where a section is offered, the view has one section fewer than it had. */
  lemma OneFewer(c: Comparison, config: Config, now: Config, u: nat, item: Item)
    requires Readable(c, config) && u < |config| && config[u].View? && item in SectionItems(c, config, now, u)
    ensures var key := Key(config, u); var one, other := ViewOf(config, key, |config|), ViewOf(now, key, |now|);
      && item.SectionItem? && item.path == config[u].path && item.home == Ordinal(config, u)
      && one.Some? && other.Some? && |config[one.value].sections| == |now[other.value].sections| + 1
  {
  }

  lemma {:induction false} SameViewOf(now: Config, next: Config, w: nat, key: ViewKey, upto: nat)
    requires |next| == |now| && upto <= |now| && w < |now| && now[w].View? && next[w].View?
    requires next[w].path == now[w].path
    requires forall k: nat :: k < |now| && k != w ==> next[k] == now[k]
    ensures ViewOf(next, key, upto) == ViewOf(now, key, upto)
  {
    if upto > 0 {
      SameViewOf(now, next, w, key, upto - 1);
      assert next[upto - 1].View? ==> Key(next, upto - 1) == Key(now, upto - 1);
    }
  }
}
