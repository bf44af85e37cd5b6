/**
 * Pairing the cards of two states of one dashboard: identical in place,
 * identical anywhere, edited in place, and what is left.
 */
module CardMatching {
  import opened Wrappers
  import opened Claims

  datatype ViewKey = ByPath(path: string) | ByPosition(position: nat)

  datatype Location = Cards | Badges | SectionCards(section: nat)

  /** One card list of the whole dashboard. */
  datatype Place = Place(view: ViewKey, location: Location)

  /** A card as Python's `==` compares it: field by field, or as one value. */
  datatype Body = Fields(fields: map<string, string>) | Other(text: string)

  datatype WeakKey = WeakKey(kind: string, field: string, value: string)

  /** Kind, kind of device, and the fingerprint of everything but the entity of a named entity card. */
  datatype Sibling = Sibling(kind: string, device: string, rest: string)

  /**
   * A card: its fingerprint, its body, and what else is read off it. Cards are one
   * card exactly when all of it agrees; `==` in the source looks at the body alone,
   * which does not tell 1 from True.
   */
  datatype Card = Card(fingerprint: string, body: Body, weak: Option<WeakKey>, sibling: Option<Sibling>)

  /** Python's `==`. */
  predicate Alike(one: Card, other: Card) {
    one.body == other.body
  }

  datatype Slot = Slot(place: Place, index: nat, card: Card)

  /** Where a paired section went, by view and old index. */
  type Translation = map<(ViewKey, nat), nat>

  /** Where an old slot's list is in the new state, its section followed. */
  function Translated(slot: Slot, translate: Translation): Place {
    match slot.place.location
    case SectionCards(at) =>
      if (slot.place.view, at) in translate then
        Place(slot.place.view, SectionCards(translate[(slot.place.view, at)]))
      else slot.place
    case _ => slot.place
  }

  predicate Unpaired(slot: Slot, translate: Translation) {
    slot.place.location.SectionCards? && (slot.place.view, slot.place.location.section) !in translate
  }

  const TEXT_FIELDS: set<string> := {"title", "name", "heading"}

  /** The kind of a card that is named by its own text. */
  function TextKind(card: Card): Option<string> {
    if card.weak.Some? && card.weak.value.field in TEXT_FIELDS then Some(card.weak.value.kind) else None
  }

  /** How many of both cards' fields agree, as a share of all of them. */
  function Similarity(one: Card, other: Card): real {
    if Alike(one, other) then 1.0
    else if one.body.Other? || other.body.Other? then 0.0
    else
      var all := one.body.fields.Keys + other.body.fields.Keys;
      if all == {} then 1.0
      else
        var agree := set f | f in all && Field(one, f) == Field(other, f);
        (|agree| as real) / (|all| as real)
  }

  function Field(card: Card, name: string): Option<string>
    requires card.body.Fields?
  {
    if name in card.body.fields then Some(card.body.fields[name]) else None
  }

  // -- the keys of the passes --------------------------------------------

  function OldPlaceKeys(slots: seq<Slot>, translate: Translation): seq<(Place, Card)> {
    seq(|slots|, i requires 0 <= i < |slots| => (Translated(slots[i], translate), slots[i].card))
  }

  function NewPlaceKeys(slots: seq<Slot>): seq<(Place, Card)> {
    seq(|slots|, i requires 0 <= i < |slots| => (slots[i].place, slots[i].card))
  }

  function Marks(slots: seq<Slot>): seq<Card> {
    seq(|slots|, i requires 0 <= i < |slots| => slots[i].card)
  }

  /** The positions whose slot is, or is not, in a section nothing paired; in order. */
  function Positions(slots: seq<Slot>, translate: Translation, unpaired: bool, from: nat): (found: seq<nat>)
    requires from <= |slots|
    ensures forall k :: 0 <= k < |found| ==>
      from <= found[k] < |slots| && Unpaired(slots[found[k]], translate) == unpaired
    ensures forall a, b :: 0 <= a < b < |found| ==> found[a] < found[b]
    ensures forall i :: from <= i < |slots| && Unpaired(slots[i], translate) == unpaired ==> i in found
    decreases |slots| - from
  {
    if from == |slots| then []
    else
      var later := Positions(slots, translate, unpaired, from + 1);
      if Unpaired(slots[from], translate) == unpaired then [from] + later else later
  }

  /** Cards of unpaired sections claim last: their index may name another section by now. */
  function Order(slots: seq<Slot>, translate: Translation): (order: seq<nat>)
    ensures Within(order, |slots|)
    ensures forall i: nat :: i < |slots| ==> i in order
  {
    Positions(slots, translate, false, 0) + Positions(slots, translate, true, 0)
  }

  // -- passes 1 and 2 ----------------------------------------------------

  /** The positions below `n` that hold a key, in order. */
  predicate IsBucket<K(==)>(waiting: seq<nat>, keys: seq<K>, n: nat, key: K)
    requires n <= |keys|
  {
    && (forall k :: 0 <= k < |waiting| ==> waiting[k] < n && keys[waiting[k]] == key)
    && (forall a, b :: 0 <= a < b < |waiting| ==> waiting[a] < waiting[b])
    && (forall i: nat :: i < n && keys[i] == key ==> i in waiting)
  }

  lemma BucketGrows<K>(waiting: seq<nat>, keys: seq<K>, n: nat, key: K)
    requires n < |keys| && IsBucket(waiting, keys, n, key)
    ensures IsBucket(if keys[n] == key then waiting + [n] else waiting, keys, n + 1, key)
  {
  }

  function Get<K>(buckets: map<K, seq<nat>>, key: K): seq<nat> {
    if key in buckets then buckets[key] else []
  }

  /** `setdefault(key, []).append(j)`, once over. */
  method Buckets<K(==, !new)>(keys: seq<K>) returns (buckets: map<K, seq<nat>>)
    ensures forall key :: IsBucket(Get(buckets, key), keys, |keys|, key)
  {
    buckets := map[];
    for j := 0 to |keys|
      invariant forall key :: IsBucket(Get(buckets, key), keys, j, key)
    {
      BucketsGrow(buckets, keys, j);
      buckets := Grown(buckets, keys[j], j);
    }
  }

  function Grown<K>(buckets: map<K, seq<nat>>, key: K, j: nat): map<K, seq<nat>> {
    buckets[key := Get(buckets, key) + [j]]
  }

  lemma BucketsGrow<K>(buckets: map<K, seq<nat>>, keys: seq<K>, j: nat)
    requires j < |keys| && forall key :: IsBucket(Get(buckets, key), keys, j, key)
    ensures forall key :: IsBucket(Get(Grown(buckets, keys[j], j), key), keys, j + 1, key)
  {
    var longer := Grown(buckets, keys[j], j);
    forall key ensures IsBucket(Get(longer, key), keys, j + 1, key) {
      BucketGrows(Get(buckets, key), keys, j, key);
      assert Get(longer, key) == if keys[j] == key then Get(buckets, key) + [j] else Get(buckets, key);
    }
  }

  method FirstWaiting<K(==)>(waiting: seq<nat>, taken: set<nat>, ghost keys: seq<K>, ghost key: K)
    returns (j: Option<nat>)
    requires IsBucket(waiting, keys, |keys|, key)
    ensures j == FirstFree(keys, key, taken, 0)
  {
    for k := 0 to |waiting|
      invariant forall a :: 0 <= a < k ==> waiting[a] in taken
    {
      if waiting[k] !in taken {
        FirstIsFirst(waiting, taken, keys, key, k);
        return Some(waiting[k]);
      }
    }
    return None;
  }

  lemma FirstIsFirst<K>(waiting: seq<nat>, taken: set<nat>, keys: seq<K>, key: K, k: nat)
    requires IsBucket(waiting, keys, |keys|, key) && k < |waiting| && waiting[k] !in taken
    requires forall a :: 0 <= a < k ==> waiting[a] in taken
    ensures FirstFree(keys, key, taken, 0) == Some(waiting[k])
  {
    var j := FirstFree(keys, key, taken, 0);
    if j.Some? {
      assert j.value in waiting;
    }
  }

  /** One exact pass: every old slot, in order, takes the first free new one of its key. */
  method Pass<K(==, !new)>(order: seq<nat>, oldKeys: seq<K>, newKeys: seq<K>, takenOld: set<nat>, takenNew: set<nat>)
    returns (pairs: Pairs)
    requires Within(order, |oldKeys|)
    ensures pairs == Claimed(order, oldKeys, newKeys, takenOld, takenNew)
  {
    var buckets := Buckets(newKeys);
    var tOld, tNew := takenOld, takenNew;
    pairs := [];
    for k := 0 to |order|
      invariant pairs + Claimed(order[k..], oldKeys, newKeys, tOld, tNew) ==
        Claimed(order, oldKeys, newKeys, takenOld, takenNew)
    {
      var i := order[k];
      assert order[k..][1..] == order[k + 1..];
      if i in tOld {
        continue;
      }
      var j := FirstWaiting(Get(buckets, oldKeys[i]), tNew, newKeys, oldKeys[i]);
      if j.Some? {
        assert pairs + ([(i, j.value)] + Claimed(order[k + 1..], oldKeys, newKeys, tOld + {i}, tNew + {j.value})) ==
          (pairs + [(i, j.value)]) + Claimed(order[k + 1..], oldKeys, newKeys, tOld + {i}, tNew + {j.value});
        tOld, tNew, pairs := tOld + {i}, tNew + {j.value}, pairs + [(i, j.value)];
      }
    }
  }

  // -- pass 3: the same weak key in the same place, best first -----------

  datatype Candidate = Candidate(score: real, i: nat, j: nat)

  /** Best first; ties by the order the cards are written in. */
  predicate Before(a: Candidate, b: Candidate) {
    a.score > b.score || (a.score == b.score && (a.i < b.i || (a.i == b.i && a.j <= b.j)))
  }

  /** No two candidates rank alike: of one score the earlier old card is first, and of that the earlier new one. */
  lemma BeforeExactly(a: Candidate, b: Candidate)
    ensures Before(a, b) || Before(b, a)
    ensures Before(a, b) && Before(b, a) ==> a == b
    ensures a.score > b.score ==> Before(a, b)
    ensures a.score == b.score && a.i < b.i ==> Before(a, b)
    ensures a.score == b.score && a.i == b.i && a.j < b.j ==> Before(a, b)
  {
  }

  predicate IsCandidate(c: Candidate, before: seq<Slot>, after: seq<Slot>, translate: Translation,
                        takenOld: set<nat>, takenNew: set<nat>)
  {
    && c.i < |before| && c.j < |after| && c.i !in takenOld && c.j !in takenNew
    && before[c.i].card.weak.Some? && after[c.j].card.weak == before[c.i].card.weak
    && after[c.j].place == Translated(before[c.i], translate)
    && c.score == Similarity(before[c.i].card, after[c.j].card)
  }

  method Candidates(before: seq<Slot>, after: seq<Slot>, translate: Translation, takenOld: set<nat>, takenNew: set<nat>)
    returns (found: seq<Candidate>)
    ensures forall c :: c in found <==> IsCandidate(c, before, after, translate, takenOld, takenNew)
  {
    found := [];
    for i := 0 to |before|
      invariant forall c :: c in found <==> IsCandidate(c, before, after, translate, takenOld, takenNew) && c.i < i
    {
      if i in takenOld || before[i].card.weak.None? {
        continue;
      }
      for j := 0 to |after|
        invariant forall c :: (c in found <==>
          IsCandidate(c, before, after, translate, takenOld, takenNew) && (c.i < i || (c.i == i && c.j < j)))
      {
        if j in takenNew || after[j].place != Translated(before[i], translate) {
          continue;
        }
        if after[j].card.weak == before[i].card.weak {
          found := found + [Candidate(Similarity(before[i].card, after[j].card), i, j)];
        }
      }
    }
  }

  predicate Ranked(candidates: seq<Candidate>) {
    forall a, b :: 0 <= a < b < |candidates| ==> Before(candidates[a], candidates[b])
  }

  function BestFirst(candidates: seq<Candidate>): (ranked: seq<Candidate>)
    ensures Ranked(ranked)
    ensures forall c :: c in ranked <==> c in candidates
  {
    if candidates == [] then []
    else
      assert candidates == [candidates[0]] + candidates[1..];
      Placed(candidates[0], BestFirst(candidates[1..]))
  }

  function Placed(c: Candidate, ranked: seq<Candidate>): (longer: seq<Candidate>)
    requires Ranked(ranked)
    ensures Ranked(longer)
    ensures forall x :: x in longer <==> x == c || x in ranked
  {
    if ranked == [] then [c]
    else if Before(c, ranked[0]) then
      FirstRanked(c, ranked);
      [c] + ranked
    else
      var rest := Placed(c, ranked[1..]);
      FirstStays(c, ranked, rest);
      [ranked[0]] + rest
  }

  lemma FirstRanked(c: Candidate, ranked: seq<Candidate>)
    requires Ranked(ranked) && ranked != [] && Before(c, ranked[0])
    ensures Ranked([c] + ranked)
  {
    forall b | 0 <= b < |ranked| ensures Before(c, ranked[b]) {
      assert b > 0 ==> Before(ranked[0], ranked[b]);
    }
  }

  lemma FirstStays(c: Candidate, ranked: seq<Candidate>, rest: seq<Candidate>)
    requires Ranked(ranked) && ranked != [] && !Before(c, ranked[0]) && Ranked(rest)
    requires forall x :: x in rest <==> x == c || x in ranked[1..]
    ensures Ranked([ranked[0]] + rest)
    ensures forall x :: x in [ranked[0]] + rest <==> x == c || x in ranked
  {
    assert ranked == [ranked[0]] + ranked[1..];
    forall b | 0 <= b < |rest| ensures Before(ranked[0], rest[b]) {
      assert rest[b] in rest;
      if rest[b] != c {
        var k :| 0 <= k < |ranked[1..]| && ranked[1..][k] == rest[b];
        assert Before(ranked[0], ranked[k + 1]);
      }
    }
  }

  /** Every candidate is claimed, or has lost one of its cards to one that ranks before it. */
  ghost predicate Settled(candidates: seq<Candidate>, pairs: Pairs) {
    forall c :: c in candidates ==> Beaten(c, candidates, pairs)
  }

  ghost predicate Beaten(c: Candidate, candidates: seq<Candidate>, pairs: Pairs) {
    exists d :: d in candidates && (d.i, d.j) in pairs && Before(d, c) && (d.i == c.i || d.j == c.j)
  }

  method ClaimBest(ranked: seq<Candidate>, takenOld: set<nat>, takenNew: set<nat>) returns (pairs: Pairs)
    requires Ranked(ranked)
    requires forall c :: c in ranked ==> c.i !in takenOld && c.j !in takenNew
    ensures Apart(pairs) && Olds(pairs) !! takenOld && News(pairs) !! takenNew
    ensures forall p :: p in pairs ==> exists c :: c in ranked && (c.i, c.j) == p
    ensures Settled(ranked, pairs)
  {
    pairs := [];
    for k := 0 to |ranked|
      invariant Apart(pairs)
      invariant forall p :: p in pairs ==> exists c :: c in ranked[..k] && (c.i, c.j) == p
      invariant forall c :: c in ranked[..k] ==> Beaten(c, ranked, pairs)
    {
      var c := ranked[k];
      assert ranked[..k + 1] == ranked[..k] + [c];
      if c.i !in Olds(pairs) && c.j !in News(pairs) {
        ClaimedNext(ranked, k, pairs);
        pairs := pairs + [(c.i, c.j)];
      } else {
        LostNext(ranked, k, pairs);
      }
    }
    assert ranked[..|ranked|] == ranked;
  }

  lemma ClaimedNext(ranked: seq<Candidate>, k: nat, pairs: Pairs)
    requires k < |ranked| && Ranked(ranked) && Apart(pairs)
    requires ranked[k].i !in Olds(pairs) && ranked[k].j !in News(pairs)
    requires forall c :: c in ranked[..k] ==> Beaten(c, ranked, pairs)
    ensures var c := ranked[k]; Apart(pairs + [(c.i, c.j)])
    ensures var c := ranked[k]; forall x :: x in ranked[..k + 1] ==> Beaten(x, ranked, pairs + [(c.i, c.j)])
  {
    var c := ranked[k];
    var longer := pairs + [(c.i, c.j)];
    assert forall a :: 0 <= a < |pairs| ==> pairs[a] in pairs;
    assert ranked[..k + 1] == ranked[..k] + [c];
    assert (c.i, c.j) in longer && Before(c, c) && c in ranked;
    forall x | x in ranked[..k + 1] ensures Beaten(x, ranked, longer) {
      if x in ranked[..k] {
        var d :| d in ranked && (d.i, d.j) in pairs && Before(d, x) && (d.i == x.i || d.j == x.j);
        assert (d.i, d.j) in longer;
      }
    }
  }

  lemma LostNext(ranked: seq<Candidate>, k: nat, pairs: Pairs)
    requires k < |ranked| && Ranked(ranked)
    requires ranked[k].i in Olds(pairs) || ranked[k].j in News(pairs)
    requires forall p :: p in pairs ==> exists c :: c in ranked[..k] && (c.i, c.j) == p
    ensures Beaten(ranked[k], ranked, pairs)
  {
    var c := ranked[k];
    var p :| p in pairs && (p.0 == c.i || p.1 == c.j);
    var d :| d in ranked[..k] && (d.i, d.j) == p;
    var a :| 0 <= a < k && ranked[a] == d;
    assert Before(ranked[a], ranked[k]);
  }

  // -- what the weak keys leave ------------------------------------------

  /** Pairs the groups that have exactly one card on each side. */
  method ClaimUnique<G(==, !new)>(oldGroups: seq<Option<G>>, newGroups: seq<Option<G>>) returns (pairs: Pairs)
    ensures Apart(pairs) && SameKeys(pairs, oldGroups, newGroups)
    ensures forall i: nat, j: nat :: (i, j) in pairs <==> OnlyPair(oldGroups, newGroups, i, j)
  {
    var oldBy := Buckets(oldGroups);
    var newBy := Buckets(newGroups);
    pairs := [];
    for i := 0 to |oldGroups|
      invariant Apart(pairs) && SameKeys(pairs, oldGroups, newGroups)
      invariant forall p :: p in pairs ==> p.0 < i
      invariant forall a: nat, j: nat :: ((a, j) in pairs <==> a < i && OnlyPair(oldGroups, newGroups, a, j))
    {
      var group := oldGroups[i];
      BucketIsHaving(Get(oldBy, group), oldGroups, group);
      BucketIsHaving(Get(newBy, group), newGroups, group);
      if group.Some? && |Get(oldBy, group)| == 1 && |Get(newBy, group)| == 1 {
        OnlyOnce(oldGroups, newGroups, pairs, i, Get(newBy, group)[0]);
        pairs := pairs + [(i, Get(newBy, group)[0])];
      }
    }
  }

  predicate OnlyPair<G(==)>(oldGroups: seq<Option<G>>, newGroups: seq<Option<G>>, i: nat, j: nat) {
    && i < |oldGroups| && j < |newGroups| && oldGroups[i].Some? && oldGroups[i] == newGroups[j]
    && Having(oldGroups, oldGroups[i]) == {i} && Having(newGroups, oldGroups[i]) == {j}
  }

  lemma BucketIsHaving<K>(waiting: seq<nat>, keys: seq<K>, key: K)
    requires IsBucket(waiting, keys, |keys|, key)
    ensures Having(keys, key) == set i | i in waiting
    ensures |waiting| == 1 <==> |Having(keys, key)| == 1
    ensures |waiting| == 1 ==> Having(keys, key) == {waiting[0]}
    ensures forall i: nat :: Having(keys, key) == {i} ==> waiting == [i]
  {
    assert waiting != [] ==> waiting[0] in waiting;
    if |waiting| >= 2 {
      assert {waiting[0], waiting[1]} <= Having(keys, key);
      assert |Having(keys, key) - {waiting[0]}| >= 1 by { assert waiting[1] in Having(keys, key) - {waiting[0]}; }
    }
    forall i: nat | Having(keys, key) == {i} ensures waiting == [i] {
      assert i in Having(keys, key);
    }
  }

  lemma OnlyOnce<G>(oldGroups: seq<Option<G>>, newGroups: seq<Option<G>>, pairs: Pairs, i: nat, j: nat)
    requires OnlyPair(oldGroups, newGroups, i, j) && Apart(pairs)
    requires forall p :: p in pairs ==> p.0 < i && OnlyPair(oldGroups, newGroups, p.0, p.1)
    ensures Apart(pairs + [(i, j)])
  {
    forall a | 0 <= a < |pairs| ensures pairs[a].0 != i && pairs[a].1 != j {
      assert pairs[a] in pairs;
      assert i in Having(oldGroups, oldGroups[i]);
    }
  }

  /** Cards named by their own text, by list and kind. */
  function TextGroups(slots: seq<Slot>, places: seq<Place>, out: set<nat>): seq<Option<(Place, string)>>
    requires |places| == |slots|
  {
    seq(|slots|, i requires 0 <= i < |slots| =>
      if i !in out && TextKind(slots[i].card).Some? then Some((places[i], TextKind(slots[i].card).value)) else None)
  }

  /** Named entity cards, by list and everything but the entity. */
  function SiblingGroups(slots: seq<Slot>, places: seq<Place>, out: set<nat>): seq<Option<(Place, Sibling)>>
    requires |places| == |slots|
  {
    seq(|slots|, i requires 0 <= i < |slots| =>
      if i !in out && slots[i].card.sibling.Some? then Some((places[i], slots[i].card.sibling.value)) else None)
  }

  function OldPlaces(slots: seq<Slot>, translate: Translation): seq<Place> {
    seq(|slots|, i requires 0 <= i < |slots| => Translated(slots[i], translate))
  }

  function NewPlaces(slots: seq<Slot>): seq<Place> {
    seq(|slots|, i requires 0 <= i < |slots| => slots[i].place)
  }

  function UnpairedSlots(slots: seq<Slot>, translate: Translation): set<nat> {
    set i: nat | i < |slots| && Unpaired(slots[i], translate)
  }

  // -- the result --------------------------------------------------------

  /** The pairs by what was found, and whether they are of cards or of badges. */
  datatype Matching = Matching(inPlace: Pairs, displaced: Pairs, edited: Pairs,
                               removed: seq<nat>, added: seq<nat>, moved: Pairs, cards: bool)
  {
    function Exact(): Pairs { inPlace + displaced }
    function All(): Pairs { inPlace + (displaced + edited) }
  }

  /** What makes two different cards one edited card. */
  predicate EditedFor(was: Slot, now: Slot, translate: Translation) {
    && Translated(was, translate) == now.place
    && ( (was.card.weak.Some? && was.card.weak == now.card.weak)
      || (TextKind(was.card).Some? && TextKind(was.card) == TextKind(now.card))
      || (was.card.sibling.Some? && was.card.sibling == now.card.sibling))
  }

  predicate AllEdited(pairs: Pairs, before: seq<Slot>, after: seq<Slot>, translate: Translation) {
    forall p :: p in pairs ==>
      p.0 < |before| && p.1 < |after| && EditedFor(before[p.0], after[p.1], translate)
  }

  /** How many survivors of its own list come before a pair's card, by their indices in one state. */
  function Rank(slots: seq<Slot>, at: seq<nat>, lists: seq<Place>, q: nat): nat
    requires q < |at| == |lists| && forall r :: 0 <= r < |at| ==> at[r] < |slots|
  {
    |set r: nat | r < |at| && lists[r] == lists[q]
       && (slots[at[r]].index < slots[at[q]].index || (slots[at[r]].index == slots[at[q]].index && r < q))|
  }

  predicate InRange(pairs: Pairs, before: seq<Slot>, after: seq<Slot>) {
    forall q :: 0 <= q < |pairs| ==> pairs[q].0 < |before| && pairs[q].1 < |after|
  }

  function Lists(pairs: Pairs, before: seq<Slot>, after: seq<Slot>): seq<Place>
    requires InRange(pairs, before, after)
  {
    seq(|pairs|, q requires 0 <= q < |pairs| => after[pairs[q].1].place)
  }

  function Firsts(pairs: Pairs): seq<nat> {
    seq(|pairs|, q requires 0 <= q < |pairs| => pairs[q].0)
  }

  function Seconds(pairs: Pairs): seq<nat> {
    seq(|pairs|, q requires 0 <= q < |pairs| => pairs[q].1)
  }

  /** Whether a pair's card changed its rank among the survivors of its list. */
  predicate Reranked(pairs: Pairs, before: seq<Slot>, after: seq<Slot>, q: nat)
    requires q < |pairs| && InRange(pairs, before, after)
  {
    Rank(before, Firsts(pairs), Lists(pairs, before, after), q) !=
      Rank(after, Seconds(pairs), Lists(pairs, before, after), q)
  }

  /** The cards that stayed in their list and changed their order in it. */
  method Reordered(before: seq<Slot>, after: seq<Slot>, inPlace: Pairs, edited: Pairs) returns (moved: Pairs)
    requires InRange(inPlace + edited, before, after)
    ensures forall p :: p in moved <==> WasReranked(inPlace, edited, before, after, |inPlace|, p)
  {
    moved := [];
    for q := 0 to |inPlace|
      invariant forall p :: p in moved <==> WasReranked(inPlace, edited, before, after, q, p)
    {
      if Reranked(inPlace + edited, before, after, q) {
        moved := moved + [inPlace[q]];
      }
    }
  }

  /** Whether a pair is one of the first `n` in place and changed its rank. */
  predicate WasReranked(inPlace: Pairs, edited: Pairs, before: seq<Slot>, after: seq<Slot>, n: nat, p: (nat, nat))
    requires InRange(inPlace + edited, before, after) && n <= |inPlace|
  {
    exists q :: 0 <= q < n && inPlace[q] == p && Reranked(inPlace + edited, before, after, q)
  }

  /** The positions below `n` nobody took, in order. */
  function Rest(n: nat, taken: set<nat>): (rest: seq<nat>)
    ensures forall i: nat :: i in rest <==> i < n && i !in taken
    ensures forall a, b :: 0 <= a < b < |rest| ==> rest[a] < rest[b]
  {
    if n == 0 then []
    else
      var lower := Rest(n - 1, taken);
      assert forall a :: 0 <= a < |lower| ==> lower[a] in lower;
      if n - 1 in taken then lower else lower + [n - 1]
  }

  predicate MovedInItsList(m: Matching, before: seq<Slot>, after: seq<Slot>, p: (nat, nat))
    requires InRange(m.inPlace + m.edited, before, after)
  {
    WasReranked(m.inPlace, m.edited, before, after, |m.inPlace|, p)
  }

  ghost predicate MovedAre(m: Matching, before: seq<Slot>, after: seq<Slot>) {
    && InRange(m.inPlace + m.edited, before, after)
    && (forall p :: p in m.moved <==> p in m.displaced || MovedInItsList(m, before, after, p))
  }

  /** Every pair that could have been edited was, or lost a card to one that is more alike. */
  ghost predicate BestMatched(before: seq<Slot>, after: seq<Slot>, translate: Translation, exact: Pairs,
                              edited: Pairs) {
    forall c :: IsCandidate(c, before, after, translate, Olds(exact), News(exact)) ==>
      exists d :: IsCandidate(d, before, after, translate, Olds(exact), News(exact))
                  && (d.i, d.j) in edited && Before(d, c) && (d.i == c.i || d.j == c.j)
  }

  /** The one text card of a kind left in a list before, and the one left there after. */
  predicate OnlyRenamed(before: seq<Slot>, after: seq<Slot>, translate: Translation, claimed: Pairs, i: nat, j: nat) {
    OnlyPair(TextGroups(before, OldPlaces(before, translate), Olds(claimed) + UnpairedSlots(before, translate)),
             TextGroups(after, NewPlaces(after), News(claimed)), i, j)
  }

  /** The one named entity card alike in all but its entity left in a list before, and the one left there after. */
  predicate OnlySwapped(before: seq<Slot>, after: seq<Slot>, translate: Translation, claimed: Pairs, i: nat, j: nat) {
    OnlyPair(SiblingGroups(before, OldPlaces(before, translate), Olds(claimed) + UnpairedSlots(before, translate)),
             SiblingGroups(after, NewPlaces(after), News(claimed)), i, j)
  }

  ghost predicate AllRenamed(pairs: Pairs, before: seq<Slot>, after: seq<Slot>, translate: Translation,
                             claimed: Pairs) {
    forall i: nat, j: nat :: (i, j) in pairs <==> OnlyRenamed(before, after, translate, claimed, i, j)
  }

  ghost predicate AllSwapped(pairs: Pairs, before: seq<Slot>, after: seq<Slot>, translate: Translation,
                             claimed: Pairs) {
    forall i: nat, j: nat :: (i, j) in pairs <==> OnlySwapped(before, after, translate, claimed, i, j)
  }

  /**
   * Best by weak key first; of what is left exactly the only renamed ones; for cards,
   * then exactly the only swapped ones.
   */
  ghost predicate InStages(before: seq<Slot>, after: seq<Slot>, translate: Translation, exact: Pairs, edited: Pairs,
                           cards: bool) {
    exists best: Pairs, renamed: Pairs, swapped: Pairs ::
      AreStages(before, after, translate, exact, edited, cards, best, renamed, swapped)
  }

  ghost predicate AreStages(before: seq<Slot>, after: seq<Slot>, translate: Translation, exact: Pairs, edited: Pairs,
                            cards: bool,
                            best: Pairs, renamed: Pairs, swapped: Pairs)
  {
    && edited == best + renamed + swapped
    && BestMatched(before, after, translate, exact, best)
    && AllRenamed(renamed, before, after, translate, exact + best)
    && (if cards then AllSwapped(swapped, before, after, translate, exact + (best + renamed)) else swapped == [])
  }

  /** What the passes promise about the pairs they find. */
  ghost predicate IsMatching(m: Matching, before: seq<Slot>, after: seq<Slot>, translate: Translation) {
    && m.inPlace == Claimed(Order(before, translate), OldPlaceKeys(before, translate), NewPlaceKeys(after), {}, {})
    && m.displaced == Claimed(Order(before, translate), Marks(before), Marks(after), Olds(m.inPlace), News(m.inPlace))
    && Apart(m.All()) && InRange(m.All(), before, after)
    && AllEdited(m.edited, before, after, translate)
    && InStages(before, after, translate, m.Exact(), m.edited, m.cards)
    && m.removed == Rest(|before|, Olds(m.All())) && m.added == Rest(|after|, News(m.All()))
    && MovedAre(m, before, after)
  }

  /** The four passes, and what the text and the entity swap add to the third. */
  method MatchSlots(before: seq<Slot>, after: seq<Slot>, translate: Translation, cards: bool) returns (m: Matching)
    ensures IsMatching(m, before, after, translate) && m.cards == cards
  {
    var inPlace, displaced := ExactPasses(before, after, translate);
    var edited := Edited(before, after, translate, cards, inPlace + displaced);
    m := LeftOvers(before, after, translate, inPlace, displaced, edited, cards);
  }

  method ExactPasses(before: seq<Slot>, after: seq<Slot>, translate: Translation)
    returns (inPlace: Pairs, displaced: Pairs)
    ensures inPlace == Claimed(Order(before, translate), OldPlaceKeys(before, translate), NewPlaceKeys(after), {}, {})
    ensures displaced == Claimed(Order(before, translate), Marks(before), Marks(after), Olds(inPlace), News(inPlace))
    ensures Apart(inPlace + displaced) && InRange(inPlace + displaced, before, after)
  {
    var order := Order(before, translate);
    inPlace := Pass(order, OldPlaceKeys(before, translate), NewPlaceKeys(after), {}, {});
    displaced := Pass(order, Marks(before), Marks(after), Olds(inPlace), News(inPlace));
    ExactIsApart(before, after, translate, inPlace, displaced);
  }

  /** What the passes leave over, and what moved. */
  method LeftOvers(before: seq<Slot>, after: seq<Slot>, translate: Translation,
                   inPlace: Pairs, displaced: Pairs, edited: Pairs, cards: bool)
    returns (m: Matching)
    requires inPlace == Claimed(Order(before, translate), OldPlaceKeys(before, translate), NewPlaceKeys(after), {}, {})
    requires displaced == Claimed(Order(before, translate), Marks(before), Marks(after), Olds(inPlace), News(inPlace))
    requires Apart(inPlace + displaced + edited) && InRange(inPlace + displaced + edited, before, after)
    requires AllEdited(edited, before, after, translate)
    requires InStages(before, after, translate, inPlace + displaced, edited, cards)
    ensures IsMatching(m, before, after, translate) && m.cards == cards
  {
    OutOfTheMiddle(inPlace, displaced, edited, before, after);
    var all := inPlace + (displaced + edited);
    var reordered := Reordered(before, after, inPlace, edited);
    m := Matching(inPlace, displaced, edited, Rest(|before|, Olds(all)), Rest(|after|, News(all)),
                  displaced + reordered, cards);
    MovedOfBoth(m, before, after, reordered);
  }

  lemma MovedOfBoth(m: Matching, before: seq<Slot>, after: seq<Slot>, reordered: Pairs)
    requires InRange(m.inPlace + m.edited, before, after) && m.moved == m.displaced + reordered
    requires forall p :: p in reordered <==> MovedInItsList(m, before, after, p)
    ensures MovedAre(m, before, after)
  {
  }

  lemma OutOfTheMiddle(a: Pairs, b: Pairs, c: Pairs, before: seq<Slot>, after: seq<Slot>)
    requires InRange(a + b + c, before, after)
    ensures InRange(a + c, before, after) && a + (b + c) == a + b + c
  {
    var all := a + b + c;
    assert forall q :: 0 <= q < |a| ==> all[q] == a[q];
    assert forall q :: 0 <= q < |c| ==> all[|a + b| + q] == c[q];
    assert a + (b + c) == all;
  }

  /** Pass 3: of the cards with one weak key in one place, the most alike first. */
  method EditedByWeakKey(before: seq<Slot>, after: seq<Slot>, translate: Translation, exact: Pairs)
    returns (edited: Pairs)
    requires Apart(exact) && InRange(exact, before, after)
    ensures Apart(exact + edited) && InRange(exact + edited, before, after)
    ensures AllEdited(edited, before, after, translate)
    ensures BestMatched(before, after, translate, exact, edited)
  {
    var candidates := Candidates(before, after, translate, Olds(exact), News(exact));
    var ranked := BestFirst(candidates);
    edited := ClaimBest(ranked, Olds(exact), News(exact));
    JoinApart(exact, edited);
    forall p | p in edited
      ensures p.0 < |before| && p.1 < |after| && EditedFor(before[p.0], after[p.1], translate)
    {
      var c :| c in ranked && (c.i, c.j) == p;
    }
    JoinInRange(exact, edited, before, after);
    SettledIsBestMatched(ranked, before, after, translate, exact, edited);
  }

  /** Pass 3 on the weak keys, then renamed texts, then - for cards - swapped entities. */
  method Edited(before: seq<Slot>, after: seq<Slot>, translate: Translation, cards: bool, exact: Pairs)
    returns (edited: Pairs)
    requires Apart(exact) && InRange(exact, before, after)
    ensures Apart(exact + edited) && InRange(exact + edited, before, after)
    ensures AllEdited(edited, before, after, translate)
    ensures InStages(before, after, translate, exact, edited, cards)
  {
    var best := EditedByWeakKey(before, after, translate, exact);
    var renamed, swapped := PairedByContent(before, after, translate, cards, exact + best);
    edited := best + renamed + swapped;
    Regroup(exact, best, renamed, swapped);
    assert AreStages(before, after, translate, exact, edited, cards, best, renamed, swapped);
  }

  lemma Regroup(a: Pairs, b: Pairs, c: Pairs, d: Pairs)
    ensures a + (b + c + d) == a + b + c + d && a + (b + c) == a + b + c
    ensures forall p :: p in b + c + d ==> p in b || p in c || p in d
  {
  }

  /** What the passes on the card's own key leave: renamed, then swapped. */
  method PairedByContent(before: seq<Slot>, after: seq<Slot>, translate: Translation, cards: bool, claimed: Pairs)
    returns (renamed: Pairs, swapped: Pairs)
    requires Apart(claimed) && InRange(claimed, before, after)
    ensures Apart(claimed + renamed + swapped) && InRange(claimed + renamed + swapped, before, after)
    ensures AllEdited(renamed, before, after, translate) && AllEdited(swapped, before, after, translate)
    ensures AllRenamed(renamed, before, after, translate, claimed)
    ensures if cards then AllSwapped(swapped, before, after, translate, claimed + renamed) else swapped == []
  {
    renamed := Renamed(before, after, translate, claimed);
    swapped := [];
    if cards {
      swapped := Swapped(before, after, translate, claimed + renamed);
    } else {
      assert claimed + renamed + swapped == claimed + renamed;
    }
  }

  lemma SettledIsBestMatched(ranked: seq<Candidate>, before: seq<Slot>, after: seq<Slot>, translate: Translation,
                             exact: Pairs, pairs: Pairs)
    requires forall c :: c in ranked <==> IsCandidate(c, before, after, translate, Olds(exact), News(exact))
    requires Settled(ranked, pairs)
    ensures BestMatched(before, after, translate, exact, pairs)
  {
    forall c | IsCandidate(c, before, after, translate, Olds(exact), News(exact))
      ensures exists d :: IsCandidate(d, before, after, translate, Olds(exact), News(exact))
                          && (d.i, d.j) in pairs && Before(d, c) && (d.i == c.i || d.j == c.j)
    {
      assert Beaten(c, ranked, pairs);
    }
  }

  /** One text card of a kind on each side of a list: the text changed. */
  method Renamed(before: seq<Slot>, after: seq<Slot>, translate: Translation, claimed: Pairs) returns (pairs: Pairs)
    requires Apart(claimed) && InRange(claimed, before, after)
    ensures Apart(claimed + pairs) && InRange(claimed + pairs, before, after)
    ensures AllEdited(pairs, before, after, translate)
    ensures AllRenamed(pairs, before, after, translate, claimed)
  {
    var oldGroups := TextGroups(before, OldPlaces(before, translate), Olds(claimed) + UnpairedSlots(before, translate));
    var newGroups := TextGroups(after, NewPlaces(after), News(claimed));
    pairs := ClaimUnique(oldGroups, newGroups);
    forall p | p in pairs
      ensures p.0 < |before| && p.1 < |after| && EditedFor(before[p.0], after[p.1], translate)
      ensures p.0 !in Olds(claimed) && p.1 !in News(claimed)
    {
      assert OnlyPair(oldGroups, newGroups, p.0, p.1);
    }
    JoinApart(claimed, pairs);
    JoinInRange(claimed, pairs, before, after);
  }

  /** One card alike in all but its entity on each side of a list: the entity was swapped. */
  method Swapped(before: seq<Slot>, after: seq<Slot>, translate: Translation, claimed: Pairs) returns (pairs: Pairs)
    requires Apart(claimed) && InRange(claimed, before, after)
    ensures Apart(claimed + pairs) && InRange(claimed + pairs, before, after)
    ensures AllEdited(pairs, before, after, translate)
    ensures AllSwapped(pairs, before, after, translate, claimed)
  {
    var oldGroups := SiblingGroups(before, OldPlaces(before, translate),
                                   Olds(claimed) + UnpairedSlots(before, translate));
    var newGroups := SiblingGroups(after, NewPlaces(after), News(claimed));
    pairs := ClaimUnique(oldGroups, newGroups);
    forall p | p in pairs
      ensures p.0 < |before| && p.1 < |after| && EditedFor(before[p.0], after[p.1], translate)
      ensures p.0 !in Olds(claimed) && p.1 !in News(claimed)
    {
      assert OnlyPair(oldGroups, newGroups, p.0, p.1);
    }
    JoinApart(claimed, pairs);
    JoinInRange(claimed, pairs, before, after);
  }

  lemma JoinApart(a: Pairs, b: Pairs)
    requires Apart(a) && Apart(b) && Olds(a) !! Olds(b) && News(a) !! News(b)
    ensures Apart(a + b)
    ensures Olds(a + b) == Olds(a) + Olds(b) && News(a + b) == News(a) + News(b)
  {
    var c := a + b;
    forall x, y | 0 <= x < y < |c| ensures c[x].0 != c[y].0 && c[x].1 != c[y].1 {
      if y < |a| {
        assert c[x] == a[x] && c[y] == a[y];
      } else if x < |a| {
        var one, other := a[x], b[y - |a|];
        assert one in a && other in b && c[x] == one && c[y] == other;
        assert one.0 in Olds(a) && other.0 in Olds(b) && one.1 in News(a) && other.1 in News(b);
      } else {
        assert c[x] == b[x - |a|] && c[y] == b[y - |a|];
      }
    }
  }

  lemma JoinInRange(a: Pairs, b: Pairs, before: seq<Slot>, after: seq<Slot>)
    requires InRange(a, before, after)
    requires forall p :: p in b ==> p.0 < |before| && p.1 < |after|
    ensures InRange(a + b, before, after)
  {
  }

  lemma PartInRange(a: Pairs, b: Pairs, before: seq<Slot>, after: seq<Slot>)
    requires InRange(a + b, before, after)
    ensures InRange(a, before, after)
  {
    assert forall q :: 0 <= q < |a| ==> (a + b)[q] == a[q];
  }

  lemma ExactIsApart(before: seq<Slot>, after: seq<Slot>, translate: Translation, inPlace: Pairs, displaced: Pairs)
    requires inPlace == Claimed(Order(before, translate), OldPlaceKeys(before, translate), NewPlaceKeys(after), {}, {})
    requires displaced == Claimed(Order(before, translate), Marks(before), Marks(after), Olds(inPlace), News(inPlace))
    ensures Apart(inPlace + displaced) && InRange(inPlace + displaced, before, after)
    ensures SameKeys(inPlace + displaced, Marks(before), Marks(after))
    ensures SameKeys(inPlace, OldPlaceKeys(before, translate), NewPlaceKeys(after))
  {
    var order := Order(before, translate);
    ClaimedIsSound(order, OldPlaceKeys(before, translate), NewPlaceKeys(after), {}, {});
    ClaimedIsSound(order, Marks(before), Marks(after), Olds(inPlace), News(inPlace));
    JoinApart(inPlace, displaced);
    forall p | p in inPlace ensures p.0 < |before| && p.1 < |after| && Marks(before)[p.0] == Marks(after)[p.1] {
      assert OldPlaceKeys(before, translate)[p.0] == NewPlaceKeys(after)[p.1];
    }
  }

  // -- what the passes mean ----------------------------------------------

  /**
   * Every old card is in place, displaced, edited or removed and in only one of
   * them; and the same way round for every new card.
   */
  lemma EveryCardOnce(m: Matching, before: seq<Slot>, after: seq<Slot>, translate: Translation)
    requires IsMatching(m, before, after, translate)
    ensures Olds(m.inPlace) !! Olds(m.displaced) !! Olds(m.edited) !! (set i | i in m.removed)
    ensures News(m.inPlace) !! News(m.displaced) !! News(m.edited) !! (set j | j in m.added)
    ensures forall i: nat :: i < |before| <==>
      i in Olds(m.inPlace) + Olds(m.displaced) + Olds(m.edited) || i in m.removed
    ensures forall j: nat :: j < |after| <==>
      j in News(m.inPlace) + News(m.displaced) + News(m.edited) || j in m.added
  {
    ThreeApart(m.inPlace, m.displaced, m.edited);
    InRangeIsIn(m.All(), before, after);
  }

  lemma ThreeApart(a: Pairs, b: Pairs, c: Pairs)
    requires Apart(a + (b + c))
    ensures Olds(a) !! Olds(b) !! Olds(c) && News(a) !! News(b) !! News(c)
    ensures Olds(a + (b + c)) == Olds(a) + Olds(b) + Olds(c) && News(a + (b + c)) == News(a) + News(b) + News(c)
  {
    SplitApart(a, b + c);
    SplitApart(b, c);
  }

  lemma InRangeIsIn(pairs: Pairs, before: seq<Slot>, after: seq<Slot>)
    requires InRange(pairs, before, after)
    ensures forall i :: i in Olds(pairs) ==> i < |before|
    ensures forall j :: j in News(pairs) ==> j < |after|
  {
    forall p | p in pairs ensures p.0 < |before| && p.1 < |after| {
      var q :| 0 <= q < |pairs| && pairs[q] == p;
    }
  }

  lemma SplitApart(a: Pairs, b: Pairs)
    requires Apart(a + b)
    ensures Apart(a) && Apart(b) && Olds(a) !! Olds(b) && News(a) !! News(b)
    ensures Olds(a + b) == Olds(a) + Olds(b) && News(a + b) == News(a) + News(b)
  {
    var c := a + b;
    assert forall i :: 0 <= i < |a| ==> c[i] == a[i];
    assert forall j :: 0 <= j < |b| ==> c[|a| + j] == b[j];
    forall p, r | p in a && r in b ensures p.0 != r.0 && p.1 != r.1 {
      var i :| 0 <= i < |a| && a[i] == p;
      var j :| 0 <= j < |b| && b[j] == r;
      assert c[i].0 != c[|a| + j].0;
    }
  }

  /** How many cards of one content a state has. */
  function Count(slots: seq<Slot>, card: Card): nat {
    |Having(Marks(slots), card)|
  }

  lemma OneSideOnly(m: Matching, before: seq<Slot>, after: seq<Slot>, translate: Translation, card: Card)
    requires m.displaced ==
      Claimed(Order(before, translate), Marks(before), Marks(after), Olds(m.inPlace), News(m.inPlace))
    ensures Having(Marks(before), card) <= Olds(m.inPlace) + Olds(m.displaced)
         || Having(Marks(after), card) <= News(m.inPlace) + News(m.displaced)
  {
    if i :| i in Having(Marks(before), card) && i !in Olds(m.inPlace) + Olds(m.displaced) {
      forall j | j in Having(Marks(after), card) ensures j in News(m.inPlace) + News(m.displaced) {
        ClaimedIsMaximal(Order(before, translate), Marks(before), Marks(after), Olds(m.inPlace), News(m.inPlace), i, j);
      }
    }
  }

  /**
   * The exact passes leave of every content exactly what one state has more of
   * than the other: that many old cards of it are removed or edited, that many new
   * ones added or edited, and never both.
   */
  lemma ContentIsCounted(m: Matching, before: seq<Slot>, after: seq<Slot>, translate: Translation, card: Card)
    requires IsMatching(m, before, after, translate)
    ensures |Having(Marks(before), card) - Olds(m.Exact())| == Surplus(Count(before, card), Count(after, card))
    ensures |Having(Marks(after), card) - News(m.Exact())| == Surplus(Count(after, card), Count(before, card))
  {
    ExactIsApart(before, after, translate, m.inPlace, m.displaced);
    SplitApart(m.inPlace, m.displaced);
    OneSideOnly(m, before, after, translate, card);
    LeftOver(m.Exact(), Marks(before), Marks(after), card);
  }

  // -- a state matched with itself ---------------------------------------

  /** No card's list is read as another one. */
  predicate StaysPut(slots: seq<Slot>, translate: Translation) {
    forall i :: 0 <= i < |slots| ==> Translated(slots[i], translate) == slots[i].place
  }

  lemma {:induction false} ClaimsItself<K>(order: seq<nat>, keys: seq<K>, taken: set<nat>)
    requires Within(order, |keys|)
    requires forall a, b :: 0 <= a < b < |order| ==> order[a] != order[b]
    requires forall a :: 0 <= a < |order| ==> order[a] !in taken
    requires forall a: nat, j: nat :: a < |order| && j < order[a] && keys[j] == keys[order[a]] ==>
      j in taken || j in order[..a]
    ensures var pairs := Claimed(order, keys, keys, taken, taken);
      (forall p :: p in pairs ==> p.0 == p.1) && (forall i :: i in order ==> i in Olds(pairs))
  {
    if order != [] {
      var i := order[0];
      var j := FirstFree(keys, keys[i], taken, 0);
      assert forall b: nat :: b < i && keys[b] == keys[i] ==> b in taken || b in order[..0];
      assert j == Some(i);
      forall a: nat, b: nat | a < |order[1..]| && b < order[1..][a] && keys[b] == keys[order[1..][a]]
        ensures b in taken + {i} || b in order[1..][..a]
      {
        assert b in taken || b in order[..a + 1];
        assert order[..a + 1] == [i] + order[1..][..a];
      }
      ClaimsItself(order[1..], keys, taken + {i});
      var rest := Claimed(order[1..], keys, keys, taken + {i}, taken + {i});
      assert Claimed(order, keys, keys, taken, taken) == [(i, i)] + rest;
      assert order == [i] + order[1..];
      assert (i, i) in [(i, i)] + rest && forall p :: p in rest ==> p in [(i, i)] + rest;
    }
  }

  lemma EarlierInRising(rising: seq<nat>, a: nat, j: nat)
    requires forall x, y :: 0 <= x < y < |rising| ==> rising[x] < rising[y]
    requires a < |rising| && j in rising && j < rising[a]
    ensures j in rising[..a]
  {
    var b :| 0 <= b < |rising| && rising[b] == j;
    assert rising[..a][b] == j;
  }

  lemma OrderPerKey(slots: seq<Slot>, translate: Translation, a: nat, j: nat)
    requires a < |Order(slots, translate)| && j < Order(slots, translate)[a]
    requires slots[j].place == slots[Order(slots, translate)[a]].place
    ensures j in Order(slots, translate)[..a]
  {
    var paired, unpaired := Positions(slots, translate, false, 0), Positions(slots, translate, true, 0);
    var i := (paired + unpaired)[a];
    assert Unpaired(slots[j], translate) == Unpaired(slots[i], translate);
    if a < |paired| {
      assert i == paired[a];
      EarlierInRising(paired, a, j);
      assert (paired + unpaired)[..a] == paired[..a];
    } else {
      assert i == unpaired[a - |paired|];
      EarlierInRising(unpaired, a - |paired|, j);
      assert (paired + unpaired)[..a] == paired + unpaired[..a - |paired|];
    }
  }

  /** A state against itself: every card is where it was, and nothing else is reported. */
  lemma NothingChangedNothingReported(m: Matching, slots: seq<Slot>, translate: Translation)
    requires IsMatching(m, slots, slots, translate) && StaysPut(slots, translate)
    ensures m.removed == [] && m.added == [] && m.edited == [] && m.moved == []
  {
    SelfInPlace(slots, translate, m.inPlace);
    EveryCardOnce(m, slots, slots, translate);
    NothingLeft(m, |slots|);
    NothingRemoved(m, |slots|);
    PartInRange(m.inPlace, m.displaced + m.edited, slots, slots);
    DiagonalSameOrder(m.inPlace, slots);
    NothingMoved(m, slots, slots);
  }

  lemma FirstIn<T>(s: seq<T>)
    ensures s != [] ==> s[0] in s
  {
  }

  lemma NothingRemoved(m: Matching, n: nat)
    requires m.removed == Rest(n, Olds(m.All()))
    requires forall i: nat :: i < n ==> i in Olds(m.inPlace)
    ensures m.removed == []
  {
    assert forall p :: p in m.inPlace ==> p in m.All();
    assert Olds(m.inPlace) <= Olds(m.All());
    FirstIn(m.removed);
  }

  lemma DiagonalSameOrder(pairs: Pairs, slots: seq<Slot>)
    requires InRange(pairs, slots, slots) && forall p :: p in pairs ==> p.0 == p.1
    ensures SameOrder(pairs, slots, slots)
  {
    assert forall q :: 0 <= q < |pairs| ==> pairs[q] in pairs;
  }

  lemma SelfKeys(slots: seq<Slot>, translate: Translation)
    requires StaysPut(slots, translate)
    ensures OldPlaceKeys(slots, translate) == NewPlaceKeys(slots)
  {
  }

  lemma InOrderPerKey(slots: seq<Slot>, translate: Translation)
    ensures var order, keys := Order(slots, translate), NewPlaceKeys(slots);
      forall a: nat, j: nat :: a < |order| && j < order[a] && keys[j] == keys[order[a]] ==> j in order[..a]
  {
    var order, keys := Order(slots, translate), NewPlaceKeys(slots);
    forall a: nat, j: nat | a < |order| && j < order[a] && keys[j] == keys[order[a]] ensures j in order[..a] {
      OrderPerKey(slots, translate, a, j);
    }
  }

  /** Positions are visited once each. */
  lemma OrderOnce(slots: seq<Slot>, translate: Translation)
    ensures var order := Order(slots, translate);
      forall a, b :: 0 <= a < b < |order| ==> order[a] != order[b]
  {
    var paired, unpaired := Positions(slots, translate, false, 0), Positions(slots, translate, true, 0);
    assert forall x, y :: 0 <= x < |paired| && 0 <= y < |unpaired| ==> paired[x] != unpaired[y];
  }

  lemma SelfInPlace(slots: seq<Slot>, translate: Translation, inPlace: Pairs)
    requires StaysPut(slots, translate)
    requires inPlace == Claimed(Order(slots, translate), OldPlaceKeys(slots, translate), NewPlaceKeys(slots), {}, {})
    ensures forall p :: p in inPlace ==> p.0 == p.1
    ensures forall i: nat :: i < |slots| ==> i in Olds(inPlace) && i in News(inPlace)
  {
    SelfKeys(slots, translate);
    InOrderPerKey(slots, translate);
    OrderOnce(slots, translate);
    ClaimsItself(Order(slots, translate), NewPlaceKeys(slots), {});
    BothSides(inPlace, |slots|);
  }

  lemma BothSides(pairs: Pairs, n: nat)
    requires (forall p :: p in pairs ==> p.0 == p.1) && forall i: nat :: i < n ==> i in Olds(pairs)
    ensures forall i: nat :: i < n ==> i in Olds(pairs) && i in News(pairs)
  {
    forall i: nat | i < n ensures i in News(pairs) {
      assert i in Olds(pairs);
      var p :| p in pairs && p.0 == i;
      assert p.1 in News(pairs);
    }
  }

  /** Once every new card is in place there is nothing left to displace, edit or add. */
  lemma NothingLeft(m: Matching, n: nat)
    requires News(m.inPlace) !! News(m.displaced) && News(m.inPlace) !! News(m.edited)
    requires forall j: nat :: j in News(m.displaced) || j in News(m.edited) || j in m.added ==> j < n
    requires forall j: nat :: j in m.added ==> j !in News(m.inPlace)
    requires forall j: nat :: j < n ==> j in News(m.inPlace)
    ensures m.displaced == [] && m.edited == [] && m.added == []
  {
    FirstIn(m.displaced);
    FirstIn(m.edited);
    FirstIn(m.added);
    assert m.displaced == [] || m.displaced[0].1 in News(m.displaced);
    assert m.edited == [] || m.edited[0].1 in News(m.edited);
  }

  /** Whether two pairs' cards of one list stand the same way round before and after. */
  ghost predicate SameOrder(pairs: Pairs, before: seq<Slot>, after: seq<Slot>)
    requires InRange(pairs, before, after)
  {
    forall r, q :: 0 <= r < |pairs| && 0 <= q < |pairs| && after[pairs[r].1].place == after[pairs[q].1].place ==>
      (before[pairs[r].0].index < before[pairs[q].0].index <==> after[pairs[r].1].index < after[pairs[q].1].index)
  }

  lemma NothingMoved(m: Matching, before: seq<Slot>, after: seq<Slot>)
    requires MovedAre(m, before, after)
    requires m.displaced == [] && m.edited == []
    requires InRange(m.inPlace, before, after) && SameOrder(m.inPlace, before, after)
    ensures m.moved == []
  {
    assert m.inPlace + m.edited == m.inPlace;
    forall q | 0 <= q < |m.inPlace| ensures !Reranked(m.inPlace, before, after, q) {
      SameRank(m.inPlace, before, after, q);
    }
    FirstIn(m.moved);
  }

  lemma SameRank(pairs: Pairs, before: seq<Slot>, after: seq<Slot>, q: nat)
    requires q < |pairs| && InRange(pairs, before, after) && SameOrder(pairs, before, after)
    ensures !Reranked(pairs, before, after, q)
  {
    var lists, old', new' := Lists(pairs, before, after), Firsts(pairs), Seconds(pairs);
    assert (set r: nat | r < |pairs| && lists[r] == lists[q]
              && (before[old'[r]].index < before[old'[q]].index
                  || (before[old'[r]].index == before[old'[q]].index && r < q)))
        == (set r: nat | r < |pairs| && lists[r] == lists[q]
              && (after[new'[r]].index < after[new'[q]].index
                  || (after[new'[r]].index == after[new'[q]].index && r < q)));
  }

  // -- cards that changed their order ------------------------------------

  /** One pair's card stands ahead of another's in the list both ended up in. */
  predicate Ahead(slots: seq<Slot>, at: seq<nat>, lists: seq<Place>, r: nat, q: nat)
    requires r < |at| == |lists| && q < |at| && forall k :: 0 <= k < |at| ==> at[k] < |slots|
  {
    && lists[r] == lists[q]
    && (slots[at[r]].index < slots[at[q]].index || (slots[at[r]].index == slots[at[q]].index && r < q))
  }

  function AllAhead(slots: seq<Slot>, at: seq<nat>, lists: seq<Place>, q: nat): set<nat>
    requires q < |at| == |lists| && forall k :: 0 <= k < |at| ==> at[k] < |slots|
  {
    set r: nat | r < |at| && Ahead(slots, at, lists, r, q)
  }

  lemma RankIsAhead(slots: seq<Slot>, at: seq<nat>, lists: seq<Place>, q: nat)
    requires q < |at| == |lists| && forall k :: 0 <= k < |at| ==> at[k] < |slots|
    ensures Rank(slots, at, lists, q) == |AllAhead(slots, at, lists, q)|
  {
    assert AllAhead(slots, at, lists, q) == set r: nat | r < |at| && lists[r] == lists[q]
      && (slots[at[r]].index < slots[at[q]].index || (slots[at[r]].index == slots[at[q]].index && r < q));
  }

  lemma AheadRanksLower(slots: seq<Slot>, at: seq<nat>, lists: seq<Place>, r: nat, q: nat)
    requires r < |at| == |lists| && q < |at| && forall k :: 0 <= k < |at| ==> at[k] < |slots|
    requires Ahead(slots, at, lists, r, q)
    ensures Rank(slots, at, lists, r) < Rank(slots, at, lists, q)
  {
    var fewer, more := AllAhead(slots, at, lists, r), AllAhead(slots, at, lists, q);
    RankIsAhead(slots, at, lists, r);
    RankIsAhead(slots, at, lists, q);
    assert fewer + {r} <= more && r !in fewer;
    Fewer(fewer, more, r);
  }

  lemma Fewer(fewer: set<nat>, more: set<nat>, r: nat)
    requires fewer + {r} <= more && r !in fewer
    ensures |fewer| < |more|
  {
    assert more == fewer + (more - fewer) && r in more - fewer;
  }

  /** The two stand one way round before and the other way round after. */
  predicate Inverted(pairs: Pairs, before: seq<Slot>, after: seq<Slot>, r: nat, q: nat)
    requires r < |pairs| && q < |pairs| && InRange(pairs, before, after)
  {
    var lists := Lists(pairs, before, after);
    || (Ahead(before, Firsts(pairs), lists, r, q) && Ahead(after, Seconds(pairs), lists, q, r))
    || (Ahead(before, Firsts(pairs), lists, q, r) && Ahead(after, Seconds(pairs), lists, r, q))
  }

  /** Of two cards of one list that changed their order, one has another rank. */
  lemma InvertedIsReranked(pairs: Pairs, before: seq<Slot>, after: seq<Slot>, r: nat, q: nat)
    requires r < |pairs| && q < |pairs| && InRange(pairs, before, after) && Inverted(pairs, before, after, r, q)
    ensures Reranked(pairs, before, after, r) || Reranked(pairs, before, after, q)
  {
    var lists := Lists(pairs, before, after);
    if Ahead(before, Firsts(pairs), lists, r, q) && Ahead(after, Seconds(pairs), lists, q, r) {
      AheadRanksLower(before, Firsts(pairs), lists, r, q);
      AheadRanksLower(after, Seconds(pairs), lists, q, r);
    } else {
      AheadRanksLower(before, Firsts(pairs), lists, q, r);
      AheadRanksLower(after, Seconds(pairs), lists, r, q);
    }
  }

  /** A card with another rank changed its order with some other of its list. */
  lemma RerankedIsInverted(pairs: Pairs, before: seq<Slot>, after: seq<Slot>, q: nat) returns (r: nat)
    requires q < |pairs| && InRange(pairs, before, after) && Reranked(pairs, before, after, q)
    ensures r < |pairs| && Inverted(pairs, before, after, r, q)
  {
    var lists := Lists(pairs, before, after);
    var was, now := AllAhead(before, Firsts(pairs), lists, q), AllAhead(after, Seconds(pairs), lists, q);
    RankIsAhead(before, Firsts(pairs), lists, q);
    RankIsAhead(after, Seconds(pairs), lists, q);
    assert was != now;
    r :| r in was + now && !(r in was && r in now);
  }

  /** Of two cards that stayed in one list and changed their order, one is reported moved. */
  lemma ReorderedIsReported(m: Matching, before: seq<Slot>, after: seq<Slot>, r: nat, q: nat)
    requires MovedAre(m, before, after) && InRange(m.inPlace, before, after) && r < |m.inPlace| && q < |m.inPlace|
    requires after[m.inPlace[r].1].place == after[m.inPlace[q].1].place
    requires before[m.inPlace[r].0].index < before[m.inPlace[q].0].index
    requires after[m.inPlace[q].1].index < after[m.inPlace[r].1].index
    ensures m.inPlace[r] in m.moved || m.inPlace[q] in m.moved
  {
    InvertedIsReranked(m.inPlace + m.edited, before, after, r, q);
    var k := if Reranked(m.inPlace + m.edited, before, after, r) then r else q;
    assert WasReranked(m.inPlace, m.edited, before, after, |m.inPlace|, m.inPlace[k]);
  }

  /** A card reported moved within its list changed its order with another that is still in it. */
  lemma ReportedIsReordered(m: Matching, before: seq<Slot>, after: seq<Slot>, p: (nat, nat)) returns (q: nat, r: nat)
    requires MovedAre(m, before, after) && p in m.moved && p !in m.displaced
    ensures q < |m.inPlace| && m.inPlace[q] == p && r < |m.inPlace + m.edited| && r != q
    ensures var other := (m.inPlace + m.edited)[r];
      && InRange(m.inPlace + m.edited, before, after) && after[other.1].place == after[p.1].place
      && if before[other.0].index < before[p.0].index then after[p.1].index <= after[other.1].index
         else before[p.0].index < before[other.0].index ==> after[other.1].index <= after[p.1].index
  {
    assert MovedInItsList(m, before, after, p);
    q :| 0 <= q < |m.inPlace| && m.inPlace[q] == p && Reranked(m.inPlace + m.edited, before, after, q);
    r := RerankedIsInverted(m.inPlace + m.edited, before, after, q);
  }

  // -- a deletion --------------------------------------------------------

  /** `after` is `before` without the slots not in `kept`; within a list the order stands. */
  ghost predicate Deletion(before: seq<Slot>, after: seq<Slot>, kept: seq<nat>) {
    && |kept| == |after|
    && (forall b :: 0 <= b < |kept| ==> kept[b] < |before|)
    && (forall b :: 0 <= b < |kept| ==>
          after[b].place == before[kept[b]].place && after[b].card == before[kept[b]].card)
    && (forall a, b :: 0 <= a < b < |kept| ==> kept[a] < kept[b])
    && Written(before) && Written(after)
  }

  /** Slots in the order they are written: within a list, by rising index. */
  predicate Written(slots: seq<Slot>) {
    forall a, b :: 0 <= a < b < |slots| && slots[a].place == slots[b].place ==> slots[a].index < slots[b].index
  }

  /** No list holds one card twice. Other lists may hold it too. */
  predicate DistinctInLists(slots: seq<Slot>) {
    forall a, b :: 0 <= a < b < |slots| && slots[a].place == slots[b].place ==> slots[a].card != slots[b].card
  }

  lemma {:induction false} ImageCount(kept: seq<nat>, s: set<nat>, into: set<nat>)
    requires forall b :: b in s ==> b < |kept| && kept[b] in into
    requires forall a, b :: 0 <= a < b < |kept| ==> kept[a] < kept[b]
    ensures |s| <= |into|
  {
    if s != {} {
      var b :| b in s;
      ImageCount(kept, s - {b}, into - {kept[b]});
    }
  }

  /** Whatever goes from any lists, whatever stands twice: every card left claims its own place. */
  lemma LeftClaimTheirPlaces(before: seq<Slot>, after: seq<Slot>, translate: Translation, kept: seq<nat>,
                             inPlace: Pairs)
    requires Deletion(before, after, kept) && StaysPut(before, translate)
    requires inPlace == Claimed(Order(before, translate), OldPlaceKeys(before, translate), NewPlaceKeys(after), {}, {})
    ensures forall j: nat :: j < |after| ==> j in News(inPlace)
  {
    forall j: nat | j < |after| ensures j in News(inPlace) {
      LeftClaimsItsPlace(before, after, translate, kept, inPlace, j);
    }
  }

  lemma LeftClaimsItsPlace(before: seq<Slot>, after: seq<Slot>, translate: Translation, kept: seq<nat>, inPlace: Pairs,
                           j: nat)
    requires Deletion(before, after, kept) && StaysPut(before, translate) && j < |after|
    requires inPlace == Claimed(Order(before, translate), OldPlaceKeys(before, translate), NewPlaceKeys(after), {}, {})
    ensures j in News(inPlace)
  {
    var olds, news := OldPlaceKeys(before, translate), NewPlaceKeys(after);
    ClaimedIsSound(Order(before, translate), olds, news, {}, {});
    OneSideOfAKey(Order(before, translate), olds, news, news[j], inPlace);
    KeptHave(before, after, translate, kept, news[j]);
    AllClaimed(inPlace, olds, news, news[j]);
    assert j in Having(news, news[j]);
  }

  lemma KeptHave(before: seq<Slot>, after: seq<Slot>, translate: Translation, kept: seq<nat>, key: (Place, Card))
    requires Deletion(before, after, kept) && StaysPut(before, translate)
    ensures |Having(NewPlaceKeys(after), key)| <= |Having(OldPlaceKeys(before, translate), key)|
  {
    ImageCount(kept, Having(NewPlaceKeys(after), key), Having(OldPlaceKeys(before, translate), key));
  }

  lemma AllClaimed<K>(pairs: Pairs, olds: seq<K>, news: seq<K>, key: K)
    requires Apart(pairs) && SameKeys(pairs, olds, news)
    requires Having(olds, key) <= Olds(pairs) || Having(news, key) <= News(pairs)
    requires |Having(news, key)| <= |Having(olds, key)|
    ensures Having(news, key) <= News(pairs)
  {
    LeftOver(pairs, olds, news, key);
    forall j | j in Having(news, key) ensures j in News(pairs) {
      assert j !in Having(news, key) - News(pairs);
    }
  }

  lemma OneSideOfAKey<K>(order: seq<nat>, olds: seq<K>, news: seq<K>, key: K, pairs: Pairs)
    requires Within(order, |olds|) && (forall i: nat :: i < |olds| ==> i in order)
    requires pairs == Claimed(order, olds, news, {}, {})
    ensures Having(olds, key) <= Olds(pairs) || Having(news, key) <= News(pairs)
  {
    if j :| j in Having(news, key) && j !in News(pairs) {
      forall i | i in Having(olds, key) ensures i in Olds(pairs) {
        ClaimedIsMaximal(order, olds, news, {}, {}, i, j);
      }
    }
  }

  /**
   * Deleting any cards is seen as exactly that - nothing is reported as moved,
   * added or edited - even where an identical card stands untouched in another
   * list, as long as no single list holds a card twice.
   */
  lemma DeletionIsSeenAsDeletion(m: Matching, before: seq<Slot>, after: seq<Slot>, translate: Translation,
                                 kept: seq<nat>)
    requires IsMatching(m, before, after, translate) && StaysPut(before, translate)
    requires Deletion(before, after, kept) && DistinctInLists(before)
    ensures m.added == [] && m.edited == [] && m.moved == []
    ensures forall i: nat :: i in m.removed <==> i < |before| && i !in kept
  {
    LeftClaimTheirPlaces(before, after, translate, kept, m.inPlace);
    EveryCardOnce(m, before, after, translate);
    NothingLeft(m, |after|);
    KeptAreInPlace(before, after, translate, kept, m.inPlace);
    PartInRange(m.inPlace, m.displaced + m.edited, before, after);
    KeptKeepTheirOrder(before, after, kept, m.inPlace);
    NothingMoved(m, before, after);
    assert m.All() == m.inPlace;
  }

  lemma KeptAreInPlace(before: seq<Slot>, after: seq<Slot>, translate: Translation, kept: seq<nat>, inPlace: Pairs)
    requires Deletion(before, after, kept) && StaysPut(before, translate) && DistinctInLists(before)
    requires inPlace == Claimed(Order(before, translate), OldPlaceKeys(before, translate), NewPlaceKeys(after), {}, {})
    requires forall j: nat :: j < |after| ==> j in News(inPlace)
    ensures forall p :: p in inPlace ==> p.1 < |kept| && p.0 == kept[p.1]
    ensures forall i: nat :: i in Olds(inPlace) <==> i in kept
  {
    var order, olds, news := Order(before, translate), OldPlaceKeys(before, translate), NewPlaceKeys(after);
    ClaimedIsSound(order, olds, news, {}, {});
    forall p | p in inPlace ensures p.1 < |kept| && p.0 == kept[p.1] {
      assert olds[p.0] == news[p.1];
      OnlyOneOfIt(before, p.0, kept[p.1]);
    }
    OldsAreKept(inPlace, kept, |after|);
  }

  lemma OnlyOneOfIt(slots: seq<Slot>, a: nat, b: nat)
    requires DistinctInLists(slots) && a < |slots| && b < |slots|
    requires slots[a].place == slots[b].place && slots[a].card == slots[b].card
    ensures a == b
  {
  }

  lemma OldsAreKept(pairs: Pairs, kept: seq<nat>, n: nat)
    requires n == |kept| && forall p :: p in pairs ==> p.1 < n && p.0 == kept[p.1]
    requires forall j: nat :: j < n ==> j in News(pairs)
    ensures forall i: nat :: i in Olds(pairs) <==> i in kept
  {
    forall i: nat | i in kept ensures i in Olds(pairs) {
      var b: nat :| b < |kept| && kept[b] == i;
      assert b in News(pairs);
      var p :| p in pairs && p.1 == b;
    }
  }

  lemma KeptKeepTheirOrder(before: seq<Slot>, after: seq<Slot>, kept: seq<nat>, pairs: Pairs)
    requires Deletion(before, after, kept) && InRange(pairs, before, after)
    requires forall p :: p in pairs ==> p.1 < |kept| && p.0 == kept[p.1]
    ensures SameOrder(pairs, before, after)
  {
    forall r, q | 0 <= r < |pairs| && 0 <= q < |pairs| && after[pairs[r].1].place == after[pairs[q].1].place
      ensures before[pairs[r].0].index < before[pairs[q].0].index <==> after[pairs[r].1].index < after[pairs[q].1].index
    {
      var a, b := pairs[r], pairs[q];
      assert a in pairs && b in pairs;
      assert a.1 < b.1 <==> kept[a.1] < kept[b.1];
    }
  }
}
