/** Deleting a whole view and putting it back. */
module ViewTrip {
  import opened Wrappers
  import opened Sequences
  import opened CardMatching
  import opened Dashboard
  import opened FindRemoved
  import opened PutBack

  predicate Pathless(view: View) {
    view.View? && (view.path.None? || view.path.value == "")
  }

  function ItemOfView(config: Config, u: nat): Item
    requires u < |config| && config[u].View?
  {
    ViewItem(config[u].path, Ordinal(config, u), Ordinal(config, u), config[u])
  }

  // -- offered -----------------------------------------------------------

  /** What is left has the key of the view that went only where a view without a path moved up onto its position. */
  lemma KeyIsGoneExactly(config: Config, u: nat)
    requires !PathsShare(config) && u < |config| && config[u].View?
    ensures Key(config, u) in Keys(Neighbours(config, u)) <==>
      Pathless(config[u]) && u + 1 < |config| && Pathless(config[u + 1])
  {
    var now := Neighbours(config, u);
    if Pathless(config[u]) && u + 1 < |config| && Pathless(config[u + 1]) {
      assert now[u] == config[u + 1] && Key(now, u) == Key(config, u);
    }
    forall w: nat | w < |now| && now[w].View? && Key(now, w) == Key(config, u)
      ensures Pathless(config[u]) && u + 1 < |config| && Pathless(config[u + 1])
    {
      var at := if w < u then w else w + 1;
      assert now[w] == config[at];
      if !Pathless(config[u]) {
        KeysApart(config, if at < u then at else u, if at < u then u else at);
        assert false;
      }
    }
  }

  lemma {:induction false} OrdinalGrows(config: Config, a: nat, b: nat)
    requires a < b <= |config| && config[a].View?
    ensures Ordinal(config, a) < Ordinal(config, b)
    decreases b
  {
    if a < b - 1 {
      OrdinalGrows(config, a, b - 1);
    }
  }

  /**
   * A view that went is offered exactly where its key is gone: a view without a path may
   * be taken for the one behind it.
   */
  lemma ViewOfferedExactly(c: Comparison, config: Config, u: nat)
    requires !PathsShare(config) && u < |config| && config[u].View? && Readable(c, config)
    ensures ItemOfView(config, u) in Items(c, config, Neighbours(config, u)) <==>
      !(Pathless(config[u]) && u + 1 < |config| && Pathless(config[u + 1]))
  {
    var now, item := Neighbours(config, u), ItemOfView(config, u);
    KeyIsGoneExactly(config, u);
    if Key(config, u) !in Keys(now) {
      assert item in ItemsByView(c, config, now)[u];
      ConcatHas(ItemsByView(c, config, now), u, item);
    }
    if item in Items(c, config, now) {
      var w := ItemsAreOf(c, config, now, item);
      ViewItemIsOf(c, config, now, w, item);
      if w < u {
        OrdinalGrows(config, w, u);
      } else if u < w {
        OrdinalGrows(config, u, w);
      }
    }
  }

  /** Only a view that is gone yields the item of a view, and it is its own. */
  lemma ViewItemIsOf(c: Comparison, config: Config, now: Config, w: nat, item: Item)
    requires Readable(c, config) && w < |config| && config[w].View? && item in ViewItems(c, config, now, w)
    requires item.ViewItem?
    ensures Key(config, w) !in Keys(now) && item == ItemOfView(config, w)
  {
    if Key(config, w) in Keys(now) {
      NoViewAmongCards(config[w], Ordinal(config, w), c.before, Gone(c, config, now, w),
                       Left(c, config, now, w), Away(c, config, w, true), |c.before|, item);
    }
  }

  lemma {:induction false} NoViewAmongCards(view: View, home: nat, slots: seq<Slot>, gone: set<nat>, left: set<Spot>,
                                            departed: set<Spot>, upto: nat, item: Item)
    requires view.View? && upto <= |slots| && item.ViewItem?
    ensures item !in CardItems(view, home, slots, gone, left, departed, upto)
  {
    if upto > 0 {
      NoViewAmongCards(view, home, slots, gone, left, departed, upto - 1, item);
    }
  }

  // -- back --------------------------------------------------------------

  /**
   * An entry taken out and put in further ahead leaves the row as it was exactly where
   * it passed nothing but its like.
   */
  lemma InPlaceExactly<T>(row: seq<T>, u: nat, at: nat)
    requires at <= u < |row|
    ensures InsertAt(Neighbours(row, u), at, row[u]) == row <==> forall k :: at <= k < u ==> row[k] == row[u]
  {
    var next := InsertAt(Neighbours(row, u), at, row[u]);
    assert |next| == |row|;
    forall i | 0 <= i < |row|
      ensures next[i] == if i < at then row[i] else if i == at then row[u] else if i <= u then row[i - 1] else row[i]
    {
    }
    if next == row {
      forall k | at <= k < u ensures row[k] == row[u] {
        AllAlong(row, next, at, u, k);
      }
    }
  }

  lemma {:induction false} AllAlong<T>(row: seq<T>, next: seq<T>, at: nat, u: nat, k: int)
    requires at <= k <= u < |row| && next == row && next[at] == row[u]
    requires forall i :: at < i <= u ==> next[i] == row[i - 1]
    ensures row[k] == row[u]
  {
    if k > at {
      AllAlong(row, next, at, u, k - 1);
    }
  }

  /**
   * Put back, a view goes to its position among the views: that is where it stood
   * exactly where no other entry stands between there and its old place.
   */
  lemma ViewBackExactly(config: Config, u: nat, next: Config)
    requires u < |config| && config[u].View? && IsPutBack(Neighbours(config, u), ItemOfView(config, u), next)
    ensures next == config <==> forall k :: Ordinal(config, u) <= k < u ==> config[k] == config[u]
  {
    OrdinalCounts(config, u);
    InPlaceExactly(config, u, Ordinal(config, u));
  }

  /**
   * A view with a path is offered, is not refused, and comes back to its place exactly
   * where every entry ahead of it is a view.
   */
  lemma NamedViewRoundTrips(c: Comparison, config: Config, u: nat)
    requires !PathsShare(config) && Readable(c, config) && u < |config| && config[u].View? && !Pathless(config[u])
    ensures ItemOfView(config, u) in Items(c, config, Neighbours(config, u))
    ensures CanPutBack(Neighbours(config, u), ItemOfView(config, u))
    ensures forall next :: IsPutBack(Neighbours(config, u), ItemOfView(config, u), next) ==>
      (next == config <==> forall k :: 0 <= k < u ==> config[k].View?)
  {
    ViewOfferedExactly(c, config, u);
    StillApart(config, u);
    OrdinalCounts(config, u);
    NoneLikeIt(config, u);
    forall next | IsPutBack(Neighbours(config, u), ItemOfView(config, u), next)
      ensures next == config <==> forall k :: 0 <= k < u ==> config[k].View?
    {
      ViewBackExactly(config, u, next);
    }
  }

  /** A view that went is offered, is not refused, and comes back to its place. */
  ghost predicate ComesBack(c: Comparison, config: Config, u: nat)
    requires Readable(c, config) && u < |config| && config[u].View?
  {
    var now, item := Neighbours(config, u), ItemOfView(config, u);
    && item in Items(c, config, now) && CanPutBack(now, item)
    && forall next :: IsPutBack(now, item, next) ==> next == config
  }

  /** None of the other entries compares equal to it. */
  predicate NoneAlike(config: Config, u: nat)
    requires u < |config|
  {
    forall k: nat :: k < |config| && k != u ==> !AlikeView(config[k], config[u])
  }

  /**
   * A view without a path comes back exactly where no view without one stands right
   * behind it and, if no path is written at all, where none is like it and every
   * entry ahead of it is a view; if the path is the empty text, where nothing but
   * its like stands between its position among the views and its own.
   */
  lemma PathlessViewComesBackExactly(c: Comparison, config: Config, u: nat)
    requires !PathsShare(config) && Readable(c, config) && u < |config| && Pathless(config[u])
    ensures ComesBack(c, config, u) <==>
      (&& !(u + 1 < |config| && Pathless(config[u + 1]))
       && if config[u].path.None? then NoneAlike(config, u) && forall k: nat :: k < u ==> config[k].View?
          else forall k: nat :: Ordinal(config, u) <= k < u ==> config[k] == config[u])
  {
    var now, item := Neighbours(config, u), ItemOfView(config, u);
    var next := InsertAt(now, Ordinal(config, u), config[u]);
    ViewOfferedExactly(c, config, u);
    StillApart(config, u);
    OrdinalCounts(config, u);
    AlikeOutside(config, u);
    InPlaceExactly(config, u, Ordinal(config, u));
    assert forall other :: IsPutBack(now, item, other) ==> other == next;
    assert CanPutBack(now, item) ==> IsPutBack(now, item, next);
    AlikeItself(config[u]);
  }

  lemma AlikeItself(view: View)
    ensures AlikeView(view, view)
  {
  }

  lemma AlikeOutside(config: Config, u: nat)
    requires u < |config|
    ensures NoneAlike(config, u) <==>
      forall k :: 0 <= k < |Neighbours(config, u)| ==> !AlikeView(Neighbours(config, u)[k], config[u])
  {
    var now := Neighbours(config, u);
    if NoneAlike(config, u) {
      forall k | 0 <= k < |now| ensures !AlikeView(now[k], config[u]) {
        NeighbourAt(config, u, k);
      }
    } else {
      var k: nat :| k < |config| && k != u && AlikeView(config[k], config[u]);
      NeighbourAt(config, u, if k < u then k else k - 1);
    }
  }

  lemma NoneLikeIt(config: Config, u: nat)
    requires !PathsShare(config) && u < |config| && config[u].View? && !Pathless(config[u])
    ensures forall k: nat :: k < u ==> config[k] != config[u]
  {
    forall k: nat | k < u ensures config[k] != config[u] {
      if config[k].View? {
        KeysApart(config, k, u);
        assert Key(config, u).ByPath?;
      }
    }
  }

  lemma StillApart(config: Config, u: nat)
    requires !PathsShare(config) && u < |config|
    ensures !PathsShare(Neighbours(config, u))
  {
    var now := Neighbours(config, u);
    forall a: nat, b: nat | a < b < |now| && now[a].View? && now[b].View? && now[a].path == now[b].path
        && now[a].path.Some?
      ensures now[a].path.value == ""
    {
      var i, j := if a < u then a else a + 1, if b < u then b else b + 1;
      assert now[a] == config[i] && now[b] == config[j];
    }
  }
}
