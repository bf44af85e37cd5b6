/**
 * Reading one dashboard's history: from the index, by walking, and page by page
 * while other saves land.
 */
module Paging {
  import opened Wrappers
  import opened Git
  import opened RevisionIndex

  /** One recorded state and the state of the same dashboard just before it. */
  datatype Change = Change(revision: Commit, previous: Option<Commit>)

  function First(revisions: seq<Commit>): Option<Commit> {
    if revisions == [] then None else Some(revisions[0])
  }

  /** The revisions a request asks for: all of them, or those older than the cursor. */
  function Asked(key: string, head: Option<Commit>, before: Option<Commit>): seq<Commit> {
    Changes(key, if before.None? then head else before.value.parent)
  }

  /** Each revision with its own predecessor, read off the history and not off the list. */
  function Listed(key: string, revisions: seq<Commit>): (changes: seq<Change>)
    ensures |changes| == |revisions|
  {
    seq(|revisions|, i requires 0 <= i < |revisions| =>
      Change(revisions[i], First(Changes(key, revisions[i].parent))))
  }

  /** Each revision with its neighbour in the list it stands in. */
  function Adjacent(revisions: seq<Commit>): seq<Change> {
    seq(|revisions|, i requires 0 <= i < |revisions| =>
      Change(revisions[i], if i + 1 < |revisions| then Some(revisions[i + 1]) else None))
  }

  function Take<T>(s: seq<T>, limit: Option<nat>): seq<T> {
    if limit.None? || |s| <= limit.value then s else s[..limit.value]
  }

  /** A change's own older history is the rest of any list it stands in. */
  lemma {:induction false} TailAfter(key: string, head: Option<Commit>, i: nat)
    requires i < |Changes(key, head)|
    ensures Changes(key, Changes(key, head)[i].parent) == Changes(key, head)[i + 1..]
    decreases head
  {
    var older := Changes(key, head.value.parent);
    if !Touches(head.value, key) {
      TailAfter(key, head.value.parent, i);
    } else if i > 0 {
      TailAfter(key, head.value.parent, i - 1);
      assert Changes(key, head)[i + 1..] == older[i..];
    }
  }

  /** In a list that is whole, the predecessor is simply the next entry. */
  lemma NextIsPrevious(key: string, head: Option<Commit>, i: nat)
    requires i < |Changes(key, head)|
    ensures First(Changes(key, Changes(key, head)[i].parent)) ==
      if i + 1 < |Changes(key, head)| then Some(Changes(key, head)[i + 1]) else None
  {
    TailAfter(key, head, i);
  }

  // -- from the index ----------------------------------------------------

  lemma FiledIs(index: Index, key: string)
    requires Indexes(index, Chain(Some(index.head)))
    ensures (if key in index.byKey then index.byKey[key] else []) == Changes(key, Some(index.head))
  {
    TouchingIsChanges(Some(index.head), key);
    assert Get(index.byKey, key) == Changes(key, Some(index.head));
  }

  /** None says the index cannot answer: the cursor is not in its walk. */
  method IndexedRevisions(index: Index, key: string, before: Option<Commit>) returns (r: Option<seq<Commit>>)
    requires Indexes(index, Chain(Some(index.head)))
    ensures r.None? <==> before.Some? && !Reaches(Some(index.head), before.value)
    ensures r.Some? ==> r.value == Asked(key, Some(index.head), before)
  {
    var revisions := if key in index.byKey then index.byKey[key] else [];
    FiledIs(index, key);
    if before.None? {
      return Some(revisions);
    }
    if before.value !in index.order {
      return None;
    }
    ghost var cut := CutAt(index.order, Some(index.head), key, before.value);
    var older := OrderedBehind(revisions, index.order, index.order[before.value], cut);
    return Some(older);
  }

  /** The revisions whose position lies behind the cursor's. */
  method OrderedBehind(revisions: seq<Commit>, order: map<Commit, nat>, at: nat, ghost cut: nat)
    returns (older: seq<Commit>)
    requires cut <= |revisions|
    requires forall i :: 0 <= i < |revisions| ==> revisions[i] in order && (order[revisions[i]] > at <==> i >= cut)
    ensures older == revisions[cut..]
  {
    older := [];
    for i := 0 to |revisions|
      invariant older == if i <= cut then [] else revisions[cut..i]
    {
      if order[revisions[i]] > at {
        older := older + [revisions[i]];
      }
    }
  }

  /** Where the cursor cuts the dashboard's list: newer entries on one side, older on the other. */
  lemma CutAt(order: map<Commit, nat>, head: Option<Commit>, key: string, cursor: Commit) returns (cut: nat)
    requires InOrder(order, Chain(head)) && Reaches(head, cursor)
    ensures var revisions := Changes(key, head);
      && cut <= |revisions| && revisions[cut..] == Changes(key, cursor.parent)
      && forall i :: 0 <= i < |revisions| ==>
           revisions[i] in order && (order[revisions[i]] > order[cursor] <==> i >= cut)
  {
    var walk := Chain(head);
    var at :| 0 <= at < |walk| && walk[at] == cursor;
    var newer, older := walk[..at + 1], walk[at + 1..];
    ChainFrom(head, at);
    assert walk[at..][1..] == older;
    assert walk == newer + older;
    TouchingAppend(newer, older, key);
    TouchingIsChanges(head, key);
    TouchingIsChanges(cursor.parent, key);
    TouchingIsPart(newer, key);
    TouchingIsPart(older, key);
    cut := |Touching(newer, key)|;
    assert Touching(walk, key)[cut..] == Touching(older, key);
    InHalves(order, walk, at, Touching(newer, key), Touching(older, key));
  }

  lemma InHalves(order: map<Commit, nat>, walk: seq<Commit>, at: nat, a: seq<Commit>, b: seq<Commit>)
    requires InOrder(order, walk) && at < |walk|
    requires forall c :: c in a ==> c in walk[..at + 1]
    requires forall c :: c in b ==> c in walk[at + 1..]
    ensures forall i :: 0 <= i < |a + b| ==> (a + b)[i] in order && (order[(a + b)[i]] > at <==> i >= |a|)
  {
    var newer, older := walk[..at + 1], walk[at + 1..];
    forall i | 0 <= i < |a + b|
      ensures (a + b)[i] in order && (order[(a + b)[i]] > at <==> i >= |a|)
    {
      if i < |a| {
        assert a[i] in a;
        var j :| 0 <= j < |newer| && newer[j] == a[i];
        assert walk[j] == a[i];
      } else {
        assert b[i - |a|] in b;
        var j :| 0 <= j < |older| && older[j] == b[i - |a|];
        assert walk[at + 1 + j] == b[i - |a|];
      }
    }
  }

  lemma {:induction false} TouchingIsPart(walk: seq<Commit>, key: string)
    ensures forall c :: c in Touching(walk, key) ==> c in walk
  {
    if walk != [] {
      TouchingIsPart(walk[1..], key);
    }
  }

  // -- the long way ------------------------------------------------------

  /**
   * The history walked from HEAD or from the cursor, filtered on the dashboard's
   * paths and cut one or two entries behind the limit; one entry is held back at
   * a time, because the next one is its predecessor.
   */
  method WalkedChanges(key: string, head: Option<Commit>, before: Option<Commit>, limit: Option<nat>)
    returns (found: seq<Change>)
    ensures Take(found, limit) == Take(Listed(key, Asked(key, head, before)), limit)
  {
    var reach := if limit.None? then None else Some(limit.value + if before.Some? then 2 else 1);
    var walk := Take(Changes(key, if before.Some? then before else head), reach);
    found := LookAhead(walk, before);
    ghost var skip := OwnEntry(walk, before);
    WalkReaches(key, head, before, limit, walk, skip);
    LookAheadIsEnough(key, head, before, limit, walk[skip..], found);
  }

  /** One where the walk starts with the cursor itself. */
  function OwnEntry(walk: seq<Commit>, before: Option<Commit>): (skip: nat)
    ensures skip <= |walk|
  {
    if before.Some? && walk != [] && walk[0] == before.value then 1 else 0
  }

  method LookAhead(walk: seq<Commit>, before: Option<Commit>) returns (found: seq<Change>)
    ensures found == Adjacent(walk[OwnEntry(walk, before)..])
  {
    ghost var skip := OwnEntry(walk, before);
    found := [];
    var held: Option<Commit>, first := None, true;
    for i := 0 to |walk|
      invariant first <==> i == 0
      invariant held == if i <= skip then None else Some(walk[i - 1])
      invariant |found| == if i <= skip then 0 else i - skip - 1
      invariant forall j :: 0 <= j < |found| ==> found[j] == Change(walk[skip + j], Some(walk[skip + j + 1]))
    {
      var entry := walk[i];
      if first {
        first := false;
        if before.Some? && entry == before.value {
          continue;
        }
      }
      if held.Some? {
        found := found + [Change(held.value, Some(entry))];
      }
      held := Some(entry);
    }
    if held.Some? {
      found := found + [Change(held.value, None)];
    }
  }

  /** Without the cursor's own entry, the walk is a prefix of what was asked, one longer than the limit. */
  lemma WalkReaches(key: string, head: Option<Commit>, before: Option<Commit>, limit: Option<nat>,
                    walk: seq<Commit>, skip: nat)
    requires walk == Take(Changes(key, if before.Some? then before else head),
      if limit.None? then None else Some(limit.value + if before.Some? then 2 else 1))
    requires skip == OwnEntry(walk, before)
    ensures walk[skip..] <= Asked(key, head, before)
    ensures walk[skip..] == Asked(key, head, before) || (limit.Some? && |walk[skip..]| > limit.value)
  {
  }

  lemma LookAheadIsEnough(key: string, head: Option<Commit>, before: Option<Commit>, limit: Option<nat>,
                          kept: seq<Commit>, found: seq<Change>)
    requires kept <= Asked(key, head, before)
    requires kept == Asked(key, head, before) || (limit.Some? && |kept| > limit.value)
    requires found == Adjacent(kept)
    ensures Take(found, limit) == Take(Listed(key, Asked(key, head, before)), limit)
  {
    var asked := Asked(key, head, before);
    var whole := Listed(key, asked);
    var start := if before.None? then head else before.value.parent;
    assert asked == Changes(key, start);
    forall j | 0 <= j < |kept| && (j + 1 < |kept| || kept == asked) ensures found[j] == whole[j] {
      assert kept[j] == asked[j] && (j + 1 < |kept| ==> kept[j + 1] == asked[j + 1]);
      NextIsPrevious(key, start, j);
      assert whole[j] == Change(asked[j], First(Changes(key, asked[j].parent)));
    }
    assert |Take(found, limit)| == |Take(whole, limit)|;
  }

  // -- `list_changes` ----------------------------------------------------

  /** The index where it can answer, the walk where it cannot: one and the same answer. */
  method ListChanges(index: Option<Index>, key: string, limit: Option<nat>, before: Option<Commit>)
    returns (changes: seq<Change>)
    requires index.Some? ==> Indexes(index.value, Chain(Some(index.value.head)))
    ensures var head := if index.None? then None else Some(index.value.head);
      changes == Take(Listed(key, Asked(key, head, before)), limit)
  {
    var head := if index.None? then None else Some(index.value.head);
    var revisions: Option<seq<Commit>> := None;
    if index.Some? {
      revisions := IndexedRevisions(index.value, key, before);
    }
    if revisions.Some? {
      changes := EachChange(key, head, before, revisions.value);
      return Take(changes, limit);
    }
    changes := WalkedChanges(key, head, before, limit);
    return Take(changes, limit);
  }

  /** Every revision with the one behind it in the list. */
  method EachChange(key: string, head: Option<Commit>, before: Option<Commit>, revisions: seq<Commit>)
    returns (changes: seq<Change>)
    requires revisions == Asked(key, head, before)
    ensures changes == Listed(key, revisions)
  {
    changes := [];
    for position := 0 to |revisions|
      invariant changes == Listed(key, revisions)[..position]
    {
      NextIsPrevious(key, if before.None? then head else before.value.parent, position);
      var following := if position + 1 < |revisions| then Some(revisions[position + 1]) else None;
      changes := changes + [Change(revisions[position], following)];
    }
  }

  /** The state of one dashboard just before one of its changes; None for a stranger's commit. */
  method PreviousChange(index: Option<Index>, key: string, revision: Commit) returns (previous: Option<Commit>)
    requires index.Some? ==> Indexes(index.value, Chain(Some(index.value.head)))
    ensures previous == if Touches(revision, key) then First(Changes(key, revision.parent)) else None
  {
    if index.Some? && revision in index.value.order {
      TouchingIsChanges(Some(index.value.head), key);
      assert Get(index.value.byKey, key) == Changes(key, Some(index.value.head));
      previous := StepAlong(Some(index.value.head), key, Get(index.value.byKey, key), revision);
    } else {
      previous := TwoEntries(key, revision);
    }
  }

  /** One step along the list the index holds. */
  method StepAlong(ghost head: Option<Commit>, key: string, revisions: seq<Commit>, revision: Commit)
    returns (previous: Option<Commit>)
    requires revisions == Changes(key, head) && Reaches(head, revision)
    ensures previous == if Touches(revision, key) then First(Changes(key, revision.parent)) else None
  {
    for at := 0 to |revisions|
      invariant revision !in revisions[..at]
    {
      if revisions[at] == revision {
        NextIsPrevious(key, head, at);
        return if at + 1 < |revisions| then Some(revisions[at + 1]) else None;
      }
    }
    NoChangeOfIts(head, key, revision);
    return None;
  }

  /** A walk of two entries from the revision itself, filtered on the dashboard's paths. */
  method TwoEntries(key: string, revision: Commit) returns (previous: Option<Commit>)
    ensures previous == if Touches(revision, key) then First(Changes(key, revision.parent)) else None
  {
    var found := Take(Changes(key, Some(revision)), Some(2));
    if |found| == 2 && found[0] == revision {
      return Some(found[1]);
    }
    NotItsOwnAncestor(key, revision);
    return None;
  }

  lemma {:induction false} NoChangeOfIts(head: Option<Commit>, key: string, c: Commit)
    requires Reaches(head, c) && c !in Changes(key, head)
    ensures !Touches(c, key)
    decreases head
  {
    if c != head.value {
      NoChangeOfIts(head.value.parent, key, c);
    }
  }

  lemma NotItsOwnAncestor(key: string, c: Commit)
    ensures c !in Changes(key, c.parent)
  {
    if c in Changes(key, c.parent) {
      var at :| 0 <= at < |Chain(c.parent)| && Chain(c.parent)[at] == c;
      ChainIsInjective(Some(c), 0, at + 1);
    }
  }

  // -- paging ------------------------------------------------------------

  datatype Page = Page(changes: seq<Change>, nextCursor: Option<Commit>)

  /** One entry more than asked for tells whether there is anything older. */
  method History(index: Option<Index>, key: string, limit: nat, before: Option<Commit>) returns (page: Page)
    requires index.Some? ==> Indexes(index.value, Chain(Some(index.value.head)))
    ensures page == PageOf(key, limit, if index.None? then None else Some(index.value.head), before)
  {
    var changes := ListChanges(index, key, Some(limit + 1), before);
    ghost var asked := Asked(key, if index.None? then None else Some(index.value.head), before);
    page := CutPage(changes, limit, key, asked);
  }

  method CutPage(changes: seq<Change>, limit: nat, ghost key: string, ghost asked: seq<Commit>) returns (page: Page)
    requires changes == Take(Listed(key, asked), Some(limit + 1))
    ensures page == PageFrom(key, limit, asked)
  {
    OneMoreTells(Listed(key, asked), limit);
    var more := |changes| > limit;
    var rendered := if more then changes[..limit] else changes;
    if more && rendered != [] {
      LastShown(key, limit, asked);
      page := Page(rendered, Some(rendered[|rendered| - 1].revision));
    } else {
      page := Page(rendered, None);
    }
  }

  lemma LastShown(key: string, limit: nat, asked: seq<Commit>)
    requires 0 < limit < |asked|
    ensures |Take(Listed(key, asked), Some(limit))| == limit
    ensures Take(Listed(key, asked), Some(limit))[limit - 1].revision == asked[limit - 1]
  {
  }

  lemma OneMoreTells<T>(whole: seq<T>, limit: nat)
    ensures var read := Take(whole, Some(limit + 1));
      && (|read| > limit <==> |whole| > limit)
      && (if |read| > limit then read[..limit] else read) == Take(whole, Some(limit))
  {
  }

  /** The page a request at one HEAD is answered with. */
  function PageOf(key: string, limit: nat, head: Option<Commit>, before: Option<Commit>): Page {
    PageFrom(key, limit, Asked(key, head, before))
  }

  function PageFrom(key: string, limit: nat, asked: seq<Commit>): Page {
    Page(Take(Listed(key, asked), Some(limit)), if |asked| > limit > 0 then Some(asked[limit - 1]) else None)
  }

  /** Following `next_cursor`, each request at whatever HEAD there is by then. */
  ghost function Followed(key: string, limit: nat, heads: nat -> Option<Commit>, at: nat,
                          before: Option<Commit>): seq<Change>
    requires limit >= 1
    decreases |Asked(key, heads(at), before)|
  {
    var page := PageOf(key, limit, heads(at), before);
    if page.nextCursor.None? then page.changes
    else
      TailAfter(key, if before.None? then heads(at) else before.value.parent, limit - 1);
      page.changes + Followed(key, limit, heads, at + 1, page.nextCursor)
  }

  /**
   * Whatever is saved between the requests, the pages put together are the
   * dashboard's history as of the first page: no gap, no repeat, and every
   * `previous` the true one.
   */
  lemma {:induction false} PagesAreExact(key: string, limit: nat, heads: nat -> Option<Commit>, at: nat,
                                         before: Option<Commit>)
    requires limit >= 1
    ensures Followed(key, limit, heads, at, before) == Listed(key, Asked(key, heads(at), before))
    decreases |Asked(key, heads(at), before)|
  {
    var asked := Asked(key, heads(at), before);
    if |asked| > limit {
      TailAfter(key, if before.None? then heads(at) else before.value.parent, limit - 1);
      PagesAreExact(key, limit, heads, at + 1, Some(asked[limit - 1]));
      assert Listed(key, asked) == Listed(key, asked)[..limit] + Listed(key, asked[limit..]);
    }
  }
}
