/**
 * Which commits touched which dashboard, taken at one HEAD: built by one walk
 * over the whole history, or carried forward by a walk over what is new.
 */
module RevisionIndex {
  import opened Wrappers
  import opened Git

  /** What one commit says about the dashboards it changed. */
  datatype Touched = Touched(keys: set<string>, names: set<string>, removedMeta: map<string, string>)

  datatype Index = Index(
    head: Commit, byKey: map<string, seq<Commit>>, order: map<Commit, nat>,
    names: set<string>, removedMeta: map<string, string>)

  /** The paths a commit changed, seen from both sides of the diff. */
  function ChangedPaths(c: Commit): set<Path> {
    set path | path in TreeOf(c.parent).Keys + c.tree.Keys && !SameAt(TreeOf(c.parent), c.tree, path)
  }

  function TouchedBy(c: Commit): (t: Touched)
    ensures forall key :: key in t.keys <==> Touches(c, key)
    ensures forall key :: key in t.names <==> !SameAt(TreeOf(c.parent), c.tree, State(key))
    ensures forall key :: key in t.removedMeta <==> Meta(key) in TreeOf(c.parent) && Meta(key) !in c.tree
  {
    var paths := ChangedPaths(c);
    var before := TreeOf(c.parent);
    assert forall key :: Touches(c, key) <==> State(key) in paths || Meta(key) in paths;
    Touched(
      set path | path in paths :: path.key,
      set path | path in paths && path.State? :: path.key,
      map key | key in (set path | path in paths && path.Meta? && path !in c.tree :: path.key) :: before[Meta(key)])
  }

  // -- what an index over a walk holds -----------------------------------

  function Touching(walk: seq<Commit>, key: string): seq<Commit> {
    if walk == [] then []
    else (if Touches(walk[0], key) then [walk[0]] else []) + Touching(walk[1..], key)
  }

  /** The blob the newest removal of a dashboard's metadata took away. */
  function NewestRemoval(walk: seq<Commit>, key: string): Option<string> {
    if walk == [] then None
    else
      var gone := TouchedBy(walk[0]).removedMeta;
      if key in gone then Some(gone[key]) else NewestRemoval(walk[1..], key)
  }

  ghost predicate FiledByKey(byKey: map<string, seq<Commit>>, walk: seq<Commit>) {
    && (forall key :: Get(byKey, key) == Touching(walk, key))
    && (forall key :: key in byKey ==> byKey[key] != [])
  }

  ghost predicate InOrder(order: map<Commit, nat>, walk: seq<Commit>) {
    && (forall c :: c in order <==> c in walk)
    && (forall i :: 0 <= i < |walk| ==> order[walk[i]] == i)
  }

  ghost predicate Named(names: set<string>, walk: seq<Commit>) {
    forall key :: key in names <==> exists c :: c in walk && key in TouchedBy(c).names
  }

  ghost predicate Removals(removedMeta: map<string, string>, walk: seq<Commit>) {
    forall key :: Lookup(removedMeta, key) == NewestRemoval(walk, key)
  }

  /** An index over a walk, newest first. */
  ghost predicate Indexes(index: Index, walk: seq<Commit>) {
    && FiledByKey(index.byKey, walk)
    && InOrder(index.order, walk)
    && Named(index.names, walk)
    && Removals(index.removedMeta, walk)
  }

  function Get(byKey: map<string, seq<Commit>>, key: string): seq<Commit> {
    if key in byKey then byKey[key] else []
  }

  function Lookup(m: map<string, string>, key: string): Option<string> {
    if key in m then Some(m[key]) else None
  }

  /** The index of a head is one value: two that hold it are equal. */
  lemma IndexIsUnique(one: Index, other: Index, walk: seq<Commit>)
    requires Indexes(one, walk) && Indexes(other, walk) && one.head == other.head
    ensures one == other
  {
    SameFiling(one.byKey, other.byKey, walk);
    assert one.order == other.order by {
      assert forall c :: c in walk ==> exists i :: 0 <= i < |walk| && walk[i] == c;
    }
    assert one.names == other.names;
    SameRemovals(one.removedMeta, other.removedMeta, walk);
  }

  lemma SameFiling(one: map<string, seq<Commit>>, other: map<string, seq<Commit>>, walk: seq<Commit>)
    requires FiledByKey(one, walk) && FiledByKey(other, walk)
    ensures one == other
  {
    forall key ensures key in one <==> key in other
      ensures key in one ==> one[key] == other[key]
    {
      assert Get(one, key) == Get(other, key);
    }
  }

  lemma SameRemovals(one: map<string, string>, other: map<string, string>, walk: seq<Commit>)
    requires Removals(one, walk) && Removals(other, walk)
    ensures one == other
  {
    forall key ensures key in one <==> key in other
      ensures key in one ==> one[key] == other[key]
    {
      assert Lookup(one, key) == Lookup(other, key);
    }
  }

  lemma TouchingStep(first: Commit, rest: seq<Commit>, key: string)
    ensures Touching([first] + rest, key) == (if Touches(first, key) then [first] else []) + Touching(rest, key)
  {
    assert ([first] + rest)[1..] == rest;
  }

  lemma {:induction false} TouchingAppend(a: seq<Commit>, b: seq<Commit>, key: string)
    ensures Touching(a + b, key) == Touching(a, key) + Touching(b, key)
  {
    if a == [] {
      assert a + b == b;
    } else {
      var rest := a[1..];
      TouchingAppend(rest, b, key);
      TouchingStep(a[0], rest + b, key);
      TouchingStep(a[0], rest, key);
      assert a == [a[0]] + rest && a + b == [a[0]] + (rest + b);
    }
  }

  lemma RestOfBoth(a: seq<Commit>, b: seq<Commit>)
    requires a != []
    ensures (a + b)[1..] == a[1..] + b && (a + b)[0] == a[0]
  {
  }

  lemma {:induction false} NewestRemovalAppend(a: seq<Commit>, b: seq<Commit>, key: string)
    ensures NewestRemoval(a + b, key) ==
      if NewestRemoval(a, key).Some? then NewestRemoval(a, key) else NewestRemoval(b, key)
  {
    if a == [] {
      assert a + b == b;
    } else {
      NewestRemovalAppend(a[1..], b, key);
      RestOfBoth(a, b);
    }
  }

  // -- an index over two walks, one after the other ------------------------

  lemma JoinFiling(a: seq<Commit>, b: seq<Commit>, newer: map<string, seq<Commit>>,
                   older: map<string, seq<Commit>>, joined: map<string, seq<Commit>>)
    requires FiledByKey(newer, a) && FiledByKey(older, b)
    requires forall key :: Get(joined, key) == Get(newer, key) + Get(older, key)
    requires joined.Keys == newer.Keys + older.Keys
    ensures FiledByKey(joined, a + b)
  {
    forall key ensures Get(joined, key) == Touching(a + b, key) {
      TouchingAppend(a, b, key);
    }
    forall key | key in joined ensures joined[key] != [] {
      assert joined[key] == Get(joined, key) == Get(newer, key) + Get(older, key);
    }
  }

  lemma JoinRemovals(a: seq<Commit>, b: seq<Commit>, newer: map<string, string>,
                     older: map<string, string>, joined: map<string, string>)
    requires Removals(newer, a) && Removals(older, b)
    requires forall key :: Lookup(joined, key) == if key in newer then Some(newer[key]) else Lookup(older, key)
    ensures Removals(joined, a + b)
  {
    forall key ensures Lookup(joined, key) == NewestRemoval(a + b, key) {
      NewestRemovalAppend(a, b, key);
      assert Lookup(newer, key) == NewestRemoval(a, key);
    }
  }

  lemma JoinOrder(a: seq<Commit>, b: seq<Commit>, newer: map<Commit, nat>, older: map<Commit, nat>,
                  joined: map<Commit, nat>)
    requires InOrder(newer, a) && InOrder(older, b)
    requires forall c :: c in joined <==> c in newer || c in older
    requires forall c :: c in newer ==> joined[c] == newer[c]
    requires forall c :: c in older ==> joined[c] == older[c] + |a|
    ensures InOrder(joined, a + b)
  {
    forall i | 0 <= i < |a + b| ensures joined[(a + b)[i]] == i {
      if i < |a| {
        assert a[i] in newer && newer[a[i]] == i;
      } else {
        assert b[i - |a|] in older && older[b[i - |a|]] == i - |a|;
      }
    }
  }

  // One more commit at the old end of a walk, field by field.

  lemma OneMoreFiled(walk: seq<Commit>, c: Commit, byKey: map<string, seq<Commit>>, longer: map<string, seq<Commit>>)
    requires FiledByKey(byKey, walk)
    requires forall key :: Get(longer, key) == Get(byKey, key) + (if Touches(c, key) then [c] else [])
    requires forall key :: key in longer <==> key in byKey || Touches(c, key)
    ensures FiledByKey(longer, walk + [c])
  {
    forall key ensures Get(longer, key) == Touching(walk + [c], key) {
      TouchingAppend(walk, [c], key);
      assert Touching([c], key) == if Touches(c, key) then [c] else [];
    }
    forall key | key in longer ensures longer[key] != [] {
      assert longer[key] == Get(longer, key);
    }
  }

  lemma OneMoreRemoval(walk: seq<Commit>, c: Commit, removed: map<string, string>, longer: map<string, string>)
    requires Removals(removed, walk)
    requires forall key :: (Lookup(longer, key) ==
      if key in removed then Some(removed[key]) else Lookup(TouchedBy(c).removedMeta, key))
    ensures Removals(longer, walk + [c])
  {
    forall key ensures Lookup(longer, key) == NewestRemoval(walk + [c], key) {
      NewestRemovalAppend(walk, [c], key);
      assert Lookup(removed, key) == NewestRemoval(walk, key);
      assert NewestRemoval([c], key) == Lookup(TouchedBy(c).removedMeta, key);
    }
  }

  lemma OneMoreInOrder(walk: seq<Commit>, c: Commit, order: map<Commit, nat>)
    requires InOrder(order, walk) && c !in walk
    ensures InOrder(order[c := |walk|], walk + [c])
  {
  }

  lemma OneMoreNamed(walk: seq<Commit>, c: Commit, names: set<string>)
    requires Named(names, walk)
    ensures Named(names + TouchedBy(c).names, walk + [c])
  {
    assert forall x :: x in walk + [c] <==> x in walk || x == c;
  }

  // -- filling the dictionaries ------------------------------------------

  /** `by_key.setdefault(key, []).append(revision)` for every key a commit touched. */
  method FileUnder(byKey: map<string, seq<Commit>>, keys: set<string>, c: Commit)
    returns (filed: map<string, seq<Commit>>)
    ensures forall key :: Get(filed, key) == Get(byKey, key) + (if key in keys then [c] else [])
    ensures filed.Keys == byKey.Keys + keys
  {
    filed := byKey;
    var todo := keys;
    while todo != {}
      invariant todo <= keys
      invariant forall key :: Get(filed, key) == Get(byKey, key) + (if key in keys - todo then [c] else [])
      invariant filed.Keys == byKey.Keys + (keys - todo)
    {
      var key :| key in todo;
      filed := filed[key := Get(filed, key) + [c]];
      todo := todo - {key};
    }
  }

  /** `removed_meta.setdefault(key, blob)`: what is known already is newer and stays. */
  method KeepNewest(known: map<string, string>, older: map<string, string>) returns (merged: map<string, string>)
    ensures forall key :: Lookup(merged, key) == if key in known then Some(known[key]) else Lookup(older, key)
  {
    merged := known;
    var todo := older.Keys;
    while todo != {}
      invariant todo <= older.Keys
      invariant forall key :: (Lookup(merged, key) ==
        if key in known then Some(known[key]) else if key in todo then None else Lookup(older, key))
    {
      var key :| key in todo;
      if key !in merged {
        merged := merged[key := older[key]];
      }
      todo := todo - {key};
    }
  }

  /** What both loops do with one more commit of a walk, the next older one. */
  method TakeIn(index: Index, ghost walk: seq<Commit>, position: nat, c: Commit) returns (longer: Index)
    requires Indexes(index, walk) && position == |walk| && c !in walk
    ensures Indexes(longer, walk + [c]) && longer.head == index.head
  {
    var touched := TouchedBy(c);
    var byKey := FileUnder(index.byKey, touched.keys, c);
    var removedMeta := KeepNewest(index.removedMeta, touched.removedMeta);
    OneMoreFiled(walk, c, index.byKey, byKey);
    OneMoreRemoval(walk, c, index.removedMeta, removedMeta);
    OneMoreInOrder(walk, c, index.order);
    OneMoreNamed(walk, c, index.names);
    longer := Index(index.head, byKey, index.order[c := position], index.names + touched.names, removedMeta);
  }

  /** Each commit once, as any walk hands them over. */
  ghost predicate Distinct(walk: seq<Commit>) {
    forall i, j :: 0 <= i < j < |walk| ==> walk[i] != walk[j]
  }

  lemma PrefixGrows(walk: seq<Commit>, position: nat)
    requires position < |walk| && Distinct(walk)
    ensures walk[..position + 1] == walk[..position] + [walk[position]] && walk[position] !in walk[..position]
  {
  }

  lemma NothingIndexed(head: Commit)
    ensures Indexes(Index(head, map[], map[], {}, map[]), [])
  {
  }

  /** One pass over a walk, newest first. */
  method IndexWalk(head: Commit, walk: seq<Commit>) returns (index: Index)
    requires Distinct(walk)
    ensures Indexes(index, walk) && index.head == head
  {
    index := Index(head, map[], map[], {}, map[]);
    NothingIndexed(head);
    assert walk[..0] == [];
    for position := 0 to |walk|
      invariant index.head == head && Indexes(index, walk[..position])
    {
      PrefixGrows(walk, position);
      index := TakeIn(index, walk[..position], position, walk[position]);
    }
    assert walk[..|walk|] == walk;
  }

  /** The index from nothing: one walk over the whole history. */
  method BuiltIndex(head: Commit) returns (index: Index)
    ensures Indexes(index, Chain(Some(head))) && index.head == head
  {
    ChainIsDistinct(Some(head));
    index := IndexWalk(head, Chain(Some(head)));
  }

  lemma ChainIsDistinct(head: Option<Commit>)
    ensures Distinct(Chain(head))
  {
    var walk := Chain(head);
    forall i, j | 0 <= i < j < |walk| ensures walk[i] != walk[j] {
      if walk[i] == walk[j] {
        ChainIsInjective(head, i, j);
      }
    }
  }

  // -- carrying an index forward -----------------------------------------

  /** `by_key[key] = revisions + by_key.get(key, [])` for every key that arrived. */
  method PutInFront(byKey: map<string, seq<Commit>>, arrived: map<string, seq<Commit>>)
    returns (joined: map<string, seq<Commit>>)
    ensures forall key :: Get(joined, key) == Get(arrived, key) + Get(byKey, key)
    ensures joined.Keys == arrived.Keys + byKey.Keys
  {
    joined := byKey;
    var todo := arrived.Keys;
    while todo != {}
      invariant todo <= arrived.Keys && JoinedBut(joined, byKey, arrived, todo)
    {
      var key :| key in todo;
      JoinOne(joined, byKey, arrived, todo, key);
      joined := joined[key := arrived[key] + Get(joined, key)];
      todo := todo - {key};
    }
  }

  ghost predicate JoinedBut(joined: map<string, seq<Commit>>, byKey: map<string, seq<Commit>>,
                            arrived: map<string, seq<Commit>>, todo: set<string>)
  {
    && (forall key :: Get(joined, key) == if key in todo then Get(byKey, key) else Get(arrived, key) + Get(byKey, key))
    && joined.Keys == byKey.Keys + (arrived.Keys - todo)
  }

  lemma JoinOne(joined: map<string, seq<Commit>>, byKey: map<string, seq<Commit>>,
                arrived: map<string, seq<Commit>>, todo: set<string>, key: string)
    requires todo <= arrived.Keys && key in todo && JoinedBut(joined, byKey, arrived, todo)
    ensures JoinedBut(joined[key := arrived[key] + Get(joined, key)], byKey, arrived, todo - {key})
  {
    var longer := joined[key := arrived[key] + Get(joined, key)];
    forall other ensures Get(longer, other) ==
      if other in todo - {key} then Get(byKey, other) else Get(arrived, other) + Get(byKey, other)
    {
      assert other != key ==> Get(longer, other) == Get(joined, other);
    }
  }

  /** The commits a walk brought, or None where one of them is known already. */
  method Gathered(order: map<Commit, nat>, walk: seq<Commit>) returns (ahead: Option<seq<Commit>>)
    ensures ahead.None? <==> exists c :: c in walk && c in order
    ensures ahead.Some? ==> ahead.value == walk
  {
    var found: seq<Commit> := [];
    for i := 0 to |walk|
      invariant found == walk[..i]
      invariant forall c :: c in found ==> c !in order
    {
      if walk[i] in order {
        return None;
      }
      found := found + [walk[i]];
    }
    return Some(found);
  }

  /** Everything indexed already slides back behind what arrived. */
  method InFront(arrived: Index, cached: Index, ghost ahead: seq<Commit>, ghost known: seq<Commit>, shift: nat)
    returns (joined: Index)
    requires Indexes(arrived, ahead) && Indexes(cached, known) && shift == |ahead|
    requires forall c :: c in ahead ==> c !in known
    ensures Indexes(joined, ahead + known) && joined.head == arrived.head
  {
    var order := (map c | c in cached.order :: cached.order[c] + shift) + arrived.order;
    JoinOrder(ahead, known, arrived.order, cached.order, order);
    var byKey := PutInFront(cached.byKey, arrived.byKey);
    JoinFiling(ahead, known, arrived.byKey, cached.byKey, byKey);
    var removedMeta := cached.removedMeta + arrived.removedMeta;
    JoinRemovals(ahead, known, arrived.removedMeta, cached.removedMeta, removedMeta);
    JoinNames(ahead, known, arrived.names, cached.names);
    joined := Index(arrived.head, byKey, order, cached.names + arrived.names, removedMeta);
  }

  lemma JoinNames(a: seq<Commit>, b: seq<Commit>, newer: set<string>, older: set<string>)
    requires Named(newer, a) && Named(older, b)
    ensures Named(older + newer, a + b)
  {
    assert forall x :: x in a + b <==> x in a || x in b;
  }

  /**
   * The cached index carried forward over a walk from `head` that leaves out what
   * the cached HEAD reaches; the walk is None where it met a commit that is gone.
   * None says it cannot be carried forward: no walk, nothing new, or a known commit.
   */
  method ExtendedIndex(cached: Index, head: Commit, walk: Option<seq<Commit>>, ghost known: seq<Commit>)
    returns (r: Option<Index>)
    requires walk.Some? ==> Distinct(walk.value)
    requires Indexes(cached, known)
    ensures r.None? <==> walk.None? || walk.value == [] || exists c :: c in walk.value && c in known
    ensures r.Some? ==> Indexes(r.value, walk.value + known) && r.value.head == head
  {
    if walk.None? {
      return None;
    }
    var ahead := Gathered(cached.order, walk.value);
    if ahead.None? || ahead.value == [] {
      return None;
    }
    var arrived := IndexWalk(head, ahead.value);
    var joined := InFront(arrived, cached, ahead.value, known, |ahead.value|);
    r := Some(joined);
  }

  // -- the store's cache -------------------------------------------------

  /** The commits of `head`'s history that are newer than `past`. */
  function NewerThan(head: Commit, past: Commit): seq<Commit>
    requires Reaches(Some(head), past)
    decreases head
  {
    if head == past then [] else [head] + NewerThan(head.parent.value, past)
  }

  lemma {:induction false} NewerThanFirst(head: Commit, past: Commit)
    requires Reaches(Some(head), past)
    ensures Chain(Some(head)) == NewerThan(head, past) + Chain(Some(past))
    decreases head
  {
    if head != past {
      NewerThanFirst(head.parent.value, past);
      assert Chain(Some(head)) == [head] + Chain(head.parent);
      assert NewerThan(head, past) == [head] + NewerThan(head.parent.value, past);
    }
  }

  lemma NewerThanSplits(head: Commit, past: Commit)
    requires Reaches(Some(head), past)
    ensures Chain(Some(head)) == NewerThan(head, past) + Chain(Some(past))
    ensures Distinct(NewerThan(head, past))
    ensures forall c :: c in NewerThan(head, past) ==> c !in Chain(Some(past))
  {
    NewerThanFirst(head, past);
    ChainIsDistinct(Some(head));
    DistinctParts(NewerThan(head, past), Chain(Some(past)));
  }

  lemma DistinctParts(newer: seq<Commit>, older: seq<Commit>)
    requires Distinct(newer + older)
    ensures Distinct(newer) && forall c :: c in newer ==> c !in older
  {
    var walk := newer + older;
    assert forall i :: 0 <= i < |newer| ==> newer[i] == walk[i];
    assert forall j :: 0 <= j < |older| ==> older[j] == walk[|newer| + j];
  }

  /**
   * What the walk between a cached HEAD and the new one comes to. Where the cached
   * HEAD is an ancestor it is what is new; where it is not, one of the three
   * reasons to build again. What a library walk does on a diverged branch is a premise.
   */
  ghost predicate WalkBetween(walk: Option<seq<Commit>>, past: Commit, head: Commit) {
    if Reaches(Some(head), past) then
      walk == Some(NewerThan(head, past))
    else
      walk.None? || walk.value == []
      || (Distinct(walk.value) && exists c :: c in walk.value && Reaches(Some(past), c))
  }

  class IndexCache {
    var index: Option<Index>

    ghost predicate Valid()
      reads this
    {
      index.Some? ==> Indexes(index.value, Chain(Some(index.value.head)))
    }

    constructor ()
      ensures Valid() && index == None
    {
      index := None;
    }

    /** The index at today's HEAD: the cached one, the cached one extended, or a new one. */
    method RevisionIndex(head: Option<Commit>, walk: Option<seq<Commit>>) returns (r: Option<Index>)
      requires Valid()
      requires index.Some? && head.Some? && index.value.head != head.value ==>
        WalkBetween(walk, index.value.head, head.value)
      modifies this
      ensures Valid()
      ensures r.Some? <==> head.Some?
      ensures r.Some? ==> r.value.head == head.value && Indexes(r.value, Chain(head)) && index == r
      ensures head.None? ==> index == old(index)
    {
      if head.None? {
        return None;
      }
      if index.Some? && index.value.head == head.value {
        return index;
      }
      r := None;
      if index.Some? {
        ghost var past := index.value.head;
        if Reaches(head, past) {
          NewerThanSplits(head.value, past);
        }
        r := ExtendedIndex(index.value, head.value, walk, Chain(Some(past)));
      }
      if r.None? {
        var built := BuiltIndex(head.value);
        r := Some(built);
      }
      index := r;
    }
  }

  /** Extended or built, it is the same index - newest deletion, order and all. */
  lemma ExtendedIsBuilt(extended: Index, built: Index, past: Commit, head: Commit)
    requires Reaches(Some(head), past)
    requires Indexes(extended, NewerThan(head, past) + Chain(Some(past))) && extended.head == head
    requires Indexes(built, Chain(Some(head))) && built.head == head
    ensures extended == built
  {
    NewerThanSplits(head, past);
    IndexIsUnique(extended, built, Chain(Some(head)));
  }

  /** What the index files under a key is the dashboard's own list of changes. */
  lemma {:induction false} TouchingIsChanges(head: Option<Commit>, key: string)
    ensures Touching(Chain(head), key) == Changes(key, head)
    decreases head
  {
    if head.Some? {
      TouchingIsChanges(head.value.parent, key);
    }
  }
}
