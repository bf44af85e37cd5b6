/**
 * What `forget` works out before it moves a single ref: the history without one
 * dashboard, and where every description and every version belongs in it.
 */
module Rewrite {
  import opened Wrappers
  import opened Git

  // -- the tree without one dashboard's two files ------------------------

  datatype Item = Item(key: string, text: string)

  /** A tree object's entries: `<key>.yaml` at the top, `meta/<key>.yaml` below. */
  datatype Entry = StateFile(item: Item) | MetaFolder(items: seq<Item>)

  function MetaFiles(items: seq<Item>): Files {
    if items == [] then map[]
    else var last := items[|items| - 1]; MetaFiles(items[..|items| - 1])[Meta(last.key) := last.text]
  }

  function FilesOf(entry: Entry): Files {
    match entry
    case StateFile(item) => map[State(item.key) := item.text]
    case MetaFolder(items) => MetaFiles(items)
  }

  function FilesIn(entries: seq<Entry>): Files {
    if entries == [] then map[]
    else FilesIn(entries[..|entries| - 1]) + FilesOf(entries[|entries| - 1])
  }

  function Without(files: Files, key: string): Files {
    files - {State(key), Meta(key)}
  }

  method MetaWithout(items: seq<Item>, key: string) returns (kept: seq<Item>)
    ensures MetaFiles(kept) == Without(MetaFiles(items), key)
    ensures (forall item :: item in items ==> item.key != key) ==> kept == items
    ensures forall item :: item in kept ==> item in items
  {
    kept := [];
    for i := 0 to |items|
      invariant MetaFiles(kept) == Without(MetaFiles(items[..i]), key)
      invariant (forall item :: item in items ==> item.key != key) ==> kept == items[..i]
      invariant forall item :: item in kept ==> item in items
    {
      NextItem(items, i, kept, key);
      if items[i].key != key {
        kept := kept + [items[i]];
      }
    }
    assert items[..|items|] == items;
  }

  lemma MetaFilesOneMore(items: seq<Item>, item: Item)
    ensures MetaFiles(items + [item]) == MetaFiles(items)[Meta(item.key) := item.text]
  {
    assert (items + [item])[..|items|] == items;
  }

  lemma WithoutOneMore(files: Files, item: Item, key: string)
    ensures item.key != key ==>
      Without(files[Meta(item.key) := item.text], key) == Without(files, key)[Meta(item.key) := item.text]
    ensures item.key == key ==> Without(files[Meta(item.key) := item.text], key) == Without(files, key)
  {
  }

  lemma NextItem(items: seq<Item>, i: nat, kept: seq<Item>, key: string)
    requires i < |items| && MetaFiles(kept) == Without(MetaFiles(items[..i]), key)
    ensures items[..i + 1] == items[..i] + [items[i]]
    ensures items[i].key != key ==> MetaFiles(kept + [items[i]]) == Without(MetaFiles(items[..i + 1]), key)
    ensures items[i].key == key ==> MetaFiles(kept) == Without(MetaFiles(items[..i + 1]), key)
  {
    assert items[..i + 1] == items[..i] + [items[i]];
    MetaFilesOneMore(items[..i], items[i]);
    MetaFilesOneMore(kept, items[i]);
    WithoutOneMore(MetaFiles(items[..i]), items[i], key);
  }

  /** One entry as the rebuilt tree takes it over, or None where nothing of it stays. */
  method EntryWithout(entry: Entry, key: string) returns (kept: Option<Entry>)
    ensures kept.Some? ==> FilesOf(kept.value) == Without(FilesOf(entry), key)
    ensures kept.None? ==> Without(FilesOf(entry), key) == map[] && entry != MetaFolder([])
    ensures kept == Some(MetaFolder([])) ==> entry == MetaFolder([])
  {
    if entry.StateFile? && entry.item.key == key {
      return None;
    }
    if entry.MetaFolder? {
      if exists item :: item in entry.items && item.key == key {
        var keptMeta := MetaWithout(entry.items, key);
        return if keptMeta == [] then None else Some(MetaFolder(keptMeta));
      }
      NotInFolder(entry.items, key);
    }
    return Some(entry);
  }

  function FilesOfKept(kept: Option<Entry>): Files {
    if kept.None? then map[] else FilesOf(kept.value)
  }

  function AndKept(entries: seq<Entry>, kept: Option<Entry>): seq<Entry> {
    if kept.None? then entries else entries + [kept.value]
  }

  /** The first `i` entries taken over, without the dashboard's files. */
  ghost predicate Rebuilt(entries: seq<Entry>, i: nat, rebuilt: seq<Entry>, changed: bool, key: string)
    requires i <= |entries|
  {
    && FilesIn(rebuilt) == Without(FilesIn(entries[..i]), key)
    && (!changed ==> rebuilt == entries[..i])
    && (MetaFolder([]) in rebuilt ==> MetaFolder([]) in entries)
  }

  /** `changed` false is the source's early return of the very same tree id. */
  method TreeWithout(entries: seq<Entry>, key: string) returns (rebuilt: seq<Entry>, changed: bool)
    ensures FilesIn(rebuilt) == Without(FilesIn(entries), key)
    ensures !changed ==> rebuilt == entries
    ensures MetaFolder([]) in rebuilt ==> MetaFolder([]) in entries
  {
    rebuilt, changed := [], false;
    NoEntry(entries, key);
    for i := 0 to |entries|
      invariant Rebuilt(entries, i, rebuilt, changed, key)
    {
      var kept := EntryWithout(entries[i], key);
      OneMoreRebuilt(entries, i, rebuilt, changed, kept, key);
      changed := changed || kept != Some(entries[i]);
      rebuilt := AndKept(rebuilt, kept);
    }
    AllRebuilt(entries, rebuilt, changed, key);
  }

  lemma NoEntry(entries: seq<Entry>, key: string)
    ensures Rebuilt(entries, 0, [], false, key)
  {
    assert entries[..0] == [];
  }

  lemma AllRebuilt(entries: seq<Entry>, rebuilt: seq<Entry>, changed: bool, key: string)
    requires Rebuilt(entries, |entries|, rebuilt, changed, key)
    ensures FilesIn(rebuilt) == Without(FilesIn(entries), key)
    ensures !changed ==> rebuilt == entries
    ensures MetaFolder([]) in rebuilt ==> MetaFolder([]) in entries
  {
    assert entries[..|entries|] == entries;
  }

  lemma OneMoreRebuilt(entries: seq<Entry>, i: nat, rebuilt: seq<Entry>, changed: bool, kept: Option<Entry>,
                       key: string)
    requires i < |entries| && Rebuilt(entries, i, rebuilt, changed, key)
    requires FilesOfKept(kept) == Without(FilesOf(entries[i]), key)
    requires kept == Some(MetaFolder([])) ==> entries[i] == MetaFolder([])
    ensures Rebuilt(entries, i + 1, AndKept(rebuilt, kept), changed || kept != Some(entries[i]), key)
  {
    NextEntry(entries, i, rebuilt, kept, key);
    assert entries[..i + 1] == entries[..i] + [entries[i]];
  }

  lemma NextEntry(entries: seq<Entry>, i: nat, rebuilt: seq<Entry>, kept: Option<Entry>, key: string)
    requires i < |entries|
    requires FilesIn(rebuilt) == Without(FilesIn(entries[..i]), key)
    requires FilesOfKept(kept) == Without(FilesOf(entries[i]), key)
    ensures FilesIn(AndKept(rebuilt, kept)) == Without(FilesIn(entries[..i + 1]), key)
  {
    assert entries[..i + 1] == entries[..i] + [entries[i]];
    FilesInAppend(entries[..i], entries[i]);
    WithoutUnion(FilesIn(entries[..i]), FilesOf(entries[i]), key);
    if kept.Some? {
      FilesInAppend(rebuilt, kept.value);
    } else {
      assert FilesIn(rebuilt) + map[] == FilesIn(rebuilt);
    }
  }

  lemma FilesInAppend(entries: seq<Entry>, e: Entry)
    ensures FilesIn(entries + [e]) == FilesIn(entries) + FilesOf(e)
  {
    assert (entries + [e])[..|entries|] == entries;
  }

  lemma WithoutUnion(a: Files, b: Files, key: string)
    ensures Without(a + b, key) == Without(a, key) + Without(b, key)
  {
  }

  lemma {:induction false} NotInFolder(items: seq<Item>, key: string)
    requires forall item :: item in items ==> item.key != key
    ensures State(key) !in MetaFiles(items) && Meta(key) !in MetaFiles(items)
  {
    if items != [] {
      NotInFolder(items[..|items| - 1], key);
    }
  }

  // -- the history without one dashboard ---------------------------------

  /**
   * The surviving commit that stands in a commit's place: a copy of itself, or
   * the nearest surviving ancestor where nothing is left in it, or none.
   */
  function Nearest(c: Option<Commit>, key: string): (r: Option<Commit>)
    ensures TreeOf(r) == Without(TreeOf(c), key)
    decreases c
  {
    if c.None? then None
    else
      var parent := Nearest(c.value.parent, key);
      var tree := Without(c.value.tree, key);
      if TreeOf(parent) == tree then parent else Some(Commit(tree, parent, c.value.info))
  }

  /** Whether a commit survives as itself. */
  predicate Survives(c: Commit, key: string) {
    Without(TreeOf(c.parent), key) != Without(c.tree, key)
  }

  function Rewritten(c: Commit, key: string): (copy: Commit)
    requires Survives(c, key)
    ensures Nearest(Some(c), key) == Some(copy)
    ensures copy.info == c.info && copy.tree == Without(c.tree, key)
  {
    Commit(Without(c.tree, key), Nearest(c.parent, key), c.info)
  }

  /** The commits of a walk that survive, as what they are rewritten to. */
  function Survivors(walk: seq<Commit>, key: string): seq<Commit> {
    if walk == [] then []
    else (if Survives(walk[0], key) then [Rewritten(walk[0], key)] else []) + Survivors(walk[1..], key)
  }

  /** The rewritten history is the old one, survivor by survivor, in order. */
  lemma {:induction false} RewrittenChain(head: Option<Commit>, key: string)
    ensures Chain(Nearest(head, key)) == Survivors(Chain(head), key)
    decreases head
  {
    if head.Some? {
      RewrittenChain(head.value.parent, key);
    }
  }

  /** Forgotten for good: no commit still reachable holds either file. */
  lemma {:induction false} NothingLeftBehind(head: Option<Commit>, key: string)
    ensures forall c :: c in Chain(Nearest(head, key)) ==>
      State(key) !in c.tree && Meta(key) !in c.tree && !Touches(c, key)
    decreases head
  {
    if head.Some? {
      NothingLeftBehind(head.value.parent, key);
    }
  }

  /** Two commits of one history never collapse into one survivor. */
  lemma {:induction false} SurvivorsStayApart(head: Option<Commit>, a: Commit, b: Commit, key: string)
    requires a in Chain(head) && b in Chain(head)
    requires Survives(a, key) && Survives(b, key)
    requires Rewritten(a, key) == Rewritten(b, key)
    ensures a == b
    decreases head
  {
    var c := head.value;
    if a != c && b != c {
      SurvivorsStayApart(c.parent, a, b, key);
    } else if a != b {
      var older := if a == c then b else a;
      SurvivorIsOlder(c.parent, older, key);
      Longer(Nearest(c.parent, key), Rewritten(older, key));
    }
  }

  lemma {:induction false} SurvivorIsOlder(head: Option<Commit>, c: Commit, key: string)
    requires c in Chain(head) && Survives(c, key)
    ensures Rewritten(c, key) in Chain(Nearest(head, key))
    decreases head
  {
    if c != head.value {
      SurvivorIsOlder(head.value.parent, c, key);
    }
  }

  /** A commit is never its own proper ancestor. */
  lemma {:induction false} Longer(head: Option<Commit>, c: Commit)
    requires c in Chain(head)
    ensures c.parent != head
    decreases head
  {
    var at :| 0 <= at < |Chain(head)| && Chain(head)[at] == c;
    ChainFrom(head, at);
    assert |Chain(Some(c))| == 1 + |Chain(c.parent)|;
  }

  // -- what everyone else sees -------------------------------------------

  /** Everything a history row shows of one change, but for its revision. */
  datatype Row = Row(state: Option<string>, meta: Option<string>, time: int, message: string, description: string)

  type Notes = map<Commit, string>

  function At(files: Files, path: Path): Option<string> {
    if path in files then Some(files[path]) else None
  }

  function RowOf(c: Commit, key: string, notes: Notes): Row {
    Row(At(c.tree, State(key)), At(c.tree, Meta(key)), c.info.time, c.info.message,
        if c in notes then notes[c] else "")
  }

  function Rows(revisions: seq<Commit>, key: string, notes: Notes): seq<Row> {
    if revisions == [] then [] else [RowOf(revisions[0], key, notes)] + Rows(revisions[1..], key, notes)
  }

  function Note(notes: Notes, c: Commit): Option<string> {
    if c in notes then Some(notes[c]) else None
  }

  /** Each description on the survivor of the commit it described, and no other. */
  ghost predicate NotesFollow(head: Option<Commit>, key: string, notes: Notes, moved: Notes) {
    && (forall c :: c in Chain(head) && Survives(c, key) ==>
          Note(moved, Rewritten(c, key)) == Note(notes, c))
    && (forall m :: m in moved ==> exists c :: c in Chain(head) && Survives(c, key) && Rewritten(c, key) == m)
  }

  /**
   * Forget commutes with everyone else's history: another dashboard's revisions
   * are the rewritten ones, one for one, and every row of it reads as before.
   */
  lemma {:induction false} OthersKeepTheirHistory(head: Option<Commit>, key: string, other: string)
    requires other != key
    ensures forall c :: c in Changes(other, head) ==> Survives(c, key)
    ensures Changes(other, Nearest(head, key)) == Survivors(Changes(other, head), key)
    decreases head
  {
    if head.Some? {
      OthersKeepTheirHistory(head.value.parent, key, other);
      SameElsewhere(TreeOf(head.value.parent), head.value.tree, key, other);
      if Survives(head.value, key) {
        var copy := Rewritten(head.value, key);
        assert Touches(copy, other) == Touches(head.value, other);
      }
    }
  }

  lemma SameElsewhere(a: Files, b: Files, key: string, other: string)
    requires other != key
    ensures SameAt(Without(a, key), Without(b, key), State(other)) == SameAt(a, b, State(other))
    ensures SameAt(Without(a, key), Without(b, key), Meta(other)) == SameAt(a, b, Meta(other))
    ensures Without(a, key) == Without(b, key) ==> SameAt(a, b, State(other)) && SameAt(a, b, Meta(other))
  {
    if Without(a, key) == Without(b, key) {
      assert SameAt(Without(a, key), Without(b, key), State(other));
      assert SameAt(Without(a, key), Without(b, key), Meta(other));
    }
  }

  /** And with the descriptions moved along, every row of it reads as before. */
  lemma {:induction false} OthersReadTheSame(
      head: Option<Commit>, key: string, other: string, notes: Notes, moved: Notes)
    requires other != key
    requires NotesFollow(head, key, notes, moved)
    ensures Rows(Changes(other, Nearest(head, key)), other, moved) == Rows(Changes(other, head), other, notes)
  {
    OthersKeepTheirHistory(head, key, other);
    SameRows(head, Changes(other, head), key, other, notes, moved);
  }

  lemma SameRow(c: Commit, key: string, other: string, notes: Notes, moved: Notes)
    requires other != key && Survives(c, key)
    requires Note(moved, Rewritten(c, key)) == Note(notes, c)
    ensures RowOf(Rewritten(c, key), other, moved) == RowOf(c, other, notes)
  {
  }

  lemma {:induction false} SameRows(
      head: Option<Commit>, revisions: seq<Commit>, key: string, other: string, notes: Notes, moved: Notes)
    requires other != key
    requires NotesFollow(head, key, notes, moved)
    requires forall c :: c in revisions ==> c in Chain(head) && Survives(c, key)
    ensures Rows(Survivors(revisions, key), other, moved) == Rows(revisions, other, notes)
  {
    if revisions != [] {
      var c := revisions[0];
      SameRows(head, revisions[1..], key, other, notes, moved);
      SameRow(c, key, other, notes, moved);
      assert Survivors(revisions, key)[1..] == Survivors(revisions[1..], key);
    }
  }

  // -- HEAD can come back ------------------------------------------------

  /** Whether a history never held a dashboard and has no commit without a change. */
  predicate Untouched(head: Option<Commit>, key: string) {
    forall c :: c in Chain(head) ==> State(key) !in c.tree && Meta(key) !in c.tree && TreeOf(c.parent) != c.tree
  }

  /** A rewrite leaves a history as it is exactly when there is nothing in it to take out. */
  lemma {:induction false} RebuiltIdentically(head: Option<Commit>, key: string)
    ensures Nearest(head, key) == head <==> Untouched(head, key)
    decreases head
  {
    if head.Some? {
      RebuiltIdentically(head.value.parent, key);
      NearestIsNotLonger(head.value.parent, key);
      assert Survives(head.value, key) || |Chain(Nearest(head, key))| < |Chain(head)|;
      WithoutNothing(head.value.tree, key);
      WithoutNothing(TreeOf(head.value.parent), key);
      assert Untouched(head, key) ==> Untouched(head.value.parent, key);
    }
  }

  lemma WithoutNothing(files: Files, key: string)
    ensures Without(files, key) == files <==> State(key) !in files && Meta(key) !in files
  {
    assert State(key) !in Without(files, key) && Meta(key) !in Without(files, key);
  }

  lemma {:induction false} NearestIsNotLonger(head: Option<Commit>, key: string)
    ensures |Chain(Nearest(head, key))| <= |Chain(head)|
    decreases head
  {
    if head.Some? {
      NearestIsNotLonger(head.value.parent, key);
    }
  }

  /** Whether the history ever held a dashboard, as the index's names count it. */
  predicate EverHeld(head: Option<Commit>, key: string) {
    exists c :: c in Chain(head) && !SameAt(TreeOf(c.parent), c.tree, State(key))
  }

  /** That is: some commit of it holds the dashboard's state. */
  lemma {:induction false} EverHeldExactly(head: Option<Commit>, key: string)
    ensures EverHeld(head, key) <==> exists c :: c in Chain(head) && State(key) in c.tree
    decreases head
  {
    if head.Some? {
      EverHeldExactly(head.value.parent, key);
      EverHeldNow(head.value, key);
    }
  }

  lemma EverHeldNow(c: Commit, key: string)
    requires EverHeld(c.parent, key) <==> exists d :: d in Chain(c.parent) && State(key) in d.tree
    ensures EverHeld(Some(c), key) <==> exists d :: d in Chain(Some(c)) && State(key) in d.tree
  {
    assert Chain(Some(c)) == [c] + Chain(c.parent);
    if !SameAt(TreeOf(c.parent), c.tree, State(key)) && State(key) !in c.tree {
      assert Chain(c.parent)[0] == c.parent.value;
    } else if State(key) in c.tree && SameAt(TreeOf(c.parent), c.tree, State(key)) {
      assert Chain(c.parent)[0] == c.parent.value;
    }
    if EverHeld(c.parent, key) {
      var d :| d in Chain(c.parent) && !SameAt(TreeOf(d.parent), d.tree, State(key));
      assert d in Chain(Some(c));
    }
  }

  /** A forget that is not refused always moves HEAD. */
  lemma ForgetMovesHead(head: Option<Commit>, key: string)
    requires EverHeld(head, key)
    ensures Nearest(head, key) != head
  {
    var c :| c in Chain(head) && !SameAt(TreeOf(c.parent), c.tree, State(key));
    RebuiltIdentically(head, key);
    if State(key) !in c.tree {
      ReachesOlder(head, c);
      assert c.parent.value in Chain(Some(c)) by { assert Chain(Some(c))[1] == c.parent.value; }
    }
  }

  /** What a rewrite leaves has nothing left in it to take out. */
  lemma {:induction false} NearestIsUntouched(head: Option<Commit>, key: string)
    ensures Untouched(Nearest(head, key), key)
    decreases head
  {
    if head.Some? {
      NearestIsUntouched(head.value.parent, key);
      if Survives(head.value, key) {
        UntouchedGrows(Rewritten(head.value, key), key);
      }
    }
  }

  lemma UntouchedGrows(c: Commit, key: string)
    requires Untouched(c.parent, key)
    requires State(key) !in c.tree && Meta(key) !in c.tree && TreeOf(c.parent) != c.tree
    ensures Untouched(Some(c), key)
  {
    assert Chain(Some(c)) == [c] + Chain(c.parent);
  }

  /** Nothing but what came after an earlier commit, and none of that survives. */
  predicate NothingSurvivesSince(head: Option<Commit>, earlier: Option<Commit>, key: string) {
    forall c :: c in Chain(head) && c !in Chain(earlier) ==> !Survives(c, key)
  }

  /** A survivor never stands in for itself among its own ancestors. */
  lemma SurvivorIsNew(c: Commit, earlier: Commit, key: string)
    requires Survives(c, key) && earlier in Chain(c.parent)
    ensures Rewritten(c, key) != earlier
  {
    if Rewritten(c, key) == earlier {
      NearestIsUntouched(Some(c), key);
      RebuiltIdentically(Some(earlier), key);
      StandInIsReachable(c.parent, earlier, key);
      assert earlier in Chain(Some(earlier));
      Longer(Nearest(c.parent, key), earlier);
    }
  }

  lemma NewerIsNot(c: Commit, earlier: Option<Commit>)
    requires earlier.None? || earlier.value in Chain(c.parent)
    ensures c !in Chain(earlier)
  {
    if c in Chain(earlier) {
      ReachesOlder(c.parent, earlier.value);
      Longer(c.parent, c);
    }
  }

  /**
   * A forget takes HEAD back to an earlier commit exactly where that commit's history
   * has nothing in it to take out and of all that came after it nothing survives.
   */
  lemma {:induction false} HeadComesBackExactly(head: Option<Commit>, earlier: Option<Commit>, key: string)
    requires earlier.None? || earlier.value in Chain(head)
    ensures Nearest(head, key) == earlier <==> Untouched(earlier, key) && NothingSurvivesSince(head, earlier, key)
    decreases head
  {
    if head == earlier {
      RebuiltIdentically(head, key);
    } else {
      var c := head.value;
      HeadComesBackExactly(c.parent, earlier, key);
      NewerIsNot(c, earlier);
      assert c in Chain(head);
      if Survives(c, key) {
        if earlier.Some? {
          SurvivorIsNew(c, earlier.value, key);
        }
        assert !NothingSurvivesSince(head, earlier, key);
      } else {
        assert NothingSurvivesSince(head, earlier, key) <==> NothingSurvivesSince(c.parent, earlier, key);
      }
    }
  }

  /** Save a new dashboard, then forget it: HEAD is the very commit it was before the save. */
  lemma HeadReturns(head: Option<Commit>, key: string, text: string, info: Info)
    requires Untouched(head, key)
    ensures var saved := Commit(TreeOf(head)[State(key) := text], head, info);
      Nearest(Some(saved), key) == head != Some(saved)
  {
    var saved := Commit(TreeOf(head)[State(key) := text], head, info);
    assert Chain(Some(saved)) == [saved] + Chain(head);
    WithoutNothing(TreeOf(head), key);
    assert Without(saved.tree, key) == Without(TreeOf(head), key);
    if head.Some? {
      assert head.value in Chain(Some(saved));
    }
    HeadComesBackExactly(Some(saved), head, key);
    assert |Chain(Some(saved))| == 1 + |Chain(head)|;
  }

  // -- named versions ----------------------------------------------------

  /** A tag with a message of its own, or a bare ref on a commit. */
  datatype Tag = Annotated(words: string, made: int, target: Commit) | Lightweight(target: Commit)

  /** Whether a tag is one of this dashboard's versions: `<key>/` and one segment more. */
  predicate Owns(ref: string, key: string) {
    key + "/" <= ref && '/' !in ref[|key| + 1..]
  }

  /** That is: the key, a slash, and a name without one. */
  lemma OwnsExactly(ref: string, key: string)
    ensures Owns(ref, key) <==> exists name: string :: '/' !in name && ref == key + "/" + name
  {
    if Owns(ref, key) {
      var name := ref[|key| + 1..];
      assert ref == key + "/" + name;
    }
    if name: string :| '/' !in name && ref == key + "/" + name {
      assert ref[|key| + 1..] == name;
    }
  }

  /** A tag belongs to at most one dashboard, whatever slashes a key may hold. */
  lemma OneOwner(ref: string, one: string, other: string)
    requires Owns(ref, one) && Owns(ref, other)
    ensures one == other
  {
    assert ref[|one|] == '/' && ref[|other|] == '/';
    assert one == ref[..|one|] && other == ref[..|other|];
  }

  /** Where one tag goes: None where it is deleted. */
  function PlannedTag(ref: string, tag: Tag, head: Option<Commit>, key: string): (r: Option<Tag>)
    ensures r.Some? ==> r.value.(target := tag.target) == tag
    ensures r.Some? ==> forall path: Path :: path.key != key ==> SameAt(r.value.target.tree, tag.target.tree, path)
    ensures r.None? && !Owns(ref, key) && tag.target in Chain(head) ==> Without(tag.target.tree, key) == map[]
  {
    if Owns(ref, key) || tag.target !in Chain(head) then None
    else
      var moved := Nearest(Some(tag.target), key);
      if moved.None? then None
      else
        assert forall path: Path :: path.key != key ==>
          SameAt(Without(tag.target.tree, key), tag.target.tree, path);
        Some(tag.(target := moved.value))
  }

  /** A commit's place in the rewritten history is on the rewritten history. */
  lemma {:induction false} StandInIsReachable(head: Option<Commit>, c: Commit, key: string)
    requires c in Chain(head)
    ensures forall x :: x in Chain(Nearest(Some(c), key)) ==> x in Chain(Nearest(head, key))
    decreases head
  {
    if c != head.value {
      StandInIsReachable(head.value.parent, c, key);
    }
  }
}
