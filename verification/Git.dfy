/** Optional values, as the source returns `None` or a value. */
module Wrappers {
  datatype Option<+T> = None | Some(value: T)
}

/**
 * The git objects one store is built on. Every commit the integration makes has
 * at most one parent, so a history is a chain.
 *
 * A commit's id is a hash over its tree, its parent and its metadata. Here the
 * commit value stands for its own id: two commits are the same object exactly
 * when those three agree, and a commit determines everything older than itself.
 */
module Git {
  import opened Wrappers

  /** `State(k)` is the file `<k>.yaml`, `Meta(k)` is `meta/<k>.yaml`. */
  datatype Path = State(key: string) | Meta(key: string)

  /** A tree as its files; a blob is named by its bytes, so text stands for blob. */
  type Files = map<Path, string>

  /** Everything a rewrite copies: commit time, message, and the rest as one value. */
  datatype Info = Info(time: int, message: string, signature: string)

  datatype Commit = Commit(tree: Files, parent: Option<Commit>, info: Info)

  /** Newest first: what `repo.get_walker()` hands back on a linear history. */
  function Chain(head: Option<Commit>): (walk: seq<Commit>)
    ensures head.Some? <==> walk != []
    ensures head.Some? ==> walk[0] == head.value
    decreases head
  {
    if head.None? then [] else [head.value] + Chain(head.value.parent)
  }

  function TreeOf(c: Option<Commit>): Files {
    if c.None? then map[] else c.value.tree
  }

  predicate SameAt(a: Files, b: Files, path: Path) {
    (path in a) == (path in b) && (path in a ==> a[path] == b[path])
  }

  /** Whether a commit changed either of a dashboard's two files. */
  predicate Touches(c: Commit, key: string) {
    var before := TreeOf(c.parent);
    !SameAt(before, c.tree, State(key)) || !SameAt(before, c.tree, Meta(key))
  }

  /** One dashboard's own revisions, newest first. */
  function Changes(key: string, head: Option<Commit>): (revisions: seq<Commit>)
    ensures forall c :: c in revisions ==> c in Chain(head) && Touches(c, key)
    decreases head
  {
    if head.None? then []
    else
      var older := Changes(key, head.value.parent);
      if Touches(head.value, key) then [head.value] + older else older
  }

  /** Whether `c` lies on the history that ends in `head`. */
  predicate Reaches(head: Option<Commit>, c: Commit) {
    c in Chain(head)
  }

  lemma {:induction false} ReachesOlder(head: Option<Commit>, c: Commit)
    requires Reaches(head, c)
    ensures forall x :: x in Chain(Some(c)) ==> Reaches(head, x)
    decreases head
  {
    if c != head.value {
      ReachesOlder(head.value.parent, c);
    }
  }

  /** A position in a chain holds the chain's own tail. */
  lemma {:induction false} ChainFrom(head: Option<Commit>, i: nat)
    requires i < |Chain(head)|
    ensures Chain(head)[i..] == Chain(Some(Chain(head)[i]))
    decreases head
  {
    if i > 0 {
      ChainFrom(head.value.parent, i - 1);
      assert Chain(head)[i..] == Chain(head.value.parent)[i - 1..];
    }
  }

  /** No commit occurs twice: each determines how much history is behind it. */
  lemma {:induction false} ChainIsInjective(head: Option<Commit>, i: nat, j: nat)
    requires i < |Chain(head)| && j < |Chain(head)|
    requires Chain(head)[i] == Chain(head)[j]
    ensures i == j
  {
    ChainFrom(head, i);
    ChainFrom(head, j);
    assert |Chain(head)[i..]| == |Chain(head)[j..]|;
  }
}
