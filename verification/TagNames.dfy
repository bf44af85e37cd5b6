/** The one namespace all tags share: a name is a file, and the names under it are its directory. */
module TagNames {
  /** Whether a name lies under another one, as a file in a directory. */
  predicate Under(name: string, parent: string) {
    parent + "/" <= name
  }

  lemma UnderSplits(name: string, parent: string)
    ensures Under(name, parent) <==> |parent| < |name| && name[|parent|] == '/' && name[..|parent|] == parent
  {
    if |parent| < |name| {
      assert name[..|parent| + 1] == name[..|parent|] + [name[|parent|]];
    }
  }

  /** Whether git could hold all these names at once. */
  predicate Holdable(names: set<string>) {
    forall a, b :: a in names && b in names ==> !Under(a, b)
  }

  /** No name followed by a slash begins another; nothing at all can always be held. */
  lemma HoldableExactly(names: set<string>)
    ensures Holdable(names) <==>
      forall a, b :: a in names && b in names ==> !(|b| < |a| && a[|b|] == '/' && a[..|b|] == b)
    ensures Holdable({})
  {
    forall a, b ensures Under(a, b) <==> |b| < |a| && a[|b|] == '/' && a[..|b|] == b {
      UnderSplits(a, b);
    }
  }

  /** Whether git could not hold a name beside these: it is one, is under one, or has one under it. */
  predicate Collides(name: string, existing: set<string>) {
    exists one :: one in existing && (one == name || Under(name, one) || Under(one, name))
  }

  /** The name itself, every part of it that ends ahead of a `/`, and every name below it. */
  method RefuseCollidingName(name: string, existing: set<string>) returns (refused: bool)
    ensures refused <==> Collides(name, existing)
    ensures !refused ==> name !in existing
  {
    if name in existing {
      return true;
    }
    for i := 0 to |name|
      invariant forall k :: 0 <= k < i && name[k] == '/' ==> name[..k] !in existing
    {
      if name[i] == '/' && name[..i] in existing {
        UnderSplits(name, name[..i]);
        return true;
      }
    }
    forall one ensures Under(name, one) <==> |one| < |name| && name[|one|] == '/' && name[..|one|] == one {
      UnderSplits(name, one);
    }
    refused := exists one :: one in existing && Under(one, name);
  }

  /** A name is refused exactly where git could not hold it beside the others, or holds it already. */
  lemma RefusedExactlyWhenUnholdable(name: string, existing: set<string>)
    requires Holdable(existing)
    ensures Collides(name, existing) <==> name in existing || !Holdable(existing + {name})
  {
    if !Holdable(existing + {name}) {
      var a, b :| a in existing + {name} && b in existing + {name} && Under(a, b);
      assert !Under(name, name);
      assert a in existing || b in existing;
    }
  }

  /** Something done to the namespace: a version made, one taken away, or a forget. */
  datatype Change = Made(name: string) | Gone(names: set<string>)

  function After(names: set<string>, change: Change): set<string> {
    match change
    case Made(name) => if Collides(name, names) then names else names + {name}
    case Gone(gone) => names - gone
  }

  function AfterAll(names: set<string>, run: seq<Change>): set<string>
    decreases |run|
  {
    if run == [] then names else AfterAll(After(names, run[0]), run[1..])
  }

  /** However versions come and go, no name is ever in another one's way. */
  lemma {:induction false} NamesStayApart(names: set<string>, run: seq<Change>)
    requires Holdable(names)
    ensures Holdable(AfterAll(names, run))
    decreases |run|
  {
    if run != [] {
      if run[0].Made? {
        RefusedExactlyWhenUnholdable(run[0].name, names);
      }
      NamesStayApart(After(names, run[0]), run[1..]);
    }
  }
}
