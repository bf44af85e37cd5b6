/**
 * Applying the undo of one change to the card and badge lists of a dashboard:
 * removals first and highest index first, insertions last and lowest index first.
 */
module Undo {
  import opened Wrappers
  import opened CardMatching
  import opened Sorting

  type Lists = map<Place, seq<Card>>

  datatype Step =
    | Remove(place: Place, index: nat, expected: Card)
    | Insert(place: Place, index: nat, payload: Card)
    | Park(view: ViewKey, payload: Card)

  datatype Outcome = Applied(lists: Lists) | Refused

  // -- sorting -----------------------------------------------------------

  function Key(s: Step): int {
    match s
    case Remove(_, index, _) => 0 - index
    case Insert(_, index, _) => index
    case Park(_, _) => 0
  }

  predicate Sorted(steps: seq<Step>) {
    Rising(steps, Key)
  }

  /** By index: the highest removal first, the lowest insertion first. */
  function ByKey(steps: seq<Step>): (sorted: seq<Step>)
    ensures Sorted(sorted) && multiset(sorted) == multiset(steps)
  {
    ByRank(steps, Key)
  }

  // -- one step ----------------------------------------------------------

  /** Refuses unless the expected thing still stands at that index. */
  function RemoveAt(lists: Lists, s: Step): Outcome
    requires s.Remove?
  {
    if s.place !in lists then Refused
    else
      var items := lists[s.place];
      if s.index >= |items| || !Alike(items[s.index], s.expected) then Refused
      else Applied(lists[s.place := items[..s.index] + items[s.index + 1..]])
  }

  /** A badge list is made where its view has none; a card list has to be there. */
  function InsertAt(views: set<ViewKey>, lists: Lists, s: Step): Outcome
    requires s.Insert?
  {
    if s.place !in lists && !(s.place.location.Badges? && s.place.view in views) then Refused
    else
      var items := if s.place in lists then lists[s.place] else [];
      var at := if s.index <= |items| then s.index else |items|;
      Applied(lists[s.place := items[..at] + [s.payload] + items[at..]])
  }

  /** Appended to the view's own cards, which are made where there are none; the view has to be there. */
  function ParkAt(views: set<ViewKey>, lists: Lists, s: Step): Outcome
    requires s.Park?
  {
    var place := Place(s.view, Cards);
    if s.view !in views then Refused
    else Applied(lists[place := (if place in lists then lists[place] else []) + [s.payload]])
  }

  function Do(views: set<ViewKey>, lists: Lists, s: Step): Outcome {
    match s
    case Remove(_, _, _) => RemoveAt(lists, s)
    case Insert(_, _, _) => InsertAt(views, lists, s)
    case Park(_, _) => ParkAt(views, lists, s)
  }

  function Run(views: set<ViewKey>, lists: Lists, steps: seq<Step>): Outcome {
    if steps == [] then Applied(lists)
    else
      var n := |steps| - 1;
      var r := Run(views, lists, steps[..n]);
      if r.Refused? then Refused else Do(views, r.lists, steps[n])
  }

  function Removals(plan: seq<Step>): (r: seq<Step>)
    ensures forall s :: s in r <==> s in plan && s.Remove?
  {
    if plan == [] then []
    else
      var n := |plan| - 1;
      assert plan == plan[..n] + [plan[n]];
      if plan[n].Remove? then Removals(plan[..n]) + [plan[n]] else Removals(plan[..n])
  }

  function Insertions(plan: seq<Step>): (r: seq<Step>)
    ensures forall s :: s in r <==> s in plan && s.Insert?
  {
    if plan == [] then []
    else
      var n := |plan| - 1;
      assert plan == plan[..n] + [plan[n]];
      if plan[n].Insert? then Insertions(plan[..n]) + [plan[n]] else Insertions(plan[..n])
  }

  function Parked(plan: seq<Step>): (r: seq<Step>)
    ensures forall s :: s in r <==> s in plan && s.Park?
  {
    if plan == [] then []
    else
      var n := |plan| - 1;
      assert plan == plan[..n] + [plan[n]];
      if plan[n].Park? then Parked(plan[..n]) + [plan[n]] else Parked(plan[..n])
  }

  /** The whole plan in the order it is applied. */
  function InOrder(plan: seq<Step>): seq<Step> {
    ByKey(Removals(plan)) + ByKey(Insertions(plan)) + Parked(plan)
  }

  method RunSteps(views: set<ViewKey>, lists: Lists, steps: seq<Step>) returns (r: Outcome)
    ensures r == Run(views, lists, steps)
  {
    var result := lists;
    for k := 0 to |steps|
      invariant Run(views, lists, steps[..k]) == Applied(result)
    {
      assert steps[..k + 1][..k] == steps[..k];
      var next := Do(views, result, steps[k]);
      if next.Refused? {
        RefusedStays(views, lists, steps, k + 1);
        return Refused;
      }
      result := next.lists;
    }
    assert steps[..|steps|] == steps;
    return Applied(result);
  }

  /** A new set of lists with the plan applied, or a refusal; the lists handed in never change. */
  method ApplyUndo(views: set<ViewKey>, lists: Lists, plan: seq<Step>) returns (r: Outcome)
    ensures r == Run(views, lists, InOrder(plan))
  {
    var removals, insertions, parked := ByKey(Removals(plan)), ByKey(Insertions(plan)), Parked(plan);
    RunAppend(views, lists, removals, insertions);
    RunAppend(views, lists, removals + insertions, parked);
    r := RunSteps(views, lists, removals);
    if r.Refused? { return; }
    r := RunSteps(views, r.lists, insertions);
    if r.Refused? { return; }
    r := RunSteps(views, r.lists, parked);
  }

  lemma {:induction false} RefusedStays(views: set<ViewKey>, lists: Lists, steps: seq<Step>, k: nat)
    requires k <= |steps| && Run(views, lists, steps[..k]).Refused?
    ensures Run(views, lists, steps).Refused?
    decreases |steps| - k
  {
    if k == |steps| {
      assert steps[..k] == steps;
    } else {
      assert steps[..k + 1][..k] == steps[..k];
      RefusedStays(views, lists, steps, k + 1);
    }
  }

  lemma {:induction false} RunAppend(views: set<ViewKey>, lists: Lists, a: seq<Step>, b: seq<Step>)
    ensures var r := Run(views, lists, a);
      Run(views, lists, a + b) == if r.Refused? then Refused else Run(views, r.lists, b)
  {
    if b == [] {
      assert a + b == a;
    } else {
      var n := |b| - 1;
      RunAppend(views, lists, a, b[..n]);
      assert (a + b)[..|a + b| - 1] == a + b[..n];
    }
  }

  // -- conservation ------------------------------------------------------

  /** How often a list holds an item that compares equal to `x`. */
  function Count(items: seq<Card>, x: Body): nat {
    if items == [] then 0
    else Count(items[..|items| - 1], x) + if items[|items| - 1].body == x then 1 else 0
  }

  lemma {:induction false} CountAppend(a: seq<Card>, b: seq<Card>, x: Body)
    ensures Count(a + b, x) == Count(a, x) + Count(b, x)
  {
    if b == [] {
      assert a + b == a;
    } else {
      CountAppend(a, b[..|b| - 1], x);
      assert (a + b)[..|a + b| - 1] == a + b[..|b| - 1];
    }
  }

  function At(lists: Lists, place: Place): seq<Card> {
    if place in lists then lists[place] else []
  }

  function Target(s: Step): Place {
    if s.Park? then Place(s.view, Cards) else s.place
  }

  /** How many steps there are of one sort. */
  function Tally(steps: seq<Step>, sort: Step -> bool): nat {
    if steps == [] then 0
    else Tally(steps[..|steps| - 1], sort) + if sort(steps[|steps| - 1]) then 1 else 0
  }

  /** The steps that expect to take an `x` out of a list, and those that put one into it. */
  function Taking(place: Place, x: Body): Step -> bool {
    (s: Step) => s.Remove? && s.place == place && s.expected.body == x
  }

  function Putting(place: Place, x: Body): Step -> bool {
    (s: Step) => !s.Remove? && Target(s) == place && s.payload.body == x
  }

  lemma {:induction false} TallyAppend(a: seq<Step>, b: seq<Step>, sort: Step -> bool)
    ensures Tally(a + b, sort) == Tally(a, sort) + Tally(b, sort)
  {
    if b == [] {
      assert a + b == a;
    } else {
      TallyAppend(a, b[..|b| - 1], sort);
      assert (a + b)[..|a + b| - 1] == a + b[..|b| - 1];
    }
  }

  lemma {:induction false} TallySorted(steps: seq<Step>, sort: Step -> bool)
    ensures Tally(ByKey(steps), sort) == Tally(steps, sort)
  {
    if steps != [] {
      var n := |steps| - 1;
      TallySorted(steps[..n], sort);
      TallyPlaced(ByKey(steps[..n]), steps[n], sort);
    }
  }

  lemma TallyPlaced(sorted: seq<Step>, s: Step, sort: Step -> bool)
    requires Sorted(sorted)
    ensures Tally(PutBehind(sorted, s, Key), sort) == Tally(sorted, sort) + if sort(s) then 1 else 0
  {
    var at := Behind(sorted, Key(s), Key);
    var a, b := sorted[..at], sorted[at..];
    assert sorted == a + b && [s][..0] == [];
    TallyAppend(a, b, sort);
    TallyAppend(a, [s], sort);
    TallyAppend(a + [s], b, sort);
  }

  lemma {:induction false} TallySplit(plan: seq<Step>, sort: Step -> bool)
    ensures Tally(plan, sort) == Tally(Removals(plan), sort) + Tally(Insertions(plan), sort) + Tally(Parked(plan), sort)
  {
    if plan != [] {
      TallySplit(plan[..|plan| - 1], sort);
      LastIsOneOfThree(plan, sort);
    }
  }

  lemma LastIsOneOfThree(plan: seq<Step>, sort: Step -> bool)
    requires plan != []
    ensures var shorter, s := plan[..|plan| - 1], plan[|plan| - 1];
      && Tally(Removals(plan), sort) == Tally(Removals(shorter), sort) + (if s.Remove? && sort(s) then 1 else 0)
      && Tally(Insertions(plan), sort) == Tally(Insertions(shorter), sort) + (if s.Insert? && sort(s) then 1 else 0)
      && Tally(Parked(plan), sort) == Tally(Parked(shorter), sort) + (if s.Park? && sort(s) then 1 else 0)
  {
    var shorter, s := plan[..|plan| - 1], plan[|plan| - 1];
    if s.Remove? {
      TallyOneMore(Removals(shorter), s, sort);
    } else if s.Insert? {
      TallyOneMore(Insertions(shorter), s, sort);
    } else {
      TallyOneMore(Parked(shorter), s, sort);
    }
  }

  lemma TallyOneMore(steps: seq<Step>, s: Step, sort: Step -> bool)
    ensures Tally(steps + [s], sort) == Tally(steps, sort) + if sort(s) then 1 else 0
  {
    assert (steps + [s])[..|steps|] == steps;
  }

  /** The order a plan is applied in changes nothing about what is in it. */
  lemma TallyInOrder(plan: seq<Step>, sort: Step -> bool)
    ensures Tally(InOrder(plan), sort) == Tally(plan, sort)
  {
    TallyAppend(ByKey(Removals(plan)) + ByKey(Insertions(plan)), Parked(plan), sort);
    TallyAppend(ByKey(Removals(plan)), ByKey(Insertions(plan)), sort);
    TallySorted(Removals(plan), sort);
    TallySorted(Insertions(plan), sort);
    TallySplit(plan, sort);
  }

  lemma CountCut(items: seq<Card>, i: nat, x: Body)
    requires i < |items|
    ensures Count(items, x) == Count(items[..i] + items[i + 1..], x) + if items[i].body == x then 1 else 0
  {
    assert items == items[..i] + [items[i]] + items[i + 1..];
    CountAppend(items[..i] + [items[i]], items[i + 1..], x);
    CountAppend(items[..i], [items[i]], x);
    CountAppend(items[..i], items[i + 1..], x);
    assert [items[i]][..0] == [];
  }

  lemma CountPut(items: seq<Card>, at: nat, item: Card, x: Body)
    requires at <= |items|
    ensures Count(items[..at] + [item] + items[at..], x) == Count(items, x) + if item.body == x then 1 else 0
  {
    var longer := items[..at] + [item] + items[at..];
    assert longer[..at] + longer[at + 1..] == items;
    CountCut(longer, at, x);
  }

  lemma RemoveConserves(views: set<ViewKey>, lists: Lists, s: Step, x: Body)
    requires s.Remove? && Do(views, lists, s).Applied?
    ensures Count(At(Do(views, lists, s).lists, s.place), x) + (if s.expected.body == x then 1 else 0) ==
      Count(At(lists, s.place), x)
  {
    CountCut(At(lists, s.place), s.index, x);
  }

  lemma InsertConserves(views: set<ViewKey>, lists: Lists, s: Step, x: Body)
    requires s.Insert? && Do(views, lists, s).Applied?
    ensures Count(At(Do(views, lists, s).lists, s.place), x) ==
      Count(At(lists, s.place), x) + (if s.payload.body == x then 1 else 0)
  {
    var items := At(lists, s.place);
    CountPut(items, if s.index <= |items| then s.index else |items|, s.payload, x);
  }

  lemma ParkConserves(views: set<ViewKey>, lists: Lists, s: Step, x: Body)
    requires s.Park? && Do(views, lists, s).Applied?
    ensures Count(At(Do(views, lists, s).lists, Target(s)), x) ==
      Count(At(lists, Target(s)), x) + (if s.payload.body == x then 1 else 0)
  {
    var items := At(lists, Target(s));
    CountPut(items, |items|, s.payload, x);
    assert items[..|items|] + [s.payload] + items[|items|..] == items + [s.payload];
  }

  lemma DoConserves(views: set<ViewKey>, lists: Lists, s: Step, place: Place, x: Body)
    requires Do(views, lists, s).Applied?
    ensures Count(At(Do(views, lists, s).lists, place), x) + (if Taking(place, x)(s) then 1 else 0)
      == Count(At(lists, place), x) + (if Putting(place, x)(s) then 1 else 0)
  {
    if Target(s) == place {
      TargetConserves(views, lists, s, x);
    }
  }

  lemma TargetConserves(views: set<ViewKey>, lists: Lists, s: Step, x: Body)
    requires Do(views, lists, s).Applied?
    ensures Count(At(Do(views, lists, s).lists, Target(s)), x) + (if Taking(Target(s), x)(s) then 1 else 0)
      == Count(At(lists, Target(s)), x) + (if Putting(Target(s), x)(s) then 1 else 0)
  {
    if s.Remove? {
      RemoveConserves(views, lists, s, x);
    } else if s.Insert? {
      InsertConserves(views, lists, s, x);
    } else {
      ParkConserves(views, lists, s, x);
    }
  }

  lemma {:induction false} RunConserves(views: set<ViewKey>, lists: Lists, steps: seq<Step>, place: Place, x: Body)
    requires Run(views, lists, steps).Applied?
    ensures Count(At(Run(views, lists, steps).lists, place), x) + Tally(steps, Taking(place, x))
      == Count(At(lists, place), x) + Tally(steps, Putting(place, x))
  {
    if steps != [] {
      var n := |steps| - 1;
      RunConserves(views, lists, steps[..n], place, x);
      DoConserves(views, Run(views, lists, steps[..n]).lists, steps[n], place, x);
    }
  }

  /**
   * Nothing is made up and nothing lost: of every list and every content, what an
   * applied plan leaves and what it expected to take are what stood there and
   * what it put in.
   */
  lemma UndoConserves(views: set<ViewKey>, lists: Lists, plan: seq<Step>, place: Place, x: Body)
    requires Run(views, lists, InOrder(plan)).Applied?
    ensures Count(At(Run(views, lists, InOrder(plan)).lists, place), x) + Tally(plan, Taking(place, x))
      == Count(At(lists, place), x) + Tally(plan, Putting(place, x))
  {
    RunConserves(views, lists, InOrder(plan), place, x);
    TallyInOrder(plan, Taking(place, x));
    TallyInOrder(plan, Putting(place, x));
  }

  // -- restoring a list --------------------------------------------------

  /** A list without the positions in `out`. */
  function Without(items: seq<Card>, out: set<nat>): seq<Card> {
    if items == [] then []
    else
      var n := |items| - 1;
      Without(items[..n], out) + if n in out then [] else [items[n]]
  }

  predicate AllBehind(out: set<nat>, i: nat) {
    forall j :: j in out ==> i < j
  }

  /** While only positions behind `i` are out, `i` is still itself, and may go next. */
  lemma {:induction false} WithoutNext(items: seq<Card>, out: set<nat>, i: nat)
    requires i < |items| && AllBehind(out, i)
    ensures var rest := Without(items, out);
      i < |rest| && rest[..i] == items[..i] && rest[i] == items[i]
      && rest[..i] + rest[i + 1..] == Without(items, out + {i})
  {
    var n := |items| - 1;
    if i < n {
      var front := items[..n];
      WithoutNext(front, out, i);
      assert front[i] == items[i] && front[..i] == items[..i];
      TailStays(Without(front, out), if n in out then [] else [items[n]], i);
    } else {
      NothingOut(items[..n], out);
      NothingOut(items[..n], out + {i});
    }
  }

  lemma TailStays(w: seq<Card>, tail: seq<Card>, i: nat)
    requires i < |w|
    ensures (w + tail)[..i] == w[..i] && (w + tail)[i] == w[i]
    ensures (w + tail)[..i] + (w + tail)[i + 1..] == w[..i] + w[i + 1..] + tail
  {
    assert (w + tail)[i + 1..] == w[i + 1..] + tail;
  }

  lemma {:induction false} NothingOut(items: seq<Card>, out: set<nat>)
    requires forall j :: j in out ==> j >= |items|
    ensures Without(items, out) == items
  {
    if items != [] {
      NothingOut(items[..|items| - 1], out);
    }
  }

  /** The positions a plan takes out of a list, and those it fills in it. */
  function Outs(steps: seq<Step>, place: Place): set<nat> {
    set s | s in steps && s.Remove? && s.place == place :: s.index
  }

  function Ins(steps: seq<Step>, place: Place): set<nat> {
    set s | s in steps && s.Insert? && s.place == place :: s.index
  }

  function Removing(place: Place, index: nat): Step -> bool {
    (s: Step) => s.Remove? && s.place == place && s.index == index
  }

  function Filling(place: Place, index: nat): Step -> bool {
    (s: Step) => s.Insert? && s.place == place && s.index == index
  }

  /** No position of a list is taken out, or filled, twice. */
  ghost predicate OncePerPosition(steps: seq<Step>, place: Place) {
    forall i: nat :: Tally(steps, Removing(place, i)) <= 1 && Tally(steps, Filling(place, i)) <= 1
  }

  lemma {:induction false} Tallied(steps: seq<Step>, sort: Step -> bool, a: nat)
    requires a < |steps| && sort(steps[a])
    ensures Tally(steps, sort) >= 1
  {
    if a < |steps| - 1 {
      Tallied(steps[..|steps| - 1], sort, a);
    }
  }

  lemma OncePrefix(steps: seq<Step>, place: Place)
    requires steps != [] && OncePerPosition(steps, place)
    ensures OncePerPosition(steps[..|steps| - 1], place)
  {
    forall i: nat
      ensures Tally(steps[..|steps| - 1], Removing(place, i)) <= 1
      ensures Tally(steps[..|steps| - 1], Filling(place, i)) <= 1
    {
      assert Tally(steps, Removing(place, i)) <= 1;
    }
  }

  /** The positions gone from a list before the last removal lie behind it. */
  lemma BehindTheLast(steps: seq<Step>, place: Place)
    requires steps != [] && Sorted(steps) && OncePerPosition(steps, place)
    requires var s := steps[|steps| - 1]; s.Remove? && s.place == place
    ensures AllBehind(Outs(steps[..|steps| - 1], place), steps[|steps| - 1].index)
  {
    var n := |steps| - 1;
    forall j | j in Outs(steps[..n], place) ensures steps[n].index < j {
      var t :| t in steps[..n] && t.Remove? && t.place == place && t.index == j;
      var a :| 0 <= a < n && steps[a] == t;
      assert Key(steps[a]) <= Key(steps[n]);
      if j == steps[n].index {
        assert Tally(steps, Removing(place, j)) <= 1;
        assert steps[..n][a] == t;
        Tallied(steps[..n], Removing(place, j), a);
      }
    }
  }

  lemma OutsOneMore(steps: seq<Step>, place: Place)
    requires steps != []
    ensures var s := steps[|steps| - 1];
      Outs(steps, place) == Outs(steps[..|steps| - 1], place) + if s.Remove? && s.place == place then {s.index} else {}
  {
    assert steps == steps[..|steps| - 1] + [steps[|steps| - 1]];
  }

  /** Highest first, each removal takes the very item that stood at its index. */
  lemma {:induction false} RemovalsTakeOut(views: set<ViewKey>, lists: Lists, steps: seq<Step>, place: Place)
    requires Sorted(steps) && OncePerPosition(steps, place)
    requires forall k :: 0 <= k < |steps| ==> steps[k].Remove?
    requires Run(views, lists, steps).Applied?
    ensures At(Run(views, lists, steps).lists, place) == Without(At(lists, place), Outs(steps, place))
  {
    if steps == [] {
      assert Outs(steps, place) == {};
      NothingOut(At(lists, place), {});
    } else {
      var n := |steps| - 1;
      OncePrefix(steps, place);
      RemovalsTakeOut(views, lists, steps[..n], place);
      OutsOneMore(steps, place);
      assert steps[n].Remove?;
      if steps[n].place == place {
        BehindTheLast(steps, place);
        RemovedThere(views, Run(views, lists, steps[..n]).lists, steps[n], At(lists, place), Outs(steps[..n], place));
      } else {
        UntouchedElsewhere(views, Run(views, lists, steps[..n]).lists, steps[n], place);
        assert Outs(steps, place) == Outs(steps[..n], place);
      }
    }
  }

  /** Whether what a removal was planned for stands where it was planned. */
  predicate Stands(lists: Lists, s: Step)
    requires s.Remove?
  {
    s.place in lists && s.index < |lists[s.place]| && Alike(lists[s.place][s.index], s.expected)
  }

  lemma AllOncePrefix(steps: seq<Step>, shorter: seq<Step>)
    requires steps != [] && shorter == steps[..|steps| - 1] && forall place :: OncePerPosition(steps, place)
    ensures forall place :: OncePerPosition(shorter, place)
  {
    forall place ensures OncePerPosition(shorter, place) {
      OncePrefix(steps, place);
    }
  }

  /** No removal shifts another: all of them pass exactly when each stands in the lists as they are. */
  lemma {:induction false} RefusedExactlyWhenMissing(views: set<ViewKey>, lists: Lists, steps: seq<Step>)
    requires Sorted(steps) && forall place :: OncePerPosition(steps, place)
    requires forall k :: 0 <= k < |steps| ==> steps[k].Remove?
    ensures Run(views, lists, steps).Applied? <==> forall k :: 0 <= k < |steps| ==> Stands(lists, steps[k])
    ensures Run(views, lists, steps).Applied? ==> Run(views, lists, steps).lists.Keys == lists.Keys
  {
    if steps != [] {
      var n := |steps| - 1;
      var shorter := steps[..n];
      AllOncePrefix(steps, shorter);
      RefusedExactlyWhenMissing(views, lists, shorter);
      assert forall k :: 0 <= k < n ==> shorter[k] == steps[k];
      if Run(views, lists, shorter).Applied? {
        LastPassesExactly(views, lists, steps);
      }
    }
  }

  lemma LastPassesExactly(views: set<ViewKey>, lists: Lists, steps: seq<Step>)
    requires steps != [] && Sorted(steps) && forall k :: 0 <= k < |steps| ==> steps[k].Remove?
    requires OncePerPosition(steps, steps[|steps| - 1].place)
    requires var r := Run(views, lists, steps[..|steps| - 1]); r.Applied? && r.lists.Keys == lists.Keys
    ensures var r := Do(views, Run(views, lists, steps[..|steps| - 1]).lists, steps[|steps| - 1]);
      (r.Applied? <==> Stands(lists, steps[|steps| - 1])) && (r.Applied? ==> r.lists.Keys == lists.Keys)
  {
    var s, shorter := steps[|steps| - 1], steps[..|steps| - 1];
    OncePrefix(steps, s.place);
    RemovalsTakeOut(views, lists, shorter, s.place);
    BehindTheLast(steps, s.place);
    RemovedThere(views, Run(views, lists, shorter).lists, s, At(lists, s.place), Outs(shorter, s.place));
  }

  lemma RemovedThere(views: set<ViewKey>, r: Lists, s: Step, items: seq<Card>, outs: set<nat>)
    requires s.Remove? && At(r, s.place) == Without(items, outs) && AllBehind(outs, s.index)
    ensures Do(views, r, s).Applied? <==> s.place in r && s.index < |items| && Alike(items[s.index], s.expected)
    ensures Do(views, r, s).Applied? ==> At(Do(views, r, s).lists, s.place) == Without(items, outs + {s.index})
  {
    OneMoreOut(items, outs, s.index);
  }

  lemma UntouchedElsewhere(views: set<ViewKey>, r: Lists, s: Step, place: Place)
    requires Target(s) != place && Do(views, r, s).Applied?
    ensures At(Do(views, r, s).lists, place) == At(r, place)
  {
  }

  lemma OneMoreOut(items: seq<Card>, out: set<nat>, i: nat)
    requires AllBehind(out, i)
    ensures i < |items| <==> i < |Without(items, out)|
    ensures i < |items| ==> Without(items, out)[i] == items[i]
    ensures i < |items| ==> Without(items, out)[..i] + Without(items, out)[i + 1..] == Without(items, out + {i})
  {
    if i < |items| {
      WithoutNext(items, out, i);
    } else {
      NothingOut(items, out);
    }
  }

  /** Steps that fill positions of a list with what stands there in `want`, none twice. */
  ghost predicate Fills(steps: seq<Step>, place: Place, want: seq<Card>) {
    && Sorted(steps) && OncePerPosition(steps, place)
    && (forall k :: 0 <= k < |steps| ==> steps[k].Insert?)
    && (forall k :: 0 <= k < |steps| && steps[k].place == place ==>
          steps[k].index < |want| && steps[k].payload == want[steps[k].index])
  }

  /** Lowest first, each insertion lands at the index it was given. */
  lemma {:induction false} InsertionsFill(views: set<ViewKey>, lists: Lists, steps: seq<Step>, k: nat, place: Place,
                                          want: seq<Card>)
    requires Fills(steps, place, want) && k <= |steps|
    requires At(lists, place) == Without(want, Ins(steps, place))
    requires Run(views, lists, steps[..k]).Applied?
    ensures At(Run(views, lists, steps[..k]).lists, place) == Without(want, Ins(steps[k..], place))
    decreases k
  {
    if k == 0 {
      assert steps[0..] == steps;
    } else {
      assert steps[..k][..k - 1] == steps[..k - 1];
      InsertionsFill(views, lists, steps, k - 1, place, want);
      var r, s := Run(views, lists, steps[..k - 1]).lists, steps[k - 1];
      RestOneLess(steps, k - 1, place);
      assert s.Insert?;
      if s.place == place {
        FirstOfTheRest(steps, k - 1, place, want);
        InsertedThere(views, r, s, want, Ins(steps[k..], place));
      } else {
        UntouchedElsewhere(views, r, s, place);
        assert Ins(steps[k - 1..], place) == Ins(steps[k..], place);
      }
    }
  }

  lemma RestOneLess(steps: seq<Step>, k: nat, place: Place)
    requires k < |steps|
    ensures Ins(steps[k..], place) ==
      Ins(steps[k + 1..], place) + if steps[k].Insert? && steps[k].place == place then {steps[k].index} else {}
  {
    assert steps[k..] == [steps[k]] + steps[k + 1..];
  }

  lemma InsertedThere(views: set<ViewKey>, r: Lists, s: Step, want: seq<Card>, later: set<nat>)
    requires s.Insert? && s.index < |want| && s.payload == want[s.index]
    requires At(r, s.place) == Without(want, later + {s.index}) && AllBehind(later, s.index)
    requires Do(views, r, s).Applied?
    ensures At(Do(views, r, s).lists, s.place) == Without(want, later)
  {
    OneMoreOut(want, later, s.index);
    PutBackAt(Without(want, later), At(r, s.place), s.index);
  }

  lemma PutBackAt(whole: seq<Card>, short: seq<Card>, i: nat)
    requires i < |whole| && short == whole[..i] + whole[i + 1..]
    ensures i <= |short| && short[..i] + [whole[i]] + short[i..] == whole
  {
    assert short[..i] == whole[..i] && short[i..] == whole[i + 1..];
  }

  /** The positions still to be filled after one of a list's insertions lie behind it. */
  lemma FirstOfTheRest(steps: seq<Step>, k: nat, place: Place, want: seq<Card>)
    requires Fills(steps, place, want) && k < |steps| && steps[k].place == place
    ensures AllBehind(Ins(steps[k + 1..], place), steps[k].index)
  {
    var i, later := steps[k].index, Ins(steps[k + 1..], place);
    assert steps[k].Insert?;
    forall j | j in later ensures i < j {
      var t :| t in steps[k + 1..] && t.Insert? && t.place == place && t.index == j;
      var b :| k + 1 <= b < |steps| && steps[b] == t;
      assert Key(steps[k]) <= Key(steps[b]);
      if j == i {
        Twice(steps, Filling(place, i), k, b);
      }
    }
  }

  lemma {:induction false} Twice(steps: seq<Step>, sort: Step -> bool, a: nat, b: nat)
    requires a < b < |steps| && sort(steps[a]) && sort(steps[b])
    ensures Tally(steps, sort) >= 2
  {
    if b < |steps| - 1 {
      Twice(steps[..|steps| - 1], sort, a, b);
    } else {
      Tallied(steps[..b], sort, a);
    }
  }

  /** What a plan parks into a list, in order. */
  function ParkedInto(plan: seq<Step>, place: Place): seq<Card> {
    if plan == [] then []
    else
      var s := plan[|plan| - 1];
      ParkedInto(plan[..|plan| - 1], place) + if s.Park? && Target(s) == place then [s.payload] else []
  }

  /**
   * Undo restores the list. Where a plan takes out of a list exactly the positions
   * outside a run it keeps, and fills exactly the positions of the earlier list
   * outside that run, applying it - with the steps of any number of other lists in
   * between - leaves exactly the earlier list, and behind it what was parked into it.
   */
  lemma UndoRestoresTheList(views: set<ViewKey>, lists: Lists, plan: seq<Step>, place: Place, want: seq<Card>)
    requires OncePerPosition(plan, place)
    requires forall s :: s in plan && s.Insert? && s.place == place ==> s.index < |want| && s.payload == want[s.index]
    requires Without(At(lists, place), Outs(plan, place)) == Without(want, Ins(plan, place))
    requires Run(views, lists, InOrder(plan)).Applied?
    ensures At(Run(views, lists, InOrder(plan)).lists, place) == want + ParkedInto(plan, place)
  {
    var removals, insertions, parked := ByKey(Removals(plan)), ByKey(Insertions(plan)), Parked(plan);
    RunAppend(views, lists, removals, insertions);
    RunAppend(views, lists, removals + insertions, parked);
    RemovalPart(plan, place);
    InsertionPart(plan, place, want);
    RemovalsTakeOut(views, lists, removals, place);
    var taken := Run(views, lists, removals).lists;
    AllFilled(views, taken, insertions, place, want);
    ParkedBehind(views, Run(views, taken, insertions).lists, parked, place);
    SameParked(plan, place);
  }

  lemma {:induction false} ParkedBehind(views: set<ViewKey>, lists: Lists, steps: seq<Step>, place: Place)
    requires forall k :: 0 <= k < |steps| ==> steps[k].Park?
    requires Run(views, lists, steps).Applied?
    ensures At(Run(views, lists, steps).lists, place) == At(lists, place) + ParkedInto(steps, place)
  {
    if steps != [] {
      var n := |steps| - 1;
      ParkedBehind(views, lists, steps[..n], place);
      if Target(steps[n]) != place {
        UntouchedElsewhere(views, Run(views, lists, steps[..n]).lists, steps[n], place);
      }
    }
  }

  lemma {:induction false} SameParked(plan: seq<Step>, place: Place)
    ensures ParkedInto(Parked(plan), place) == ParkedInto(plan, place)
    ensures forall k :: 0 <= k < |Parked(plan)| ==> Parked(plan)[k].Park?
  {
    if plan != [] {
      var front, last := plan[..|plan| - 1], plan[|plan| - 1];
      SameParked(front, place);
      if last.Park? {
        assert Parked(plan)[..|Parked(plan)| - 1] == Parked(front);
      }
    }
  }

  lemma AllFilled(views: set<ViewKey>, lists: Lists, steps: seq<Step>, place: Place, want: seq<Card>)
    requires Fills(steps, place, want) && Run(views, lists, steps).Applied?
    requires At(lists, place) == Without(want, Ins(steps, place))
    ensures At(Run(views, lists, steps).lists, place) == want
  {
    assert steps[..|steps|] == steps;
    InsertionsFill(views, lists, steps, |steps|, place, want);
    assert Ins(steps[|steps|..], place) == {};
    NothingOut(want, {});
  }

  lemma SameSteps(steps: seq<Step>)
    ensures forall s :: s in ByKey(steps) <==> s in steps
  {
    forall s ensures s in ByKey(steps) <==> s in steps {
      assert s in ByKey(steps) <==> s in multiset(ByKey(steps));
    }
  }

  /** Sorting the removals of a plan neither loses nor doubles one. */
  lemma RemovalPart(plan: seq<Step>, place: Place)
    requires OncePerPosition(plan, place)
    ensures var removals := ByKey(Removals(plan));
      && OncePerPosition(removals, place) && Outs(removals, place) == Outs(plan, place)
      && forall k :: 0 <= k < |removals| ==> removals[k].Remove?
  {
    var removals := ByKey(Removals(plan));
    SameSteps(Removals(plan));
    forall i: nat ensures Tally(removals, Removing(place, i)) <= 1 && Tally(removals, Filling(place, i)) <= 1 {
      PartTally(plan, Removing(place, i));
      PartTally(plan, Filling(place, i));
    }
    assert forall k :: 0 <= k < |removals| ==> removals[k] in removals;
  }

  lemma StillOnce(plan: seq<Step>, part: seq<Step>, place: Place)
    requires OncePerPosition(plan, place) && forall sort :: Tally(part, sort) <= Tally(plan, sort)
    ensures OncePerPosition(part, place)
  {
  }

  lemma InsertionPart(plan: seq<Step>, place: Place, want: seq<Card>)
    requires OncePerPosition(plan, place)
    requires forall s :: s in plan && s.Insert? && s.place == place ==> s.index < |want| && s.payload == want[s.index]
    ensures Fills(ByKey(Insertions(plan)), place, want) && Ins(ByKey(Insertions(plan)), place) == Ins(plan, place)
  {
    var insertions := ByKey(Insertions(plan));
    SameSteps(Insertions(plan));
    forall sort ensures Tally(insertions, sort) <= Tally(plan, sort) {
      PartTally(plan, sort);
    }
    StillOnce(plan, insertions, place);
    assert forall k :: 0 <= k < |insertions| ==> insertions[k] in insertions;
  }

  lemma PartTally(plan: seq<Step>, sort: Step -> bool)
    ensures Tally(ByKey(Removals(plan)), sort) <= Tally(plan, sort)
    ensures Tally(ByKey(Insertions(plan)), sort) <= Tally(plan, sort)
  {
    TallySorted(Removals(plan), sort);
    TallySorted(Insertions(plan), sort);
    TallySplit(plan, sort);
  }

  // -- when a plan goes through ------------------------------------------

  /** What one step needs of the dashboard as it is handed in. */
  predicate Fits(views: set<ViewKey>, lists: Lists, s: Step) {
    match s
    case Remove(_, _, _) => Stands(lists, s)
    case Insert(place, _, _) => place in lists || (place.location.Badges? && place.view in views)
    case Park(view, _) => view in views
  }

  /** Only badge lists come into being while things are put in, and only in views there are. */
  lemma {:induction false} InsertionsFit(views: set<ViewKey>, lists: Lists, steps: seq<Step>)
    requires forall k :: 0 <= k < |steps| ==> steps[k].Insert?
    ensures Run(views, lists, steps).Applied? <==> forall k :: 0 <= k < |steps| ==> Fits(views, lists, steps[k])
    ensures Run(views, lists, steps).Applied? ==> lists.Keys <= Run(views, lists, steps).lists.Keys
    ensures Run(views, lists, steps).Applied? ==> forall place :: place in Run(views, lists, steps).lists ==>
      place in lists || (place.location.Badges? && place.view in views)
  {
    if steps != [] {
      var n := |steps| - 1;
      var shorter := steps[..n];
      InsertionsFit(views, lists, shorter);
      assert steps[n].Insert? && forall k :: 0 <= k < n ==> shorter[k] == steps[k];
    }
  }

  lemma {:induction false} ParkingFits(views: set<ViewKey>, lists: Lists, steps: seq<Step>)
    requires forall k :: 0 <= k < |steps| ==> steps[k].Park?
    ensures Run(views, lists, steps).Applied? <==> forall k :: 0 <= k < |steps| ==> steps[k].view in views
  {
    if steps != [] {
      var n := |steps| - 1;
      var shorter := steps[..n];
      ParkingFits(views, lists, shorter);
      assert steps[n].Park? && forall k :: 0 <= k < n ==> shorter[k] == steps[k];
    }
  }

  lemma SameAsListed(steps: seq<Step>, sorted: seq<Step>, views: set<ViewKey>, lists: Lists)
    requires forall s :: s in sorted <==> s in steps
    ensures (forall k :: 0 <= k < |sorted| ==> Fits(views, lists, sorted[k])) <==>
      forall s :: s in steps ==> Fits(views, lists, s)
  {
    assert forall k :: 0 <= k < |sorted| ==> sorted[k] in sorted;
  }

  lemma RemovalsFit(views: set<ViewKey>, lists: Lists, plan: seq<Step>)
    requires forall place :: OncePerPosition(plan, place)
    ensures var r := Run(views, lists, ByKey(Removals(plan)));
      && (r.Applied? <==> forall s :: s in Removals(plan) ==> Fits(views, lists, s))
      && (r.Applied? ==> r.lists.Keys == lists.Keys)
  {
    var removals := ByKey(Removals(plan));
    SameSteps(Removals(plan));
    forall place ensures OncePerPosition(removals, place) {
      RemovalPart(plan, place);
    }
    assert forall k :: 0 <= k < |removals| ==> removals[k] in removals && removals[k].Remove?;
    RefusedExactlyWhenMissing(views, lists, removals);
    SameAsListed(Removals(plan), removals, views, lists);
  }

  lemma InsertionsFitAfter(views: set<ViewKey>, lists: Lists, taken: Lists, plan: seq<Step>)
    requires taken.Keys == lists.Keys
    ensures Run(views, taken, ByKey(Insertions(plan))).Applied? <==>
      forall s :: s in Insertions(plan) ==> Fits(views, lists, s)
  {
    var insertions := ByKey(Insertions(plan));
    SameSteps(Insertions(plan));
    assert forall k :: 0 <= k < |insertions| ==> insertions[k] in insertions && insertions[k].Insert?;
    InsertionsFit(views, taken, insertions);
    assert forall k :: 0 <= k < |insertions| ==>
      (Fits(views, taken, insertions[k]) <==> Fits(views, lists, insertions[k]));
    SameAsListed(Insertions(plan), insertions, views, lists);
  }

  lemma ParkedFit(views: set<ViewKey>, lists: Lists, filled: Lists, plan: seq<Step>)
    ensures Run(views, filled, Parked(plan)).Applied? <==> forall s :: s in Parked(plan) ==> Fits(views, lists, s)
  {
    var parked := Parked(plan);
    assert forall k :: 0 <= k < |parked| ==> parked[k] in parked && parked[k].Park?;
    ParkingFits(views, filled, parked);
    SameAsListed(parked, parked, views, lists);
  }

  lemma ThreeParts(views: set<ViewKey>, lists: Lists, plan: seq<Step>)
    ensures (forall s :: s in plan ==> Fits(views, lists, s)) <==>
      && (forall s :: s in Removals(plan) ==> Fits(views, lists, s))
      && (forall s :: s in Insertions(plan) ==> Fits(views, lists, s))
      && (forall s :: s in Parked(plan) ==> Fits(views, lists, s))
  {
  }

  /** A plan goes through exactly where every step of it fits the dashboard as it is handed in. */
  lemma AppliedExactlyWhenItFits(views: set<ViewKey>, lists: Lists, plan: seq<Step>)
    requires forall place :: OncePerPosition(plan, place)
    ensures Run(views, lists, InOrder(plan)).Applied? <==> forall s :: s in plan ==> Fits(views, lists, s)
  {
    var removals, insertions, parked := ByKey(Removals(plan)), ByKey(Insertions(plan)), Parked(plan);
    RunAppend(views, lists, removals, insertions);
    RunAppend(views, lists, removals + insertions, parked);
    RemovalsFit(views, lists, plan);
    ThreeParts(views, lists, plan);
    if Run(views, lists, removals).Applied? {
      var taken := Run(views, lists, removals).lists;
      InsertionsFitAfter(views, lists, taken, plan);
      if Run(views, taken, insertions).Applied? {
        ParkedFit(views, lists, Run(views, taken, insertions).lists, plan);
      }
    }
  }
}
