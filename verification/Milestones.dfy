/**
 * The versions nobody asked for, the floor and the day mark, as one pass that holds
 * the marking lock while saves and people go on beside it.
 */
module Milestones {
  import opened Wrappers
  import opened TagNames
  import opened Versions
  import opened VersionWords
  import opened DayMarks

  /**
   * A tag: the state it marks, when it was made, and its message - None for one made by
   * hand without any. Nothing reads `byPass`; it remembers that the pass made this one.
   */
  datatype Mark = Mark(revision: nat, made: int, message: Option<string>, byPass: bool)

  type Marks = map<string, Mark>

  /** What a reader takes for a version nobody asked for. */
  predicate Automatic(mark: Mark) {
    mark.message.Some? && ReadDescription(Words(mark.message.value).1).1
  }

  /** How far the one pass that holds the marking lock has come. */
  datatype Phase =
    | Idle
    | Looked(newest: seq<nat>)
    | Listed(previous: nat, found: Marks)
    | FloorListed
    | Making(revision: nat, level: Level)
    | Naming(revision: nat, name: string)

  datatype World = World(history: seq<Save>, marks: Marks, now: int, phase: Phase)

  datatype Step =
    | Saved(text: Option<string>)
    | Waited(seconds: nat)
    | PersonMade(name: string, revision: nat, title: string, description: string)
    | PersonTagged(name: string, revision: nat)   // by hand, with no message
    | PersonRetitled(name: string, title: string, description: string)
    | PersonRemoved(name: string)
    | LookedForDay
    | ListedForDay
    | JudgedDay(order: seq<string>)
    | ListedForFloor(order: seq<string>)
    | ChoseOldest
    | Named(order: seq<string>)
    | Tagged(title: string)
    | GaveUp

  /** The names a listing hands over, in whatever order. */
  predicate Lists(order: seq<string>, marks: Marks) {
    (forall k :: 0 <= k < |order| ==> order[k] in marks) && forall name :: name in marks ==> name in order
  }

  /** The automatic marks that could be about a day or a later one: none is made before its day is over. */
  function MarksSince(marks: Marks, d: int, day: Calendar): Marks {
    map name | name in marks && day(marks[name].made) >= d && Automatic(marks[name]) :: marks[name]
  }

  /** Whether one of the marks is about the day, by the time of the state it sits on. */
  predicate DayIsMarked(marks: Marks, d: int, history: seq<Save>, day: Calendar) {
    exists name :: name in marks && marks[name].revision < |history| && day(history[marks[name].revision].time) == d
  }

  predicate MarksRevision(marks: Marks, revision: nat) {
    exists name :: name in marks && marks[name].revision == revision
  }

  /** Whether the highest numbered version already holds the state. */
  predicate HighestHolds(key: string, order: seq<string>, marks: Marks, history: seq<Save>, revision: nat)
    requires Lists(order, marks) && revision < |history|
  {
    var top := Top(Parsed(key, order));
    top.Some? && marks[order[top.value]].revision < |history|
    && history[revision].text.Some? && history[marks[order[top.value]].revision].text == history[revision].text
  }

  // -- people ------------------------------------------------------------

  /** A version of a state that is there, under a name git can hold and with a title. */
  function MakeByPerson(w: World, name: string, revision: nat, title: string, description: string): World {
    if revision < |w.history| && w.history[revision].text.Some? && !Collides(name, w.marks.Keys) && !Blank(title) then
      w.(marks := w.marks[name := Mark(revision, w.now, Some(Body(title, description)), false)])
    else w
  }

  /** A tag set by hand has the time of the commit it marks, and no words. */
  function TagByHand(w: World, name: string, revision: nat): World {
    if revision < |w.history| && !Collides(name, w.marks.Keys) then
      w.(marks := w.marks[name := Mark(revision, w.history[revision].time, None, false)])
    else w
  }

  /** New words for a version: state and time stay, and the marker is carried over where it is read. */
  function Retitle(w: World, name: string, title: string, description: string): World {
    if name in w.marks && w.marks[name].message.Some? && !Blank(title) then
      var mark := w.marks[name];
      var body := Body(Strip(title), Stored(Automatic(mark), Strip(description)));
      w.(marks := w.marks[name := mark.(message := Some(body))])
    else w
  }

  // -- the pass ----------------------------------------------------------

  /** The window is read, under the lock. */
  function Look(w: World): World {
    if w.phase.Idle? then w.(phase := Looked(Newest(w.history, RECENT_STATES))) else w
  }

  /** The day's end is found in the window, and the versions are read; a state that has one needs none. */
  function List(w: World, day: Calendar): World {
    if !w.phase.Looked? || exists k :: 0 <= k < |w.phase.newest| && w.phase.newest[k] >= |w.history| then w
    else
      var at := EndOfPreviousDay(Stamps(w.history, w.phase.newest), day, 1);
      if at.None? || MarksRevision(w.marks, w.phase.newest[at.value]) then w.(phase := Idle)
      else w.(phase := Listed(w.phase.newest[at.value], w.marks))
  }

  /** Not on a day that has its mark, and not where the highest version holds that state already. */
  function Judge(w: World, order: seq<string>, key: string, day: Calendar): World {
    if !w.phase.Listed? || !Lists(order, w.phase.found) || w.phase.previous >= |w.history| then w
    else
      var d := day(w.history[w.phase.previous].time);
      if DayIsMarked(MarksSince(w.phase.found, d, day), d, w.history, day)
         || HighestHolds(key, order, w.phase.found, w.history, w.phase.previous) then w.(phase := Idle)
      else w.(phase := Making(w.phase.previous, AutomaticLevel(key, order)))
  }

  function ListForFloor(w: World, order: seq<string>, key: string): World {
    if !w.phase.Idle? || !Lists(order, w.marks) || Latest(key, order).Some? then w else w.(phase := FloorListed)
  }

  function ChooseOldest(w: World): World {
    if !w.phase.FloorListed? then w
    else if w.history == [] then w.(phase := Idle)
    else w.(phase := Making(0, Major))
  }

  /** The number is worked out from the versions as they are by now. */
  function Name(w: World, order: seq<string>, key: string): World {
    if !w.phase.Making? || !Lists(order, w.marks) then w
    else if w.phase.revision >= |w.history| || w.history[w.phase.revision].text.None? then w.(phase := Idle)
    else w.(phase := Naming(w.phase.revision, Candidate(key, order, w.phase.level)))
  }

  /** A day's title is one line. */
  predicate OneLine(title: string) {
    forall k :: 0 <= k < |title| ==> title[k] != '\n'
  }

  lemma OneLineExactly(title: string)
    ensures OneLine(title) <==> '\n' !in title
  {
  }

  function Tag(w: World, title: string): World {
    if !w.phase.Naming? || !OneLine(title) then w
    else if Collides(w.phase.name, w.marks.Keys) then w.(phase := Idle)
    else
      var mark := Mark(w.phase.revision, w.now, Some(Body(title, AutomaticDescription(""))), true);
      w.(phase := Idle, marks := w.marks[w.phase.name := mark])
  }

  /** One step; where it is not its turn, or it is refused, nothing changes but the pass that gives up. */
  function Next(w: World, step: Step, key: string, day: Calendar): World {
    match step
    case Saved(text) => w.(history := w.history + [Save(w.now, text)])
    case Waited(seconds) => w.(now := w.now + seconds)
    case PersonMade(name, revision, title, description) => MakeByPerson(w, name, revision, title, description)
    case PersonTagged(name, revision) => TagByHand(w, name, revision)
    case PersonRetitled(name, title, description) => Retitle(w, name, title, description)
    case PersonRemoved(name) => w.(marks := w.marks - {name})
    case LookedForDay => Look(w)
    case ListedForDay => List(w, day)
    case JudgedDay(order) => Judge(w, order, key, day)
    case ListedForFloor(order) => ListForFloor(w, order, key)
    case ChoseOldest => ChooseOldest(w)
    case Named(order) => Name(w, order, key)
    case Tagged(title) => Tag(w, title)
    case GaveUp => w.(phase := Idle)
  }

  function RunFrom(w: World, run: seq<Step>, key: string, day: Calendar): World
    decreases |run|
  {
    if run == [] then w else RunFrom(Next(w, run[0], key, day), run[1..], key, day)
  }

  // -- two ways to count, and what each asks of people -------------------

  /** Versions that read as automatic, or versions the pass made. */
  datatype Sort = ReadsSo | MadeSo

  predicate Counts(mark: Mark, sort: Sort) {
    match sort
    case ReadsSo => Automatic(mark)
    case MadeSo => mark.byPass
  }

  /**
   * For versions that read as automatic: nobody writes words that pretend to be one.
   * For versions the pass made: nobody retitles one so that it no longer reads so.
   */
  predicate Allowed(w: World, step: Step, sort: Sort) {
    match step
    case PersonMade(_, _, title, description) => sort.ReadsSo? ==> !Pretends(title, description)
    case PersonRetitled(name, title, description) =>
      name in w.marks ==>
        if Automatic(w.marks[name]) then sort.MadeSo? ==> KeepsFlag(Strip(title), Strip(description))
        else sort.ReadsSo? ==> !Pretends(Strip(title), Strip(description))
    case _ => true
  }

  /** A title without a blank line of its own, or one that opens with the marker behind it. */
  predicate KeepsFlag(title: string, description: string) {
    BlankLine(RStrip(title), 0).None? || Pretends(title, description)
  }

  predicate AllAllowed(w: World, run: seq<Step>, key: string, day: Calendar, sort: Sort)
    decreases |run|
  {
    run == [] || (Allowed(w, run[0], sort) && AllAllowed(Next(w, run[0], key, day), run[1..], key, day, sort))
  }

  predicate IsOne(marks: Marks, name: string, history: seq<Save>, sort: Sort) {
    name in marks && Counts(marks[name], sort) && marks[name].revision < |history|
  }

  /** No two of them mark states of the same day. */
  ghost predicate OneADay(marks: Marks, history: seq<Save>, day: Calendar, sort: Sort) {
    forall a, b :: IsOne(marks, a, history, sort) && IsOne(marks, b, history, sort) && a != b ==>
      day(history[marks[a].revision].time) != day(history[marks[b].revision].time)
  }

  // -- what every step keeps ---------------------------------------------

  /** A version is made after its state; what counts reads as automatic and carries a number. */
  predicate MadeAfter(name: string, mark: Mark, w: World, key: string, sort: Sort) {
    && mark.revision < |w.history| && w.history[mark.revision].time <= mark.made <= w.now
    && (Counts(mark, sort) ==> Automatic(mark) && Parse(key, name).Some?)
  }

  ghost predicate NoneOfDay(w: World, d: int, day: Calendar, sort: Sort) {
    forall name :: IsOne(w.marks, name, w.history, sort) ==> day(w.history[w.marks[name].revision].time) != d
  }

  /** The listing has the version too, on the same state and of the same time, and automatic. */
  predicate WasListed(mark: Mark, name: string, found: Marks) {
    name in found && found[name].revision == mark.revision && found[name].made == mark.made && Automatic(found[name])
  }

  /** What the pass knows is still true where it matters: only it makes what counts. */
  ghost predicate PhaseHolds(w: World, key: string, day: Calendar, sort: Sort) {
    match w.phase
    case Idle => true
    case Looked(newest) => forall k :: 0 <= k < |newest| ==> newest[k] < |w.history|
    case Listed(previous, found) =>
      previous < |w.history| && forall name :: IsOne(w.marks, name, w.history, sort) ==>
        WasListed(w.marks[name], name, found)
    case FloorListed => forall name :: !IsOne(w.marks, name, w.history, sort)
    case Making(revision, _) => revision < |w.history| && NoneOfDay(w, day(w.history[revision].time), day, sort)
    case Naming(revision, name) =>
      revision < |w.history| && Parse(key, name).Some? && NoneOfDay(w, day(w.history[revision].time), day, sort)
  }

  ghost predicate Inv(w: World, key: string, day: Calendar, sort: Sort) {
    && Ordered(w.history, w.now)
    && (forall name :: name in w.marks ==> MadeAfter(name, w.marks[name], w, key, sort))
    && OneADay(w.marks, w.history, day, sort)
    && PhaseHolds(w, key, day, sort)
  }

  /** The bound on the marks looked up loses none that is about the day. */
  lemma NoMarkIsMissed(w: World, found: Marks, d: int, key: string, day: Calendar, sort: Sort, name: string)
    requires Monotone(day) && IsOne(w.marks, name, w.history, sort) && MadeAfter(name, w.marks[name], w, key, sort)
    requires WasListed(w.marks[name], name, found)
    requires day(w.history[w.marks[name].revision].time) == d
    ensures DayIsMarked(MarksSince(found, d, day), d, w.history, day)
  {
    assert name in MarksSince(found, d, day);
  }

  lemma SavedKeeps(w: World, text: Option<string>, key: string, day: Calendar, sort: Sort)
    requires Inv(w, key, day, sort)
    ensures Inv(w.(history := w.history + [Save(w.now, text)]), key, day, sort)
  {
    var next := w.(history := w.history + [Save(w.now, text)]);
    assert forall k :: 0 <= k < |w.history| ==> next.history[k] == w.history[k];
    forall name | name in w.marks ensures MadeAfter(name, w.marks[name], next, key, sort) {
      assert MadeAfter(name, w.marks[name], w, key, sort);
    }
    assert forall name :: IsOne(next.marks, name, next.history, sort) <==> IsOne(w.marks, name, w.history, sort);
  }

  lemma WaitedKeeps(w: World, seconds: nat, key: string, day: Calendar, sort: Sort)
    requires Inv(w, key, day, sort)
    ensures Inv(w.(now := w.now + seconds), key, day, sort)
  {
    forall name | name in w.marks ensures MadeAfter(name, w.marks[name], w.(now := w.now + seconds), key, sort) {
      assert MadeAfter(name, w.marks[name], w, key, sort);
    }
  }

  /** Where the mark counts, it counted before, on the same state and of the same time. */
  predicate CountedBefore(mark: Mark, name: string, marks: Marks, sort: Sort) {
    Counts(mark, sort) ==>
      && name in marks && Counts(marks[name], sort)
      && marks[name].revision == mark.revision && marks[name].made == mark.made
  }

  /** Whatever people do, as long as nothing counts that did not. */
  lemma PeopleKeep(w: World, marks: Marks, key: string, day: Calendar, sort: Sort)
    requires Inv(w, key, day, sort)
    requires forall name :: name in marks ==>
      MadeAfter(name, marks[name], w, key, sort) && CountedBefore(marks[name], name, w.marks, sort)
    ensures Inv(w.(marks := marks), key, day, sort)
  {
    forall name | IsOne(marks, name, w.history, sort)
      ensures IsOne(w.marks, name, w.history, sort) && w.marks[name].revision == marks[name].revision
        && w.marks[name].made == marks[name].made
    {
      assert CountedBefore(marks[name], name, w.marks, sort);
    }
    forall name | name in marks ensures MadeAfter(name, marks[name], w.(marks := marks), key, sort) {
      assert MadeAfter(name, marks[name], w, key, sort);
    }
  }

  lemma MakeKeeps(w: World, name: string, revision: nat, title: string, description: string, key: string,
                  day: Calendar, sort: Sort)
    requires Inv(w, key, day, sort) && Allowed(w, PersonMade(name, revision, title, description), sort)
    ensures Inv(MakeByPerson(w, name, revision, title, description), key, day, sort)
  {
    PretendsExactly(title, description);
    var next := MakeByPerson(w, name, revision, title, description);
    if next != w {
      OneChanged(w, name, next.marks[name], key, day, sort);
    }
  }

  lemma TagByHandKeeps(w: World, name: string, revision: nat, key: string, day: Calendar, sort: Sort)
    requires Inv(w, key, day, sort)
    ensures Inv(TagByHand(w, name, revision), key, day, sort)
  {
    var next := TagByHand(w, name, revision);
    if next != w {
      OneChanged(w, name, next.marks[name], key, day, sort);
    }
  }

  /** New words leave a version reading as automatic only where it did, and leave one of the pass reading so. */
  lemma RetitledReads(mark: Mark, title: string, description: string)
    requires mark.message.Some?
    ensures var longer := mark.(message := Some(Body(title, Stored(Automatic(mark), description))));
      Automatic(longer) <==> if Automatic(mark) then KeepsFlag(title, description) else Pretends(title, description)
  {
    if Automatic(mark) {
      FlagSurvivesExactly(title, description);
    } else {
      PretendsExactly(title, description);
    }
  }

  /** Same state, same time; it counts only if it did, and reads as automatic if it counts. */
  lemma RetitledCounts(mark: Mark, title: string, description: string, sort: Sort)
    requires mark.message.Some? && (Counts(mark, sort) ==> Automatic(mark))
    requires if Automatic(mark) then sort.MadeSo? ==> KeepsFlag(title, description)
             else sort.ReadsSo? ==> !Pretends(title, description)
    ensures var longer := mark.(message := Some(Body(title, Stored(Automatic(mark), description))));
      Counts(longer, sort) ==> Counts(mark, sort) && Automatic(longer)
  {
    RetitledReads(mark, title, description);
  }

  lemma RetitleKeeps(w: World, name: string, title: string, description: string, key: string, day: Calendar, sort: Sort)
    requires Inv(w, key, day, sort) && Allowed(w, PersonRetitled(name, title, description), sort)
    ensures Inv(Retitle(w, name, title, description), key, day, sort)
  {
    if name in w.marks && w.marks[name].message.Some? && !Blank(title) {
      var mark := w.marks[name];
      var longer := mark.(message := Some(Body(Strip(title), Stored(Automatic(mark), Strip(description)))));
      assert MadeAfter(name, mark, w, key, sort);
      RetitledCounts(mark, Strip(title), Strip(description), sort);
      OneChanged(w, name, longer, key, day, sort);
    }
  }

  lemma OneChanged(w: World, name: string, mark: Mark, key: string, day: Calendar, sort: Sort)
    requires Inv(w, key, day, sort)
    requires MadeAfter(name, mark, w, key, sort) && CountedBefore(mark, name, w.marks, sort)
    ensures Inv(w.(marks := w.marks[name := mark]), key, day, sort)
  {
    var marks := w.marks[name := mark];
    forall one | one in marks
      ensures MadeAfter(one, marks[one], w, key, sort) && CountedBefore(marks[one], one, w.marks, sort)
    {
      assert one in w.marks ==> MadeAfter(one, w.marks[one], w, key, sort);
    }
    PeopleKeep(w, marks, key, day, sort);
  }

  lemma RemovedKeeps(w: World, name: string, key: string, day: Calendar, sort: Sort)
    requires Inv(w, key, day, sort)
    ensures Inv(w.(marks := w.marks - {name}), key, day, sort)
  {
    PeopleKeep(w, w.marks - {name}, key, day, sort);
  }

  /** A pass that moves on keeps everything, as long as what it knows is true. */
  lemma PhaseKeeps(w: World, phase: Phase, key: string, day: Calendar, sort: Sort)
    requires Inv(w, key, day, sort) && PhaseHolds(w.(phase := phase), key, day, sort)
    ensures Inv(w.(phase := phase), key, day, sort)
  {
    forall name | name in w.marks ensures MadeAfter(name, w.marks[name], w.(phase := phase), key, sort) {
      assert MadeAfter(name, w.marks[name], w, key, sort);
    }
  }

  lemma ListKeeps(w: World, key: string, day: Calendar, sort: Sort)
    requires Inv(w, key, day, sort)
    ensures Inv(List(w, day), key, day, sort)
  {
    var next := List(w, day);
    forall name | IsOne(w.marks, name, w.history, sort) ensures WasListed(w.marks[name], name, w.marks) {
      assert MadeAfter(name, w.marks[name], w, key, sort);
    }
    PhaseKeeps(w, next.phase, key, day, sort);
  }

  lemma JudgeKeeps(w: World, order: seq<string>, key: string, day: Calendar, sort: Sort)
    requires Inv(w, key, day, sort) && Monotone(day)
    ensures Inv(Judge(w, order, key, day), key, day, sort)
  {
    var next := Judge(w, order, key, day);
    if next.phase.Making? && w.phase.Listed? {
      var d := day(w.history[w.phase.previous].time);
      forall name | IsOne(w.marks, name, w.history, sort) ensures day(w.history[w.marks[name].revision].time) != d {
        if day(w.history[w.marks[name].revision].time) == d {
          NoMarkIsMissed(w, w.phase.found, d, key, day, sort, name);
        }
      }
    }
    PhaseKeeps(w, next.phase, key, day, sort);
  }

  lemma NoneNumbered(order: seq<string>, marks: Marks, key: string)
    requires Lists(order, marks) && Latest(key, order).None?
    ensures forall name :: name in marks ==> Parse(key, name).None?
  {
  }

  lemma NoneCounts(w: World, key: string, day: Calendar, sort: Sort)
    requires Inv(w, key, day, sort) && forall name :: name in w.marks ==> Parse(key, name).None?
    ensures forall name :: !IsOne(w.marks, name, w.history, sort)
  {
    forall name | name in w.marks ensures !Counts(w.marks[name], sort) {
      assert MadeAfter(name, w.marks[name], w, key, sort);
    }
  }

  lemma FloorKeeps(w: World, order: seq<string>, key: string, day: Calendar, sort: Sort)
    requires Inv(w, key, day, sort)
    ensures Inv(ListForFloor(w, order, key), key, day, sort)
  {
    if Lists(order, w.marks) && Latest(key, order).None? {
      NoneNumbered(order, w.marks, key);
      NoneCounts(w, key, day, sort);
    }
    PhaseKeeps(w, ListForFloor(w, order, key).phase, key, day, sort);
  }

  lemma NameKeeps(w: World, order: seq<string>, key: string, day: Calendar, sort: Sort)
    requires Inv(w, key, day, sort)
    ensures Inv(Name(w, order, key), key, day, sort)
  {
    if w.phase.Making? {
      CandidateIsNumbered(key, order, w.phase.level);
    }
    PhaseKeeps(w, Name(w, order, key).phase, key, day, sort);
  }

  lemma OneMoreADay(marks: Marks, name: string, mark: Mark, history: seq<Save>, day: Calendar, sort: Sort)
    requires OneADay(marks, history, day, sort) && mark.revision < |history|
    requires forall other :: IsOne(marks, other, history, sort) ==>
      day(history[marks[other].revision].time) != day(history[mark.revision].time)
    ensures OneADay(marks[name := mark], history, day, sort)
  {
    assert forall other :: IsOne(marks[name := mark], other, history, sort) && other != name ==>
      IsOne(marks, other, history, sort);
  }

  /** What the pass makes reads as automatic. */
  lemma TagReads(title: string)
    requires OneLine(title)
    ensures ReadsAutomatic(title, AutomaticDescription(""))
  {
    var r := RStrip(title);
    assert forall k :: 0 <= k < |r| ==> r[k] == title[k];
    FlagIsCarriedOver(title, "", true);
  }

  lemma TagKeeps(w: World, title: string, key: string, day: Calendar, sort: Sort)
    requires Inv(w, key, day, sort)
    ensures Inv(Tag(w, title), key, day, sort)
  {
    if w.phase.Naming? && OneLine(title) && !Collides(w.phase.name, w.marks.Keys) {
      TagReads(title);
      OneMoreADay(w.marks, w.phase.name, Tag(w, title).marks[w.phase.name], w.history, day, sort);
      TagsStayAfter(w, title, key, day, sort);
    } else {
      PhaseKeeps(w, Idle, key, day, sort);
    }
  }

  lemma TagsStayAfter(w: World, title: string, key: string, day: Calendar, sort: Sort)
    requires Inv(w, key, day, sort) && w.phase.Naming? && OneLine(title) && !Collides(w.phase.name, w.marks.Keys)
    ensures forall name :: name in Tag(w, title).marks ==>
      MadeAfter(name, Tag(w, title).marks[name], Tag(w, title), key, sort)
  {
    TagReads(title);
    forall name | name in Tag(w, title).marks
      ensures MadeAfter(name, Tag(w, title).marks[name], Tag(w, title), key, sort)
    {
      assert name in w.marks ==> MadeAfter(name, w.marks[name], w, key, sort);
    }
  }

  lemma StepKeeps(w: World, step: Step, key: string, day: Calendar, sort: Sort)
    requires Inv(w, key, day, sort) && Monotone(day) && Allowed(w, step, sort)
    ensures Inv(Next(w, step, key, day), key, day, sort)
  {
    match step
    case Saved(text) => SavedKeeps(w, text, key, day, sort);
    case Waited(seconds) => WaitedKeeps(w, seconds, key, day, sort);
    case PersonMade(name, revision, title, description) =>
      MakeKeeps(w, name, revision, title, description, key, day, sort);
    case PersonTagged(name, revision) => TagByHandKeeps(w, name, revision, key, day, sort);
    case PersonRetitled(name, title, description) => RetitleKeeps(w, name, title, description, key, day, sort);
    case PersonRemoved(name) => RemovedKeeps(w, name, key, day, sort);
    case LookedForDay => PhaseKeeps(w, Look(w).phase, key, day, sort);
    case ListedForDay => ListKeeps(w, key, day, sort);
    case JudgedDay(order) => JudgeKeeps(w, order, key, day, sort);
    case ListedForFloor(order) => FloorKeeps(w, order, key, day, sort);
    case ChoseOldest => PhaseKeeps(w, ChooseOldest(w).phase, key, day, sort);
    case Named(order) => NameKeeps(w, order, key, day, sort);
    case Tagged(title) => TagKeeps(w, title, key, day, sort);
    case GaveUp => PhaseKeeps(w, Idle, key, day, sort);
  }

  // -- at most one a day -------------------------------------------------

  /** However saves, people, the floor and the day mark interleave. */
  lemma {:induction false} AtMostOneADay(w: World, run: seq<Step>, key: string, day: Calendar, sort: Sort)
    requires Inv(w, key, day, sort) && Monotone(day) && AllAllowed(w, run, key, day, sort)
    ensures Inv(RunFrom(w, run, key, day), key, day, sort)
    ensures OneADay(RunFrom(w, run, key, day).marks, RunFrom(w, run, key, day).history, day, sort)
    decreases |run|
  {
    if run != [] {
      StepKeeps(w, run[0], key, day, sort);
      AtMostOneADay(Next(w, run[0], key, day), run[1..], key, day, sort);
    }
  }

  /** Nothing recorded yet: where every run starts. */
  function Start(now: int): World {
    World([], map[], now, Idle)
  }

  /** At most one version that reads as automatic a day, blank lines in titles and all, while nobody's words pretend. */
  lemma OneReadingAutomaticADay(now: int, run: seq<Step>, key: string, day: Calendar)
    requires Monotone(day) && AllAllowed(Start(now), run, key, day, ReadsSo)
    ensures var w := RunFrom(Start(now), run, key, day); OneADay(w.marks, w.history, day, ReadsSo)
  {
    AtMostOneADay(Start(now), run, key, day, ReadsSo);
  }

  /** At most one version made by the pass a day, whatever people's words pretend, while no retitle loses the marker. */
  lemma OneMadeByThePassADay(now: int, run: seq<Step>, key: string, day: Calendar)
    requires Monotone(day) && AllAllowed(Start(now), run, key, day, MadeSo)
    ensures var w := RunFrom(Start(now), run, key, day); OneADay(w.marks, w.history, day, MadeSo)
  {
    AtMostOneADay(Start(now), run, key, day, MadeSo);
  }

  // -- a title that loses the marker -------------------------------------

  lemma {:induction false} OneStepMore(w: World, run: seq<Step>, step: Step, key: string, day: Calendar, sort: Sort)
    requires AllAllowed(w, run, key, day, sort) && Allowed(RunFrom(w, run, key, day), step, sort)
    ensures RunFrom(w, run + [step], key, day) == Next(RunFrom(w, run, key, day), step, key, day)
    ensures AllAllowed(w, run + [step], key, day, sort)
    decreases |run|
  {
    if run == [] {
      assert [step][1..] == [];
    } else {
      assert (run + [step])[1..] == run[1..] + [step];
      OneStepMore(Next(w, run[0], key, day), run[1..], step, key, day, sort);
    }
  }

  /** Some run in which nobody's words pretend leads here. */
  ghost predicate Reachable(w: World, now: int, key: string, day: Calendar) {
    exists run :: AllAllowed(Start(now), run, key, day, ReadsSo) && RunFrom(Start(now), run, key, day) == w
  }

  lemma StartIsReachable(now: int, key: string, day: Calendar)
    ensures Reachable(Start(now), now, key, day)
  {
    assert AllAllowed(Start(now), [], key, day, ReadsSo) && RunFrom(Start(now), [], key, day) == Start(now);
  }

  lemma Go(w: World, step: Step, next: World, now: int, key: string, day: Calendar)
    requires Reachable(w, now, key, day) && Allowed(w, step, ReadsSo) && next == Next(w, step, key, day)
    ensures Reachable(next, now, key, day)
  {
    var run :| AllAllowed(Start(now), run, key, day, ReadsSo) && RunFrom(Start(now), run, key, day) == w;
    OneStepMore(Start(now), run, step, key, day, ReadsSo);
  }

  function PassMessage(title: string): Option<string> {
    Some(Body(title, AutomaticDescription("")))
  }

  /** Two states of one day. */
  function TwoStates(now: int): seq<Save> {
    [Save(now, Some("one")), Save(now, Some("other"))]
  }

  lemma TwoSaved(now: int, key: string, day: Calendar)
    ensures Reachable(World(TwoStates(now), map[], now, Idle), now, key, day)
  {
    StartIsReachable(now, key, day);
    var one := World([Save(now, Some("one"))], map[], now, Idle);
    Go(Start(now), Saved(Some("one")), one, now, key, day);
    assert [Save(now, Some("one"))] + [Save(now, Some("other"))] == TwoStates(now);
    Go(one, Saved(Some("other")), World(TwoStates(now), map[], now, Idle), now, key, day);
  }

  lemma FloorIsChosen(now: int, key: string, day: Calendar)
    ensures Reachable(World(TwoStates(now), map[], now, Making(0, Major)), now, key, day)
  {
    TwoSaved(now, key, day);
    var w := World(TwoStates(now), map[], now, Idle);
    Go(w, ListedForFloor([]), w.(phase := FloorListed), now, key, day);
    Go(w.(phase := FloorListed), ChoseOldest, w.(phase := Making(0, Major)), now, key, day);
  }

  lemma FloorIsNamed(now: int, key: string, day: Calendar)
    ensures Reachable(World(TwoStates(now), map[], now, Naming(0, Candidate(key, [], Major))), now, key, day)
  {
    FloorIsChosen(now, key, day);
    var w := World(TwoStates(now), map[], now, Making(0, Major));
    Go(w, Named([]), w.(phase := Naming(0, Candidate(key, [], Major))), now, key, day);
  }

  /** The floor on the first of them. */
  function Floor(now: int, title: string, key: string): Marks {
    map[Candidate(key, [], Major) := Mark(0, now, PassMessage(title), true)]
  }

  lemma FloorIsLaid(now: int, title: string, key: string, day: Calendar)
    requires OneLine(title)
    ensures Reachable(World(TwoStates(now), Floor(now, title, key), now, Idle), now, key, day)
  {
    FloorIsNamed(now, key, day);
    var w := World(TwoStates(now), map[], now, Naming(0, Candidate(key, [], Major)));
    Go(w, Tagged(title), World(TwoStates(now), Floor(now, title, key), now, Idle), now, key, day);
  }

  /** The floor under a new title. */
  function Lost(now: int, lost: string): Mark {
    Mark(0, now, Some(Body(Strip(lost), Stored(true, ""))), true)
  }

  lemma LostReadsNoMore(now: int, title: string, lost: string)
    requires OneLine(title) && !KeepsFlag(Strip(lost), "")
    ensures Automatic(Mark(0, now, PassMessage(title), true)) && !Automatic(Lost(now, lost))
  {
    TagReads(title);
    FlagSurvivesExactly(Strip(lost), "");
  }

  lemma RetitledTo(w: World, first: string, mark: Mark, lost: string)
    requires w.marks == map[first := mark] && Automatic(mark) && !Blank(lost)
    ensures Retitle(w, first, lost, "") ==
      w.(marks := map[first := mark.(message := Some(Body(Strip(lost), Stored(true, ""))))])
  {
    assert Strip("") == "";
  }

  /** A title that loses the marker. */
  lemma MarkerIsLost(now: int, title: string, lost: string, key: string, day: Calendar)
    requires OneLine(title) && !Blank(lost) && !KeepsFlag(Strip(lost), "")
    ensures Reachable(World(TwoStates(now), map[Candidate(key, [], Major) := Lost(now, lost)], now, Idle),
                      now, key, day)
  {
    FloorIsLaid(now, title, key, day);
    LostReadsNoMore(now, title, lost);
    var first := Candidate(key, [], Major);
    var w := World(TwoStates(now), Floor(now, title, key), now, Idle);
    RetitledTo(w, first, Mark(0, now, PassMessage(title), true), lost);
    Go(w, PersonRetitled(first, lost, ""), w.(marks := map[first := Lost(now, lost)]), now, key, day);
  }

  function ThreeStates(now: int, later: int): seq<Save> {
    TwoStates(now) + [Save(later, Some("third"))]
  }

  /** A save on a later day. */
  lemma SavedLater(now: int, seconds: nat, marks: Marks, key: string, day: Calendar)
    requires Reachable(World(TwoStates(now), marks, now, Idle), now, key, day)
    ensures Reachable(World(ThreeStates(now, now + seconds), marks, now + seconds, Idle), now, key, day)
  {
    var w := World(TwoStates(now), marks, now, Idle);
    Go(w, Waited(seconds), w.(now := now + seconds), now, key, day);
    Go(w.(now := now + seconds), Saved(Some("third")),
       World(ThreeStates(now, now + seconds), marks, now + seconds, Idle), now, key, day);
  }

  /** The day ended on the second state, which nothing marks. */
  lemma DayEndIsFound(w: World, now: int, key: string, day: Calendar)
    requires Reachable(w, now, key, day) && w.phase == Idle && |w.history| == 3
    requires day(w.history[1].time) != day(w.history[2].time) && !MarksRevision(w.marks, 1)
    ensures Reachable(w.(phase := Listed(1, w.marks)), now, key, day)
  {
    var newest := Newest(w.history, RECENT_STATES);
    Go(w, LookedForDay, w.(phase := Looked(newest)), now, key, day);
    assert newest[0] == 2 && newest[1] == 1;
    assert EndOfPreviousDay(Stamps(w.history, newest), day, 1) == Some(1);
    Go(w.(phase := Looked(newest)), ListedForDay, w.(phase := Listed(1, w.marks)), now, key, day);
  }

  lemma NotJudgedMarked(w: World, first: string, mark: Mark, key: string, day: Calendar)
    requires |w.history| == 3 && w.marks == map[first := mark] && !Automatic(mark) && mark.revision == 0
    requires w.history[0].text != w.history[1].text && Parse(key, first).Some?
    ensures Judge(w.(phase := Listed(1, w.marks)), [first], key, day) ==
      w.(phase := Making(1, AutomaticLevel(key, [first])))
  {
    var listed := w.(phase := Listed(1, w.marks));
    NoneSince(w.marks, first, mark, day(w.history[1].time), day);
    HighestIsTheOne(key, first);
    assert !HighestHolds(key, [first], w.marks, w.history, 1);
  }

  lemma NoneSince(marks: Marks, first: string, mark: Mark, d: int, day: Calendar)
    requires marks == map[first := mark] && !Automatic(mark)
    ensures MarksSince(marks, d, day) == map[]
  {
  }

  lemma HighestIsTheOne(key: string, first: string)
    requires Parse(key, first).Some?
    ensures Top(Parsed(key, [first])) == Some(0)
  {
    assert Parsed(key, [first])[0].Some?;
  }

  /** The second version's name. */
  function SecondName(key: string, first: string): string {
    Candidate(key, [first], AutomaticLevel(key, [first]))
  }

  lemma SecondIsNamed(w: World, first: string, mark: Mark, now: int, key: string, day: Calendar)
    requires Reachable(w.(phase := Listed(1, w.marks)), now, key, day)
    requires |w.history| == 3 && w.marks == map[first := mark] && !Automatic(mark) && mark.revision == 0
    requires w.history[0].text != w.history[1].text && w.history[1].text.Some? && Parse(key, first).Some?
    ensures Reachable(w.(phase := Naming(1, SecondName(key, first))), now, key, day)
  {
    NotJudgedMarked(w, first, mark, key, day);
    var making := w.(phase := Making(1, AutomaticLevel(key, [first])));
    Go(w.(phase := Listed(1, w.marks)), JudgedDay([first]), making, now, key, day);
    Go(making, Named([first]), w.(phase := Naming(1, SecondName(key, first))), now, key, day);
  }

  lemma SecondIsTagged(w: World, first: string, mark: Mark, title: string, now: int, key: string, day: Calendar)
    returns (marks: Marks)
    requires Reachable(w.(phase := Naming(1, SecondName(key, first))), now, key, day) && OneLine(title)
    requires w.marks == map[first := mark] && Parse(key, first).Some? && w.phase == Idle
    ensures SecondName(key, first) != first
    ensures marks == map[first := mark, SecondName(key, first) := Mark(1, w.now, PassMessage(title), true)]
    ensures Reachable(w.(marks := marks), now, key, day)
  {
    var name := SecondName(key, first);
    CandidatesNeverCollide(key, [first], AutomaticLevel(key, [first]), first);
    marks := map[first := mark, name := Mark(1, w.now, PassMessage(title), true)];
    assert marks == w.marks[name := Mark(1, w.now, PassMessage(title), true)];
    TagOnto(w, 1, name, title);
    Go(w.(phase := Naming(1, name)), Tagged(title), w.(marks := marks), now, key, day);
  }

  lemma TagOnto(w: World, revision: nat, name: string, title: string)
    requires OneLine(title) && !Collides(name, w.marks.Keys) && w.phase == Idle
    ensures Tag(w.(phase := Naming(revision, name)), title) ==
      w.(marks := w.marks[name := Mark(revision, w.now, PassMessage(title), true)])
  {
  }

  /**
   * One retitle is enough: after it the day of the floor is marked a second time,
   * although nobody's words ever pretended to be an automatic version.
   */
  lemma LostMarkerMarksTwice(now: int, seconds: nat, title: string, lost: string, key: string, day: Calendar)
    returns (run: seq<Step>)
    requires OneLine(title) && !Blank(lost) && !KeepsFlag(Strip(lost), "") && day(now + seconds) != day(now)
    ensures AllAllowed(Start(now), run, key, day, ReadsSo)
    ensures var w := RunFrom(Start(now), run, key, day); !OneADay(w.marks, w.history, day, MadeSo)
  {
    var first := Candidate(key, [], Major);
    CandidateIsNumbered(key, [], Major);
    MarkerIsLost(now, title, lost, key, day);
    LostReadsNoMore(now, title, lost);
    var w := MarkedTwice(now, seconds, first, Lost(now, lost), title, key, day);
    ThreeStatesAre(now, now + seconds);
    TwoOfOneDay(w, first, SecondName(key, first), day);
    run :| AllAllowed(Start(now), run, key, day, ReadsSo) && RunFrom(Start(now), run, key, day) == w;
  }

  lemma ThreeStatesAre(now: int, later: int)
    ensures var h := ThreeStates(now, later);
      && |h| == 3 && h[0].time == now && h[1].time == now && h[2].time == later
      && h[0].text != h[1].text && h[1].text.Some?
  {
    assert |"one"| != |"other"|;
  }

  /** From a lost marker and a save on a later day to the second mark. */
  lemma MarkedAgain(w: World, first: string, mark: Mark, title: string, now: int, key: string, day: Calendar)
    returns (next: World)
    requires Reachable(w, now, key, day) && w.phase == Idle && w.marks == map[first := mark] && OneLine(title)
    requires Parse(key, first).Some? && mark.revision == 0 && !Automatic(mark)
    requires |w.history| == 3 && w.history[0].text != w.history[1].text && w.history[1].text.Some?
    requires day(w.history[1].time) != day(w.history[2].time)
    ensures Reachable(next, now, key, day) && next.history == w.history
    ensures MarksBoth(next.marks, first, mark, SecondName(key, first), w.now, title)
  {
    DayEndIsFound(w, now, key, day);
    SecondIsNamed(w, first, mark, now, key, day);
    var marks := SecondIsTagged(w, first, mark, title, now, key, day);
    next := w.(marks := marks);
  }

  /** The mark there was, and one of the pass on the second state. */
  predicate MarksBoth(marks: Marks, first: string, mark: Mark, second: string, made: int, title: string) {
    && first != second && first in marks && marks[first] == mark
    && second in marks && marks[second] == Mark(1, made, PassMessage(title), true)
  }

  /** The same from the two states on, a later day in between. */
  lemma MarkedTwice(now: int, seconds: nat, first: string, mark: Mark, title: string, key: string, day: Calendar)
    returns (w: World)
    requires Reachable(World(TwoStates(now), map[first := mark], now, Idle), now, key, day) && OneLine(title)
    requires Parse(key, first).Some? && mark.revision == 0 && !Automatic(mark) && day(now + seconds) != day(now)
    ensures Reachable(w, now, key, day) && w.history == ThreeStates(now, now + seconds)
    ensures MarksBoth(w.marks, first, mark, SecondName(key, first), now + seconds, title)
  {
    SavedLater(now, seconds, map[first := mark], key, day);
    ThreeStatesAre(now, now + seconds);
    w := World(ThreeStates(now, now + seconds), map[first := mark], now + seconds, Idle);
    w := MarkedAgain(w, first, mark, title, now, key, day);
  }

  lemma TwoOfOneDay(w: World, first: string, second: string, day: Calendar)
    requires first in w.marks && second in w.marks && first != second
    requires w.marks[first].byPass && w.marks[first].revision == 0 && w.marks[second].byPass
    requires w.marks[second].revision == 1
    requires |w.history| == 3 && w.history[0].time == w.history[1].time
    ensures !OneADay(w.marks, w.history, day, MadeSo)
  {
    assert IsOne(w.marks, first, w.history, MadeSo) && IsOne(w.marks, second, w.history, MadeSo);
  }

  /** Such a title: two words with a blank line between them. */
  lemma TwoWordsLoseIt()
    ensures !Blank("a\n\nb") && !KeepsFlag(Strip("a\n\nb"), "")
  {
    var lost := "a\n\nb";
    assert RStrip(lost) == lost && LStrip(lost) == lost;
    assert BlankLineAt(lost, 1);
    assert lost[3..] == "b";
    var b := "b";
    assert Strip(b) == b && LineEnd(b, 0) == 1 && b[..1] == b;
    assert |AUTOMATIC| > 1;
  }
}
