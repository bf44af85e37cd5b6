/** What one pass of the milestones comes to when nothing gets in between: exactly the mark that is due. */
module DayPass {
  import opened Wrappers
  import opened TagNames
  import opened Versions
  import opened VersionWords
  import opened DayMarks
  import opened Milestones

  // -- the day's mark ----------------------------------------------------

  /** The last state of the day before the newest one's, if the last twenty states reach back to it. */
  ghost predicate EndsTheDayBefore(history: seq<Save>, revision: nat, day: Calendar) {
    && revision + 1 < |history| < revision + 1 + 20
    && day(history[revision].time) != day(history[|history| - 1].time)
    && forall k :: revision < k < |history| ==> day(history[k].time) == day(history[|history| - 1].time)
  }

  /** Of the numbered names the highest, the first of several. */
  predicate IsHighest(key: string, order: seq<string>, k: nat) {
    && k < |order| && Parse(key, order[k]).Some?
    && (forall j :: 0 <= j < |order| && Parse(key, order[j]).Some? ==>
          !Less(Parse(key, order[k]).value, Parse(key, order[j]).value))
    && (forall j :: 0 <= j < k && Parse(key, order[j]).Some? ==>
          Less(Parse(key, order[j]).value, Parse(key, order[k]).value))
  }

  /** An automatic version, made that day or later, marks a state of the day. */
  predicate HasItsMark(marks: Marks, d: int, history: seq<Save>, day: Calendar) {
    exists name :: name in marks && Automatic(marks[name]) && day(marks[name].made) >= d
      && marks[name].revision < |history| && day(history[marks[name].revision].time) == d
  }

  /** The highest numbered version holds the very state. */
  ghost predicate HeldByTheHighest(key: string, order: seq<string>, w: World, revision: nat)
    requires revision < |w.history|
  {
    exists k: nat :: IsHighest(key, order, k) && order[k] in w.marks && w.marks[order[k]].revision < |w.history|
      && w.history[revision].text.Some? && w.history[w.marks[order[k]].revision].text == w.history[revision].text
  }

  /** v1.0.0 on a dashboard without a number, and otherwise one patch above the highest. */
  ghost predicate IsNextName(key: string, order: seq<string>, name: string) {
    if forall k :: 0 <= k < |order| ==> Parse(key, order[k]).None? then name == key + "/v1.0.0"
    else exists k: nat :: IsHighest(key, order, k) && name == NextPatch(key, Parse(key, order[k]).value)
  }

  function NextPatch(key: string, number: Number): string {
    VersionName(key, Number(number.major, number.minor, number.patch + 1))
  }

  /** When the state closes its day and nothing speaks against marking it. */
  ghost predicate Due(w: World, revision: nat, order: seq<string>, name: string, key: string, day: Calendar) {
    && EndsTheDayBefore(w.history, revision, day) && w.history[revision].text.Some?
    && (forall one :: one in w.marks ==> w.marks[one].revision != revision)
    && !HasItsMark(w.marks, day(w.history[revision].time), w.history, day)
    && !HeldByTheHighest(key, order, w, revision)
    && IsNextName(key, order, name) && !Collides(name, w.marks.Keys)
  }

  function Pass(w: World, order: seq<string>, title: string, key: string, day: Calendar): World {
    Next(Next(Next(Next(Next(w, LookedForDay, key, day), ListedForDay, key, day), JudgedDay(order), key, day),
              Named(order), key, day), Tagged(title), key, day)
  }

  lemma DayEndExactly(history: seq<Save>, revision: nat, day: Calendar)
    ensures DayEnd(history, day) == Some(revision) <==> EndsTheDayBefore(history, revision, day)
  {
    var newest := Newest(history, RECENT_STATES);
    var stamps := Stamps(history, newest);
    var at := EndOfPreviousDay(stamps, day, 1);
    if at.Some? && newest[at.value] == revision {
      forall k | revision < k < |history| ensures day(history[k].time) == day(history[|history| - 1].time) {
        assert stamps[|history| - 1 - k] == history[k].time && stamps[0] == history[|history| - 1].time;
      }
    }
    if EndsTheDayBefore(history, revision, day) {
      OnlyEnd(history, revision, day);
    }
  }

  lemma OnlyEnd(history: seq<Save>, revision: nat, day: Calendar)
    requires EndsTheDayBefore(history, revision, day)
    ensures DayEnd(history, day) == Some(revision)
  {
    var newest := Newest(history, RECENT_STATES);
    var stamps := Stamps(history, newest);
    var i := |history| - 1 - revision;
    assert stamps[i] == history[revision].time && stamps[0] == history[|history| - 1].time;
    forall k | 1 <= k < i ensures day(stamps[k]) == day(stamps[0]) {
      assert stamps[k] == history[|history| - 1 - k].time;
    }
  }

  predicate IsTop(parsed: seq<Option<Number>>, k: nat) {
    && k < |parsed| && parsed[k].Some?
    && (forall j :: 0 <= j < |parsed| && parsed[j].Some? ==> !Less(parsed[k].value, parsed[j].value))
    && (forall j :: 0 <= j < k && parsed[j].Some? ==> Less(parsed[j].value, parsed[k].value))
  }

  lemma TopIsTop(parsed: seq<Option<Number>>, k: nat)
    ensures Top(parsed) == Some(k) <==> IsTop(parsed, k)
  {
    var top := Top(parsed);
    assert top.Some? ==> IsTop(parsed, top.value);
  }

  lemma TopIsHighest(key: string, order: seq<string>, k: nat)
    ensures Top(Parsed(key, order)) == Some(k) <==> IsHighest(key, order, k)
  {
    TopIsTop(Parsed(key, order), k);
    HighestIsTop(key, order, Parsed(key, order), k);
  }

  lemma HighestIsTop(key: string, order: seq<string>, parsed: seq<Option<Number>>, k: nat)
    requires |parsed| == |order| && forall j :: 0 <= j < |order| ==> parsed[j] == Parse(key, order[j])
    ensures IsTop(parsed, k) <==> IsHighest(key, order, k)
  {
  }

  /** The first of the highest, as the versions count it, and None exactly where no name is a number. */
  lemma HighestOf(key: string, order: seq<string>) returns (top: Option<nat>)
    ensures top == Top(Parsed(key, order))
    ensures forall k: nat :: IsHighest(key, order, k) <==> top == Some(k)
    ensures top.None? <==> forall k :: 0 <= k < |order| ==> Parse(key, order[k]).None?
  {
    top := Top(Parsed(key, order));
    forall k: nat ensures IsHighest(key, order, k) <==> top == Some(k) {
      TopIsHighest(key, order, k);
    }
    forall k | top.None? && 0 <= k < |order| ensures Parse(key, order[k]).None? {
      assert Parsed(key, order)[k].None?;
    }
    if top.Some? {
      assert Parsed(key, order)[top.value].Some?;
    }
  }

  lemma HeldExactly(key: string, order: seq<string>, w: World, revision: nat)
    requires Lists(order, w.marks) && revision < |w.history|
    ensures HighestHolds(key, order, w.marks, w.history, revision) <==> HeldByTheHighest(key, order, w, revision)
  {
    var top := HighestOf(key, order);
    if top.Some? {
      HeldAt(key, order, w, revision, top.value);
    }
  }

  lemma HeldAt(key: string, order: seq<string>, w: World, revision: nat, k: nat)
    requires Lists(order, w.marks) && revision < |w.history| && IsHighest(key, order, k)
    requires forall j: nat :: IsHighest(key, order, j) ==> j == k
    ensures HeldByTheHighest(key, order, w, revision) <==>
      (&& w.marks[order[k]].revision < |w.history| && w.history[revision].text.Some?
       && w.history[w.marks[order[k]].revision].text == w.history[revision].text)
  {
  }

  lemma MarkedExactly(marks: Marks, d: int, history: seq<Save>, day: Calendar)
    ensures DayIsMarked(MarksSince(marks, d, day), d, history, day) <==> HasItsMark(marks, d, history, day)
  {
    if HasItsMark(marks, d, history, day) {
      var name :| name in marks && Automatic(marks[name]) && day(marks[name].made) >= d
        && marks[name].revision < |history| && day(history[marks[name].revision].time) == d;
      assert name in MarksSince(marks, d, day);
    }
  }

  lemma NextNameExactly(key: string, order: seq<string>, name: string)
    ensures IsNextName(key, order, name) <==> name == Candidate(key, order, AutomaticLevel(key, order))
  {
    var top := HighestOf(key, order);
    if top.None? {
      FirstAutomaticIsOne(key, order);
    } else {
      AutomaticCountsPatches(key, order, top.value);
      OneNextName(key, order, name, top.value);
    }
  }

  lemma OneNextName(key: string, order: seq<string>, name: string, k: nat)
    requires IsHighest(key, order, k) && forall j: nat :: IsHighest(key, order, j) ==> j == k
    ensures IsNextName(key, order, name) <==> name == NextPatch(key, Parse(key, order[k]).value)
  {
  }

  /** Behind a number, the next automatic version is one patch above the highest. */
  lemma AutomaticCountsPatches(key: string, order: seq<string>, k: nat)
    requires Top(Parsed(key, order)) == Some(k)
    ensures k < |order| && Parse(key, order[k]).Some?
    ensures Candidate(key, order, AutomaticLevel(key, order)) == NextPatch(key, Parse(key, order[k]).value)
  {
    assert Parsed(key, order)[k] == Parse(key, order[k]);
    assert Latest(key, order) == Parse(key, order[k]);
  }

  /** A pass nobody gets in the way of makes exactly the mark that is due, and where none is, none. */
  lemma PassMarksExactly(w: World, order: seq<string>, title: string, key: string, day: Calendar)
    requires w.phase.Idle? && Lists(order, w.marks) && '\n' !in title
    ensures var next := Pass(w, order, title, key, day);
      && next.phase.Idle? && next.history == w.history && next.now == w.now
      && (forall revision: nat, name :: Due(w, revision, order, name, key, day) ==>
            next.marks == w.marks[name := Mark(revision, w.now, PassMessage(title), true)])
      && ((forall revision: nat, name :: !Due(w, revision, order, name, key, day)) ==> next.marks == w.marks)
  {
    var end := DayEnd(w.history, day);
    forall revision: nat, name | Due(w, revision, order, name, key, day)
      ensures Pass(w, order, title, key, day) ==
        w.(marks := w.marks[name := Mark(revision, w.now, PassMessage(title), true)])
    {
      DuePasses(w, revision, order, name, title, key, day);
    }
    if end.None? || !PassesWith(w, end.value, order, key, day) {
      NotDueNoMark(w, order, title, key, day);
    } else {
      var name := Candidate(key, order, AutomaticLevel(key, order));
      PassesAreDue(w, end.value, order, key, day);
      assert Due(w, end.value, order, name, key, day);
    }
  }

  /** The questions of the pass, asked of the state that ends the day. */
  ghost predicate PassesWith(w: World, revision: nat, order: seq<string>, key: string, day: Calendar)
    requires Lists(order, w.marks) && revision < |w.history|
  {
    var d := day(w.history[revision].time);
    && !MarksRevision(w.marks, revision) && !DayIsMarked(MarksSince(w.marks, d, day), d, w.history, day)
    && !HighestHolds(key, order, w.marks, w.history, revision) && w.history[revision].text.Some?
    && !Collides(Candidate(key, order, AutomaticLevel(key, order)), w.marks.Keys)
  }

  lemma PassesAreDue(w: World, revision: nat, order: seq<string>, key: string, day: Calendar)
    requires Lists(order, w.marks) && revision < |w.history|
    ensures DayEnd(w.history, day) == Some(revision) && PassesWith(w, revision, order, key, day) <==>
      Due(w, revision, order, Candidate(key, order, AutomaticLevel(key, order)), key, day)
  {
    DayEndExactly(w.history, revision, day);
    MarkedExactly(w.marks, day(w.history[revision].time), w.history, day);
    HeldExactly(key, order, w, revision);
    NextNameExactly(key, order, Candidate(key, order, AutomaticLevel(key, order)));
  }

  lemma LookAndList(w: World, day: Calendar, key: string)
    requires w.phase.Idle?
    ensures var listed := Next(Next(w, LookedForDay, key, day), ListedForDay, key, day);
      var end := DayEnd(w.history, day);
      listed == if end.None? || MarksRevision(w.marks, end.value) then w
                else w.(phase := Listed(end.value, w.marks))
  {
  }

  lemma DuePasses(w: World, revision: nat, order: seq<string>, name: string, title: string, key: string, day: Calendar)
    requires w.phase.Idle? && Lists(order, w.marks) && OneLine(title) && Due(w, revision, order, name, key, day)
    ensures Pass(w, order, title, key, day) ==
      w.(marks := w.marks[name := Mark(revision, w.now, PassMessage(title), true)])
  {
    NextNameExactly(key, order, name);
    PassesAreDue(w, revision, order, key, day);
    WhatPasses(w, revision, order, title, key, day);
  }

  lemma WhatPasses(w: World, revision: nat, order: seq<string>, title: string, key: string, day: Calendar)
    requires w.phase.Idle? && Lists(order, w.marks) && OneLine(title)
    requires DayEnd(w.history, day) == Some(revision) && !MarksRevision(w.marks, revision)
    ensures var name := Candidate(key, order, AutomaticLevel(key, order));
      Pass(w, order, title, key, day) ==
        if PassesWith(w, revision, order, key, day)
        then w.(marks := w.marks[name := Mark(revision, w.now, PassMessage(title), true)]) else w
  {
    LookAndList(w, day, key);
    JudgeNameTag(w, revision, order, title, key, day);
  }

  lemma JudgeNameTag(w: World, revision: nat, order: seq<string>, title: string, key: string, day: Calendar)
    requires w.phase.Idle? && Lists(order, w.marks) && OneLine(title) && revision < |w.history|
    requires !MarksRevision(w.marks, revision)
    ensures var listed := w.(phase := Listed(revision, w.marks));
      var name := Candidate(key, order, AutomaticLevel(key, order));
      Tag(Name(Judge(listed, order, key, day), order, key), title) ==
        if PassesWith(w, revision, order, key, day)
        then w.(marks := w.marks[name := Mark(revision, w.now, PassMessage(title), true)]) else w
  {
  }

  lemma NotDueNoMark(w: World, order: seq<string>, title: string, key: string, day: Calendar)
    requires w.phase.Idle? && Lists(order, w.marks) && OneLine(title)
    requires var end := DayEnd(w.history, day); end.None? || !PassesWith(w, end.value, order, key, day)
    ensures Pass(w, order, title, key, day) == w
  {
    LookAndList(w, day, key);
    var end := DayEnd(w.history, day);
    if end.Some? && !MarksRevision(w.marks, end.value) {
      WhatPasses(w, end.value, order, title, key, day);
    }
  }

  // -- the floor ---------------------------------------------------------

  function FloorPass(w: World, order: seq<string>, title: string, key: string, day: Calendar): World {
    Next(Next(Next(Next(w, ListedForFloor(order), key, day), ChoseOldest, key, day), Named(order), key, day),
         Tagged(title), key, day)
  }

  /**
   * The floor is laid, as v1.0.0 on the oldest state, exactly where there is no number
   * yet and that state can be marked.
   */
  lemma FloorIsLaidExactly(w: World, order: seq<string>, title: string, key: string, day: Calendar)
    requires w.phase.Idle? && Lists(order, w.marks) && '\n' !in title
    ensures FloorPass(w, order, title, key, day) ==
      if (forall k :: 0 <= k < |order| ==> Parse(key, order[k]).None?) && w.history != [] && w.history[0].text.Some?
         && !Collides(key + "/v1.0.0", w.marks.Keys)
      then w.(marks := w.marks[key + "/v1.0.0" := Mark(0, w.now, PassMessage(title), true)]) else w
  {
    var top := HighestOf(key, order);
    FloorIsChosen(w, order, key, day);
    if top.None? && w.history != [] {
      FirstAutomaticIsOne(key, order);
      assert Candidate(key, order, Major) == key + "/v1.0.0";
      NameAndTag(w, 0, Major, order, title, key, day);
    } else {
      IdleStays(w, order, title, key, day);
    }
  }

  lemma FloorIsChosen(w: World, order: seq<string>, key: string, day: Calendar)
    requires w.phase.Idle? && Lists(order, w.marks)
    ensures Next(Next(w, ListedForFloor(order), key, day), ChoseOldest, key, day) ==
      if Top(Parsed(key, order)).None? && w.history != [] then w.(phase := Making(0, Major)) else w
  {
  }

  lemma IdleStays(w: World, order: seq<string>, title: string, key: string, day: Calendar)
    requires w.phase.Idle?
    ensures Next(Next(w, Named(order), key, day), Tagged(title), key, day) == w
  {
  }

  lemma NameAndTag(w: World, revision: nat, level: Level, order: seq<string>, title: string, key: string, day: Calendar)
    requires w.phase.Idle? && Lists(order, w.marks) && OneLine(title) && revision < |w.history|
    ensures var name := Candidate(key, order, level);
      Tag(Name(w.(phase := Making(revision, level)), order, key), title) ==
        if w.history[revision].text.Some? && !Collides(name, w.marks.Keys)
        then w.(marks := w.marks[name := Mark(revision, w.now, PassMessage(title), true)]) else w
  {
  }
}
