/** Where a day ends in a history, and whether a mark that is taken away comes back. */
module DayMarks {
  import opened Wrappers

  /** A recorded state; a deletion records none. Its revision is its position in the history. */
  datatype Save = Save(time: int, text: Option<string>)

  /** The calendar day of a time, in the zone the user lives in. */
  type Calendar = int -> int

  ghost predicate Monotone(day: Calendar) {
    forall a: int, b: int :: a <= b ==> day(a) <= day(b)
  }

  const RECENT_STATES := 20

  // -- the calendar step -------------------------------------------------

  /** The newest revisions, newest first. */
  function Newest(history: seq<Save>, most: nat): (revisions: seq<nat>)
    ensures |revisions| == if |history| < most then |history| else most
    ensures forall k :: 0 <= k < |revisions| ==> revisions[k] == |history| - 1 - k
  {
    seq(if |history| < most then |history| else most, k requires 0 <= k < |history| => |history| - 1 - k)
  }

  function Stamps(history: seq<Save>, revisions: seq<nat>): (stamps: seq<int>)
    requires forall k :: 0 <= k < |revisions| ==> revisions[k] < |history|
    ensures |stamps| == |revisions| && forall k :: 0 <= k < |stamps| ==> stamps[k] == history[revisions[k]].time
  {
    seq(|revisions|, k requires 0 <= k < |revisions| => history[revisions[k]].time)
  }

  /** Where the day before ends, in times newest first: the first that is of another day than the newest. */
  function EndOfPreviousDay(stamps: seq<int>, day: Calendar, from: nat): (at: Option<nat>)
    requires 1 <= from
    ensures at.Some? ==> from <= at.value < |stamps| && day(stamps[at.value]) != day(stamps[0])
    ensures forall k :: from <= k < (if at.Some? then at.value else |stamps|) ==> day(stamps[k]) == day(stamps[0])
    decreases |stamps| - from
  {
    if from >= |stamps| then None
    else if day(stamps[from]) != day(stamps[0]) then Some(from)
    else EndOfPreviousDay(stamps, day, from + 1)
  }

  /** The revision a day mark made now would sit on, by the calendar alone. */
  function DayEnd(history: seq<Save>, day: Calendar): (revision: Option<nat>)
    ensures revision.Some? ==> revision.value < |history|
  {
    var newest := Newest(history, RECENT_STATES);
    var at := EndOfPreviousDay(Stamps(history, newest), day, 1);
    if at.None? then None else Some(newest[at.value])
  }

  /** A save now in front of some states, cut to what the marking reads. */
  function Window(recent: seq<nat>, history: seq<Save>, now: int): seq<int>
    requires forall k :: 0 <= k < |recent| ==> recent[k] < |history|
  {
    var stamps := [now] + Stamps(history, recent);
    if |stamps| <= RECENT_STATES then stamps else stamps[..RECENT_STATES]
  }

  /** A save now is put in front of the newest states, and the rule is asked where the day before ends. */
  function WouldBeMarkedAgain(revision: nat, recent: seq<nat>, history: seq<Save>, now: int, day: Calendar): bool
    requires forall k :: 0 <= k < |recent| ==> recent[k] < |history|
  {
    var window := Window(recent, history, now);
    var at := EndOfPreviousDay(window, day, 1);
    at.Some? && recent[at.value - 1] == revision
  }

  lemma WindowIs(history: seq<Save>, now: int)
    ensures var window := Window(Newest(history, RECENT_STATES), history, now);
      && |window| == (if |history| < RECENT_STATES then |history| + 1 else RECENT_STATES)
      && window[0] == now && forall k :: 1 <= k < |window| ==> window[k] == history[|history| - k].time
  {
  }

  lemma WindowIsTheNext(history: seq<Save>, now: int, text: Option<string>)
    ensures var later := history + [Save(now, text)];
      Window(Newest(history, RECENT_STATES), history, now) == Stamps(later, Newest(later, RECENT_STATES))
  {
    WindowIs(history, now);
    var later := history + [Save(now, text)];
    var window := Window(Newest(history, RECENT_STATES), history, now);
    var next := Stamps(later, Newest(later, RECENT_STATES));
    forall k | 0 <= k < |window| ensures window[k] == next[k] {
      assert k > 0 ==> later[|later| - 1 - k] == history[|history| - k];
    }
  }

  function Returns(revision: nat, history: seq<Save>, now: int, day: Calendar): bool {
    WouldBeMarkedAgain(revision, Newest(history, RECENT_STATES), history, now, day)
  }

  /** The prediction is the rule, run on the history as it is after one more save. */
  lemma PredictionIsTheRule(revision: nat, history: seq<Save>, now: int, text: Option<string>, day: Calendar)
    ensures Returns(revision, history, now, day) <==> DayEnd(history + [Save(now, text)], day) == Some(revision)
  {
    WindowIsTheNext(history, now, text);
    var recent, newest := Newest(history, RECENT_STATES), Newest(history + [Save(now, text)], RECENT_STATES);
    assert forall k :: 0 < k < |newest| ==> newest[k] == recent[k - 1];
  }

  // -- what False is worth -----------------------------------------------

  predicate Ordered(history: seq<Save>, now: int) {
    && (forall a, b :: 0 <= a < b < |history| ==> history[a].time <= history[b].time)
    && (forall a :: 0 <= a < |history| ==> history[a].time <= now)
  }

  /** A mark comes back where its state is within reach, of an earlier day, and all behind it is of today. */
  lemma ReturnsExactly(revision: nat, history: seq<Save>, now: int, day: Calendar)
    requires revision < |history|
    ensures Returns(revision, history, now, day) <==>
      && |history| - revision < RECENT_STATES && day(history[revision].time) != day(now)
      && forall j :: revision < j < |history| ==> day(history[j].time) == day(now)
  {
    WindowIs(history, now);
    var window := Window(Newest(history, RECENT_STATES), history, now);
    var at := EndOfPreviousDay(window, day, 1);
    if Returns(revision, history, now, day) {
      BehindIsToday(revision, history, now, day, window, at.value);
    } else if |history| - revision < RECENT_STATES && day(history[revision].time) != day(now) {
      EndIsNewer(revision, history, now, day, window, at);
    }
  }

  lemma BehindIsToday(revision: nat, history: seq<Save>, now: int, day: Calendar, window: seq<int>, at: nat)
    requires revision < |history| && 1 <= at < |window| && at == |history| - revision
    requires window[0] == now && forall k :: 1 <= k < |window| ==>
      k <= |history| && window[k] == history[|history| - k].time
    requires EndOfPreviousDay(window, day, 1) == Some(at)
    ensures day(history[revision].time) != day(now)
    ensures forall j :: revision < j < |history| ==> day(history[j].time) == day(now)
  {
    forall j | revision < j < |history| ensures day(history[j].time) == day(now) {
      assert window[|history| - j] == history[j].time;
    }
  }

  lemma EndIsNewer(revision: nat, history: seq<Save>, now: int, day: Calendar, window: seq<int>, at: Option<nat>)
    requires revision < |history| && |history| - revision < |window| && day(history[revision].time) != day(now)
    requires window[0] == now && forall k :: 1 <= k < |window| ==>
      k <= |history| && window[k] == history[|history| - k].time
    requires at == EndOfPreviousDay(window, day, 1) && at != Some(|history| - revision)
    ensures exists j :: revision < j < |history| && day(history[j].time) != day(now)
  {
    assert window[|history| - revision] == history[revision].time;
    assert at.Some? && at.value < |history| - revision;
    assert day(history[|history| - at.value].time) != day(now);
  }

  /** What may be recorded until some later time. */
  predicate Follows(history: seq<Save>, now: int, more: seq<Save>, later: int) {
    now <= later && Ordered(history + more, later) && forall k :: 0 <= k < |more| ==> now <= more[k].time
  }

  /** No later save ever brings the mark back. */
  ghost predicate GoneForGood(revision: nat, history: seq<Save>, now: int, day: Calendar) {
    forall more: seq<Save>, later: int :: Follows(history, now, more, later) ==>
      !Returns(revision, history + more, later, day)
  }

  /** A state of an earlier day that does not come back now never does. */
  lemma FalseStaysFalse(revision: nat, history: seq<Save>, now: int, day: Calendar, more: seq<Save>, later: int)
    requires Monotone(day) && revision < |history| && Ordered(history + more, later) && now <= later
    requires Ordered(history, now)
    requires day(history[revision].time) != day(now) || revision < |history| - 1
    requires Returns(revision, history + more, later, day)
    ensures Returns(revision, history, now, day)
  {
    ReturnsExactly(revision, history, now, day);
    ReturnsExactly(revision, history + more, later, day);
    assert forall j :: 0 <= j < |history| ==> (history + more)[j] == history[j];
    forall j | revision < j < |history| ensures day(history[j].time) == day(later) {
      assert day((history + more)[j].time) == day(later);
    }
    if revision < |history| - 1 {
      SqueezedDays(day, history[|history| - 1].time, now, later);
    }
  }

  /** Between two times of one day it is that day. */
  lemma SqueezedDays(day: Calendar, a: int, b: int, c: int)
    requires Monotone(day) && a <= b <= c && day(a) == day(c)
    ensures day(b) == day(a)
  {
    assert day(a) <= day(b) <= day(c);
  }

  /**
   * Where a mark would not come back now, it never will - exactly unless its state is
   * the newest there is and today is not over.
   */
  lemma FalseIsPermanentExactly(revision: nat, history: seq<Save>, now: int, day: Calendar, tomorrow: int)
    requires Monotone(day) && revision < |history| && Ordered(history, now)
    requires now <= tomorrow && day(now) < day(tomorrow)
    requires !Returns(revision, history, now, day)
    ensures GoneForGood(revision, history, now, day) <==>
      !(revision == |history| - 1 && day(history[revision].time) == day(now))
  {
    if revision == |history| - 1 && day(history[revision].time) == day(now) {
      ReturnsExactly(revision, history, tomorrow, day);
      assert history + [] == history;
      assert Follows(history, now, [], tomorrow) && Returns(revision, history + [], tomorrow, day);
    } else {
      forall more: seq<Save>, later: int | Follows(history, now, more, later)
        ensures !Returns(revision, history + more, later, day)
      {
        if Returns(revision, history + more, later, day) {
          FalseStaysFalse(revision, history, now, day, more, later);
        }
      }
    }
  }
}
