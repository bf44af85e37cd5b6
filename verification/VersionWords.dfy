/** The words a version's tag carries, and the marker line of one nobody asked for. */
module VersionWords {
  import opened Wrappers

  // -- strip and partition -----------------------------------------------

  /** White space, of the characters ASCII has. */
  predicate IsSpace(c: char) {
    c == ' ' || ('\t' <= c <= '\r') || (28 as char <= c <= 31 as char)
  }

  lemma IsSpaceExactly(c: char)
    ensures IsSpace(c) <==> c as int in {9, 10, 11, 12, 13, 28, 29, 30, 31, 32}
  {
  }

  predicate Blank(s: string) {
    forall k :: 0 <= k < |s| ==> IsSpace(s[k])
  }

  function LStrip(s: string): (r: string)
    ensures r != "" ==> !IsSpace(r[0])
    ensures r == "" <==> Blank(s)
  {
    if s == "" || !IsSpace(s[0]) then s else
      assert s == [s[0]] + s[1..];
      LStrip(s[1..])
  }

  function RStrip(s: string): (r: string)
    ensures r <= s && Blank(s[|r|..])
    ensures r != "" ==> !IsSpace(r[|r| - 1])
    ensures r == "" <==> Blank(s)
  {
    if s == "" || !IsSpace(s[|s| - 1]) then s else
      var front := s[..|s| - 1];
      var r := RStrip(front);
      OneMoreBlank(s, front, r);
      r
  }

  lemma OneMoreBlank(s: string, front: string, r: string)
    requires s != "" && front == s[..|s| - 1] && IsSpace(s[|s| - 1]) && r <= front && Blank(front[|r|..])
    ensures r <= s && Blank(s[|r|..]) && (Blank(s) <==> Blank(front))
  {
    assert s == front + [s[|s| - 1]];
    assert s[|r|..] == front[|r|..] + [s[|s| - 1]];
  }

  function Strip(s: string): string {
    LStrip(RStrip(s))
  }

  /** Where a text first has a line end. */
  function LineEnd(s: string, from: nat): (at: nat)
    requires from <= |s|
    ensures from <= at <= |s| && (at < |s| ==> s[at] == '\n') && forall k :: from <= k < at ==> s[k] != '\n'
    decreases |s| - from
  {
    if from == |s| || s[from] == '\n' then from else LineEnd(s, from + 1)
  }

  /** Whether a blank line starts here. */
  predicate BlankLineAt(s: string, k: nat) {
    k + 1 < |s| && s[k] == '\n' && s[k + 1] == '\n'
  }

  /** Where a text first has a blank line. */
  function BlankLine(s: string, from: nat): (at: Option<nat>)
    requires from <= |s|
    ensures at.Some? ==> from <= at.value && BlankLineAt(s, at.value)
    ensures forall k: nat :: from <= k < (if at.Some? then at.value else |s|) ==> !BlankLineAt(s, k)
    decreases |s| - from
  {
    if from == |s| then None else if BlankLineAt(s, from) then Some(from) else BlankLine(s, from + 1)
  }

  // -- the format --------------------------------------------------------

  /** Title, blank line, the rest. */
  function Body(title: string, description: string): string {
    title + "\n\n" + description
  }

  function Words(message: string): (string, string) {
    var at := BlankLine(message, 0);
    if at.None? then (Strip(message), "") else (Strip(message[..at.value]), Strip(message[at.value + 2..]))
  }

  const AUTOMATIC := "dashboard-history: automatic"

  function AutomaticDescription(text: string): string {
    if text == "" then AUTOMATIC else RStrip(AUTOMATIC + "\n" + text)
  }

  /** What a person wrote, and whether the version was automatic. */
  function ReadDescription(text: string): (string, bool) {
    var at := LineEnd(text, 0);
    if Strip(text[..at]) == AUTOMATIC then (if at == |text| then "" else Strip(text[at + 1..]), true)
    else (Strip(text), false)
  }

  /** What a person's words become on a version: the marker of an automatic one is carried over. */
  function Stored(automatic: bool, description: string): string {
    if automatic then AutomaticDescription(description) else description
  }

  /** Whether a version made with these words reads as automatic. */
  predicate ReadsAutomatic(title: string, stored: string) {
    ReadDescription(Words(Body(title, stored)).1).1
  }

  // -- stripping what was put together -----------------------------------

  lemma {:induction false} LStripJoin(a: string, b: string)
    ensures LStrip(a + b) == if Blank(a) then LStrip(b) else LStrip(a) + b
  {
    if a == "" {
      assert a + b == b;
    } else if IsSpace(a[0]) {
      assert (a + b)[1..] == a[1..] + b;
      assert a == [a[0]] + a[1..];
      LStripJoin(a[1..], b);
    }
  }

  lemma {:induction false} RStripJoin(a: string, b: string)
    ensures RStrip(a + b) == if Blank(b) then RStrip(a) else a + RStrip(b)
  {
    if b == "" {
      assert a + b == a;
    } else {
      var n := |b| - 1;
      var front, whole := b[..n], a + b;
      assert b == front + [b[n]] && whole == (a + front) + [b[n]];
      assert whole[..|whole| - 1] == a + front && whole[|whole| - 1] == b[n];
      if IsSpace(b[n]) {
        RStripJoin(a, front);
        assert RStrip(whole) == RStrip(a + front) && RStrip(b) == RStrip(front);
      }
    }
  }

  lemma StripAhead(a: string, b: string)
    requires Blank(a)
    ensures Strip(a + b) == Strip(b)
  {
    RStripJoin(a, b);
    LStripJoin(a, RStrip(b));
    if Blank(b) {
      assert RStrip(a) == "" && RStrip(b) == "";
    }
  }

  lemma StripBehind(a: string, b: string)
    requires Blank(b)
    ensures Strip(a + b) == Strip(a)
  {
    RStripJoin(a, b);
  }

  lemma {:induction false} LStripIsBehind(s: string) returns (k: nat)
    ensures k <= |s| && LStrip(s) == s[k..]
  {
    if s == "" || !IsSpace(s[0]) {
      k := 0;
    } else {
      k := LStripIsBehind(s[1..]);
      k := k + 1;
    }
  }

  // -- the two halves agree ----------------------------------------------

  /** The blank line that ends a title is where the rest begins, spaces aside. */
  lemma SplitsBehind(title: string, description: string) returns (at: nat)
    requires BlankLine(RStrip(title), 0).None?
    ensures |RStrip(title)| <= at <= |title| && BlankLine(Body(title, description), 0) == Some(at)
  {
    var body, r := Body(title, description), RStrip(title);
    assert BlankLineAt(body, |title|);
    at := BlankLine(body, 0).value;
    if at < |r| {
      assert body[at] == r[at];
      if at + 1 < |r| {
        assert body[at + 1] == r[at + 1];
        assert BlankLineAt(r, at);
      }
    }
  }

  lemma SplitsInside(title: string, description: string, i: nat)
    requires BlankLine(RStrip(title), 0) == Some(i)
    ensures i + 2 < |RStrip(title)| && BlankLine(Body(title, description), 0) == Some(i)
  {
    var body, r := Body(title, description), RStrip(title);
    assert forall k :: 0 <= k < |r| ==> body[k] == r[k];
    assert BlankLineAt(body, i);
    var at := BlankLine(body, 0).value;
    assert at <= i;
    assert BlankLineAt(r, at);
  }

  lemma WordsAt(message: string, at: nat)
    requires BlankLine(message, 0) == Some(at)
    ensures Words(message) == (Strip(message[..at]), Strip(message[at + 2..]))
  {
  }

  lemma BlankPart(s: string, n: nat)
    requires Blank(s) && n <= |s|
    ensures Blank(s[..n]) && Blank(s[n..])
  {
  }

  lemma TitleOfBody(title: string, description: string, at: nat) returns (behind: string)
    requires |RStrip(title)| <= at <= |title|
    ensures Blank(behind) && Body(title, description)[..at] == RStrip(title) + behind
  {
    var r := RStrip(title);
    var all := title[|r|..];
    BlankPart(all, at - |r|);
    behind := all[..at - |r|];
    assert title[..at] == r + behind;
  }

  lemma TitleComesBack(title: string, description: string, at: nat)
    requires |RStrip(title)| <= at <= |title|
    ensures Strip(Body(title, description)[..at]) == Strip(title)
  {
    var behind := TitleOfBody(title, description, at);
    StripBehind(RStrip(title), behind);
    StripOfRStrip(title);
  }

  lemma CutBehind(front: string, ends: string, rest: string, n: nat)
    requires |front| <= n <= |front| + |ends|
    ensures (front + (ends + rest))[n..] == ends[n - |front|..] + rest
  {
  }

  lemma RestOfBody(title: string, description: string, at: nat) returns (ahead: string)
    requires |RStrip(title)| <= at <= |title|
    ensures Blank(ahead) && Body(title, description)[at + 2..] == ahead + description
  {
    var r := RStrip(title);
    ahead := EndsBehind(title[|r|..], at - |r|);
    BodyEnds(title, r, title[|r|..], description);
    CutBehind(r, title[|r|..] + "\n\n", description, at + 2);
  }

  lemma EndsBehind(space: string, n: nat) returns (ahead: string)
    requires Blank(space) && n <= |space|
    ensures Blank(ahead) && ahead == (space + "\n\n")[n + 2..]
  {
    BlankPart(space + "\n\n", n + 2);
    ahead := (space + "\n\n")[n + 2..];
  }

  lemma RestComesBack(title: string, description: string, at: nat)
    requires |RStrip(title)| <= at <= |title|
    ensures Strip(Body(title, description)[at + 2..]) == Strip(description)
  {
    var ahead := RestOfBody(title, description, at);
    StripAhead(ahead, description);
  }

  lemma BodyEnds(title: string, front: string, blank: string, description: string)
    requires front <= title && blank == title[|front|..]
    ensures Body(title, description) == front + (blank + "\n\n" + description)
  {
    assert title == front + blank;
  }

  lemma RoundTripHolds(title: string, description: string)
    requires BlankLine(RStrip(title), 0).None?
    ensures Words(Body(title, description)) == (Strip(title), Strip(description))
  {
    var at := SplitsBehind(title, description);
    WordsAt(Body(title, description), at);
    TitleComesBack(title, description, at);
    RestComesBack(title, description, at);
  }

  lemma StripsShorter(a: string, b: string)
    requires !Blank(b)
    ensures |Strip(a)| < |LStrip(a + b)|
  {
    LStripJoin(a, b);
    if !Blank(a) {
      LStripJoin(RStrip(a), a[|RStrip(a)|..]);
      assert a == RStrip(a) + a[|RStrip(a)|..];
    }
  }

  lemma RoundTripFails(title: string, description: string, i: nat)
    requires BlankLine(RStrip(title), 0) == Some(i)
    ensures Words(Body(title, description)).0 != Strip(title)
  {
    var r := RStrip(title);
    SplitsInside(title, description, i);
    WordsAt(Body(title, description), i);
    CutInside(r, title, description, i);
    StripsShorter(r[..i], r[i..]);
  }

  lemma CutInside(r: string, title: string, description: string, i: nat)
    requires r == RStrip(title) && i < |r|
    ensures Body(title, description)[..i] == r[..i] && r == r[..i] + r[i..] && !Blank(r[i..])
  {
    assert title[..i] == r[..i];
    assert r[i..][|r| - 1 - i] == r[|r| - 1];
  }

  /**
   * Title and description come back as they were written, white space at their ends
   * aside, exactly where the title has no blank line of its own.
   */
  lemma WordsComeBackExactly(title: string, description: string)
    ensures Words(Body(title, description)) == (Strip(title), Strip(description)) <==> BlankLine(RStrip(title), 0).None?
  {
    if BlankLine(RStrip(title), 0).None? {
      RoundTripHolds(title, description);
    } else {
      RoundTripFails(title, description, BlankLine(RStrip(title), 0).value);
    }
  }

  // -- the marker --------------------------------------------------------

  lemma MarkerIsPlain()
    ensures Strip(AUTOMATIC) == AUTOMATIC && RStrip(AUTOMATIC) == AUTOMATIC && !Blank(AUTOMATIC)
    ensures forall k :: 0 <= k < |AUTOMATIC| ==> AUTOMATIC[k] != '\n'
  {
    assert AUTOMATIC[|AUTOMATIC| - 1] == 'c' && AUTOMATIC[0] == 'd';
  }

  lemma MarkedText(text: string)
    ensures AutomaticDescription(text) == if Blank(text) then AUTOMATIC else AUTOMATIC + "\n" + RStrip(text)
  {
    MarkerIsPlain();
    RStripJoin(AUTOMATIC + "\n", text);
    RStripJoin(AUTOMATIC, "\n");
  }

  lemma StripOfRStrip(s: string)
    ensures RStrip(RStrip(s)) == RStrip(s) && Strip(RStrip(s)) == Strip(s)
  {
    var r := RStrip(s);
    assert s == r + s[|r|..];
    RStripJoin(r, s[|r|..]);
  }

  lemma FirstLine(head: string, rest: string)
    requires forall k :: 0 <= k < |head| ==> head[k] != '\n'
    ensures var s := head + "\n" + rest;
      LineEnd(s, 0) == |head| && s[..|head|] == head && s[|head| + 1..] == rest
    ensures LineEnd(head, 0) == |head| && head[..|head|] == head
  {
    var s := head + "\n" + rest;
    assert forall k :: 0 <= k < |head| ==> s[k] == head[k];
    assert s[|head|] == '\n';
  }

  /** What a person wrote comes back from behind the marker, and the marker as a flag. */
  lemma MarkerComesBack(text: string)
    ensures ReadDescription(AutomaticDescription(text)) == (Strip(text), true)
  {
    MarkerIsPlain();
    MarkedText(text);
    StripOfRStrip(text);
    FirstLine(AUTOMATIC, RStrip(text));
  }

  lemma MarkedIsStripped(text: string)
    ensures Strip(AutomaticDescription(text)) == AutomaticDescription(text)
  {
    MarkerIsPlain();
    MarkedText(text);
    if !Blank(text) {
      RStripJoin(AUTOMATIC + "\n", RStrip(text));
      StripOfRStrip(text);
      assert AutomaticDescription(text)[0] == AUTOMATIC[0];
    }
  }

  /** Whether a person's own words open with the marker line. */
  predicate OpensWithMarker(description: string) {
    ReadDescription(Strip(description)).1
  }

  /**
   * Behind a title without a blank line a version reads as automatic where it was
   * made so - new words do not change that - or where its words pretend to be.
   */
  lemma FlagIsCarriedOver(title: string, description: string, automatic: bool)
    requires BlankLine(RStrip(title), 0).None?
    ensures ReadsAutomatic(title, Stored(automatic, description)) <==> automatic || OpensWithMarker(description)
  {
    RoundTripHolds(title, Stored(automatic, description));
    if automatic {
      MarkedIsStripped(description);
      MarkerComesBack(description);
    }
  }

  // -- a title with a blank line of its own ------------------------------

  function FirstLineOf(s: string): string {
    s[..LineEnd(s, 0)]
  }

  lemma TailIsInside(title: string, stored: string, i: nat)
    requires i + 2 < |RStrip(title)|
    ensures Body(title, stored)[i + 2..] == title[i + 2..] + ("\n\n" + stored) && !Blank(title[i + 2..])
  {
    var last := |RStrip(title)| - 1;
    assert title[last] == RStrip(title)[last];
    assert title[i + 2..][last - i - 2] == title[last];
  }

  /** What is stripped off a text with more behind it is what is stripped off the text, then space, then the more. */
  lemma StrippedWithMore(tail: string, more: string) returns (space: string)
    requires !Blank(tail) && !Blank(more)
    ensures Blank(space) && Strip(tail + more) == Strip(tail) + space + RStrip(more)
  {
    var r := RStrip(tail);
    space := tail[|r|..];
    assert tail == r + space;
    RStripJoin(tail, more);
    LStripJoin(tail, RStrip(more));
    LStripJoin(r, space);
  }

  /** Behind a line end that is in it, or spaces up to one, a line goes on no further. */
  lemma SameLine(own: string, space: string, more: string)
    requires Blank(space) && "\n" <= more
    ensures Strip(FirstLineOf(own + space + more)) == Strip(FirstLineOf(own))
  {
    var rest, at := own + space + more, LineEnd(own, 0);
    assert forall k :: 0 <= k < |own| ==> rest[k] == own[k];
    if at < |own| {
      assert LineEnd(rest, 0) == at && rest[..at] == own[..at];
    } else {
      LineRunsOn(own, space, more);
    }
  }

  lemma LineRunsTo(own: string, space: string, more: string)
    requires "\n" <= more && LineEnd(own, 0) == |own|
    ensures |own| <= LineEnd(own + space + more, 0) <= |own| + |space|
  {
    var rest := own + space + more;
    assert forall k :: 0 <= k < |own| ==> rest[k] == own[k];
    assert rest[|own| + |space|] == more[0];
  }

  lemma CutInSpace(own: string, space: string, more: string, end: nat)
    requires |own| <= end <= |own| + |space|
    ensures (own + space + more)[..end] == own + space[..end - |own|]
  {
  }

  lemma LineIs(own: string, space: string, more: string) returns (part: string)
    requires Blank(space) && "\n" <= more && LineEnd(own, 0) == |own|
    ensures Blank(part) && FirstLineOf(own + space + more) == own + part && FirstLineOf(own) == own
  {
    var end := LineEnd(own + space + more, 0);
    LineRunsTo(own, space, more);
    CutInSpace(own, space, more, end);
    BlankPart(space, end - |own|);
    part := space[..end - |own|];
    assert own[..|own|] == own;
  }

  lemma LineRunsOn(own: string, space: string, more: string)
    requires Blank(space) && "\n" <= more && LineEnd(own, 0) == |own|
    ensures Strip(FirstLineOf(own + space + more)) == Strip(FirstLineOf(own))
  {
    var part := LineIs(own, space, more);
    StripBehind(own, part);
  }

  /** The first line of what is left behind a title's blank line is the title's own. */
  lemma FirstLineIsItsOwn(tail: string, more: string)
    requires !Blank(tail) && "\n" <= more
    ensures Strip(FirstLineOf(Strip(tail + more))) == Strip(FirstLineOf(Strip(tail)))
  {
    if Blank(more) {
      StripBehind(tail, more);
    } else {
      var space := StrippedWithMore(tail, more);
      assert RStrip(more)[0] == more[0];
      SameLine(Strip(tail), space, RStrip(more));
    }
  }

  /** The title's own blank line takes the marker's place at the head of the rest. */
  lemma TitleDecides(title: string, stored: string, i: nat)
    requires BlankLine(RStrip(title), 0) == Some(i)
    ensures i + 2 < |RStrip(title)|
    ensures ReadsAutomatic(title, stored) <==> OpensWithMarker(title[i + 2..])
  {
    SplitsInside(title, stored, i);
    WordsAt(Body(title, stored), i);
    TailIsInside(title, stored, i);
    FirstLineIsItsOwn(title[i + 2..], "\n\n" + stored);
  }

  /** Whether words a person writes pretend to be a version nobody asked for. */
  predicate Pretends(title: string, description: string) {
    var at := BlankLine(RStrip(title), 0);
    if at.None? then OpensWithMarker(description) else OpensWithMarker(title[at.value + 2..])
  }

  /**
   * An automatic version given new words still reads as automatic exactly where the
   * title has no blank line of its own, or opens with the marker again behind it.
   */
  lemma FlagSurvivesExactly(title: string, description: string)
    ensures ReadsAutomatic(title, Stored(true, description)) <==>
      BlankLine(RStrip(title), 0).None? || Pretends(title, description)
  {
    if BlankLine(RStrip(title), 0).None? {
      FlagIsCarriedOver(title, description, true);
    } else {
      TitleDecides(title, Stored(true, description), BlankLine(RStrip(title), 0).value);
    }
  }

  /** Any other version reads as automatic exactly where its words pretend to. */
  lemma PretendsExactly(title: string, description: string)
    ensures ReadsAutomatic(title, Stored(false, description)) <==> Pretends(title, description)
  {
    if BlankLine(RStrip(title), 0).None? {
      FlagIsCarriedOver(title, description, false);
    } else {
      TitleDecides(title, Stored(false, description), BlankLine(RStrip(title), 0).value);
    }
  }
}
