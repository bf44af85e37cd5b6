/** The one line that stands in the history for a change, and reading counts back off it. */
module Wording {
  import opened Wrappers
  import opened Sequences
  import opened Versions
  import opened VersionWords

  /** How much of each thing a change did. */
  datatype Summary = Summary(
    viewsRemoved: nat, viewsAdded: nat, sectionsRemoved: nat, sectionsAdded: nat, sectionsMoved: nat,
    removed: nat, added: nat, edited: nat, moved: nat, settings: nat, badges: nat)

  datatype Noun = Unnamed | View | Section | Setting | Badge

  datatype Verb = Removed | Added | Edited | Moved | Changed

  /** What a count is of, and what happened to it; a card goes without a noun. */
  datatype Kind = Kind(noun: Noun, verb: Verb)

  const KINDS: seq<Kind> := [
    Kind(View, Removed), Kind(View, Added),
    Kind(Section, Removed), Kind(Section, Added), Kind(Section, Moved),
    Kind(Unnamed, Removed), Kind(Unnamed, Added), Kind(Unnamed, Edited), Kind(Unnamed, Moved),
    Kind(Setting, Changed), Kind(Badge, Changed)]

  function NounText(noun: Noun): string {
    match noun
    case Unnamed => ""
    case View => "view"
    case Section => "section"
    case Setting => "setting"
    case Badge => "badge"
  }

  function VerbText(verb: Verb): string {
    match verb
    case Removed => "removed"
    case Added => "added"
    case Edited => "edited"
    case Moved => "moved"
    case Changed => "changed"
  }

  function CountsIn(summary: Summary): (counts: seq<nat>)
    ensures |counts| == |KINDS|
  {
    [summary.viewsRemoved, summary.viewsAdded, summary.sectionsRemoved, summary.sectionsAdded, summary.sectionsMoved,
     summary.removed, summary.added, summary.edited, summary.moved, summary.settings, summary.badges]
  }

  // -- printing ----------------------------------------------------------

  /** "view removed", "views removed", or where there is no noun "removed". */
  function Phrase(kind: Kind, several: bool): string {
    if kind.noun.Unnamed? then VerbText(kind.verb)
    else NounText(kind.noun) + (if several then "s " else " ") + VerbText(kind.verb)
  }

  function Part(count: nat, kind: Kind): string {
    Digits(count) + " " + Phrase(kind, count != 1)
  }

  /** A part for every count that is not zero, in order. */
  function Parts(counts: seq<nat>, kinds: seq<Kind>): (parts: seq<string>)
    requires |counts| == |kinds|
  {
    if counts == [] then []
    else (if counts[0] == 0 then [] else [Part(counts[0], kinds[0])]) + Parts(counts[1..], kinds[1..])
  }

  function Join(parts: seq<string>): string {
    if parts == [] then "" else if |parts| == 1 then parts[0] else parts[0] + ", " + Join(parts[1..])
  }

  datatype Reason = Announced | ByHand | FoundByComparison

  /** What changed about a dashboard rather than on it. */
  datatype Detail = NoneOfNote | Renamed(title: string) | FieldsChanged(fields: seq<string>)

  type Metadata = map<string, string>

  function FieldOf(meta: Metadata, field: string): Option<string> {
    if field in meta then Some(meta[field]) else None
  }

  function DetailOf(before: Option<Metadata>, after: Option<Metadata>, fields: seq<string>): Detail {
    if after.None? || after.value == map[] || before.None? || before.value == after.value then NoneOfNote
    else if "title" in after.value && after.value["title"] != ""
      && FieldOf(before.value, "title") != Some(after.value["title"]) then
      Renamed(after.value["title"])
    else if fields == [] then NoneOfNote
    else FieldsChanged(fields)
  }

  function DetailText(detail: Detail): string {
    match detail
    case NoneOfNote => "metadata recorded"
    case Renamed(title) => "renamed to \"" + title + "\""
    case FieldsChanged(fields) => Join(fields) + " changed"
  }

  /** `fields` names the metadata that differs, in whatever order. */
  datatype Change =
    | FirstState
    | SameConfig(before: Option<Metadata>, after: Option<Metadata>, fields: seq<string>)
    | NewConfig(summary: Summary)

  function Said(change: Change, reason: Reason): string {
    match change
    case FirstState => "first recorded state"
    case SameConfig(before, after, fields) => DetailText(DetailOf(before, after, fields))
    case NewConfig(summary) =>
      if reason.FoundByComparison? then "changed outside Home Assistant"
      else
        var line := Join(Parts(CountsIn(summary), KINDS));
        if line == "" then "no card changes" else line
  }

  function ChangeMessage(name: string, change: Change, reason: Reason): string {
    name + (": " + Said(change, reason))
  }

  // -- reading -----------------------------------------------------------

  /** The text between commas. */
  function Split(s: string): (parts: seq<string>)
    ensures parts != []
  {
    var at := Comma(s);
    if at == |s| then [s] else [s[..at]] + Split(s[at + 1..])
  }

  function Comma(s: string): (at: nat)
    ensures at <= |s| && (at < |s| ==> s[at] == ',') && forall k :: 0 <= k < at ==> s[k] != ','
  {
    if s == "" || s[0] == ',' then 0 else 1 + Comma(s[1..])
  }

  function Stripped(parts: seq<string>): (stripped: seq<string>)
    ensures |stripped| == |parts| && forall k :: 0 <= k < |parts| ==> stripped[k] == Strip(parts[k])
  {
    seq(|parts|, k requires 0 <= k < |parts| => Strip(parts[k]))
  }

  predicate IsPhrase(s: string) {
    exists kind, several :: kind in KINDS && s == Phrase(kind, several)
  }

  /** Digits, a space and a phrase, and nothing else. */
  predicate IsCount(part: string) {
    var n := Run(part);
    0 < n < |part| && part[n] == ' ' && IsPhrase(part[n + 1..])
  }

  predicate AllCounts(parts: seq<string>) {
    forall k :: 0 <= k < |parts| ==> IsCount(parts[k])
  }

  /** Where a text first has a colon with a space behind it. */
  function LeadIn(s: string): (at: Option<nat>)
    ensures at.Some? ==> at.value + 1 < |s| && s[at.value] == ':' && s[at.value + 1] == ' '
    ensures forall k: nat :: k + 1 < |s| && (at.Some? ==> k < at.value) ==> !(s[k] == ':' && s[k + 1] == ' ')
  {
    if |s| < 2 then None
    else if s[0] == ':' && s[1] == ' ' then Some(0)
    else
      var at := LeadIn(s[1..]);
      assert forall k: nat :: 0 < k && k + 1 < |s| ==> s[k] == s[1..][k - 1] && s[k + 1] == s[1..][k];
      if at.Some? then Some(at.value + 1) else None
  }

  /** The count parts of what is left once enough lead-ins are peeled off. */
  function CountsOf(rest: string): Option<seq<string>>
    decreases |rest|
  {
    if AllCounts(Stripped(Split(rest))) then Some(Stripped(Split(rest)))
    else
      var at := LeadIn(rest);
      if at.None? then None else CountsOf(rest[at.value + 2..])
  }

  method ReadCounts(message: string) returns (counts: Option<seq<string>>)
    ensures counts == CountsOf(message)
  {
    var rest := message;
    while true
      invariant CountsOf(rest) == CountsOf(message)
      decreases |rest|
    {
      var parts := Stripped(Split(rest));
      if AllCounts(parts) {
        return Some(parts);
      }
      var at := LeadIn(rest);
      if at.None? {
        return None;
      }
      rest := rest[at.value + 2..];
    }
  }

  predicate EndsAdded(part: string) {
    |part| >= 6 && part[|part| - 6..] == " added"
  }

  /** Whether the change behind a message added something. */
  method MessageAdds(message: string) returns (adds: bool)
    ensures adds == Adds(message)
  {
    var counts := ReadCounts(message);
    adds := counts.Some? && exists k :: 0 <= k < |counts.value| && EndsAdded(counts.value[k]);
  }

  predicate Adds(message: string) {
    CountsOf(message).Some? && exists k :: 0 <= k < |CountsOf(message).value| && EndsAdded(CountsOf(message).value[k])
  }

  // -- no colon ever counts ----------------------------------------------

  predicate Has(s: string, c: char) {
    exists k :: 0 <= k < |s| && s[k] == c
  }

  /** Small letters and spaces, no space at either end. */
  predicate Plain(s: string) {
    && s != "" && s[0] != ' ' && s[|s| - 1] != ' '
    && forall k :: 0 <= k < |s| ==> 'a' <= s[k] <= 'z' || s[k] == ' '
  }

  lemma VerbsArePlain(verb: Verb)
    ensures Plain(VerbText(verb))
  {
  }

  lemma NounsArePlain(noun: Noun)
    requires !noun.Unnamed?
    ensures Plain(NounText(noun))
  {
  }

  lemma PhrasesArePlain(kind: Kind, several: bool)
    ensures Plain(Phrase(kind, several))
  {
    VerbsArePlain(kind.verb);
    if !kind.noun.Unnamed? {
      NounsArePlain(kind.noun);
      JoinPlain(NounText(kind.noun), if several then "s " else " ", VerbText(kind.verb));
    }
  }

  lemma JoinPlain(a: string, b: string, c: string)
    requires Plain(a) && Plain(c) && forall k :: 0 <= k < |b| ==> 'a' <= b[k] <= 'z' || b[k] == ' '
    ensures Plain(a + b + c)
  {
  }

  /** A count has no colon, no comma, no quote, and no white space at its ends. */
  lemma CountsArePlain(part: string)
    requires IsCount(part)
    ensures forall k :: 0 <= k < |part| ==> IsDigit(part[k]) || 'a' <= part[k] <= 'z' || part[k] == ' '
    ensures IsDigit(part[0]) && part[|part| - 1] != ' '
  {
    var n := Run(part);
    var kind, several :| kind in KINDS && part[n + 1..] == Phrase(kind, several);
    PhrasesArePlain(kind, several);
    PhraseBehind(part, n, Phrase(kind, several));
  }

  lemma PhraseBehind(part: string, n: nat, phrase: string)
    requires 0 < n < |part| && part[n] == ' ' && part[n + 1..] == phrase && Plain(phrase)
    requires forall k :: 0 <= k < n ==> IsDigit(part[k])
    ensures forall k :: 0 <= k < |part| ==> IsDigit(part[k]) || 'a' <= part[k] <= 'z' || part[k] == ' '
    ensures part[|part| - 1] != ' '
  {
    assert part == part[..n] + " " + phrase;
  }

  lemma SplitBehind(s: string, c: nat)
    requires c == Comma(s) && c < |s|
    ensures Split(s)[0] == s[..c] && Split(s)[1..] == Split(s[c + 1..])
  {
    FirstAndRest(s[..c], Split(s[c + 1..]));
  }

  lemma FirstAndRest<T>(x: T, rest: seq<T>)
    ensures ([x] + rest)[0] == x && ([x] + rest)[1..] == rest
  {
  }

  lemma {:induction false} SplitKeeps(s: string, k: nat) returns (at: nat)
    requires k < |s| && s[k] != ',' && !IsSpace(s[k])
    ensures at < |Split(s)| && Has(Strip(Split(s)[at]), s[k])
  {
    var c := Comma(s);
    if c == |s| {
      at := 0;
      StripKeeps(s, k);
    } else {
      SplitBehind(s, c);
      if k < c {
        at := 0;
        StripKeeps(s[..c], k);
      } else {
        var later := SplitKeeps(s[c + 1..], k - c - 1);
        at := later + 1;
        assert Split(s)[at] == Split(s)[1..][later];
      }
    }
  }

  lemma StripKeeps(s: string, k: nat)
    requires k < |s| && !IsSpace(s[k])
    ensures Has(Strip(s), s[k])
  {
    var r := RStrip(s);
    RStripReaches(s, k);
    assert r[k] == s[k];
    var from := LStripIsBehind(r);
    LStripSkipsBlanks(r, k, from);
    assert r[from..][k - from] == s[k];
  }

  lemma RStripReaches(s: string, k: nat)
    requires k < |s| && !IsSpace(s[k])
    ensures k < |RStrip(s)|
  {
    assert forall j :: |RStrip(s)| <= j < |s| ==> s[j] == s[|RStrip(s)|..][j - |RStrip(s)|];
  }

  lemma LStripSkipsBlanks(s: string, k: nat, from: nat)
    requires k < |s| && !IsSpace(s[k]) && from <= |s| && LStrip(s) == s[from..]
    ensures from <= k
  {
    LStripLength(s, k);
  }

  lemma {:induction false} LStripLength(s: string, k: nat)
    requires k < |s| && !IsSpace(s[k])
    ensures |LStrip(s)| >= |s| - k
  {
    if IsSpace(s[0]) {
      LStripLength(s[1..], k - 1);
    }
  }

  /** A text with something in it that no count has is not made of counts alone. */
  lemma OddIsNoCount(s: string, k: nat)
    requires k < |s| && (s[k] == ':' || s[k] == '"')
    ensures !AllCounts(Stripped(Split(s)))
  {
    var at := SplitKeeps(s, k);
    var part := Stripped(Split(s))[at];
    if IsCount(part) {
      CountsArePlain(part);
    }
  }

  lemma PeeledOnce(s: string, at: nat)
    requires !AllCounts(Stripped(Split(s))) && LeadIn(s) == Some(at)
    ensures CountsOf(s) == CountsOf(s[at + 2..])
  {
  }

  lemma NothingToPeel(s: string)
    requires !AllCounts(Stripped(Split(s))) && LeadIn(s).None?
    ensures CountsOf(s).None?
  {
  }

  /** The first lead-in is the name's end, or inside the name. */
  lemma LeadInOf(name: string, said: string) returns (at: nat)
    ensures var s := name + (": " + said);
      LeadIn(s) == Some(at) && at <= |name| && at + 1 != |name|
      && s[at + 2..] == if at == |name| then said else name[at + 2..] + (": " + said)
  {
    var s := name + (": " + said);
    assert s[|name|] == ':' && s[|name| + 1] == ' ';
    at := LeadIn(s).value;
  }

  lemma NameIsNoCount(name: string, said: string)
    ensures !AllCounts(Stripped(Split(name + (": " + said))))
  {
    var s := name + (": " + said);
    assert s[|name|] == ':';
    OddIsNoCount(s, |name|);
  }

  lemma NameIsPeeledOnce(name: string, said: string) returns (rest: string)
    ensures CountsOf(name + (": " + said)) == CountsOf(rest)
    ensures rest == said || exists from :: 2 <= from <= |name| && rest == name[from..] + (": " + said)
  {
    NameIsNoCount(name, said);
    var at := LeadInOf(name, said);
    PeeledOnce(name + (": " + said), at);
    rest := if at == |name| then said else name[at + 2..] + (": " + said);
  }

  /** Whatever a dashboard is called, its name is peeled off whole. */
  lemma {:induction false} LeadInIsPeeled(name: string, said: string)
    ensures CountsOf(name + (": " + said)) == CountsOf(said)
    decreases |name|
  {
    var rest := NameIsPeeledOnce(name, said);
    if rest != said {
      var from :| 2 <= from <= |name| && rest == name[from..] + (": " + said);
      LeadInIsPeeled(name[from..], said);
    }
  }

  // -- counts come back --------------------------------------------------

  predicate Clean(part: string) {
    part != "" && !IsSpace(part[0]) && !IsSpace(part[|part| - 1]) && !Has(part, ',')
  }

  lemma CleanIsStripped(part: string)
    requires Clean(part)
    ensures Strip(part) == part && Strip(" " + part) == part
  {
    StripAhead(" ", part);
  }

  lemma PartIsCount(count: nat, kind: Kind)
    requires kind in KINDS
    ensures IsCount(Part(count, kind)) && Clean(Part(count, kind))
  {
    var part, digits, phrase := Part(count, kind), Digits(count), Phrase(kind, count != 1);
    assert forall k :: 0 <= k < |digits| ==> part[k] == digits[k];
    assert part[|digits|] == ' ' && part[|digits| + 1..] == phrase;
    assert Run(part) == |digits|;
    CountsArePlain(part);
  }

  lemma {:induction false} PartsAreCounts(counts: seq<nat>, kinds: seq<Kind>)
    requires |counts| == |kinds| && forall kind :: kind in kinds ==> kind in KINDS
    ensures forall part :: part in Parts(counts, kinds) ==> IsCount(part) && Clean(part)
  {
    if counts != [] {
      PartIsCount(counts[0], kinds[0]);
      PartsAreCounts(counts[1..], kinds[1..]);
    }
  }

  lemma {:induction false} SplitFirst(part: string, rest: string)
    requires !Has(part, ',')
    ensures Split(part + "," + rest) == [part] + Split(rest)
    ensures Split(part) == [part]
  {
    var s := part + "," + rest;
    assert s[|part|] == ',' && forall k :: 0 <= k < |part| ==> s[k] == part[k];
    assert Comma(s) == |part|;
    assert s[..|part|] == part && s[|part| + 1..] == rest;
    assert Comma(part) == |part|;
  }

  lemma StripFirst(parts: seq<string>)
    requires parts != []
    ensures Stripped(parts) == [Strip(parts[0])] + Stripped(parts[1..])
  {
  }

  lemma SplitThen(first: string, more: string, rest: seq<string>)
    requires !Has(first, ',') && Stripped(Split(more)) == rest
    ensures Stripped(Split(first + "," + more)) == [Strip(first)] + rest
  {
    SplitFirst(first, more);
    StripFirst([first] + Split(more));
    assert ([first] + Split(more))[1..] == Split(more);
  }

  lemma SplitStep(ahead: string, part: string, tail: string, rest: seq<string>)
    requires Clean(part) && (ahead == "" || ahead == " ")
    requires Stripped(Split(" " + tail)) == rest
    ensures Stripped(Split(ahead + (part + ", " + tail))) == [part] + rest
  {
    StripsTo(ahead, part);
    NoComma(ahead, part);
    SplitThen(ahead + part, " " + tail, rest);
    Regrouped(ahead, part, tail);
  }

  lemma Regrouped(ahead: string, part: string, tail: string)
    ensures ahead + (part + ", " + tail) == ahead + part + "," + (" " + tail)
  {
  }

  lemma StripsTo(ahead: string, part: string)
    requires Clean(part) && (ahead == "" || ahead == " ")
    ensures Strip(ahead + part) == part
  {
    CleanIsStripped(part);
    assert "" + part == part;
  }

  lemma SplitLast(ahead: string, part: string)
    requires Clean(part) && (ahead == "" || ahead == " ")
    ensures Stripped(Split(ahead + part)) == [part]
  {
    CleanIsStripped(part);
    NoComma(ahead, part);
    assert ahead == "" ==> ahead + part == part;
    SplitFirst(ahead + part, "");
  }

  /** A line of clean parts is split into them again, whatever space stands ahead of it. */
  lemma {:induction false} JoinedIsSplit(parts: seq<string>, ahead: string)
    requires parts != [] && (forall part :: part in parts ==> Clean(part)) && (ahead == "" || ahead == " ")
    ensures Stripped(Split(ahead + Join(parts))) == parts
    decreases |parts|
  {
    assert parts == [parts[0]] + parts[1..];
    if |parts| == 1 {
      SplitLast(ahead, parts[0]);
    } else {
      JoinedIsSplit(parts[1..], " ");
      SplitStep(ahead, parts[0], Join(parts[1..]), parts[1..]);
    }
  }

  lemma NoComma(ahead: string, part: string)
    requires !Has(part, ',') && (ahead == "" || ahead == " ")
    ensures !Has(ahead + part, ',')
  {
  }

  /** Off a generated line exactly the parts printed on it are read, whatever the dashboard is called. */
  lemma CountsComeBack(name: string, summary: Summary, reason: Reason)
    requires !reason.FoundByComparison? && Parts(CountsIn(summary), KINDS) != []
    ensures CountsOf(ChangeMessage(name, NewConfig(summary), reason)) == Some(Parts(CountsIn(summary), KINDS))
  {
    var counts := CountsIn(summary);
    PartsAreCounts(counts, KINDS);
    CountLine(Parts(counts, KINDS));
    LeadInIsPeeled(name, Join(Parts(counts, KINDS)));
  }

  lemma AllInAreCounts(parts: seq<string>)
    requires forall part :: part in parts ==> IsCount(part)
    ensures AllCounts(parts)
  {
  }

  lemma AllInAreClean(parts: seq<string>)
    requires forall part :: part in parts ==> IsCount(part) && Clean(part)
    ensures forall part :: part in parts ==> Clean(part)
  {
  }

  lemma CountsOfWhole(s: string, parts: seq<string>)
    requires Stripped(Split(s)) == parts && AllCounts(parts)
    ensures CountsOf(s) == Some(parts)
  {
  }

  lemma CountLine(parts: seq<string>)
    requires parts != [] && forall part :: part in parts ==> IsCount(part) && Clean(part)
    ensures Join(parts) != "" && CountsOf(Join(parts)) == Some(parts)
  {
    AllInAreCounts(parts);
    AllInAreClean(parts);
    JoinedIsSplit(parts, "");
    assert "" + Join(parts) == Join(parts);
    CountsOfWhole(Join(parts), parts);
    NotEmpty(parts);
  }

  lemma NotEmpty(parts: seq<string>)
    requires parts != [] && forall part :: part in parts ==> Clean(part)
    ensures Join(parts) != ""
  {
    assert parts[0] in parts;
  }

  // -- what never reads as counts ----------------------------------------

  /** No lead-in, and no digit at its head: nothing that counts. */
  lemma NoDigitNoCounts(s: string)
    requires s != "" && !IsDigit(s[0]) && s[0] != ',' && !IsSpace(s[0]) && !Has(s, ':')
    ensures CountsOf(s).None?
  {
    var c := Comma(s);
    var first := s[..c];
    assert c > 0 && Split(s)[0] == first by {
      assert s[..|s|] == s;
    }
    StripHead(first);
    CountsArePlainOrNot(Stripped(Split(s))[0]);
  }

  lemma CountsArePlainOrNot(part: string)
    requires part == "" || !IsDigit(part[0])
    ensures !IsCount(part)
  {
  }

  lemma StripHead(s: string)
    requires s != "" && !IsSpace(s[0])
    ensures Strip(s) != "" && Strip(s)[0] == s[0]
  {
    RStripReaches(s, 0);
  }

  /** A text that ends in something no count ends in. */
  lemma {:induction false} OtherEndNoCounts(s: string)
    requires s != "" && s[|s| - 1] == '"'
    ensures CountsOf(s).None?
    decreases |s|
  {
    OddIsNoCount(s, |s| - 1);
    var lead := LeadIn(s);
    if lead.None? {
      NothingToPeel(s);
    } else {
      PeeledOnce(s, lead.value);
      var rest := s[lead.value + 2..];
      assert lead.value + 1 < |s| - 1;
      assert rest[|rest| - 1] == s[|s| - 1];
      OtherEndNoCounts(rest);
    }
  }

  /** A metadata field is called by a word: no digit first, no colon, no comma. */
  predicate IsFieldName(field: string) {
    field != "" && !IsDigit(field[0]) && !IsSpace(field[0]) && !Has(field, ':') && !Has(field, ',')
  }

  /** What is recorded about a dashboard is called by such words. */
  lemma FieldNamesAre()
    ensures IsFieldName("title") && IsFieldName("icon") && IsFieldName("url_path") && IsFieldName("mode")
    ensures IsFieldName("show_in_sidebar") && IsFieldName("require_admin")
    ensures forall field: string ::
      field != "" && (forall k :: 0 <= k < |field| ==> 'a' <= field[k] <= 'z' || field[k] == '_') ==>
      IsFieldName(field)
  {
  }

  lemma {:induction false} JoinHasNoColon(parts: seq<string>)
    requires parts != [] && forall k :: 0 <= k < |parts| ==> IsFieldName(parts[k])
    ensures !Has(Join(parts), ':')
    ensures parts[0] != "" && Join(parts) != "" && Join(parts)[0] == parts[0][0]
  {
    if |parts| > 1 {
      JoinHasNoColon(parts[1..]);
      NoColonJoined(parts[0], Join(parts[1..]));
    }
  }

  lemma NoColonJoined(a: string, b: string)
    requires !Has(a, ':') && !Has(b, ':')
    ensures !Has(a + ", " + b, ':') && !Has(a + b, ':')
  {
  }

  lemma DetailNoCounts(detail: Detail)
    requires detail.FieldsChanged? ==> detail.fields != [] && forall field :: field in detail.fields ==>
      IsFieldName(field)
    ensures CountsOf(DetailText(detail)).None?
  {
    match detail
    case NoneOfNote => NoDigitNoCounts("metadata recorded");
    case Renamed(title) =>
      OtherEndNoCounts("renamed to \"" + title + "\"");
    case FieldsChanged(fields) => FieldsNoCounts(fields);
  }

  lemma FieldsNoCounts(fields: seq<string>)
    requires fields != [] && forall field :: field in fields ==> IsFieldName(field)
    ensures CountsOf(Join(fields) + " changed").None?
  {
    JoinHasNoColon(fields);
    NoColonJoined(Join(fields), " changed");
    NoDigitNoCounts(Join(fields) + " changed");
  }

  lemma FirstStateNoCounts()
    ensures CountsOf("first recorded state").None?
  {
    NoDigitNoCounts("first recorded state");
  }

  lemma OutsideNoCounts()
    ensures CountsOf("changed outside Home Assistant").None?
  {
    NoDigitNoCounts("changed outside Home Assistant");
  }

  lemma NoneNoCounts()
    ensures CountsOf("no card changes").None?
  {
    NoDigitNoCounts("no card changes");
  }

  lemma MetadataNoCounts(before: Option<Metadata>, after: Option<Metadata>, fields: seq<string>)
    requires forall field :: field in fields ==> IsFieldName(field)
    ensures CountsOf(DetailText(DetailOf(before, after, fields))).None?
  {
    DetailNoCounts(DetailOf(before, after, fields));
  }

  lemma SaidNoCounts(change: Change, reason: Reason)
    requires change.SameConfig? ==> forall field :: field in change.fields ==> IsFieldName(field)
    requires change.NewConfig? ==> reason.FoundByComparison? || Parts(CountsIn(change.summary), KINDS) == []
    ensures CountsOf(Said(change, reason)).None?
  {
    match change
    case FirstState => FirstStateNoCounts();
    case SameConfig(before, after, fields) => MetadataNoCounts(before, after, fields);
    case NewConfig(_) =>
      if reason.FoundByComparison? { OutsideNoCounts(); } else { NoneNoCounts(); }
  }

  /** A rename, a change of metadata, a first state and an outside change never read as counts, and add nothing. */
  lemma OthersHaveNoCounts(name: string, change: Change, reason: Reason)
    requires change.SameConfig? ==> forall field :: field in change.fields ==> IsFieldName(field)
    requires change.NewConfig? ==> reason.FoundByComparison? || Parts(CountsIn(change.summary), KINDS) == []
    ensures CountsOf(ChangeMessage(name, change, reason)).None? && !Adds(ChangeMessage(name, change, reason))
  {
    SaidNoCounts(change, reason);
    LeadInIsPeeled(name, Said(change, reason));
  }

  // -- what a message adds -----------------------------------------------

  lemma VerbEnds(before: string, verb: Verb)
    ensures EndsAdded(before + " " + VerbText(verb)) <==> verb.Added?
  {
    var s := before + " " + VerbText(verb);
    var tail := s[|s| - 5..];
    match verb
    case Removed => assert s[|s| - 4] == 'o';
    case Added => assert s[|s| - 6..] == " added";
    case Edited => assert s[|s| - 4] == 'i';
    case Moved => assert s[|s| - 4] == 'o';
    case Changed => assert s[|s| - 4] == 'n';
  }

  lemma PartEndsAdded(count: nat, kind: Kind)
    ensures EndsAdded(Part(count, kind)) <==> kind.verb.Added?
  {
    if kind.noun.Unnamed? {
      VerbEnds(Digits(count), kind.verb);
    } else {
      var before := Digits(count) + " " + NounText(kind.noun) + if count != 1 then "s" else "";
      VerbEnds(before, kind.verb);
      assert Part(count, kind) == before + " " + VerbText(kind.verb);
    }
  }

  lemma {:induction false} SomeAdded(counts: seq<nat>, kinds: seq<Kind>)
    requires |counts| == |kinds| && forall kind :: kind in kinds ==> kind in KINDS
    ensures (exists part :: part in Parts(counts, kinds) && EndsAdded(part)) <==>
      exists k :: 0 <= k < |counts| && counts[k] > 0 && kinds[k].verb.Added?
  {
    if counts != [] {
      SomeAdded(counts[1..], kinds[1..]);
      PartEndsAdded(counts[0], kinds[0]);
      assert forall k :: 0 < k < |counts| ==> counts[1..][k - 1] == counts[k] && kinds[1..][k - 1] == kinds[k];
    }
  }

  /** A save's message says it added something exactly where cards, sections or views were added. */
  lemma AddsExactly(name: string, summary: Summary, reason: Reason)
    requires !reason.FoundByComparison?
    ensures Adds(ChangeMessage(name, NewConfig(summary), reason)) <==>
      summary.added > 0 || summary.sectionsAdded > 0 || summary.viewsAdded > 0
  {
    var counts, parts := CountsIn(summary), Parts(CountsIn(summary), KINDS);
    SomeAdded(counts, KINDS);
    AddedKinds(summary);
    if parts == [] {
      OthersHaveNoCounts(name, NewConfig(summary), reason);
    } else {
      CountsComeBack(name, summary, reason);
      SomeOf(parts);
    }
  }

  lemma SomeOf(parts: seq<string>)
    ensures (exists k :: 0 <= k < |parts| && EndsAdded(parts[k])) <==> exists part :: part in parts && EndsAdded(part)
  {
  }

  lemma AddedKinds(summary: Summary)
    ensures (exists k :: 0 <= k < |KINDS| && CountsIn(summary)[k] > 0 && KINDS[k].verb.Added?) <==>
      summary.added > 0 || summary.sectionsAdded > 0 || summary.viewsAdded > 0
  {
    var counts := CountsIn(summary);
    assert counts[1] == summary.viewsAdded && counts[3] == summary.sectionsAdded && counts[6] == summary.added;
    assert KINDS[1].verb.Added? && KINDS[3].verb.Added? && KINDS[6].verb.Added?;
  }

  // -- what exactly is said ----------------------------------------------

  /** "3 views removed", "1 view removed", or nothing. */
  function Counted(count: nat, one: string, more: string): seq<string> {
    if count == 0 then [] else [Digits(count) + " " + if count == 1 then one else more]
  }

  /** Every count of a summary in its own words, in this order. */
  function Spoken(summary: Summary): (spoken: seq<seq<string>>)
    ensures |spoken| == |KINDS|
  {
    [Counted(summary.viewsRemoved, "view removed", "views removed"),
     Counted(summary.viewsAdded, "view added", "views added"),
     Counted(summary.sectionsRemoved, "section removed", "sections removed"),
     Counted(summary.sectionsAdded, "section added", "sections added"),
     Counted(summary.sectionsMoved, "section moved", "sections moved"),
     Counted(summary.removed, "removed", "removed"),
     Counted(summary.added, "added", "added"),
     Counted(summary.edited, "edited", "edited"),
     Counted(summary.moved, "moved", "moved"),
     Counted(summary.settings, "setting changed", "settings changed"),
     Counted(summary.badges, "badge changed", "badges changed")]
  }

  lemma PartIsCounted(count: nat, kind: Kind, one: string, more: string)
    requires Phrase(kind, false) == one && Phrase(kind, true) == more
    ensures Parts([count], [kind]) == Counted(count, one, more)
  {
    assert [count][1..] == [] && [kind][1..] == [];
    assert Parts([], []) == [];
  }

  lemma {:induction false} PartsJoin(counts: seq<nat>, kinds: seq<Kind>)
    requires |counts| == |kinds| && counts != []
    ensures Parts(counts, kinds) == Parts([counts[0]], [kinds[0]]) + Parts(counts[1..], kinds[1..])
  {
    assert [counts[0]][1..] == [] && [kinds[0]][1..] == [];
    assert Parts([], []) == [];
  }

  function SpokenOf(counts: seq<nat>, words: seq<(string, string)>): (spoken: seq<seq<string>>)
    requires |counts| == |words|
    ensures |spoken| == |counts|
  {
    seq(|counts|, k requires 0 <= k < |counts| => Counted(counts[k], words[k].0, words[k].1))
  }

  predicate InWords(kinds: seq<Kind>, words: seq<(string, string)>) {
    && |kinds| == |words|
    && forall k :: 0 <= k < |kinds| ==> Phrase(kinds[k], false) == words[k].0 && Phrase(kinds[k], true) == words[k].1
  }

  lemma {:induction false} PartsAreSpoken(counts: seq<nat>, kinds: seq<Kind>, words: seq<(string, string)>)
    requires |counts| == |kinds| && InWords(kinds, words)
    ensures Parts(counts, kinds) == Concat(SpokenOf(counts, words))
  {
    if counts != [] {
      PartsAreSpoken(counts[1..], kinds[1..], words[1..]);
      PartsJoin(counts, kinds);
      PartIsCounted(counts[0], kinds[0], words[0].0, words[0].1);
      assert SpokenOf(counts, words)[1..] == SpokenOf(counts[1..], words[1..]);
    }
  }

  function ViewWords(): seq<(string, string)> {
    [("view removed", "views removed"), ("view added", "views added")]
  }

  function SectionWords(): seq<(string, string)> {
    [("section removed", "sections removed"), ("section added", "sections added"), ("section moved", "sections moved")]
  }

  function CardWords(): seq<(string, string)> {
    [("removed", "removed"), ("added", "added"), ("edited", "edited"), ("moved", "moved")]
  }

  function OtherWords(): seq<(string, string)> {
    [("setting changed", "settings changed"), ("badge changed", "badges changed")]
  }

  lemma ViewsInWords()
    ensures InWords([Kind(View, Removed), Kind(View, Added)], ViewWords())
  {
  }

  lemma OneInWords(kind: Kind, one: string, more: string)
    requires Phrase(kind, false) == one && Phrase(kind, true) == more
    ensures InWords([kind], [(one, more)])
  {
  }

  lemma SectionRemovedInWords()
    ensures InWords([Kind(Section, Removed)], [("section removed", "sections removed")])
  {
    assert "section" + " " + "removed" == "section removed";
    assert "section" + "s " + "removed" == "sections removed";
    OneInWords(Kind(Section, Removed), "section removed", "sections removed");
  }

  lemma SectionAddedInWords()
    ensures InWords([Kind(Section, Added)], [("section added", "sections added")])
  {
    assert "section" + " " + "added" == "section added";
    assert "section" + "s " + "added" == "sections added";
    OneInWords(Kind(Section, Added), "section added", "sections added");
  }

  lemma SectionMovedInWords()
    ensures InWords([Kind(Section, Moved)], [("section moved", "sections moved")])
  {
    assert "section" + " " + "moved" == "section moved";
    assert "section" + "s " + "moved" == "sections moved";
    OneInWords(Kind(Section, Moved), "section moved", "sections moved");
  }

  lemma SettingsInWords()
    ensures InWords([Kind(Setting, Changed)], [("setting changed", "settings changed")])
  {
    assert "setting" + " " + "changed" == "setting changed";
    assert "setting" + "s " + "changed" == "settings changed";
    OneInWords(Kind(Setting, Changed), "setting changed", "settings changed");
  }

  lemma BadgesInWords()
    ensures InWords([Kind(Badge, Changed)], [("badge changed", "badges changed")])
  {
    assert "badge" + " " + "changed" == "badge changed";
    assert "badge" + "s " + "changed" == "badges changed";
    OneInWords(Kind(Badge, Changed), "badge changed", "badges changed");
  }

  lemma SectionsInWords()
    ensures InWords([Kind(Section, Removed), Kind(Section, Added), Kind(Section, Moved)], SectionWords())
  {
    SectionRemovedInWords();
    SectionAddedInWords();
    SectionMovedInWords();
  }

  lemma CardsInWords()
    ensures InWords([Kind(Unnamed, Removed), Kind(Unnamed, Added), Kind(Unnamed, Edited), Kind(Unnamed, Moved)],
                    CardWords())
  {
  }

  lemma OthersInWords()
    ensures InWords([Kind(Setting, Changed), Kind(Badge, Changed)], OtherWords())
  {
    SettingsInWords();
    BadgesInWords();
  }

  lemma JoinInWords(a: seq<Kind>, one: seq<(string, string)>, b: seq<Kind>, other: seq<(string, string)>)
    requires InWords(a, one) && InWords(b, other)
    ensures InWords(a + b, one + other)
  {
  }

  lemma KindsInWords()
    ensures InWords(KINDS, ViewWords() + SectionWords() + CardWords() + OtherWords())
  {
    ViewsInWords();
    SectionsInWords();
    CardsInWords();
    OthersInWords();
    var views := [Kind(View, Removed), Kind(View, Added)];
    var sections := [Kind(Section, Removed), Kind(Section, Added), Kind(Section, Moved)];
    var cards := [Kind(Unnamed, Removed), Kind(Unnamed, Added), Kind(Unnamed, Edited), Kind(Unnamed, Moved)];
    JoinInWords(views, ViewWords(), sections, SectionWords());
    JoinInWords(views + sections, ViewWords() + SectionWords(), cards, CardWords());
    JoinInWords(views + sections + cards, ViewWords() + SectionWords() + CardWords(),
                [Kind(Setting, Changed), Kind(Badge, Changed)], OtherWords());
    assert KINDS == views + sections + cards + [Kind(Setting, Changed), Kind(Badge, Changed)];
  }

  /** Every count is printed in its own words, in that order, and nothing else is. */
  lemma LineIsInItsWords(summary: Summary)
    ensures Parts(CountsIn(summary), KINDS) == Concat(Spoken(summary))
  {
    var words := ViewWords() + SectionWords() + CardWords() + OtherWords();
    KindsInWords();
    PartsAreSpoken(CountsIn(summary), KINDS, words);
    SpokenIs(summary);
  }

  lemma SpokenIs(summary: Summary)
    ensures SpokenOf(CountsIn(summary), ViewWords() + SectionWords() + CardWords() + OtherWords()) == Spoken(summary)
  {
  }

  /** Nobody is accused: a change is said to come from outside exactly where it was found by comparison. */
  lemma OutsideExactly(change: Change, reason: Reason)
    ensures Said(change, reason) == "changed outside Home Assistant" <==> change.NewConfig? && reason.FoundByComparison?
  {
    if change.SameConfig? {
      DetailIsNotOutside(DetailOf(change.before, change.after, change.fields));
    } else if change.NewConfig? && !reason.FoundByComparison? {
      LineIsNotOutside(change.summary);
    }
  }

  lemma DetailIsNotOutside(detail: Detail)
    ensures DetailText(detail) != "changed outside Home Assistant"
  {
    var s := DetailText(detail);
    match detail
    case NoneOfNote => assert s[0] == 'm';
    case Renamed(_) => assert s[0] == 'r';
    case FieldsChanged(_) => assert s[|s| - 1] == 'd';
  }

  lemma LineIsNotOutside(summary: Summary)
    ensures var line := Join(Parts(CountsIn(summary), KINDS));
      (if line == "" then "no card changes" else line) != "changed outside Home Assistant"
  {
    var parts := Parts(CountsIn(summary), KINDS);
    PartsAreCounts(CountsIn(summary), KINDS);
    if parts != [] {
      JoinHead(parts);
    }
    assert "no card changes"[0] == 'n';
  }

  lemma JoinHead(parts: seq<string>)
    requires parts != [] && forall part :: part in parts ==> IsCount(part)
    ensures Join(parts) != "" && IsDigit(Join(parts)[0])
  {
    assert parts[0] in parts;
  }

  /** What is said of a change of the dashboard itself: a new title, the fields that differ, or neither. */
  lemma RenamedExactly(before: Option<Metadata>, after: Option<Metadata>, fields: seq<string>, title: string)
    ensures DetailOf(before, after, fields) == Renamed(title) <==>
      (&& before.Some? && after.Some? && "title" in after.value && after.value["title"] == title && title != ""
       && ("title" in before.value ==> before.value["title"] != title))
  {
  }
}
