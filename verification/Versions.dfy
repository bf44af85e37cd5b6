/** Version numbers: reading them off names, ordering them, counting up. */
module Versions {
  import opened Wrappers
  import opened TagNames

  datatype Number = Number(major: nat, minor: nat, patch: nat)

  datatype Level = Patch | Minor | Major

  datatype Version = Version(name: string, revision: string, title: string, description: string, made: int)

  predicate Less(a: Number, b: Number) {
    a.major < b.major || (a.major == b.major && (a.minor < b.minor || (a.minor == b.minor && a.patch < b.patch)))
  }

  // -- numerals ----------------------------------------------------------

  predicate IsDigit(c: char) {
    '0' <= c <= '9'
  }

  function DigitOf(c: char): nat
    requires IsDigit(c)
  {
    c as int - '0' as int
  }

  function CharOf(d: nat): (c: char)
    requires d < 10
    ensures IsDigit(c) && DigitOf(c) == d
  {
    (d + '0' as int) as char
  }

  /** A number as it is written: no leading zeros. */
  function Digits(n: nat): (s: string)
    ensures s != "" && forall k :: 0 <= k < |s| ==> IsDigit(s[k])
    ensures s[0] == '0' <==> n == 0
    ensures n == 0 ==> s == "0"
  {
    if n < 10 then [CharOf(n)] else Digits(n / 10) + [CharOf(n % 10)]
  }

  function Value(s: string): nat
    requires forall k :: 0 <= k < |s| ==> IsDigit(s[k])
  {
    if s == "" then 0 else 10 * Value(s[..|s| - 1]) + DigitOf(s[|s| - 1])
  }

  /** How many digits a text starts with. */
  function Run(s: string): (n: nat)
    ensures n <= |s| && forall k :: 0 <= k < n ==> IsDigit(s[k])
    ensures n < |s| ==> !IsDigit(s[n])
  {
    if s == "" || !IsDigit(s[0]) then 0 else 1 + Run(s[1..])
  }

  /** `0|[1-9]\d*` at the front of a text: the number, and what follows it. */
  function Numeral(s: string): Option<(nat, string)> {
    if s == "" || !IsDigit(s[0]) then None
    else if s[0] == '0' then Some((0, s[1..]))
    else Some((Value(s[..Run(s)]), s[Run(s)..]))
  }

  lemma {:induction false} ValueOfDigits(n: nat)
    ensures Value(Digits(n)) == n
  {
    if n < 10 {
      assert Digits(n)[..0] == "";
    } else {
      ValueOfDigits(n / 10);
      assert Digits(n)[..|Digits(n)| - 1] == Digits(n / 10);
    }
  }

  lemma {:induction false} DigitsOfValue(s: string)
    requires s != "" && (forall k :: 0 <= k < |s| ==> IsDigit(s[k])) && s[0] != '0'
    ensures Value(s) > 0 && Digits(Value(s)) == s
  {
    var front, last := s[..|s| - 1], s[|s| - 1];
    assert s == front + [last];
    if front == "" {
      assert Value(s) == DigitOf(s[0]);
    } else {
      DigitsOfValue(front);
      DigitsStep(Value(front), DigitOf(last));
    }
  }

  lemma DigitsStep(n: nat, d: nat)
    requires n > 0 && d < 10
    ensures Digits(10 * n + d) == Digits(n) + [CharOf(d)]
  {
    assert (10 * n + d) / 10 == n && (10 * n + d) % 10 == d;
  }

  lemma NumeralOf(n: nat, rest: string)
    requires rest == "" || !IsDigit(rest[0])
    ensures Numeral(Digits(n) + rest) == Some((n, rest))
  {
    var s := Digits(n) + rest;
    assert s[0] == Digits(n)[0];
    if n > 0 {
      assert forall k :: 0 <= k < |Digits(n)| ==> s[k] == Digits(n)[k];
      assert rest != "" ==> s[|Digits(n)|] == rest[0];
      assert Run(s) == |Digits(n)|;
      assert s[..Run(s)] == Digits(n);
      ValueOfDigits(n);
    }
  }

  lemma NumeralIs(s: string)
    requires Numeral(s).Some?
    ensures s == Digits(Numeral(s).value.0) + Numeral(s).value.1
  {
    if s[0] != '0' {
      DigitsOfValue(s[..Run(s)]);
    }
  }

  // -- names -------------------------------------------------------------

  /** A number behind its mark. */
  function Piece(mark: char, n: nat): string {
    [mark] + Digits(n)
  }

  function Numbers(number: Number): string {
    Piece('v', number.major) + Piece('.', number.minor) + Piece('.', number.patch)
  }

  function VersionName(key: string, number: Number): string {
    key + "/" + Numbers(number)
  }

  /** A numeral behind its mark, where a text starts with them. */
  function TakePiece(s: string, mark: char): Option<(nat, string)> {
    if s != "" && s[0] == mark then Numeral(s[1..]) else None
  }

  /** Three numerals behind their marks, and then the end - or, as `$` has it, a last line feed. */
  function ParseNumbers(s: string): Option<Number> {
    var major := TakePiece(s, 'v');
    if major.None? then None else
    var minor := TakePiece(major.value.1, '.');
    if minor.None? then None else
    var patch := TakePiece(minor.value.1, '.');
    if patch.None? || (patch.value.1 != "" && patch.value.1 != "\n") then None
    else Some(Number(major.value.0, minor.value.0, patch.value.0))
  }

  lemma PieceOf(mark: char, n: nat, rest: string)
    requires rest == "" || !IsDigit(rest[0])
    ensures TakePiece(Piece(mark, n) + rest, mark) == Some((n, rest))
  {
    NumeralOf(n, rest);
    assert (Piece(mark, n) + rest)[1..] == Digits(n) + rest;
  }

  lemma PieceIs(s: string, mark: char)
    requires TakePiece(s, mark).Some?
    ensures s == Piece(mark, TakePiece(s, mark).value.0) + TakePiece(s, mark).value.1
  {
    NumeralIs(s[1..]);
    assert s == [mark] + s[1..];
  }

  function Parse(key: string, name: string): Option<Number> {
    if key + "/" <= name then ParseNumbers(name[|key| + 1..]) else None
  }

  lemma ParseNumbersOf(number: Number, end: string)
    requires end == "" || end == "\n"
    ensures ParseNumbers(Numbers(number) + end) == Some(number)
  {
    var third := Piece('.', number.patch) + end;
    var second := Piece('.', number.minor) + third;
    assert Numbers(number) + end == Piece('v', number.major) + second;
    PieceOf('.', number.patch, end);
    PieceOf('.', number.minor, third);
    PieceOf('v', number.major, second);
  }

  lemma ParseNumbersIs(s: string) returns (end: string)
    requires ParseNumbers(s).Some?
    ensures end == "" || end == "\n"
    ensures s == Numbers(ParseNumbers(s).value) + end
  {
    PieceIs(s, 'v');
    var major := TakePiece(s, 'v').value;
    PieceIs(major.1, '.');
    var minor := TakePiece(major.1, '.').value;
    PieceIs(minor.1, '.');
    end := TakePiece(minor.1, '.').value.1;
    Regroup(Piece('v', major.0), Piece('.', minor.0), Piece('.', TakePiece(minor.1, '.').value.0), end);
  }

  lemma Regroup(a: string, b: string, c: string, d: string)
    ensures a + (b + (c + d)) == a + b + c + d
  {
  }

  /** A name reads as a number exactly where it is that number's name, but for a line feed at its end. */
  lemma ParseIsExact(key: string, name: string, number: Number)
    ensures Parse(key, name) == Some(number) <==>
      name == VersionName(key, number) || name == VersionName(key, number) + "\n"
  {
    NamedIsParsed(key, number, "");
    NamedIsParsed(key, number, "\n");
    assert VersionName(key, number) + "" == VersionName(key, number);
    if Parse(key, name) == Some(number) {
      var end := ParsedIsNamed(key, name);
    }
  }

  lemma ParsedIsNamed(key: string, name: string) returns (end: string)
    requires Parse(key, name).Some?
    ensures end == "" || end == "\n"
    ensures name == VersionName(key, Parse(key, name).value) + end
  {
    end := NumberBehind(key + "/", name);
  }

  lemma NumberBehind(front: string, name: string) returns (end: string)
    requires front <= name && ParseNumbers(name[|front|..]).Some?
    ensures end == "" || end == "\n"
    ensures name == front + Numbers(ParseNumbers(name[|front|..]).value) + end
  {
    var rest := name[|front|..];
    end := ParseNumbersIs(rest);
    SplitName(front, Numbers(ParseNumbers(rest).value), end, name, rest);
  }

  lemma SplitName(front: string, middle: string, end: string, name: string, rest: string)
    requires front <= name && name[|front|..] == rest && rest == middle + end
    ensures name == front + middle + end
  {
    assert name == front + rest;
  }

  lemma NamedIsParsed(key: string, number: Number, end: string)
    requires end == "" || end == "\n"
    ensures Parse(key, VersionName(key, number) + end) == Some(number)
  {
    ParseNumbersOf(number, end);
    FrontIsCut(key + "/", Numbers(number), end);
  }

  lemma FrontIsCut(front: string, middle: string, end: string)
    ensures front <= front + middle + end && (front + middle + end)[|front|..] == middle + end
  {
  }

  function Parsed(key: string, names: seq<string>): (parsed: seq<Option<Number>>)
    ensures |parsed| == |names| && forall k :: 0 <= k < |names| ==> parsed[k] == Parse(key, names[k])
  {
    seq(|names|, k requires 0 <= k < |names| => Parse(key, names[k]))
  }

  /** Where the highest number is, the first of several. */
  function Top(parsed: seq<Option<Number>>): (top: Option<nat>)
    ensures top.Some? ==> top.value < |parsed| && parsed[top.value].Some?
    ensures top.None? ==> forall k :: 0 <= k < |parsed| ==> parsed[k].None?
    ensures top.Some? ==> forall k :: 0 <= k < |parsed| && parsed[k].Some? ==>
      && !Less(parsed[top.value].value, parsed[k].value)
      && (k < top.value ==> Less(parsed[k].value, parsed[top.value].value))
  {
    if parsed == [] then None
    else
      var n := |parsed| - 1;
      var before := Top(parsed[..n]);
      if parsed[n].Some? && (before.None? || Less(parsed[before.value].value, parsed[n].value)) then Some(n) else before
  }

  /** The highest number among some names of a dashboard. */
  function Latest(key: string, names: seq<string>): (highest: Option<Number>)
    ensures highest.None? ==> forall k :: 0 <= k < |names| ==> Parse(key, names[k]).None?
    ensures highest.Some? ==> exists k :: 0 <= k < |names| && Parse(key, names[k]) == highest
    ensures highest.Some? ==> forall k :: 0 <= k < |names| && Parse(key, names[k]).Some? ==>
      !Less(highest.value, Parse(key, names[k]).value)
  {
    var top := Top(Parsed(key, names));
    if top.None? then None else Parse(key, names[top.value])
  }

  function Names(versions: seq<Version>): (names: seq<string>)
    ensures |names| == |versions| && forall k :: 0 <= k < |names| ==> names[k] == versions[k].name
  {
    seq(|versions|, k requires 0 <= k < |versions| => versions[k].name)
  }

  /** The version carrying the highest number, the first of several; hand-made names never answer. */
  function Highest(key: string, versions: seq<Version>): (top: Option<Version>)
    ensures top.Some? ==> top.value in versions && Parse(key, top.value.name) == Latest(key, Names(versions))
    ensures top.None? ==> Latest(key, Names(versions)).None?
  {
    var top := Top(Parsed(key, Names(versions)));
    if top.None? then None else Some(versions[top.value])
  }

  // -- counting up -------------------------------------------------------

  function Bump(base: Number, level: Level): Number {
    match level
    case Major => Number(base.major + 1, 0, 0)
    case Minor => Number(base.major, base.minor + 1, 0)
    case Patch => Number(base.major, base.minor, base.patch + 1)
  }

  /** Nothing but zeros below a level. */
  predicate Round(number: Number, level: Level) {
    match level
    case Major => number.minor == 0 && number.patch == 0
    case Minor => number.patch == 0
    case Patch => true
  }

  /** The next version at a level is the lowest one above with nothing but zeros below the level. */
  lemma BumpIsNext(base: Number, level: Level)
    ensures Less(base, Bump(base, level)) && Round(Bump(base, level), level)
    ensures forall other :: Less(base, other) && Round(other, level) ==> !Less(other, Bump(base, level))
  {
  }

  /** Counting starts from the highest version there is, and without one from zero. */
  function Candidate(key: string, names: seq<string>, level: Level): string {
    VersionName(key, Bump(Base(key, names), level))
  }

  function Base(key: string, names: seq<string>): Number {
    var current := Latest(key, names);
    if current.Some? then current.value else Number(0, 0, 0)
  }

  lemma CandidateIsNumbered(key: string, names: seq<string>, level: Level)
    ensures Parse(key, Candidate(key, names, level)) == Some(Bump(Base(key, names), level))
  {
    ParseIsExact(key, Candidate(key, names, level), Bump(Base(key, names), level));
  }

  lemma BaseIsHighest(key: string, names: seq<string>, name: string)
    requires name in names && Parse(key, name).Some?
    ensures !Less(Base(key, names), Parse(key, name).value)
  {
    var k :| 0 <= k < |names| && names[k] == name;
    assert Parse(key, names[k]).Some?;
  }

  lemma HighestIsLatest(key: string, names: seq<string>, k: nat)
    requires k < |names| && Parse(key, names[k]).Some?
    requires forall name :: name in names && Parse(key, name).Some? ==>
      !Less(Parse(key, names[k]).value, Parse(key, name).value)
    ensures Latest(key, names) == Parse(key, names[k])
  {
    var parsed := Parsed(key, names);
    assert parsed[k].Some?;
    var top := Top(parsed).value;
    assert names[top] in names && parsed[top] == Parse(key, names[top]);
  }

  /** Every candidate is above all there is, so it never is one of them; once made, it is the current one. */
  lemma CandidatesAreAbove(key: string, names: seq<string>, level: Level)
    ensures var name := Candidate(key, names, level);
      && Parse(key, name).Some? && name !in names
      && (forall other :: other in names && Parse(key, other).Some? ==>
            Less(Parse(key, other).value, Parse(key, name).value))
      && Latest(key, names + [name]) == Parse(key, name)
  {
    var name := Candidate(key, names, level);
    CandidateIsNumbered(key, names, level);
    CandidateExceeds(key, names, level);
    CurrentOnceMade(key, names, name);
  }

  lemma CandidateExceeds(key: string, names: seq<string>, level: Level)
    ensures forall other :: other in names && Parse(key, other).Some? ==>
      Less(Parse(key, other).value, Bump(Base(key, names), level))
  {
    BumpIsNext(Base(key, names), level);
    forall other | other in names && Parse(key, other).Some?
      ensures Less(Parse(key, other).value, Bump(Base(key, names), level))
    {
      BaseIsHighest(key, names, other);
    }
  }

  lemma CurrentOnceMade(key: string, names: seq<string>, name: string)
    requires Parse(key, name).Some?
    requires forall other :: other in names && Parse(key, other).Some? ==>
      Less(Parse(key, other).value, Parse(key, name).value)
    ensures name !in names && Latest(key, names + [name]) == Parse(key, name)
  {
    HighestIsLatest(key, names + [name], |names|);
  }

  /** `major` exactly where a dashboard carries no number yet, so that its first automatic version is v1.0.0. */
  function AutomaticLevel(key: string, names: seq<string>): Level {
    if Latest(key, names).Some? then Patch else Major
  }

  lemma FirstAutomaticIsOne(key: string, names: seq<string>)
    requires Latest(key, names).None?
    ensures Candidate(key, names, AutomaticLevel(key, names)) == key + "/v1.0.0"
  {
    assert Digits(1) == "1" && Digits(0) == "0";
    assert Numbers(Number(1, 0, 0)) == "v1.0.0";
  }

  /** Nothing behind the key's own slash is a slash. */
  lemma NoSlashBehind(key: string, name: string, k: nat)
    requires Parse(key, name).Some? && |key| < k < |name|
    ensures name[k] != '/'
  {
    var end := ParsedIsNamed(key, name);
    NumbersHaveNoSlash(Parse(key, name).value);
    CharBehind(key + "/", Numbers(Parse(key, name).value), end, k);
  }

  lemma CharBehind(front: string, middle: string, end: string, k: nat)
    requires (forall c :: c in middle ==> c != '/') && (end == "" || end == "\n")
    requires |front| <= k < |front + middle + end|
    ensures (front + middle + end)[k] != '/'
  {
    if k < |front + middle| {
      assert (front + middle + end)[k] == middle[k - |front|];
      assert middle[k - |front|] in middle;
    }
  }

  lemma NumbersHaveNoSlash(number: Number)
    ensures forall c :: c in Numbers(number) ==> c != '/'
  {
    PieceHasNoSlash('v', number.major);
    PieceHasNoSlash('.', number.minor);
    PieceHasNoSlash('.', number.patch);
  }

  lemma PieceHasNoSlash(mark: char, n: nat)
    requires mark != '/'
    ensures forall c :: c in Piece(mark, n) ==> c != '/'
  {
  }

  /** A candidate is never in the way of a numbered version, nor one of those in its way. */
  lemma CandidatesNeverCollide(key: string, names: seq<string>, level: Level, one: string)
    requires one in names && Parse(key, one).Some?
    ensures var name := Candidate(key, names, level); one != name && !Under(one, name) && !Under(name, one)
  {
    var name := Candidate(key, names, level);
    CandidatesAreAbove(key, names, level);
    NumberedApart(key, one, name);
    NumberedApart(key, name, one);
  }

  lemma NumberedApart(key: string, name: string, other: string)
    requires Parse(key, name).Some? && Parse(key, other).Some?
    ensures !Under(name, other)
  {
    UnderSplits(name, other);
    var end := ParsedIsNamed(key, other);
    if |other| < |name| {
      NoSlashBehind(key, name, |other|);
    }
  }
}
