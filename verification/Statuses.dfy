/** Reading a runtime status line: internal/adapters/docker/status.go, and the health in it,
    internal/adapters/docker/mapping.go. */
module Statuses {
  import opened Domain
  import opened Numbers

  // ----- the duration pattern ----------------------------------------------------------

  predicate StartsWith(s: string, prefix: string) {
    |prefix| <= |s| && s[..|prefix|] == prefix
  }

  function DigitsLength(s: string): (n: nat)
    ensures n <= |s|
  {
    if s != [] && IsDigit(s[0]) then 1 + DigitsLength(s[1..]) else 0
  }

  const UNITS: seq<string> := ["second", "minute", "hour", "day", "week", "month", "year"]

  /** The length of the first of `units`, in the singular or the plural, that `s` starts with. */
  function UnitLength(s: string, units: seq<string>): (n: Option<nat>)
    ensures n.Some? ==> n.value <= |s|
  {
    if units == [] then None
    else if StartsWith(s, units[0]) then
      var n := |units[0]|;
      Some(if n < |s| && s[n] == 's' then n + 1 else n)
    else UnitLength(s, units[1..])
  }

  /** A duration in words alone. */
  function WordedLength(s: string): (n: Option<nat>)
    ensures n.Some? ==> 0 < n.value <= |s|
  {
    if StartsWith(s, "Less than a second") then Some(18)
    else if StartsWith(s, "About an hour") then Some(13)
    else if StartsWith(s, "About a minute") then Some(14)
    else None
  }

  /** A number, a space and a unit. */
  function CountedLength(s: string): (n: Option<nat>)
    ensures n.Some? ==> 0 < n.value <= |s|
  {
    var digits := DigitsLength(s);
    if digits == 0 || digits == |s| || s[digits] != ' ' then None
    else
      match UnitLength(s[digits + 1..], UNITS)
      case None => None
      case Some(unit) => Some(digits + 1 + unit)
  }

  /** A duration as the runtime words it, at the start of `s`. */
  function DurationLength(s: string): (n: Option<nat>)
    ensures n.Some? ==> 0 < n.value <= |s|
  {
    if WordedLength(s).Some? then WordedLength(s) else CountedLength(s)
  }

  /** A match of the pattern at the start of `s`, with the " ago" that may follow a duration. */
  function MatchLength(s: string): (n: Option<nat>)
    ensures n.Some? ==> 0 < n.value <= |s|
  {
    match DurationLength(s)
    case None => None
    case Some(n) => Some(if StartsWith(s[n..], " ago") then n + 4 else n)
  }

  /** A compiled pattern: the length of its match at the start of a string. */
  type Pattern = p: string -> Option<nat> | Sound(p) witness NoMatch

  ghost predicate Sound(p: string -> Option<nat>) {
    forall s :: p(s).Some? ==> 0 < p(s).value <= |s|
  }

  function NoMatch(s: string): Option<nat> {
    None
  }

  const ELAPSED: Pattern := MatchLength

  /** `ReplaceAllString` with nothing: matches are taken from the left and do not overlap. */
  function RemoveMatches(s: string, p: Pattern): string {
    if s == [] then []
    else
      match p(s)
      case Some(n) => RemoveMatches(s[n..], p)
      case None => [s[0]] + RemoveMatches(s[1..], p)
  }

  /** `FindString`: the leftmost match, or nothing. */
  function FirstMatch(s: string, p: Pattern): string {
    if s == [] then []
    else
      match p(s)
      case Some(n) => s[..n]
      case None => FirstMatch(s[1..], p)
  }

  // ----- the two halves of a status ------------------------------------------------------

  predicate IsSpace(c: char) {
    || c == ' ' || '\t' <= c <= '\r' || c == '\U{85}' || c == '\U{A0}' || c == '\U{1680}'
    || '\U{2000}' <= c <= '\U{200A}' || '\U{2028}' <= c <= '\U{2029}' || c == '\U{202F}'
    || c == '\U{205F}' || c == '\U{3000}'
  }

  function WordLength(s: string): (n: nat)
    ensures n <= |s| && (s != [] && !IsSpace(s[0]) ==> n > 0)
  {
    if s != [] && !IsSpace(s[0]) then 1 + WordLength(s[1..]) else 0
  }

  /** `strings.Fields`. */
  function Fields(s: string): seq<string> {
    if s == [] then []
    else if IsSpace(s[0]) then Fields(s[1..])
    else
      var n := WordLength(s);
      [s[..n]] + Fields(s[n..])
  }

  function JoinWords(words: seq<string>): string {
    if words == [] then []
    else if |words| == 1 then words[0]
    else words[0] + " " + JoinWords(words[1..])
  }

  function StatusElapsed(status: string): string {
    FirstMatch(status, ELAPSED)
  }

  function StatusKind(status: string): string {
    JoinWords(Fields(RemoveMatches(status, ELAPSED)))
  }

  function Contains(s: string, part: string): bool {
    StartsWith(s, part) || (s != [] && Contains(s[1..], part))
  }

  function HealthFromStatus(status: string): Health {
    if Contains(status, "(healthy)") then Healthy
    else if Contains(status, "(unhealthy)") then Unhealthy
    else if Contains(status, "(health: starting)") then Starting
    else HealthNone
  }

  // ----- the shapes a status comes in -----------------------------------------------------

  datatype Unit = Second | Minute | Hour | Day | Week | Month | Year

  function UnitText(unit: Unit): string {
    match unit
    case Second => "second"
    case Minute => "minute"
    case Hour => "hour"
    case Day => "day"
    case Week => "week"
    case Month => "month"
    case Year => "year"
  }

  datatype Duration =
    | LessThanASecond
    | AboutAMinute
    | AboutAnHour
    | Counted(digits: string, unit: Unit, plural: bool)

  predicate Proper(d: Duration) {
    d.Counted? ==> d.digits != [] && forall i :: 0 <= i < |d.digits| ==> IsDigit(d.digits[i])
  }

  function DurationText(d: Duration): string
    requires Proper(d)
  {
    match d
    case LessThanASecond => "Less than a second"
    case AboutAMinute => "About a minute"
    case AboutAnHour => "About an hour"
    case Counted(digits, unit, plural) => digits + " " + UnitText(unit) + if plural then "s" else ""
  }

  /** "Up D", "Up D (note)", and "Exited (code) D ago" or "Restarting (code) D ago". */
  datatype Shape = Up | UpNoted(note: string) | Stopped(restarting: bool, code: string)

  predicate IsCode(code: string) {
    code != [] && forall i :: 0 <= i < |code| ==> IsDigit(code[i]) || code[i] == '-'
  }

  predicate WellShaped(shape: Shape) {
    shape.Stopped? ==> IsCode(shape.code)
  }

  function Word(shape: Shape): string {
    if !shape.Stopped? then "Up" else if shape.restarting then "Restarting" else "Exited"
  }

  function Before(shape: Shape): string {
    if shape.Stopped? then Word(shape) + " (" + shape.code + ") " else "Up "
  }

  function Ago(shape: Shape): string {
    if shape.Stopped? then " ago" else ""
  }

  function After(shape: Shape): string {
    if shape.UpNoted? then " (" + shape.note + ")" else ""
  }

  function Timed(shape: Shape, d: Duration): string
    requires Proper(d)
  {
    DurationText(d) + Ago(shape)
  }

  function StatusLine(shape: Shape, d: Duration): string
    requires Proper(d)
  {
    Before(shape) + (Timed(shape, d) + After(shape))
  }

  // ----- nothing matches in front of the duration, and the duration matches whole ------------

  predicate CanStart(c: char) {
    IsDigit(c) || c == 'L' || c == 'A'
  }

  lemma PrefixAt(s: string, prefix: string, i: nat)
    requires i < |prefix|
    ensures StartsWith(s, prefix) ==> i < |s| && s[i] == prefix[i]
  {
    if StartsWith(s, prefix) { assert s[..|prefix|][i] == s[i]; }
  }

  lemma NotWorded(s: string)
    requires s == [] || (s[0] != 'L' && s[0] != 'A')
    ensures WordedLength(s) == None
  {
    PrefixAt(s, "Less than a second", 0);
    PrefixAt(s, "About an hour", 0);
    PrefixAt(s, "About a minute", 0);
  }

  lemma MatchesStart(s: string)
    requires s != [] && !CanStart(s[0])
    ensures MatchLength(s) == None
  {
    NotWorded(s);
  }

  /** No match starts in `text` when `s` follows it. */
  ghost predicate Untouched(text: string, s: string, p: Pattern) {
    forall i :: 0 <= i < |text| ==> p(text[i..] + s) == None
  }

  lemma {:induction false} UntouchedIsKept(text: string, s: string, p: Pattern)
    requires Untouched(text, s, p)
    ensures RemoveMatches(text + s, p) == text + RemoveMatches(s, p)
    ensures FirstMatch(text + s, p) == FirstMatch(s, p)
  {
    if text == [] {
      assert text + s == s;
    } else {
      assert text[0..] + s == text + s;
      assert (text + s)[1..] == text[1..] + s;
      forall i | 0 <= i < |text[1..]| ensures p(text[1..][i..] + s) == None {
        assert text[1..][i..] == text[i + 1..];
      }
      UntouchedIsKept(text[1..], s, p);
    }
  }

  /** The first match goes, and what follows it is treated the same. */
  lemma {:induction false} MatchIsRemoved(before: string, matched: string, after: string, p: Pattern)
    requires Untouched(before, matched + after, p)
    requires matched != [] && p(matched + after) == Some(|matched|)
    ensures RemoveMatches(before + (matched + after), p) == before + RemoveMatches(after, p)
    ensures FirstMatch(before + (matched + after), p) == matched
  {
    var s := matched + after;
    assert s[|matched|..] == after && s[..|matched|] == matched;
    UntouchedIsKept(before, s, p);
  }

  /** No duration starts in `p` when `s` follows it. */
  ghost predicate Inert(p: string, s: string) {
    forall i :: 0 <= i < |p| ==> MatchLength(p[i..] + s) == None
  }

  lemma PlainIsInert(p: string, s: string)
    requires forall i :: 0 <= i < |p| ==> !CanStart(p[i])
    ensures Inert(p, s)
  {
    forall i | 0 <= i < |p| ensures MatchLength(p[i..] + s) == None {
      MatchesStart(p[i..] + s);
    }
  }

  lemma InertConcat(p: string, q: string, s: string)
    requires Inert(p, q + s) && Inert(q, s)
    ensures Inert(p + q, s)
  {
    forall i | 0 <= i < |p + q| ensures MatchLength((p + q)[i..] + s) == None {
      if i < |p| {
        assert (p + q)[i..] + s == p[i..] + (q + s);
      } else {
        assert (p + q)[i..] == q[i - |p|..];
      }
    }
  }

  lemma {:induction false} DigitsEnd(digits: string, s: string)
    requires forall i :: 0 <= i < |digits| ==> IsDigit(digits[i])
    requires s == [] || !IsDigit(s[0])
    ensures DigitsLength(digits + s) == |digits|
  {
    if digits == [] {
      assert digits + s == s;
    } else {
      assert (digits + s)[1..] == digits[1..] + s;
      DigitsEnd(digits[1..], s);
    }
  }

  lemma {:induction false} DigitsStopInCode(code: string, s: string)
    requires forall i :: 0 <= i < |code| ==> IsDigit(code[i]) || code[i] == '-'
    requires s != [] && s[0] == ')'
    ensures var n := DigitsLength(code + s); n < |code + s| && (code + s)[n] != ' '
  {
    if code == [] {
      assert code + s == s;
    } else if IsDigit(code[0]) {
      assert (code + s)[1..] == code[1..] + s;
      DigitsStopInCode(code[1..], s);
    }
  }

  lemma CodeIsInert(code: string, s: string)
    requires IsCode(code) && s != [] && s[0] == ')'
    ensures Inert(code, s)
  {
    forall i | 0 <= i < |code| ensures MatchLength(code[i..] + s) == None {
      var rest := code[i..] + s;
      assert rest[0] == code[i];
      if code[i] == '-' {
        MatchesStart(rest);
      } else {
        DigitsStopInCode(code[i..], s);
        NotWorded(rest);
      }
    }
  }

  lemma BeforeIsInert(shape: Shape, s: string)
    requires WellShaped(shape)
    ensures Inert(Before(shape), s)
  {
    if shape.Stopped? {
      CodedIsInert(Word(shape) + " (", shape.code, s);
    } else {
      PlainIsInert("Up ", s);
    }
  }

  lemma CodedIsInert(word: string, code: string, s: string)
    requires IsCode(code) && forall i :: 0 <= i < |word| ==> !CanStart(word[i])
    ensures Inert(word + code + ") ", s)
  {
    PlainIsInert(") ", s);
    CodeIsInert(code, ") " + s);
    InertConcat(code, ") ", s);
    PlainIsInert(word, code + ") " + s);
    assert code + ") " + s == (code + ") ") + s;
    InertConcat(word, code + ") ", s);
    assert word + (code + ") ") == word + code + ") ";
  }

  lemma {:induction false} UnitMatches(unit: Unit, plural: bool, s: string)
    requires s == [] || s[0] == ' '
    ensures var text := UnitText(unit) + if plural then "s" else "";
            UnitLength(text + s, UNITS) == Some(|text|)
  {
    UnitMatchesFrom(Place(unit), 0, plural, s);
  }

  /** Where the pattern has a unit. */
  function Place(unit: Unit): (i: nat)
    ensures i < |UNITS| && UNITS[i] == UnitText(unit)
  {
    match unit
    case Second => 0
    case Minute => 1
    case Hour => 2
    case Day => 3
    case Week => 4
    case Month => 5
    case Year => 6
  }

  lemma {:induction false} UnitMatchesFrom(unit: nat, k: nat, plural: bool, s: string)
    requires k <= unit < |UNITS| && (s == [] || s[0] == ' ')
    ensures var text := UNITS[unit] + if plural then "s" else "";
            UnitLength(text + s, UNITS[k..]) == Some(|text|)
    decreases |UNITS| - k
  {
    var text := UNITS[unit] + (if plural then "s" else "") + s;
    assert UNITS[k..][0] == UNITS[k] && UNITS[k..][1..] == UNITS[k + 1..];
    if k == unit {
      assert text[..|UNITS[unit]|] == UNITS[unit];
    } else {
      UnitsDiffer(unit, k);
      assert text[0] == UNITS[unit][0] && text[1] == UNITS[unit][1];
      PrefixAt(text, UNITS[k], 0);
      PrefixAt(text, UNITS[k], 1);
      UnitMatchesFrom(unit, k + 1, plural, s);
    }
  }

  lemma UnitsDiffer(i: nat, j: nat)
    requires i < |UNITS| && j < |UNITS| && i != j
    ensures |UNITS[i]| > 1 && |UNITS[j]| > 1
    ensures UNITS[i][0] != UNITS[j][0] || UNITS[i][1] != UNITS[j][1]
  {
  }

  lemma {:induction false} NumberAndUnit(digits: string, unit: string, s: string)
    requires digits != [] && forall i :: 0 <= i < |digits| ==> IsDigit(digits[i])
    requires UnitLength(unit + s, UNITS) == Some(|unit|)
    ensures DurationLength(digits + " " + unit + s) == Some(|digits| + 1 + |unit|)
  {
    var text := digits + " " + unit + s;
    var rest := " " + unit + s;
    assert text == digits + rest;
    DigitsEnd(digits, rest);
    assert rest[0] == ' ' && text[|digits| + 1..] == unit + s;
    NotWorded(text);
  }

  lemma CountedMatches(d: Duration, s: string)
    requires Proper(d) && d.Counted? && (s == [] || s[0] == ' ')
    ensures DurationLength(DurationText(d) + s) == Some(|DurationText(d)|)
  {
    var unit := UnitText(d.unit) + if d.plural then "s" else "";
    UnitMatches(d.unit, d.plural, s);
    NumberAndUnit(d.digits, unit, s);
    assert DurationText(d) == d.digits + " " + unit;
  }

  lemma DurationMatches(d: Duration, s: string)
    requires Proper(d) && (s == [] || s[0] == ' ')
    ensures DurationLength(DurationText(d) + s) == Some(|DurationText(d)|)
  {
    if d.Counted? {
      CountedMatches(d, s);
    } else {
      var text := DurationText(d) + s;
      assert text[..|DurationText(d)|] == DurationText(d);
      PrefixAt(text, "Less than a second", 0);
      PrefixAt(text, "About an hour", 7);
    }
  }

  lemma AfterIsNotAgo(shape: Shape)
    ensures !StartsWith(After(shape), " ago")
  {
    PrefixAt(After(shape), " ago", 0);
    PrefixAt(After(shape), " ago", 1);
  }

  /** The match at a duration is that duration, with its " ago" if it has one. */
  lemma DurationMatchesWhole(shape: Shape, d: Duration)
    requires Proper(d)
    ensures MatchLength(Timed(shape, d) + After(shape)) == Some(|Timed(shape, d)|)
  {
    DurationMatches(d, Ago(shape) + After(shape));
    AfterIsNotAgo(shape);
    AgoGoesWithIt(DurationText(d), Ago(shape), After(shape));
  }

  lemma AgoGoesWithIt(text: string, ago: string, after: string)
    requires DurationLength(text + (ago + after)) == Some(|text|)
    requires ago == " ago" || (ago == "" && !StartsWith(after, " ago"))
    ensures MatchLength(text + ago + after) == Some(|text + ago|)
  {
    assert text + ago + after == text + (ago + after);
    assert (text + ago + after)[|text|..] == ago + after;
    if ago == "" {
      assert ago + after == after;
    } else {
      assert (ago + after)[..4] == ago;
    }
  }

  // ----- the clock is never news --------------------------------------------------------------

  /** A status is what comes before its duration and what comes after it. */
  lemma {:induction false} DurationIsRemoved(before: string, matched: string, after: string)
    requires Inert(before, matched + after)
    requires matched != [] && MatchLength(matched + after) == Some(|matched|)
    ensures RemoveMatches(before + (matched + after), ELAPSED) == before + RemoveMatches(after, ELAPSED)
    ensures StatusElapsed(before + (matched + after)) == matched
  {
    assert Untouched(before, matched + after, ELAPSED);
    MatchIsRemoved(before, matched, after, ELAPSED);
  }

  /** What is left of a status when its duration is taken out does not depend on the duration. */
  lemma StatusParts(shape: Shape, d: Duration)
    requires WellShaped(shape) && Proper(d)
    ensures RemoveMatches(StatusLine(shape, d), ELAPSED) == Before(shape) + RemoveMatches(After(shape), ELAPSED)
    ensures StatusElapsed(StatusLine(shape, d)) == Timed(shape, d)
  {
    DurationMatchesWhole(shape, d);
    BeforeIsInert(shape, Timed(shape, d) + After(shape));
    DurationIsRemoved(Before(shape), Timed(shape, d), After(shape));
  }

  lemma KindIgnoresTheClock(shape: Shape, d: Duration, d': Duration)
    requires WellShaped(shape) && Proper(d) && Proper(d')
    ensures StatusKind(StatusLine(shape, d)) == StatusKind(StatusLine(shape, d'))
  {
    StatusParts(shape, d);
    StatusParts(shape, d');
  }

  predicate NoSpaces(s: string) {
    forall i :: 0 <= i < |s| ==> !IsSpace(s[i])
  }

  lemma {:induction false} WordEnds(word: string, s: string)
    requires NoSpaces(word) && (s == [] || IsSpace(s[0]))
    ensures WordLength(word + s) == |word|
  {
    if word == [] {
      assert word + s == s;
    } else {
      assert (word + s)[1..] == word[1..] + s;
      WordEnds(word[1..], s);
    }
  }

  lemma {:induction false} FieldsFromWord(word: string, s: string)
    requires word != [] && NoSpaces(word) && s != [] && IsSpace(s[0])
    ensures Fields(word + s) == [word] + Fields(s[1..])
  {
    WordEnds(word, s);
    assert (word + s)[..|word|] == word && (word + s)[|word|..] == s;
  }

  lemma {:induction false} JoinTwo(a: string, b: string)
    requires a != [] && b != [] && NoSpaces(a) && NoSpaces(b)
    ensures JoinWords(Fields(a + (" " + b + " "))) == a + " " + b
  {
    FieldsFromWord(a, " " + b + " ");
    assert (" " + b + " ")[1..] == b + " ";
    FieldsFromWord(b, " ");
    assert Fields(" "[1..]) == [];
    assert [a, b][1..] == [b];
  }

  lemma {:induction false} KindOfStopped(word: string, code: string)
    requires IsCode(code) && word != [] && NoSpaces(word)
    ensures JoinWords(Fields(word + " (" + code + ") ")) == word + " (" + code + ")"
  {
    var wrapped := "(" + code + ")";
    assert NoSpaces(wrapped);
    JoinTwo(word, wrapped);
    assert word + " (" + code + ") " == word + (" " + wrapped + " ");
    assert word + " " + wrapped == word + " (" + code + ")";
  }

  lemma KindOfUp()
    ensures JoinWords(Fields("Up ")) == "Up"
  {
    FieldsFromWord("Up", " ");
    assert "Up" + " " == "Up " && Fields(" "[1..]) == [];
  }

  lemma NothingToRemove(s: string, p: Pattern)
    ensures s + RemoveMatches("", p) == s
  {
  }

  lemma NothingAfter(shape: Shape, d: Duration)
    requires WellShaped(shape) && Proper(d) && !shape.UpNoted?
    ensures StatusKind(StatusLine(shape, d)) == JoinWords(Fields(Before(shape)))
  {
    StatusParts(shape, d);
    NothingToRemove(Before(shape), ELAPSED);
  }

  lemma StoppedBefore(shape: Shape)
    requires WellShaped(shape) && shape.Stopped?
    ensures JoinWords(Fields(Before(shape))) == Word(shape) + " (" + shape.code + ")"
  {
    assert NoSpaces("Restarting") && NoSpaces("Exited");
    KindOfStopped(Word(shape), shape.code);
  }

  /** A stopped container's status keeps its word and its exit code. */
  lemma StoppedKeepsItsCode(shape: Shape, d: Duration)
    requires WellShaped(shape) && Proper(d) && shape.Stopped?
    ensures StatusKind(StatusLine(shape, d)) == Word(shape) + " (" + shape.code + ")"
  {
    NothingAfter(shape, d);
    StoppedBefore(shape);
  }

  lemma UpIsJustUp(d: Duration)
    requires Proper(d)
    ensures StatusKind(StatusLine(Up, d)) == "Up"
  {
    NothingAfter(Up, d);
    KindOfUp();
  }

  // ----- a status without a duration ------------------------------------------------------------

  /** Nothing is taken out exactly when there is no duration to show. */
  lemma {:induction false} NoMatchNoChange(s: string, p: Pattern)
    ensures |RemoveMatches(s, p)| <= |s|
    ensures |RemoveMatches(s, p)| == |s| <==> FirstMatch(s, p) == ""
    ensures RemoveMatches(s, p) == s <==> FirstMatch(s, p) == ""
  {
    if s != [] {
      if p(s).Some? {
        NoMatchNoChange(s[p(s).value..], p);
      } else {
        NoMatchNoChange(s[1..], p);
        assert s == [s[0]] + s[1..];
      }
    }
  }

  ghost predicate AreWords(words: seq<string>) {
    forall i :: 0 <= i < |words| ==> words[i] != [] && NoSpaces(words[i])
  }

  lemma {:induction false} FieldsAreWords(s: string)
    ensures AreWords(Fields(s))
    decreases |s|
  {
    if s != [] {
      if IsSpace(s[0]) {
        FieldsAreWords(s[1..]);
      } else {
        FirstWord(s);
        FieldsAreWords(s[WordLength(s)..]);
      }
    }
  }

  /** The first word of a string that starts with one, and what follows it. */
  lemma {:induction false} FirstWord(s: string)
    ensures NoSpaces(s[..WordLength(s)])
    ensures WordLength(s) < |s| ==> IsSpace(s[WordLength(s)])
  {
    if s != [] && !IsSpace(s[0]) {
      FirstWord(s[1..]);
      assert s[..WordLength(s)] == [s[0]] + s[1..][..WordLength(s) - 1];
    }
  }

  lemma {:induction false} FieldsSkipSpace(s: string)
    requires s != [] && IsSpace(s[0])
    ensures Fields(s) == Fields(s[1..])
  {
  }

  /** A string that starts with a word, taken apart at its end. */
  lemma {:induction false} FieldsAfterWord(s: string, n: nat)
    requires s != [] && !IsSpace(s[0]) && n == WordLength(s)
    ensures Fields(s) == [s[..n]] + if n == |s| then [] else Fields(s[n + 1..])
  {
    FirstWord(s);
    if n < |s| {
      FieldsSkipSpace(s[n..]);
      assert s[n..][1..] == s[n + 1..];
    }
  }

  lemma {:induction false} JoinFirst(word: string, words: seq<string>)
    ensures JoinWords([word] + words) == if words == [] then word else word + " " + JoinWords(words)
  {
    assert ([word] + words)[1..] == words;
  }

  lemma {:induction false} JoiningDoesNotLengthen(s: string)
    ensures |JoinWords(Fields(s))| <= |s|
    decreases |s|
  {
    if s != [] {
      if IsSpace(s[0]) {
        JoiningDoesNotLengthen(s[1..]);
      } else {
        var n := WordLength(s);
        FieldsAfterWord(s, n);
        JoinFirst(s[..n], if n == |s| then [] else Fields(s[n + 1..]));
        if n < |s| { JoiningDoesNotLengthen(s[n + 1..]); }
      }
    }
  }

  /** Words with single spaces between them: no space at either end, none next to another, and
      none of any other kind. */
  predicate Tidy(s: string) {
    && (s != [] ==> !IsSpace(s[0]) && !IsSpace(s[|s| - 1]))
    && forall i :: 0 <= i < |s| && IsSpace(s[i]) ==> s[i] == ' ' && (i + 1 < |s| ==> !IsSpace(s[i + 1]))
  }

  lemma TidyFrom(s: string, k: nat)
    requires Tidy(s) && k < |s| && !IsSpace(s[k])
    ensures Tidy(s[k..])
  {
    var rest := s[k..];
    assert rest[|rest| - 1] == s[|s| - 1];
    forall i | 0 <= i < |rest| && IsSpace(rest[i])
      ensures rest[i] == ' ' && (i + 1 < |rest| ==> !IsSpace(rest[i + 1]))
    {
      assert rest[i] == s[k + i];
    }
  }

  lemma ApartAtSpace(s: string, n: nat)
    requires n < |s| && s[n] == ' '
    ensures s == s[..n] + " " + s[n + 1..]
  {
  }

  lemma SpaceIsSingle(s: string, n: nat)
    requires Tidy(s) && n < |s| && IsSpace(s[n])
    ensures s[n] == ' ' && n + 1 < |s| && !IsSpace(s[n + 1])
  {
    assert n != |s| - 1;
  }

  lemma {:induction false} TidyIsJoined(s: string)
    requires Tidy(s)
    ensures JoinWords(Fields(s)) == s
    decreases |s|
  {
    if s != [] {
      var n := WordLength(s);
      FieldsAfterWord(s, n);
      if n == |s| {
        assert s[..n] == s;
        JoinFirst(s, []);
      } else {
        FirstWord(s);
        SpaceIsSingle(s, n);
        TidyFrom(s, n + 1);
        ApartAtSpace(s, n);
        TidyIsJoined(s[n + 1..]);
        JoinFirst(s[..n], Fields(s[n + 1..]));
      }
    }
  }

  lemma TidyAfterWord(word: string, rest: string)
    requires word != [] && NoSpaces(word) && rest != [] && Tidy(rest)
    ensures Tidy(word + " " + rest)
  {
    var s := word + " " + rest;
    forall i | 0 <= i < |s| && IsSpace(s[i]) ensures s[i] == ' ' && (i + 1 < |s| ==> !IsSpace(s[i + 1])) {
      if i > |word| {
        assert s[i] == rest[i - |word| - 1];
        assert i + 1 < |s| ==> s[i + 1] == rest[i - |word|];
      }
    }
    assert s[|s| - 1] == rest[|rest| - 1];
  }

  lemma {:induction false} JoinedIsTidy(words: seq<string>)
    requires AreWords(words)
    ensures Tidy(JoinWords(words))
    ensures words != [] ==> JoinWords(words) != []
  {
    if |words| > 1 {
      JoinedIsTidy(words[1..]);
      TidyAfterWord(words[0], JoinWords(words[1..]));
    }
  }

  /** A status comes back unchanged exactly when there is no duration in it and its words have
      single spaces between them. */
  lemma UnchangedExactly(status: string)
    ensures StatusKind(status) == status <==> StatusElapsed(status) == "" && Tidy(status)
  {
    var left := RemoveMatches(status, ELAPSED);
    NoMatchNoChange(status, ELAPSED);
    JoiningDoesNotLengthen(left);
    FieldsAreWords(left);
    JoinedIsTidy(Fields(left));
    if Tidy(status) { TidyIsJoined(status); }
  }

  lemma PlainIsTimeless(s: string)
    requires forall i :: 0 <= i < |s| ==> !CanStart(s[i])
    ensures StatusElapsed(s) == ""
  {
    PlainIsInert(s, "");
    assert Untouched(s, "", ELAPSED);
    UntouchedIsKept(s, "", ELAPSED);
    assert s + "" == s;
  }

  lemma {:induction false} TimelessKind(s: string)
    ensures StatusElapsed(s) == "" ==> StatusKind(s) == JoinWords(Fields(s))
  {
    NoMatchNoChange(s, ELAPSED);
  }

  lemma {:induction false} OneWord(word: string, s: string)
    requires word != [] && NoSpaces(word) && s == word + " "
    ensures JoinWords(Fields(s)) == word
  {
    FieldsFromWord(word, " ");
    assert Fields(" "[1..]) == [];
  }

  /** A status that has no duration and does not come back unchanged, such as "Created" with a
      space after it. */
  lemma TrailingSpaceIsTakenOff(word: string, status: string)
    requires word != [] && NoSpaces(word) && forall i :: 0 <= i < |word| ==> !CanStart(word[i])
    requires status == word + " "
    ensures StatusElapsed(status) == "" && StatusKind(status) == word
  {
    PlainIsTimeless(status);
    TimelessKind(status);
    OneWord(word, status);
  }

  // ----- health --------------------------------------------------------------------------------

  /** A part that starts with a parenthesis is found no earlier than one. */
  lemma {:induction false} NotFoundBefore(p: string, s: string, part: string)
    requires part != [] && part[0] == '(' && '(' !in p
    ensures Contains(p + s, part) <==> Contains(s, part)
  {
    if p == [] {
      assert p + s == s;
    } else {
      assert (p + s)[1..] == p[1..] + s;
      NotFoundBefore(p[1..], s, part);
      PrefixAt(p + s, part, 0);
    }
  }

  lemma UnitsHaveNoParenthesis(unit: Unit)
    ensures '(' !in UnitText(unit)
  {
  }

  lemma TimeHasNoParenthesis(shape: Shape, d: Duration)
    requires Proper(d)
    ensures '(' !in Timed(shape, d)
  {
    if d.Counted? {
      UnitsHaveNoParenthesis(d.unit);
    }
  }

  lemma {:induction false} CodedLacks(word: string, code: string, rest: string, part: string)
    requires IsCode(code) && '(' !in word && '(' !in rest && HealthPart(part)
    ensures !Contains(word + ("(" + code + rest), part)
  {
    var s := "(" + code + rest;
    NotFoundBefore(word, s, part);
    assert s[1..] == code + rest;
    NotFoundBefore(code + rest, "", part);
    assert code + rest + "" == code + rest;
    PrefixAt(s, part, 1);
  }

  predicate HealthPart(part: string) {
    |part| > 1 && part[0] == '(' && part[1] != '-' && !IsDigit(part[1])
  }

  lemma Regroup(word: string, code: string, timed: string)
    ensures word + " (" + code + ") " + timed == word + " " + ("(" + code + (") " + timed))
  {
  }

  lemma {:induction false} CodedStatusLacks(shape: Shape, d: Duration, part: string)
    requires WellShaped(shape) && Proper(d) && HealthPart(part) && shape.Stopped?
    ensures !Contains(StatusLine(shape, d), part)
  {
    var timed := Timed(shape, d) + After(shape);
    TimeHasNoParenthesis(shape, d);
    Regroup(Word(shape), shape.code, timed);
    CodedLacks(Word(shape) + " ", shape.code, ") " + timed, part);
  }

  /** A health note is found in a status exactly where it is in the note. */
  lemma {:induction false} HealthPartIgnoresTheClock(shape: Shape, d: Duration, part: string)
    requires WellShaped(shape) && Proper(d) && HealthPart(part)
    ensures Contains(StatusLine(shape, d), part) <==> Contains(After(shape), part)
  {
    if shape.Stopped? {
      CodedStatusLacks(shape, d, part);
    } else {
      TimeHasNoParenthesis(shape, d);
      NotFoundBefore("Up ", Timed(shape, d) + After(shape), part);
      NotFoundBefore(Timed(shape, d), After(shape), part);
    }
  }

  lemma {:induction false} SameHealth(s: string, t: string)
    requires forall part :: HealthPart(part) ==> (Contains(s, part) <==> Contains(t, part))
    ensures HealthFromStatus(s) == HealthFromStatus(t)
  {
    assert HealthPart("(healthy)") && HealthPart("(unhealthy)") && HealthPart("(health: starting)");
  }

  /** The health in a status is the health in its note, whatever its duration. */
  lemma HealthIgnoresTheClock(shape: Shape, d: Duration)
    requires WellShaped(shape) && Proper(d)
    ensures HealthFromStatus(StatusLine(shape, d)) == HealthFromStatus(After(shape))
  {
    forall part | HealthPart(part)
      ensures Contains(StatusLine(shape, d), part) <==> Contains(After(shape), part)
    {
      HealthPartIgnoresTheClock(shape, d, part);
    }
    SameHealth(StatusLine(shape, d), After(shape));
  }

  /** A parenthesised note is found only whole. */
  lemma {:induction false} NoteIsFoundWhole(note: string, wanted: string)
    requires '(' !in note && ')' !in note && '(' !in wanted && ')' !in wanted
    ensures Contains(" (" + note + ")", "(" + wanted + ")") <==> note == wanted
  {
    var s, part := "(" + note + ")", "(" + wanted + ")";
    NotFoundBefore(" ", s, part);
    assert " " + s == " (" + note + ")";
    assert s[1..] == note + ")";
    NotFoundBefore(note + ")", "", part);
    assert note + ")" + "" == note + ")";
    WholeNote(note, wanted);
  }

  lemma WholeNote(note: string, wanted: string)
    requires ')' !in note && ')' !in wanted
    ensures StartsWith("(" + note + ")", "(" + wanted + ")") <==> note == wanted
  {
    var s, part := "(" + note + ")", "(" + wanted + ")";
    if StartsWith(s, part) {
      assert s[|part| - 1] == part[|part| - 1] == ')';
      assert forall i :: 0 <= i < |note| ==> s[i + 1] == note[i] != ')';
      assert s[1..|part| - 1] == part[1..|part| - 1];
      assert s[1..|s| - 1] == note && part[1..|part| - 1] == wanted;
    }
  }

  /** The health a running container's note tells of. */
  lemma HealthIsTheNote(note: string, d: Duration)
    requires Proper(d) && '(' !in note && ')' !in note
    ensures HealthFromStatus(StatusLine(UpNoted(note), d))
            == if note == "healthy" then Healthy
               else if note == "unhealthy" then Unhealthy
               else if note == "health: starting" then Starting
               else HealthNone
  {
    HealthIgnoresTheClock(UpNoted(note), d);
    HealthOfNote(note);
  }

  lemma HealthOfNote(note: string)
    requires '(' !in note && ')' !in note
    ensures HealthFromStatus(" (" + note + ")")
            == if note == "healthy" then Healthy
               else if note == "unhealthy" then Unhealthy
               else if note == "health: starting" then Starting
               else HealthNone
  {
    NotesAreFound(note, " (" + note + ")");
  }

  lemma {:induction false} HealthyIsFound(note: string)
    requires '(' !in note && ')' !in note
    ensures Contains(" (" + note + ")", "(healthy)") <==> note == "healthy"
  {
    NoteIsFound(note, "healthy", "(healthy)");
  }

  lemma {:induction false} UnhealthyIsFound(note: string)
    requires '(' !in note && ')' !in note
    ensures Contains(" (" + note + ")", "(unhealthy)") <==> note == "unhealthy"
  {
    NoteIsFound(note, "unhealthy", "(unhealthy)");
  }

  lemma {:induction false} NotesAreFound(note: string, s: string)
    requires '(' !in note && ')' !in note && s == " (" + note + ")"
    ensures Contains(s, "(healthy)") <==> note == "healthy"
    ensures Contains(s, "(unhealthy)") <==> note == "unhealthy"
    ensures Contains(s, "(health: starting)") <==> note == "health: starting"
  {
    HealthyIsFound(note);
    UnhealthyIsFound(note);
    NoteIsFound(note, "health: starting", "(health: starting)");
  }

  lemma {:induction false} NoteIsFound(note: string, wanted: string, part: string)
    requires '(' !in note && ')' !in note && '(' !in wanted && ')' !in wanted
    requires part == "(" + wanted + ")"
    ensures Contains(" (" + note + ")", part) <==> note == wanted
  {
    NoteIsFoundWhole(note, wanted);
  }

  // ----- what a status tells ---------------------------------------------------------------------

  /** The health a shape's note tells of, if it is a plain one. */
  function HealthOf(shape: Shape): Health {
    if !shape.UpNoted? then HealthNone
    else if shape.note == "healthy" then Healthy
    else if shape.note == "unhealthy" then Unhealthy
    else if shape.note == "health: starting" then Starting
    else HealthNone
  }

  /** What is left of a shape without its duration. */
  function Remainder(shape: Shape): string {
    match shape
    case Up => "Up"
    case UpNoted(note) => "Up (" + note + ")"
    case Stopped(restarting, code) => (if restarting then "Restarting (" else "Exited (") + code + ")"
  }

  predicate PlainNote(shape: Shape) {
    shape.UpNoted? ==> '(' !in shape.note && ')' !in shape.note
  }

  /** There is no second duration in a status, and no untidy space. */
  predicate TidyNote(shape: Shape) {
    shape.UpNoted? ==> Tidy(Remainder(shape)) && StatusElapsed(After(shape)) == ""
  }

  /** What the parts read from a status are when it is of a shape. */
  predicate ReadAs(shape: Shape, d: Duration, kind: string, elapsed: string, health: Health)
    requires Proper(d)
  {
    && elapsed == DurationText(d) + (if shape.Stopped? then " ago" else "")
    && (TidyNote(shape) ==> kind == Remainder(shape))
    && (PlainNote(shape) ==> health == HealthOf(shape))
  }

  lemma {:induction false} TwoSpaces(word: string, rest: string)
    requires word != [] && NoSpaces(word) && rest != []
    ensures Fields(word + " " + (" " + rest)) == Fields(word + " " + rest) == [word] + Fields(rest)
  {
    assert word + " " + (" " + rest) == word + (" " + (" " + rest)) && (" " + (" " + rest))[1..] == " " + rest;
    assert word + " " + rest == word + (" " + rest) && (" " + rest)[1..] == rest;
    FieldsFromWord(word, " " + (" " + rest));
    FieldsFromWord(word, " " + rest);
    FieldsSkipSpace(" " + rest);
  }

  lemma NotedText(note: string) returns (word: string, rest: string)
    ensures word != [] && NoSpaces(word) && rest != []
    ensures Before(UpNoted(note)) + After(UpNoted(note)) == word + " " + (" " + rest)
    ensures Remainder(UpNoted(note)) == word + " " + rest
  {
    word, rest := "Up", "(" + note + ")";
    assert Before(UpNoted(note)) == word + " " && After(UpNoted(note)) == " " + rest;
  }

  lemma {:induction false} KindWithNote(word: string, rest: string, status: string)
    requires word != [] && NoSpaces(word) && rest != [] && Tidy(word + " " + rest)
    requires RemoveMatches(status, ELAPSED) == word + " " + (" " + rest)
    ensures StatusKind(status) == word + " " + rest
  {
    TwoSpaces(word, rest);
    TidyIsJoined(word + " " + rest);
  }

  lemma NotedIsWhole(shape: Shape, d: Duration)
    requires Proper(d) && shape.UpNoted? && StatusElapsed(After(shape)) == ""
    ensures RemoveMatches(StatusLine(shape, d), ELAPSED) == Before(shape) + After(shape)
  {
    StatusParts(shape, d);
    NoMatchNoChange(After(shape), ELAPSED);
  }

  lemma KindOfNoted(shape: Shape, d: Duration)
    requires Proper(d) && shape.UpNoted? && TidyNote(shape)
    ensures StatusKind(StatusLine(shape, d)) == Remainder(shape)
  {
    var word, rest := NotedText(shape.note);
    NotedIsWhole(shape, d);
    KindWithNote(word, rest, StatusLine(shape, d));
  }

  lemma StoppedRemainder(shape: Shape)
    requires shape.Stopped?
    ensures Remainder(shape) == Word(shape) + " (" + shape.code + ")"
  {
    assert Word(shape) + " (" == if shape.restarting then "Restarting (" else "Exited (";
  }

  lemma KindOfShape(shape: Shape, d: Duration)
    requires WellShaped(shape) && Proper(d) && TidyNote(shape)
    ensures StatusKind(StatusLine(shape, d)) == Remainder(shape)
  {
    match shape
    case Up => UpIsJustUp(d);
    case UpNoted(_) => KindOfNoted(shape, d);
    case Stopped(_, _) =>
      StoppedKeepsItsCode(shape, d);
      StoppedRemainder(shape);
  }

  lemma HealthOfShape(shape: Shape, d: Duration)
    requires WellShaped(shape) && Proper(d) && PlainNote(shape)
    ensures HealthFromStatus(StatusLine(shape, d)) == HealthOf(shape)
  {
    if shape.UpNoted? {
      HealthIsTheNote(shape.note, d);
    } else {
      HealthIgnoresTheClock(shape, d);
    }
  }

  /** A status of a shape is read as just that: its duration, what is left without it, and the health
      its note tells of. */
  lemma StatusIsRead(shape: Shape, d: Duration)
    requires WellShaped(shape) && Proper(d)
    ensures var status := StatusLine(shape, d);
            ReadAs(shape, d, StatusKind(status), StatusElapsed(status), HealthFromStatus(status))
  {
    StatusParts(shape, d);
    if TidyNote(shape) { KindOfShape(shape, d); }
    if PlainNote(shape) { HealthOfShape(shape, d); }
  }
}
