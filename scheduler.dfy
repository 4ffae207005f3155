/** The command selection of TStatGcal.py: among calendar events whose
    title is a whitelisted command with an acceptable value, pick the one
    that started most recently before now, and turn it into at most one
    call of a thermostat setter, within fixed bounds for the set points.

    Event start times are integer seconds on the same clock as `now`; the
    calendar query and the time-zone conversion that produce them are not
    part of this model. */
module Scheduler {
  import opened Values
  import opened Registry
  import opened Client

  // ---------------------------------------------------------------------
  // Constants

  const HeatMin := 55
  const HeatMax := 80
  const CoolMin := 70
  const CoolMax := 100

  /** The commands the script executes. */
  const Commands: seq<string> := ["Heat", "Cool", "Mode", "Fan"]

  /** The non-numeric values accepted. */
  const Keywords: seq<string> := ["Off", "On", "Auto"]

  /** A calendar event: its title and the start times of its occurrences. */
  datatype Event = Event(title: string, starts: seq<int>)

  // ---------------------------------------------------------------------
  // Titles: `title.splitlines()[0].split()`

  predicate IsLineBreak(c: char)
  {
    c == '\n' || c == '\r'
  }

  predicate IsSpace(c: char)
  {
    c == ' ' || c == '\t' || c == '\n' || c == '\r' || c == '\U{000B}' || c == '\U{000C}'
  }

  /** The text up to the first line break. */
  function FirstLine(s: string): (r: string)
    ensures r <= s
    ensures forall i :: 0 <= i < |r| ==> !IsLineBreak(r[i])
    ensures |r| < |s| ==> IsLineBreak(s[|r|])
    decreases |s|
  {
    if s == [] || IsLineBreak(s[0]) then [] else [s[0]] + FirstLine(s[1..])
  }

  /** The length of the word at the start of `s`. */
  function WordLength(s: string): (n: nat)
    ensures n <= |s|
    ensures forall i :: 0 <= i < n ==> !IsSpace(s[i])
    ensures n < |s| ==> IsSpace(s[n])
    decreases |s|
  {
    if s == [] || IsSpace(s[0]) then 0 else 1 + WordLength(s[1..])
  }

  predicate IsWord(w: string)
  {
    w != [] && forall i :: 0 <= i < |w| ==> !IsSpace(w[i])
  }

  /** Python's `s.split()`: the maximal runs of non-space characters. */
  function Words(s: string): (ws: seq<string>)
    ensures forall i :: 0 <= i < |ws| ==> IsWord(ws[i])
    decreases |s|
  {
    if s == [] then []
    else if IsSpace(s[0]) then Words(s[1..])
    else
      var n := WordLength(s);
      [s[..n]] + Words(s[n..])
  }

  /** `' '.join(ws)`. */
  function Unwords(ws: seq<string>): string
    decreases |ws|
  {
    if ws == [] then [] else if |ws| == 1 then ws[0] else ws[0] + " " + Unwords(ws[1..])
  }

  lemma {:induction false} WordLengthOfWord(w: string, rest: string)
    requires IsWord(w) && (rest == [] || IsSpace(rest[0]))
    ensures WordLength(w + rest) == |w|
    decreases |w|
  {
    if |w| > 1 {
      assert (w + rest)[1..] == w[1..] + rest;
      WordLengthOfWord(w[1..], rest);
    } else {
      assert (w + rest)[1..] == rest;
    }
  }

  /** Splitting words joined by single spaces gives the words back. */
  lemma {:induction false} WordsUnwords(ws: seq<string>)
    requires forall i :: 0 <= i < |ws| ==> IsWord(ws[i])
    ensures Words(Unwords(ws)) == ws
    decreases |ws|
  {
    if ws == [] {
    } else if |ws| == 1 {
      var w := ws[0];
      WordLengthOfWord(w, []);
      assert w + [] == w;
      assert w[|w|..] == [];
      assert w[..|w|] == w;
    } else {
      var w := ws[0];
      var rest := " " + Unwords(ws[1..]);
      var s := w + rest;
      assert Unwords(ws) == s;
      WordLengthOfWord(w, rest);
      assert s[..|w|] == w;
      assert s[|w|..] == rest;
      assert rest[1..] == Unwords(ws[1..]);
      WordsUnwords(ws[1..]);
      assert ws == [w] + ws[1..];
    }
  }

  /** The verb and value of a title, or None when the first line does not
      split into exactly two words: the tuple unpack raises then. */
  function ParseTitle(title: string): (r: Option<(string, string)>)
    ensures r.Some? ==> IsWord(r.value.0) && IsWord(r.value.1)
  {
    var ws := Words(FirstLine(title));
    if |ws| == 2 then Some((ws[0], ws[1])) else None
  }

  lemma {:induction false} FirstLineStops(line: string, rest: string)
    requires forall i :: 0 <= i < |line| ==> !IsLineBreak(line[i])
    ensures FirstLine(line + "\n" + rest) == line
    decreases |line|
  {
    if line == [] {
      assert (line + "\n" + rest)[0] == '\n';
    } else {
      assert (line + "\n" + rest)[1..] == line[1..] + "\n" + rest;
      FirstLineStops(line[1..], rest);
      assert [line[0]] + line[1..] == line;
    }
  }

  lemma {:induction false} FirstLineWhole(line: string)
    requires forall i :: 0 <= i < |line| ==> !IsLineBreak(line[i])
    ensures FirstLine(line) == line
    decreases |line|
  {
    if line != [] {
      FirstLineWhole(line[1..]);
      assert [line[0]] + line[1..] == line;
    }
  }

  /** A title "verb value", alone or followed by further lines, parses to
      (verb, value). */
  lemma ParseTitleOfCommand(verb: string, value: string, notes: string)
    requires IsWord(verb) && IsWord(value)
    requires forall i :: 0 <= i < |verb| ==> !IsLineBreak(verb[i])
    requires forall i :: 0 <= i < |value| ==> !IsLineBreak(value[i])
    ensures ParseTitle(verb + " " + value) == Some((verb, value))
    ensures ParseTitle(verb + " " + value + "\n" + notes) == Some((verb, value))
  {
    var line := verb + " " + value;
    assert Unwords([verb, value]) == line by {
      assert [verb, value][1..] == [value];
    }
    assert forall i :: 0 <= i < |line| ==> !IsLineBreak(line[i]) by {
      forall i | 0 <= i < |line| ensures !IsLineBreak(line[i]) {
        if i < |verb| { assert line[i] == verb[i]; }
        else if i > |verb| { assert line[i] == value[i - |verb| - 1]; }
      }
    }
    FirstLineStops(line, notes);
    FirstLineWhole(line);
    WordsUnwords([verb, value]);
  }

  /** A title with one word, or three, does not parse. */
  lemma ParseTitleNeedsTwoWords(a: string, b: string, c: string)
    requires IsWord(a) && IsWord(b) && IsWord(c)
    requires forall i :: 0 <= i < |a| ==> !IsLineBreak(a[i])
    requires forall i :: 0 <= i < |b| ==> !IsLineBreak(b[i])
    requires forall i :: 0 <= i < |c| ==> !IsLineBreak(c[i])
    ensures ParseTitle(a + "\n") == None
    ensures ParseTitle(a + " " + b + " " + c + "\n") == None
  {
    FirstLineStops(a, "");
    assert a + "\n" + "" == a + "\n";
    assert Unwords([a]) == a;
    WordsUnwords([a]);
    var line := a + " " + b + " " + c;
    assert Unwords([a, b, c]) == line by {
      assert [a, b, c][1..] == [b, c];
      assert [b, c][1..] == [c];
      assert Unwords([b, c]) == b + " " + c;
      assert a + " " + (b + " " + c) == line;
    }
    assert forall i :: 0 <= i < |line| ==> !IsLineBreak(line[i]) by {
      forall i | 0 <= i < |line| ensures !IsLineBreak(line[i]) {
        if i < |a| { assert line[i] == a[i]; }
        else if |a| < i < |a| + 1 + |b| { assert line[i] == b[i - |a| - 1]; }
        else if i > |a| + 1 + |b| { assert line[i] == c[i - |a| - |b| - 2]; }
      }
    }
    FirstLineStops(line, "");
    assert line + "\n" + "" == line + "\n";
    WordsUnwords([a, b, c]);
  }

  /** The whitelist and value checks: a whitelisted verb, and a value that
      `float()` accepts or one of Off, On, Auto. `float()` is given as
      `isFloat`. */
  predicate Admissible(title: string, isFloat: string -> bool)
  {
    match ParseTitle(title)
    case None => false
    case Some((verb, value)) => verb in Commands && (isFloat(value) || value in Keywords)
  }

  // ---------------------------------------------------------------------
  // Integers: `int(value)`

  predicate IsDigit(c: char)
  {
    '0' <= c <= '9'
  }

  predicate AllDigits(s: string)
  {
    forall i :: 0 <= i < |s| ==> IsDigit(s[i])
  }

  function DigitsValue(ds: string): nat
    requires AllDigits(ds)
    decreases |ds|
  {
    if ds == [] then 0
    else DigitsValue(ds[..|ds| - 1]) * 10 + (ds[|ds| - 1] as int - '0' as int)
  }

  /** `int(s)` for a string without surrounding spaces: an optional sign
      and at least one decimal digit; None where `int` raises. */
  function ParseInt(s: string): (r: Option<int>)
    ensures r.Some? <==> |s| > 0 && (if s[0] == '+' || s[0] == '-' then |s| > 1 && AllDigits(s[1..]) else AllDigits(s))
  {
    if s == [] then None
    else if s[0] == '+' || s[0] == '-' then
      if |s| > 1 && AllDigits(s[1..]) then
        var n: int := DigitsValue(s[1..]);
        Some(if s[0] == '-' then -n else n)
      else None
    else if AllDigits(s) then Some(DigitsValue(s))
    else None
  }

  /** The decimal digits of n, as `str(n)` writes them. */
  function NatToString(n: nat): (s: string)
    ensures |s| > 0 && AllDigits(s)
    decreases n
  {
    if n < 10 then [('0' as int + n) as char]
    else NatToString(n / 10) + [('0' as int + n % 10) as char]
  }

  /** `str(n)`. */
  function IntToString(n: int): string
  {
    if n < 0 then "-" + NatToString(-n) else NatToString(n)
  }

  lemma {:induction false} DigitsOfNat(n: nat)
    ensures DigitsValue(NatToString(n)) == n
    decreases n
  {
    if n >= 10 {
      DigitsOfNat(n / 10);
      var s := NatToString(n);
      assert s[..|s| - 1] == NatToString(n / 10);
    }
  }

  /** The digits of a natural number, with or without a minus sign, parse
      back to it. */
  lemma ParseNatString(m: nat)
    ensures ParseInt(NatToString(m)) == Some(m)
    ensures ParseInt("-" + NatToString(m)) == Some(-(m as int))
  {
    var ds := NatToString(m);
    DigitsOfNat(m);
    assert IsDigit(ds[0]);
    assert ParseInt(ds) == Some(DigitsValue(ds));
    var s := "-" + ds;
    assert s[0] == '-' && s[1..] == ds;
    var v: int := DigitsValue(ds);
    assert ParseInt(s) == Some(-v);
  }

  /** `int(str(n)) == n`. */
  lemma ParseIntToString(n: int)
    ensures ParseInt(IntToString(n)) == Some(n)
  {
    if n < 0 {
      ParseNatString(-n);
    } else {
      ParseNatString(n);
    }
  }

  // ---------------------------------------------------------------------
  // Time: `timedelta.days` and `timedelta.seconds`

  /** The day part of a time difference of d seconds (rounded down). */
  function Days(d: int): int
  {
    d / 86400
  }

  /** The seconds part: d is Days(d) whole days plus Secs(d) seconds, with
      0 <= Secs(d) < 86400, the normal form of a timedelta. */
  function Secs(d: int): (r: int)
    ensures 0 <= r < 86400
    ensures d == Days(d) * 86400 + r
  {
    d % 86400
  }

  /** A start is in the future, and skipped, exactly when it is not before
      now. */
  lemma FutureIsNonNegative(d: int)
    ensures Days(d) >= 0 <==> d >= 0
  {
  }

  // ---------------------------------------------------------------------
  // Selection

  /** A candidate: the index of the event, the index of the occurrence
      (`a_when`) and its start minus now. */
  datatype Cand = Cand(event: nat, when: nat, delta: int)

  /** The past starts of event i, in order. */
  function PastStarts(i: nat, starts: seq<int>, now: int): (r: seq<Cand>)
    ensures forall j :: 0 <= j < |r| ==>
      r[j].event == i && r[j].when < |starts| && r[j].delta == starts[r[j].when] - now && r[j].delta < 0
    decreases |starts|
  {
    if starts == [] then []
    else
      var prev := PastStarts(i, starts[..|starts| - 1], now);
      assert forall j :: 0 <= j < |prev| ==> starts[..|starts| - 1][prev[j].when] == starts[prev[j].when];
      var d := starts[|starts| - 1] - now;
      if Days(d) >= 0 then prev else prev + [Cand(i, |starts| - 1, d)]
  }

  /** Every past start of event i is a candidate. */
  lemma {:induction false} PastStartsComplete(i: nat, starts: seq<int>, now: int, k: int)
    requires 0 <= k < |starts| && starts[k] < now
    ensures Cand(i, k, starts[k] - now) in PastStarts(i, starts, now)
    decreases |starts|
  {
    var n := |starts| - 1;
    if k < n {
      assert starts[..n][k] == starts[k];
      PastStartsComplete(i, starts[..n], now, k);
    }
  }

  /** The candidates of the whole loop, in the order the loop visits them:
      the past starts of the admissible events. */
  function Candidates(events: seq<Event>, now: int, isFloat: string -> bool): (r: seq<Cand>)
    ensures forall j :: 0 <= j < |r| ==>
      && r[j].event < |events|
      && Admissible(events[r[j].event].title, isFloat)
      && r[j].when < |events[r[j].event].starts|
      && r[j].delta == events[r[j].event].starts[r[j].when] - now
      && r[j].delta < 0
    decreases |events|
  {
    if events == [] then []
    else
      var n := |events| - 1;
      var prev := Candidates(events[..n], now, isFloat);
      assert forall j :: 0 <= j < |prev| ==> events[..n][prev[j].event] == events[prev[j].event];
      if Admissible(events[n].title, isFloat) then prev + PastStarts(n, events[n].starts, now) else prev
  }

  /** Every past start of every admissible event is a candidate. */
  lemma {:induction false} CandidatesComplete(events: seq<Event>, now: int, isFloat: string -> bool, i: int, k: int)
    requires 0 <= i < |events| && Admissible(events[i].title, isFloat)
    requires 0 <= k < |events[i].starts| && events[i].starts[k] < now
    ensures Cand(i, k, events[i].starts[k] - now) in Candidates(events, now, isFloat)
    decreases |events|
  {
    var n := |events| - 1;
    if i < n {
      assert events[..n][i] == events[i];
      CandidatesComplete(events[..n], now, isFloat, i, k);
    } else {
      PastStartsComplete(n, events[n].starts, now, k);
    }
  }

  /** The replacement test as written: a candidate replaces the current one
      when its day part is not smaller and its seconds part is greater. */
  predicate ReplacesAsWritten(d: int, closest: int)
  {
    !(Days(d) < Days(closest)) && Secs(d) > Secs(closest)
  }

  /** The replacement test as intended: the candidate started later. */
  predicate Replaces(d: int, closest: int)
  {
    d > closest
  }

  /** The loop's choice after visiting `cs`: the first candidate, then any
      candidate that `prefers` ranks above the current one. */
  function BestBy(cs: seq<Cand>, prefers: (int, int) -> bool): (r: Option<Cand>)
    ensures r.None? <==> cs == []
    ensures r.Some? ==> r.value in cs
    decreases |cs|
  {
    if cs == [] then None
    else
      var c := cs[|cs| - 1];
      var prev := BestBy(cs[..|cs| - 1], prefers);
      if prev.None? || prefers(c.delta, prev.value.delta) then Some(c) else prev
  }

  /** With the intended test, the loop's choice is at least as recent as
      every candidate ... */
  lemma {:induction false} BestIsMostRecent(cs: seq<Cand>)
    ensures var r := BestBy(cs, Replaces);
      r.Some? ==> forall j :: 0 <= j < |cs| ==> cs[j].delta <= r.value.delta
    decreases |cs|
  {
    if cs != [] {
      var n := |cs| - 1;
      BestIsMostRecent(cs[..n]);
      assert forall j :: 0 <= j < n ==> cs[..n][j] == cs[j];
    }
  }

  /** ... and of several equally recent candidates it is the first visited,
      because a tie does not replace. */
  lemma {:induction false} BestIsFirstOfTies(cs: seq<Cand>)
    ensures var r := BestBy(cs, Replaces);
      r.Some? ==> exists k :: 0 <= k < |cs| && cs[k] == r.value && forall j :: 0 <= j < k ==> cs[j].delta < r.value.delta
    decreases |cs|
  {
    if cs != [] {
      var n := |cs| - 1;
      var xs := cs[..n];
      BestIsFirstOfTies(xs);
      BestIsMostRecent(xs);
      var prev := BestBy(xs, Replaces);
      var r := BestBy(cs, Replaces);
      if prev.Some? && !Replaces(cs[n].delta, prev.value.delta) {
        assert r == prev;
        var k :| 0 <= k < |xs| && xs[k] == prev.value && forall j :: 0 <= j < k ==> xs[j].delta < prev.value.delta;
        assert cs[k] == prev.value;
        assert forall j :: 0 <= j < k ==> cs[j] == xs[j];
      } else {
        assert r == Some(cs[n]);
        assert forall j :: 0 <= j < n ==> cs[j] == xs[j] && xs[j].delta < cs[n].delta;
      }
    }
  }

  /** The as-written test only ever moves to a later candidate ... */
  lemma AsWrittenOnlyMovesForward(d: int, closest: int)
    ensures ReplacesAsWritten(d, closest) ==> Replaces(d, closest)
  {
  }

  /** ... and agrees with the intended test when both fall on the same day
      part ... */
  lemma SameDayAgreement(d: int, closest: int)
    requires Days(d) == Days(closest)
    ensures ReplacesAsWritten(d, closest) <==> Replaces(d, closest)
  {
  }

  /** ... so when all candidates share a day part, both tests choose alike. */
  lemma {:induction false} AsWrittenAgreesWithinDay(cs: seq<Cand>, day: int)
    requires forall j :: 0 <= j < |cs| ==> Days(cs[j].delta) == day
    ensures BestBy(cs, ReplacesAsWritten) == BestBy(cs, Replaces)
    decreases |cs|
  {
    if cs != [] {
      var n := |cs| - 1;
      AsWrittenAgreesWithinDay(cs[..n], day);
      var prev := BestBy(cs[..n], Replaces);
      if prev.Some? {
        SameDayAgreement(cs[n].delta, prev.value.delta);
      }
    }
  }

  /** ... but a later candidate in a later day part with a smaller seconds
      part is passed over: a start 86500 s ago followed by one 200 s ago
      keeps the older. */
  lemma AsWrittenKeepsOlderEvent()
    ensures BestBy([Cand(0, 0, -86500), Cand(1, 0, -200)], ReplacesAsWritten) == Some(Cand(0, 0, -86500))
    ensures BestBy([Cand(0, 0, -86500), Cand(1, 0, -200)], Replaces) == Some(Cand(1, 0, -200))
  {
    var cs := [Cand(0, 0, -86500), Cand(1, 0, -200)];
    assert cs[..1] == [Cand(0, 0, -86500)];
    assert [Cand(0, 0, -86500)][..0] == [];
    assert Days(-200) == -1 && Secs(-200) == 86200;
    assert Days(-86500) == -2 && Secs(-86500) == 86300;
  }

  /** With the test as written, no candidate would displace the one the
      loop keeps: each replacement raises the seconds part and never lowers
      the day part, so whatever the kept one beat stays beaten. */
  lemma {:induction false} BestAsWrittenIsStable(cs: seq<Cand>)
    ensures var r := BestBy(cs, ReplacesAsWritten);
      r.Some? ==> forall j :: 0 <= j < |cs| ==> !ReplacesAsWritten(cs[j].delta, r.value.delta)
    decreases |cs|
  {
    if cs != [] {
      var n := |cs| - 1;
      var xs := cs[..n];
      BestAsWrittenIsStable(xs);
      assert forall j :: 0 <= j < n ==> cs[j] == xs[j];
    }
  }

  /** Occurrence k of event i is a candidate of the loop: the event is
      admissible and the occurrence started before now. */
  predicate Started(events: seq<Event>, now: int, isFloat: string -> bool, i: int, k: int)
  {
    0 <= i < |events| && Admissible(events[i].title, isFloat) && 0 <= k < |events[i].starts| &&
    events[i].starts[k] < now
  }

  /** No admissible event has an occurrence that started before now. */
  ghost predicate NothingStarted(events: seq<Event>, now: int, isFloat: string -> bool)
  {
    forall i, k :: !Started(events, now, isFloat, i, k)
  }

  /** The candidates are exactly the started occurrences. */
  lemma CandidatesAreStarted(events: seq<Event>, now: int, isFloat: string -> bool)
    ensures forall i, k :: Started(events, now, isFloat, i, k) ==>
      Cand(i, k, events[i].starts[k] - now) in Candidates(events, now, isFloat)
    ensures Candidates(events, now, isFloat) == [] <==> NothingStarted(events, now, isFloat)
  {
    var cs := Candidates(events, now, isFloat);
    forall i, k | Started(events, now, isFloat, i, k)
      ensures Cand(i, k, events[i].starts[k] - now) in cs
    {
      CandidatesComplete(events, now, isFloat, i, k);
    }
    if cs != [] {
      var c := cs[0];
      assert Started(events, now, isFloat, c.event, c.when);
    }
  }

  /** Every title splits into a verb and a value. */
  predicate AllParse(events: seq<Event>)
    decreases |events|
  {
    events == [] || (AllParse(events[..|events| - 1]) && ParseTitle(events[|events| - 1].title).Some?)
  }

  lemma {:induction false} AllParseEach(events: seq<Event>)
    ensures AllParse(events) <==> forall i :: 0 <= i < |events| ==> ParseTitle(events[i].title).Some?
    decreases |events|
  {
    if events != [] {
      var n := |events| - 1;
      AllParseEach(events[..n]);
      assert forall i :: 0 <= i < n ==> events[..n][i] == events[i];
    }
  }

  lemma AllParseExtend(events: seq<Event>, i: int)
    requires 0 <= i < |events|
    ensures AllParse(events[..i + 1]) <==> AllParse(events[..i]) && ParseTitle(events[i].title).Some?
  {
    assert events[..i + 1][..i] == events[..i];
  }

  lemma OneTitleFails(events: seq<Event>, i: int)
    requires 0 <= i < |events| && ParseTitle(events[i].title).None?
    ensures !AllParse(events)
  {
    AllParseEach(events);
  }

  /** The selection loop: it raises when a title does not parse (whichever
      event it is, no setter is called), and otherwise yields the chosen
      candidate, if any. */
  function Select(events: seq<Event>, now: int, isFloat: string -> bool, prefers: (int, int) -> bool)
    : (r: Outcome<Option<Cand>>)
    ensures r.Returned? && r.value.Some? ==>
      var c := r.value.value;
      Started(events, now, isFloat, c.event, c.when) && c.delta == events[c.event].starts[c.when] - now
  {
    if !AllParse(events) then Raised
    else Returned(BestBy(Candidates(events, now, isFloat), prefers))
  }

  /** Under any replacement test the selection raises exactly when some
      title does not parse, and otherwise finds nothing exactly when no
      admissible event has started. */
  lemma SelectOutcomes(events: seq<Event>, now: int, isFloat: string -> bool, prefers: (int, int) -> bool)
    ensures var r := Select(events, now, isFloat, prefers);
      && (r == Raised <==> exists i :: 0 <= i < |events| && ParseTitle(events[i].title).None?)
      && (r.Returned? ==> (r.value.None? <==> NothingStarted(events, now, isFloat)))
  {
    AllParseEach(events);
    CandidatesAreStarted(events, now, isFloat);
  }

  /** What the selection promises under the corrected comparison: it
      raises exactly when some title does not parse; otherwise it finds
      nothing exactly when no admissible event has started, and else an
      admissible event's past start that no admissible past start is later
      than, the first such in visiting order. */
  lemma SelectFindsLatestPastEvent(events: seq<Event>, now: int, isFloat: string -> bool)
    ensures var r := Select(events, now, isFloat, Replaces);
      && (r == Raised <==> exists i :: 0 <= i < |events| && ParseTitle(events[i].title).None?)
      && (r.Returned? ==>
            && (r.value.None? <==> NothingStarted(events, now, isFloat))
            && (r.value.Some? ==>
                  var c := r.value.value;
                  && c.event < |events|
                  && Admissible(events[c.event].title, isFloat)
                  && c.when < |events[c.event].starts| && c.delta == events[c.event].starts[c.when] - now
                  && c.delta < 0
                  && forall i, k :: Started(events, now, isFloat, i, k) ==> events[i].starts[k] <= now + c.delta))
  {
    SelectOutcomes(events, now, isFloat, Replaces);
    LatestStartedChosen(events, now, isFloat);
  }

  /** What the selection promises under the comparison as written: the
      chosen start is one that no admissible past start would displace
      (none has both a day part at least as large and a greater seconds
      part), so in particular no admissible past start in the same day part
      is later; starts in other day parts may be. */
  lemma SelectAsWrittenKeepsUndisplaced(events: seq<Event>, now: int, isFloat: string -> bool)
    ensures var r := Select(events, now, isFloat, ReplacesAsWritten);
      r.Returned? && r.value.Some? ==>
        var c := r.value.value;
        forall i, k :: Started(events, now, isFloat, i, k) ==>
          var d := events[i].starts[k] - now;
          && (Days(d) < Days(c.delta) || Secs(d) <= Secs(c.delta))
          && (Days(d) == Days(c.delta) ==> d <= c.delta)
  {
    var cs := Candidates(events, now, isFloat);
    CandidatesAreStarted(events, now, isFloat);
    BestAsWrittenIsStable(cs);
    var r := Select(events, now, isFloat, ReplacesAsWritten);
    if r.Returned? && r.value.Some? {
      var c := r.value.value;
      forall i, k | Started(events, now, isFloat, i, k)
        ensures var d := events[i].starts[k] - now;
          && (Days(d) < Days(c.delta) || Secs(d) <= Secs(c.delta))
          && (Days(d) == Days(c.delta) ==> d <= c.delta)
      {
        var d := events[i].starts[k] - now;
        var j :| 0 <= j < |cs| && cs[j] == Cand(i, k, d);
        assert !ReplacesAsWritten(cs[j].delta, c.delta);
        if Days(d) == Days(c.delta) {
          SameDayAgreement(d, c.delta);
        }
      }
    }
  }

  lemma LatestStartedChosen(events: seq<Event>, now: int, isFloat: string -> bool)
    ensures var b := BestBy(Candidates(events, now, isFloat), Replaces);
      b.Some? ==>
        && b.value.event < |events|
        && Admissible(events[b.value.event].title, isFloat)
        && b.value.when < |events[b.value.event].starts|
        && b.value.delta == events[b.value.event].starts[b.value.when] - now && b.value.delta < 0
        && forall i, k :: Started(events, now, isFloat, i, k) ==> events[i].starts[k] <= now + b.value.delta
  {
    var cs := Candidates(events, now, isFloat);
    CandidatesAreStarted(events, now, isFloat);
    BestIsMostRecent(cs);
    var b := BestBy(cs, Replaces);
    if b.Some? {
      var m :| 0 <= m < |cs| && cs[m] == b.value;
      forall i, k | Started(events, now, isFloat, i, k)
        ensures events[i].starts[k] <= now + b.value.delta
      {
        var j :| 0 <= j < |cs| && cs[j] == Cand(i, k, events[i].starts[k] - now);
      }
    }
  }

  /** When every admissible past start falls in the same day part, the
      comparison as written selects what the corrected one does. */
  lemma SelectAgreesWithinDay(events: seq<Event>, now: int, isFloat: string -> bool, day: int)
    requires forall i, k :: Started(events, now, isFloat, i, k) ==> Days(events[i].starts[k] - now) == day
    ensures Select(events, now, isFloat, ReplacesAsWritten) == Select(events, now, isFloat, Replaces)
  {
    var cs := Candidates(events, now, isFloat);
    forall j | 0 <= j < |cs|
      ensures Days(cs[j].delta) == day
    {
      assert Started(events, now, isFloat, cs[j].event, cs[j].when);
    }
    AsWrittenAgreesWithinDay(cs, day);
  }

  /** The selection loop over events and their start times, with the
      replacement test `prefers` (the script uses `ReplacesAsWritten`). */
  method FindClosest(events: seq<Event>, now: int, isFloat: string -> bool, prefers: (int, int) -> bool)
    returns (r: Outcome<Option<Cand>>)
    ensures r == Select(events, now, isFloat, prefers)
  {
    var closest: Option<Cand> := None;
    var i := 0;
    while i < |events|
      invariant 0 <= i <= |events|
      invariant AllParse(events[..i])
      invariant closest == BestBy(Candidates(events[..i], now, isFloat), prefers)
    {
      CandidatesExtend(events, now, isFloat, i);
      AllParseExtend(events, i);
      var parsed;
      parsed, closest := VisitEvent(events[i], i, now, isFloat, Candidates(events[..i], now, isFloat), closest, prefers);
      if !parsed {
        OneTitleFails(events, i);
        return Raised;
      }
      i := i + 1;
    }
    assert events[..i] == events;
    return Returned(closest);
  }

  /** The body of the outer loop for event i: the title is split (false
      when the unpack would raise), an inadmissible event is skipped, and
      the start times of an admissible one are scanned. */
  method VisitEvent(e: Event, i: nat, now: int, isFloat: string -> bool, seen: seq<Cand>, closest0: Option<Cand>,
                    prefers: (int, int) -> bool)
    returns (parsed: bool, closest: Option<Cand>)
    requires closest0 == BestBy(seen, prefers)
    ensures parsed <==> ParseTitle(e.title).Some?
    ensures parsed ==>
      closest == BestBy(if Admissible(e.title, isFloat) then seen + PastStarts(i, e.starts, now) else seen, prefers)
  {
    closest := closest0;
    var title := ParseTitle(e.title);
    if title.None? {
      return false, closest;
    }
    var (verb, value) := title.value;
    if verb !in Commands {
      return true, closest;
    }
    if !isFloat(value) && value !in Keywords {
      return true, closest;
    }
    closest := ScanStarts(i, e.starts, now, seen, closest, prefers);
    return true, closest;
  }

  /** One more event extends the candidates by its past starts, if it is
      admissible. */
  lemma CandidatesExtend(events: seq<Event>, now: int, isFloat: string -> bool, i: int)
    requires 0 <= i < |events|
    ensures Candidates(events[..i + 1], now, isFloat) ==
      if Admissible(events[i].title, isFloat) then Candidates(events[..i], now, isFloat) + PastStarts(i, events[i].starts, now)
      else Candidates(events[..i], now, isFloat)
  {
    assert events[..i + 1][..i] == events[..i];
  }

  /** One more start extends the past starts by at most that start. */
  lemma PastStartsExtend(i: nat, starts: seq<int>, now: int, k: nat)
    requires k < |starts|
    ensures var d := starts[k] - now;
      PastStarts(i, starts[..k + 1], now) ==
        if Days(d) >= 0 then PastStarts(i, starts[..k], now) else PastStarts(i, starts[..k], now) + [Cand(i, k, d)]
  {
    assert starts[..k + 1][..k] == starts[..k];
  }

  /** Appending a candidate compares it with the best so far. */
  lemma BestByAppend(cs: seq<Cand>, c: Cand, prefers: (int, int) -> bool)
    ensures var prev := BestBy(cs, prefers);
      BestBy(cs + [c], prefers) == if prev.None? || prefers(c.delta, prev.value.delta) then Some(c) else prev
  {
    assert (cs + [c])[..|cs|] == cs;
  }

  /** One step of the inner loop: the best candidate after start k, in
      terms of the best one before it. */
  lemma ScanStep(seen: seq<Cand>, i: nat, starts: seq<int>, now: int, k: nat, prefers: (int, int) -> bool)
    requires k < |starts|
    ensures var d := starts[k] - now;
      var prev := BestBy(seen + PastStarts(i, starts[..k], now), prefers);
      BestBy(seen + PastStarts(i, starts[..k + 1], now), prefers) ==
        if Days(d) < 0 && (prev.None? || prefers(d, prev.value.delta)) then Some(Cand(i, k, d)) else prev
  {
    var d := starts[k] - now;
    if Days(d) < 0 {
      ScanPast(seen, i, starts, now, k);
      BestByAppend(seen + PastStarts(i, starts[..k], now), Cand(i, k, d), prefers);
    } else {
      ScanFuture(seen, i, starts, now, k);
    }
  }

  /** One step of the inner loop over a start that has not begun: the
      candidates stay as they were. */
  lemma ScanFuture(seen: seq<Cand>, i: nat, starts: seq<int>, now: int, k: nat)
    requires k < |starts| && Days(starts[k] - now) >= 0
    ensures seen + PastStarts(i, starts[..k + 1], now) == seen + PastStarts(i, starts[..k], now)
  {
    PastStartsExtend(i, starts, now, k);
  }

  /** One step of the inner loop over a past start: it is appended. */
  lemma ScanPast(seen: seq<Cand>, i: nat, starts: seq<int>, now: int, k: nat)
    requires k < |starts| && Days(starts[k] - now) < 0
    ensures seen + PastStarts(i, starts[..k + 1], now) ==
      (seen + PastStarts(i, starts[..k], now)) + [Cand(i, k, starts[k] - now)]
  {
    PastStartsExtend(i, starts, now, k);
    var p := PastStarts(i, starts[..k], now);
    var c := Cand(i, k, starts[k] - now);
    assert seen + (p + [c]) == (seen + p) + [c];
  }

  /** The inner loop read forward: the best candidate once starts k.. have
      been visited, starting from `closest`. */
  function ScanFrom(i: nat, starts: seq<int>, now: int, k: nat, closest: Option<Cand>, prefers: (int, int) -> bool)
    : Option<Cand>
    requires k <= |starts|
    decreases |starts| - k
  {
    if k == |starts| then closest
    else
      var d := starts[k] - now;
      ScanFrom(i, starts, now, k + 1,
        if Days(d) < 0 && (closest.None? || prefers(d, closest.value.delta)) then Some(Cand(i, k, d)) else closest,
        prefers)
  }

  /** Visiting the remaining starts from the best of the first k gives the
      best of all of them. */
  lemma {:induction false} ScanFromBest(seen: seq<Cand>, i: nat, starts: seq<int>, now: int, k: nat,
                                        prefers: (int, int) -> bool)
    requires k <= |starts|
    ensures ScanFrom(i, starts, now, k, BestBy(seen + PastStarts(i, starts[..k], now), prefers), prefers) ==
      BestBy(seen + PastStarts(i, starts, now), prefers)
    decreases |starts| - k
  {
    if k == |starts| {
      assert starts[..k] == starts;
    } else {
      ScanStep(seen, i, starts, now, k, prefers);
      ScanFromBest(seen, i, starts, now, k + 1, prefers);
    }
  }

  /** The inner loop over the start times of event i. */
  method ScanStarts(i: nat, starts: seq<int>, now: int, seen: seq<Cand>, closest0: Option<Cand>,
                    prefers: (int, int) -> bool)
    returns (closest: Option<Cand>)
    requires closest0 == BestBy(seen, prefers)
    ensures closest == BestBy(seen + PastStarts(i, starts, now), prefers)
  {
    closest := closest0;
    var k := 0;
    assert seen + PastStarts(i, starts[..0], now) == seen;
    ScanFromBest(seen, i, starts, now, 0, prefers);
    while k < |starts|
      invariant 0 <= k <= |starts|
      invariant ScanFrom(i, starts, now, k, closest, prefers) == BestBy(seen + PastStarts(i, starts, now), prefers)
    {
      var d := starts[k] - now;
      if Days(d) < 0 && (closest.None? || prefers(d, closest.value.delta)) {
        closest := Some(Cand(i, k, d));
      }
      k := k + 1;
    }
  }

  // ---------------------------------------------------------------------
  // Dispatch

  /** The setter call a command leads to. */
  datatype SetterCall = SetHeat(degrees: int) | SetCool(degrees: int) | SetFan(mode: string) | SetMode(mode: string)

  /** The dispatch of the chosen command: Heat and Cool parse their value
      with `int` (which raises on anything but an integer) and call the
      setter only within bounds; Fan and Mode pass the value on as it is. */
  function Dispatch(verb: string, value: string): (r: Outcome<Option<SetterCall>>)
    ensures r == Raised <==> (verb == "Heat" || verb == "Cool") && ParseInt(value).None?
    ensures r.Returned? && r.value.Some? && r.value.value.SetHeat? ==>
      verb == "Heat" && HeatMin <= r.value.value.degrees <= HeatMax && ParseInt(value) == Some(r.value.value.degrees)
    ensures r.Returned? && r.value.Some? && r.value.value.SetCool? ==>
      verb == "Cool" && CoolMin <= r.value.value.degrees <= CoolMax && ParseInt(value) == Some(r.value.value.degrees)
    ensures verb == "Heat" && ParseInt(value).Some? ==>
      (r.Returned? && r.value.Some? <==> HeatMin <= ParseInt(value).value <= HeatMax)
    ensures verb == "Cool" && ParseInt(value).Some? ==>
      (r.Returned? && r.value.Some? <==> CoolMin <= ParseInt(value).value <= CoolMax)
    ensures verb == "Fan" ==> r == Returned(Some(SetFan(value)))
    ensures verb == "Mode" ==> r == Returned(Some(SetMode(value)))
    ensures verb !in Commands ==> r == Returned(None)
  {
    if verb == "Heat" then
      match ParseInt(value)
      case None => Raised
      case Some(n) => Returned(if HeatMin <= n <= HeatMax then Some(SetHeat(n)) else None)
    else if verb == "Cool" then
      match ParseInt(value)
      case None => Raised
      case Some(n) => Returned(if CoolMin <= n <= CoolMax then Some(SetCool(n)) else None)
    else if verb == "Fan" then Returned(Some(SetFan(value)))
    else if verb == "Mode" then Returned(Some(SetMode(value)))
    else Returned(None)
  }

  /** The whole run, selection with the replacement test `prefers` then
      dispatch: at most one setter call, and a set point only within its
      bounds. */
  function Plan(events: seq<Event>, now: int, isFloat: string -> bool, prefers: (int, int) -> bool)
    : (r: Outcome<Option<SetterCall>>)
    ensures r.Returned? && r.value.Some? && r.value.value.SetHeat? ==> HeatMin <= r.value.value.degrees <= HeatMax
    ensures r.Returned? && r.value.Some? && r.value.value.SetCool? ==> CoolMin <= r.value.value.degrees <= CoolMax
  {
    match Select(events, now, isFloat, prefers)
    case Raised => Raised
    case Returned(None) => Returned(None)
    case Returned(Some(c)) =>
      match ParseTitle(events[c.event].title)
      case Some((verb, value)) => Dispatch(verb, value)
      case None => Raised
  }

  /** A planned set point is always within its bounds, and nothing is
      planned when no admissible event has started. */
  lemma PlanRespectsBounds(events: seq<Event>, now: int, isFloat: string -> bool, prefers: (int, int) -> bool)
    ensures var p := Plan(events, now, isFloat, prefers);
      && (p.Returned? && p.value.Some? && p.value.value.SetHeat? ==> HeatMin <= p.value.value.degrees <= HeatMax)
      && (p.Returned? && p.value.Some? && p.value.value.SetCool? ==> CoolMin <= p.value.value.degrees <= CoolMax)
      && ((NothingStarted(events, now, isFloat) && forall i :: 0 <= i < |events| ==> ParseTitle(events[i].title).Some?)
            ==> p == Returned(None))
  {
    SelectOutcomes(events, now, isFloat, prefers);
  }

  /** Of two parsed events with one start each, both past, the later start
      is the one selected under the corrected comparison ... */
  lemma LaterOfTwoSelected(events: seq<Event>, now: int, isFloat: string -> bool)
    requires |events| == 2 && |events[0].starts| == 1 && |events[1].starts| == 1
    requires ParseTitle(events[0].title).Some? && ParseTitle(events[1].title).Some?
    requires Admissible(events[1].title, isFloat)
    requires events[0].starts[0] < events[1].starts[0] < now
    ensures Select(events, now, isFloat, Replaces) == Returned(Some(Cand(1, 0, events[1].starts[0] - now)))
  {
    AllParseEach(events);
    assert Started(events, now, isFloat, 1, 0);
    SelectFindsLatestPastEvent(events, now, isFloat);
    var r := Select(events, now, isFloat, Replaces);
    assert r.Returned? && r.value.Some?;
    var c := r.value.value;
    assert events[1].starts[0] <= now + c.delta;
    assert c.when == 0;
  }

  /** ... and under the comparison as written when both starts fall in the
      same day part. */
  lemma LaterOfTwoSelectedAsWritten(events: seq<Event>, now: int, isFloat: string -> bool)
    requires |events| == 2 && |events[0].starts| == 1 && |events[1].starts| == 1
    requires ParseTitle(events[0].title).Some? && ParseTitle(events[1].title).Some?
    requires Admissible(events[1].title, isFloat)
    requires events[0].starts[0] < events[1].starts[0] < now
    requires Days(events[0].starts[0] - now) == Days(events[1].starts[0] - now)
    ensures Select(events, now, isFloat, ReplacesAsWritten) == Returned(Some(Cand(1, 0, events[1].starts[0] - now)))
  {
    SelectAgreesWithinDay(events, now, isFloat, Days(events[1].starts[0] - now));
    LaterOfTwoSelected(events, now, isFloat);
  }

  /** The titles of the example below parse into verb and value. */
  lemma HeatTitlesParse()
    ensures ParseTitle("Heat 68") == Some(("Heat", "68"))
    ensures ParseTitle("Heat 62") == Some(("Heat", "62"))
  {
    ParseTitleOfCommand("Heat", "68", "");
    ParseTitleOfCommand("Heat", "62", "");
    assert "Heat 68" == "Heat" + " " + "68";
    assert "Heat 62" == "Heat" + " " + "62";
  }

  lemma HeatSixtyTwoDispatched()
    ensures Dispatch("Heat", "62") == Returned(Some(SetHeat(62)))
  {
    ParseIntToString(62);
    assert IntToString(62) == "62";
  }

  /** An example: a heat command at 08:00 and another at 16:00; at 18:00 of
      the same day the script carries out the later one. */
  lemma LaterHeatCommandWins(day: int, isFloat: string -> bool)
    requires isFloat("68") && isFloat("62")
    ensures var now := day * 86400 + 18 * 3600;
      var events := [Event("Heat 68", [day * 86400 + 8 * 3600]), Event("Heat 62", [day * 86400 + 16 * 3600])];
      Plan(events, now, isFloat, ReplacesAsWritten) == Returned(Some(SetHeat(62)))
  {
    var now := day * 86400 + 18 * 3600;
    var events := [Event("Heat 68", [day * 86400 + 8 * 3600]), Event("Heat 62", [day * 86400 + 16 * 3600])];
    HeatTitlesParse();
    HeatSixtyTwoDispatched();
    assert Days(events[0].starts[0] - now) == -1 == Days(events[1].starts[0] - now);
    LaterOfTwoSelectedAsWritten(events, now, isFloat);
  }

  // ---------------------------------------------------------------------
  // The run against the client

  /** The registry name and value a setter call writes. */
  function Target(call: SetterCall): (string, Json)
  {
    match call
    case SetHeat(n) => ("t_heat", JInt(n))
    case SetCool(n) => ("t_cool", JInt(n))
    case SetFan(v) => ("fmode", JStr(v))
    case SetMode(v) => ("tmode", JStr(v))
  }

  /** Selection with the comparison as written, dispatch and the one setter
      call on `tstat`; `posts` are the POSTs made, none unless a call was
      planned. */
  method Run(tstat: TStat, events: seq<Event>, now: int, isFloat: string -> bool, t: PostTransport)
    returns (plan: Outcome<Option<SetterCall>>, written: Option<Outcome<PostResult>>, posts: seq<(string, Body)>)
    ensures plan == Plan(events, now, isFloat, ReplacesAsWritten)
    ensures plan.Returned? && plan.value.Some? ==>
      var target := Target(plan.value.value);
      var step := Write(tstat.api, target.0, target.1, t);
      written == Some(step.result) && posts == step.posts
    ensures !(plan.Returned? && plan.value.Some?) ==> written == None && posts == []
  {
    written, posts := None, [];
    var closest := FindClosest(events, now, isFloat, ReplacesAsWritten);
    if closest.Raised? {
      return Raised, written, posts;
    }
    if closest.value.None? {
      return Returned(None), written, posts;
    }
    var c := closest.value.value;
    var (verb, value) := ParseTitle(events[c.event].title).value;
    plan := Dispatch(verb, value);
    if plan.Raised? || plan.value.None? {
      return;
    }
    var result, confirmed;
    match plan.value.value {
      case SetHeat(n) =>
        result, confirmed, posts := tstat.SetHeatPoint(JInt(n), t);
      case SetCool(n) =>
        result, confirmed, posts := tstat.SetCoolPoint(JInt(n), t);
      case SetFan(v) =>
        result, confirmed, posts := tstat.SetFanMode(JStr(v), t);
      case SetMode(v) =>
        result, confirmed, posts := tstat.SetTstatMode(JStr(v), t);
    }
    written := Some(result);
  }
}
