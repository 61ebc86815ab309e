/**
 * Timestamp parsing of the current plugin
 * (plugins/windows_defender/agent_based/windows_defender.py): each date
 * format family has an ordered list of layouts; the first layout that reads
 * the text and gives an age no more than one day in the future decides the
 * age.
 */
module DefenderTimestamp {
  import opened Wrappers
  import opened Text
  import opened Calendar
  import opened Strptime

  /** `DATE_FORMAT_CONFIGS`. */
  const UsLayouts: seq<Layout> := [UsAmPm, Us24]
  const EuLayouts: seq<Layout> := [DayDotted, UsAmPm, DaySlashed, DaySlashedAmPm]
  const IsoLayouts: seq<Layout> := [IsoSpace, IsoT]

  /** How far in the future (in seconds) a timestamp may lie and still be
      taken, for hosts whose clock or time zone is off. */
  const FutureTolerance: int := 86400

  /** `DATE_FORMAT_CONFIGS.get(date_format, DATE_FORMAT_CONFIGS["eu"])`. */
  function LayoutsFor(dateFormat: string): (r: seq<Layout>)
    ensures dateFormat == "us" ==> r == [UsAmPm, Us24]
    ensures dateFormat == "iso" ==> r == [IsoSpace, IsoT]
    ensures dateFormat != "us" && dateFormat != "iso" ==> r == [DayDotted, UsAmPm, DaySlashed, DaySlashedAmPm]
  {
    if dateFormat == "us" then UsLayouts
    else if dateFormat == "iso" then IsoLayouts
    else EuLayouts
  }

  /** `now - time.mktime(time.strptime(s, layout))`, or `None` where
      `strptime` raises `ValueError`. */
  function AgeUnder(s: string, now: int, layout: Layout): Option<int> {
    match StrPTime(s, layout)
    case None => None
    case Some(t) => Some(now - EpochSeconds(t))
  }

  /** The text of a date, padded or not, read under a layout that is
      separated and complete, gives the date's age. */
  lemma AgeUnderFormat(t: DateTime, now: int, layout: Layout, bare: set<Directive> := {})
    requires Formattable(t) && Separated(layout) && Complete(layout)
    ensures AgeUnder(Format(t, layout, bare), now, layout) == Some(now - EpochSeconds(t))
  {
    StrPTimeFormat(t, layout, bare);
    AgeUnderSome(Format(t, layout, bare), now, layout, t);
  }

  lemma AgeUnderSome(s: string, now: int, layout: Layout, t: DateTime)
    requires StrPTime(s, layout) == Some(t)
    ensures AgeUnder(s, now, layout) == Some(now - EpochSeconds(t))
  {
  }

  /** The sanity check on a parsed age. */
  predicate Accepted(age: Option<int>) {
    age.Some? && age.value >= -FutureTolerance
  }

  /** The age the first accepting layout gives. */
  function FirstAge(s: string, now: int, layouts: seq<Layout>): (r: Option<int>)
    ensures r.Some? ==> Accepted(r)
  {
    if layouts == [] then None
    else
      var age := AgeUnder(s, now, layouts[0]);
      if Accepted(age) then age else FirstAge(s, now, layouts[1..])
  }

  /** What `_parse_timestamp(ts, now, date_format)` returns. */
  function TimestampAge(ts: string, now: int, dateFormat: string): Option<int> {
    if ts == [] then None else FirstAge(Strip(ts), now, LayoutsFor(dateFormat))
  }

  /** `_parse_timestamp`. */
  method ParseTimestamp(ts: string, now: int, dateFormat: string) returns (age: Option<int>)
    ensures age == TimestampAge(ts, now, dateFormat)
  {
    if ts == [] {
      return None;
    }
    var s := Strip(ts);
    var layouts := LayoutsFor(dateFormat);
    for i := 0 to |layouts|
      invariant FirstAge(s, now, layouts[i..]) == FirstAge(s, now, layouts)
    {
      assert layouts[i..][1..] == layouts[i + 1..];
      var a := AgeUnder(s, now, layouts[i]);
      if a.Some? && a.value >= -FutureTolerance {
        return a;
      }
    }
    return None;
  }

  /** The result is the age of the first layout that is accepted: a layout
      that reads the text but puts it too far in the future does not stop
      the search. */
  lemma {:induction false} FirstAgeIsFirst(s: string, now: int, layouts: seq<Layout>, i: nat)
    requires i < |layouts| && Accepted(AgeUnder(s, now, layouts[i]))
    requires forall j :: 0 <= j < i ==> !Accepted(AgeUnder(s, now, layouts[j]))
    ensures FirstAge(s, now, layouts) == AgeUnder(s, now, layouts[i])
  {
    if i > 0 {
      forall j | 0 <= j < i - 1 ensures !Accepted(AgeUnder(s, now, layouts[1..][j])) {
        assert layouts[1..][j] == layouts[j + 1];
      }
      FirstAgeIsFirst(s, now, layouts[1..], i - 1);
    }
  }

  /** No age comes back exactly when no layout is accepted. */
  lemma {:induction false} FirstAgeNone(s: string, now: int, layouts: seq<Layout>)
    ensures FirstAge(s, now, layouts) == None <==>
      forall j :: 0 <= j < |layouts| ==> !Accepted(AgeUnder(s, now, layouts[j]))
  {
    if layouts != [] {
      FirstAgeNone(s, now, layouts[1..]);
      assert forall j :: 1 <= j < |layouts| ==> layouts[j] == layouts[1..][j - 1];
    }
  }

  /** An empty timestamp has no age, and a date format other than `us` and
      `iso` is read as `eu`. */
  lemma TimestampAgeDefaults(ts: string, now: int, dateFormat: string)
    ensures TimestampAge("", now, dateFormat) == None
    ensures dateFormat != "us" && dateFormat != "iso" ==>
      TimestampAge(ts, now, dateFormat) == TimestampAge(ts, now, "eu")
  {
  }

  // ---------------------------------------------------------------------
  // The European dotted layout, end to end.

  /** The last character of a formatted layout is the last character of its
      last directive. */
  lemma {:induction false} FormatLast(t: DateTime, layout: Layout, bare: set<Directive> := {})
    requires Formattable(t) && layout != []
    ensures var s, r := Format(t, layout, bare), Render(layout[|layout| - 1], t, bare);
      s != [] && s[|s| - 1] == r[|r| - 1]
    decreases |layout|
  {
    if |layout| > 1 {
      FormatLast(t, layout[1..], bare);
      assert layout[1..][|layout| - 2] == layout[|layout| - 1];
    }
  }

  /** The canonical dotted text has no surrounding whitespace. */
  lemma DottedIsStripped(t: DateTime)
    requires Formattable(t)
    ensures Strip(Format(t, DayDotted)) == Format(t, DayDotted)
  {
    var s := Format(t, DayDotted);
    FormatHead(t, DayDotted);
    FormatLast(t, DayDotted);
    assert DayDotted[0] == Day && DayDotted[10] == Second;
    TrimStartNoop(s);
    TrimEndNoop(s);
  }

  /** The canonical dotted text starts with two digits and a dot. */
  lemma DottedPrefix(t: DateTime)
    requires Formattable(t)
    ensures var s := Format(t, DayDotted);
      |s| >= 3 && IsDigit(s[0]) && IsDigit(s[1]) && s[2] == '.'
  {
    var s := Format(t, DayDotted);
    var rest := Format(t, DayDotted[1..]);
    assert s == Two(t.day) + rest;
    FormatHead(t, DayDotted[1..]);
    assert DayDotted[1..][0] == Lit('.');
  }

  /** A layout that starts with a number and a slash never reads a dotted
      text. */
  lemma SlashedRejectsDotted(t: DateTime, layout: Layout)
    requires Formattable(t)
    requires |layout| >= 2 && IsNumeric(layout[0]) && layout[1] == Lit('/')
    ensures StrPTime(Format(t, DayDotted), layout) == None
  {
    var s := Format(t, DayDotted);
    DottedPrefix(t);
    match Step(s, layout[0], Defaults)
    case None =>
    case Some((acc, n)) =>
      assert n == 2;
      assert s[n..][0] == '.';
      assert layout[1..][0] == Lit('/');
      assert Match(s[n..], layout[1..], acc) == None;
  }

  /** Under `eu`, the dotted text of a date is stripped already and the
      first layout reads it back. */
  lemma EuDottedStart(t: DateTime, now: int)
    requires Formattable(t)
    ensures TimestampAge(Format(t, DayDotted), now, "eu") == FirstAge(Format(t, DayDotted), now, EuLayouts)
    ensures AgeUnder(Format(t, DayDotted), now, DayDotted) == Some(now - EpochSeconds(t))
  {
    DottedIsStripped(t);
    DottedPrefix(t);
    DayDottedWellFormed();
    AgeUnderFormat(t, now, DayDotted);
  }

  /** None of the other three `eu` layouts reads the dotted text. */
  lemma EuDottedOthers(t: DateTime, now: int)
    requires Formattable(t)
    ensures forall j :: 1 <= j < |EuLayouts| ==> AgeUnder(Format(t, DayDotted), now, EuLayouts[j]) == None
  {
    SlashedRejectsDotted(t, UsAmPm);
    SlashedRejectsDotted(t, DaySlashed);
    SlashedRejectsDotted(t, DaySlashedAmPm);
  }

  /** Under `eu`, the dotted text of a date gives its age, unless that puts
      it more than a day in the future, in which case there is no age: none
      of the other three layouts reads it. */
  lemma EuDottedAge(t: DateTime, now: int)
    requires Formattable(t)
    ensures TimestampAge(Format(t, DayDotted), now, "eu") ==
      if now - EpochSeconds(t) >= -FutureTolerance then Some(now - EpochSeconds(t)) else None
  {
    var s := Format(t, DayDotted);
    EuDottedStart(t, now);
    if now - EpochSeconds(t) >= -FutureTolerance {
      FirstAgeIsFirst(s, now, EuLayouts, 0);
    } else {
      EuDottedOthers(t, now);
      FirstAgeNone(s, now, EuLayouts);
    }
  }

  // ---------------------------------------------------------------------
  // The `us` and `iso` families, end to end.

  /** A date's text that starts with a number and ends in a number or in
      `AM`/`PM` has no surrounding whitespace. */
  lemma FormatIsStripped(t: DateTime, layout: Layout, bare: set<Directive>)
    requires Formattable(t) && layout != [] && IsNumeric(layout[0])
    requires IsNumeric(layout[|layout| - 1]) || layout[|layout| - 1] == AmPm
    ensures Format(t, layout, bare) != [] && Strip(Format(t, layout, bare)) == Format(t, layout, bare)
  {
    var s := Format(t, layout, bare);
    FormatHead(t, layout, bare);
    FormatLast(t, layout, bare);
    TrimStartNoop(s);
    TrimEndNoop(s);
  }

  /** The parts the two `us` layouts share, and the part the two `iso`
      layouts share. */
  const UsDate: Layout := [Month, Lit('/'), Day, Lit('/'), Year, Blank]
  const UsClock: Layout := [Lit(':'), Minute, Lit(':'), Second]
  const IsoDate: Layout := [Year, Lit('-'), Month, Lit('-'), Day]
  const IsoClock: Layout := [Hour24, Lit(':'), Minute, Lit(':'), Second]

  lemma UsParts()
    ensures UsAmPm == UsDate + ([Hour12] + (UsClock + [Blank, AmPm]))
    ensures Us24 == UsDate + ([Hour24] + UsClock)
    ensures Separated(UsDate) && Separated(UsClock)
  {
    assert SeparatedAt(UsDate, 0);
    assert SeparatedAt(UsDate, 1);
    assert SeparatedAt(UsDate, 2);
    assert SeparatedAt(UsDate, 3);
    assert SeparatedAt(UsDate, 4);
    assert SeparatedAt(UsDate, 5);
    assert SeparatedAt(UsClock, 0);
    assert SeparatedAt(UsClock, 1);
    assert SeparatedAt(UsClock, 2);
    assert SeparatedAt(UsClock, 3);
  }

  lemma IsoParts()
    ensures IsoSpace == IsoDate + ([Blank] + IsoClock)
    ensures IsoT == IsoDate + ([Lit('T')] + IsoClock)
    ensures Separated(IsoDate)
  {
    assert SeparatedAt(IsoDate, 0);
    assert SeparatedAt(IsoDate, 1);
    assert SeparatedAt(IsoDate, 2);
    assert SeparatedAt(IsoDate, 3);
    assert SeparatedAt(IsoDate, 4);
  }

  /** Two layouts that start with the same separated part read the text of
      that part alike, and what follows is left to the rest of each. */
  lemma MatchShared(t: DateTime, shared: Layout, a: Layout, b: Layout, bare: set<Directive>)
    requires Formattable(t) && Separated(shared) && shared != []
    requires Ends(shared[|shared| - 1], Format(t, a, bare))
    ensures Match(Format(t, shared + a, bare), shared + b, Defaults) ==
      Match(Format(t, a, bare), b, Fill(Defaults, shared, t))
  {
    FormatAppend(t, shared, a, bare);
    MatchThen(t, shared, b, Format(t, a, bare), Defaults, bare);
  }

  /** A numeric directive `e` that reads the number of another directive
      `d` in range stores it and goes on after it. */
  lemma MatchNumberAs(t: DateTime, d: Directive, e: Directive, rest: string, layout: Layout, acc: Captured,
                      bare: set<Directive>)
    requires Formattable(t) && InRange(acc) && layout != [] && layout[0] == e
    requires IsNumeric(d) && IsNumeric(e) && (d == Year <==> e == Year) && Ends(d, rest)
    requires Low(e) <= FieldOf(d, t) <= High(e)
    ensures InRange(Store(acc, e, FieldOf(d, t)))
    ensures Match(Render(d, t, bare) + rest, layout, acc) == Match(rest, layout[1..], Store(acc, e, FieldOf(d, t)))
  {
    NumberRender(t, d, e, rest, bare);
    var s := Render(d, t, bare) + rest;
    assert s[|Render(d, t, bare)|..] == rest;
  }

  /** The text of an hour followed by `:%M:%S`. */
  lemma HourThenClock(t: DateTime, hour: Directive, more: Layout, bare: set<Directive>)
    requires Formattable(t) && IsNumeric(hour)
    ensures Format(t, [hour] + (UsClock + more), bare) ==
      Render(hour, t, bare) + Format(t, UsClock + more, bare)
    ensures Ends(hour, Format(t, UsClock + more, bare))
    ensures Ends(Blank, Format(t, [hour] + (UsClock + more), bare))
  {
    assert ([hour] + (UsClock + more))[1..] == UsClock + more;
    FormatHead(t, UsClock + more, bare);
    assert (UsClock + more)[0] == Lit(':');
  }

  /** After the hour, `:%M:%S` reads the clock of an AM/PM text and leaves
      ` AM` or ` PM` over. */
  lemma AmPmLeftOver(t: DateTime, acc: Captured, bare: set<Directive>)
    requires Formattable(t) && InRange(acc)
    ensures Match(Format(t, UsClock + [Blank, AmPm], bare), UsClock, acc) == None
  {
    UsParts();
    FormatAppend(t, UsClock, [Blank, AmPm], bare);
    var tail := Format(t, [Blank, AmPm], bare);
    assert tail[0] == ' ';
    assert UsClock + [] == UsClock;
    MatchThen(t, UsClock, [], tail, acc, bare);
  }

  /** After the hour, an AM/PM layout finds no ` AM` or ` PM` in a 24-hour
      text. */
  lemma AmPmMissing(t: DateTime, acc: Captured, bare: set<Directive>)
    requires Formattable(t) && InRange(acc)
    ensures Match(Format(t, UsClock + [], bare), UsClock + [Blank, AmPm], acc) == None
  {
    UsParts();
    assert Format(t, UsClock, bare) + "" == Format(t, UsClock, bare) && UsClock + [] == UsClock;
    MatchThen(t, UsClock, [Blank, AmPm], "", acc, bare);
  }

  /** `%m/%d/%Y %H:%M:%S` never reads an `AM`/`PM` text: whatever the hour,
      the ` AM` or ` PM` is left over. */
  lemma Us24RejectsAmPm(t: DateTime, bare: set<Directive>)
    requires Formattable(t)
    ensures StrPTime(Format(t, UsAmPm, bare), Us24) == None
  {
    UsParts();
    var acc := Fill(Defaults, UsDate, t);
    HourThenClock(t, Hour12, [Blank, AmPm], bare);
    MatchShared(t, UsDate, [Hour12] + (UsClock + [Blank, AmPm]), [Hour24] + UsClock, bare);
    MatchNumberAs(t, Hour12, Hour24, Format(t, UsClock + [Blank, AmPm], bare), [Hour24] + UsClock, acc, bare);
    assert ([Hour24] + UsClock)[1..] == UsClock;
    AmPmLeftOver(t, Store(acc, Hour24, Clock12(t.hour)), bare);
  }

  /** A 24-hour hour from 1 to 12 is read as `%I`, and then the ` AM` or
      ` PM` is missing. */
  lemma HourThenNoAmPm(t: DateTime, acc: Captured, bare: set<Directive>)
    requires Formattable(t) && InRange(acc) && 1 <= t.hour <= 12
    ensures Match(Format(t, [Hour24] + (UsClock + []), bare), [Hour12] + (UsClock + [Blank, AmPm]), acc) == None
  {
    var clock := Format(t, UsClock + [], bare);
    HourThenClock(t, Hour24, [], bare);
    MatchNumberAs(t, Hour24, Hour12, clock, [Hour12] + (UsClock + [Blank, AmPm]), acc, bare);
    assert ([Hour12] + (UsClock + [Blank, AmPm]))[1..] == UsClock + [Blank, AmPm];
    AmPmMissing(t, Store(acc, Hour12, t.hour), bare);
  }

  /** Any other 24-hour hour is out of the range of `%I`. */
  lemma HourNotClock12(t: DateTime, acc: Captured, bare: set<Directive>)
    requires Formattable(t) && InRange(acc) && !(1 <= t.hour <= 12)
    ensures Match(Format(t, [Hour24] + (UsClock + []), bare), [Hour12] + (UsClock + [Blank, AmPm]), acc) == None
  {
    var clock := Format(t, UsClock + [], bare);
    HourThenClock(t, Hour24, [], bare);
    NumberRender(t, Hour24, Hour12, clock, bare);
  }

  /** `%m/%d/%Y %I:%M:%S %p` never reads a 24-hour text: the hour is out of
      range, or the ` AM`/` PM` is missing. */
  lemma UsAmPmRejects24(t: DateTime, bare: set<Directive>)
    requires Formattable(t)
    ensures StrPTime(Format(t, Us24, bare), UsAmPm) == None
  {
    UsParts();
    var acc := Fill(Defaults, UsDate, t);
    assert Us24 == UsDate + ([Hour24] + (UsClock + []));
    HourThenClock(t, Hour24, [], bare);
    MatchShared(t, UsDate, [Hour24] + (UsClock + []), [Hour12] + (UsClock + [Blank, AmPm]), bare);
    if 1 <= t.hour <= 12 {
      HourThenNoAmPm(t, acc, bare);
    } else {
      HourNotClock12(t, acc, bare);
    }
  }

  /** The two `iso` layouts read `%Y-%m-%d` alike, and the one separator
      that follows decides between them. */
  lemma IsoRejectsOther(t: DateTime, bare: set<Directive>, sep: Directive, other: Directive)
    requires Formattable(t)
    requires (sep == Blank && other == Lit('T')) || (sep == Lit('T') && other == Blank)
    ensures Match(Format(t, IsoDate + ([sep] + IsoClock), bare), IsoDate + ([other] + IsoClock), Defaults) == None
  {
    var a := [sep] + IsoClock;
    var text := Format(t, a, bare);
    var acc := Fill(Defaults, IsoDate, t);
    assert text != [] && text[0] == (if sep == Blank then ' ' else 'T') by {
      FormatHead(t, a, bare);
    }
    assert Match(Format(t, IsoDate + a, bare), IsoDate + ([other] + IsoClock), Defaults) ==
           Match(text, [other] + IsoClock, acc) by {
      IsoParts();
      assert IsoDate[4] == Day;
      MatchShared(t, IsoDate, a, [other] + IsoClock, bare);
    }
    assert Step(text, other, acc) == None;
  }

  /** The `T` layout never reads the text with a space. */
  lemma IsoTRejectsSpace(t: DateTime, bare: set<Directive>)
    requires Formattable(t)
    ensures StrPTime(Format(t, IsoSpace, bare), IsoT) == None
  {
    IsoParts();
    IsoRejectsOther(t, bare, Blank, Lit('T'));
  }

  /** The space layout never reads the text with a `T`. */
  lemma IsoSpaceRejectsT(t: DateTime, bare: set<Directive>)
    requires Formattable(t)
    ensures StrPTime(Format(t, IsoT, bare), IsoSpace) == None
  {
    IsoParts();
    IsoRejectsOther(t, bare, Lit('T'), Blank);
  }

  /** The age of a stripped text under a family of two layouts, when the
      `i`-th reads it and the other does not: only the `i`-th can give an
      age, and it does unless the age is too far in the future. */
  lemma PairAge(s: string, now: int, family: string, i: nat, age: int)
    requires s != [] && Strip(s) == s
    requires |LayoutsFor(family)| == 2 && i < 2
    requires AgeUnder(s, now, LayoutsFor(family)[i]) == Some(age)
    requires AgeUnder(s, now, LayoutsFor(family)[1 - i]) == None
    ensures TimestampAge(s, now, family) == if age >= -FutureTolerance then Some(age) else None
  {
    var layouts := LayoutsFor(family);
    assert TimestampAge(s, now, family) == FirstAge(s, now, layouts);
    if age >= -FutureTolerance {
      FirstAgeIsFirst(s, now, layouts, i);
    } else {
      FirstAgeNone(s, now, layouts);
    }
  }

  /** A rejected text has no age under that layout. */
  lemma AgeUnderNone(s: string, now: int, layout: Layout)
    requires StrPTime(s, layout) == None
    ensures AgeUnder(s, now, layout) == None
  {
  }

  /** Under `us`, the AM/PM text of a date gives its age, unless that puts it
      more than a day in the future, in which case there is no age: the
      24-hour layout does not read it. */
  lemma UsAmPmAge(t: DateTime, now: int, bare: set<Directive>)
    requires Formattable(t)
    ensures TimestampAge(Format(t, UsAmPm, bare), now, "us") ==
      if now - EpochSeconds(t) >= -FutureTolerance then Some(now - EpochSeconds(t)) else None
  {
    var s := Format(t, UsAmPm, bare);
    var age := now - EpochSeconds(t);
    assert s != [] && Strip(s) == s by {
      FormatIsStripped(t, UsAmPm, bare);
    }
    assert AgeUnder(s, now, UsAmPm) == Some(age) by {
      UsAmPmWellFormed();
      AgeUnderFormat(t, now, UsAmPm, bare);
    }
    assert AgeUnder(s, now, Us24) == None by {
      Us24RejectsAmPm(t, bare);
      AgeUnderNone(s, now, Us24);
    }
    assert LayoutsFor("us")[0] == UsAmPm && LayoutsFor("us")[1] == Us24;
    PairAge(s, now, "us", 0, age);
  }

  /** Under `us`, the 24-hour text of a date gives its age, unless that puts
      it more than a day in the future: the AM/PM layout, tried first, does
      not read it. */
  lemma Us24Age(t: DateTime, now: int, bare: set<Directive>)
    requires Formattable(t)
    ensures TimestampAge(Format(t, Us24, bare), now, "us") ==
      if now - EpochSeconds(t) >= -FutureTolerance then Some(now - EpochSeconds(t)) else None
  {
    var s := Format(t, Us24, bare);
    var age := now - EpochSeconds(t);
    assert s != [] && Strip(s) == s by {
      FormatIsStripped(t, Us24, bare);
    }
    assert AgeUnder(s, now, Us24) == Some(age) by {
      Us24WellFormed();
      AgeUnderFormat(t, now, Us24, bare);
    }
    assert AgeUnder(s, now, UsAmPm) == None by {
      UsAmPmRejects24(t, bare);
      AgeUnderNone(s, now, UsAmPm);
    }
    assert LayoutsFor("us")[1] == Us24 && LayoutsFor("us")[0] == UsAmPm;
    PairAge(s, now, "us", 1, age);
  }

  /** Under `iso`, the text with a space gives the date's age, unless that
      puts it more than a day in the future: the `T` layout does not read
      it. */
  lemma IsoSpaceAge(t: DateTime, now: int, bare: set<Directive>)
    requires Formattable(t)
    ensures TimestampAge(Format(t, IsoSpace, bare), now, "iso") ==
      if now - EpochSeconds(t) >= -FutureTolerance then Some(now - EpochSeconds(t)) else None
  {
    var s := Format(t, IsoSpace, bare);
    var age := now - EpochSeconds(t);
    assert s != [] && Strip(s) == s by {
      FormatIsStripped(t, IsoSpace, bare);
    }
    assert AgeUnder(s, now, IsoSpace) == Some(age) by {
      IsoSpaceWellFormed();
      AgeUnderFormat(t, now, IsoSpace, bare);
    }
    assert AgeUnder(s, now, IsoT) == None by {
      IsoTRejectsSpace(t, bare);
      AgeUnderNone(s, now, IsoT);
    }
    assert LayoutsFor("iso")[0] == IsoSpace && LayoutsFor("iso")[1] == IsoT;
    PairAge(s, now, "iso", 0, age);
  }

  /** Under `iso`, the text with a `T` gives the date's age, unless that puts
      it more than a day in the future: the space layout, tried first, does
      not read it. */
  lemma IsoTAge(t: DateTime, now: int, bare: set<Directive>)
    requires Formattable(t)
    ensures TimestampAge(Format(t, IsoT, bare), now, "iso") ==
      if now - EpochSeconds(t) >= -FutureTolerance then Some(now - EpochSeconds(t)) else None
  {
    var s := Format(t, IsoT, bare);
    var age := now - EpochSeconds(t);
    assert s != [] && Strip(s) == s by {
      FormatIsStripped(t, IsoT, bare);
    }
    assert AgeUnder(s, now, IsoT) == Some(age) by {
      IsoTWellFormed();
      AgeUnderFormat(t, now, IsoT, bare);
    }
    assert AgeUnder(s, now, IsoSpace) == None by {
      IsoSpaceRejectsT(t, bare);
      AgeUnderNone(s, now, IsoSpace);
    }
    assert LayoutsFor("iso")[1] == IsoT && LayoutsFor("iso")[0] == IsoSpace;
    PairAge(s, now, "iso", 1, age);
  }
}
