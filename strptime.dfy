/**
 * The part of Python's `time.strptime` that the two plugins rely on: the
 * seven date layouts they name, matched the way CPython's `_strptime`
 * matches them (one regular expression per layout, compiled case-blind,
 * whitespace in the layout standing for one or more whitespace characters,
 * the whole string consumed, then `datetime.date` rejecting a day that is
 * not in its month).
 *
 * A numeric directive is matched against the maximal run of digits at the
 * current position. That agrees with the regular expression because in
 * every layout here a numeric directive is followed by a separator or by
 * the end of the layout, never by another numeric directive
 * (`Separated`, proved for all seven layouts below).
 */
module Strptime {
  import opened Wrappers
  import opened Text
  import opened Calendar

  /** `%d %m %Y %H %I %M %S %p`, a literal character, and whitespace. */
  datatype Directive = Day | Month | Year | Hour24 | Hour12 | Minute | Second | AmPm | Lit(c: char) | Blank

  type Layout = seq<Directive>

  /** `%d.%m.%Y %H:%M:%S` */
  const DayDotted: Layout := [Day, Lit('.'), Month, Lit('.'), Year, Blank, Hour24, Lit(':'), Minute, Lit(':'), Second]
  /** `%m/%d/%Y %I:%M:%S %p` */
  const UsAmPm: Layout := [Month, Lit('/'), Day, Lit('/'), Year, Blank, Hour12, Lit(':'), Minute, Lit(':'), Second, Blank, AmPm]
  /** `%m/%d/%Y %H:%M:%S` */
  const Us24: Layout := [Month, Lit('/'), Day, Lit('/'), Year, Blank, Hour24, Lit(':'), Minute, Lit(':'), Second]
  /** `%d/%m/%Y %H:%M:%S` */
  const DaySlashed: Layout := [Day, Lit('/'), Month, Lit('/'), Year, Blank, Hour24, Lit(':'), Minute, Lit(':'), Second]
  /** `%d/%m/%Y %I:%M:%S %p` */
  const DaySlashedAmPm: Layout := [Day, Lit('/'), Month, Lit('/'), Year, Blank, Hour12, Lit(':'), Minute, Lit(':'), Second, Blank, AmPm]
  /** `%Y-%m-%d %H:%M:%S` */
  const IsoSpace: Layout := [Year, Lit('-'), Month, Lit('-'), Day, Blank, Hour24, Lit(':'), Minute, Lit(':'), Second]
  /** `%Y-%m-%dT%H:%M:%S` */
  const IsoT: Layout := [Year, Lit('-'), Month, Lit('-'), Day, Lit('T'), Hour24, Lit(':'), Minute, Lit(':'), Second]

  predicate IsNumeric(d: Directive) {
    d.Day? || d.Month? || d.Year? || d.Hour24? || d.Hour12? || d.Minute? || d.Second?
  }

  /** Smallest and largest value each numeric directive's pattern admits. */
  function Low(d: Directive): int
    requires IsNumeric(d)
  {
    match d
    case Day => 1
    case Month => 1
    case Hour12 => 1
    case _ => 0
  }

  function High(d: Directive): int
    requires IsNumeric(d)
  {
    match d
    case Day => 31
    case Month => 12
    case Year => 9999
    case Hour24 => 23
    case Hour12 => 12
    case Minute => 59
    case Second => 61
  }

  /** The fields a match has captured so far; unmatched ones keep CPython's
      defaults (1900-01-01 00:00:00). */
  datatype Captured = Captured(year: int, month: int, day: int, hour: int, hour12: Option<int>,
                               minute: int, second: int, pm: Option<bool>)

  const Defaults: Captured := Captured(1900, 1, 1, 0, None, 0, 0, None)

  /** Every captured number lies in its directive's range. */
  predicate InRange(c: Captured) {
    0 <= c.year <= 9999 && 1 <= c.month <= 12 && 1 <= c.day <= 31 && 0 <= c.hour <= 23
    && (c.hour12.Some? ==> 1 <= c.hour12.value <= 12)
    && 0 <= c.minute <= 59 && 0 <= c.second <= 61
  }

  function Store(c: Captured, d: Directive, v: int): Captured
    requires IsNumeric(d)
  {
    match d
    case Day => c.(day := v)
    case Month => c.(month := v)
    case Year => c.(year := v)
    case Hour24 => c.(hour := v)
    case Hour12 => c.(hour12 := Some(v))
    case Minute => c.(minute := v)
    case Second => c.(second := v)
  }

  /** Length of the run of ASCII digits at the start of `s`. */
  function DigitRun(s: string): (n: nat)
    ensures n <= |s|
    ensures forall i :: 0 <= i < n ==> IsDigit(s[i])
    ensures n == |s| || !IsDigit(s[n])
  {
    if s != [] && IsDigit(s[0]) then 1 + DigitRun(s[1..]) else 0
  }

  /** Decimal value of a string of digits. */
  function Value(ds: string): (v: nat)
    requires forall i :: 0 <= i < |ds| ==> IsDigit(ds[i])
  {
    if ds == [] then 0
    else
      var last := ds[|ds| - 1];
      assert IsDigit(last);
      Value(ds[..|ds| - 1]) * 10 + (last as int - '0' as int)
  }

  function Lower(c: char): char {
    if 'A' <= c <= 'Z' then (c as int + 32) as char else c
  }

  /** Python's `re.IGNORECASE` for the ASCII letters. */
  predicate SameLetter(a: char, b: char) {
    Lower(a) == Lower(b)
  }

  /** Length of the run of whitespace at the start of `s`. */
  function SpaceRun(s: string): (n: nat)
    ensures n <= |s|
  {
    if s != [] && IsSpace(s[0]) then 1 + SpaceRun(s[1..]) else 0
  }

  /** The value and length of the number a numeric directive reads at the
      start of `s`, if its pattern matches there. */
  function Number(s: string, d: Directive): (r: Option<(int, nat)>)
    requires IsNumeric(d)
    ensures r.Some? ==> r.value.1 <= |s| && Low(d) <= r.value.0 <= High(d)
  {
    if d == Day && |s| >= 2 && s[0] == ' ' && '1' <= s[1] <= '9' && (|s| == 2 || !IsDigit(s[2])) then
      // the day pattern's last alternative, " [1-9]"
      Some((s[1] as int - '0' as int, 2))
    else
      var n := DigitRun(s);
      var okLength := if d == Year then n == 4 else 1 <= n <= 2;
      if okLength && Low(d) <= Value(s[..n]) <= High(d) then Some((Value(s[..n]), n)) else None
  }

  /** Matches one directive at the start of `s`: the updated captures and
      the number of characters consumed. */
  function Step(s: string, d: Directive, acc: Captured): (r: Option<(Captured, nat)>)
    requires InRange(acc)
    ensures r.Some? ==> InRange(r.value.0) && r.value.1 <= |s|
  {
    if d.Lit? then
      if s != [] && SameLetter(s[0], d.c) then Some((acc, 1)) else None
    else if d == Blank then
      var n := SpaceRun(s);
      if n == 0 then None else Some((acc, n))
    else if d == AmPm then
      if |s| >= 2 && Lower(s[1]) == 'm' && (Lower(s[0]) == 'a' || Lower(s[0]) == 'p') then
        Some((acc.(pm := Some(Lower(s[0]) == 'p')), 2))
      else None
    else
      match Number(s, d)
      case None => None
      case Some((v, n)) => Some((Store(acc, d, v), n))
  }

  /** Matches `s` against the rest of a layout, threading the captures; the
      whole string must be consumed. */
  function Match(s: string, layout: Layout, acc: Captured): (r: Option<Captured>)
    requires InRange(acc)
    ensures r.Some? ==> InRange(r.value)
    decreases |layout|
  {
    if layout == [] then
      if s == [] then Some(acc) else None
    else
      match Step(s, layout[0], acc)
      case None => None
      case Some((acc', n)) => Match(s[n..], layout[1..], acc')
  }

  /** CPython's hour: `%I` with `%p` (no `%p` counts as AM), else `%H`. */
  function HourOf(c: Captured): int {
    match c.hour12
    case None => c.hour
    case Some(h) =>
      if c.pm == Some(true) then (if h == 12 then 12 else h + 12)
      else (if h == 12 then 0 else h)
  }

  /** `time.strptime(s, layout)`: the calendar fields, or `None` where
      Python raises `ValueError`. */
  function StrPTime(s: string, layout: Layout): (r: Option<DateTime>)
    ensures r.Some? ==> Valid(r.value)
  {
    match Match(s, layout, Defaults)
    case None => None
    case Some(c) =>
      if ValidDate(c.year, c.month, c.day) then
        Some(DateTime(c.year, c.month, c.day, HourOf(c), c.minute, c.second))
      else None
  }

  // ---------------------------------------------------------------------
  // Formatting: the text of a date under a layout, zero-padded (the
  // canonical text) or with some fields unpadded, and the proof that every
  // such text is read back as the same date.

  function DigitChar(v: int): char
    requires 0 <= v <= 9
  {
    ('0' as int + v) as char
  }

  function Two(v: int): string
    requires 0 <= v <= 99
  {
    [DigitChar(v / 10), DigitChar(v % 10)]
  }

  function Four(v: int): string
    requires 0 <= v <= 9999
  {
    Two(v / 100) + Two(v % 100)
  }

  /** The 12-hour clock hour of a 24-hour clock hour. */
  function Clock12(h: int): int {
    if h % 12 == 0 then 12 else h % 12
  }

  predicate Formattable(t: DateTime) {
    Valid(t) && t.year <= 9999
  }

  /** Two digits, or one for a value below ten when the field is written
      without its leading zero. */
  function Digits(v: int, bare: bool): string
    requires 0 <= v <= 99
  {
    if bare && v < 10 then [DigitChar(v)] else Two(v)
  }

  /** The text of one directive for a date. The two-digit fields named in
      `bare` lose their leading zero, as in the `2/5/2021 1:02:03 PM` that
      Windows writes for en-US; the year always has four digits. A number
      is written as the decimal digits of its field, `%p` as `AM` or `PM`
      by the hour, a literal as itself and whitespace as one space. */
  function Render(d: Directive, t: DateTime, bare: set<Directive> := {}): (r: string)
    requires Formattable(t)
    ensures IsNumeric(d) ==>
      && |r| == (if d == Year then 4 else if d in bare && FieldOf(d, t) < 10 then 1 else 2)
      && (forall i :: 0 <= i < |r| ==> IsDigit(r[i]))
      && Value(r) == FieldOf(d, t)
    ensures d == AmPm ==> r == (if t.hour >= 12 then "PM" else "AM")
    ensures d.Lit? ==> r == [d.c]
    ensures d == Blank ==> r == " "
  {
    match d
    case Day => DigitsValue(t.day, Day in bare); Digits(t.day, Day in bare)
    case Month => DigitsValue(t.month, Month in bare); Digits(t.month, Month in bare)
    case Year => FourValue(t.year); Four(t.year)
    case Hour24 => DigitsValue(t.hour, Hour24 in bare); Digits(t.hour, Hour24 in bare)
    case Hour12 => DigitsValue(Clock12(t.hour), Hour12 in bare); Digits(Clock12(t.hour), Hour12 in bare)
    case Minute => DigitsValue(t.minute, Minute in bare); Digits(t.minute, Minute in bare)
    case Second => DigitsValue(t.second, Second in bare); Digits(t.second, Second in bare)
    case AmPm => if t.hour < 12 then "AM" else "PM"
    case Lit(c) => [c]
    case Blank => " "
  }

  /** The text of a date under a layout; zero-padded unless `bare` says
      otherwise. */
  function Format(t: DateTime, layout: Layout, bare: set<Directive> := {}): string
    requires Formattable(t)
  {
    if layout == [] then "" else Render(layout[0], t, bare) + Format(t, layout[1..], bare)
  }

  /** The number a numeric directive renders for a date. */
  function FieldOf(d: Directive, t: DateTime): int
    requires IsNumeric(d)
  {
    match d
    case Day => t.day
    case Month => t.month
    case Year => t.year
    case Hour24 => t.hour
    case Hour12 => Clock12(t.hour)
    case Minute => t.minute
    case Second => t.second
  }

  /** What matching one directive of a date's canonical text captures. */
  function FillStep(acc: Captured, d: Directive, t: DateTime): (r: Captured)
    requires Formattable(t)
    ensures InRange(acc) ==> InRange(r)
  {
    if d == AmPm then acc.(pm := Some(t.hour >= 12))
    else if IsNumeric(d) then Store(acc, d, FieldOf(d, t))
    else acc
  }

  /** What a successful match of a date's canonical text captures. */
  function Fill(acc: Captured, layout: Layout, t: DateTime): (r: Captured)
    requires Formattable(t)
    ensures InRange(acc) ==> InRange(r)
    decreases |layout|
  {
    if layout == [] then acc else Fill(FillStep(acc, layout[0], t), layout[1..], t)
  }

  /** At position `i`: a literal is neither a digit nor whitespace, and the
      next directive is not numeric after a numeric one, nor blank after a
      blank. */
  predicate SeparatedAt(layout: Layout, i: nat)
    requires i < |layout|
  {
    && (layout[i].Lit? ==> !IsDigit(layout[i].c) && !IsSpace(layout[i].c))
    && (i + 1 < |layout| && IsNumeric(layout[i]) ==> !IsNumeric(layout[i + 1]))
    && (i + 1 < |layout| && layout[i] == Blank ==> layout[i + 1] != Blank)
  }

  /** No two numeric directives touch, no two blanks touch, and literals are
      neither digits nor whitespace. */
  predicate Separated(layout: Layout) {
    forall i :: 0 <= i < |layout| ==> SeparatedAt(layout, i)
  }

  lemma SeparatedTail(layout: Layout)
    requires Separated(layout) && layout != []
    ensures Separated(layout[1..])
  {
    forall i | 0 <= i < |layout| - 1 ensures SeparatedAt(layout[1..], i) {
      assert SeparatedAt(layout, i + 1);
    }
  }

  lemma TwoValue(v: int)
    requires 0 <= v <= 99
    ensures var s := Two(v); (forall i :: 0 <= i < 2 ==> IsDigit(s[i])) && Value(s) == v
  {
    var s := Two(v);
    assert s[..1] == [s[0]] && [s[0]][..0] == [];
    assert Value(s[..1]) == v / 10;
    assert Value(s) == (v / 10) * 10 + v % 10;
  }

  lemma FourValue(v: int)
    requires 0 <= v <= 9999
    ensures var s := Four(v); |s| == 4 && (forall i :: 0 <= i < 4 ==> IsDigit(s[i])) && Value(s) == v
  {
    var s := Four(v);
    var hi := Two(v / 100);
    TwoValue(v / 100);
    assert s[..3] == hi + [s[2]] && s[..3][..2] == hi;
    assert Value(s[..3]) == Value(hi) * 10 + (s[2] as int - '0' as int);
    assert s[2] == DigitChar((v % 100) / 10) && s[3] == DigitChar(v % 100 % 10);
    assert Value(s) == Value(s[..3]) * 10 + (v % 100 % 10);
  }

  lemma DigitsValue(v: int, bare: bool)
    requires 0 <= v <= 99
    ensures var s := Digits(v, bare);
      && |s| == (if bare && v < 10 then 1 else 2)
      && (forall i :: 0 <= i < |s| ==> IsDigit(s[i])) && Value(s) == v
  {
    if bare && v < 10 {
      assert [DigitChar(v)][..0] == [];
    } else {
      TwoValue(v);
    }
  }

  lemma {:induction false} DigitRunStops(ds: string, rest: string)
    requires forall i :: 0 <= i < |ds| ==> IsDigit(ds[i])
    requires rest == [] || !IsDigit(rest[0])
    ensures DigitRun(ds + rest) == |ds|
    decreases |ds|
  {
    if ds == [] {
      assert ds + rest == rest;
    } else {
      var s := ds + rest;
      assert s[0] == ds[0] && s[1..] == ds[1..] + rest;
      DigitRunStops(ds[1..], rest);
    }
  }

  lemma SpaceRunStops(rest: string)
    requires rest == [] || !IsSpace(rest[0])
    ensures SpaceRun(" " + rest) == 1
  {
    assert (" " + rest)[1..] == rest;
  }

  /** The first character that follows a directive's text cannot be read as
      part of it: no digit after a number, no whitespace after a blank. */
  predicate Ends(d: Directive, rest: string) {
    (IsNumeric(d) ==> rest == [] || !IsDigit(rest[0]))
    && (d == Blank ==> rest == [] || !IsSpace(rest[0]))
  }

  /** The number a numeric directive `e` reads from the text of directive
      `d`: the field of `d` when it lies in `e`'s range. */
  lemma NumberRender(t: DateTime, d: Directive, e: Directive, rest: string, bare: set<Directive>)
    requires Formattable(t) && IsNumeric(d) && IsNumeric(e) && (d == Year <==> e == Year) && Ends(d, rest)
    ensures Number(Render(d, t, bare) + rest, e) ==
      if Low(e) <= FieldOf(d, t) <= High(e) then Some((FieldOf(d, t), |Render(d, t, bare)|)) else None
  {
    var ds := Render(d, t, bare);
    var s := ds + rest;
    DigitRunStops(ds, rest);
    assert s[..|ds|] == ds;
    assert s[0] == ds[0] && IsDigit(ds[0]);
  }

  lemma StepNumber(t: DateTime, d: Directive, rest: string, acc: Captured, bare: set<Directive> := {})
    requires Formattable(t) && InRange(acc) && IsNumeric(d) && Ends(d, rest)
    ensures Step(Render(d, t, bare) + rest, d, acc) == Some((FillStep(acc, d, t), |Render(d, t, bare)|))
  {
    NumberRender(t, d, d, rest, bare);
  }

  /** One directive reads back its own rendering, when the text after it
      cannot be taken for a continuation. */
  lemma StepRender(t: DateTime, d: Directive, rest: string, acc: Captured, bare: set<Directive> := {})
    requires Formattable(t) && InRange(acc) && Ends(d, rest)
    requires d.Lit? ==> !IsDigit(d.c) && !IsSpace(d.c)
    ensures Step(Render(d, t, bare) + rest, d, acc) == Some((FillStep(acc, d, t), |Render(d, t, bare)|))
  {
    var s := Render(d, t, bare) + rest;
    if d == Blank {
      SpaceRunStops(rest);
    } else if IsNumeric(d) {
      StepNumber(t, d, rest, acc, bare);
    } else if d == AmPm {
      assert s[0] == (if t.hour < 12 then 'A' else 'P') && s[1] == 'M';
    }
  }

  /** The first character of the formatted rest of a layout. */
  lemma FormatHead(t: DateTime, layout: Layout, bare: set<Directive> := {})
    requires Formattable(t) && layout != []
    ensures Format(t, layout, bare) != [] && Format(t, layout, bare)[0] == Render(layout[0], t, bare)[0]
  {
  }

  /** `Format(t, a + b)` is the two texts one after the other. */
  lemma {:induction false} FormatAppend(t: DateTime, a: Layout, b: Layout, bare: set<Directive> := {})
    requires Formattable(t)
    ensures Format(t, a + b, bare) == Format(t, a, bare) + Format(t, b, bare)
    decreases |a|
  {
    if a == [] {
      assert a + b == b;
    } else {
      assert (a + b)[1..] == a[1..] + b;
      FormatAppend(t, a[1..], b, bare);
    }
  }

  /** Matching the first directive of a layout against its own text. */
  lemma MatchHead(t: DateTime, layout: Layout, more: Layout, tail: string, acc: Captured, bare: set<Directive>)
    requires Formattable(t) && InRange(acc) && layout != [] && Ends(layout[0], tail)
    requires layout[0].Lit? ==> !IsDigit(layout[0].c) && !IsSpace(layout[0].c)
    ensures InRange(FillStep(acc, layout[0], t))
    ensures Match(Render(layout[0], t, bare) + tail, layout + more, acc) ==
      Match(tail, layout[1..] + more, FillStep(acc, layout[0], t))
  {
    var d := layout[0];
    StepRender(t, d, tail, acc, bare);
    var s := Render(d, t, bare) + tail;
    assert s[|Render(d, t, bare)|..] == tail;
    assert (layout + more)[0] == d && (layout + more)[1..] == layout[1..] + more;
  }

  /** What follows a directive's text in a date's text under a separated
      layout cannot be read as part of it. */
  lemma EndsInLayout(t: DateTime, layout: Layout, rest: string, bare: set<Directive>)
    requires Formattable(t) && Separated(layout) && layout != []
    requires Ends(layout[|layout| - 1], rest)
    ensures Ends(layout[0], Format(t, layout[1..], bare) + rest)
  {
    if |layout| > 1 {
      FormatHead(t, layout[1..], bare);
      assert SeparatedAt(layout, 0);
      assert SeparatedAt(layout, 1);
    } else {
      assert Format(t, layout[1..], bare) + rest == rest;
    }
  }

  /** Matching the text of a date under a layout, followed by more text and
      more layout, fills in exactly the date's fields and leaves the rest to
      the rest of the layout; nothing in the text is read twice or skipped. */
  lemma {:induction false} MatchThen(t: DateTime, layout: Layout, more: Layout, rest: string, acc: Captured,
                                     bare: set<Directive> := {})
    requires Formattable(t) && Separated(layout) && InRange(acc)
    requires layout != [] ==> Ends(layout[|layout| - 1], rest)
    ensures Match(Format(t, layout, bare) + rest, layout + more, acc) == Match(rest, more, Fill(acc, layout, t))
    decreases |layout|
  {
    if layout == [] {
      assert Format(t, layout, bare) + rest == rest;
      assert layout + more == more;
    } else {
      var tail := Format(t, layout[1..], bare) + rest;
      assert Format(t, layout, bare) + rest == Render(layout[0], t, bare) + tail;
      EndsInLayout(t, layout, rest, bare);
      assert SeparatedAt(layout, 0);
      MatchHead(t, layout, more, tail, acc, bare);
      SeparatedTail(layout);
      assert layout[1..] != [] ==> layout[1..][|layout| - 2] == layout[|layout| - 1];
      MatchThen(t, layout[1..], more, rest, FillStep(acc, layout[0], t), bare);
    }
  }

  /** Where a field comes from after one directive. */
  lemma FillStepFields(acc: Captured, d: Directive, t: DateTime)
    requires Formattable(t)
    ensures var f := FillStep(acc, d, t);
      && f.year == (if d == Year then t.year else acc.year)
      && f.month == (if d == Month then t.month else acc.month)
      && f.day == (if d == Day then t.day else acc.day)
      && f.hour == (if d == Hour24 then t.hour else acc.hour)
      && f.hour12 == (if d == Hour12 then Some(Clock12(t.hour)) else acc.hour12)
      && f.minute == (if d == Minute then t.minute else acc.minute)
      && f.second == (if d == Second then t.second else acc.second)
      && f.pm == (if d == AmPm then Some(t.hour >= 12) else acc.pm)
  {
  }

  lemma {:induction false} FillFields(acc: Captured, layout: Layout, t: DateTime)
    requires Formattable(t)
    ensures var f := Fill(acc, layout, t);
      && f.year == (if Year in layout then t.year else acc.year)
      && f.month == (if Month in layout then t.month else acc.month)
      && f.day == (if Day in layout then t.day else acc.day)
      && f.hour == (if Hour24 in layout then t.hour else acc.hour)
      && f.hour12 == (if Hour12 in layout then Some(Clock12(t.hour)) else acc.hour12)
      && f.minute == (if Minute in layout then t.minute else acc.minute)
      && f.second == (if Second in layout then t.second else acc.second)
      && f.pm == (if AmPm in layout then Some(t.hour >= 12) else acc.pm)
    decreases |layout|
  {
    if layout != [] {
      var d := layout[0];
      FillStepFields(acc, d, t);
      FillFields(FillStep(acc, d, t), layout[1..], t);
      InSplit(layout, Year);
      InSplit(layout, Month);
      InSplit(layout, Day);
      InSplit(layout, Hour24);
      InSplit(layout, Hour12);
      InSplit(layout, Minute);
      InSplit(layout, Second);
      InSplit(layout, AmPm);
    }
  }

  lemma InSplit(layout: Layout, x: Directive)
    requires layout != []
    ensures x in layout <==> x == layout[0] || x in layout[1..]
  {
    assert layout == [layout[0]] + layout[1..];
  }

  /** `%I` and `%p` of an hour give the hour back. */
  lemma HourOfClock12(c: Captured, h: int)
    requires 0 <= h <= 23 && c.hour12 == Some(Clock12(h)) && c.pm == Some(h >= 12)
    ensures HourOf(c) == h
  {
  }

  /** A layout that names every field once, with one kind of hour. */
  predicate Complete(layout: Layout) {
    Year in layout && Month in layout && Day in layout && Minute in layout && Second in layout
    && ((Hour24 in layout && Hour12 !in layout && AmPm !in layout)
        || (Hour12 in layout && AmPm in layout && Hour24 !in layout))
  }

  /** Reading back the text of a date under a separated, complete layout
      gives the same date, whichever fields are written without their
      leading zero. */
  lemma StrPTimeFormat(t: DateTime, layout: Layout, bare: set<Directive> := {})
    requires Formattable(t) && Separated(layout) && Complete(layout)
    ensures StrPTime(Format(t, layout, bare), layout) == Some(t)
  {
    MatchThen(t, layout, [], "", Defaults, bare);
    assert Format(t, layout, bare) + "" == Format(t, layout, bare) && layout + [] == layout;
    FillFields(Defaults, layout, t);
    var c := Fill(Defaults, layout, t);
    if Hour12 in layout {
      HourOfClock12(c, t.hour);
    }
    assert HourOf(c) == t.hour;
  }

  // Each layout the plugins use is separated and complete.

  lemma DayDottedSeparated()
    ensures Separated(DayDotted)
  {
    var L := DayDotted;
    assert SeparatedAt(L, 0);
    assert SeparatedAt(L, 1);
    assert SeparatedAt(L, 2);
    assert SeparatedAt(L, 3);
    assert SeparatedAt(L, 4);
    assert SeparatedAt(L, 5);
    assert SeparatedAt(L, 6);
    assert SeparatedAt(L, 7);
    assert SeparatedAt(L, 8);
    assert SeparatedAt(L, 9);
    assert SeparatedAt(L, 10);
  }

  lemma DayDottedComplete()
    ensures Complete(DayDotted)
  {
    var L := DayDotted;
    assert L[0] == Day && L[2] == Month && L[4] == Year && L[6] == Hour24 && L[8] == Minute && L[10] == Second;
    assert forall i :: 0 <= i < |L| ==> L[i] != Hour12 && L[i] != AmPm;
  }

  lemma DayDottedWellFormed()
    ensures Separated(DayDotted) && Complete(DayDotted)
  {
    DayDottedSeparated();
    DayDottedComplete();
  }

  lemma UsAmPmSeparated()
    ensures Separated(UsAmPm)
  {
    var L := UsAmPm;
    assert SeparatedAt(L, 0);
    assert SeparatedAt(L, 1);
    assert SeparatedAt(L, 2);
    assert SeparatedAt(L, 3);
    assert SeparatedAt(L, 4);
    assert SeparatedAt(L, 5);
    assert SeparatedAt(L, 6);
    assert SeparatedAt(L, 7);
    assert SeparatedAt(L, 8);
    assert SeparatedAt(L, 9);
    assert SeparatedAt(L, 10);
    assert SeparatedAt(L, 11);
    assert SeparatedAt(L, 12);
  }

  lemma UsAmPmComplete()
    ensures Complete(UsAmPm)
  {
    var L := UsAmPm;
    assert L[0] == Month && L[2] == Day && L[4] == Year && L[6] == Hour12 && L[8] == Minute && L[10] == Second && L[12] == AmPm;
    assert forall i :: 0 <= i < |L| ==> L[i] != Hour24;
  }

  lemma UsAmPmWellFormed()
    ensures Separated(UsAmPm) && Complete(UsAmPm)
  {
    UsAmPmSeparated();
    UsAmPmComplete();
  }

  lemma Us24Separated()
    ensures Separated(Us24)
  {
    var L := Us24;
    assert SeparatedAt(L, 0);
    assert SeparatedAt(L, 1);
    assert SeparatedAt(L, 2);
    assert SeparatedAt(L, 3);
    assert SeparatedAt(L, 4);
    assert SeparatedAt(L, 5);
    assert SeparatedAt(L, 6);
    assert SeparatedAt(L, 7);
    assert SeparatedAt(L, 8);
    assert SeparatedAt(L, 9);
    assert SeparatedAt(L, 10);
  }

  lemma Us24Complete()
    ensures Complete(Us24)
  {
    var L := Us24;
    assert L[0] == Month && L[2] == Day && L[4] == Year && L[6] == Hour24 && L[8] == Minute && L[10] == Second;
    assert forall i :: 0 <= i < |L| ==> L[i] != Hour12 && L[i] != AmPm;
  }

  lemma Us24WellFormed()
    ensures Separated(Us24) && Complete(Us24)
  {
    Us24Separated();
    Us24Complete();
  }

  lemma DaySlashedSeparated()
    ensures Separated(DaySlashed)
  {
    var L := DaySlashed;
    assert SeparatedAt(L, 0);
    assert SeparatedAt(L, 1);
    assert SeparatedAt(L, 2);
    assert SeparatedAt(L, 3);
    assert SeparatedAt(L, 4);
    assert SeparatedAt(L, 5);
    assert SeparatedAt(L, 6);
    assert SeparatedAt(L, 7);
    assert SeparatedAt(L, 8);
    assert SeparatedAt(L, 9);
    assert SeparatedAt(L, 10);
  }

  lemma DaySlashedComplete()
    ensures Complete(DaySlashed)
  {
    var L := DaySlashed;
    assert L[0] == Day && L[2] == Month && L[4] == Year && L[6] == Hour24 && L[8] == Minute && L[10] == Second;
    assert forall i :: 0 <= i < |L| ==> L[i] != Hour12 && L[i] != AmPm;
  }

  lemma DaySlashedWellFormed()
    ensures Separated(DaySlashed) && Complete(DaySlashed)
  {
    DaySlashedSeparated();
    DaySlashedComplete();
  }

  lemma DaySlashedAmPmSeparated()
    ensures Separated(DaySlashedAmPm)
  {
    var L := DaySlashedAmPm;
    assert SeparatedAt(L, 0);
    assert SeparatedAt(L, 1);
    assert SeparatedAt(L, 2);
    assert SeparatedAt(L, 3);
    assert SeparatedAt(L, 4);
    assert SeparatedAt(L, 5);
    assert SeparatedAt(L, 6);
    assert SeparatedAt(L, 7);
    assert SeparatedAt(L, 8);
    assert SeparatedAt(L, 9);
    assert SeparatedAt(L, 10);
    assert SeparatedAt(L, 11);
    assert SeparatedAt(L, 12);
  }

  lemma DaySlashedAmPmComplete()
    ensures Complete(DaySlashedAmPm)
  {
    var L := DaySlashedAmPm;
    assert L[0] == Day && L[2] == Month && L[4] == Year && L[6] == Hour12 && L[8] == Minute && L[10] == Second && L[12] == AmPm;
    assert forall i :: 0 <= i < |L| ==> L[i] != Hour24;
  }

  lemma DaySlashedAmPmWellFormed()
    ensures Separated(DaySlashedAmPm) && Complete(DaySlashedAmPm)
  {
    DaySlashedAmPmSeparated();
    DaySlashedAmPmComplete();
  }

  lemma IsoSpaceSeparated()
    ensures Separated(IsoSpace)
  {
    var L := IsoSpace;
    assert SeparatedAt(L, 0);
    assert SeparatedAt(L, 1);
    assert SeparatedAt(L, 2);
    assert SeparatedAt(L, 3);
    assert SeparatedAt(L, 4);
    assert SeparatedAt(L, 5);
    assert SeparatedAt(L, 6);
    assert SeparatedAt(L, 7);
    assert SeparatedAt(L, 8);
    assert SeparatedAt(L, 9);
    assert SeparatedAt(L, 10);
  }

  lemma IsoSpaceComplete()
    ensures Complete(IsoSpace)
  {
    var L := IsoSpace;
    assert L[0] == Year && L[2] == Month && L[4] == Day && L[6] == Hour24 && L[8] == Minute && L[10] == Second;
    assert forall i :: 0 <= i < |L| ==> L[i] != Hour12 && L[i] != AmPm;
  }

  lemma IsoSpaceWellFormed()
    ensures Separated(IsoSpace) && Complete(IsoSpace)
  {
    IsoSpaceSeparated();
    IsoSpaceComplete();
  }

  lemma IsoTSeparated()
    ensures Separated(IsoT)
  {
    var L := IsoT;
    assert SeparatedAt(L, 0);
    assert SeparatedAt(L, 1);
    assert SeparatedAt(L, 2);
    assert SeparatedAt(L, 3);
    assert SeparatedAt(L, 4);
    assert SeparatedAt(L, 5);
    assert SeparatedAt(L, 6);
    assert SeparatedAt(L, 7);
    assert SeparatedAt(L, 8);
    assert SeparatedAt(L, 9);
    assert SeparatedAt(L, 10);
  }

  lemma IsoTComplete()
    ensures Complete(IsoT)
  {
    var L := IsoT;
    assert L[0] == Year && L[2] == Month && L[4] == Day && L[6] == Hour24 && L[8] == Minute && L[10] == Second;
    assert forall i :: 0 <= i < |L| ==> L[i] != Hour12 && L[i] != AmPm;
  }

  lemma IsoTWellFormed()
    ensures Separated(IsoT) && Complete(IsoT)
  {
    IsoTSeparated();
    IsoTComplete();
  }

  /** Each of the seven layouts reads back the text it formats, padded or
      with any of its two-digit fields written without a leading zero. */
  lemma LayoutsRoundTrip(t: DateTime, bare: set<Directive>)
    requires Formattable(t)
    ensures StrPTime(Format(t, DayDotted, bare), DayDotted) == Some(t)
    ensures StrPTime(Format(t, UsAmPm, bare), UsAmPm) == Some(t)
    ensures StrPTime(Format(t, Us24, bare), Us24) == Some(t)
    ensures StrPTime(Format(t, DaySlashed, bare), DaySlashed) == Some(t)
    ensures StrPTime(Format(t, DaySlashedAmPm, bare), DaySlashedAmPm) == Some(t)
    ensures StrPTime(Format(t, IsoSpace, bare), IsoSpace) == Some(t)
    ensures StrPTime(Format(t, IsoT, bare), IsoT) == Some(t)
  {
    DayDottedWellFormed();
    StrPTimeFormat(t, DayDotted, bare);
    UsAmPmWellFormed();
    StrPTimeFormat(t, UsAmPm, bare);
    Us24WellFormed();
    StrPTimeFormat(t, Us24, bare);
    DaySlashedWellFormed();
    StrPTimeFormat(t, DaySlashed, bare);
    DaySlashedAmPmWellFormed();
    StrPTimeFormat(t, DaySlashedAmPm, bare);
    IsoSpaceWellFormed();
    StrPTimeFormat(t, IsoSpace, bare);
    IsoTWellFormed();
    StrPTimeFormat(t, IsoT, bare);
  }
}
