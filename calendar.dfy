/**
 * Calendar fields and their conversion to epoch seconds. Both plugin
 * versions turn a parsed date into seconds with `time.mktime`, which reads
 * the host's time zone; this model converts in UTC instead, so an age is
 * `now - EpochSeconds(t)` with `now` supplied by the caller.
 */
module Calendar {

  /** The fields `time.strptime` fills for the layouts used here. */
  datatype DateTime = DateTime(year: int, month: int, day: int, hour: int, minute: int, second: int)

  predicate IsLeap(y: int) {
    y % 4 == 0 && (y % 100 != 0 || y % 400 == 0)
  }

  function DaysInMonth(y: int, m: int): (n: int)
    requires 1 <= m <= 12
    ensures 28 <= n <= 31
    ensures n == 29 <==> m == 2 && IsLeap(y)
  {
    if m == 2 then (if IsLeap(y) then 29 else 28)
    else if m == 4 || m == 6 || m == 9 || m == 11 then 30
    else 31
  }

  /** The check Python's `datetime.date` makes before `strptime` accepts a
      date: a year of at least 1 and a day that exists in its month. */
  predicate ValidDate(y: int, m: int, d: int) {
    1 <= y && 1 <= m <= 12 && 1 <= d <= DaysInMonth(y, m)
  }

  /** The ranges `strptime` accepts for the time of day (a second of 60 or 61
      is let through, as CPython does). */
  predicate ValidTime(h: int, mi: int, s: int) {
    0 <= h <= 23 && 0 <= mi <= 59 && 0 <= s <= 61
  }

  predicate Valid(t: DateTime) {
    ValidDate(t.year, t.month, t.day) && ValidTime(t.hour, t.minute, t.second)
  }

  /** Days from 1970-01-01 to the given day of the proleptic Gregorian
      calendar, counted in eras of 400 years that start on March 1. */
  function DaysFromCivil(y: int, m: int, d: int): int
    requires 1 <= m <= 12
  {
    var y' := if m <= 2 then y - 1 else y;
    var era := y' / 400;
    var yoe := y' - era * 400;
    var mp := if m > 2 then m - 3 else m + 9;
    var doy := (153 * mp + 2) / 5 + d - 1;
    var doe := yoe * 365 + yoe / 4 - yoe / 100 + doy;
    era * 146097 + doe - 719468
  }

  function EpochSeconds(t: DateTime): int
    requires 1 <= t.month <= 12
  {
    DaysFromCivil(t.year, t.month, t.day) * 86400 + t.hour * 3600 + t.minute * 60 + t.second
  }

  /** The conversion counts days: the next day of a month is one day later. */
  lemma NextDay(y: int, m: int, d: int)
    requires ValidDate(y, m, d) && d < DaysInMonth(y, m)
    ensures DaysFromCivil(y, m, d + 1) == DaysFromCivil(y, m, d) + 1
  {
  }

  /** The first of a month follows the last day of the month before. */
  lemma NextMonth(y: int, m: int)
    requires 1 <= m < 12
    ensures DaysFromCivil(y, m + 1, 1) == DaysFromCivil(y, m, DaysInMonth(y, m)) + 1
  {
    if m == 2 {
      IntoMarch(y);
    } else {
      WithinYear(y, m);
    }
  }

  /** Every month but February ends inside the same year of the count. */
  lemma WithinYear(y: int, m: int)
    requires 1 <= m < 12 && m != 2
    ensures DaysFromCivil(y, m + 1, 1) == DaysFromCivil(y, m, DaysInMonth(y, m)) + 1
  {
  }

  /** March 1 follows the last day of February. */
  lemma IntoMarch(y: int)
    ensures DaysFromCivil(y, 3, 1) == DaysFromCivil(y, 2, DaysInMonth(y, 2)) + 1
  {
    var y' := y - 1;
    var era := y' / 400;
    var yoe := y' - era * 400;
    LeapStep(y', era, yoe);
  }

  /** Crossing February 29 (or 28) into March moves from one year-of-era into
      the next, which adds 365 days plus one when the March year is leap. */
  lemma LeapStep(y': int, era: int, yoe: int)
    requires era == y' / 400 && yoe == y' - era * 400
    ensures var y := y' + 1; var era2 := y / 400; var yoe2 := y - era2 * 400;
      era2 * 146097 + yoe2 * 365 + yoe2 / 4 - yoe2 / 100
        == era * 146097 + yoe * 365 + yoe / 4 - yoe / 100 + 365 + (if IsLeap(y) then 1 else 0)
  {
    var y := y' + 1;
    assert 0 <= yoe < 400 && y == era * 400 + yoe + 1;
    if yoe == 399 {
      assert y == (era + 1) * 400;
      assert y / 400 == era + 1 && y % 400 == 0 && y % 4 == 0;
      assert yoe / 4 == 99 && yoe / 100 == 3;
    } else {
      assert y / 400 == era;
      ShiftMod(era * 100, yoe + 1, 4);
      ShiftMod(era * 4, yoe + 1, 100);
      assert y % 400 == yoe + 1;
      StepDiv(yoe, 4);
      StepDiv(yoe, 100);
    }
  }

  lemma ShiftMod(c: int, r: int, k: int)
    requires k == 4 || k == 100
    requires 0 <= r
    ensures (c * k + r) % k == r % k
  {
  }

  lemma StepDiv(x: int, k: int)
    requires k == 4 || k == 100
    requires 0 <= x
    ensures (x + 1) / k == x / k + (if (x + 1) % k == 0 then 1 else 0)
  {
  }

  /** January 1 follows December 31. */
  lemma NextYear(y: int)
    ensures DaysFromCivil(y + 1, 1, 1) == DaysFromCivil(y, 12, 31) + 1
  {
  }

  /** The Unix epoch is day zero. */
  lemma EpochOrigin()
    ensures DaysFromCivil(1970, 1, 1) == 0
  {
  }
}
