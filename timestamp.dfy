/**
 * The event times: the start built from the five captured fields at the fixed offset +09:00,
 * and the end one hour later, rolling the day, month and year over as the calendar demands.
 */
module Timestamp {
  import opened Wrappers
  import SchedulePattern

  /** A proleptic Gregorian date and time to the minute (seconds are always zero here), with
      its offset from UTC in minutes. */
  datatype DateTime = DateTime(year: int, month: int, day: int, hour: int, minute: int, offset: int)

  /** The offset "+09:00" every start time is given. */
  const Jst: int := 9 * 60

  predicate IsLeapYear(y: int) {
    y % 4 == 0 && (y % 100 != 0 || y % 400 == 0)
  }

  function DaysInMonth(y: int, m: int): (n: int)
    requires 1 <= m <= 12
    ensures 28 <= n <= 31
  {
    if m == 2 then (if IsLeapYear(y) then 29 else 28)
    else if m == 4 || m == 6 || m == 9 || m == 11 then 30
    else 31
  }

  /** The fields name a real calendar time. */
  predicate Valid(t: DateTime) {
    && 0 <= t.year
    && 1 <= t.month <= 12
    && 1 <= t.day <= DaysInMonth(t.year, t.month)
    && 0 <= t.hour < 24
    && 0 <= t.minute < 60
  }

  // ---------------------------------------------------------------------------------------------
  // Absolute time, the reference the one-hour step is measured against.

  function YearLength(y: int): int {
    if IsLeapYear(y) then 366 else 365
  }

  /** Days from 0000-01-01 to the first day of year y. */
  function DaysBeforeYear(y: nat): nat {
    if y == 0 then 0 else DaysBeforeYear(y - 1) + YearLength(y - 1)
  }

  /** Days from the first of January of year y to the first day of month m (m = 13: the next
      first of January). */
  function DaysBeforeMonth(y: int, m: int): int
    requires 1 <= m <= 13
  {
    var leap := if IsLeapYear(y) && m > 2 then 1 else 0;
    leap + (match m
      case 1 => 0    case 2 => 31   case 3 => 59   case 4 => 90   case 5 => 120
      case 6 => 151  case 7 => 181  case 8 => 212  case 9 => 243  case 10 => 273
      case 11 => 304 case 12 => 334 case _ => 365)
  }

  /** Days from 0000-01-01 to the date of t. */
  function DayNumber(t: DateTime): int
    requires Valid(t)
  {
    DaysBeforeYear(t.year) + DaysBeforeMonth(t.year, t.month) + t.day - 1
  }

  /** The instant t names, in minutes since 0000-01-01T00:00Z. */
  function ToMinutes(t: DateTime): int
    requires Valid(t)
  {
    (DayNumber(t) * 24 + t.hour) * 60 + t.minute - t.offset
  }

  // ---------------------------------------------------------------------------------------------
  // The start time and the end time.

  /** The number a run of ASCII digits spells in decimal. */
  function DecimalValue(d: string): nat
    requires forall k :: 0 <= k < |d| ==> SchedulePattern.IsDigit(d[k])
    decreases |d|
  {
    if d == [] then 0
    else
      assert SchedulePattern.IsDigit(d[|d| - 1]);
      DecimalValue(d[..|d| - 1]) * 10 + (d[|d| - 1] as int - '0' as int)
  }

  /** A leading zero does not change the number: `09` and `9` both spell nine. */
  lemma {:induction false} LeadingZeroIgnored(d: string)
    requires forall k :: 0 <= k < |d| ==> SchedulePattern.IsDigit(d[k])
    ensures DecimalValue("0" + d) == DecimalValue(d)
    decreases |d|
  {
    if d != [] {
      var init := d[..|d| - 1];
      assert ("0" + d)[..|d|] == "0" + init;
      LeadingZeroIgnored(init);
    }
  }

  /**
   * `DateTime::parse_from_rfc3339("{y}-{mo}-{d}T{h}:{mi}:00+09:00").unwrap()`: the time the
   * captured fields name at +09:00, or None (the panic) when they name no calendar time.
   */
  function StartTime(c: SchedulePattern.Captures): (r: Option<DateTime>)
    requires SchedulePattern.FieldsAreDigits(c)
    ensures r.Some? <==>
      && DecimalValue(c.year) <= 9999
      && 1 <= DecimalValue(c.month) <= 12
      && DecimalValue(c.day) <= DaysInMonth(DecimalValue(c.year), DecimalValue(c.month))
      && 1 <= DecimalValue(c.day)
      && DecimalValue(c.hour) < 24 && DecimalValue(c.minute) < 60
    ensures r.Some? ==> Valid(r.value) && r.value.offset == Jst
    ensures r.Some? ==> r.value.year == DecimalValue(c.year) && r.value.month == DecimalValue(c.month)
                        && r.value.day == DecimalValue(c.day) && r.value.hour == DecimalValue(c.hour)
                        && r.value.minute == DecimalValue(c.minute)
  {
    var t := DateTime(DecimalValue(c.year), DecimalValue(c.month), DecimalValue(c.day),
                      DecimalValue(c.hour), DecimalValue(c.minute), Jst);
    if t.year <= 9999 && Valid(t) then Some(t) else None
  }

  /** `start_time + Duration::hours(1)`, carried through the calendar field by field. */
  function AddHour(t: DateTime): (r: DateTime)
    requires Valid(t)
    ensures Valid(r) && r.offset == t.offset && r.minute == t.minute
  {
    if t.hour < 23 then t.(hour := t.hour + 1)
    else if t.day < DaysInMonth(t.year, t.month) then t.(hour := 0, day := t.day + 1)
    else if t.month < 12 then t.(hour := 0, day := 1, month := t.month + 1)
    else t.(hour := 0, day := 1, month := 1, year := t.year + 1)
  }

  // ---------------------------------------------------------------------------------------------
  // The end is exactly one hour after the start.

  lemma {:induction false} DaysBeforeNextMonth(y: int, m: int)
    requires 1 <= m <= 12
    ensures DaysBeforeMonth(y, m + 1) == DaysBeforeMonth(y, m) + DaysInMonth(y, m)
    ensures DaysBeforeMonth(y, 13) == YearLength(y)
  {
  }

  /** AddHour gives a valid time at the same offset, sixty minutes later. */
  lemma {:induction false} AddHourIsOneHourLater(t: DateTime)
    requires Valid(t)
    ensures Valid(AddHour(t)) && AddHour(t).offset == t.offset
    ensures ToMinutes(AddHour(t)) == ToMinutes(t) + 60
  {
    DaysBeforeNextMonth(t.year, t.month);
    if t.hour == 23 && t.day == DaysInMonth(t.year, t.month) && t.month == 12 {
      assert DaysBeforeYear(t.year + 1) == DaysBeforeYear(t.year) + YearLength(t.year);
    }
  }

  lemma {:induction false} DaysBeforeYearGrows(y1: nat, y2: nat)
    requires y1 < y2
    ensures DaysBeforeYear(y1) + YearLength(y1) <= DaysBeforeYear(y2)
    decreases y2
  {
    if y1 + 1 < y2 {
      DaysBeforeYearGrows(y1, y2 - 1);
    }
  }

  lemma {:induction false} DaysBeforeMonthGrows(y: int, m1: int, m2: int)
    requires 1 <= m1 < m2 <= 13
    ensures DaysBeforeMonth(y, m1) + DaysInMonth(y, m1) <= DaysBeforeMonth(y, m2)
  {
  }

  /** Valid times at one offset name different instants. */
  lemma {:induction false} ToMinutesInjective(a: DateTime, b: DateTime)
    requires Valid(a) && Valid(b) && a.offset == b.offset
    requires ToMinutes(a) == ToMinutes(b)
    ensures a == b
  {
    var da, db := DayNumber(a), DayNumber(b);
    assert da == db && a.hour == b.hour && a.minute == b.minute;
    if a.year < b.year {
      DaysBeforeYearGrows(a.year, b.year);
      DaysBeforeNextMonth(a.year, 12);
      DaysBeforeMonthGrows(a.year, a.month, 13);
      assert false;
    } else if b.year < a.year {
      DaysBeforeYearGrows(b.year, a.year);
      DaysBeforeMonthGrows(b.year, b.month, 13);
      assert false;
    }
    if a.month < b.month {
      DaysBeforeMonthGrows(a.year, a.month, b.month);
    } else if b.month < a.month {
      DaysBeforeMonthGrows(a.year, b.month, a.month);
    }
  }

  /** `end_time` is THE time sixty minutes after `start_time` at the same offset. */
  lemma {:induction false} AddHourUnique(t: DateTime, u: DateTime)
    requires Valid(t) && Valid(u) && u.offset == t.offset
    requires ToMinutes(u) == ToMinutes(t) + 60
    ensures u == AddHour(t)
  {
    AddHourIsOneHourLater(t);
    ToMinutesInjective(u, AddHour(t));
  }

  /** The last hour of a year rolls over into the next year. */
  lemma YearRollover()
    ensures AddHour(DateTime(2024, 12, 31, 23, 30, Jst)) == DateTime(2025, 1, 1, 0, 30, Jst)
  {
  }
}
