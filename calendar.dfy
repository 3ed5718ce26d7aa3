/** The proleptic Gregorian calendar as Python's `datetime.date` uses it:
    day numbers counted from 1970-01-01, the weekday numbering of
    `date.weekday()` (Monday is 0) and ISO 8601 week numbers (`%V`). */
module Calendar {

  datatype Date = Date(year: int, month: int, day: int)

  predicate IsLeapYear(y: int) {
    y % 4 == 0 && (y % 100 != 0 || y % 400 == 0)
  }

  function YearLength(y: int): int {
    if IsLeapYear(y) then 366 else 365
  }

  function DaysInMonth(y: int, m: int): (n: int)
    requires 1 <= m <= 12
    ensures 28 <= n <= 31
  {
    if m == 2 then (if IsLeapYear(y) then 29 else 28)
    else if m == 4 || m == 6 || m == 9 || m == 11 then 30
    else 31
  }

  /** The dates `datetime.date` can represent (years 1 to 9999). */
  predicate ValidDate(d: Date) {
    && 1 <= d.year <= 9999
    && 1 <= d.month <= 12
    && 1 <= d.day <= DaysInMonth(d.year, d.month)
  }

  /** Number of leap years among 1 .. y - 1 (floor division also gives the
      right count for y <= 0). */
  function LeapsBefore(y: int): int {
    (y - 1) / 4 - (y - 1) / 100 + (y - 1) / 400
  }

  /** Day number of January 1 of year `y`, with 1970-01-01 as day 0. */
  function DaysBeforeYear(y: int): int {
    365 * (y - 1970) + LeapsBefore(y) - LeapsBefore(1970)
  }

  /** Days in the months before month `m` of year `y`. */
  function DaysBeforeMonth(y: int, m: int): (n: int)
    requires 1 <= m <= 12
    ensures n >= 0
  {
    if m == 1 then 0 else DaysBeforeMonth(y, m - 1) + DaysInMonth(y, m - 1)
  }

  /** Each month before `m` contributes between 28 and 31 days. */
  lemma {:induction false} DaysBeforeMonthBounds(y: int, m: int)
    requires 1 <= m <= 12
    ensures 28 * (m - 1) <= DaysBeforeMonth(y, m) <= 31 * (m - 1)
  {
    if m > 1 {
      DaysBeforeMonthBounds(y, m - 1);
    }
  }

  /** Day number of a date: days since 1970-01-01 (negative before it). */
  function DaysFromEpoch(d: Date): int
    requires ValidDate(d)
  {
    DaysBeforeYear(d.year) + DaysBeforeMonth(d.year, d.month) + d.day - 1
  }

  /** The calendar's next day, defined without day numbers. */
  function NextDay(d: Date): (n: Date)
    requires ValidDate(d)
  {
    if d.day < DaysInMonth(d.year, d.month) then Date(d.year, d.month, d.day + 1)
    else if d.month < 12 then Date(d.year, d.month + 1, 1)
    else Date(d.year + 1, 1, 1)
  }

  /** `date.weekday()`: Monday is 0, Sunday is 6; 1970-01-01 was a Thursday. */
  function Weekday(d: Date): (w: int)
    requires ValidDate(d)
    ensures 0 <= w < 7
  {
    (DaysFromEpoch(d) + 3) % 7
  }

  // ---------------------------------------------------------------------------
  // Day numbers

  /** Euclidean division by 7 of a value written as 7 * q + t with 0 <= t < 14. */
  lemma {:induction false} DivSeven(x: int, q: int, t: int)
    requires x == 7 * q + t && 0 <= t < 14
    ensures x % 7 == (if t < 7 then t else t - 7)
    ensures x / 7 == (if t < 7 then q else q + 1)
  {
  }

  lemma {:induction false} DivStep(y: int, k: int)
    requires k == 4 || k == 100 || k == 400
    ensures y / k - (y - 1) / k == if y % k == 0 then 1 else 0
  {
    if k == 4 {
      assert y / 4 - (y - 1) / 4 == if y % 4 == 0 then 1 else 0;
    } else if k == 100 {
      assert y / 100 - (y - 1) / 100 == if y % 100 == 0 then 1 else 0;
    } else {
      assert y / 400 - (y - 1) / 400 == if y % 400 == 0 then 1 else 0;
    }
  }

  lemma {:induction false} DivisorsNest(y: int)
    ensures y % 400 == 0 ==> y % 100 == 0
    ensures y % 100 == 0 ==> y % 4 == 0
  {
    if y % 400 == 0 {
      var q := y / 400;
      assert y == 400 * q;
      MultipleOfHundred(y, 4 * q);
    }
    if y % 100 == 0 {
      var q := y / 100;
      assert y == 100 * q;
      MultipleOfFour(y, 25 * q);
    }
  }

  lemma {:induction false} MultipleOfHundred(x: int, q: int)
    requires x == 100 * q
    ensures x % 100 == 0
  {
  }

  lemma {:induction false} MultipleOfFour(x: int, q: int)
    requires x == 4 * q
    ensures x % 4 == 0
  {
  }

  lemma {:induction false} YearStep(y: int)
    ensures DaysBeforeYear(y + 1) == DaysBeforeYear(y) + YearLength(y)
  {
    DivStep(y, 4);
    DivStep(y, 100);
    DivStep(y, 400);
    DivisorsNest(y);
    var steps := (y / 4 - (y - 1) / 4) - (y / 100 - (y - 1) / 100) + (y / 400 - (y - 1) / 400);
    assert LeapsBefore(y + 1) - LeapsBefore(y) == steps;
    assert steps == if IsLeapYear(y) then 1 else 0;
  }

  lemma {:induction false} MonthsFitYear(y: int, m: int)
    requires 1 <= m <= 12
    ensures DaysBeforeMonth(y, m) + DaysInMonth(y, m) <= YearLength(y)
    ensures m == 12 ==> DaysBeforeMonth(y, m) + DaysInMonth(y, m) == YearLength(y)
  {
    var feb := DaysInMonth(y, 2);
    assert DaysBeforeMonth(y, 2) == 31;
    assert DaysBeforeMonth(y, 3) == 31 + feb;
    assert DaysBeforeMonth(y, 4) == 62 + feb;
    assert DaysBeforeMonth(y, 5) == 92 + feb;
    assert DaysBeforeMonth(y, 6) == 123 + feb;
    assert DaysBeforeMonth(y, 7) == 153 + feb;
    assert DaysBeforeMonth(y, 8) == 184 + feb;
    assert DaysBeforeMonth(y, 9) == 215 + feb;
    assert DaysBeforeMonth(y, 10) == 245 + feb;
    assert DaysBeforeMonth(y, 11) == 276 + feb;
    assert DaysBeforeMonth(y, 12) == 306 + feb;
    if m < 12 {
      MonthsGrow(y, m, 12);
    }
  }

  lemma {:induction false} MonthsGrow(y: int, m: int, m': int)
    requires 1 <= m < m' <= 12
    ensures DaysBeforeMonth(y, m) + DaysInMonth(y, m) <= DaysBeforeMonth(y, m')
  {
    if m' > m + 1 {
      MonthsGrow(y, m, m' - 1);
    }
  }

  lemma {:induction false} EpochIsDayZero()
    ensures DaysFromEpoch(Date(1970, 1, 1)) == 0
    ensures Weekday(Date(1970, 1, 1)) == 3
  {
  }

  /** The day number counts calendar days: the next day is one further. */
  lemma {:induction false} NextDayIsOneLater(d: Date)
    requires ValidDate(d) && d.year < 9999
    ensures ValidDate(NextDay(d))
    ensures DaysFromEpoch(NextDay(d)) == DaysFromEpoch(d) + 1
    ensures Weekday(NextDay(d)) == (Weekday(d) + 1) % 7
  {
    NextDayNumber(d);
    ModSevenStep(DaysFromEpoch(d) + 3);
  }

  lemma {:induction false} NextDayNumber(d: Date)
    requires ValidDate(d) && d.year < 9999
    ensures ValidDate(NextDay(d))
    ensures DaysFromEpoch(NextDay(d)) == DaysFromEpoch(d) + 1
  {
    if d.day == DaysInMonth(d.year, d.month) && d.month == 12 {
      MonthsFitYear(d.year, 12);
      YearStep(d.year);
    }
  }

  lemma {:induction false} ModSevenStep(x: int)
    ensures (x + 1) % 7 == (x % 7 + 1) % 7
  {
  }

  lemma {:induction false} YearsGrow(y: int, y': int)
    requires y < y'
    ensures DaysBeforeYear(y) + YearLength(y) <= DaysBeforeYear(y')
    decreases y' - y
  {
    YearStep(y);
    if y' > y + 1 {
      YearsGrow(y + 1, y');
    }
  }

  /** Chronological order of dates, field by field. */
  predicate DateBefore(a: Date, b: Date) {
    || a.year < b.year
    || (a.year == b.year && a.month < b.month)
    || (a.year == b.year && a.month == b.month && a.day < b.day)
  }

  lemma {:induction false} DayNumberStrictlyMonotonic(a: Date, b: Date)
    requires ValidDate(a) && ValidDate(b)
    ensures DateBefore(a, b) <==> DaysFromEpoch(a) < DaysFromEpoch(b)
  {
    if DateBefore(a, b) {
      BeforeMeansSmaller(a, b);
    } else if a == b {
    } else {
      assert DateBefore(b, a);
      BeforeMeansSmaller(b, a);
    }
  }

  lemma {:induction false} BeforeMeansSmaller(a: Date, b: Date)
    requires ValidDate(a) && ValidDate(b) && DateBefore(a, b)
    ensures DaysFromEpoch(a) < DaysFromEpoch(b)
  {
    if a.year < b.year {
      MonthsFitYear(a.year, a.month);
      YearsGrow(a.year, b.year);
    } else if a.month < b.month {
      MonthsGrow(a.year, a.month, b.month);
    }
  }

  // ---------------------------------------------------------------------------
  // ISO 8601 week dates (ISO 8601:2004 section 4.1.4)

  /** Day of the year, 1 for January 1. */
  function Ordinal(d: Date): int
    requires ValidDate(d)
  {
    DaysBeforeMonth(d.year, d.month) + d.day
  }

  /** Weekday of January 1 of `y`, in `date.weekday()` numbering. */
  function NewYearWeekday(y: int): int {
    (DaysBeforeYear(y) + 3) % 7
  }

  /** An ISO year has 53 weeks when it starts on a Thursday, or is a leap year
      starting on a Wednesday; otherwise 52. */
  function WeeksInYear(y: int): (n: int)
    ensures n == 52 || n == 53
  {
    var j := NewYearWeekday(y);
    if j == 3 || (IsLeapYear(y) && j == 2) then 53 else 52
  }

  datatype IsoWeek = IsoWeek(year: int, week: int)

  /** `%G` and `%V`: the ISO year and week number of a date, computed from the
      day of the year and the weekday as the C library does. */
  function IsoWeekOf(d: Date): (w: IsoWeek)
    requires ValidDate(d)
  {
    var raw := (Ordinal(d) - (Weekday(d) + 1) + 10) / 7;
    if raw < 1 then IsoWeek(d.year - 1, WeeksInYear(d.year - 1))
    else if raw > WeeksInYear(d.year) then IsoWeek(d.year + 1, 1)
    else IsoWeek(d.year, raw)
  }

  /** Day number of the Monday that starts a date's week. */
  function MondayOf(d: Date): int
    requires ValidDate(d)
  {
    DaysFromEpoch(d) - Weekday(d)
  }

  /** Day number of the Monday of ISO week 1 of year `y`: the week holding January 4. */
  function FirstIsoMonday(y: int): int {
    var jan4 := DaysBeforeYear(y) + 3;
    jan4 - (jan4 + 3) % 7
  }

  /** ISO week 1 of `y + 1` starts exactly `WeeksInYear(y)` weeks after week 1 of `y`. */
  lemma {:induction false} IsoYearSpan(y: int)
    ensures FirstIsoMonday(y + 1) == FirstIsoMonday(y) + 7 * WeeksInYear(y)
  {
    YearStep(y);
    var j, l := DaysBeforeYear(y), YearLength(y);
    var q, r := (j + 6) / 7, (j + 6) % 7;
    DivSeven(j + 6, q, r);
    DivSeven(j + 3, q - 1, r + 4);
    DivSeven(j + l + 6, q + 52, r + l - 364);
  }

  lemma {:induction false} FirstIsoMondayGrows(y: int, y': int)
    requires y < y'
    ensures FirstIsoMonday(y) + 7 * WeeksInYear(y) <= FirstIsoMonday(y')
    decreases y' - y
  {
    IsoYearSpan(y);
    if y' > y + 1 {
      FirstIsoMondayGrows(y + 1, y');
    }
  }

  /** A date's Monday and the first ISO Monday of its calendar year, in whole
      weeks (`7 * a - 3` and `7 * c - 3`), and the C library's raw week number
      in those terms. */
  lemma {:induction false} MondayWeeks(d: Date) returns (a: int, c: int)
    requires ValidDate(d)
    ensures MondayOf(d) == 7 * a - 3 && FirstIsoMonday(d.year) == 7 * c - 3
    ensures (Ordinal(d) - (Weekday(d) + 1) + 10) / 7 == a - c + 1
    ensures -1 <= a - c <= 52
    ensures IsoWeekOf(d) == if a - c < 0 then IsoWeek(d.year - 1, WeeksInYear(d.year - 1))
                            else if a - c + 1 > WeeksInYear(d.year) then IsoWeek(d.year + 1, 1)
                            else IsoWeek(d.year, a - c + 1)
  {
    var y, n, j := d.year, DaysFromEpoch(d), DaysBeforeYear(d.year);
    MonthsFitYear(y, d.month);
    assert j <= n < j + YearLength(y);
    var b, r;
    a, b := (n + 3) / 7, (n + 3) % 7;
    DivSeven(n + 3, a, b);
    c, r := (j + 6) / 7, (j + 6) % 7;
    DivSeven(j + 6, c, r);
    DivSeven(Ordinal(d) - (Weekday(d) + 1) + 10, a - c + 1, 6 - r);
  }

  /** IsoWeekLocatesMonday for a date in the last ISO week of the year before. */
  lemma {:induction false} MondayInPreviousIsoYear(d: Date)
    requires ValidDate(d) && IsoWeekOf(d).year < d.year
    ensures 1 <= IsoWeekOf(d).week <= WeeksInYear(IsoWeekOf(d).year)
    ensures MondayOf(d) == FirstIsoMonday(IsoWeekOf(d).year) + 7 * (IsoWeekOf(d).week - 1)
  {
    var a, c := MondayWeeks(d);
    IsoYearSpan(d.year - 1);
  }

  /** IsoWeekLocatesMonday for a date in ISO week 1 of the year after. */
  lemma {:induction false} MondayInNextIsoYear(d: Date)
    requires ValidDate(d) && IsoWeekOf(d).year > d.year
    ensures 1 <= IsoWeekOf(d).week <= WeeksInYear(IsoWeekOf(d).year)
    ensures MondayOf(d) == FirstIsoMonday(IsoWeekOf(d).year) + 7 * (IsoWeekOf(d).week - 1)
  {
    var a, c := MondayWeeks(d);
    IsoYearSpan(d.year);
  }

  /** The ISO week number locates the week's Monday: week `w` of ISO year `Y`
      starts `w - 1` weeks after the first ISO Monday of `Y`. */
  lemma {:induction false} IsoWeekLocatesMonday(d: Date)
    requires ValidDate(d)
    ensures 1 <= IsoWeekOf(d).week <= WeeksInYear(IsoWeekOf(d).year)
    ensures MondayOf(d) == FirstIsoMonday(IsoWeekOf(d).year) + 7 * (IsoWeekOf(d).week - 1)
  {
    if IsoWeekOf(d).year < d.year {
      MondayInPreviousIsoYear(d);
    } else if IsoWeekOf(d).year > d.year {
      MondayInNextIsoYear(d);
    } else {
      var a, c := MondayWeeks(d);
    }
  }

  /** Two dates share an ISO (year, week) exactly when they share a Monday. */
  lemma {:induction false} SameIsoWeekIffSameMonday(a: Date, b: Date)
    requires ValidDate(a) && ValidDate(b)
    ensures IsoWeekOf(a) == IsoWeekOf(b) <==> MondayOf(a) == MondayOf(b)
  {
    IsoWeekLocatesMonday(a);
    IsoWeekLocatesMonday(b);
    var wa, wb := IsoWeekOf(a), IsoWeekOf(b);
    if wa.year < wb.year {
      FirstIsoMondayGrows(wa.year, wb.year);
    } else if wb.year < wa.year {
      FirstIsoMondayGrows(wb.year, wa.year);
    }
  }

  /** ISO weeks in (year, week) order are weeks in chronological order. */
  lemma {:induction false} IsoWeekOrderIsChronological(a: Date, b: Date)
    requires ValidDate(a) && ValidDate(b)
    ensures IsoWeekBefore(IsoWeekOf(a), IsoWeekOf(b)) <==> MondayOf(a) < MondayOf(b)
  {
    IsoWeekLocatesMonday(a);
    IsoWeekLocatesMonday(b);
    var wa, wb := IsoWeekOf(a), IsoWeekOf(b);
    if wa.year < wb.year {
      FirstIsoMondayGrows(wa.year, wb.year);
    } else if wb.year < wa.year {
      FirstIsoMondayGrows(wb.year, wa.year);
    }
  }

  predicate IsoWeekBefore(a: IsoWeek, b: IsoWeek) {
    a.year < b.year || (a.year == b.year && a.week < b.week)
  }
}
