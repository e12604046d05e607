/** The proleptic Gregorian calendar that `datetime` uses, with instants counted in microseconds. */
module Calendar {

  const SECOND := 1_000_000
  const DAY := 86_400 * SECOND

  /** A UTC date and the microseconds since its midnight. */
  datatype DateTime = DateTime(year: int, month: int, day: int, micros: int)

  predicate Leap(year: int) { year % 4 == 0 && (year % 100 != 0 || year % 400 == 0) }

  function DaysInMonth(year: int, month: int): int {
    if month == 2 then (if Leap(year) then 29 else 28)
    else if month in {4, 6, 9, 11} then 30
    else 31
  }

  function YearLength(year: int): int { if Leap(year) then 366 else 365 }

  predicate Valid(t: DateTime) {
    && 1 <= t.year && 1 <= t.month <= 12
    && 1 <= t.day <= DaysInMonth(t.year, t.month)
    && 0 <= t.micros < DAY
  }

  function DaysBeforeYear(year: int): int
    requires 1 <= year
  {
    if year == 1 then 0 else DaysBeforeYear(year - 1) + YearLength(year - 1)
  }

  function DaysBeforeMonth(year: int, month: int): int
    requires 1 <= month <= 13
  {
    if month == 1 then 0 else DaysBeforeMonth(year, month - 1) + DaysInMonth(year, month - 1)
  }

  function DayNumber(year: int, month: int, day: int): int
    requires 1 <= year && 1 <= month <= 12
  {
    DaysBeforeYear(year) + DaysBeforeMonth(year, month) + day - 1
  }

  function Instant(t: DateTime): int
    requires Valid(t)
  {
    DayNumber(t.year, t.month, t.day) * DAY + t.micros
  }

  function NextMonth(year: int, month: int): (int, int) {
    if month == 12 then (year + 1, 1) else (year, month + 1)
  }

  lemma MonthsFillYear(year: int)
    ensures DaysBeforeMonth(year, 13) == YearLength(year)
  {
    assert DaysBeforeMonth(year, 2) == 31;
    assert DaysBeforeMonth(year, 3) == 31 + DaysInMonth(year, 2);
    assert DaysBeforeMonth(year, 5) == DaysBeforeMonth(year, 3) + 61;
    assert DaysBeforeMonth(year, 7) == DaysBeforeMonth(year, 5) + 61;
    assert DaysBeforeMonth(year, 9) == DaysBeforeMonth(year, 7) + 62;
    assert DaysBeforeMonth(year, 11) == DaysBeforeMonth(year, 9) + 61;
  }

  // ---- The closed form -------------------------------------------------------------------------

  /** The days before a date, counted from the first of January of the year 1: the reference that the
      month table and its sums are held against. */
  function Ordinal(year: int, month: int, day: int): int {
    365 * (year - 1) + (year - 1) / 4 - (year - 1) / 100 + (year - 1) / 400
    + (367 * month - 362) / 12
    - (if month <= 2 then 0 else if year % 4 == 0 && (year % 100 != 0 || year % 400 == 0) then 1 else 2)
    + day - 1
  }

  /** The leap years up to `year`, one rule at a time. */
  function LeapsTo(year: int): int { year / 4 - year / 100 + year / 400 }

  lemma OneYearMore(year: int)
    ensures LeapsTo(year) - LeapsTo(year - 1)
         == (if year % 4 == 0 then 1 else 0) - (if year % 100 == 0 then 1 else 0) + (if year % 400 == 0 then 1 else 0)
  {
    assert year / 4 - (year - 1) / 4 == if year % 4 == 0 then 1 else 0;
    assert year / 100 - (year - 1) / 100 == if year % 100 == 0 then 1 else 0;
    assert year / 400 - (year - 1) / 400 == if year % 400 == 0 then 1 else 0;
  }

  lemma LeapsAreNested(year: int)
    ensures year % 400 == 0 ==> year % 100 == 0
    ensures year % 100 == 0 ==> year % 4 == 0
  {
  }

  lemma {:induction false} YearsInClosedForm(year: int)
    requires 1 <= year
    ensures DaysBeforeYear(year) == 365 * (year - 1) + LeapsTo(year - 1)
  {
    if year > 1 {
      YearsInClosedForm(year - 1);
      OneYearMore(year - 1);
      LeapsAreNested(year - 1);
    }
  }

  lemma {:induction false} MonthsInClosedForm(year: int, month: int)
    requires 1 <= month <= 12
    ensures DaysBeforeMonth(year, month)
         == (367 * month - 362) / 12 - (if month <= 2 then 0 else if Leap(year) then 1 else 2)
  {
    if month > 1 {
      MonthsInClosedForm(year, month - 1);
    }
  }

  /** The days are numbered as the closed form says. */
  lemma DayNumberIsOrdinal(year: int, month: int, day: int)
    requires 1 <= year && 1 <= month <= 12
    ensures DayNumber(year, month, day) == Ordinal(year, month, day)
  {
    YearsInClosedForm(year);
    MonthsInClosedForm(year, month);
  }

  /** The first day of the month after. */
  function NextFirst(year: int, month: int): int {
    if month < 12 then Ordinal(year, month + 1, 1) else Ordinal(year + 1, 1, 1)
  }

  /** The dates of the calendar are those before the first of the next month, for every month; and their
      instants count the microseconds of 24-hour days. */
  lemma DatesByOrdinal(t: DateTime)
    ensures Valid(t)
       <==> && 1 <= t.year && 1 <= t.month <= 12
            && 1 <= t.day && Ordinal(t.year, t.month, t.day) < NextFirst(t.year, t.month)
            && 0 <= t.micros < 86_400_000_000
    ensures Valid(t) ==> Instant(t) == Ordinal(t.year, t.month, t.day) * 86_400_000_000 + t.micros
  {
    if 1 <= t.year && 1 <= t.month <= 12 {
      MonthsAdjoin(t.year, t.month);
      var (year, month) := NextMonth(t.year, t.month);
      DayNumberIsOrdinal(year, month, 1);
      DayNumberIsOrdinal(t.year, t.month, t.day);
      DayNumberIsOrdinal(t.year, t.month, DaysInMonth(t.year, t.month));
    }
  }

  /** The first of the next month comes right after the last of this one, in every month. */
  lemma MonthsAdjoin(year: int, month: int)
    requires 1 <= year && 1 <= month <= 12
    ensures var (y, m) := NextMonth(year, month);
            DayNumber(y, m, 1) == DayNumber(year, month, DaysInMonth(year, month)) + 1
  {
    MonthsFillYear(year);
  }

  lemma {:induction false} YearsInOrder(year: int, later: int)
    requires 1 <= year < later
    ensures DaysBeforeYear(year) + YearLength(year) <= DaysBeforeYear(later)
  {
    if year + 1 < later {
      YearsInOrder(year, later - 1);
    }
  }

  lemma {:induction false} MonthsInOrder(year: int, month: int, later: int)
    requires 1 <= month < later <= 13
    ensures DaysBeforeMonth(year, month) + DaysInMonth(year, month) <= DaysBeforeMonth(year, later)
  {
    if month + 1 < later {
      MonthsInOrder(year, month, later - 1);
    }
  }

  predicate EarlierMonth(a: DateTime, b: DateTime) {
    a.year < b.year || (a.year == b.year && a.month < b.month)
  }

  /** Every day of an earlier month lies before the first day of a later one. */
  lemma EarlierMonthsEndBefore(a: DateTime, b: DateTime)
    requires Valid(a) && Valid(b) && EarlierMonth(a, b)
    ensures DayNumber(a.year, a.month, a.day) < DayNumber(b.year, b.month, 1)
  {
    MonthsFillYear(a.year);
    MonthsInOrder(a.year, a.month, 13);
    if a.year < b.year {
      YearsInOrder(a.year, b.year);
      if b.month > 1 {
        MonthsInOrder(b.year, 1, b.month);
      }
    } else {
      MonthsInOrder(a.year, a.month, b.month);
    }
  }
}
