/** The proleptic Gregorian calendar, and its inverse: the date and time of day
    of every second before and after the Unix epoch. */
module Calendar {

  predicate IsLeap(year: int) {
    year % 4 == 0 && (year % 100 != 0 || year % 400 == 0)
  }

  function DaysInMonth(year: int, month: int): int
    requires 1 <= month <= 12
  {
    if month == 2 then (if IsLeap(year) then 29 else 28)
    else if month == 4 || month == 6 || month == 9 || month == 11 then 30
    else 31
  }

  datatype Date = Date(year: int, month: int, day: int)

  predicate ValidDate(d: Date) {
    1 <= d.month <= 12 && 1 <= d.day <= DaysInMonth(d.year, d.month)
  }

  /** The day after, by the rules of the calendar alone. */
  function NextDay(d: Date): Date
    requires ValidDate(d)
  {
    if d.day < DaysInMonth(d.year, d.month) then Date(d.year, d.month, d.day + 1)
    else if d.month < 12 then Date(d.year, d.month + 1, 1)
    else Date(d.year + 1, 1, 1)
  }

  // ---------------------------------------------------------------------
  // Days.

  /** Days from 0000-01-01 to the first of January of `year`. */
  function DaysBeforeYear(year: int): int {
    365 * year + (year + 3) / 4 - (year + 99) / 100 + (year + 399) / 400
  }

  /** Days from the first of January to the first of `month`. */
  function DaysBeforeMonth(year: int, month: int): int
    requires 1 <= month <= 13
  {
    [0, 31, 59, 90, 120, 151, 181, 212, 243, 273, 304, 334, 365][month - 1]
    + (if month > 2 && IsLeap(year) then 1 else 0)
  }

  /** 1970-01-01, counted from 0000-01-01. */
  const EPOCH_DAY: int := 719_528

  /** Days from 1970-01-01. */
  function DayNumber(d: Date): int
    requires ValidDate(d)
  {
    DaysBeforeYear(d.year) + DaysBeforeMonth(d.year, d.month) + d.day - 1 - EPOCH_DAY
  }

  lemma YearLength(year: int)
    ensures DaysBeforeYear(year + 1) - DaysBeforeYear(year) == if IsLeap(year) then 366 else 365
  {
    assert (year + 4) / 4 - (year + 3) / 4 == if year % 4 == 0 then 1 else 0;
    assert (year + 100) / 100 - (year + 99) / 100 == if year % 100 == 0 then 1 else 0;
    assert (year + 400) / 400 - (year + 399) / 400 == if year % 400 == 0 then 1 else 0;
    assert year % 100 == 0 ==> year % 4 == 0;
    assert year % 400 == 0 ==> year % 100 == 0;
  }

  lemma MonthLength(year: int, month: int)
    requires 1 <= month <= 12
    ensures DaysBeforeMonth(year, month + 1) == DaysBeforeMonth(year, month) + DaysInMonth(year, month)
  {
  }

  /** The day number counts the calendar's days: 1970-01-01 is day 0, and the day
      after is one more. */
  lemma DayNumberCounts(d: Date)
    requires ValidDate(d)
    ensures DayNumber(Date(1970, 1, 1)) == 0
    ensures ValidDate(NextDay(d)) && DayNumber(NextDay(d)) == DayNumber(d) + 1
  {
    YearLength(d.year);
    MonthLength(d.year, d.month);
  }

  /** The year a day counted from 0000-01-01 falls in: the mean year length gives
      it to within one. */
  function YearOf(day: int): int {
    var guess := 400 * day / 146_097;
    if day < DaysBeforeYear(guess) then guess - 1
    else if DaysBeforeYear(guess + 1) <= day then guess + 1
    else guess
  }

  /** The last month up to `month` that starts at or before a day of the year. */
  function MonthFrom(year: int, day: int, month: int): (m: int)
    requires 1 <= month <= 12
    ensures 1 <= m <= month
  {
    if month == 1 || DaysBeforeMonth(year, month) <= day then month else MonthFrom(year, day, month - 1)
  }

  /** The date of a day counted from 1970-01-01. */
  function DateOf(n: int): Date {
    var year := YearOf(n + EPOCH_DAY);
    DateInYear(year, n + EPOCH_DAY - DaysBeforeYear(year))
  }

  /** The date of a day counted from the first of January of `year`. */
  function DateInYear(year: int, day: int): Date {
    var month := MonthFrom(year, day, 12);
    Date(year, month, day - DaysBeforeMonth(year, month) + 1)
  }

  /** Leap days keep the year starts within a day or two of the mean. */
  lemma YearStartNearMean(year: int)
    ensures 146_097 * year - 396 <= 400 * DaysBeforeYear(year) <= 146_097 * year + 699
  {
    assert year <= 4 * ((year + 3) / 4) <= year + 3;
    assert year <= 100 * ((year + 99) / 100) <= year + 99;
    assert year <= 400 * ((year + 399) / 400) <= year + 399;
  }

  lemma YearOfBrackets(day: int)
    ensures DaysBeforeYear(YearOf(day)) <= day < DaysBeforeYear(YearOf(day) + 1)
  {
    var guess := 400 * day / 146_097;
    assert 146_097 * guess <= 400 * day < 146_097 * (guess + 1);
    YearStartNearMean(guess - 1);
    YearStartNearMean(guess);
    YearStartNearMean(guess + 1);
    YearStartNearMean(guess + 2);
  }

  lemma {:induction false} YearStartsIncrease(a: int, b: int)
    requires a < b
    ensures DaysBeforeYear(a) < DaysBeforeYear(b)
    decreases b - a
  {
    YearLength(b - 1);
    if a < b - 1 {
      YearStartsIncrease(a, b - 1);
    }
  }

  lemma {:induction false} MonthFromBrackets(year: int, day: int, month: int)
    requires 1 <= month <= 12 && 0 <= day < DaysBeforeMonth(year, month + 1)
    ensures var m := MonthFrom(year, day, month);
            1 <= m <= month && DaysBeforeMonth(year, m) <= day < DaysBeforeMonth(year, m + 1)
  {
    if month > 1 && DaysBeforeMonth(year, month) > day {
      MonthFromBrackets(year, day, month - 1);
    }
  }

  lemma DateInYearIsInverse(year: int, day: int)
    requires 0 <= day < if IsLeap(year) then 366 else 365
    ensures var d := DateInYear(year, day);
            && d.year == year && ValidDate(d)
            && DaysBeforeMonth(year, d.month) + d.day - 1 == day
  {
    MonthFromBrackets(year, day, 12);
    MonthLength(year, MonthFrom(year, day, 12));
  }

  /** Every day number is that of exactly the date `DateOf` gives. */
  lemma DateOfIsInverse(n: int)
    ensures ValidDate(DateOf(n)) && DayNumber(DateOf(n)) == n
  {
    hide YearOf, DateInYear, DaysBeforeYear, DaysBeforeMonth;
    var year := YearOf(n + EPOCH_DAY);
    YearOfBrackets(n + EPOCH_DAY);
    YearLength(year);
    DateInYearIsInverse(year, n + EPOCH_DAY - DaysBeforeYear(year));
  }

  lemma {:induction false} MonthStartsIncrease(year: int, a: int, b: int)
    requires 1 <= a < b <= 13
    ensures DaysBeforeMonth(year, a) + DaysInMonth(year, a) <= DaysBeforeMonth(year, b)
    decreases b - a
  {
    MonthLength(year, a);
    if a + 1 < b {
      MonthStartsIncrease(year, a + 1, b);
    }
  }

  lemma DayInYear(d: Date)
    requires ValidDate(d)
    ensures DaysBeforeYear(d.year) <= DayNumber(d) + EPOCH_DAY < DaysBeforeYear(d.year + 1)
  {
    YearLength(d.year);
    MonthStartsIncrease(d.year, d.month, 13);
  }

  /** Dates with one day number are one date. */
  lemma DayNumberIsInjective(d: Date, e: Date)
    requires ValidDate(d) && ValidDate(e) && DayNumber(d) == DayNumber(e)
    ensures d == e
  {
    DayInYear(d);
    DayInYear(e);
    if d.year < e.year {
      YearStartsIncrease(d.year, e.year);
      if d.year + 1 < e.year { YearStartsIncrease(d.year + 1, e.year); }
    } else if e.year < d.year {
      if e.year + 1 < d.year { YearStartsIncrease(e.year + 1, d.year); }
    } else if d.month < e.month {
      MonthStartsIncrease(d.year, d.month, e.month);
    } else if e.month < d.month {
      MonthStartsIncrease(d.year, e.month, d.month);
    }
  }

  lemma DateOfDayNumber(d: Date)
    requires ValidDate(d)
    ensures DateOf(DayNumber(d)) == d
  {
    DateOfIsInverse(DayNumber(d));
    DayNumberIsInjective(DateOf(DayNumber(d)), d);
  }

  // ---------------------------------------------------------------------
  // Seconds.

  datatype DateTime = DateTime(date: Date, hour: int, minute: int, second: int)

  predicate ValidDateTime(t: DateTime) {
    ValidDate(t.date) && 0 <= t.hour < 24 && 0 <= t.minute < 60 && 0 <= t.second < 60
  }

  /** Seconds from 1970-01-01T00:00:00, no leap seconds counted. */
  function SecondNumber(t: DateTime): int
    requires ValidDateTime(t)
  {
    86_400 * DayNumber(t.date) + 3600 * t.hour + 60 * t.minute + t.second
  }

  /** The civil time of a second counted from 1970-01-01T00:00:00. */
  function CivilAt(second: int): DateTime {
    var ofDay := second % 86_400;
    DateTime(DateOf(second / 86_400), ofDay / 3600, ofDay / 60 % 60, ofDay % 60)
  }

  lemma TimeOfDay(ofDay: int)
    requires 0 <= ofDay < 86_400
    ensures 0 <= ofDay / 3600 < 24
    ensures 3600 * (ofDay / 3600) + 60 * (ofDay / 60 % 60) + ofDay % 60 == ofDay
  {
    assert ofDay / 60 / 60 == ofDay / 3600;
  }

  lemma CivilAtIsInverse(second: int)
    ensures ValidDateTime(CivilAt(second)) && SecondNumber(CivilAt(second)) == second
  {
    DateOfIsInverse(second / 86_400);
    TimeOfDay(second % 86_400);
  }

  lemma SecondNumberIsInjective(t: DateTime, u: DateTime)
    requires ValidDateTime(t) && ValidDateTime(u) && SecondNumber(t) == SecondNumber(u)
    ensures t == u
  {
    DayNumberIsInjective(t.date, u.date);
  }

  /** Each civil time is that of exactly one second. */
  lemma CivilAtSecondNumber(t: DateTime)
    requires ValidDateTime(t)
    ensures CivilAt(SecondNumber(t)) == t
  {
    CivilAtIsInverse(SecondNumber(t));
    SecondNumberIsInjective(CivilAt(SecondNumber(t)), t);
  }

  /** A second's year is bounded by the civil times around it. */
  lemma YearBetween(second: int, first: int, last: int)
    requires SecondNumber(DateTime(Date(first, 1, 1), 0, 0, 0)) <= second
    requires second <= SecondNumber(DateTime(Date(last, 12, 31), 23, 59, 59))
    ensures first <= CivilAt(second).date.year <= last
  {
    hide CivilAt, IsLeap;
    CivilAtIsInverse(second);
    var d := CivilAt(second).date;
    DayInYear(d);
    DayInYear(Date(last, 12, 31));
    if d.year < first {
      if d.year + 1 < first { YearStartsIncrease(d.year + 1, first); }
      assert false;
    }
    if last < d.year {
      if last + 1 < d.year { YearStartsIncrease(last + 1, d.year); }
      assert false;
    }
  }
}
