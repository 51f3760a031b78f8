/**
 * The day of the week of a calendar date, in the proleptic Gregorian
 * calendar, counted from 0001-01-01 (a Monday).
 */
module Calendar {

  datatype Weekday = Monday | Tuesday | Wednesday | Thursday | Friday | Saturday | Sunday

  datatype Date = Date(year: int, month: int, day: int)

  predicate IsLeapYear(y: int)
  {
    y % 4 == 0 && (y % 100 != 0 || y % 400 == 0)
  }

  function DaysInMonth(y: int, m: int): (n: int)
    requires 1 <= m <= 12
    ensures 28 <= n <= 31
    ensures m == 2 ==> (n == 29 <==> IsLeapYear(y))
  {
    if m == 2 then (if IsLeapYear(y) then 29 else 28)
    else if m == 4 || m == 6 || m == 9 || m == 11 then 30
    else 31
  }

  function DaysInYear(y: int): int
  {
    if IsLeapYear(y) then 366 else 365
  }

  predicate IsValidDate(d: Date)
  {
    d.year >= 1 && 1 <= d.month <= 12 && 1 <= d.day <= DaysInMonth(d.year, d.month)
  }

  /** Days from 0001-01-01 to the first of January of year `y`. */
  function DaysBeforeYear(y: int): int
    requires y >= 1
  {
    var p := y - 1;
    365 * p + p / 4 - p / 100 + p / 400
  }

  /** Days before each month of a common year; a leap year adds one from March on. */
  const CommonDaysBeforeMonth: seq<int> := [0, 31, 59, 90, 120, 151, 181, 212, 243, 273, 304, 334]

  /** Days from the first of January of year `y` to the first of month `m`. */
  function DaysBeforeMonth(y: int, m: int): (n: nat)
    requires 1 <= m <= 12
    ensures n == CommonDaysBeforeMonth[m - 1] + (if m > 2 && IsLeapYear(y) then 1 else 0)
  {
    if m == 1 then 0 else DaysBeforeMonth(y, m - 1) + DaysInMonth(y, m - 1)
  }

  /** Days elapsed from 0001-01-01 to `d`. */
  function DayNumber(d: Date): (n: nat)
    requires IsValidDate(d)
  {
    DaysBeforeYear(d.year) + DaysBeforeMonth(d.year, d.month) + d.day - 1
  }

  /** The weekday `k` days after a Monday, for `k` from 0 to 6. */
  function WeekdayAfterMonday(k: int): Weekday
    requires 0 <= k < 7
  {
    [Monday, Tuesday, Wednesday, Thursday, Friday, Saturday, Sunday][k]
  }

  /**
   * The day of the week of `d`: 0001-01-01 is a Monday, and each following
   * date moves one weekday on (`NextDayWeekday`).
   */
  function WeekdayOf(d: Date): (w: Weekday)
    requires IsValidDate(d)
    ensures d == Date(1, 1, 1) ==> w == Monday
  {
    WeekdayAfterMonday(DayNumber(d) % 7)
  }

  function NextWeekday(w: Weekday): Weekday
  {
    match w
    case Monday => Tuesday
    case Tuesday => Wednesday
    case Wednesday => Thursday
    case Thursday => Friday
    case Friday => Saturday
    case Saturday => Sunday
    case Sunday => Monday
  }

  /** The calendar date that follows `d`. */
  function NextDay(d: Date): (n: Date)
    requires IsValidDate(d)
    ensures IsValidDate(n)
    ensures n.year == d.year || (n.year == d.year + 1 && n.month == 1 && n.day == 1)
  {
    if d.day < DaysInMonth(d.year, d.month) then Date(d.year, d.month, d.day + 1)
    else if d.month < 12 then Date(d.year, d.month + 1, 1)
    else Date(d.year + 1, 1, 1)
  }

  /** One year's leap day shows up in the year count exactly when the year is a leap year. */
  lemma DaysBeforeNextYear(y: int)
    requires y >= 1
    ensures DaysBeforeYear(y + 1) == DaysBeforeYear(y) + DaysInYear(y)
  {
    assert DaysBeforeYear(y + 1) - DaysBeforeYear(y)
      == 365 + (y / 4 - (y - 1) / 4) - (y / 100 - (y - 1) / 100) + (y / 400 - (y - 1) / 400);
    MultipleStep4(y);
    MultipleStep100(y);
    MultipleStep400(y);
    CenturyDivisibility(y);
  }

  lemma CenturyDivisibility(y: int)
    ensures y % 400 == 0 ==> y % 100 == 0
    ensures y % 100 == 0 ==> y % 4 == 0
  {
    if y % 400 == 0 {
      MultipleOfMultiple(y, 100, 4);
    }
    if y % 100 == 0 {
      MultipleOfMultiple(y, 4, 25);
    }
  }

  /** A multiple of `a * b` is a multiple of `a`. */
  lemma MultipleOfMultiple(y: int, a: int, b: int)
    requires a > 0 && b > 0 && y % (a * b) == 0
    ensures y % a == 0
  {
    var q := y / (a * b);
    assert y == (a * b) * q;
    assert y == a * (b * q);
  }

  lemma MultipleStep4(y: int)
    ensures y / 4 - (y - 1) / 4 == if y % 4 == 0 then 1 else 0
  {
  }

  lemma MultipleStep100(y: int)
    ensures y / 100 - (y - 1) / 100 == if y % 100 == 0 then 1 else 0
  {
  }

  lemma MultipleStep400(y: int)
    ensures y / 400 - (y - 1) / 400 == if y % 400 == 0 then 1 else 0
  {
  }

  /** The twelve months add up to the year. */
  lemma MonthsFillYear(y: int)
    ensures DaysBeforeMonth(y, 12) + DaysInMonth(y, 12) == DaysInYear(y)
  {
  }

  /** The day after `d` is numbered one more than `d`. */
  lemma NextDayNumber(d: Date)
    requires IsValidDate(d)
    ensures DayNumber(NextDay(d)) == DayNumber(d) + 1
  {
    if d.day == DaysInMonth(d.year, d.month) && d.month == 12 {
      MonthsFillYear(d.year);
      DaysBeforeNextYear(d.year);
    }
  }

  /** Consecutive dates fall on consecutive weekdays, across month and year ends. */
  lemma NextDayWeekday(d: Date)
    requires IsValidDate(d)
    ensures WeekdayOf(NextDay(d)) == NextWeekday(WeekdayOf(d))
  {
    NextDayNumber(d);
    NextIndexWeekday(DayNumber(d));
  }

  lemma NextIndexWeekday(n: nat)
    ensures WeekdayAfterMonday((n + 1) % 7) == NextWeekday(WeekdayAfterMonday(n % 7))
  {
    assert (n + 1) % 7 == if n % 7 == 6 then 0 else n % 7 + 1;
  }

  /** Fixed points of the calendar: 1970-01-01 was a Thursday and 2024-01-01 a Monday. */
  lemma KnownWeekdays()
    ensures WeekdayOf(Date(1970, 1, 1)) == Thursday
    ensures WeekdayOf(Date(2024, 1, 1)) == Monday
  {
  }
}
