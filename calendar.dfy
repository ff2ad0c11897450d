/** The proleptic Gregorian calendar, as far as the dashboard uses it.

    pandas keeps the `dteday` column as timestamps: two dates compare as
    instants, `dt.day_name()` gives the English day name, and `resample('M')`
    cuts the time line at calendar-month boundaries.  This module states those
    three things from first principles: a date is a (year, month, day) triple,
    `DayNumber` counts days from 1970-01-01 (the timestamp epoch), weekdays
    follow from the day number, and a month is a (year, month) key with an
    integer index that numbers months consecutively. */
module Calendar {

  datatype CivilDate = CivilDate(year: int, month: int, day: int)

  predicate IsLeapYear(y: int) {
    y % 4 == 0 && (y % 100 != 0 || y % 400 == 0)
  }

  function DaysInMonth(y: int, m: int): (n: int)
    requires 1 <= m <= 12
    ensures 28 <= n <= 31
    ensures n == 29 <==> m == 2 && IsLeapYear(y)
  {
    if m == 2 then (if IsLeapYear(y) then 29 else 28)
    else if m == 4 || m == 6 || m == 9 || m == 11 then 30
    else 31
  }

  function DaysInYear(y: int): int {
    if IsLeapYear(y) then 366 else 365
  }

  predicate IsValid(d: CivilDate) {
    1 <= d.month <= 12 && 1 <= d.day <= DaysInMonth(d.year, d.month)
  }

  /** A calendar date that exists (what a parsed timestamp's date always is). */
  type Date = d: CivilDate | IsValid(d) witness CivilDate(1970, 1, 1)

  /** Number of leap years y' with y' < y, counted from an arbitrary fixed origin;
      only differences of this function are meaningful. */
  function LeapYearsBefore(y: int): int {
    (y - 1) / 4 - (y - 1) / 100 + (y - 1) / 400
  }

  /** Days from 1970-01-01 to the first of January of year y (negative before 1970). */
  function DaysBeforeYear(y: int): int {
    365 * (y - 1970) + LeapYearsBefore(y) - LeapYearsBefore(1970)
  }

  /** Days of year y that come before the first day of month m (m == 13 stands
      for the first day of the next year). */
  function DaysBeforeMonth(y: int, m: int): int
    requires 1 <= m <= 13
  {
    var common := [0, 31, 59, 90, 120, 151, 181, 212, 243, 273, 304, 334, 365][m - 1];
    if m > 2 && IsLeapYear(y) then common + 1 else common
  }

  /** Days since 1970-01-01: the count a timestamp at midnight of date d encodes. */
  function DayNumber(d: Date): int {
    DaysBeforeYear(d.year) + DaysBeforeMonth(d.year, d.month) + d.day - 1
  }

  /** The calendar day after d. */
  function NextDay(d: Date): (e: Date)
    ensures e.year == d.year || (e.year == d.year + 1 && e.month == 1 && e.day == 1)
  {
    if d.day < DaysInMonth(d.year, d.month) then CivilDate(d.year, d.month, d.day + 1)
    else if d.month < 12 then CivilDate(d.year, d.month + 1, 1)
    else CivilDate(d.year + 1, 1, 1)
  }

  /** Calendar (lexicographic) order on dates. */
  predicate Before(a: CivilDate, b: CivilDate) {
    a.year < b.year
    || (a.year == b.year && a.month < b.month)
    || (a.year == b.year && a.month == b.month && a.day < b.day)
  }

  /** Going from y - 1 to y, the quotient by k grows exactly when k divides y. */
  lemma QuotientStep(y: int, k: int)
    requires k == 4 || k == 100 || k == 400
    ensures y / k - (y - 1) / k == (if y % k == 0 then 1 else 0)
  {
    if k == 4 {
      assert y / 4 - (y - 1) / 4 == (if y % 4 == 0 then 1 else 0);
    } else if k == 100 {
      assert y / 100 - (y - 1) / 100 == (if y % 100 == 0 then 1 else 0);
    } else {
      assert y / 400 - (y - 1) / 400 == (if y % 400 == 0 then 1 else 0);
    }
  }

  lemma LeapYearsStep(y: int)
    ensures LeapYearsBefore(y + 1) == LeapYearsBefore(y) + (if IsLeapYear(y) then 1 else 0)
  {
    QuotientStep(y, 4);
    QuotientStep(y, 100);
    QuotientStep(y, 400);
    LeapIndicator(y);
  }

  /** The Gregorian rule as an inclusion-exclusion count over 4, 100 and 400. */
  lemma LeapIndicator(y: int)
    ensures (if y % 4 == 0 then 1 else 0) - (if y % 100 == 0 then 1 else 0) + (if y % 400 == 0 then 1 else 0)
         == (if IsLeapYear(y) then 1 else 0)
  {
    if y % 400 == 0 {
      var q := y / 400;
      assert y == 100 * (4 * q) && y == 4 * (100 * q);
    } else if y % 100 == 0 {
      var q := y / 100;
      assert y == 4 * (25 * q);
    }
  }

  /** Consecutive years are DaysInYear apart. */
  lemma DaysBeforeYearStep(y: int)
    ensures DaysBeforeYear(y + 1) == DaysBeforeYear(y) + DaysInYear(y)
  {
    LeapYearsStep(y);
  }

  /** A whole year y lies before the start of any later year. */
  lemma {:induction false} DaysBeforeYearGrows(y: int, z: int)
    requires y < z
    ensures DaysBeforeYear(y) + DaysInYear(y) <= DaysBeforeYear(z)
    decreases z - y
  {
    DaysBeforeYearStep(y);
    if y + 1 < z {
      DaysBeforeYearGrows(y + 1, z);
      DaysBeforeYearStep(y + 1);
    }
  }

  /** Month m of year y ends where month m + 1 begins. */
  lemma DaysBeforeMonthStep(y: int, m: int)
    requires 1 <= m <= 12
    ensures DaysBeforeMonth(y, m + 1) == DaysBeforeMonth(y, m) + DaysInMonth(y, m)
  {
  }

  lemma DaysBeforeMonthGrows(y: int, m: int, n: int)
    requires 1 <= m < n <= 13
    ensures DaysBeforeMonth(y, m) + DaysInMonth(y, m) <= DaysBeforeMonth(y, n)
  {
  }

  /** Successive calendar days have successive day numbers. */
  lemma DayNumberNextDay(d: Date)
    ensures DayNumber(NextDay(d)) == DayNumber(d) + 1
  {
    DaysBeforeMonthStep(d.year, d.month);
    if d.day == DaysInMonth(d.year, d.month) && d.month == 12 {
      DaysBeforeYearStep(d.year);
    }
  }

  /** Every day of year y has a day number inside that year's span. */
  lemma DayNumberInYear(d: Date)
    ensures DaysBeforeYear(d.year) <= DayNumber(d) < DaysBeforeYear(d.year) + DaysInYear(d.year)
  {
    DaysBeforeMonthGrows(d.year, d.month, 13);
  }

  /** Comparing day numbers (timestamps) is comparing dates on the calendar;
      in particular distinct dates have distinct day numbers. */
  lemma DayNumberOrder(a: Date, b: Date)
    ensures Before(a, b) <==> DayNumber(a) < DayNumber(b)
    ensures a == b <==> DayNumber(a) == DayNumber(b)
  {
    if a.year < b.year {
      DayNumberInYear(a);
      DayNumberInYear(b);
      DaysBeforeYearGrows(a.year, b.year);
    } else if b.year < a.year {
      DayNumberInYear(a);
      DayNumberInYear(b);
      DaysBeforeYearGrows(b.year, a.year);
    } else if a.month < b.month {
      DaysBeforeMonthGrows(a.year, a.month, b.month);
    } else if b.month < a.month {
      DaysBeforeMonthGrows(a.year, b.month, a.month);
    }
  }

  datatype Weekday = Monday | Tuesday | Wednesday | Thursday | Friday | Saturday | Sunday

  /** The display order of the day-of-week chart. */
  const WeekOrder: seq<Weekday> := [Monday, Tuesday, Wednesday, Thursday, Friday, Saturday, Sunday]

  /** The weekday at position i of the week, Monday first. */
  function WeekdayAt(i: int): Weekday
    requires 0 <= i < 7
  {
    if i == 0 then Monday
    else if i == 1 then Tuesday
    else if i == 2 then Wednesday
    else if i == 3 then Thursday
    else if i == 4 then Friday
    else if i == 5 then Saturday
    else Sunday
  }

  /** The English day name of d; 1970-01-01 was a Thursday. */
  function DayName(d: Date): Weekday {
    WeekdayAt((DayNumber(d) + 3) % 7)
  }

  function NextWeekday(w: Weekday): Weekday {
    match w
    case Monday => Tuesday
    case Tuesday => Wednesday
    case Wednesday => Thursday
    case Thursday => Friday
    case Friday => Saturday
    case Saturday => Sunday
    case Sunday => Monday
  }

  /** Day names run through the week in order, one per calendar day. */
  lemma DayNameNextDay(d: Date)
    ensures DayName(NextDay(d)) == NextWeekday(DayName(d))
  {
    DayNumberNextDay(d);
    WeekOrderStep(DayNumber(d) + 3);
  }

  lemma WeekOrderStep(n: int)
    ensures WeekdayAt((n + 1) % 7) == NextWeekday(WeekdayAt(n % 7))
  {
    var k := n % 7;
    assert (n + 1) % 7 == if k == 6 then 0 else k + 1;
  }

  /** Anchors: the epoch, the first day of the bike-share data, a known Monday,
      the last day of a leap year, and the day after February in leap and
      non-leap century years. */
  lemma DayNameAnchors()
    ensures DayName(CivilDate(1970, 1, 1)) == Thursday
    ensures DayName(CivilDate(2011, 1, 1)) == Saturday
    ensures DayName(CivilDate(2024, 1, 1)) == Monday
    ensures DayName(CivilDate(2012, 12, 31)) == Monday
    ensures DayName(CivilDate(2000, 3, 1)) == Wednesday
    ensures DayName(CivilDate(2100, 3, 1)) == Monday
    ensures DayName(CivilDate(1600, 3, 1)) == Wednesday
  {
  }

  /** The key of a calendar month. */
  datatype YearMonth = YearMonth(year: int, month: int)

  function MonthOf(d: Date): YearMonth {
    YearMonth(d.year, d.month)
  }

  /** Months numbered consecutively: January of year y is 12 * y. */
  function MonthIndex(ym: YearMonth): int {
    12 * ym.year + ym.month - 1
  }

  /** The month with index i. */
  function MonthAt(i: int): (ym: YearMonth)
    ensures 1 <= ym.month <= 12
    ensures MonthIndex(ym) == i
  {
    YearMonth(i / 12, i % 12 + 1)
  }

  lemma MonthAtIndex(ym: YearMonth)
    requires 1 <= ym.month <= 12
    ensures MonthAt(MonthIndex(ym)) == ym
  {
    var i := MonthIndex(ym);
    assert i == 12 * ym.year + (ym.month - 1) && 0 <= ym.month - 1 < 12;
    assert i / 12 == ym.year;
  }

  /** Calendar order on months. */
  predicate MonthBefore(a: YearMonth, b: YearMonth) {
    a.year < b.year || (a.year == b.year && a.month < b.month)
  }

  /** Month indices and calendar order on months agree. */
  lemma MonthAtOrder(i: int, j: int)
    ensures i < j <==> MonthBefore(MonthAt(i), MonthAt(j))
  {
  }

  /** A later date never falls in an earlier month. */
  lemma MonthOfMonotone(a: Date, b: Date)
    requires DayNumber(a) <= DayNumber(b)
    ensures MonthIndex(MonthOf(a)) <= MonthIndex(MonthOf(b))
  {
    DayNumberOrder(a, b);
  }
}
