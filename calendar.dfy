/** Gregorian calendar helpers standing in for `getDaysInYear` and
    `getDayOfYear` of the date library. */
module Calendar {

  /** A calendar date; `month` is 1-based (January is 1). */
  datatype Date = Date(year: int, month: int, day: int)

  /** Gregorian leap-year rule. */
  predicate IsLeapYear(y: int) {
    y % 4 == 0 && (y % 100 != 0 || y % 400 == 0)
  }

  /** Number of days of month `m` in year `y`. */
  function DaysInMonth(y: int, m: int): (r: nat)
    requires 1 <= m <= 12
    ensures 28 <= r <= 31
    ensures m == 2 ==> (r == 29 <==> IsLeapYear(y))
  {
    if m == 2 then (if IsLeapYear(y) then 29 else 28)
    else if m == 4 || m == 6 || m == 9 || m == 11 then 30
    else 31
  }

  /** The date names a day that exists. */
  predicate ValidDate(d: Date) {
    1 <= d.month <= 12 && 1 <= d.day <= DaysInMonth(d.year, d.month)
  }

  /** Number of days of year `y` before the first day of month `m`
      (`m == 13` gives the whole year). */
  function DaysBefore(y: int, m: int): (r: nat)
    requires 1 <= m <= 13
    decreases m
  {
    if m == 1 then 0 else DaysBefore(y, m - 1) + DaysInMonth(y, m - 1)
  }

  /** Number of days of year `y` (`getDaysInYear`). */
  function DaysInYear(y: int): (r: nat)
    ensures r == 365 || r == 366
    ensures r == 366 <==> IsLeapYear(y)
  {
    if IsLeapYear(y) then 366 else 365
  }

  /** The months of a year add up to the year. */
  lemma MonthsMakeTheYear(y: int)
    ensures DaysBefore(y, 13) == DaysInYear(y)
  {
  }

  /** A month that starts later starts after the earlier month has ended. */
  lemma {:induction false} DaysBeforeGrows(y: int, m1: int, m2: int)
    requires 1 <= m1 < m2 <= 13
    ensures DaysBefore(y, m1) + DaysInMonth(y, m1) <= DaysBefore(y, m2)
    decreases m2 - m1
  {
    if m1 + 1 < m2 {
      DaysBeforeGrows(y, m1 + 1, m2);
    }
  }

  /** 1-based ordinal of the day within its year (`getDayOfYear`). */
  function DayOfYear(d: Date): (r: nat)
    requires ValidDate(d)
    ensures 1 <= r <= DaysInYear(d.year)
  {
    DaysBeforeGrows(d.year, d.month, 13);
    MonthsMakeTheYear(d.year);
    DaysBefore(d.year, d.month) + d.day
  }

  /** `d1` comes strictly before `d2` in the same year. */
  predicate EarlierInYear(d1: Date, d2: Date) {
    d1.year == d2.year &&
    (d1.month < d2.month || (d1.month == d2.month && d1.day < d2.day))
  }

  /** Day numbers strictly increase through the year, so distinct dates of a
      year have distinct day numbers. */
  lemma DayOfYearIncreases(d1: Date, d2: Date)
    requires ValidDate(d1) && ValidDate(d2) && EarlierInYear(d1, d2)
    ensures DayOfYear(d1) < DayOfYear(d2)
  {
    if d1.month < d2.month {
      DaysBeforeGrows(d1.year, d1.month, d2.month);
    }
  }

  /** January 1 is day 1 and December 31 is the last day of the year. */
  lemma YearEnds(y: int)
    ensures DayOfYear(Date(y, 1, 1)) == 1
    ensures DayOfYear(Date(y, 12, 31)) == DaysInYear(y)
  {
  }

  /** Leap years have 366 days: 2024 and 2000, but not 2023 or 1900. */
  lemma LeapYearExamples()
    ensures DaysInYear(2024) == 366 && DaysInYear(2000) == 366
    ensures DaysInYear(2023) == 365 && DaysInYear(1900) == 365
  {
  }
}
