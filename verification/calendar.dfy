/** The Gregorian calendar and naive date-times, with unbounded years.

    It is what the cron engine uses of Python's `datetime`: the length of months and
    years, the number of a day counted from 1 January of year 1, and weekdays. */
module Calendar {
  datatype Date = Date(y: int, m: int, d: int)

  /** A naive date-time on a whole minute. */
  datatype Time = Time(date: Date, hour: int, minute: int)

  /** A naive date-time with its seconds and microseconds. */
  datatype Moment = Moment(time: Time, micros: int)

  const MINUTE_MICROS := 60_000_000

  predicate Leap(y: int) { y % 4 == 0 && (y % 100 != 0 || y % 400 == 0) }

  function YearLen(y: int): int { if Leap(y) then 366 else 365 }

  function MonthLen(y: int, m: int): int {
    if m == 2 then (if Leap(y) then 29 else 28)
    else if m == 4 || m == 6 || m == 9 || m == 11 then 30
    else 31
  }

  predicate ValidDate(a: Date) { a.y >= 1 && 1 <= a.m <= 12 && 1 <= a.d <= MonthLen(a.y, a.m) }

  predicate Valid(t: Time) { ValidDate(t.date) && 0 <= t.hour < 24 && 0 <= t.minute < 60 }

  predicate ValidMoment(a: Moment) { Valid(a.time) && 0 <= a.micros < MINUTE_MICROS }

  /** Days before 1 January of year y, counted from year 1. */
  function DaysBefore(y: int): int
    decreases y
  {
    if y <= 1 then 0 else DaysBefore(y - 1) + YearLen(y - 1)
  }

  function MonthsBefore(y: int, m: int): int
    decreases m
  {
    if m <= 1 then 0 else MonthsBefore(y, m - 1) + MonthLen(y, m - 1)
  }

  /** `date.toordinal`: 1 January of year 1 is day 1. */
  function Ordinal(a: Date): int { DaysBefore(a.y) + MonthsBefore(a.y, a.m) + a.d }

  /** `isoweekday() % 7`: day 1 was a Monday, and Sunday is 0. */
  function Weekday(a: Date): int { Ordinal(a) % 7 }

  /** Minutes since the day before year 1 began. */
  function Minutes(t: Time): int { Ordinal(t.date) * 1440 + t.hour * 60 + t.minute }

  function NextDay(a: Date): Date {
    if a.d < MonthLen(a.y, a.m) then Date(a.y, a.m, a.d + 1)
    else if a.m < 12 then Date(a.y, a.m + 1, 1)
    else Date(a.y + 1, 1, 1)
  }

  lemma MonthsBeforeValue(y: int, m: int)
    requires 1 <= m <= 13
    ensures var l := if Leap(y) then 1 else 0;
      MonthsBefore(y, m) ==
        [0, 31, 59 + l, 90 + l, 120 + l, 151 + l, 181 + l, 212 + l, 243 + l, 273 + l, 304 + l, 334 + l, 365 + l][m - 1]
    decreases m
  {
    if m > 1 { MonthsBeforeValue(y, m - 1); }
  }

  lemma NextDayOrdinal(a: Date)
    requires ValidDate(a)
    ensures ValidDate(NextDay(a)) && Ordinal(NextDay(a)) == Ordinal(a) + 1
  {
    if a.m == 12 { MonthsBeforeValue(a.y, 12); }
  }

  lemma {:induction false} DaysBeforeGrows(y: int, z: int)
    requires 1 <= y < z
    ensures DaysBefore(y) + YearLen(y) <= DaysBefore(z)
    decreases z - y
  {
    if y + 1 < z { DaysBeforeGrows(y, z - 1); }
  }

  lemma {:induction false} MonthsGrow(y: int, m: int, k: int)
    requires 1 <= m < k
    ensures MonthsBefore(y, m) + MonthLen(y, m) <= MonthsBefore(y, k)
    decreases k - m
  {
    if m + 1 < k { MonthsGrow(y, m, k - 1); }
  }

  lemma DayInYear(a: Date)
    requires ValidDate(a)
    ensures 1 <= MonthsBefore(a.y, a.m) + a.d <= YearLen(a.y)
  {
    MonthsBeforeValue(a.y, a.m);
  }

  /** Days are numbered in calendar order, so a number names one day. */
  lemma OrdinalInjective(a: Date, b: Date)
    requires ValidDate(a) && ValidDate(b) && Ordinal(a) == Ordinal(b)
    ensures a == b
  {
    DayInYear(a);
    DayInYear(b);
    if a.y < b.y { DaysBeforeGrows(a.y, b.y); }
    if b.y < a.y { DaysBeforeGrows(b.y, a.y); }
    assert a.y == b.y;
    if a.m < b.m { MonthsGrow(a.y, a.m, b.m); }
    if b.m < a.m { MonthsGrow(a.y, b.m, a.m); }
  }

  // ---------------------------------------------------------------- the Gregorian calendar

  /** The leap years from 1 to n: one every four years, but not every hundred, but every four hundred. */
  function LeapYears(n: int): int { n / 4 - n / 100 + n / 400 }

  lemma QuotientSteps(n: int)
    requires n >= 1
    ensures n / 4 == (n - 1) / 4 + if n % 4 == 0 then 1 else 0
    ensures n / 100 == (n - 1) / 100 + if n % 100 == 0 then 1 else 0
    ensures n / 400 == (n - 1) / 400 + if n % 400 == 0 then 1 else 0
  {
  }

  lemma LeapYearsStep(n: int)
    requires n >= 1
    ensures LeapYears(n) == LeapYears(n - 1) + if Leap(n) then 1 else 0
  {
    QuotientSteps(n);
    Hundreds(n);
  }

  lemma Hundreds(n: int)
    ensures n % 100 == 0 ==> n % 4 == 0
    ensures n % 400 == 0 ==> n % 100 == 0
  {
    if n % 100 == 0 { TimesHundred(n, n / 100); }
    if n % 400 == 0 { TimesFourHundred(n, n / 400); }
  }

  lemma TimesHundred(n: int, q: int)
    requires n == 100 * q
    ensures n % 4 == 0
  {
  }

  lemma TimesFourHundred(n: int, q: int)
    requires n == 400 * q
    ensures n % 100 == 0
  {
  }

  /** The days before a year, by that rule. */
  lemma {:induction false} DaysBeforeIs(y: int)
    requires y >= 1
    ensures DaysBefore(y) == 365 * (y - 1) + LeapYears(y - 1)
    decreases y
  {
    hide Leap;
    if y > 1 {
      DaysBeforeIs(y - 1);
      LeapYearsStep(y - 1);
    }
  }

  lemma LeapYearsCycle(n: int)
    requires n >= 0
    ensures LeapYears(n + 400) == LeapYears(n) + 97
    ensures Leap(n + 400) == Leap(n)
  {
    assert (n + 400) / 4 == n / 4 + 100 && (n + 400) / 100 == n / 100 + 4 && (n + 400) / 400 == n / 400 + 1;
    assert (n + 400) % 4 == n % 4 && (n + 400) % 100 == n % 100 && (n + 400) % 400 == n % 400;
  }

  /** The calendar repeats itself every 400 years, weekdays included. */
  lemma FourCenturies(y: int, m: int, d: int)
    requires y >= 1 && 1 <= m <= 12
    ensures DaysBefore(y + 400) == DaysBefore(y) + 146097
    ensures ValidDate(Date(y + 400, m, d)) <==> ValidDate(Date(y, m, d))
    ensures Weekday(Date(y + 400, m, d)) == Weekday(Date(y, m, d))
  {
    hide DaysBefore, MonthsBefore, LeapYears, Leap;
    DaysBeforeIs(y);
    DaysBeforeIs(y + 400);
    LeapYearsCycle(y - 1);
    LeapYearsCycle(y);
    MonthsBeforeValue(y, m);
    MonthsBeforeValue(y + 400, m);
    WeekAgain(Ordinal(Date(y, m, d)));
  }

  lemma WeekAgain(x: int)
    ensures (x + 146097) % 7 == x % 7
  {
  }

  /** 1 January 2000 was a Saturday and day 730120, 29 February 2000 existed and that
      of 1900 did not, and 5 January 2026 is a Monday. */
  lemma KnownDays()
    ensures Weekday(Date(2000, 1, 1)) == 6 && Ordinal(Date(2000, 1, 1)) == 730120
    ensures ValidDate(Date(2000, 2, 29)) && !ValidDate(Date(1900, 2, 29))
    ensures Weekday(Date(2026, 1, 5)) == 1
  {
    hide DaysBefore;
    DaysBeforeIs(2000);
    DaysBeforeIs(2026);
  }
}
