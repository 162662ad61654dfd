/** When a cron expression fires at all: the exact condition for the error of
    `Cron.next_after`. */
module CronFires {
  import opened Calendar
  import opened Cron

  /** Weekday starred, day of month not, and every selected (month, day) pair is
      impossible in a year without 29 February. */
  ghost predicate LeapOnly(c: Cron) {
    c.dowStar && !c.domStar && forall m, d | m in c.months && d in c.days :: MonthLen(1, m) < d
  }

  /** t comes after `after`, at most 366 days later. */
  ghost predicate WithinYear(after: Moment, t: Time) {
    Valid(t) && Minutes(after.time) < Minutes(t) <= Minutes(after.time) + 366 * 1440
  }

  lemma YearStep(y: int, m: int)
    requires y >= 1 && 1 <= m <= 12
    ensures DaysBefore(y + 1) + MonthsBefore(y + 1, m) <= DaysBefore(y) + MonthsBefore(y, m) + 366
  {
    MonthsBeforeValue(y, m);
    MonthsBeforeValue(y + 1, m);
  }

  /** A day that cannot be over before `after` in its own year, or its successor next year. */
  lemma OneOfTwo(after: Moment, p: Time, q: Time)
    requires ValidMoment(after) && Valid(p) && Valid(q)
    requires p.date.y == after.time.date.y && q.date.y == p.date.y + 1 && q.date.m == p.date.m && q.date.d <= p.date.d
    requires q.hour == p.hour && q.minute == p.minute
    ensures WithinYear(after, p) || WithinYear(after, q)
  {
    var a := after.time.date;
    YearStep(a.y, p.date.m);
    DayInYear(a);
    DayInYear(p.date);
    DayInYear(q.date);
  }

  /** The day of the week w among seven consecutive days of one month. */
  lemma WeekdayIn(y: int, m: int, d: int, w: int) returns (a: Date)
    requires y >= 1 && 1 <= m <= 12 && (d == 1 || d == 22) && 0 <= w <= 6
    ensures ValidDate(a) && a.y == y && a.m == m && d <= a.d <= d + 6 && Weekday(a) == w
  {
    hide DaysBefore, MonthsBefore;
    var first := Date(y, m, d);
    var k := (w - Ordinal(first)) % 7;
    a := Date(y, m, d + k);
    assert Ordinal(a) == Ordinal(first) + k;
    WeekdayAfter(Ordinal(first), w);
  }

  lemma WeekdayAfter(x: int, w: int)
    requires 0 <= w <= 6
    ensures (x + (w - x) % 7) % 7 == w
  {
  }

  lemma Pick(s: set<int>) returns (x: int)
    requires s != {}
    ensures x in s
  {
    if forall y :: y !in s {
      assert false;
    }
    x :| x in s;
  }

  /** Unless it is bound to leap days, an expression fires within 366 days. */
  lemma FiresWithinYear(c: Cron, after: Moment)
    requires c.Parsed() && ValidMoment(after) && !LeapOnly(c)
    ensures exists u :: WithinYear(after, u) && c.Fires(u)
  {
    hide Ordinal, Minutes, WithinYear, DaysBefore, MonthsBefore;
    var h := Pick(c.hours);
    var n := Pick(c.minutes);
    var y := after.time.date.y;
    var p, q: Time;
    if c.dowStar {
      var m, d;
      if c.domStar {
        m := Pick(c.months);
        d := 1;
      } else {
        m, d :| m in c.months && d in c.days && d <= MonthLen(1, m);
      }
      p, q := Time(Date(y, m, d), h, n), Time(Date(y + 1, m, d), h, n);
    } else {
      var m := Pick(c.months);
      var w := Pick(c.weekdays);
      var a := WeekdayIn(y, m, 22, w);
      var b := WeekdayIn(y + 1, m, 1, w);
      p, q := Time(a, h, n), Time(b, h, n);
    }
    OneOfTwo(after, p, q);
    assert c.Fires(p) && c.Fires(q);
  }

  // ---------------------------------------------------------------- leap days

  function LeapDay(y: int, h: int, n: int): Time { Time(Date(y, 2, 29), h, n) }

  predicate SelectsLeapDay(c: Cron) { 2 in c.months && 29 in c.days }

  /** An expression bound to leap days can only ever fire on one. */
  lemma LeapOnlyFires(c: Cron, u: Time)
    requires c.Parsed() && LeapOnly(c) && Valid(u) && c.Fires(u)
    ensures SelectsLeapDay(c) && Leap(u.date.y) && u == LeapDay(u.date.y, u.hour, u.minute)
  {
    assert MonthLen(1, u.date.m) < u.date.d;
  }

  /** The first multiple of four from y on. */
  function Fourth(y: int): int {
    if y % 4 == 0 then y else if y % 4 == 1 then y + 3 else if y % 4 == 2 then y + 2 else y + 1
  }

  /** The first leap year from y on. */
  function NextLeap(y: int): int { if Leap(Fourth(y)) then Fourth(y) else Fourth(y) + 4 }

  lemma FourthIsFirst(y: int)
    ensures y <= Fourth(y) <= y + 3 && Fourth(y) % 4 == 0
    ensures forall z | y <= z < Fourth(y) + 4 && z != Fourth(y) :: z % 4 != 0
  {
  }

  lemma SkippedOnce(q: int)
    requires q % 4 == 0 && !Leap(q)
    ensures Leap(q + 4)
  {
    assert q % 100 == 0;
    assert (q + 4) % 100 == 4;
  }

  lemma NextLeapIsFirst(y: int)
    ensures y <= NextLeap(y) < y + 8 && Leap(NextLeap(y)) && forall z | y <= z < NextLeap(y) :: !Leap(z)
  {
    FourthIsFirst(y);
    if !Leap(Fourth(y)) { SkippedOnce(Fourth(y)); }
  }

  /** The leap day of this year or of the next leap year is still to come, before the horizon. */
  predicate LeapDayAhead(c: Cron, after: Moment) {
    var y := after.time.date.y;
    SelectsLeapDay(c)
    && exists h, n | h in c.hours && n in c.minutes ::
      (Leap(y) && InWindow(after, LeapDay(y, h, n))) || InWindow(after, LeapDay(NextLeap(y + 1), h, n))
  }

  lemma LeapDayOrder(y: int, z: int, h: int, n: int)
    requires 1 <= y < z && Leap(y) && Leap(z)
    ensures Minutes(LeapDay(y, h, n)) < Minutes(LeapDay(z, h, n))
  {
    DaysBeforeGrows(y, z);
    MonthsBeforeValue(y, 2);
    MonthsBeforeValue(z, 2);
  }

  lemma YearOrder(a: Time, b: Time)
    requires Valid(a) && Valid(b) && a.date.y < b.date.y
    ensures Minutes(a) < Minutes(b)
  {
    DaysBeforeGrows(a.date.y, b.date.y);
    DayInYear(a.date);
    DayInYear(b.date);
  }

  /** `next_after` reports an error exactly when the expression is bound to leap
      days and no leap day it can fire on is left before the horizon; a caller can
      tell from the expression, this year and the next leap year. */
  lemma FiresUnless(c: Cron, after: Moment)
    requires c.Parsed() && ValidMoment(after)
    ensures FiresInWindow(c, after) <==> !LeapOnly(c) || LeapDayAhead(c, after)
  {
    if !LeapOnly(c) {
      FiresWithinYear(c, after);
      var u :| WithinYear(after, u) && c.Fires(u);
      assert InWindow(after, u);
    } else {
      var y := after.time.date.y;
      NextLeapIsFirst(y + 1);
      if LeapDayAhead(c, after) {
        var h, n :| h in c.hours && n in c.minutes
          && ((Leap(y) && InWindow(after, LeapDay(y, h, n))) || InWindow(after, LeapDay(NextLeap(y + 1), h, n)));
        var u := if Leap(y) && InWindow(after, LeapDay(y, h, n)) then LeapDay(y, h, n)
                 else LeapDay(NextLeap(y + 1), h, n);
        assert Valid(u) && InWindow(after, u) && c.Fires(u);
      }
      if FiresInWindow(c, after) {
        var u :| Valid(u) && InWindow(after, u) && c.Fires(u);
        LeapOnlyFires(c, u);
        LeapAheadFrom(c, after, u);
      }
    }
  }

  lemma LeapAheadFrom(c: Cron, after: Moment, u: Time)
    requires ValidMoment(after) && Valid(u) && InWindow(after, u) && c.Fires(u)
    requires SelectsLeapDay(c) && Leap(u.date.y) && u == LeapDay(u.date.y, u.hour, u.minute)
    ensures LeapDayAhead(c, after)
  {
    hide Minutes, NextLeap;
    var y := after.time.date.y;
    NextLeapIsFirst(y + 1);
    var z := NextLeap(y + 1);
    var v := LeapDay(z, u.hour, u.minute);
    if u.date.y < y { YearOrder(u, after.time); }
    YearOrder(after.time, v);
    if z < u.date.y { LeapDayOrder(z, u.date.y, u.hour, u.minute); }
  }

  /** No century in sight that is not a leap year: then the next leap day is near enough. */
  lemma LeapDayWithinFourYears(c: Cron, after: Moment)
    requires c.Parsed() && ValidMoment(after) && LeapOnly(c) && SelectsLeapDay(c)
    requires forall z | after.time.date.y <= z <= after.time.date.y + 4 && z % 4 == 0 :: Leap(z)
    ensures LeapDayAhead(c, after)
  {
    hide LeapDayAhead;
    var a := after.time.date;
    var h := Pick(c.hours);
    var n := Pick(c.minutes);
    var z := NextLeap(a.y + 1);
    if Leap(a.y) && Ordinal(a) < Ordinal(Date(a.y, 2, 29)) {
      LeapDaySameYear(after, h, n);
      LeapAheadFrom(c, after, LeapDay(a.y, h, n));
    } else {
      LeapDayNext(after, h, n);
      LeapAheadFrom(c, after, LeapDay(z, h, n));
    }
  }

  lemma LeapDaySameYear(after: Moment, h: int, n: int)
    requires ValidMoment(after) && 0 <= h < 24 && 0 <= n < 60
    requires Leap(after.time.date.y) && Ordinal(after.time.date) < Ordinal(Date(after.time.date.y, 2, 29))
    ensures Valid(LeapDay(after.time.date.y, h, n)) && InWindow(after, LeapDay(after.time.date.y, h, n))
  {
    var a := after.time.date;
    DayInYear(a);
    DayInYear(Date(a.y, 2, 29));
  }

  /** From a leap day on, or in a common year, the next leap day is less than 1462 days away. */
  lemma LeapDayNext(after: Moment, h: int, n: int)
    requires ValidMoment(after) && 0 <= h < 24 && 0 <= n < 60
    requires Leap(after.time.date.y) ==> Ordinal(Date(after.time.date.y, 2, 29)) <= Ordinal(after.time.date)
    requires forall z | after.time.date.y <= z <= after.time.date.y + 4 && z % 4 == 0 :: Leap(z)
    ensures var u := LeapDay(NextLeap(after.time.date.y + 1), h, n); Valid(u) && InWindow(after, u)
  {
    var a := after.time.date;
    var z := NextLeap(a.y + 1);
    var b := Date(z, 2, 29);
    DayInYear(a);
    MonthsBeforeValue(a.y, 2);
    MonthsBeforeValue(z, 2);
    LeapSpan(a.y);
    assert 0 < Ordinal(b) - Ordinal(a) <= 1461;
  }

  lemma LeapSpan(y: int)
    requires y >= 1 && forall z | y <= z <= y + 4 && z % 4 == 0 :: Leap(z)
    ensures NextLeap(y + 1) <= y + 4
    ensures var days := DaysBefore(NextLeap(y + 1)) - DaysBefore(y);
      if Leap(y) then days == 1461 else 365 <= days <= 1095
  {
    FourYears(y);
    FourthIsFirst(y);
    FourthIsFirst(y + 1);
    var z := NextLeap(y + 1);
    assert Fourth(y + 1) <= y + 4 && Leap(Fourth(y + 1)) && z == Fourth(y + 1);
    if y % 4 == 0 {
      assert z == y + 4 && YearLen(y) == 366;
    } else {
      assert z <= y + 3;
    }
    forall x | y < x < z ensures YearLen(x) == 365 {}
  }

  lemma FourYears(y: int)
    requires y >= 1
    ensures DaysBefore(y + 1) == DaysBefore(y) + YearLen(y)
    ensures DaysBefore(y + 2) == DaysBefore(y + 1) + YearLen(y + 1)
    ensures DaysBefore(y + 3) == DaysBefore(y + 2) + YearLen(y + 2)
    ensures DaysBefore(y + 4) == DaysBefore(y + 3) + YearLen(y + 3)
  {
  }

  /** "never fires" is not always true: from 1 March 2096, '0 0 29 2 *' is
      refused although it fires in 2104. */
  lemma RefusedThoughItFires(c: Cron, after: Moment)
    requires c == Cron({0}, {0}, {29}, {2}, {0, 1, 2, 3, 4, 5, 6}, false, true)
    requires after == Moment(Time(Date(2096, 3, 1), 0, 0), 0)
    ensures c.Parsed() && !FiresInWindow(c, after)
    ensures Valid(LeapDay(2104, 0, 0)) && Minutes(after.time) < Minutes(LeapDay(2104, 0, 0))
      && c.Fires(LeapDay(2104, 0, 0))
  {
    hide DaysBefore, MonthsBefore;
    assert NextLeap(2097) == 2104;
    SkippedCentury();
    LeapDayOrder(2096, 2104, 0, 0);
    FiresUnless(c, after);
  }

  lemma SkippedCentury()
    ensures Minutes(LeapDay(2096, 0, 0)) + 1440 == Minutes(Time(Date(2096, 3, 1), 0, 0))
    ensures Ordinal(Date(2104, 2, 29)) == Ordinal(Date(2096, 3, 1)) + 2920
  {
    FourYears(2096);
    FourYears(2100);
    MonthsBeforeValue(2096, 2);
    MonthsBeforeValue(2096, 3);
    MonthsBeforeValue(2104, 2);
  }
}
