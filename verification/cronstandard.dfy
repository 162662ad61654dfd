/** The day rule of the crontab utility, and where `Cron._day_ok` departs from it. */
module CronStandard {
  import opened Calendar
  import opened Cron
  import opened CronFires

  /** IEEE Std 1003.1-2017, crontab, INPUT FILES.  With a starred day of week, month
      and day of month have to match; with both of those starred, the day of week
      has to; otherwise one of the two is enough, and then the month does not
      restrict the day of week. */
  predicate StandardDay(c: Cron, monthStar: bool, a: Date) {
    var date, week := a.m in c.months && a.d in c.days, Weekday(a) in c.weekdays;
    if c.dowStar then date else if monthStar && c.domStar then week else date || week
  }

  predicate AllMonths(c: Cron) { forall m | 1 <= m <= 12 :: m in c.months }

  predicate AllWeek(c: Cron) { forall w | 0 <= w <= 6 :: w in c.weekdays }

  /** On which days the code and the standard agree. */
  lemma DayIsStandardIff(c: Cron, monthStar: bool, a: Date)
    requires c.Parsed() && ValidDate(a) && (monthStar ==> AllMonths(c))
    ensures (c.DayOk(a) <==> StandardDay(c, monthStar, a)) <==>
      c.dowStar || (if c.domStar then monthStar || (a.m in c.months <==> Weekday(a) in c.weekdays)
                    else a.m in c.months || Weekday(a) !in c.weekdays)
  {
  }

  /** For which expressions they agree on every day: those with a starred day of week,
      and those that select all months, unless day of month is starred, month is
      written out and some day of the week is left out. */
  lemma RuleIsStandardIff(c: Cron, monthStar: bool)
    requires c.Parsed() && (monthStar ==> AllMonths(c))
    ensures (forall a | ValidDate(a) :: c.DayOk(a) <==> StandardDay(c, monthStar, a)) <==>
      c.dowStar || (AllMonths(c) && (!c.domStar || monthStar || AllWeek(c)))
  {
    hide Weekday, StandardDay, Cron.DayOk;
    forall a | ValidDate(a) ensures (c.DayOk(a) <==> StandardDay(c, monthStar, a)) <==>
      c.dowStar || (if c.domStar then monthStar || (a.m in c.months <==> Weekday(a) in c.weekdays)
                    else a.m in c.months || Weekday(a) !in c.weekdays)
    {
      DayIsStandardIff(c, monthStar, a);
    }
    if !c.dowStar {
      if !AllMonths(c) {
        var m :| 1 <= m <= 12 && m !in c.months;
        var w := Pick(c.weekdays);
        var a := WeekdayIn(1, m, 1, w);
      } else if !AllWeek(c) {
        var w :| 0 <= w <= 6 && w !in c.weekdays;
        var a := WeekdayIn(1, 1, 1, w);
      }
    }
    WeekdayRange();
  }

  lemma WeekdayRange()
    ensures forall a: Date :: 0 <= Weekday(a) <= 6
  {
  }

  /** '0 0 1 1 1': by the standard it fires on every Monday, by the code only in January. */
  lemma MondaysOfJanuaryOnly(c: Cron)
    requires c == Cron({0}, {0}, {1}, {1}, {1}, false, false)
    ensures c.Parsed() && ValidDate(Date(1, 2, 5)) && StandardDay(c, false, Date(1, 2, 5)) && !c.DayOk(Date(1, 2, 5))
  {
    MonthsBeforeValue(1, 2);
    assert DaysBefore(1) == 0;
    assert Weekday(Date(1, 2, 5)) == 36 % 7 == 1;
  }
}
