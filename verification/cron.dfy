/** The search for the next run of a cron expression, `scheduler/cron.py`. */
module Cron {
  import opened Calendar
  import opened Options

  const HORIZON_DAYS := 366 * 4

  /** A parsed expression: `minutes`, `hours`, `days`, `months`, `weekdays`, and
      whether day of month and day of week were starred. */
  datatype Cron = Cron(
    minutes: set<int>, hours: set<int>, days: set<int>, months: set<int>, weekdays: set<int>,
    domStar: bool, dowStar: bool)
  {
    /** `_day_ok`. */
    predicate DayOk(a: Date) {
      if a.m !in months then false
      else if domStar && dowStar then true
      else if domStar then Weekday(a) in weekdays
      else if dowStar then a.d in days
      else a.d in days || Weekday(a) in weekdays
    }

    predicate Fires(t: Time) { DayOk(t.date) && t.hour in hours && t.minute in minutes }

    /** What `parse` guarantees of its result. */
    ghost predicate Parsed() {
      && minutes != {} && (forall x | x in minutes :: 0 <= x <= 59)
      && hours != {} && (forall x | x in hours :: 0 <= x <= 23)
      && days != {} && (forall x | x in days :: 1 <= x <= 31)
      && months != {} && (forall x | x in months :: 1 <= x <= 12)
      && weekdays != {} && (forall x | x in weekdays :: 0 <= x <= 6)
      && (domStar ==> forall x | 1 <= x <= 31 :: x in days)
      && (dowStar ==> forall x | 0 <= x <= 6 :: x in weekdays)
    }
  }

  /** The whole minutes `next_after` considers: after the minute of `after`, and
      before the horizon, which is counted from `after` to the microsecond. */
  predicate InWindow(after: Moment, t: Time) {
    Minutes(after.time) < Minutes(t)
    && (Minutes(t) - Minutes(after.time)) * MINUTE_MICROS < HORIZON_DAYS * 1440 * MINUTE_MICROS + after.micros
  }

  function NextMinute(t: Time): Time {
    if t.minute < 59 then Time(t.date, t.hour, t.minute + 1) else NextHour(t)
  }

  function NextHour(t: Time): Time {
    if t.hour < 23 then Time(t.date, t.hour + 1, 0) else Midnight(t)
  }

  function Midnight(t: Time): Time { Time(NextDay(t.date), 0, 0) }

  lemma Jumps(t: Time)
    requires Valid(t)
    ensures Valid(NextMinute(t)) && Minutes(NextMinute(t)) == Minutes(t) + 1
    ensures Valid(NextHour(t)) && Minutes(NextHour(t)) == Minutes(t) + 60 - t.minute
    ensures Valid(Midnight(t)) && Minutes(Midnight(t)) == Minutes(t) + 1440 - t.hour * 60 - t.minute
  {
    NextDayOrdinal(t.date);
  }

  /** Every minute from t up to the next midnight is on the day of t. */
  lemma SameDay(t: Time, u: Time)
    requires Valid(t) && Valid(u) && Minutes(t) <= Minutes(u) < Minutes(Midnight(t))
    ensures u.date == t.date && t.hour <= u.hour
    ensures Minutes(u) < Minutes(NextHour(t)) ==> u.hour == t.hour
  {
    Jumps(t);
    OrdinalInjective(t.date, u.date);
  }

  lemma SameMinute(t: Time, u: Time)
    requires Valid(t) && Valid(u) && Minutes(t) == Minutes(u)
    ensures t == u
  {
    OrdinalInjective(t.date, u.date);
  }

  /** No minute after `after` and before t fires. */
  ghost predicate NoneBefore(c: Cron, after: Moment, t: Time) {
    forall u | Valid(u) && Minutes(after.time) < Minutes(u) < Minutes(t) :: !c.Fires(u)
  }

  lemma JumpSkipsNothing(c: Cron, after: Moment, t: Time, next: Time)
    requires Valid(t) && NoneBefore(c, after, t)
    requires
      || (next == Midnight(t) && !c.DayOk(t.date))
      || (next == NextHour(t) && t.hour !in c.hours)
      || (next == NextMinute(t) && t.minute !in c.minutes)
    ensures NoneBefore(c, after, next)
  {
    Jumps(t);
    forall u | Valid(u) && Minutes(after.time) < Minutes(u) < Minutes(next) ensures !c.Fires(u) {
      if Minutes(t) <= Minutes(u) {
        SameDay(t, u);
        if next == NextMinute(t) && t.minute !in c.minutes { SameMinute(t, u); }
      }
    }
  }

  ghost predicate FiresInWindow(c: Cron, after: Moment) {
    exists u :: Valid(u) && InWindow(after, u) && c.Fires(u)
  }

  /** t is what `next_after` returns for `after`. */
  ghost predicate IsNext(c: Cron, after: Moment, t: Time) {
    Valid(t) && InWindow(after, t) && c.Fires(t) && NoneBefore(c, after, t)
  }

  /** `Cron.next_after`: the first firing minute after the given one, or an error
      when none fires before the horizon. */
  method NextAfter(c: Cron, after: Moment) returns (r: Option<Time>)
    requires ValidMoment(after)
    ensures r.Some? ==> IsNext(c, after, r.value)
    ensures r.Some? <==> FiresInWindow(c, after)
  {
    hide Ordinal, NextDay, ValidDate, Minutes, Cron.DayOk, NextMinute, NextHour, Midnight, NoneBefore;
    Jumps(after.time);
    var t := NextMinute(after.time);
    Starts(c, after);
    while InWindow(after, t)
      invariant Valid(t) && Minutes(after.time) < Minutes(t) && NoneBefore(c, after, t)
      decreases Minutes(after.time) + HORIZON_DAYS * 1440 + 1 - Minutes(t)
    {
      Jumps(t);
      if !c.DayOk(t.date) {
        JumpSkipsNothing(c, after, t, Midnight(t));
        t := Midnight(t);
        continue;
      }
      if t.hour !in c.hours {
        JumpSkipsNothing(c, after, t, NextHour(t));
        t := NextHour(t);
        continue;
      }
      if t.minute !in c.minutes {
        JumpSkipsNothing(c, after, t, NextMinute(t));
        t := NextMinute(t);
        continue;
      }
      return Some(t);
    }
    Exhausted(c, after, t);
    return None;
  }

  lemma Starts(c: Cron, after: Moment)
    requires ValidMoment(after)
    ensures NoneBefore(c, after, NextMinute(after.time))
  {
    Jumps(after.time);
  }

  lemma Exhausted(c: Cron, after: Moment, t: Time)
    requires NoneBefore(c, after, t) && Minutes(after.time) < Minutes(t) && !InWindow(after, t)
    ensures !FiresInWindow(c, after)
  {
    forall u | Valid(u) && InWindow(after, u) ensures !c.Fires(u) {
      assert Minutes(u) < Minutes(t);
    }
  }

  /** Where time k of an iteration is searched from: the time before it, or `after`. */
  function Origin(after: Moment, ts: seq<Time>, k: nat): Moment
    requires k <= |ts|
  {
    if k == 0 then after else Moment(ts[k - 1], 0)
  }

  /** Each of the times is what `next_after` returns for the one before it. */
  ghost predicate Iterated(c: Cron, after: Moment, ts: seq<Time>) {
    forall k | 0 <= k < |ts| :: IsNext(c, Origin(after, ts, k), ts[k])
  }

  /** ts are exactly the firing minutes after `after` and up to its own last, in order. */
  ghost predicate Enumerates(c: Cron, after: Moment, ts: seq<Time>) {
    && (forall i, j | 0 <= i < j < |ts| :: Minutes(ts[i]) < Minutes(ts[j]))
    && (forall k | 0 <= k < |ts| :: Valid(ts[k]) && c.Fires(ts[k]) && Minutes(after.time) < Minutes(ts[k]))
    && (forall u | Valid(u) && c.Fires(u) ::
          Minutes(after.time) < Minutes(u) <= Minutes(Origin(after, ts, |ts|).time) ==> u in ts)
  }

  lemma EnumeratesMore(c: Cron, after: Moment, ts: seq<Time>, t: Time)
    requires Enumerates(c, after, ts) && IsNext(c, Origin(after, ts, |ts|), t)
    ensures Enumerates(c, after, ts + [t])
  {
    hide Minutes, InWindow, Cron.Fires;
    var from, now := Origin(after, ts, |ts|), ts + [t];
    WindowIsLater(from, t);
    assert Origin(after, now, |now|).time == t;
    forall u | Valid(u) && c.Fires(u) && Minutes(after.time) < Minutes(u) <= Minutes(t) ensures u in now {
      if Minutes(u) == Minutes(t) {
        SameMinute(u, t);
      } else {
        assert !(Minutes(from.time) < Minutes(u));
      }
    }
  }

  /** Iterating `next_after` enumerates exactly the firing minutes, in order. */
  lemma {:induction false} IterationEnumerates(c: Cron, after: Moment, ts: seq<Time>)
    requires Iterated(c, after, ts)
    ensures Enumerates(c, after, ts)
  {
    hide IsNext, Enumerates;
    if ts == [] {
      NothingToEnumerate(c, after);
    } else {
      var n := |ts| - 1;
      var before := ts[..n];
      forall k | 0 <= k < n ensures IsNext(c, Origin(after, before, k), before[k]) {
        assert Origin(after, before, k) == Origin(after, ts, k);
      }
      IterationEnumerates(c, after, before);
      assert Origin(after, before, n) == Origin(after, ts, n) && ts == before + [ts[n]];
      EnumeratesMore(c, after, before, ts[n]);
    }
  }

  lemma NothingToEnumerate(c: Cron, after: Moment)
    ensures Enumerates(c, after, [])
  {
  }

  lemma WindowIsLater(after: Moment, t: Time)
    requires InWindow(after, t)
    ensures Minutes(after.time) < Minutes(t)
  {
  }
}
