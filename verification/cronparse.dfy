/** Parsing of cron expressions, `scheduler/cron.py`, on ASCII text. */
module CronParse {
  import opened Cron
  import opened Options
  import opened Text

  const MONTHS := map["jan" := 1, "feb" := 2, "mar" := 3, "apr" := 4, "may" := 5, "jun" := 6,
                      "jul" := 7, "aug" := 8, "sep" := 9, "oct" := 10, "nov" := 11, "dec" := 12]
  const DAYS := map["sun" := 0, "mon" := 1, "tue" := 2, "wed" := 3, "thu" := 4, "fri" := 5, "sat" := 6]
  const ALIASES := map[
    "@hourly" := "0 * * * *", "@daily" := "0 0 * * *", "@midnight" := "0 0 * * *", "@weekly" := "0 0 * * 0",
    "@monthly" := "0 0 1 * *", "@yearly" := "0 0 1 1 *", "@annually" := "0 0 1 1 *"]

  /** The five fields: their ranges and the names they know. */
  datatype Field = Minute | Hour | Day | Month | Week {
    function Lo(): int { if Day? || Month? then 1 else 0 }

    function Hi(): int {
      match this case Minute => 59 case Hour => 23 case Day => 31 case Month => 12 case Week => 7
    }

    function Names(): map<string, int> { if Month? then MONTHS else if Week? then DAYS else map[] }
  }

  /** `_value`. */
  function Value(s: string, f: Field): (r: Option<int>)
    ensures r.Some? ==> f.Lo() <= r.value <= f.Hi()
  {
    if s !in f.Names() && !AllDigits(s) then None
    else
      var v := if s in f.Names() then f.Names()[s] else Number(s);
      if f.Lo() <= v <= f.Hi() || (f.Week? && v == 7) then Some(v) else None
  }

  /** One element of a field: the values start, start + step, … up to end. */
  datatype Span = Span(start: int, end: int, step: int, star: bool) {
    predicate Covers(x: int) { start <= x <= end && step > 0 && (x - start) % step == 0 }

    predicate Fits(f: Field) {
      f.Lo() <= start <= end <= f.Hi() && step >= 1 && (star ==> start == f.Lo() && end == f.Hi() && step == 1)
    }
  }

  function SpanOf(body: string, step: int, f: Field): (r: Option<Span>)
    requires step >= 1
    ensures r.Some? ==> r.value.Fits(f)
  {
    if body == "*" then Some(Span(f.Lo(), f.Hi(), step, step == 1))
    else
      var dash := Find(body, '-', 0);
      match (Value(body[..dash], f), Value(if dash == |body| then body else body[dash + 1..], f))
      case (Some(start), Some(end)) =>
        var last := if dash == |body| && step > 1 then f.Hi() else end;
        if start > last then None else Some(Span(start, last, step, false))
      case _ => None
  }

  /** One comma-separated element. */
  function Element(raw: string, f: Field): (r: Option<Span>)
    ensures r.Some? ==> r.value.Fits(f)
  {
    var part := Lower(Strip(raw));
    if part == "" then None
    else
      var slash := Find(part, '/', 0);
      if slash == |part| then SpanOf(part, 1, f)
      else
        var step := part[slash + 1..];
        if !AllDigits(step) || Number(step) < 1 then None
        else SpanOf(part[..slash], Number(step), f)
  }

  /** Every element of the list is accepted. */
  ghost predicate Accepted(parts: seq<string>, f: Field) {
    forall k | 0 <= k < |parts| :: Element(parts[k], f).Some?
  }

  /** What a list of accepted elements stands for: x is selected, some element is a star. */
  ghost predicate Selects(parts: seq<string>, f: Field, x: int)
    requires Accepted(parts, f)
  {
    exists k | 0 <= k < |parts| :: Element(parts[k], f).value.Covers(x)
  }

  ghost predicate Starred(parts: seq<string>, f: Field)
    requires Accepted(parts, f)
  {
    exists k | 0 <= k < |parts| :: Element(parts[k], f).value.star
  }

  ghost predicate Denotes(parts: seq<string>, f: Field, values: set<int>, star: bool) {
    && Accepted(parts, f)
    && (forall x :: x in values <==> Selects(parts, f, x))
    && (star <==> Starred(parts, f))
  }

  ghost predicate InRange(f: Field, values: set<int>, star: bool) {
    && values != {}
    && (forall x | x in values :: f.Lo() <= x <= f.Hi())
    && (star ==> forall x | f.Lo() <= x <= f.Hi() :: x in values)
  }

  /** An accepted field is a non-empty set of values in range, and a starred one has them all. */
  lemma FieldInRange(parts: seq<string>, f: Field, values: set<int>, star: bool)
    requires parts != [] && Denotes(parts, f, values, star)
    ensures InRange(f, values, star)
  {
    hide Element;
    var e := Element(parts[0], f).value;
    assert e.Covers(e.start);
    assert Selects(parts, f, e.start);
    assert e.start in values;
    if star {
      var k :| 0 <= k < |parts| && Element(parts[k], f).value.star;
      forall x | f.Lo() <= x <= f.Hi() ensures x in values {
        assert Element(parts[k], f).value.Covers(x);
        assert Selects(parts, f, x);
      }
    }
  }

  /** `_parse_field`: the union of the elements, or an error when one is not accepted. */
  method ParseField(raw: string, f: Field) returns (r: Option<(set<int>, bool)>)
    ensures r.Some? ==> Denotes(Split(raw, ','), f, r.value.0, r.value.1)
    ensures r.Some? ==> InRange(f, r.value.0, r.value.1)
    ensures r.None? ==> !Accepted(Split(raw, ','), f)
  {
    hide Split, Span.Covers, Span.Fits, Element, Accepted, Denotes, Selects, Starred, InRange;
    var parts := Split(raw, ',');
    var out: set<int>, star := {}, false;
    DenotesNone(f);
    for k := 0 to |parts|
      invariant Denotes(parts[..k], f, out, star)
    {
      var e := Element(parts[k], f);
      if e.None? {
        NotAccepted(parts, k, f);
        return None;
      }
      DenotesMore(parts[..k], parts[k], f, out, star);
      assert parts[..k + 1] == parts[..k] + [parts[k]];
      out := out + Values(e.value, f);
      star := star || e.value.star;
    }
    assert parts[..|parts|] == parts;
    FieldInRange(parts, f, out, star);
    return Some((out, star));
  }

  lemma DenotesNone(f: Field)
    ensures Denotes([], f, {}, false)
  {
  }

  lemma NotAccepted(parts: seq<string>, k: nat, f: Field)
    requires k < |parts| && Element(parts[k], f).None?
    ensures !Accepted(parts, f)
  {
  }

  /** `range(start, end + 1, step)`. */
  function Values(s: Span, f: Field): (r: set<int>)
    requires s.Fits(f)
    ensures forall x :: x in r <==> s.Covers(x)
  {
    set x | f.Lo() <= x <= f.Hi() && s.Covers(x)
  }

  /** One more accepted element adds its values, and perhaps a star. */
  lemma DenotesMore(parts: seq<string>, part: string, f: Field, values: set<int>, star: bool)
    ensures var e := Element(part, f);
      e.Some? && Denotes(parts, f, values, star) ==>
        Denotes(parts + [part], f, values + Values(e.value, f), star || e.value.star)
  {
    hide Element, Value, SpanOf, Span.Covers;
    if Element(part, f).Some? && Denotes(parts, f, values, star) {
      var e, now := Element(part, f).value, parts + [part];
      assert now[|parts|] == part && forall j | 0 <= j < |parts| :: now[j] == parts[j];
      forall x ensures x in values + Values(e, f) <==> Selects(now, f, x) {
        if x in values {
          var j :| 0 <= j < |parts| && Element(parts[j], f).value.Covers(x);
          assert Element(now[j], f).value.Covers(x);
        } else if x in Values(e, f) {
          assert Element(now[|parts|], f).value.Covers(x);
        }
      }
      if star {
        var j :| 0 <= j < |parts| && Element(parts[j], f).value.star;
        assert Element(now[j], f).value.star;
      } else if e.star {
        assert Element(now[|parts|], f).value.star;
      }
    }
  }

  /** The fields of an expression, an alias spelled out. */
  function Fields(expr: string): seq<string> {
    var words := Words(expr);
    if |words| == 1 && Lower(words[0]) in ALIASES then Words(ALIASES[Lower(words[0])]) else words
  }

  ghost predicate WellFormed(fields: seq<string>) {
    && |fields| == 5
    && Accepted(Split(fields[0], ','), Minute) && Accepted(Split(fields[1], ','), Hour)
    && Accepted(Split(fields[2], ','), Day) && Accepted(Split(fields[3], ','), Month)
    && Accepted(Split(fields[4], ','), Week)
  }

  /** c selects what the fields say; weekday 7 is Sunday again. */
  ghost predicate Means(fields: seq<string>, c: Cron)
    requires WellFormed(fields)
  {
    && (forall x :: x in c.minutes <==> Selects(Split(fields[0], ','), Minute, x))
    && (forall x :: x in c.hours <==> Selects(Split(fields[1], ','), Hour, x))
    && (forall x :: x in c.days <==> Selects(Split(fields[2], ','), Day, x))
    && (forall x :: x in c.months <==> Selects(Split(fields[3], ','), Month, x))
    && (forall x :: x in c.weekdays <==>
         (x != 7 && Selects(Split(fields[4], ','), Week, x)) || (x == 0 && Selects(Split(fields[4], ','), Week, 7)))
    && c.domStar == Starred(Split(fields[2], ','), Day)
    && c.dowStar == Starred(Split(fields[4], ','), Week)
  }

  /** `parse`: accepts exactly the well-formed expressions, and gives their meaning. */
  method Parse(expr: string) returns (r: Option<Cron>)
    ensures r.Some? <==> WellFormed(Fields(expr))
    ensures r.Some? ==> Means(Fields(expr), r.value) && r.value.Parsed()
  {
    hide Accepted, Selects, Starred, Split, Fields;
    var fields := Fields(expr);
    if |fields| != 5 { return None; }
    var minutes := ParseField(fields[0], Minute);
    if minutes.None? { return None; }
    var hours := ParseField(fields[1], Hour);
    if hours.None? { return None; }
    var days := ParseField(fields[2], Day);
    if days.None? { return None; }
    var months := ParseField(fields[3], Month);
    if months.None? { return None; }
    var weekdays := ParseField(fields[4], Week);
    if weekdays.None? { return None; }
    var week := weekdays.value.0;
    if 7 in week { week := (week - {7}) + {0}; }
    WeekInRange(weekdays.value.0, week);
    return Some(
        Cron(minutes.value.0, hours.value.0, days.value.0, months.value.0, week, days.value.1, weekdays.value.1));
  }

  lemma WeekInRange(week: set<int>, folded: set<int>)
    requires week != {} && forall x | x in week :: 0 <= x <= 7
    requires folded == if 7 in week then (week - {7}) + {0} else week
    ensures folded != {} && forall x | x in folded :: 0 <= x <= 6
  {
    if 7 in week { assert 0 in folded; }
  }
}
