/** Cron expressions as people write them, and what `scheduler/cron.py` takes them for.

    An expression is given as five lists of values, ranges and stars, each with or
    without a step.  Its text is accepted exactly when every number is in range,
    every range in order and every step positive, and is parsed to the union of
    what the elements select. */
module CronPrint {
  import opened Calendar
  import opened Options
  import opened Text
  import Cron
  import CronParse

  datatype Item = Star | One(a: nat) | Range(a: nat, b: nat)

  /** An item, every so many values. */
  datatype Element = Element(item: Item, step: Option<nat>) {
    function Print(): string {
      (match item
       case Star => "*"
       case One(a) => Digits(a)
       case Range(a, b) => Digits(a) + "-" + Digits(b))
      + if step.Some? then "/" + Digits(step.value) else ""
    }

    predicate Fits(lo: int, hi: int) {
      && (step.Some? ==> step.value >= 1)
      && match item
         case Star => true
         case One(a) => lo <= a <= hi
         case Range(a, b) => lo <= a <= b <= hi
    }

    function Every(): nat { if step.Some? then step.value else 1 }

    /** One value with a step goes on to the end of the range. */
    predicate Has(lo: int, hi: int, x: int)
      requires Fits(lo, hi)
    {
      match item
      case Star => lo <= x <= hi && (x - lo) % Every() == 0
      case One(a) => if Every() == 1 then x == a else a <= x <= hi && (x - a) % Every() == 0
      case Range(a, b) => a <= x <= b && (x - a) % Every() == 0
    }

    predicate IsStar() { item.Star? && Every() == 1 }
  }

  // ---------------------------------------------------------------- strings

  /** Characters the printed elements are made of. */
  predicate Sign(c: char) { IsDigit(c) || c == '*' || c == '-' || c == '/' }

  predicate Signs(s: string) { forall c | c in s :: Sign(c) }

  lemma SignsStay(s: string)
    requires Signs(s)
    ensures Strip(s) == s && Lower(s) == s
  {
    if s != "" { assert s[0] in s && s[|s| - 1] in s; }
    forall i | 0 <= i < |s| ensures LowerChar(s[i]) == s[i] { assert s[i] in s; }
  }

  lemma DigitsAreSigns(n: nat)
    ensures Signs(Digits(n)) && '-' !in Digits(n) && '/' !in Digits(n)
  {
    forall c | c in Digits(n) ensures IsDigit(c) {
      var i :| 0 <= i < |Digits(n)| && Digits(n)[i] == c;
    }
  }

  lemma {:induction false} FindFrom(s: string, c: char, i: nat, k: nat)
    requires i <= k <= |s| && (forall x | i <= x < k :: s[x] != c) && (k < |s| ==> s[k] == c)
    ensures Find(s, c, i) == k
    decreases k - i
  {
    if i < k { FindFrom(s, c, i + 1, k); }
  }

  lemma FindIs(a: string, c: char, b: string)
    requires c !in a
    ensures Find(a, c, 0) == |a|
    ensures Find(a + [c] + b, c, 0) == |a|
  {
    FindFrom(a, c, 0, |a|);
    FindFrom(a + [c] + b, c, 0, |a|);
  }

  /** The parts with a sign between them. */
  function Join(parts: seq<string>, c: char): string {
    if parts == [] then "" else if |parts| == 1 then parts[0] else parts[0] + [c] + Join(parts[1..], c)
  }

  lemma SplitNext(first: string, c: char, rest: string)
    requires c !in first
    ensures Split(first, c) == [first]
    ensures Split(first + [c] + rest, c) == [first] + Split(rest, c)
  {
    hide Find;
    FindIs(first, c, rest);
    var s := first + [c] + rest;
    assert s[..|first|] == first && s[|first| + 1..] == rest;
  }

  lemma {:induction false} SplitJoin(parts: seq<string>, c: char)
    requires parts != [] && forall p | p in parts :: c !in p
    ensures Split(Join(parts, c), c) == parts
  {
    hide Split;
    var first, rest := parts[0], parts[1..];
    assert first in parts && forall p | p in rest :: p in parts;
    if rest != [] { SplitJoin(rest, c); }
    SplitNext(first, c, Join(rest, c));
  }

  predicate IsWord(w: string) { w != "" && forall c | c in w :: !IsSpace(c) }

  lemma {:induction false} WordEndIs(s: string, i: nat, k: nat)
    requires i <= k <= |s| && (forall x | i <= x < k :: !IsSpace(s[x])) && (k < |s| ==> IsSpace(s[k]))
    ensures WordEnd(s, i) == k
    decreases k - i
  {
    if i < k { WordEndIs(s, i + 1, k); }
  }

  lemma {:induction false} WordsJoin(words: seq<string>)
    requires words != [] && forall w | w in words :: IsWord(w)
    ensures Words(Join(words, ' ')) == words
  {
    var first, rest, s := words[0], words[1..], Join(words, ' ');
    assert first in words && forall w | w in rest :: w in words;
    forall x | 0 <= x < |first| ensures s[x] == first[x] && !IsSpace(s[x]) { assert first[x] in first; }
    WordEndIs(s, 1, |first|);
    assert s[..|first|] == first;
    if rest == [] {
      assert s[|first|..] == "";
    } else {
      WordsJoin(rest);
      var tail := s[|first|..];
      assert tail == " " + Join(rest, ' ') && tail[1..] == Join(rest, ' ');
    }
  }

  // ---------------------------------------------------------------- elements

  lemma ValueOfDigits(n: nat, f: CronParse.Field)
    ensures CronParse.Value(Digits(n), f) == if f.Lo() <= n <= f.Hi() then Some(n) else None
  {
    hide Number, Digits;
    var s := Digits(n);
    NumberDigits(n);
    assert IsDigit(s[0]);
    NotAName(s);
  }

  lemma NotAName(s: string)
    requires s != "" && IsDigit(s[0])
    ensures s !in CronParse.MONTHS && s !in CronParse.DAYS
  {
  }

  /** A body without a step. */
  function Body(item: Item): string { Element(item, None).Print() }

  lemma BodyIsSigns(item: Item)
    ensures Signs(Body(item)) && '/' !in Body(item) && Body(item) != ""
    ensures item.Star? <==> Body(item) == "*"
  {
    hide Digits;
    match item
    case Star =>
    case One(a) =>
      DigitsAreSigns(a);
      assert Body(item) == Digits(a) && IsDigit(Digits(a)[0]);
    case Range(a, b) =>
      DigitsAreSigns(a);
      DigitsAreSigns(b);
      assert Body(item)[0] == Digits(a)[0] && IsDigit(Digits(a)[0]);
  }

  /** The span of the element, when it fits. */
  ghost predicate Spans(e: Element, f: CronParse.Field, r: Option<CronParse.Span>) {
    && (r.Some? <==> e.Fits(f.Lo(), f.Hi()))
    && (r.Some? ==>
          && (forall x :: r.value.Covers(x) <==> e.Has(f.Lo(), f.Hi(), x))
          && (r.value.star <==> e.IsStar()))
  }

  lemma SpanOfBody(e: Element, f: CronParse.Field)
    requires e.Every() >= 1
    ensures Spans(e, f, CronParse.SpanOf(Body(e.item), e.Every(), f))
  {
    hide Digits, CronParse.SpanOf, Spans;
    match e.item
    case Star => SpanOfStar(e, f);
    case One(a) => SpanOfOne(e, a, f);
    case Range(a, b) => SpanOfRange(e, a, b, f);
  }

  lemma SpanOfStar(e: Element, f: CronParse.Field)
    requires e.Every() >= 1 && e.item == Star
    ensures Spans(e, f, CronParse.SpanOf(Body(e.item), e.Every(), f))
  {
    assert Body(e.item) == "*";
  }

  lemma SpanOfOne(e: Element, a: nat, f: CronParse.Field)
    requires e.Every() >= 1 && e.item == One(a)
    ensures Spans(e, f, CronParse.SpanOf(Body(e.item), e.Every(), f))
  {
    hide Digits, CronParse.Value, Spans;
    var s := Digits(a);
    DigitsAreSigns(a);
    FindIs(s, '-', "");
    ValueOfDigits(a, f);
    assert Body(e.item) == s && s[..|s|] == s && IsDigit(s[0]);
    OneSpans(e, a, f);
  }

  lemma OneSpans(e: Element, a: nat, f: CronParse.Field)
    requires e.Every() >= 1 && e.item == One(a)
    ensures Spans(e, f,
                  if f.Lo() <= a <= f.Hi()
                  then Some(CronParse.Span(a, if e.Every() > 1 then f.Hi() else a, e.Every(), false)) else None)
  {
  }

  lemma SpanOfRange(e: Element, a: nat, b: nat, f: CronParse.Field)
    requires e.Every() >= 1 && e.item == Range(a, b)
    ensures Spans(e, f, CronParse.SpanOf(Body(e.item), e.Every(), f))
  {
    hide Digits, CronParse.Value, Spans;
    var s := Digits(a) + "-" + Digits(b);
    DigitsAreSigns(a);
    FindIs(Digits(a), '-', Digits(b));
    ValueOfDigits(a, f);
    ValueOfDigits(b, f);
    assert Body(e.item) == s && s[..|Digits(a)|] == Digits(a) && s[|Digits(a)| + 1..] == Digits(b);
    assert IsDigit(Digits(a)[0]) && s[0] == Digits(a)[0];
    RangeSpans(e, a, b, f);
  }

  lemma RangeSpans(e: Element, a: nat, b: nat, f: CronParse.Field)
    requires e.Every() >= 1 && e.item == Range(a, b)
    ensures Spans(e, f,
                  if f.Lo() <= a <= b <= f.Hi() then Some(CronParse.Span(a, b, e.Every(), false)) else None)
  {
  }

  lemma ElementOfPrint(e: Element, f: CronParse.Field)
    ensures Signs(e.Print()) && Spans(e, f, CronParse.Element(e.Print(), f))
  {
    hide Element.Print, Spans, Signs, CronParse.Element;
    if e.step.None? { PlainElement(e, f); } else { SteppedElement(e, f); }
  }

  lemma PlainElement(e: Element, f: CronParse.Field)
    requires e.step.None?
    ensures Signs(e.Print()) && Spans(e, f, CronParse.Element(e.Print(), f))
  {
    hide Digits, CronParse.SpanOf, Spans, Strip, Lower, Signs, Element.Print;
    var s := e.Print();
    assert e == Element(e.item, None);
    BodyIsSigns(e.item);
    SignsStay(s);
    FindIs(s, '/', "");
    SpanOfBody(e, f);
  }

  lemma SteppedPrint(e: Element)
    requires e.step.Some?
    ensures e.Print() == Body(e.item) + "/" + Digits(e.step.value)
    ensures Signs(e.Print()) && Find(e.Print(), '/', 0) == |Body(e.item)|
  {
    hide Digits;
    BodyIsSigns(e.item);
    DigitsAreSigns(e.step.value);
    FindIs(Body(e.item), '/', Digits(e.step.value));
    assert Body(e.item) + ("/" + Digits(e.step.value)) == Body(e.item) + "/" + Digits(e.step.value);
  }

  lemma SteppedElement(e: Element, f: CronParse.Field)
    requires e.step.Some?
    ensures Signs(e.Print()) && Spans(e, f, CronParse.Element(e.Print(), f))
  {
    hide Digits, CronParse.SpanOf, Spans, Strip, Lower, Signs, Element.Print, Number, Find;
    var s, body, step := e.Print(), Body(e.item), Digits(e.step.value);
    SteppedPrint(e);
    SignsStay(s);
    assert s[..|body|] == body && s[|body| + 1..] == step;
    NumberDigits(e.step.value);
    if e.step.value >= 1 { SpanOfBody(e, f); } else { NoSpan(e, f); }
  }

  lemma NoSpan(e: Element, f: CronParse.Field)
    requires e.step == Some(0)
    ensures Spans(e, f, None)
  {
  }

  // ---------------------------------------------------------------- fields

  function Prints(es: seq<Element>): seq<string> { seq(|es|, i requires 0 <= i < |es| => es[i].Print()) }

  /** A list of elements, printed. */
  function PrintField(es: seq<Element>): string { Join(Prints(es), ',') }

  predicate AllFit(es: seq<Element>, lo: int, hi: int) { forall e | e in es :: e.Fits(lo, hi) }

  predicate Chosen(es: seq<Element>, lo: int, hi: int, x: int)
    requires AllFit(es, lo, hi)
  {
    exists e :: e in es && e.Has(lo, hi, x)
  }

  predicate AnyStar(es: seq<Element>) { exists e :: e in es && e.IsStar() }

  /** A printed field is split into its elements again. */
  lemma FieldIsSplit(es: seq<Element>)
    requires es != []
    ensures Split(PrintField(es), ',') == Prints(es)
  {
    hide Element.Print, Split, Join;
    forall p | p in Prints(es) ensures ',' !in p {
      var i :| 0 <= i < |es| && p == es[i].Print();
      ElementOfPrint(es[i], CronParse.Minute);
    }
    SplitJoin(Prints(es), ',');
  }

  lemma {:induction false} FieldIsWord(es: seq<Element>)
    requires es != []
    ensures IsWord(PrintField(es))
  {
    hide Element.Print;
    ElementIsWord(es[0]);
    if |es| > 1 {
      FieldIsWord(es[1..]);
      assert Prints(es)[1..] == Prints(es[1..]);
    }
  }

  lemma ElementIsWord(e: Element)
    ensures IsWord(e.Print())
  {
    hide Digits;
    ElementOfPrint(e, CronParse.Minute);
    BodyIsSigns(e.item);
    assert e.Print()[0] == Body(e.item)[0];
  }

  lemma FieldIsAccepted(es: seq<Element>, f: CronParse.Field)
    ensures CronParse.Accepted(Prints(es), f) <==> AllFit(es, f.Lo(), f.Hi())
  {
    hide Element.Print, Element.Fits, CronParse.Element;
    forall i | 0 <= i < |es|
      ensures CronParse.Element(Prints(es)[i], f).Some? <==> es[i].Fits(f.Lo(), f.Hi())
    {
      ElementOfPrint(es[i], f);
    }
    if CronParse.Accepted(Prints(es), f) {
      forall e | e in es ensures e.Fits(f.Lo(), f.Hi()) {
        var i :| 0 <= i < |es| && es[i] == e;
        assert CronParse.Element(Prints(es)[i], f).Some?;
      }
    }
  }

  lemma FieldSelects(es: seq<Element>, f: CronParse.Field, x: int)
    requires CronParse.Accepted(Prints(es), f) && AllFit(es, f.Lo(), f.Hi())
    ensures CronParse.Selects(Prints(es), f, x) <==> Chosen(es, f.Lo(), f.Hi(), x)
    ensures CronParse.Starred(Prints(es), f) <==> AnyStar(es)
  {
    hide Element.Print, Element.Fits, Element.Has, CronParse.Element, CronParse.Span.Covers;
    forall i | 0 <= i < |es|
      ensures var s := CronParse.Element(Prints(es)[i], f).value;
        (s.Covers(x) <==> es[i].Has(f.Lo(), f.Hi(), x)) && (s.star <==> es[i].IsStar())
    {
      ElementOfPrint(es[i], f);
    }
  }

  // ---------------------------------------------------------------- expressions

  /** The five lists of an expression. */
  datatype Expr = Expr(minute: seq<Element>, hour: seq<Element>, day: seq<Element>, month: seq<Element>,
                       week: seq<Element>)
  {
    ghost predicate Complete() { minute != [] && hour != [] && day != [] && month != [] && week != [] }

    function Lists(): seq<seq<Element>> { [minute, hour, day, month, week] }

    function Fields(): seq<string> {
      [PrintField(minute), PrintField(hour), PrintField(day), PrintField(month), PrintField(week)]
    }

    function Print(): string { Join(Fields(), ' ') }

    predicate Fits() {
      && AllFit(minute, 0, 59) && AllFit(hour, 0, 23) && AllFit(day, 1, 31) && AllFit(month, 1, 12)
      && AllFit(week, 0, 7)
    }
  }

  lemma FieldsOfPrint(e: Expr)
    requires e.Complete()
    ensures CronParse.Fields(e.Print()) == e.Fields()
  {
    hide Words, Join, PrintField, IsWord;
    FieldIsWord(e.minute);
    FieldIsWord(e.hour);
    FieldIsWord(e.day);
    FieldIsWord(e.month);
    FieldIsWord(e.week);
    WordsJoin(e.Fields());
  }

  /** A printed expression is accepted exactly when its numbers are in range and in
      order and its steps are positive. */
  lemma PrintedIsAcceptedIff(e: Expr)
    requires e.Complete()
    ensures CronParse.WellFormed(CronParse.Fields(e.Print())) <==> e.Fits()
  {
    hide CronParse.Fields, PrintField, Prints, CronParse.Accepted, AllFit, Expr.Print;
    FieldsOfPrint(e);
    FieldIsSplit(e.minute);
    FieldIsSplit(e.hour);
    FieldIsSplit(e.day);
    FieldIsSplit(e.month);
    FieldIsSplit(e.week);
    FieldIsAccepted(e.minute, CronParse.Minute);
    FieldIsAccepted(e.hour, CronParse.Hour);
    FieldIsAccepted(e.day, CronParse.Day);
    FieldIsAccepted(e.month, CronParse.Month);
    FieldIsAccepted(e.week, CronParse.Week);
  }

  /** Its meaning: what any of the elements of a list has, with 7 for Sunday too. */
  ghost predicate Says(e: Expr, c: Cron.Cron)
    requires e.Fits()
  {
    && (forall x :: x in c.minutes <==> Chosen(e.minute, 0, 59, x))
    && (forall x :: x in c.hours <==> Chosen(e.hour, 0, 23, x))
    && (forall x :: x in c.days <==> Chosen(e.day, 1, 31, x))
    && (forall x :: x in c.months <==> Chosen(e.month, 1, 12, x))
    && (forall x :: x in c.weekdays <==>
          (x != 7 && Chosen(e.week, 0, 7, x)) || (x == 0 && Chosen(e.week, 0, 7, 7)))
    && (c.domStar <==> AnyStar(e.day)) && (c.dowStar <==> AnyStar(e.week))
  }

  /** Parsing a printed expression gives its meaning. */
  lemma PrintedMeans(e: Expr, c: Cron.Cron)
    requires e.Complete() && e.Fits()
    ensures var fields := CronParse.Fields(e.Print());
      CronParse.WellFormed(fields) && (CronParse.Means(fields, c) <==> Says(e, c))
  {
    hide CronParse.Fields, PrintField, Prints, CronParse.Accepted, AllFit, Expr.Print, CronParse.Selects, Chosen,
      CronParse.Starred, AnyStar;
    PrintedIsAcceptedIff(e);
    FieldsOfPrint(e);
    FieldIsSplit(e.minute);
    FieldIsSplit(e.hour);
    FieldIsSplit(e.day);
    FieldIsSplit(e.month);
    FieldIsSplit(e.week);
    forall x
      ensures CronParse.Selects(Prints(e.minute), CronParse.Minute, x) <==> Chosen(e.minute, 0, 59, x)
      ensures CronParse.Selects(Prints(e.hour), CronParse.Hour, x) <==> Chosen(e.hour, 0, 23, x)
      ensures CronParse.Selects(Prints(e.day), CronParse.Day, x) <==> Chosen(e.day, 1, 31, x)
      ensures CronParse.Selects(Prints(e.month), CronParse.Month, x) <==> Chosen(e.month, 1, 12, x)
      ensures CronParse.Selects(Prints(e.week), CronParse.Week, x) <==> Chosen(e.week, 0, 7, x)
      ensures CronParse.Starred(Prints(e.day), CronParse.Day) <==> AnyStar(e.day)
      ensures CronParse.Starred(Prints(e.week), CronParse.Week) <==> AnyStar(e.week)
    {
      FieldSelects(e.minute, CronParse.Minute, x);
      FieldSelects(e.hour, CronParse.Hour, x);
      FieldSelects(e.day, CronParse.Day, x);
      FieldSelects(e.month, CronParse.Month, x);
      FieldSelects(e.week, CronParse.Week, x);
    }
  }

  // ---------------------------------------------------------------- names, case and white space

  lemma NamesAreNumbers()
    ensures var months := ["jan", "feb", "mar", "apr", "may", "jun", "jul", "aug", "sep", "oct", "nov", "dec"];
      forall i | 0 <= i < 12 :: CronParse.Value(months[i], CronParse.Month) == Some(i + 1)
    ensures var days := ["sun", "mon", "tue", "wed", "thu", "fri", "sat"];
      forall i | 0 <= i < 7 :: CronParse.Value(days[i], CronParse.Week) == Some(i)
  {
    hide CronParse.Value;
    MonthNames();
    DayNames();
  }

  lemma MonthNames()
    ensures var months := ["jan", "feb", "mar", "apr", "may", "jun", "jul", "aug", "sep", "oct", "nov", "dec"];
      forall i | 0 <= i < 12 :: CronParse.Value(months[i], CronParse.Month) == Some(i + 1)
  {
    hide Number, AllDigits;
  }

  lemma DayNames()
    ensures var days := ["sun", "mon", "tue", "wed", "thu", "fri", "sat"];
      forall i | 0 <= i < 7 :: CronParse.Value(days[i], CronParse.Week) == Some(i)
  {
    hide Number, AllDigits;
  }

  /** White space around an element and the case of its letters make no difference. */
  lemma ElementIsTidied(raw: string, c: char, f: CronParse.Field)
    requires IsSpace(c)
    ensures CronParse.Element([c] + raw, f) == CronParse.Element(raw, f)
    ensures CronParse.Element(raw + [c], f) == CronParse.Element(raw, f)
    ensures CronParse.Element(Lower(raw), f) == CronParse.Element(raw, f)
  {
    hide Find, CronParse.SpanOf, AllDigits, Number, Lower, Strip;
    StripSpace(raw, c);
    StripLower(raw);
    LowerTwice(Strip(raw));
  }

  lemma {:induction false} StripLower(s: string)
    ensures Strip(Lower(s)) == Lower(Strip(s))
    decreases |s|
  {
    if s != "" {
      if IsSpace(s[0]) {
        StripLower(s[1..]);
        assert Lower(s)[1..] == Lower(s[1..]);
      } else if IsSpace(s[|s| - 1]) {
        StripLower(s[..|s| - 1]);
        assert Lower(s)[..|s| - 1] == Lower(s[..|s| - 1]);
      }
    }
  }

  lemma LowerTwice(s: string)
    ensures Lower(Lower(s)) == Lower(s)
  {
  }

  lemma OneWord(s: string)
    requires IsWord(s)
    ensures Words(s) == [s]
  {
    assert Join([s], ' ') == s;
    WordsJoin([s]);
  }

  lemma JoinFive(a: string, b: string, c: string, d: string, e: string)
    ensures Join([a, b, c, d, e], ' ') == a + " " + (b + " " + (c + " " + (d + " " + e)))
  {
    assert [d, e][1..] == [e] && Join([d, e], ' ') == d + " " + e;
    assert [c, d, e][1..] == [d, e] && Join([c, d, e], ' ') == c + " " + (d + " " + e);
    assert [b, c, d, e][1..] == [c, d, e] && Join([b, c, d, e], ' ') == b + " " + (c + " " + (d + " " + e));
    assert [a, b, c, d, e][1..] == [b, c, d, e];
  }

  predicate IsShort(w: string) { w == "0" || w == "1" || w == "*" }

  /** Five short words, as an alias stands for. */
  lemma FiveWords(text: string, a: string, b: string, c: string, d: string, e: string)
    requires IsShort(a) && IsShort(b) && IsShort(c) && IsShort(d) && IsShort(e)
    requires text == a + " " + (b + " " + (c + " " + (d + " " + e)))
    ensures Words(text) == [a, b, c, d, e]
  {
    hide Words, Join;
    assert forall w | w in [a, b, c, d, e] :: IsWord(w);
    JoinFive(a, b, c, d, e);
    WordsJoin([a, b, c, d, e]);
  }

  lemma AliasTexts()
    ensures Words("0 * * * *") == ["0", "*", "*", "*", "*"] && Words("0 0 * * *") == ["0", "0", "*", "*", "*"]
    ensures Words("0 0 * * 0") == ["0", "0", "*", "*", "0"] && Words("0 0 1 * *") == ["0", "0", "1", "*", "*"]
    ensures Words("0 0 1 1 *") == ["0", "0", "1", "1", "*"]
  {
    hide Words;
    FiveWords("0 * * * *", "0", "*", "*", "*", "*");
    FiveWords("0 0 * * *", "0", "0", "*", "*", "*");
    FiveWords("0 0 * * 0", "0", "0", "*", "*", "0");
    FiveWords("0 0 1 * *", "0", "0", "1", "*", "*");
    FiveWords("0 0 1 1 *", "0", "0", "1", "1", "*");
  }

  /** The seven aliases, in any case. */
  lemma AliasesAre(s: string)
    requires IsWord(s)
    ensures var alias, five := Lower(s), CronParse.Fields(s);
      && (alias == "@hourly" ==> five == ["0", "*", "*", "*", "*"])
      && (alias == "@daily" || alias == "@midnight" ==> five == ["0", "0", "*", "*", "*"])
      && (alias == "@weekly" ==> five == ["0", "0", "*", "*", "0"])
      && (alias == "@monthly" ==> five == ["0", "0", "1", "*", "*"])
      && (alias == "@yearly" || alias == "@annually" ==> five == ["0", "0", "1", "1", "*"])
  {
    hide Words, Lower, IsWord;
    OneWord(s);
    AliasTexts();
  }

  // ---------------------------------------------------------------- Mondays at nine

  const NINE_ON_MONDAYS := Expr([Element(One(0), None)], [Element(One(9), None)], [Element(Star, None)],
                                [Element(Star, None)], [Element(One(1), None)])

  lemma PrintsOne(a: nat)
    requires a < 10
    ensures PrintField([Element(One(a), None)]) == [('0' as int + a) as char]
  {
  }

  lemma PrintsStar()
    ensures PrintField([Element(Star, None)]) == "*"
  {
  }

  lemma NineOnMondaysPrints()
    ensures NINE_ON_MONDAYS.Print() == "0 9 * * 1"
  {
    hide PrintField;
    var e := NINE_ON_MONDAYS;
    PrintsOne(0);
    PrintsOne(9);
    PrintsOne(1);
    PrintsStar();
    JoinFive("0", "9", "*", "*", "1");
  }

  lemma ChosenOne(a: nat, lo: int, hi: int, x: int)
    requires lo <= a <= hi
    ensures AllFit([Element(One(a), None)], lo, hi) && (Chosen([Element(One(a), None)], lo, hi, x) <==> x == a)
    ensures !AnyStar([Element(One(a), None)])
  {
    assert Element(One(a), None) in [Element(One(a), None)];
  }

  lemma ChosenStar(lo: int, hi: int, x: int)
    ensures AllFit([Element(Star, None)], lo, hi) && (Chosen([Element(Star, None)], lo, hi, x) <==> lo <= x <= hi)
    ensures AnyStar([Element(Star, None)])
  {
    assert Element(Star, None) in [Element(Star, None)];
  }

  /** "0 9 * * 1" selects nine o'clock, every day of the month and every month, and Mondays. */
  lemma NineOnMondaysMeans(c: Cron.Cron)
    requires CronParse.WellFormed(CronParse.Fields("0 9 * * 1")) && CronParse.Means(CronParse.Fields("0 9 * * 1"), c)
    ensures c.minutes == {0} && c.hours == {9} && c.weekdays == {1} && c.domStar && !c.dowStar
    ensures forall x :: x in c.months <==> 1 <= x <= 12
  {
    hide CronParse.WellFormed, CronParse.Means, CronParse.Fields, Expr.Print, Chosen, AllFit, AnyStar;
    var e := NINE_ON_MONDAYS;
    NineOnMondaysPrints();
    NineOnMondaysFits(e, 0);
    PrintedMeans(e, c);
    assert e.Print() == "0 9 * * 1" && Says(e, c);
    forall x
      ensures Chosen(e.minute, 0, 59, x) <==> x == 0
      ensures Chosen(e.hour, 0, 23, x) <==> x == 9
      ensures Chosen(e.month, 1, 12, x) <==> 1 <= x <= 12
      ensures Chosen(e.week, 0, 7, x) <==> x == 1
    {
      NineOnMondaysFits(e, x);
    }
    assert forall x :: x in c.minutes <==> x == 0;
    assert forall x :: x in c.hours <==> x == 9;
    assert forall x :: x in c.weekdays <==> x == 1;
  }

  lemma NineOnMondaysFits(e: Expr, x: int)
    requires e == NINE_ON_MONDAYS
    ensures e.Complete() && e.Fits() && AnyStar(e.day) && !AnyStar(e.week)
    ensures Chosen(e.minute, 0, 59, x) <==> x == 0
    ensures Chosen(e.hour, 0, 23, x) <==> x == 9
    ensures Chosen(e.month, 1, 12, x) <==> 1 <= x <= 12
    ensures Chosen(e.week, 0, 7, x) <==> x == 1
  {
    hide Chosen, AllFit, AnyStar;
    ChosenOne(0, 0, 59, x);
    ChosenOne(9, 0, 23, x);
    ChosenOne(1, 0, 7, x);
    ChosenStar(1, 12, x);
    ChosenStar(1, 31, x);
  }

  /** After the midnight that Monday, 5 January 2026 begins with, it fires at nine the same day. */
  lemma MondayAtNine(c: Cron.Cron, micros: int)
    requires CronParse.WellFormed(CronParse.Fields("0 9 * * 1")) && CronParse.Means(CronParse.Fields("0 9 * * 1"), c)
    requires 0 <= micros < MINUTE_MICROS
    ensures Cron.IsNext(c, Moment(Time(Date(2026, 1, 5), 0, 0), micros), Time(Date(2026, 1, 5), 9, 0))
  {
    hide CronParse.WellFormed, CronParse.Means, CronParse.Fields, Ordinal, Weekday;
    NineOnMondaysMeans(c);
    KnownDays();
    var from, t := Time(Date(2026, 1, 5), 0, 0), Time(Date(2026, 1, 5), 9, 0);
    forall u | Valid(u) && Minutes(from) < Minutes(u) < Minutes(t) ensures !c.Fires(u) {
      Cron.Jumps(from);
      Cron.SameDay(from, u);
      assert u.hour < 9;
    }
  }
}
