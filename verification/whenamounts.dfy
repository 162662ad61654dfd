/** Durations as `scheduler/when.py` accepts them.

    A duration is given as a list of amounts: digits, perhaps a point or a comma and
    more digits, white space, and letters.  Between two amounts there may be spaces,
    commas and the Russian word for "and".  The four parts of an amount are found
    one after the other by the runs of the pattern; then the loop over the matches
    adds the amounts up. */
module WhenAmounts {
  import opened Options
  import opened Text
  import opened When

  /** The seconds of a unit, in English and in Russian. */
  function Seconds(unit: string): Option<nat> {
    if unit in {"s", "sec", "secs", "second", "seconds", "с", "сек"} then Some(1)
    else if unit in {"m", "min", "mins", "minute", "minutes", "м", "мин"} then Some(60)
    else if unit in {"h", "hr", "hrs", "hour", "hours", "ч", "час", "часа", "часов"} then Some(60 * 60)
    else if unit in {"d", "day", "days", "д", "дн", "день", "дня", "дней"} then Some(24 * 60 * 60)
    else if unit in {"w", "week", "weeks", "н", "нед", "неделя", "недели"} then Some(7 * 24 * 60 * 60)
    else None
  }

  lemma UnitsAre(unit: string)
    ensures UnitSize(unit) == Seconds(unit)
  {
  }

  predicate Separators(s: string) { forall i | 0 <= i < |s| :: s[i] == ' ' || s[i] == ',' || s[i] == 'и' }

  predicate AllLetters(s: string) { forall i | 0 <= i < |s| :: IsLetter(s[i]) }

  predicate AllSpaces(s: string) { forall i | 0 <= i < |s| :: IsSpace(s[i]) }

  predicate DigitsOnly(s: string) { forall i | 0 <= i < |s| :: IsDigit(s[i]) }

  /** An amount: what separates it from the one before, its digits before and after the
      point or comma, white space, and its unit. */
  datatype Amount = Amount(before: string, whole: string, point: char, fraction: string, gap: string, unit: string) {
    predicate Valid() {
      && Separators(before) && (before != "" ==> before[0] != 'и')
      && whole != "" && DigitsOnly(whole) && DigitsOnly(fraction) && (point == '.' || point == ',')
      && AllSpaces(gap) && unit != "" && AllLetters(unit)
    }

    function Figure(): string { whole + if fraction == "" then "" else [point] + fraction }

    function Body(): string { Figure() + gap + unit }

    function Print(): string { before + Body() }

    function Value(): real
      requires Valid()
    {
      Number(whole) as real + if fraction == "" then 0.0 else Number(fraction) as real / Ten(|fraction|) as real
    }
  }

  function Ten(n: nat): nat
    ensures Ten(n) >= 1
  {
    if n == 0 then 1 else Ten(n - 1) * 10
  }

  lemma {:induction false} PowersAgree(n: nat)
    ensures Power10(n) == Ten(n)
  {
    if n > 0 { PowersAgree(n - 1); }
  }

  /** `int` of a text of digits: each one counts ten times what the next one does. */
  lemma NumberMore(s: string, c: char)
    requires DigitsOnly(s) && '0' <= c <= '9'
    ensures Number("") == 0 && DigitsOnly(s + [c]) && Number(s + [c]) == 10 * Number(s) + (c as int - 48)
  {
    assert (s + [c])[..|s|] == s;
  }

  // ---------------------------------------------------------------- one amount

  lemma Piece(pre: string, x: string, post: string)
    ensures (pre + x + post)[|pre|..|pre| + |x|] == x
  {
  }

  lemma RunOf(pre: string, x: string, post: string, f: char -> bool)
    requires (forall i | 0 <= i < |x| :: f(x[i])) && (post != "" ==> !f(post[0]))
    ensures RunEnd(pre + x + post, |pre|, f) == |pre| + |x|
  {
    var s := pre + x + post;
    forall k | |pre| <= k < |pre| + |x| ensures f(s[k]) { assert s[k] == x[k - |pre|]; }
    if post != "" { assert s[|pre| + |x|] == post[0]; }
    RunEndIs(s, |pre|, |pre| + |x|, f);
  }

  /** What follows the digits of an amount is no digit, and no point or comma. */
  lemma TailBegins(a: Amount, post: string)
    requires a.Valid()
    ensures var tail := a.gap + (a.unit + post);
      tail != "" && !IsDigit(tail[0]) && tail[0] != '.' && tail[0] != ','
  {
    assert (a.gap + (a.unit + post))[0] == if a.gap == "" then a.unit[0] else a.gap[0];
  }

  /** The pattern on a text whose four runs are known. */
  lemma MatchRuns(s: string, i: nat, d: nat, f: nat, w: nat, l: nat)
    requires i < d <= f <= w < l <= |s| && RunEnd(s, i, IsDigit) == d
    requires RunEnd(s, f, IsSpace) == w && RunEnd(s, w, IsLetter) == l
    requires d < f ==> d + 1 < f && (s[d] == '.' || s[d] == ',') && IsDigit(s[d + 1]) && RunEnd(s, d + 1, IsDigit) == f
    requires d == f ==> s[d] != '.' && s[d] != ','
    ensures MatchAt(s, i) == Some(Match(i, l,
                                        NumberIn(s, i, d) as real +
                                        if d == f then 0.0
                                        else NumberIn(s, d + 1, f) as real / Power10(f - d - 1) as real,
                                        s[w..l]))
  {
    hide RunEnd, Number, Power10;
  }

  lemma GapAndUnit(figure: string, a: Amount, post: string)
    requires a.Valid() && (post != "" ==> !IsLetter(post[0]))
    ensures var s, f := figure + (a.gap + (a.unit + post)), |figure|;
      var w := f + |a.gap|;
      && RunEnd(s, f, IsSpace) == w && RunEnd(s, w, IsLetter) == w + |a.unit|
      && w + |a.unit| <= |s| && s[w..w + |a.unit|] == a.unit
  {
    hide RunEnd;
    var s := figure + (a.gap + (a.unit + post));
    assert s == figure + a.gap + (a.unit + post);
    RunOf(figure, a.gap, a.unit + post, IsSpace);
    assert s == (figure + a.gap) + a.unit + post;
    RunOf(figure + a.gap, a.unit, post, IsLetter);
    Piece(figure + a.gap, a.unit, post);
  }

  lemma WholeRun(pre: string, whole: string, tail: string)
    requires DigitsOnly(whole) && tail != "" && !IsDigit(tail[0])
    ensures var s, d := pre + whole + tail, |pre| + |whole|;
      d < |s| && RunEnd(s, |pre|, IsDigit) == d && s[|pre|..d] == whole && s[d] == tail[0]
  {
    hide RunEnd;
    assert (pre + whole + tail)[|pre| + |whole|] == tail[0];
    RunOf(pre, whole, tail, IsDigit);
    Piece(pre, whole, tail);
  }

  /** The text of an amount without a fraction. */
  function Integral(pre: string, a: Amount, post: string): string { pre + a.whole + (a.gap + (a.unit + post)) }

  lemma IntegralRuns(pre: string, a: Amount, post: string)
    requires a.Valid() && (post != "" ==> !IsLetter(post[0]))
    ensures var s, d := Integral(pre, a, post), |pre| + |a.whole|;
      d < |s| && RunEnd(s, |pre|, IsDigit) == d && s[|pre|..d] == a.whole && s[d] != '.' && s[d] != ','
  {
    hide RunEnd;
    TailBegins(a, post);
    WholeRun(pre, a.whole, a.gap + (a.unit + post));
  }

  lemma IntegralTail(pre: string, a: Amount, post: string)
    requires a.Valid() && (post != "" ==> !IsLetter(post[0]))
    ensures var s, d := Integral(pre, a, post), |pre| + |a.whole|;
      var w := d + |a.gap|;
      && RunEnd(s, d, IsSpace) == w && RunEnd(s, w, IsLetter) == w + |a.unit|
      && w + |a.unit| <= |s| && s[w..w + |a.unit|] == a.unit
  {
    hide RunEnd, Amount.Valid;
    GapAndUnit(pre + a.whole, a, post);
  }

  lemma WholeAmount(pre: string, a: Amount, post: string)
    requires a.Valid() && (post != "" ==> !IsLetter(post[0]))
    ensures MatchAt(Integral(pre, a, post), |pre|) ==
      Some(Match(|pre|, |pre| + |a.whole| + |a.gap| + |a.unit|, Number(a.whole) as real, a.unit))
  {
    hide RunEnd, Number, MatchAt, Power10, Integral;
    var d := |pre| + |a.whole|;
    IntegralRuns(pre, a, post);
    IntegralTail(pre, a, post);
    MatchRuns(Integral(pre, a, post), |pre|, d, d, d + |a.gap|, d + |a.gap| + |a.unit|);
  }

  /** The text of an amount with a fraction. */
  function Fractional(pre: string, a: Amount, tail: string): string {
    pre + a.whole + ([a.point] + a.fraction + tail)
  }

  lemma FractionRuns(pre: string, a: Amount, tail: string)
    requires a.Valid() && a.fraction != "" && tail != "" && !IsDigit(tail[0])
    ensures var s, d := Fractional(pre, a, tail), |pre| + |a.whole|;
      var f := d + 1 + |a.fraction|;
      && f < |s| && RunEnd(s, |pre|, IsDigit) == d && s[|pre|..d] == a.whole && s[d] == a.point && IsDigit(s[d + 1])
      && RunEnd(s, d + 1, IsDigit) == f && s[d + 1..f] == a.fraction
  {
    hide RunEnd;
    var rest, head := [a.point] + a.fraction + tail, pre + a.whole + [a.point];
    RunOf(pre, a.whole, rest, IsDigit);
    Piece(pre, a.whole, rest);
    assert Fractional(pre, a, tail) == head + a.fraction + tail;
    RunOf(head, a.fraction, tail, IsDigit);
    Piece(head, a.fraction, tail);
    assert (head + a.fraction + tail)[|head|] == a.fraction[0] && (head + a.fraction + tail)[|head| - 1] == a.point;
  }

  lemma FractionTail(pre: string, a: Amount, post: string)
    requires a.Valid() && a.fraction != "" && (post != "" ==> !IsLetter(post[0]))
    ensures var s, f := Fractional(pre, a, a.gap + (a.unit + post)), |pre| + |a.whole| + 1 + |a.fraction|;
      var w := f + |a.gap|;
      && RunEnd(s, f, IsSpace) == w && RunEnd(s, w, IsLetter) == w + |a.unit|
      && w + |a.unit| <= |s| && s[w..w + |a.unit|] == a.unit
  {
    hide RunEnd, Amount.Valid;
    var figure := pre + a.whole + [a.point] + a.fraction;
    GapAndUnit(figure, a, post);
    assert figure + (a.gap + (a.unit + post)) == Fractional(pre, a, a.gap + (a.unit + post));
  }

  lemma FractionAmount(pre: string, a: Amount, post: string)
    requires a.Valid() && a.fraction != "" && (post != "" ==> !IsLetter(post[0]))
    ensures var i := |pre|;
      MatchAt(Fractional(pre, a, a.gap + (a.unit + post)), i) ==
        Some(Match(i, i + |a.whole| + 1 + |a.fraction| + |a.gap| + |a.unit|,
                   Number(a.whole) as real + Number(a.fraction) as real / Power10(|a.fraction|) as real, a.unit))
  {
    hide RunEnd, Number, MatchAt, Power10, Fractional;
    var i, d := |pre|, |pre| + |a.whole|;
    var f := d + 1 + |a.fraction|;
    TailBegins(a, post);
    FractionRuns(pre, a, a.gap + (a.unit + post));
    FractionTail(pre, a, post);
    MatchRuns(Fractional(pre, a, a.gap + (a.unit + post)), i, d, f, f + |a.gap|, f + |a.gap| + |a.unit|);
  }

  lemma MatchAmount(pre: string, a: Amount, post: string)
    requires a.Valid() && (post != "" ==> !IsLetter(post[0]))
    ensures var i := |pre|;
      MatchAt(pre + a.Body() + post, i) == Some(Match(i, i + |a.Body()|, a.Value(), a.unit))
  {
    hide MatchAt, Number, Power10, Ten;
    var s, tail := pre + a.Body() + post, a.gap + (a.unit + post);
    if a.fraction == "" {
      WholeAmount(pre, a, post);
      assert s == Integral(pre, a, post);
    } else {
      FractionAmount(pre, a, post);
      assert s == Fractional(pre, a, tail);
      PowersAgree(|a.fraction|);
    }
  }

  lemma {:induction false} NextSkips(s: string, i: nat, k: nat)
    requires i <= k <= |s| && forall x | i <= x < k :: !IsDigit(s[x])
    ensures Next(s, i) == Next(s, k)
    decreases k - i
  {
    hide MatchAt;
    if i < k {
      NoMatch(s, i);
      NextSkips(s, i + 1, k);
    }
  }

  lemma NextIsHere(s: string, i: nat)
    requires i <= |s| && MatchAt(s, i).Some?
    ensures Next(s, i) == MatchAt(s, i)
  {
    hide MatchAt;
  }

  lemma NoMatch(s: string, i: nat)
    requires i < |s| && !IsDigit(s[i])
    ensures MatchAt(s, i) == None
  {
    RunEndIs(s, i, i, IsDigit);
  }

  lemma ScanNext(s: string, pos: nat, m: Match, total: real)
    requires pos <= |s| && Next(s, pos) == Some(m) && Filler(s[pos..m.start])
    ensures Scan(s, pos, total) == if UnitSize(m.unit).None? then None else Scan(s, m.end, total + Weight(m))
  {
    hide Next, Filler, UnitSize, Weight;
  }

  lemma SkipSeparators(s: string, i: nat, k: nat)
    requires i <= k <= |s| && Separators(s[i..k])
    ensures Next(s, i) == Next(s, k)
  {
    hide Next;
    forall x | i <= x < k ensures !IsDigit(s[x]) { assert s[x] == s[i..k][x - i]; }
    NextSkips(s, i, k);
  }

  lemma SeparatorsFill(before: string)
    requires Separators(before)
    ensures Filler(before)
  {
  }

  /** Where an amount stands in a text, and what the pattern finds there. */
  lemma AmountPlace(s: string, pre: string, a: Amount, post: string)
    requires a.Valid() && s == pre + a.Print() + post && (post != "" ==> !IsLetter(post[0]))
    ensures var start := |pre| + |a.before|;
      && start <= |s| && s[|pre|..start] == a.before
      && MatchAt(s, start) == Some(Match(start, |pre| + |a.Print()|, a.Value(), a.unit))
  {
    hide Amount.Body, Amount.Valid, Amount.Value, MatchAt;
    assert s == (pre + a.before) + a.Body() + post;
    Piece(pre, a.before, a.Body() + post);
    assert s == pre + a.before + (a.Body() + post);
    MatchAmount(pre + a.before, a, post);
  }

  lemma NextAfter(s: string, i: nat, k: nat)
    requires i <= k <= |s| && Separators(s[i..k]) && MatchAt(s, k).Some?
    ensures Next(s, i) == MatchAt(s, k) && Filler(s[i..k])
  {
    hide Next, MatchAt;
    SkipSeparators(s, i, k);
    SeparatorsFill(s[i..k]);
    NextIsHere(s, k);
  }

  lemma ScanFrom(s: string, i: nat, k: nat, m: Match, total: real)
    requires i <= k <= |s| && Separators(s[i..k]) && MatchAt(s, k) == Some(m)
    ensures Scan(s, i, total) == if UnitSize(m.unit).None? then None else Scan(s, m.end, total + Weight(m))
  {
    hide Next, MatchAt, Scan, UnitSize, Weight;
    NextAfter(s, i, k);
    ScanNext(s, i, m, total);
  }

  lemma ValidBefore(a: Amount)
    requires a.Valid()
    ensures Separators(a.before)
  {
  }

  /** The loop takes the next amount whole, or stops at a unit it does not know. */
  lemma ScanAmount(pre: string, a: Amount, post: string, total: real)
    requires a.Valid() && (post != "" ==> !IsLetter(post[0]))
    ensures var s := pre + a.Print() + post;
      Scan(s, |pre|, total) ==
        if Seconds(a.unit).None? then None
        else Scan(s, |pre| + |a.Print()|, total + a.Value() * Seconds(a.unit).value as real)
  {
    hide Scan, UnitSize, Seconds, Amount.Value, Amount.Print, Amount.Valid, MatchAt, Separators;
    var s := pre + a.Print() + post;
    AmountPlace(s, pre, a, post);
    ValidBefore(a);
    UnitsAre(a.unit);
    var m := Match(|pre| + |a.before|, |pre| + |a.Print()|, a.Value(), a.unit);
    ScanFrom(s, |pre|, |pre| + |a.before|, m, total);
  }

  // ---------------------------------------------------------------- all of them

  function PrintAll(amounts: seq<Amount>): string {
    if amounts == [] then "" else amounts[0].Print() + PrintAll(amounts[1..])
  }

  ghost predicate AllValid(amounts: seq<Amount>) { forall i | 0 <= i < |amounts| :: amounts[i].Valid() }

  ghost predicate Known(amounts: seq<Amount>) { forall i | 0 <= i < |amounts| :: Seconds(amounts[i].unit).Some? }

  ghost function Total(amounts: seq<Amount>): real
    requires AllValid(amounts) && Known(amounts)
  {
    if amounts == [] then 0.0
    else amounts[0].Value() * Seconds(amounts[0].unit).value as real + Total(amounts[1..])
  }

  lemma KnownNext(amounts: seq<Amount>)
    requires amounts != []
    ensures AllValid(amounts) <==> amounts[0].Valid() && AllValid(amounts[1..])
    ensures Known(amounts) <==> Seconds(amounts[0].unit).Some? && Known(amounts[1..])
  {
    hide Amount.Valid, Seconds;
    forall i | 1 <= i < |amounts| ensures amounts[i] == amounts[1..][i - 1] {}
  }

  lemma TotalNext(amounts: seq<Amount>)
    requires amounts != [] && AllValid(amounts) && Known(amounts)
    ensures amounts[0].Valid() && AllValid(amounts[1..]) && Seconds(amounts[0].unit).Some? && Known(amounts[1..])
    ensures Total(amounts) == amounts[0].Value() * Seconds(amounts[0].unit).value as real + Total(amounts[1..])
  {
    hide Seconds, Amount.Value, Amount.Valid;
    KnownNext(amounts);
  }

  lemma PrintBegins(amounts: seq<Amount>)
    requires AllValid(amounts)
    ensures PrintAll(amounts) != "" ==> !IsLetter(PrintAll(amounts)[0])
  {
    if amounts != [] { AmountBegins(amounts[0], PrintAll(amounts[1..])); }
  }

  lemma AmountBegins(a: Amount, more: string)
    requires a.Valid()
    ensures var s := a.Print() + more;
      s != "" && !IsLetter(s[0]) && (a.before == "" || a.before[0] != ' ' ==> !IsSpace(s[0]))
  {
    assert (a.Print() + more)[0] == if a.before == "" then a.whole[0] else a.before[0];
  }

  lemma {:induction false} ScanAll(pre: string, amounts: seq<Amount>, total: real)
    requires AllValid(amounts)
    ensures var s := pre + PrintAll(amounts);
      Scan(s, |pre|, total) == if Known(amounts) then Some((|s|, total + Total(amounts))) else None
    decreases |amounts|
  {
    hide Scan, Seconds, Amount.Print, Amount.Value, Amount.Valid, Known, AllValid;
    if amounts == [] {
      assert pre + PrintAll(amounts) == pre;
      NothingIsKnown();
      ScanEnd(pre, total);
    } else {
      var a, rest := amounts[0], amounts[1..];
      KnownNext(amounts);
      PrintBegins(rest);
      ScanAmount(pre, a, PrintAll(rest), total);
      assert pre + PrintAll(amounts) == pre + a.Print() + PrintAll(rest);
      if Seconds(a.unit).Some? {
        ScanAll(pre + a.Print(), rest, total + a.Value() * Seconds(a.unit).value as real);
        if Known(amounts) { TotalNext(amounts); }
      }
    }
  }

  lemma NothingIsKnown()
    ensures Known([]) && Total([]) == 0.0
  {
  }

  ghost predicate LowerCase(s: string) { forall i | 0 <= i < |s| :: LowerLetter(s[i]) == s[i] }

  /** Such a text ends with a letter and has nothing to put in lower case. */
  lemma {:induction false} PrintIsPlain(amounts: seq<Amount>)
    requires amounts != [] && AllValid(amounts)
    ensures PrintAll(amounts) != "" && IsLetter(PrintAll(amounts)[|PrintAll(amounts)| - 1])
    ensures LowerCase(PrintAll(amounts))
  {
    hide Amount.Print, Amount.Valid, AllValid, LowerLetter;
    var rest := amounts[1..];
    KnownNext(amounts);
    AmountIsPlain(amounts[0]);
    if rest != [] { PrintIsPlain(rest); }
  }

  lemma AmountIsPlain(a: Amount)
    requires a.Valid()
    ensures a.Print() != "" && IsLetter(a.Print()[|a.Print()| - 1]) && LowerCase(a.Print())
  {
    hide LowerLetter;
    LowerRuns(a);
    assert a.Print()[|a.Print()| - 1] == a.unit[|a.unit| - 1];
  }

  lemma LowerRuns(a: Amount)
    requires a.Valid()
    ensures LowerCase(a.before) && LowerCase(a.whole) && LowerCase([a.point]) && LowerCase(a.fraction)
      && LowerCase(a.gap) && LowerCase(a.unit)
  {
  }

  /** A text of amounts is accepted exactly when it knows every unit and the sum is
      positive and at most 366 days, and then comes to that sum, rounded down. */
  lemma AmountsAddUp(amounts: seq<Amount>)
    requires amounts != [] && AllValid(amounts)
    requires amounts[0].before == "" || amounts[0].before[0] != ' '
    ensures DurationOf(PrintAll(amounts)) ==
      if Known(amounts) && 0.0 < Total(amounts) <= (366 * 24 * 60 * 60) as real then Some(Total(amounts).Floor)
      else None
  {
    hide Scan, Amount.Print, Amount.Value, Amount.Valid, Seconds, Strip, LowerText, Known;
    var s := PrintAll(amounts);
    PrintIsPlain(amounts);
    AmountBegins(amounts[0], PrintAll(amounts[1..]));
    Untouched(s);
    ScanAll("", amounts, 0.0);
    assert "" + s == s && s[|s|..] == "";
  }

  lemma Untouched(s: string)
    requires s != "" && !IsSpace(s[0]) && IsLetter(s[|s| - 1]) && LowerCase(s)
    ensures Strip(s) == s && LowerText(s) == s && !AllDigits(s)
  {
    assert !IsDigit(s[|s| - 1]);
  }

  // ---------------------------------------------------------------- case and white space

  /** The letters of both alphabets have upper and lower case. */
  lemma LettersHaveCase(k: nat)
    requires k < 32
    ensures k < 26 ==> LowerLetter((65 + k) as char) == (97 + k) as char == LowerLetter((97 + k) as char)
    ensures LowerLetter((0x410 + k) as char) == (0x430 + k) as char == LowerLetter((0x430 + k) as char)
    ensures k < 26 ==> LowerChar((65 + k) as char) == (97 + k) as char == LowerChar((97 + k) as char)
  {
  }

  /** White space in ASCII. */
  lemma SpacesAre(c: char)
    ensures IsSpace(c) <==> c == ' ' || c as int in {9, 10, 11, 12, 13, 28, 29, 30, 31}
  {
  }

  /** The case of the letters and white space around the text make no difference. */
  lemma DurationIsTidied(raw: string, c: char)
    requires IsSpace(c)
    ensures DurationOf(LowerText(raw)) == DurationOf(raw)
    ensures DurationOf([c] + raw) == DurationOf(raw) && DurationOf(raw + [c]) == DurationOf(raw)
  {
    hide Scan, Strip, LowerText, AllDigits;
    StripLowered(raw);
    LoweredTwice(Strip(raw));
    StripSpace(raw, c);
  }

  lemma {:induction false} StripLowered(s: string)
    ensures Strip(LowerText(s)) == LowerText(Strip(s))
    decreases |s|
  {
    if s != "" {
      if IsSpace(s[0]) {
        StripLowered(s[1..]);
        assert LowerText(s)[1..] == LowerText(s[1..]);
      } else if IsSpace(s[|s| - 1]) {
        StripLowered(s[..|s| - 1]);
        assert LowerText(s)[..|s| - 1] == LowerText(s[..|s| - 1]);
      }
    }
  }

  lemma LoweredTwice(s: string)
    ensures LowerText(LowerText(s)) == LowerText(s)
  {
  }

  // ---------------------------------------------------------------- printing

  /** Days, hours below 24 and minutes below 60 are printed in this order, those of 0 left out. */
  lemma HumanizedTokens(d: nat, h: nat, m: nat, s: nat)
    requires h < 24 && m < 60 && s < 60
    ensures TokensOf(((d * 24 + h) * 60 + m) * 60 + s) ==
      (if d == 0 then [] else [Token(d, 'd')]) + (if h == 0 then [] else [Token(h, 'h')])
      + (if m == 0 then [] else [Token(m, 'm')])
  {
    var t := ((d * 24 + h) * 60 + m) * 60 + s;
    ByDays(t, d, h * 3600 + m * 60 + s);
    ByHours(h * 3600 + m * 60 + s, h, m * 60 + s);
    ByHours(t, d * 24 + h, m * 60 + s);
    ByMinutes(m * 60 + s, m, s);
  }

  lemma ByDays(x: nat, q: nat, r: nat)
    requires x == q * 86400 + r && r < 86400
    ensures x / 86400 == q && x % 86400 == r
  {
  }

  lemma ByHours(x: nat, q: nat, r: nat)
    requires x == q * 3600 + r && r < 3600
    ensures x / 3600 == q && x % 3600 == r
  {
  }

  lemma ByMinutes(x: nat, q: nat, r: nat)
    requires x == q * 60 + r && r < 60
    ensures x / 60 == q && x % 60 == r
  {
  }
}
