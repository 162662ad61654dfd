/** Durations as people write them, `scheduler/when.py`: parsing and printing. */
module When {
  import opened Options
  import opened Text

  const MAX_DELAY := 366 * 86400

  /** `UNITS`. */
  function UnitSize(unit: string): Option<nat> {
    if unit in {"s", "sec", "secs", "second", "seconds", "с", "сек"} then Some(1)
    else if unit in {"m", "min", "mins", "minute", "minutes", "м", "мин"} then Some(60)
    else if unit in {"h", "hr", "hrs", "hour", "hours", "ч", "час", "часа", "часов"} then Some(3600)
    else if unit in {"d", "day", "days", "д", "дн", "день", "дня", "дней"} then Some(86400)
    else if unit in {"w", "week", "weeks", "н", "нед", "неделя", "недели"} then Some(604800)
    else None
  }

  predicate IsLetter(c: char) { 'a' <= c <= 'z' || 'а' <= c <= 'я' }

  function LowerLetter(c: char): char {
    if 'A' <= c <= 'Z' || 'А' <= c <= 'Я' then (c as int + 32) as char else c
  }

  function LowerText(s: string): string { seq(|s|, i requires 0 <= i < |s| => LowerLetter(s[i])) }

  // ---------------------------------------------------------------- the pattern

  /** The end of the run of characters of a class that begins at i. */
  function RunEnd(s: string, i: nat, f: char -> bool): (k: nat)
    requires i <= |s|
    ensures i <= k <= |s| && (forall x | i <= x < k :: f(s[x])) && (k < |s| ==> !f(s[k]))
    decreases |s| - i
  {
    if i < |s| && f(s[i]) then RunEnd(s, i + 1, f) else i
  }

  datatype Match = Match(start: nat, end: nat, value: real, unit: string)

  function Power10(n: nat): int
    ensures Power10(n) >= 1
  {
    if n == 0 then 1 else 10 * Power10(n - 1)
  }

  function NumberIn(s: string, i: nat, k: nat): nat
    requires i <= k <= |s| && forall x | i <= x < k :: IsDigit(s[x])
  {
    Number(s[i..k])
  }

  /** The pattern: digits, perhaps a point or comma and more digits, white space, letters. */
  function MatchAt(s: string, i: nat): (r: Option<Match>)
    requires i <= |s|
    ensures r.Some? ==> r.value.start == i < r.value.end <= |s|
  {
    var d := RunEnd(s, i, IsDigit);
    if d == i then None
    else
      var point := d < |s| && (s[d] == '.' || s[d] == ',') && d + 1 < |s| && IsDigit(s[d + 1]);
      var f := if point then RunEnd(s, d + 1, IsDigit) else d;
      var w := RunEnd(s, f, IsSpace);
      var l := RunEnd(s, w, IsLetter);
      if l == w then None
      else
        var whole := NumberIn(s, i, d) as real;
        var value := if point then whole + NumberIn(s, d + 1, f) as real / Power10(f - d - 1) as real else whole;
        Some(Match(i, l, value, s[w..l]))
  }

  /** The next match of `finditer` from i on. */
  function Next(s: string, i: nat): (r: Option<Match>)
    requires i <= |s|
    ensures r.Some? ==> i <= r.value.start < r.value.end <= |s|
    decreases |s| - i
  {
    var m := MatchAt(s, i);
    if m.Some? || i == |s| then m else Next(s, i + 1)
  }

  /** Only separators between two matches. */
  predicate Filler(s: string) { forall c | c in s :: c == ' ' || c == ',' || c == 'и' }

  predicate AllSpace(s: string) { forall c | c in s :: IsSpace(c) }

  /** The seconds a match stands for. */
  function Weight(m: Match): real
    requires UnitSize(m.unit).Some?
  {
    m.value * UnitSize(m.unit).value as real
  }

  /** The loop over the matches: where the last one ended, and the sum. */
  function Scan(s: string, pos: nat, total: real): (r: Option<(nat, real)>)
    requires pos <= |s|
    ensures r.Some? ==> r.value.0 <= |s|
    decreases |s| - pos
  {
    var m := Next(s, pos);
    if m.None? then Some((pos, total))
    else if !Filler(s[pos..m.value.start]) || UnitSize(m.value.unit).None? then None
    else Scan(s, m.value.end, total + Weight(m.value))
  }

  /** `duration`, in seconds; None for its errors. */
  function DurationOf(raw: string): Option<int> {
    var s := LowerText(Strip(raw));
    if AllDigits(s) then Some(Number(s) * 60)
    else
      var r := Scan(s, 0, 0.0);
      if r.None? || r.value.0 == 0 || !AllSpace(s[r.value.0..]) then None
      else if r.value.1 <= 0.0 || r.value.1 > MAX_DELAY as real then None
      else Some(r.value.1.Floor)
  }

  method Duration(raw: string) returns (r: Option<int>)
    ensures r == DurationOf(raw)
  {
    hide Next, RunEnd, Strip, LowerText, UnitSize, AllSpace, Filler, Number, Weight;
    var s := LowerText(Strip(raw));
    if AllDigits(s) { return Some(Number(s) * 60); }
    var total, pos := 0.0, 0;
    var m := Next(s, 0);
    while m.Some?
      invariant pos <= |s| && m == Next(s, pos)
      invariant Scan(s, pos, total) == Scan(s, 0, 0.0)
      decreases |s| - pos
    {
      if !Filler(s[pos..m.value.start]) { return None; }
      if UnitSize(m.value.unit).None? { return None; }
      total := total + Weight(m.value);
      pos := m.value.end;
      m := Next(s, pos);
    }
    if pos == 0 || !AllSpace(s[pos..]) { return None; }
    if total <= 0.0 || total > MAX_DELAY as real { return None; }
    return Some(total.Floor);
  }

  // ---------------------------------------------------------------- printing

  /** A number with one of the units d, h, m and s. */
  datatype Token = Token(n: nat, unit: char) {
    ghost predicate Valid() { unit == 'd' || unit == 'h' || unit == 'm' || unit == 's' }

    function Print(): string { Digits(n) + [unit] }

    function Seconds(): nat {
      n * (if unit == 'd' then 86400 else if unit == 'h' then 3600 else if unit == 'm' then 60 else 1)
    }
  }

  /** The tokens of a duration of at least a minute. */
  function TokensOf(seconds: nat): seq<Token> {
    var d, h, m := seconds / 86400, seconds % 86400 / 3600, seconds % 3600 / 60;
    (if d > 0 then [Token(d, 'd')] else []) + (if h > 0 then [Token(h, 'h')] else [])
      + (if m > 0 then [Token(m, 'm')] else [])
  }

  /** Each token after a space. */
  function Tail(tokens: seq<Token>): string {
    if tokens == [] then "" else " " + tokens[0].Print() + Tail(tokens[1..])
  }

  /** `" ".join`. */
  function Joined(tokens: seq<Token>): string {
    if tokens == [] then "" else tokens[0].Print() + Tail(tokens[1..])
  }

  method Humanize(seconds: int) returns (text: string)
    ensures text == if seconds < 0 then "-" + Token(-seconds, 's').Print()
                    else if seconds < 60 then Token(seconds, 's').Print()
                    else Joined(TokensOf(seconds))
  {
    if seconds < 0 { return "-" + (Digits(-seconds) + "s"); }
    if seconds < 60 { return Digits(seconds) + "s"; }
    var left, parts := seconds, [];
    var units := [('d', 86400), ('h', 3600), ('m', 60)];
    for i := 0 to 3
      invariant i == 0 ==> left == seconds && parts == []
      invariant i == 1 ==>
        left == seconds % 86400 && parts == (if seconds / 86400 > 0 then [Token(seconds / 86400, 'd')] else [])
      invariant i == 2 ==> left == seconds % 3600
      invariant i == 2 ==> parts == (if seconds / 86400 > 0 then [Token(seconds / 86400, 'd')] else [])
                                  + (if seconds % 86400 / 3600 > 0 then [Token(seconds % 86400 / 3600, 'h')] else [])
      invariant i == 3 ==> parts == TokensOf(seconds)
    {
      var n := left / units[i].1;
      left := left % units[i].1;
      if n > 0 { parts := parts + [Token(n, units[i].0)]; }
    }
    text := Joined(parts);
    if text == "" { text := "0m"; }
  }

  // ---------------------------------------------------------------- round trip

  /** The digits of a number end where the next character is not a digit. */
  lemma {:induction false} RunEndIs(s: string, i: nat, k: nat, f: char -> bool)
    requires i <= k <= |s| && (forall x | i <= x < k :: f(s[x])) && (k < |s| ==> !f(s[k]))
    ensures RunEnd(s, i, f) == k
    decreases k - i
  {
    if i < k { RunEndIs(s, i + 1, k, f); }
  }

  /** A token in a text is matched as a whole, at its place. */
  lemma MatchToken(s: string, i: nat, t: Token)
    requires t.Valid() && i + |t.Print()| <= |s| && s[i..i + |t.Print()|] == t.Print()
    requires i + |t.Print()| < |s| ==> s[i + |t.Print()|] == ' '
    ensures MatchAt(s, i) == Some(Match(i, i + |t.Print()|, t.n as real, [t.unit]))
  {
    hide Number, Digits, Power10;
    var text, ds := t.Print(), Digits(t.n);
    var d := i + |ds|;
    assert text[..|ds|] == ds && text[|ds|] == t.unit;
    forall x | i <= x < d ensures IsDigit(s[x]) { assert s[x] == s[i..i + |text|][x - i] == ds[x - i]; }
    assert s[d] == s[i..i + |text|][|ds|] == t.unit;
    RunEndIs(s, i, d, IsDigit);
    RunEndIs(s, d, d, IsSpace);
    RunEndIs(s, d, d + 1, IsLetter);
    assert s[i..d] == ds;
    NumberDigits(t.n);
    assert s[d..d + 1] == [t.unit];
  }

  function Sum(tokens: seq<Token>): nat {
    if tokens == [] then 0 else tokens[0].Seconds() + Sum(tokens[1..])
  }

  lemma UnitSeconds(t: Token, i: nat, j: nat)
    requires t.Valid()
    ensures UnitSize([t.unit]).Some?
    ensures Weight(Match(i, j, t.n as real, [t.unit])) == t.Seconds() as real
  {
    assert "d" == ['d'] && "h" == ['h'] && "m" == ['m'] && "s" == ['s'];
    var size := UnitSize([t.unit]).value;
    assert t.n as real * size as real == (t.n * size) as real;
  }

  lemma ScanToken(s: string, pos: nat, start: nat, t: Token, total: real)
    requires pos <= start <= pos + 1 && (start == pos + 1 ==> pos < |s| && s[pos] == ' ')
    requires t.Valid() && start + |t.Print()| <= |s| && s[start..start + |t.Print()|] == t.Print()
    requires start + |t.Print()| < |s| ==> s[start + |t.Print()|] == ' '
    ensures Scan(s, pos, total) == Scan(s, start + |t.Print()|, total + t.Seconds() as real)
  {
    hide MatchAt, Token.Print, Token.Seconds, Token.Valid, UnitSize, Weight;
    MatchToken(s, start, t);
    if start == pos + 1 { NoMatchAtSpace(s, pos); }
    assert Next(s, pos) == MatchAt(s, start);
    assert s[pos..start] == if start == pos then "" else " ";
    UnitSeconds(t, start, start + |t.Print()|);
  }

  lemma NoMatchAtSpace(s: string, pos: nat)
    requires pos < |s| && s[pos] == ' '
    ensures MatchAt(s, pos) == None
  {
    RunEndIs(s, pos, pos, IsDigit);
  }

  lemma {:induction false} ScanTail(s: string, pos: nat, tokens: seq<Token>, total: real)
    requires (forall t | t in tokens :: t.Valid()) && pos <= |s| && s[pos..] == Tail(tokens)
    ensures Scan(s, pos, total) == Some((|s|, total + Sum(tokens) as real))
    decreases |tokens|
  {
    hide Token.Print, Token.Seconds, Scan;
    if tokens == [] {
      ScanEnd(s, total);
    } else {
      var t, rest := tokens[0], tokens[1..];
      var end := pos + 1 + |t.Print()|;
      assert t in tokens && forall u | u in rest :: u in tokens;
      TailAfter(s, pos, t, rest);
      ScanToken(s, pos, pos + 1, t, total);
      ScanTail(s, end, rest, total + t.Seconds() as real);
    }
  }

  lemma ScanEnd(s: string, total: real)
    ensures Scan(s, |s|, total) == Some((|s|, total))
  {
    hide UnitSize, Weight;
    RunEndIs(s, |s|, |s|, IsDigit);
  }

  lemma TailAfter(s: string, pos: nat, t: Token, rest: seq<Token>)
    requires pos <= |s| && s[pos..] == " " + t.Print() + Tail(rest)
    ensures var end := pos + 1 + |t.Print()|;
      && pos < end <= |s| && s[pos] == ' ' && s[pos + 1..end] == t.Print() && s[end..] == Tail(rest)
      && (end < |s| ==> s[end] == ' ')
  {
    hide Token.Print, Tail;
    CutAfter(s, pos, t.Print(), Tail(rest));
    TailBegins(rest);
  }

  lemma CutAfter(s: string, pos: nat, a: string, b: string)
    requires pos <= |s| && s[pos..] == " " + a + b
    ensures var end := pos + 1 + |a|;
      && pos < end <= |s| && s[pos] == ' ' && s[pos + 1..end] == a && s[end..] == b
      && (end < |s| ==> b != "" && s[end] == b[0])
  {
    var tail := s[pos..];
    assert |tail| == 1 + |a| + |b| && tail[0] == ' ';
    forall k | 0 <= k < |a| ensures s[pos + 1 + k] == a[k] { assert tail[1 + k] == a[k]; }
    forall k | 0 <= k < |b| ensures s[pos + 1 + |a| + k] == b[k] { assert tail[1 + |a| + k] == b[k]; }
  }

  lemma TailBegins(tokens: seq<Token>)
    ensures Tail(tokens) != "" ==> Tail(tokens)[0] == ' '
  {
  }

  /** A text of tokens is scanned to its end, and adds up. */
  lemma ScanJoined(tokens: seq<Token>)
    requires tokens != [] && forall t | t in tokens :: t.Valid()
    ensures var s := Joined(tokens); Scan(s, 0, 0.0) == Some((|s|, Sum(tokens) as real))
  {
    hide Token.Print, Token.Seconds, Scan;
    var s, t, rest := Joined(tokens), tokens[0], tokens[1..];
    assert t in tokens && forall u | u in rest :: u in tokens;
    FirstToken(tokens);
    hide Joined, Tail;
    ScanToken(s, 0, 0, t, 0.0);
    ScanTail(s, |t.Print()|, rest, t.Seconds() as real);
  }

  lemma FirstToken(tokens: seq<Token>)
    requires tokens != []
    ensures var s, end := Joined(tokens), |tokens[0].Print()|;
      && end <= |s| && s[0..end] == tokens[0].Print() && s[end..] == Tail(tokens[1..]) && (end < |s| ==> s[end] == ' ')
  {
    hide Token.Print, Tail;
    TailBegins(tokens[1..]);
  }

  /** Such a text has nothing to strip or to put in lower case, and is not a number. */
  lemma {:induction false} JoinedIsPlain(tokens: seq<Token>)
    requires tokens != [] && forall t | t in tokens :: t.Valid()
    ensures var s := Joined(tokens); s != "" && Strip(s) == s && LowerText(s) == s && !AllDigits(s)
  {
    var s, t := Joined(tokens), tokens[0];
    assert t in tokens;
    assert IsDigit(Digits(t.n)[0]) && s[0] == Digits(t.n)[0];
    LastIsUnit(tokens);
    Lowered(tokens);
    assert s[|s| - 1] in s && !IsDigit(s[|s| - 1]);
    forall i | 0 <= i < |s| ensures LowerLetter(s[i]) == s[i] { assert s[i] in s; }
  }

  predicate IsUnit(c: char) { c == 'd' || c == 'h' || c == 'm' || c == 's' }

  lemma TailIsJoined(tokens: seq<Token>)
    requires tokens != []
    ensures Tail(tokens) == " " + Joined(tokens)
  {
    hide Token.Print;
    assert " " + tokens[0].Print() + Tail(tokens[1..]) == " " + (tokens[0].Print() + Tail(tokens[1..]));
  }

  lemma {:induction false} LastIsUnit(tokens: seq<Token>)
    requires tokens != [] && forall t | t in tokens :: t.Valid()
    ensures Joined(tokens) != "" && IsUnit(Joined(tokens)[|Joined(tokens)| - 1])
  {
    hide Digits;
    assert tokens[0] in tokens && tokens[0].Print()[|tokens[0].Print()| - 1] == tokens[0].unit;
    if |tokens| > 1 {
      hide Token.Print;
      assert forall t | t in tokens[1..] :: t in tokens;
      LastIsUnit(tokens[1..]);
      TailIsJoined(tokens[1..]);
    } else {
      assert Tail(tokens[1..]) == "";
    }
  }

  lemma {:induction false} Lowered(tokens: seq<Token>)
    requires forall t | t in tokens :: t.Valid()
    ensures forall c | c in Joined(tokens) :: c == ' ' || IsDigit(c) || IsUnit(c)
  {
    if tokens != [] {
      var t := tokens[0];
      assert t in tokens && forall u | u in tokens[1..] :: u in tokens;
      Lowered(tokens[1..]);
      var ds := Digits(t.n);
      assert forall c | c in ds :: IsDigit(c);
      if tokens[1..] != [] { TailIsJoined(tokens[1..]); }
    }
  }

  /** Parsing a text of tokens gives their sum, within the limits. */
  lemma DurationOfTokens(tokens: seq<Token>)
    requires tokens != [] && forall t | t in tokens :: t.Valid()
    ensures DurationOf(Joined(tokens)) == if 0 < Sum(tokens) <= MAX_DELAY then Some(Sum(tokens)) else None
  {
    hide Scan, Strip, LowerText, AllDigits;
    JoinedIsPlain(tokens);
    ScanJoined(tokens);
    var s := Joined(tokens);
    assert s[|s|..] == "";
  }

  /** Printing and parsing again gives the seconds back below a minute, and the
      whole minutes from there on. */
  lemma DurationOfHumanize(seconds: nat)
    requires 0 < seconds <= MAX_DELAY
    ensures DurationOf(if seconds < 60 then Token(seconds, 's').Print() else Joined(TokensOf(seconds)))
         == Some(if seconds < 60 then seconds else seconds - seconds % 60)
  {
    hide DurationOf;
    if seconds < 60 {
      DurationOfSeconds(seconds);
    } else {
      TokensAddUp(seconds);
      DurationOfTokens(TokensOf(seconds));
    }
  }

  lemma TokensAddUp(seconds: nat)
    requires seconds >= 60
    ensures TokensOf(seconds) != [] && (forall t | t in TokensOf(seconds) :: t.Valid())
    ensures Sum(TokensOf(seconds)) == seconds - seconds % 60
  {
    var d, h, m := seconds / 86400, seconds % 86400 / 3600, seconds % 3600 / 60;
    var a := if d > 0 then [Token(d, 'd')] else [];
    var b := if h > 0 then [Token(h, 'h')] else [];
    var c := if m > 0 then [Token(m, 'm')] else [];
    SumApp(a + b, c);
    SumApp(a, b);
    DayHourMinute(seconds);
    assert Sum(a) == d * 86400 && Sum(b) == h * 3600 && Sum(c) == m * 60;
  }

  lemma DayHourMinute(seconds: nat)
    ensures seconds / 86400 * 86400 + seconds % 86400 / 3600 * 3600 + seconds % 3600 / 60 * 60 == seconds - seconds % 60
    ensures seconds >= 60 ==> seconds / 86400 > 0 || seconds % 86400 / 3600 > 0 || seconds % 3600 / 60 > 0
  {
    assert seconds % 86400 % 3600 == seconds % 3600;
    assert seconds % 3600 % 60 == seconds % 60;
  }

  lemma {:induction false} SumApp(a: seq<Token>, b: seq<Token>)
    ensures Sum(a + b) == Sum(a) + Sum(b)
  {
    if a == [] {
      assert a + b == b;
    } else {
      assert (a + b)[1..] == a[1..] + b;
      SumApp(a[1..], b);
    }
  }

  /** A number of seconds as `advance` writes a recurring interval comes back
      unchanged exactly when it is positive and at most a year; otherwise it is refused. */
  lemma DurationOfSeconds(n: nat)
    ensures DurationOf(Digits(n) + "s") == if 0 < n <= MAX_DELAY then Some(n) else None
  {
    hide DurationOf, Digits;
    var tokens := [Token(n, 's')];
    assert tokens[1..] == [];
    assert Joined(tokens) == Digits(n) + "s" + Tail([]) == Digits(n) + "s";
    assert Sum(tokens) == n + Sum([]);
    DurationOfTokens(tokens);
  }

  // ---------------------------------------------------------------- what is not checked

  /** A bare number means minutes and skips both limits: it is accepted whatever
      its size, so what comes back is positive and at most a year exactly for the
      numbers from 1 to 527040. */
  lemma BareNumbersAreUnchecked(n: nat)
    ensures DurationOf(Digits(n)) == Some(n * 60)
    ensures 0 < DurationOf(Digits(n)).value <= MAX_DELAY <==> 0 < n <= 527040
  {
    var s := Digits(n);
    assert IsDigit(s[0]) && IsDigit(s[|s| - 1]);
    forall i | 0 <= i < |s| ensures LowerLetter(s[i]) == s[i] { assert IsDigit(s[i]); }
    assert Strip(s) == s && LowerText(s) == s;
    NumberDigits(n);
  }

  /** Any other accepted text is within a year; it can still come down to no seconds at all. */
  lemma AcceptedDurations(raw: string)
    requires DurationOf(raw).Some? && !AllDigits(LowerText(Strip(raw)))
    ensures 0 <= DurationOf(raw).value <= MAX_DELAY
    ensures DurationOf(raw).value > 0 <==> Scan(LowerText(Strip(raw)), 0, 0.0).value.1 >= 1.0
  {
    hide Scan, Strip, LowerText, AllDigits;
  }

  lemma HalfMatch(s: string)
    requires s == "0.5s"
    ensures MatchAt(s, 0) == Some(Match(0, 4, 0.5, "s"))
  {
    hide NumberIn, Power10;
    RunEndIs(s, 0, 1, IsDigit);
    RunEndIs(s, 2, 3, IsDigit);
    RunEndIs(s, 3, 3, IsSpace);
    RunEndIs(s, 3, 4, IsLetter);
    HalfValue(s);
    assert s[3..4] == "s";
  }

  lemma HalfPlain(s: string)
    requires s == "0.5s"
    ensures LowerText(s) == s && Strip(s) == s && !AllDigits(s)
  {
    assert !IsDigit(s[1]);
  }

  /** "0.5s" is accepted, and is no time at all. */
  lemma HalfASecond()
    ensures DurationOf("0.5s") == Some(0)
  {
    hide MatchAt, UnitSize, Strip, LowerText, AllDigits, Weight, Scan;
    var s := "0.5s";
    HalfPlain(s);
    HalfScan(s);
  }

  lemma HalfScan(s: string)
    requires s == "0.5s"
    ensures Scan(s, 0, 0.0) == Some((|s|, 0.5))
  {
    hide MatchAt;
    HalfMatch(s);
    assert Next(s, 0) == MatchAt(s, 0) && s[0..0] == "";
    assert Weight(Match(0, 4, 0.5, "s")) == 0.5;
    ScanEnd(s, 0.5);
  }

  lemma HalfValue(s: string)
    requires s == "0.5s"
    ensures NumberIn(s, 0, 1) == 0 && NumberIn(s, 2, 3) == 5 && Power10(1) == 10
  {
    assert s[0..1] == ['0'] && s[2..3] == ['5'];
    assert ['0'][..0] == [] && ['5'][..0] == [];
  }

  // ---------------------------------------------------------------- recurring tasks

  /** The interval `next_run` takes from `every`, with the setting for the smallest one. */
  function Interval(every: string, least: int): Option<int> {
    var seconds := DurationOf(every);
    if seconds.Some? && seconds.value < least then None else seconds
  }

  /** The interval `advance` finds when a stored one is written and read again; none is written for 0. */
  function Again(seconds: int, least: int): Option<int>
    requires seconds >= 0
  {
    if seconds == 0 then None else Interval(Digits(seconds) + "s", least)
  }

  lemma DurationIsNatural(raw: string)
    ensures DurationOf(raw).Some? ==> DurationOf(raw).value >= 0
  {
    hide Scan, Strip, LowerText, AllDigits;
    if DurationOf(raw).Some? && !AllDigits(LowerText(Strip(raw))) { AcceptedDurations(raw); }
  }

  /** An accepted interval keeps recurring, unchanged, exactly when it is positive and
      not a bare number of more than a year of minutes; any other is lost at the first run. */
  lemma IntervalRecursIff(every: string, least: int)
    requires Interval(every, least).Some?
    ensures var n, bare := Interval(every, least).value, LowerText(Strip(every));
      && n >= 0 && Again(n, least) == (if 0 < n <= MAX_DELAY then Some(n) else None)
      && (n > MAX_DELAY <==> AllDigits(bare) && Number(bare) > 527040)
  {
    hide DurationOf, Digits;
    DurationIsNatural(every);
    DurationOfSeconds(Interval(every, least).value);
    IntervalSize(every);
  }

  lemma IntervalSize(raw: string)
    requires DurationOf(raw).Some?
    ensures var bare := LowerText(Strip(raw));
      DurationOf(raw).value > MAX_DELAY <==> AllDigits(bare) && Number(bare) > 527040
  {
    hide Scan, Strip, LowerText;
    var bare := LowerText(Strip(raw));
    if AllDigits(bare) {
      assert DurationOf(raw) == Some(Number(bare) * 60);
    } else {
      AcceptedDurations(raw);
    }
  }

  /** `every` 600000 is accepted, and the task stops after its first run. */
  lemma LongIntervalStops(least: int)
    requires least <= 36000000
    ensures Interval(Digits(600000), least) == Some(36000000) && Again(36000000, least) == None
  {
    hide DurationOf, Digits;
    BareNumbersAreUnchecked(600000);
    DurationOfSeconds(36000000);
  }
}
