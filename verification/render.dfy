/** Rendering of message entities as markdown, `telegram/render.py`. */
module Render {
  // Entities are ranges over UTF-16 code units.  The text is cut into units,
  // and every entity with markers becomes a span whose opening marker is written
  // at its start and whose closing marker at its end.

  import opened Options

  datatype Kind = Bold | Italic | Underline | Strikethrough | Spoiler | Code
    | Pre(language: string) | TextLink(url: string) | TextMention(user: string)
    | Blockquote | ExpandableBlockquote | Other

  datatype Entity = Entity(kind: Kind, offset: int, length: int)

  /** `_markers`; an empty url or user stands for a missing one. */
  function Markers(kind: Kind): Option<(string, string)> {
    match kind
    case Bold => Some(("**", "**"))
    case Italic => Some(("_", "_"))
    case Underline => Some(("__", "__"))
    case Strikethrough => Some(("~~", "~~"))
    case Spoiler => Some(("||", "||"))
    case Code => Some(("`", "`"))
    case Pre(language) => Some(("```" + language + "\n", "\n```"))
    case TextLink(url) => if url == "" then None else Some(("[", "](" + url + ")"))
    case TextMention(user) => if user == "" then None else Some(("[", "](tg://user?id=" + user + ")"))
    case Blockquote => Some(("> ", ""))
    case ExpandableBlockquote => Some(("> ", ""))
    case Other => None
  }

  predicate IsQuote(kind: Kind) { kind.Blockquote? || kind.ExpandableBlockquote? }

  // ---------------------------------------------------------------- units

  /** The UTF-16 code units of a text: a character outside the basic plane takes
      two, and the second of them prints nothing. */
  function UnitsOf(text: string): seq<string> {
    if text == "" then []
    else
      var last := text[|text| - 1];
      UnitsOf(text[..|text| - 1]) + if last as int > 0xFFFF then [[last], ""] else [[last]]
  }

  method Units(text: string) returns (units: seq<string>)
    ensures units == UnitsOf(text)
  {
    units := [];
    for k := 0 to |text|
      invariant units == UnitsOf(text[..k])
    {
      assert text[..k + 1][..k] == text[..k];
      units := units + [[text[k]]];
      if text[k] as int > 0xFFFF { units := units + [""]; }
    }
    assert text[..|text|] == text;
  }

  function Join(parts: seq<string>): string {
    if parts == [] then "" else parts[0] + Join(parts[1..])
  }

  lemma {:induction false} JoinApp(a: seq<string>, b: seq<string>)
    ensures Join(a + b) == Join(a) + Join(b)
  {
    if a == [] {
      assert a + b == b;
    } else {
      assert (a + b)[1..] == a[1..] + b;
      JoinApp(a[1..], b);
    }
  }

  lemma {:induction false} UnitsJoin(text: string)
    ensures Join(UnitsOf(text)) == text
  {
    if text != "" {
      var n := |text| - 1;
      UnitsJoin(text[..n]);
      var tail := if text[n] as int > 0xFFFF then [[text[n]], ""] else [[text[n]]];
      assert Join(tail) == tail[0] + Join(tail[1..]) && (|tail| == 2 ==> Join(tail[1..]) == "" + Join([]));
      JoinApp(UnitsOf(text[..n]), tail);
    }
  }

  // ---------------------------------------------------------------- spans

  /** An entity that is going to be marked: its clamped range and its place in the list. */
  datatype Span = Span(start: nat, end: nat, order: nat, open: string, close: string, quote: bool)

  function Clamp(x: int, lo: int, hi: int): int
    requires lo <= hi
  {
    if x < lo then lo else if x > hi then hi else x
  }

  function SpanOf(e: Entity, order: nat, n: nat): (r: Option<Span>)
    ensures r.Some? ==> r.value.start < r.value.end <= n && r.value.order == order
  {
    var start := Clamp(e.offset, 0, n);
    var end := if Clamp(e.offset + e.length, 0, n) < start then start else Clamp(e.offset + e.length, 0, n);
    var markers := Markers(e.kind);
    if start == end || markers.None? then None
    else Some(Span(start, end, order, markers.value.0, markers.value.1, IsQuote(e.kind)))
  }

  /** The spans of the first k entities. */
  function SpansOf(entities: seq<Entity>, k: nat, n: nat): (spans: seq<Span>)
    requires k <= |entities|
    ensures forall s | s in spans :: s.start < s.end <= n && s.order < k
    ensures forall i, j | 0 <= i < j < |spans| :: spans[i].order < spans[j].order
  {
    if k == 0 then []
    else
      var s := SpanOf(entities[k - 1], k - 1, n);
      SpansOf(entities, k - 1, n) + if s.None? then [] else [s.value]
  }

  /** Spans as `SpansOf` makes them. */
  ghost predicate Proper(spans: seq<Span>, n: nat) {
    && (forall s | s in spans :: s.start < s.end <= n)
    && (forall i, j | 0 <= i < j < |spans| :: spans[i].order < spans[j].order)
  }

  function Starting(spans: seq<Span>, pos: nat): (r: seq<Span>)
    ensures forall s :: s in r <==> s in spans && s.start == pos
  {
    if spans == [] then []
    else
      var last := spans[|spans| - 1];
      Starting(spans[..|spans| - 1], pos) + if last.start == pos then [last] else []
  }

  function Ending(spans: seq<Span>, pos: nat): (r: seq<Span>)
    ensures forall s :: s in r <==> s in spans && s.end == pos
  {
    if spans == [] then []
    else
      var last := spans[|spans| - 1];
      Ending(spans[..|spans| - 1], pos) + if last.end == pos then [last] else []
  }

  // ---------------------------------------------------------------- order

  /** The sort key of opening markers: longest first, then list order. */
  predicate OpensBefore(a: Span, b: Span) {
    var x, y := a.end - a.start, b.end - b.start;
    x > y || (x == y && a.order < b.order)
  }

  /** The sort key of closing markers: latest start first, then longest, then reverse list order. */
  predicate ClosesBefore(a: Span, b: Span) {
    var x, y := a.end - a.start, b.end - b.start;
    a.start > b.start || (a.start == b.start && (x > y || (x == y && a.order > b.order)))
  }

  /** a is starting before b: the order of the stack, bottom first. */
  predicate Outer(a: Span, b: Span) {
    a.start < b.start || (a.start == b.start && OpensBefore(a, b))
  }

  function Insert(before: (Span, Span) -> bool, x: Span, s: seq<Span>): (r: seq<Span>)
    ensures forall y :: y in r <==> y == x || y in s
  {
    if s == [] then [x]
    else if before(x, s[0]) then [x] + s
    else [s[0]] + Insert(before, x, s[1..])
  }

  /** `sorted`. */
  function Sort(before: (Span, Span) -> bool, s: seq<Span>): (r: seq<Span>)
    ensures forall y :: y in r <==> y in s
  {
    if s == [] then [] else Insert(before, s[0], Sort(before, s[1..]))
  }

  ghost predicate Increasing(before: (Span, Span) -> bool, s: seq<Span>) {
    forall i, j | 0 <= i < j < |s| :: before(s[i], s[j])
  }

  /** A strict order, total on distinct spans with different places in the list. */
  ghost predicate Strict(before: (Span, Span) -> bool) {
    && (forall a, b, c | before(a, b) && before(b, c) :: before(a, c))
    && (forall a: Span, b: Span | a.order != b.order :: before(a, b) || before(b, a))
  }

  lemma {:induction false} InsertIncreasing(before: (Span, Span) -> bool, x: Span, s: seq<Span>)
    requires Strict(before) && Increasing(before, s) && forall y | y in s :: y.order != x.order
    ensures Increasing(before, Insert(before, x, s))
  {
    if s != [] {
      if before(x, s[0]) {
        forall j | 0 <= j < |s| ensures before(x, s[j]) {
          if j > 0 { assert before(s[0], s[j]); }
        }
      } else {
        InsertIncreasing(before, x, s[1..]);
        var r := Insert(before, x, s[1..]);
        forall j | 0 <= j < |r| ensures before(s[0], r[j]) {
          assert r[j] in r;
          if r[j] != x {
            var k :| 0 <= k < |s[1..]| && s[1..][k] == r[j];
            assert before(s[0], s[k + 1]);
          }
        }
      }
    }
  }

  lemma {:induction false} SortIncreasing(before: (Span, Span) -> bool, s: seq<Span>)
    requires Strict(before) && forall i, j | 0 <= i < j < |s| :: s[i].order != s[j].order
    ensures Increasing(before, Sort(before, s))
  {
    if s != [] {
      SortIncreasing(before, s[1..]);
      InsertIncreasing(before, s[0], Sort(before, s[1..]));
    }
  }

  lemma OrdersAreStrict()
    ensures Strict(OpensBefore) && Strict(ClosesBefore)
  {
  }

  // ---------------------------------------------------------------- output

  datatype Token = Unit(text: string) | Open(span: Span) | Close(span: Span) | Prefix {
    function Print(): string {
      match this
      case Unit(text) => text
      case Open(span) => span.open
      case Close(span) => span.close
      case Prefix => "> "
    }
  }

  function Opens(spans: seq<Span>): seq<Token> { seq(|spans|, i requires 0 <= i < |spans| => Open(spans[i])) }

  function Closes(spans: seq<Span>): seq<Token> { seq(|spans|, i requires 0 <= i < |spans| => Close(spans[i])) }

  /** How many quotes hold the unit at pos. */
  function Depth(spans: seq<Span>, pos: nat): nat {
    if spans == [] then 0
    else
      var last := spans[|spans| - 1];
      Depth(spans[..|spans| - 1], pos) + if last.quote && last.start <= pos < last.end then 1 else 0
  }

  /** The markers written at pos, closing ones first. */
  function MarkersAt(spans: seq<Span>, pos: nat): seq<Token> {
    Closes(Sort(ClosesBefore, Ending(spans, pos))) + Opens(Sort(OpensBefore, Starting(spans, pos)))
  }

  /** The unit at pos, and the quote prefix of the line it may begin. */
  function TextAt(units: seq<string>, spans: seq<Span>, pos: nat): seq<Token>
    requires pos < |units|
  {
    [Unit(units[pos])] + if units[pos] == "\n" && Depth(spans, pos) > 0 && pos + 1 < |units| then [Prefix] else []
  }

  /** Everything written before the markers at pos. */
  function TokensTo(units: seq<string>, spans: seq<Span>, pos: nat): seq<Token>
    requires pos <= |units|
  {
    if pos == 0 then []
    else TokensTo(units, spans, pos - 1) + MarkersAt(spans, pos - 1) + TextAt(units, spans, pos - 1)
  }

  function Tokens(units: seq<string>, spans: seq<Span>): seq<Token> {
    TokensTo(units, spans, |units|) + MarkersAt(spans, |units|)
  }

  function Prints(tokens: seq<Token>): seq<string> { seq(|tokens|, i requires 0 <= i < |tokens| => tokens[i].Print()) }

  /** What is left when the inserted markers and prefixes are deleted again. */
  function Plain(tokens: seq<Token>): seq<string> {
    if tokens == [] then []
    else
      var last := tokens[|tokens| - 1];
      Plain(tokens[..|tokens| - 1]) + if last.Unit? then [last.text] else []
  }

  lemma {:induction false} PlainApp(a: seq<Token>, b: seq<Token>)
    ensures Plain(a + b) == Plain(a) + Plain(b)
  {
    if b == [] {
      assert a + b == a;
    } else {
      assert (a + b)[..|a + b| - 1] == a + b[..|b| - 1];
      PlainApp(a, b[..|b| - 1]);
    }
  }

  lemma {:induction false} PlainNone(tokens: seq<Token>)
    requires forall t | t in tokens :: !t.Unit?
    ensures Plain(tokens) == []
  {
    if tokens != [] { PlainNone(tokens[..|tokens| - 1]); }
  }

  lemma PlainAt(units: seq<string>, spans: seq<Span>, pos: nat)
    ensures Plain(MarkersAt(spans, pos)) == []
    ensures pos < |units| ==> Plain(TextAt(units, spans, pos)) == [units[pos]]
  {
    hide Depth, Sort;
    PlainNone(MarkersAt(spans, pos));
    if pos < |units| {
      var text := TextAt(units, spans, pos);
      PlainApp([Unit(units[pos])], text[1..]);
      PlainNone(text[1..]);
      assert text == [Unit(units[pos])] + text[1..];
      assert [Unit(units[pos])][..0] == [];
    }
  }

  lemma {:induction false} PlainTo(units: seq<string>, spans: seq<Span>, pos: nat)
    requires pos <= |units|
    ensures Plain(TokensTo(units, spans, pos)) == units[..pos]
  {
    hide MarkersAt, TextAt, Plain;
    if pos == 0 {
      PlainNone([]);
    } else {
      var p := pos - 1;
      PlainTo(units, spans, p);
      PlainAt(units, spans, p);
      PlainApp(TokensTo(units, spans, p) + MarkersAt(spans, p), TextAt(units, spans, p));
      PlainApp(TokensTo(units, spans, p), MarkersAt(spans, p));
      assert units[..pos] == units[..p] + [units[p]];
    }
  }

  /** For every family of entities, deleting what was inserted gives the text back. */
  lemma DeletingMarkersGivesText(text: string, spans: seq<Span>)
    ensures Join(Plain(Tokens(UnitsOf(text), spans))) == text
  {
    hide MarkersAt, TokensTo, Plain, Join, UnitsOf;
    var units := UnitsOf(text);
    PlainTo(units, spans, |units|);
    PlainAt(units, spans, |units|);
    PlainApp(TokensTo(units, spans, |units|), MarkersAt(spans, |units|));
    assert Plain(Tokens(units, spans)) == units;
    UnitsJoin(text);
  }

  lemma {:induction false} WrittenBefore(units: seq<string>, spans: seq<Span>, p: nat, q: nat)
    requires p < q <= |units|
    ensures TokensTo(units, spans, p) + MarkersAt(spans, p) <= TokensTo(units, spans, q)
    decreases q - p
  {
    hide MarkersAt, TextAt;
    if p + 1 < q { WrittenBefore(units, spans, p, q - 1); }
  }

  /** A marker written at pos stands where exactly the units before pos have been written. */
  lemma MarkerPlace(units: seq<string>, spans: seq<Span>, pos: nat, t: Token) returns (k: nat)
    requires pos <= |units| && t in MarkersAt(spans, pos)
    ensures k < |Tokens(units, spans)| && Tokens(units, spans)[k] == t
      && Plain(Tokens(units, spans)[..k]) == units[..pos]
    ensures |TokensTo(units, spans, pos)| <= k < |TokensTo(units, spans, pos) + MarkersAt(spans, pos)|
  {
    hide TokensTo, TextAt, Plain, Sort;
    var before, here, all := TokensTo(units, spans, pos), MarkersAt(spans, pos), Tokens(units, spans);
    var m :| 0 <= m < |here| && here[m] == t;
    k := |before| + m;
    if pos < |units| { WrittenBefore(units, spans, pos, |units|); }
    assert before + here <= all;
    assert all[..k] == before + here[..m];
    PlainTo(units, spans, pos);
    PlainApp(before, here[..m]);
    PlainNone(here[..m]);
  }

  /** Every span has its markers, and they enclose exactly its own units. */
  lemma MarkersEnclose(units: seq<string>, spans: seq<Span>, s: Span) returns (i: nat, j: nat)
    requires Proper(spans, |units|) && s in spans
    ensures i < j < |Tokens(units, spans)| && Tokens(units, spans)[i] == Open(s) && Tokens(units, spans)[j] == Close(s)
    ensures Plain(Tokens(units, spans)[..i]) == units[..s.start] && Plain(Tokens(units, spans)[..j]) == units[..s.end]
  {
    hide TokensTo, TextAt, Plain, Tokens;
    OpenWritten(spans, s);
    i := MarkerPlace(units, spans, s.start, Open(s));
    j := MarkerPlace(units, spans, s.end, Close(s));
    WrittenBefore(units, spans, s.start, s.end);
  }

  lemma OpenWritten(spans: seq<Span>, s: Span)
    requires s in spans
    ensures Open(s) in MarkersAt(spans, s.start) && Close(s) in MarkersAt(spans, s.end)
  {
    var opens, closes := Sort(OpensBefore, Starting(spans, s.start)), Sort(ClosesBefore, Ending(spans, s.end));
    var x :| 0 <= x < |opens| && opens[x] == s;
    var y :| 0 <= y < |closes| && closes[y] == s;
    assert Opens(opens)[x] == Open(s) && Closes(closes)[y] == Close(s);
  }

  // ---------------------------------------------------------------- brackets

  /** Reads markers with a stack of open spans; None when a closing marker is
      not the one of the innermost open span. */
  function Run(tokens: seq<Token>, stack: seq<Span>): Option<seq<Span>> {
    if tokens == [] then Some(stack)
    else match tokens[0]
      case Open(s) => Run(tokens[1..], stack + [s])
      case Close(s) => if stack != [] && stack[|stack| - 1] == s then Run(tokens[1..], stack[..|stack| - 1]) else None
      case _ => Run(tokens[1..], stack)
  }

  lemma {:induction false} RunApp(a: seq<Token>, b: seq<Token>, stack: seq<Span>)
    ensures Run(a + b, stack) == if Run(a, stack).None? then None else Run(b, Run(a, stack).value)
  {
    if a == [] {
      assert a + b == b;
    } else {
      assert (a + b)[1..] == a[1..] + b && (a + b)[0] == a[0];
      match a[0]
      case Open(s) => RunApp(a[1..], b, stack + [s]);
      case Close(s) => if stack != [] && stack[|stack| - 1] == s { RunApp(a[1..], b, stack[..|stack| - 1]); }
      case _ => RunApp(a[1..], b, stack);
    }
  }

  predicate Nested(a: Span, b: Span) {
    || a.end <= b.start || b.end <= a.start
    || (a.start <= b.start && b.end <= a.end) || (b.start <= a.start && a.end <= b.end)
  }

  /** Any two spans are nested or disjoint. */
  ghost predicate Laminar(spans: seq<Span>) {
    forall a, b | a in spans && b in spans :: Nested(a, b)
  }

  /** The open spans just before the markers at pos are read: outermost first. */
  ghost predicate OpenBefore(spans: seq<Span>, pos: nat, stack: seq<Span>) {
    && Increasing(Outer, stack)
    && forall s :: s in stack <==> s in spans && s.start < pos <= s.end
  }

  /** The same once the closing markers have been read. */
  ghost predicate OpenInside(spans: seq<Span>, pos: nat, stack: seq<Span>) {
    && Increasing(Outer, stack)
    && forall s :: s in stack <==> s in spans && s.start < pos < s.end
  }

  /** While closing markers are read: those of `left` are still to come. */
  ghost predicate Closing(spans: seq<Span>, pos: nat, left: seq<Span>, stack: seq<Span>) {
    && Increasing(Outer, stack) && Increasing(ClosesBefore, left)
    && (forall s | s in left :: s in spans && s.end == pos && s.start < pos)
    && forall s :: s in stack <==> s in left || (s in spans && s.start < pos < s.end)
  }

  ghost predicate DistinctOrders(spans: seq<Span>) {
    forall a, b | a in spans && b in spans && a.order == b.order :: a == b
  }

  /** In a laminar family the next closing marker is always the innermost open span's. */
  lemma NextCloseIsTop(spans: seq<Span>, pos: nat, left: seq<Span>, stack: seq<Span>)
    requires Closing(spans, pos, left, stack) && left != [] && Laminar(spans) && DistinctOrders(spans)
    ensures stack != [] && stack[|stack| - 1] == left[0]
  {
    var c := left[0];
    assert c in left;
    assert c in stack;
    var t := stack[|stack| - 1];
    assert t in stack;
    if t != c {
      var k :| 0 <= k < |stack| && stack[k] == c;
      assert Outer(c, t) && Nested(c, t);
    }
  }

  lemma CloseStep(spans: seq<Span>, pos: nat, left: seq<Span>, stack: seq<Span>)
    requires Closing(spans, pos, left, stack) && left != [] && stack != [] && stack[|stack| - 1] == left[0]
    ensures Closing(spans, pos, left[1..], stack[..|stack| - 1])
  {
    var c, rest, below := left[0], left[1..], stack[..|stack| - 1];
    assert forall s | s in rest :: ClosesBefore(c, s);
    forall s ensures s in below <==> s in rest || (s in spans && s.start < pos < s.end) {
      if s in below {
        var k :| 0 <= k < |below| && below[k] == s;
        assert Outer(stack[k], stack[|stack| - 1]);
        assert s in stack;
      }
      if s in rest || (s in spans && s.start < pos < s.end) {
        assert s in stack && s != c;
      }
    }
  }

  // ---------------------------------------------------------------- well-bracketed exactly for laminar families

  /** When the closing markers of a position can be read, they pop exactly the
      spans that end there; and in a laminar family they can. */
  lemma {:induction false} RunCloses(spans: seq<Span>, pos: nat, left: seq<Span>, stack: seq<Span>)
    requires Closing(spans, pos, left, stack) && DistinctOrders(spans)
    ensures Laminar(spans) ==> Run(Closes(left), stack).Some?
    ensures Run(Closes(left), stack).Some? ==> OpenInside(spans, pos, Run(Closes(left), stack).value)
  {
    if left != [] {
      if Laminar(spans) { NextCloseIsTop(spans, pos, left, stack); }
      assert Closes(left)[0] == Close(left[0]) && Closes(left)[1..] == Closes(left[1..]);
      if stack != [] && stack[|stack| - 1] == left[0] {
        CloseStep(spans, pos, left, stack);
        RunCloses(spans, pos, left[1..], stack[..|stack| - 1]);
      }
    }
  }

  lemma BelowTop(stack: seq<Span>, b: Span)
    requires Increasing(Outer, stack) && b in stack
    ensures b == stack[|stack| - 1] || Outer(b, stack[|stack| - 1])
  {
  }

  /** a ends at pos inside b, which was opened later: the closing marker of a cannot be read. */
  lemma {:induction false} CrossingIsStuck(spans: seq<Span>, pos: nat, left: seq<Span>, stack: seq<Span>, a: Span,
          b: Span)
    requires Closing(spans, pos, left, stack) && DistinctOrders(spans)
    requires a in left && b in spans && b.start < pos < b.end && a.start < b.start
    ensures Run(Closes(left), stack).None?
  {
    assert Closes(left)[0] == Close(left[0]) && Closes(left)[1..] == Closes(left[1..]);
    if stack != [] && stack[|stack| - 1] == left[0] {
      if left[0] == a {
        BelowTop(stack, b);
      } else {
        CloseStep(spans, pos, left, stack);
        CrossingIsStuck(spans, pos, left[1..], stack[..|stack| - 1], a, b);
      }
    }
  }

  lemma {:induction false} RunOpens(left: seq<Span>, stack: seq<Span>)
    ensures Run(Opens(left), stack) == Some(stack + left)
  {
    if left == [] {
      assert stack + left == stack;
    } else {
      RunOpens(left[1..], stack + [left[0]]);
      assert Opens(left)[1..] == Opens(left[1..]);
      assert stack + [left[0]] + left[1..] == stack + left;
    }
  }

  /** Opening the spans that start at pos keeps the stack in order. */
  lemma OpenStep(spans: seq<Span>, pos: nat, stack: seq<Span>, starting: seq<Span>)
    requires OpenInside(spans, pos, stack) && Increasing(OpensBefore, starting)
    requires (forall s :: s in starting <==> s in spans && s.start == pos) && forall s | s in spans :: s.start < s.end
    ensures OpenBefore(spans, pos + 1, stack + starting)
  {
    var all := stack + starting;
    forall i, j | 0 <= i < j < |all| ensures Outer(all[i], all[j]) {
      if i < |stack| <= j {
        assert all[i] in stack && all[j] in starting;
      } else if |stack| <= i {
        assert all[i] in starting && all[j] in starting;
        assert OpensBefore(starting[i - |stack|], starting[j - |stack|]);
      }
    }
  }

  lemma {:induction false} EndingOrders(spans: seq<Span>, pos: nat)
    requires forall i, j | 0 <= i < j < |spans| :: spans[i].order < spans[j].order
    ensures forall i, j | 0 <= i < j < |Ending(spans, pos)| :: Ending(spans, pos)[i].order < Ending(spans, pos)[j].order
  {
    if spans != [] {
      var n := |spans| - 1;
      EndingOrders(spans[..n], pos);
      forall s | s in Ending(spans[..n], pos) ensures s.order < spans[n].order { assert s in spans[..n]; }
    }
  }

  lemma {:induction false} StartingOrders(spans: seq<Span>, pos: nat)
    requires forall i, j | 0 <= i < j < |spans| :: spans[i].order < spans[j].order
    ensures forall i, j | 0 <= i < j < |Starting(spans, pos)| ::
      Starting(spans, pos)[i].order < Starting(spans, pos)[j].order
  {
    if spans != [] {
      var n := |spans| - 1;
      StartingOrders(spans[..n], pos);
      forall s | s in Starting(spans[..n], pos) ensures s.order < spans[n].order { assert s in spans[..n]; }
    }
  }

  /** The sorted markers of a position are in stack order. */
  lemma SortedMarkers(spans: seq<Span>, pos: nat, n: nat)
    requires Proper(spans, n)
    ensures Increasing(ClosesBefore, Sort(ClosesBefore, Ending(spans, pos)))
    ensures Increasing(OpensBefore, Sort(OpensBefore, Starting(spans, pos)))
    ensures DistinctOrders(spans)
  {
    OrdersAreStrict();
    EndingOrders(spans, pos);
    StartingOrders(spans, pos);
    SortIncreasing(ClosesBefore, Ending(spans, pos));
    SortIncreasing(OpensBefore, Starting(spans, pos));
    forall a, b | a in spans && b in spans && a.order == b.order ensures a == b {
      var i :| 0 <= i < |spans| && spans[i] == a;
      var j :| 0 <= j < |spans| && spans[j] == b;
    }
  }

  /** Reading the markers of one position. */
  lemma RunMarkers(spans: seq<Span>, pos: nat, n: nat, stack: seq<Span>)
    requires Proper(spans, n) && OpenBefore(spans, pos, stack)
    ensures Laminar(spans) ==> Run(MarkersAt(spans, pos), stack).Some?
    ensures Run(MarkersAt(spans, pos), stack).Some? ==>
      OpenBefore(spans, pos + 1, Run(MarkersAt(spans, pos), stack).value)
    ensures forall a, b | a in spans && b in spans && a.end == pos && a.start < b.start < pos < b.end ::
      Run(MarkersAt(spans, pos), stack).None?
  {
    hide Sort, Run;
    var closing, starting := Sort(ClosesBefore, Ending(spans, pos)), Sort(OpensBefore, Starting(spans, pos));
    SortedMarkers(spans, pos, n);
    assert Closing(spans, pos, closing, stack);
    RunCloses(spans, pos, closing, stack);
    RunApp(Closes(closing), Opens(starting), stack);
    if Run(Closes(closing), stack).Some? {
      RunOpens(starting, Run(Closes(closing), stack).value);
      OpenStep(spans, pos, Run(Closes(closing), stack).value, starting);
    }
    forall a, b | a in spans && b in spans && a.end == pos && a.start < b.start < pos < b.end
      ensures Run(MarkersAt(spans, pos), stack).None?
    {
      CrossingIsStuck(spans, pos, closing, stack, a, b);
    }
  }

  lemma RunText(units: seq<string>, spans: seq<Span>, pos: nat, stack: seq<Span>)
    requires pos < |units|
    ensures Run(TextAt(units, spans, pos), stack) == Some(stack)
  {
    hide Depth;
    RunSkips(TextAt(units, spans, pos), stack);
  }

  lemma {:induction false} RunSkips(tokens: seq<Token>, stack: seq<Span>)
    requires forall t | t in tokens :: t.Unit? || t.Prefix?
    ensures Run(tokens, stack) == Some(stack)
  {
    if tokens != [] {
      assert tokens[0] in tokens;
      RunSkips(tokens[1..], stack);
    }
  }

  /** Crossing spans, the first of which ends no later than pos. */
  ghost predicate Crossed(spans: seq<Span>, pos: nat) {
    exists a, b :: a in spans && b in spans && a.start < b.start < a.end < b.end && a.end <= pos
  }

  lemma {:induction false} RunTo(units: seq<string>, spans: seq<Span>, pos: nat)
    requires Proper(spans, |units|) && pos <= |units|
    ensures var r := Run(TokensTo(units, spans, pos) + MarkersAt(spans, pos), []);
      && (Laminar(spans) ==> r.Some?)
      && (r.Some? ==> OpenBefore(spans, pos + 1, r.value) && !Crossed(spans, pos))
  {
    hide MarkersAt, TextAt, Run, OpenBefore, Nested, Proper;
    var before := TokensTo(units, spans, pos);
    RunApp(before, MarkersAt(spans, pos), []);
    if pos == 0 {
      RunNothing(spans);
      assert before == [];
    } else {
      RunTo(units, spans, pos - 1);
      var head := TokensTo(units, spans, pos - 1) + MarkersAt(spans, pos - 1);
      RunApp(head, TextAt(units, spans, pos - 1), []);
      assert before == head + TextAt(units, spans, pos - 1);
      if Run(head, []).Some? { RunText(units, spans, pos - 1, Run(head, []).value); }
    }
    if Run(before, []).Some? {
      RunMarkers(spans, pos, |units|, Run(before, []).value);
    }
  }

  lemma Inhabited(s: seq<Span>)
    requires s != []
    ensures exists x :: x in s
  {
    assert s[0] in s;
  }

  lemma RunNothing(spans: seq<Span>)
    ensures Run([], []) == Some([]) && OpenBefore(spans, 0, [])
  {
  }

  /** The markers are well-bracketed exactly when any two spans are nested or disjoint. */
  lemma BracketsMatchIffLaminar(units: seq<string>, spans: seq<Span>)
    requires Proper(spans, |units|)
    ensures Run(Tokens(units, spans), []) == Some([]) <==> Laminar(spans)
  {
    hide Run, MarkersAt, TokensTo;
    var n := |units|;
    RunTo(units, spans, n);
    var r := Run(Tokens(units, spans), []);
    if r.Some? {
      if r.value != [] { Inhabited(r.value); }
      forall a, b | a in spans && b in spans ensures Nested(a, b) {
        assert !(a.start < b.start < a.end < b.end) && !(b.start < a.start < b.end < a.end);
      }
    }
  }

  // ---------------------------------------------------------------- the method

  function Delta(spans: seq<Span>, pos: nat): int {
    if spans == [] then 0
    else
      var last := spans[|spans| - 1];
      Delta(spans[..|spans| - 1], pos)
      + (if last.quote && last.start == pos then 1 else 0) - (if last.quote && last.end == pos then 1 else 0)
  }

  /** Adding up the edges of the quotes gives their depth. */
  lemma {:induction false} DepthStep(spans: seq<Span>, pos: nat)
    requires forall s | s in spans :: s.start < s.end
    ensures Depth(spans, pos) == (if pos == 0 then 0 else Depth(spans, pos - 1)) + Delta(spans, pos)
  {
    if spans != [] {
      var n := |spans| - 1;
      assert spans[n] in spans;
      forall s | s in spans[..n] ensures s.start < s.end { assert s in spans; }
      DepthStep(spans[..n], pos);
    }
  }

  function Lookup<T>(m: map<nat, T>, pos: nat, default: T): T { if pos in m then m[pos] else default }

  lemma PrintsApp(a: seq<Token>, b: seq<Token>)
    ensures Prints(a + b) == Prints(a) + Prints(b)
  {
  }

  /** The three dictionaries, position by position. */
  ghost predicate Files(spans: seq<Span>, opens: map<nat, seq<Span>>, closes: map<nat, seq<Span>>,
          edges: map<nat, int>) {
    forall pos: nat ::
      && Lookup(opens, pos, []) == Starting(spans, pos)
      && Lookup(closes, pos, []) == Ending(spans, pos)
      && Lookup(edges, pos, 0) == Delta(spans, pos)
  }

  lemma LastSpan(was: seq<Span>, span: Span, pos: nat)
    ensures Starting(was + [span], pos) == Starting(was, pos) + if span.start == pos then [span] else []
    ensures Ending(was + [span], pos) == Ending(was, pos) + if span.end == pos then [span] else []
    ensures Delta(was + [span], pos)
      == Delta(was, pos)
        + (if span.quote && span.start == pos then 1 else 0) - (if span.quote && span.end == pos then 1 else 0)
  {
    assert (was + [span])[..|was|] == was;
  }

  method FileSpan(span: Span, ghost was: seq<Span>, opens: map<nat, seq<Span>>, closes: map<nat, seq<Span>>,
          edges: map<nat, int>)
    returns (opens': map<nat, seq<Span>>, closes': map<nat, seq<Span>>, edges': map<nat, int>)
    requires Files(was, opens, closes, edges) && span.start < span.end
    ensures Files(was + [span], opens', closes', edges')
  {
    hide Starting, Ending, Delta;
    opens' := opens[span.start := Lookup(opens, span.start, []) + [span]];
    closes' := closes[span.end := Lookup(closes, span.end, []) + [span]];
    edges' := edges;
    if span.quote {
      edges' := edges'[span.start := Lookup(edges', span.start, 0) + 1];
      edges' := edges'[span.end := Lookup(edges', span.end, 0) - 1];
    }
    forall pos: nat
      ensures Lookup(opens', pos, []) == Starting(was + [span], pos)
      ensures Lookup(closes', pos, []) == Ending(was + [span], pos)
      ensures Lookup(edges', pos, 0) == Delta(was + [span], pos)
    {
      LastSpan(was, span, pos);
    }
  }

  method FileAll(entities: seq<Entity>, n: nat)
    returns (opens: map<nat, seq<Span>>, closes: map<nat, seq<Span>>, edges: map<nat, int>)
    ensures Files(SpansOf(entities, |entities|, n), opens, closes, edges)
  {
    hide Files, SpanOf;
    opens, closes, edges := map[], map[], map[];
    NothingFiled();
    for k := 0 to |entities|
      invariant Files(SpansOf(entities, k, n), opens, closes, edges)
    {
      var s := SpanOf(entities[k], k, n);
      if s.Some? {
        opens, closes, edges := FileSpan(s.value, SpansOf(entities, k, n), opens, closes, edges);
      } else {
        assert SpansOf(entities, k + 1, n) == SpansOf(entities, k, n);
      }
    }
  }

  lemma PrintsStep(units: seq<string>, spans: seq<Span>, pos: nat)
    requires pos < |units|
    ensures Prints(TokensTo(units, spans, pos + 1))
      == Prints(TokensTo(units, spans, pos)) + Prints(MarkersAt(spans, pos)) + Prints(TextAt(units, spans, pos))
  {
    hide MarkersAt, TextAt;
    PrintsApp(TokensTo(units, spans, pos) + MarkersAt(spans, pos), TextAt(units, spans, pos));
    PrintsApp(TokensTo(units, spans, pos), MarkersAt(spans, pos));
  }

  method PrintMarkers(closing: seq<Span>, starting: seq<Span>, ghost spans: seq<Span>, ghost pos: nat)
    returns (out: seq<string>)
    requires closing == Ending(spans, pos) && starting == Starting(spans, pos)
    ensures out == Prints(MarkersAt(spans, pos))
  {
    hide Sort, Ending, Starting;
    out := Prints(Closes(Sort(ClosesBefore, closing))) + Prints(Opens(Sort(OpensBefore, starting)));
    PrintsApp(Closes(Sort(ClosesBefore, closing)), Opens(Sort(OpensBefore, starting)));
  }

  method PrintUnit(units: seq<string>, pos: nat, depth: int, ghost spans: seq<Span>) returns (out: seq<string>)
    requires pos < |units| && depth == Depth(spans, pos)
    ensures out == Prints(TextAt(units, spans, pos))
  {
    hide Depth;
    out := [units[pos]];
    if units[pos] == "\n" && depth > 0 && pos + 1 < |units| { out := out + ["> "]; }
  }

  /** `to_markdown`. */
  method ToMarkdown(text: string, entities: seq<Entity>) returns (markdown: string)
    ensures var units := UnitsOf(text);
      markdown == if text == "" || entities == [] then text
                  else Join(Prints(Tokens(units, SpansOf(entities, |entities|, |units|))))
  {
    hide Sort, Run, Join, UnitsOf, Depth, Delta, SpanOf, SpansOf, Files, TokensTo, MarkersAt, TextAt, Starting,
      Ending, Lookup, Prints;
    if text == "" || entities == [] { return text; }
    var units := Units(text);
    var n := |units|;
    var opens, closes, edges := FileAll(entities, n);
    ghost var spans := SpansOf(entities, |entities|, n);
    var out: seq<string>, depth: int := [], 0;
    TokensNone(units, spans);
    for pos := 0 to n
      invariant out == Prints(TokensTo(units, spans, pos))
      invariant depth == if pos == 0 then 0 else Depth(spans, pos - 1)
    {
      Filed(spans, opens, closes, edges, pos);
      var marks := PrintMarkers(Lookup(closes, pos, []), Lookup(opens, pos, []), spans, pos);
      out := out + marks;
      DepthStep(spans, pos);
      PrintsStep(units, spans, pos);
      depth := depth + Lookup(edges, pos, 0);
      var written := PrintUnit(units, pos, depth, spans);
      out := out + written;
    }
    Filed(spans, opens, closes, edges, n);
    var marks := PrintMarkers(Lookup(closes, n, []), Lookup(opens, n, []), spans, n);
    PrintsApp(TokensTo(units, spans, n), MarkersAt(spans, n));
    return Join(out + marks);
  }

  lemma NothingFiled()
    ensures Files([], map[], map[], map[])
  {
  }

  lemma TokensNone(units: seq<string>, spans: seq<Span>)
    ensures Prints(TokensTo(units, spans, 0)) == []
  {
  }

  lemma Filed(spans: seq<Span>, opens: map<nat, seq<Span>>, closes: map<nat, seq<Span>>, edges: map<nat, int>, pos: nat)
    requires Files(spans, opens, closes, edges)
    ensures Lookup(opens, pos, []) == Starting(spans, pos)
    ensures Lookup(closes, pos, []) == Ending(spans, pos)
    ensures Lookup(edges, pos, 0) == Delta(spans, pos)
  {
  }

  /** What `to_markdown` writes for any text and entities: the text, and markers
      that match exactly when the clamped ranges are nested or disjoint. */
  lemma MarkdownOfEntities(text: string, entities: seq<Entity>)
    ensures var units := UnitsOf(text); var spans := SpansOf(entities, |entities|, |units|);
      && Join(Plain(Tokens(units, spans))) == text
      && (Run(Tokens(units, spans), []) == Some([]) <==> Laminar(spans))
  {
    hide Run, Tokens, Join, Plain, UnitsOf, Laminar;
    var units := UnitsOf(text);
    var spans := SpansOf(entities, |entities|, |units|);
    DeletingMarkersGivesText(text, spans);
    BracketsMatchIffLaminar(units, spans);
  }
}