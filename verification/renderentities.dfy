/** What `to_markdown` of `telegram/render.py` writes for each entity. */
module RenderEntities {
  // The texts around its units, how often they are written, and the prefixes
  // inside quotes.

  import opened Options
  import opened Render

  // ---------------------------------------------------------------- entities

  /** The kinds that are marked, and the texts written around their units. */
  ghost predicate Marks(kind: Kind, open: string, close: string) {
    match kind
    case Bold => open == "**" && close == "**"
    case Italic => open == "_" && close == "_"
    case Underline => open == "__" && close == "__"
    case Strikethrough => open == "~~" && close == "~~"
    case Spoiler => open == "||" && close == "||"
    case Code => open == "`" && close == "`"
    case Pre(language) => open == "```" + language + "\n" && close == "\n```"
    case TextLink(url) => url != "" && open == "[" && close == "](" + url + ")"
    case TextMention(user) => user != "" && open == "[" && close == "](tg://user?id=" + user + ")"
    case Blockquote => open == "> " && close == ""
    case ExpandableBlockquote => open == "> " && close == ""
    case Other => false
  }

  /** The unit at pos belongs to the entity. */
  predicate Covers(e: Entity, pos: nat) { e.offset <= pos < e.offset + e.length }

  /** The entity holds one of the n units. */
  ghost predicate Visible(e: Entity, n: nat) { exists pos: nat :: pos < n && Covers(e, pos) }

  /** An entity has a span exactly when it is marked and holds a unit, and its
      span is made of exactly the units it holds. */
  lemma SpanIsEntity(e: Entity, order: nat, n: nat)
    ensures SpanOf(e, order, n).Some? <==> Visible(e, n) && exists open, close :: Marks(e.kind, open, close)
    ensures SpanOf(e, order, n).Some? ==>
      var s := SpanOf(e, order, n).value;
      && Marks(e.kind, s.open, s.close)
      && (s.quote <==> e.kind == Blockquote || e.kind == ExpandableBlockquote)
      && (forall pos: nat | pos < n :: s.start <= pos < s.end <==> Covers(e, pos))
  {
    var start := Clamp(e.offset, 0, n);
    if Visible(e, n) {
      var pos: nat :| pos < n && Covers(e, pos);
      assert start <= pos < Clamp(e.offset + e.length, 0, n);
    } else if start < n {
      assert !Covers(e, start);
    }
    if Markers(e.kind).Some? {
      assert Marks(e.kind, Markers(e.kind).value.0, Markers(e.kind).value.1);
    }
  }

  lemma {:induction false} SpansAre(entities: seq<Entity>, k: nat, n: nat)
    requires k <= |entities|
    ensures forall s: Span :: s in SpansOf(entities, k, n) <==>
      s.order < k && SpanOf(entities[s.order], s.order, n) == Some(s)
  {
    hide SpanOf;
    if k > 0 { SpansAre(entities, k - 1, n); }
  }

  // ---------------------------------------------------------------- markers

  /** A visible entity of a marked kind has its two texts in the output, the first
      where exactly the units before the entity are written, the second where
      exactly the units up to its end are. */
  lemma EntityIsMarked(units: seq<string>, entities: seq<Entity>, i: nat, open: string, close: string)
    returns (p: nat, q: nat)
    requires i < |entities| && Visible(entities[i], |units|) && Marks(entities[i].kind, open, close)
    ensures var tokens, e := Tokens(units, SpansOf(entities, |entities|, |units|)), entities[i];
      && p < q < |tokens| && tokens[p].Open? && tokens[q].Close?
      && tokens[p].Print() == open && tokens[q].Print() == close
      && Plain(tokens[..p]) == units[..if e.offset < 0 then 0 else e.offset]
      && Plain(tokens[..q]) == units[..if e.offset + e.length > |units| then |units| else e.offset + e.length]
  {
    hide Tokens, Plain;
    var n := |units|;
    SpanIsEntity(entities[i], i, n);
    SpansAre(entities, |entities|, n);
    var s := SpanOf(entities[i], i, n).value;
    p, q := MarkersEnclose(units, SpansOf(entities, |entities|, n), s);
  }

  /** Nothing else is marked: every marker in the output is that of a visible
      entity of a marked kind. */
  lemma MarkersAreOfEntities(units: seq<string>, entities: seq<Entity>, k: nat)
    requires k < |Tokens(units, SpansOf(entities, |entities|, |units|))|
    ensures var t := Tokens(units, SpansOf(entities, |entities|, |units|))[k];
      t.Open? || t.Close? ==>
        && t.span.order < |entities| && Visible(entities[t.span.order], |units|)
        && Marks(entities[t.span.order].kind, t.span.open, t.span.close)
  {
    hide TokensTo, MarkersAt, SpansOf, SpanOf;
    var n, spans := |units|, SpansOf(entities, |entities|, |units|);
    TokensOfSpans(units, spans, n);
    MarkersOfSpans(spans, n);
    var t := Tokens(units, spans)[k];
    assert t in TokensTo(units, spans, n) || t in MarkersAt(spans, n);
    if t.Open? || t.Close? {
      SpansAre(entities, |entities|, n);
      SpanIsEntity(entities[t.span.order], t.span.order, n);
    }
  }

  lemma MarkersOfSpans(spans: seq<Span>, pos: nat)
    ensures forall t | t in MarkersAt(spans, pos) :: (t.Open? || t.Close?) && t.span in spans
  {
    hide Sort, Starting, Ending;
    var closing, starting := Sort(ClosesBefore, Ending(spans, pos)), Sort(OpensBefore, Starting(spans, pos));
    forall t | t in MarkersAt(spans, pos) ensures (t.Open? || t.Close?) && t.span in spans {
      if t in Closes(closing) { assert t.span in closing; } else { assert t.span in starting; }
    }
  }

  lemma {:induction false} TokensOfSpans(units: seq<string>, spans: seq<Span>, pos: nat)
    requires pos <= |units|
    ensures forall t | t in TokensTo(units, spans, pos) && (t.Open? || t.Close?) :: t.span in spans
  {
    hide MarkersAt, Depth;
    if pos > 0 {
      TokensOfSpans(units, spans, pos - 1);
      MarkersOfSpans(spans, pos - 1);
    }
  }

  // ---------------------------------------------------------------- once

  lemma {:induction false} InsertCounts(before: (Span, Span) -> bool, x: Span, s: seq<Span>)
    ensures multiset(Insert(before, x, s)) == multiset(s) + multiset{x}
  {
    if s != [] {
      assert s == [s[0]] + s[1..];
      InsertCounts(before, x, s[1..]);
    }
  }

  lemma {:induction false} SortCounts(before: (Span, Span) -> bool, s: seq<Span>)
    ensures multiset(Sort(before, s)) == multiset(s)
  {
    if s != [] {
      assert s == [s[0]] + s[1..];
      SortCounts(before, s[1..]);
      InsertCounts(before, s[0], Sort(before, s[1..]));
    }
  }

  /** How often a token stands in a list. */
  function Times(t: Token, tokens: seq<Token>): nat { multiset(tokens)[t] }

  lemma {:induction false} MarksCount(s: Span, spans: seq<Span>)
    ensures Times(Open(s), Opens(spans)) == Times(Close(s), Closes(spans)) == multiset(spans)[s]
    ensures Times(Close(s), Opens(spans)) == Times(Open(s), Closes(spans)) == 0
  {
    if spans != [] {
      var n := |spans| - 1;
      MarksCount(s, spans[..n]);
      assert spans == spans[..n] + [spans[n]];
      assert Opens(spans) == Opens(spans[..n]) + [Open(spans[n])];
      assert Closes(spans) == Closes(spans[..n]) + [Close(spans[n])];
    }
  }

  lemma LastCounts(spans: seq<Span>, s: Span)
    requires spans != []
    ensures multiset(spans)[s]
      == multiset(spans[..|spans| - 1])[s] + if spans[|spans| - 1] == s then 1 else 0
  {
    assert spans == spans[..|spans| - 1] + [spans[|spans| - 1]];
  }

  lemma {:induction false} StartsOnce(spans: seq<Span>, s: Span, pos: nat)
    ensures multiset(Starting(spans, pos))[s] == (if s.start == pos then multiset(spans)[s] else 0)
  {
    if spans != [] {
      StartsOnce(spans[..|spans| - 1], s, pos);
      LastCounts(spans, s);
    }
  }

  lemma {:induction false} EndsOnce(spans: seq<Span>, s: Span, pos: nat)
    ensures multiset(Ending(spans, pos))[s] == (if s.end == pos then multiset(spans)[s] else 0)
  {
    if spans != [] {
      EndsOnce(spans[..|spans| - 1], s, pos);
      LastCounts(spans, s);
    }
  }

  lemma {:induction false} MemberOnce(spans: seq<Span>, s: Span)
    requires s in spans && forall i, j | 0 <= i < j < |spans| :: spans[i].order < spans[j].order
    ensures multiset(spans)[s] == 1
  {
    var n := |spans| - 1;
    assert spans == spans[..n] + [spans[n]];
    if s in spans[..n] {
      MemberOnce(spans[..n], s);
    } else {
      assert multiset(spans[..n])[s] == 0;
    }
  }

  lemma TimesAt(spans: seq<Span>, s: Span, pos: nat)
    requires multiset(spans)[s] == 1
    ensures Times(Open(s), MarkersAt(spans, pos)) == if s.start == pos then 1 else 0
    ensures Times(Close(s), MarkersAt(spans, pos)) == if s.end == pos then 1 else 0
  {
    hide Sort, Starting, Ending, Opens, Closes;
    var closing, starting := Sort(ClosesBefore, Ending(spans, pos)), Sort(OpensBefore, Starting(spans, pos));
    SortCounts(ClosesBefore, Ending(spans, pos));
    SortCounts(OpensBefore, Starting(spans, pos));
    MarksCount(s, closing);
    MarksCount(s, starting);
    StartsOnce(spans, s, pos);
    EndsOnce(spans, s, pos);
  }

  lemma TimesApp(t: Token, a: seq<Token>, b: seq<Token>)
    ensures Times(t, a + b) == Times(t, a) + Times(t, b)
  {
  }

  lemma TextHasNoMarks(units: seq<string>, spans: seq<Span>, s: Span, pos: nat)
    requires pos < |units|
    ensures Times(Open(s), TextAt(units, spans, pos)) == Times(Close(s), TextAt(units, spans, pos)) == 0
  {
    hide Depth;
    assert forall t | t in TextAt(units, spans, pos) :: t.Unit? || t.Prefix?;
  }

  /** How often a marker that is written at `at` is written before pos. */
  lemma {:induction false} TimesTo(units: seq<string>, spans: seq<Span>, t: Token, at: nat, pos: nat)
    requires pos <= |units| && (t.Open? || t.Close?)
    requires forall x: nat :: Times(t, MarkersAt(spans, x)) == if at == x then 1 else 0
    ensures Times(t, TokensTo(units, spans, pos)) == if at < pos then 1 else 0
  {
    hide MarkersAt, TextAt, Times;
    if pos > 0 {
      var before, here, text :=
        TokensTo(units, spans, pos - 1), MarkersAt(spans, pos - 1), TextAt(units, spans, pos - 1);
      TimesTo(units, spans, t, at, pos - 1);
      TextHasNoMarks(units, spans, t.span, pos - 1);
      TimesApp(t, before + here, text);
      TimesApp(t, before, here);
    } else {
      TimesNone(t);
    }
  }

  lemma TimesNone(t: Token)
    ensures Times(t, []) == 0
  {
  }

  /** The two markers of an entity are written once each. */
  lemma EntityIsMarkedOnce(units: seq<string>, entities: seq<Entity>, i: nat)
    requires i < |entities| && SpanOf(entities[i], i, |units|).Some?
    ensures var tokens := Tokens(units, SpansOf(entities, |entities|, |units|));
      var s := SpanOf(entities[i], i, |units|).value;
      Times(Open(s), tokens) == Times(Close(s), tokens) == 1
  {
    hide TokensTo, MarkersAt, SpanOf, SpansOf, Times;
    var n, spans := |units|, SpansOf(entities, |entities|, |units|);
    var s := SpanOf(entities[i], i, n).value;
    SpansAre(entities, |entities|, n);
    MemberOnce(spans, s);
    forall x: nat
      ensures Times(Open(s), MarkersAt(spans, x)) == if s.start == x then 1 else 0
      ensures Times(Close(s), MarkersAt(spans, x)) == if s.end == x then 1 else 0
    {
      TimesAt(spans, s, x);
    }
    TimesTo(units, spans, Open(s), s.start, n);
    TimesTo(units, spans, Close(s), s.end, n);
    TimesApp(Open(s), TokensTo(units, spans, n), MarkersAt(spans, n));
    TimesApp(Close(s), TokensTo(units, spans, n), MarkersAt(spans, n));
  }

  // ---------------------------------------------------------------- nesting

  /** Of two entities that begin together the longer is marked first, and of two
      that hold the same units the one listed first. */
  lemma OuterIsMarkedFirst(units: seq<string>, spans: seq<Span>, a: Span, b: Span) returns (p: nat, q: nat)
    requires Proper(spans, |units|) && a in spans && b in spans && a.start == b.start
    requires a.end > b.end || (a.end == b.end && a.order < b.order)
    ensures p < q < |Tokens(units, spans)| && Tokens(units, spans)[p] == Open(a) && Tokens(units, spans)[q] == Open(b)
  {
    hide TokensTo, TextAt, Sort, Starting, Ending, Tokens;
    var pos := a.start;
    var closing, starting := Closes(Sort(ClosesBefore, Ending(spans, pos))), Sort(OpensBefore, Starting(spans, pos));
    SortedMarkers(spans, pos, |units|);
    MarkersWritten(units, spans, pos);
    var x, y := OuterIsEarlier(starting, a, b);
    var before := TokensTo(units, spans, pos) + closing;
    p, q := |before| + x, |before| + y;
    assert before + Opens(starting) == TokensTo(units, spans, pos) + MarkersAt(spans, pos);
  }

  lemma OuterIsEarlier(s: seq<Span>, a: Span, b: Span) returns (x: nat, y: nat)
    requires Increasing(OpensBefore, s) && a in s && b in s && a.start == b.start
    requires a.end > b.end || (a.end == b.end && a.order < b.order)
    ensures x < y < |s| && s[x] == a && s[y] == b
  {
    x :| 0 <= x < |s| && s[x] == a;
    y :| 0 <= y < |s| && s[y] == b;
    assert y < x ==> OpensBefore(s[y], s[x]);
  }

  lemma MarkersWritten(units: seq<string>, spans: seq<Span>, pos: nat)
    requires pos <= |units|
    ensures TokensTo(units, spans, pos) + MarkersAt(spans, pos) <= Tokens(units, spans)
  {
    hide MarkersAt, TextAt, TokensTo;
    if pos < |units| { WrittenBefore(units, spans, pos, |units|); }
  }

  // ---------------------------------------------------------------- quotes

  lemma {:induction false} DepthCounts(spans: seq<Span>, pos: nat)
    ensures Depth(spans, pos) > 0 <==> exists s :: s in spans && s.quote && s.start <= pos < s.end
  {
    if spans != [] {
      var n := |spans| - 1;
      DepthCounts(spans[..n], pos);
      assert spans == spans[..n] + [spans[n]];
    }
  }

  /** An entity that quotes the unit at pos. */
  ghost predicate Quotes(e: Entity, pos: nat) {
    (e.kind == Blockquote || e.kind == ExpandableBlockquote) && Covers(e, pos)
  }

  lemma SpanQuotes(entities: seq<Entity>, n: nat, pos: nat, s: Span)
    requires pos < n && s in SpansOf(entities, |entities|, n) && s.quote && s.start <= pos < s.end
    ensures s.order < |entities| && Quotes(entities[s.order], pos)
  {
    hide SpanOf, SpansOf;
    SpansAre(entities, |entities|, n);
    SpanIsEntity(entities[s.order], s.order, n);
  }

  lemma QuoteHasSpan(entities: seq<Entity>, n: nat, pos: nat, i: nat)
    requires pos < n && i < |entities| && Quotes(entities[i], pos)
    ensures exists s :: s in SpansOf(entities, |entities|, n) && s.quote && s.start <= pos < s.end
  {
    hide SpanOf, SpansOf;
    SpansAre(entities, |entities|, n);
    SpanIsEntity(entities[i], i, n);
    assert Visible(entities[i], n) && Marks(entities[i].kind, "> ", "");
    assert SpanOf(entities[i], i, n).value in SpansOf(entities, |entities|, n);
  }

  lemma QuotedIff(entities: seq<Entity>, n: nat, pos: nat)
    requires pos < n
    ensures Depth(SpansOf(entities, |entities|, n), pos) > 0 <==>
      exists i :: 0 <= i < |entities| && Quotes(entities[i], pos)
  {
    hide SpansOf, Depth, Quotes;
    var spans := SpansOf(entities, |entities|, n);
    DepthCounts(spans, pos);
    if Depth(spans, pos) > 0 {
      var s :| s in spans && s.quote && s.start <= pos < s.end;
      SpanQuotes(entities, n, pos, s);
    }
    if i :| 0 <= i < |entities| && Quotes(entities[i], pos) { QuoteHasSpan(entities, n, pos, i); }
  }

  /** Every unit but the last is written after exactly the units before it, and a
      quote prefix follows it exactly when it is a newline inside a quote. */
  lemma QuotedNewlines(units: seq<string>, entities: seq<Entity>, pos: nat) returns (k: nat)
    requires pos + 1 < |units|
    ensures var tokens := Tokens(units, SpansOf(entities, |entities|, |units|));
      && k + 1 < |tokens| && tokens[k] == Unit(units[pos]) && Plain(tokens[..k]) == units[..pos]
      && (tokens[k + 1].Prefix? <==>
        units[pos] == "\n" && exists i :: 0 <= i < |entities| && Quotes(entities[i], pos))
  {
    hide TokensTo, MarkersAt, SpansOf, Plain, Depth;
    var spans := SpansOf(entities, |entities|, |units|);
    var all, head := Tokens(units, spans), TokensTo(units, spans, pos) + MarkersAt(spans, pos);
    var text, next := TextAt(units, spans, pos), MarkersAt(spans, pos + 1) + TextAt(units, spans, pos + 1);
    k := |head|;
    QuotedIff(entities, |units|, pos);
    TwoSteps(units, spans, pos);
    assert all[k] == text[0] && all[..k] == head;
    PlainTo(units, spans, pos);
    PlainAt(units, spans, pos);
    PlainApp(TokensTo(units, spans, pos), MarkersAt(spans, pos));
    if |text| == 1 {
      NoPrefixFirst(units, spans, pos + 1);
      assert all[k + 1] == next[0];
    } else {
      assert all[k + 1] == text[1];
    }
  }

  lemma NoPrefixFirst(units: seq<string>, spans: seq<Span>, pos: nat)
    requires pos < |units|
    ensures MarkersAt(spans, pos) + TextAt(units, spans, pos) != []
      && !(MarkersAt(spans, pos) + TextAt(units, spans, pos))[0].Prefix?
  {
    hide MarkersAt, Depth;
    MarkersOfSpans(spans, pos);
    if MarkersAt(spans, pos) != [] { assert MarkersAt(spans, pos)[0] in MarkersAt(spans, pos); }
  }

  lemma TwoSteps(units: seq<string>, spans: seq<Span>, pos: nat)
    requires pos + 1 < |units|
    ensures TokensTo(units, spans, pos) + MarkersAt(spans, pos) + TextAt(units, spans, pos)
      + (MarkersAt(spans, pos + 1) + TextAt(units, spans, pos + 1)) <= Tokens(units, spans)
  {
    hide MarkersAt, TextAt;
    var head := TokensTo(units, spans, pos) + MarkersAt(spans, pos) + TextAt(units, spans, pos);
    assert TokensTo(units, spans, pos + 1) == head;
    var more := TokensTo(units, spans, pos + 2);
    assert more == head + MarkersAt(spans, pos + 1) + TextAt(units, spans, pos + 1);
    assert more == head + (MarkersAt(spans, pos + 1) + TextAt(units, spans, pos + 1));
    if pos + 2 < |units| { WrittenBefore(units, spans, pos + 2, |units|); }
  }

  /** Only closing markers follow the last unit. */
  lemma LastUnitIsBare(units: seq<string>, spans: seq<Span>, last: nat)
    requires last + 1 == |units| && forall s | s in spans :: s.start < |units|
    ensures Tokens(units, spans) == TokensTo(units, spans, last) + MarkersAt(spans, last) + [Unit(units[last])]
        + Closes(Sort(ClosesBefore, Ending(spans, |units|)))
  {
    hide Depth, Sort, Ending, Closes, Opens;
    NoneOpen(spans, |units|);
    LastText(units, spans, last);
    assert TokensTo(units, spans, last + 1)
      == TokensTo(units, spans, last) + MarkersAt(spans, last) + TextAt(units, spans, last);
  }

  lemma LastText(units: seq<string>, spans: seq<Span>, last: nat)
    requires last + 1 == |units|
    ensures TextAt(units, spans, last) == [Unit(units[last])]
  {
    hide Depth;
  }

  lemma NoneOpen(spans: seq<Span>, n: nat)
    requires forall s | s in spans :: s.start < n
    ensures Opens(Sort(OpensBefore, Starting(spans, n))) == []
  {
    NoneStarts(spans, n);
  }

  lemma {:induction false} NoneStarts(spans: seq<Span>, n: nat)
    requires forall s | s in spans :: s.start < n
    ensures Starting(spans, n) == []
  {
    if spans != [] {
      assert spans[|spans| - 1] in spans;
      NoneStarts(spans[..|spans| - 1], n);
    }
  }

  // ---------------------------------------------------------------- units

  /** The units of a text are those of its characters, one after the other: the
      character itself, and an empty one behind it outside the basic plane. */
  lemma {:induction false} UnitsAreOfCharacters(a: string, c: char)
    ensures UnitsOf(a + [c]) == UnitsOf(a) + [[c]] + if c as int >= 0x10000 then [""] else []
  {
    assert (a + [c])[..|a|] == a;
  }

  /** The first example of the formatting: the second word is bold. */
  lemma SecondWordBold()
    ensures SpansOf([Entity(Bold, 6, 5)], 1, 11) == [Span(6, 11, 0, "**", "**", false)]
  {
    assert SpansOf([Entity(Bold, 6, 5)], 0, 11) == [];
  }
}
