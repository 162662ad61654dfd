/** Taking the bot's mention out of a message, `telegram/group.py`.

    Texts are sequences of UTF-16 code units, and entities are ranges over them.
    What is cut out is the mention, with the white space around it at the start of
    a message; the entities the cut does not touch keep their units. */
module Mention {
  import opened Options

  type Unit = bv16
  type Text = seq<Unit>

  function AtMost(i: nat, n: nat): (r: nat)
    ensures r <= i && r <= n && (r == i || r == n)
  {
    if i < n then i else n
  }

  /** `text[..i]` and `text[i..]` of Python, where i may lie beyond the end. */
  function Upto(text: Text, i: nat): Text { text[..AtMost(i, |text|)] }

  function From(text: Text, i: nat): Text { text[AtMost(i, |text|)..] }

  datatype Entity = Entity(mention: bool, offset: nat, length: nat) {
    function End(): nat { offset + length }

    /** The units it covers. */
    function Slice(text: Text): Text { text[AtMost(offset, |text|)..AtMost(End(), |text|)] }
  }

  const SPACE: Unit := 0x20

  function AtLeast0(x: int): nat { if x < 0 then 0 else x }

  /** The entity is marked as a mention and its text names the bot. */
  predicate Names(text: Text, e: Entity, names: Text -> bool) { e.mention && names(e.Slice(text)) }

  /** The first entity that names the bot, or the length. */
  function Target(text: Text, entities: seq<Entity>, names: Text -> bool): (k: nat)
    ensures k <= |entities| && (k < |entities| ==> Names(text, entities[k], names))
    ensures forall i | 0 <= i < k :: !Names(text, entities[i], names)
  {
    if entities == [] || Names(text, entities[0], names) then 0 else 1 + Target(text, entities[1..], names)
  }

  /** The mention is the first entity marked as one whose units are the bot's name. */
  lemma TargetIs(text: Text, entities: seq<Entity>, names: Text -> bool)
    requires forall i | 0 <= i < |entities| :: entities[i].End() <= |text|
    ensures var k := Target(text, entities, names);
      && (k < |entities| ==> entities[k].mention && names(text[entities[k].offset..entities[k].End()]))
      && forall i | 0 <= i < k :: !(entities[i].mention && names(text[entities[i].offset..entities[i].End()]))
  {
    forall i | 0 <= i < |entities|
      ensures Names(text, entities[i], names) <==>
        entities[i].mention && names(text[entities[i].offset..entities[i].End()])
    {
      assert entities[i].Slice(text) == text[entities[i].offset..entities[i].End()];
    }
  }

  /** How many spaces a text begins with. */
  function Spaces(text: Text): (k: nat)
    ensures k <= |text| && (forall x | 0 <= x < k :: text[x] == SPACE) && (k < |text| ==> text[k] != SPACE)
  {
    if text != [] && text[0] == SPACE then 1 + Spaces(text[1..]) else 0
  }

  /** What is cut out: the mention; with everything before it and the spaces after
      it when nothing but white space comes before. */
  function Cut(text: Text, e: Entity, white: Unit -> bool): (r: (nat, nat))
    ensures r.0 <= e.offset && e.End() <= r.1
    ensures forall x | r.0 <= x < AtMost(e.offset, |text|) :: white(text[x])
    ensures forall x | e.End() <= x < r.1 :: x < |text| && text[x] == SPACE
  {
    if forall u | u in Upto(text, e.offset) :: white(u) then (0, e.End() + Spaces(From(text, e.End())))
    else (e.offset, e.End())
  }

  /** An entity that is neither the mention nor touched by the cut. */
  predicate Kept(entities: seq<Entity>, i: nat, target: nat, start: nat, end: nat)
    requires i < |entities|
  {
    i != target && (entities[i].offset >= end || entities[i].End() <= start)
  }

  /** What is cut out, exactly: with text before it the mention alone; else everything
      from the start of the text up to the first unit after the mention that is no space. */
  lemma CutIs(text: Text, e: Entity, white: Unit -> bool)
    requires e.End() <= |text|
    ensures var (start, end) := Cut(text, e, white);
      if exists x | 0 <= x < e.offset :: !white(text[x]) then start == e.offset && end == e.End()
      else
        && start == 0 && e.End() <= end <= |text| && (end < |text| ==> text[end] != 0x20)
        && forall x | e.End() <= x < end :: text[x] == 0x20
  {
    var after := From(text, e.End());
    assert after == text[e.End()..];
    var n := Spaces(after);
    assert n < |after| ==> text[e.End() + n] == after[n];
    if x :| 0 <= x < e.offset && !white(text[x]) { assert text[x] in Upto(text, e.offset); }
  }

  predicate Within(x: int, lo: int, hi: int) { lo <= x < hi }

  /** An entity is kept exactly when it is not the mention and none of its units is cut out. */
  lemma KeptIff(entities: seq<Entity>, i: nat, target: nat, start: nat, end: nat)
    requires i < |entities| && entities[i].length > 0 && start < end
    ensures Kept(entities, i, target, start, end) <==>
      i != target && !exists x :: Within(x, entities[i].offset, entities[i].End()) && Within(x, start, end)
  {
    var e := entities[i];
    if e.offset < end && start < e.End() {
      var x := if e.offset < start then start else e.offset;
      assert Within(x, e.offset, e.End()) && Within(x, start, end);
    }
  }

  /** How many of the first i entities are kept. */
  function Count(entities: seq<Entity>, i: nat, target: nat, start: nat, end: nat): nat
    requires i <= |entities|
  {
    if i == 0 then 0
    else Count(entities, i - 1, target, start, end) + if Kept(entities, i - 1, target, start, end) then 1 else 0
  }

  /** Where an entity is once start..end has been cut out. */
  function Moved(e: Entity, start: nat, end: nat): Entity {
    if e.offset >= end then e.(offset := AtLeast0(e.offset - (end - start))) else e
  }

  /** An entity that lay inside the text lies inside what is left, and covers the units it covered. */
  ghost predicate Rebased(text: Text, left: Text, e: Entity, e': Entity) {
    e.End() <= |text| ==> e'.length == e.length && e'.End() <= |left| && e'.Slice(left) == e.Slice(text)
  }

  /** The entities that survive the cut are in the list, in order, each at its new
      place and on its own text; and nothing else is. */
  ghost predicate Carried(text: Text, left: Text, entities: seq<Entity>, n: nat, target: nat, start: nat, end: nat,
          kept: seq<Entity>)
    requires n <= |entities|
  {
    && |kept| == Count(entities, n, target, start, end)
    && forall i | 0 <= i < n && Kept(entities, i, target, start, end) ::
         var c := Count(entities, i, target, start, end);
         c < |kept| && kept[c] == Moved(entities[i], start, end) && Rebased(text, left, entities[i], kept[c])
  }

  lemma SliceAfter(text: Text, start: nat, end: nat, i: nat, k: nat)
    requires start <= end <= i <= k <= |text|
    ensures var n := end - start; (text[..start] + text[end..])[i - n..k - n] == text[i..k]
  {
  }

  lemma SliceBefore(a: Text, b: Text, text: Text, i: nat, k: nat)
    requires i <= k <= |a| && a <= text
    ensures (a + b)[i..k] == text[i..k]
  {
  }

  lemma RebasedBy(text: Text, start: nat, end: nat, e: Entity)
    requires start <= end && (e.offset >= end || e.End() <= start)
    ensures Rebased(text, Upto(text, start) + From(text, end), e, Moved(e, start, end))
  {
    if e.End() <= |text| {
      if e.offset >= end {
        SliceAfter(text, start, end, e.offset, e.End());
      } else {
        SliceBefore(Upto(text, start), From(text, end), text, e.offset, e.End());
      }
    }
  }

  lemma CarriedNone(text: Text, left: Text, entities: seq<Entity>, k: nat, start: nat, end: nat)
    ensures Carried(text, left, entities, 0, k, start, end, [])
  {
  }

  lemma CarriedNext(text: Text, left: Text, entities: seq<Entity>, i: nat, k: nat, start: nat, end: nat,
          kept: seq<Entity>)
    requires i < |entities| && Carried(text, left, entities, i, k, start, end, kept)
    ensures !Kept(entities, i, k, start, end) ==> Carried(text, left, entities, i + 1, k, start, end, kept)
    ensures Kept(entities, i, k, start, end) && Rebased(text, left, entities[i], Moved(entities[i], start, end)) ==>
      Carried(text, left, entities, i + 1, k, start, end, kept + [Moved(entities[i], start, end)])
  {
    hide Rebased;
  }

  /** The text without what is cut out, and the entities carried over. */
  ghost predicate Cleaned(text: Text, entities: seq<Entity>, k: nat, white: Unit -> bool, cleaned: Text,
          kept: seq<Entity>)
    requires k < |entities|
  {
    var cut := Cut(text, entities[k], white);
    var left := Upto(text, cut.0) + From(text, cut.1);
    cleaned == (if left == [] then text else left) && Carried(text, left, entities, |entities|, k, cut.0, cut.1, kept)
  }

  /** What is left is the text before and after the cut; when that is nothing, the text stays. */
  lemma CleanedIs(text: Text, entities: seq<Entity>, k: nat, white: Unit -> bool, cleaned: Text, kept: seq<Entity>)
    requires k < |entities| && entities[k].End() <= |text| && Cleaned(text, entities, k, white, cleaned, kept)
    ensures var (start, end) := Cut(text, entities[k], white);
      && start <= end <= |text|
      && cleaned == if start == 0 && end == |text| then text else text[..start] + text[end..]
  {
    hide Carried;
    CutIs(text, entities[k], white);
  }

  /** The part of `clean_mention` for a mention marked by entity k. */
  method CutMention(text: Text, entities: seq<Entity>, k: nat, white: Unit -> bool)
    returns (cleaned: Text, kept: seq<Entity>)
    requires k < |entities|
    ensures Cleaned(text, entities, k, white, cleaned, kept)
  {
    hide Rebased, Carried, Upto, From;
    var start, end := entities[k].offset, entities[k].End();
    if forall u | u in Upto(text, start) :: white(u) {
      end := end + Spaces(From(text, end));
      start := 0;
    }
    var left := Upto(text, start) + From(text, end);
    kept := [];
    CarriedNone(text, left, entities, k, start, end);
    for i := 0 to |entities|
      invariant Carried(text, left, entities, i, k, start, end, kept)
    {
      var e := entities[i];
      if e.offset >= end || e.End() <= start { RebasedBy(text, start, end, e); }
      CarriedNext(text, left, entities, i, k, start, end, kept);
      if i == k { continue; }
      if e.offset >= end {
        kept := kept + [e.(offset := AtLeast0(e.offset - (end - start)))];
      } else if e.End() <= start {
        kept := kept + [e];
      }
    }
    cleaned := if left == [] then text else left;
  }

  /** `clean_mention`; `sub` stands for taking the name out of a text in which no
      entity marks it.  When one does, every kept entity lies inside the new text
      and covers exactly the units it covered before. */
  method CleanMention(text: Option<Text>, username: bool, entities: Option<seq<Entity>>, names: Text -> bool,
          white: Unit -> bool, sub: Text -> Text)
    returns (cleaned: Option<Text>, kept: Option<seq<Entity>>)
    ensures text.None? || text.value == [] || !username ==> cleaned == text && kept == entities
    ensures text.Some? && text.value != [] && username ==>
      var es := if entities.Some? then entities.value else [];
      var k := Target(text.value, es, names);
      if k == |es| then
        kept == entities && cleaned == Some(if sub(text.value) == [] then text.value else sub(text.value))
      else cleaned.Some? && kept.Some? && Cleaned(text.value, es, k, white, cleaned.value, kept.value)
  {
    hide Target, Cleaned;
    if text.None? || text.value == [] || !username { return text, entities; }
    if entities.Some? {
      var k := Target(text.value, entities.value, names);
      if k < |entities.value| {
        var left, carried := CutMention(text.value, entities.value, k, white);
        return Some(left), Some(carried);
      }
    }
    assert entities.None? ==> Target(text.value, [], names) == 0;
    var removed := sub(text.value);
    return Some(if removed == [] then text.value else removed), entities;
  }
}
