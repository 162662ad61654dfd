/** The resumable model stream of `agent/client.py`. */
module Client {
  // Lines come out of byte chunks, parts are collected into a reply, and a reply
  // that was cut off is continued.

  import opened Options

  // ---------------------------------------------------------------- lines

  type Bytes = seq<bv8>

  const LF: bv8 := 10
  const CR: bv8 := 13

  function Flatten(chunks: seq<Bytes>): Bytes {
    if chunks == [] then [] else Flatten(chunks[..|chunks| - 1]) + chunks[|chunks| - 1]
  }

  /** `rstrip(b"\r")`. */
  function Rstrip(line: Bytes): Bytes {
    if line != [] && line[|line| - 1] == CR then Rstrip(line[..|line| - 1]) else line
  }

  /** `buffer.find(b"\n")`, or the length. */
  function Find(s: Bytes): (k: nat)
    ensures k <= |s| && LF !in s[..k] && (k < |s| ==> s[k] == LF)
  {
    if s == [] || s[0] == LF then 0
    else
      var k := 1 + Find(s[1..]);
      assert s[..k] == [s[0]] + s[1..][..k - 1];
      k
  }

  /** The complete lines of a text, and what follows the last line feed. */
  function Complete(s: Bytes): seq<Bytes>
    decreases |s|
  {
    var k := Find(s);
    if k == |s| then [] else [Rstrip(s[..k])] + Complete(s[k + 1..])
  }

  function Remainder(s: Bytes): Bytes
    decreases |s|
  {
    var k := Find(s);
    if k == |s| then s else Remainder(s[k + 1..])
  }

  /** The lines of a text as a whole. */
  function LinesOf(s: Bytes): seq<Bytes> {
    Complete(s) + if Remainder(s) == [] then [] else [Rstrip(Remainder(s))]
  }

  lemma FindApp(s: Bytes, t: Bytes)
    ensures Find(s) < |s| ==> Find(s + t) == Find(s)
    ensures Find(s) == |s| ==> Find(s + t) == |s| + Find(t)
  {
    if s == [] {
      assert s + t == t;
    } else if s[0] != LF {
      assert (s + t)[1..] == s[1..] + t;
      FindApp(s[1..], t);
    }
  }

  /** More bytes only add to the lines already complete. */
  lemma {:induction false} CompleteApp(s: Bytes, t: Bytes)
    ensures Complete(s + t) == Complete(s) + Complete(Remainder(s) + t)
    ensures Remainder(s + t) == Remainder(Remainder(s) + t)
    decreases |s|
  {
    hide Find, Rstrip;
    var k := Find(s);
    FindApp(s, t);
    if k < |s| {
      assert (s + t)[..k] == s[..k] && (s + t)[k + 1..] == s[k + 1..] + t;
      CompleteApp(s[k + 1..], t);
    }
  }

  /** A line loses its trailing carriage returns and nothing else. */
  lemma {:induction false} RstripIs(line: Bytes)
    ensures Rstrip(line) <= line && forall k | |Rstrip(line)| <= k < |line| :: line[k] == 13
    ensures Rstrip(line) != [] ==> Rstrip(line)[|Rstrip(line)| - 1] != 13
  {
    if line != [] && line[|line| - 1] == CR { RstripIs(line[..|line| - 1]); }
  }

  /** The lines are what stands between line feeds; an empty last one is left out. */
  lemma LinesAre(line: Bytes, rest: Bytes)
    requires 10 !in line
    ensures LinesOf(line + [10] + rest) == [Rstrip(line)] + LinesOf(rest)
    ensures LinesOf(line) == if line == [] then [] else [Rstrip(line)]
  {
    var s := line + [10] + rest;
    assert Find(s) == |line| by { assert s[|line|] == LF; }
    assert s[..|line|] == line && s[|line| + 1..] == rest;
  }

  /** `_lines`: the lines do not depend on how the bytes were cut into chunks. */
  method Lines(chunks: seq<Bytes>) returns (lines: seq<Bytes>)
    ensures lines == LinesOf(Flatten(chunks))
  {
    hide Find, Complete, Remainder, Rstrip, Flatten;
    lines := [];
    var buffer: Bytes := [];
    NothingComplete();
    for i := 0 to |chunks|
      invariant lines == Complete(Flatten(chunks[..i])) && buffer == Remainder(Flatten(chunks[..i]))
    {
      ghost var before := Flatten(chunks[..i]);
      FlattenMore(chunks, i);
      CompleteApp(before, chunks[i]);
      buffer := buffer + chunks[i];
      ghost var all := buffer;
      while true
        invariant lines + Complete(buffer) == Complete(before) + Complete(all)
        invariant Remainder(buffer) == Remainder(all)
        decreases |buffer|
      {
        CompleteNext(buffer);
        var cut := Find(buffer);
        if cut == |buffer| { break; }
        ghost var was := lines;
        lines := lines + [Rstrip(buffer[..cut])];
        assert was + ([Rstrip(buffer[..cut])] + Complete(buffer[cut + 1..])) == lines + Complete(buffer[cut + 1..]);
        buffer := buffer[cut + 1..];
      }
    }
    assert chunks[..|chunks|] == chunks;
    if buffer != [] { lines := lines + [Rstrip(buffer)]; }
  }

  lemma CompleteNext(s: Bytes)
    ensures var k := Find(s);
      if k == |s| then Complete(s) == [] && Remainder(s) == s
      else Complete(s) == [Rstrip(s[..k])] + Complete(s[k + 1..]) && Remainder(s) == Remainder(s[k + 1..])
  {
    hide Find, Rstrip, Complete, Remainder;
    CompleteStep(s);
    RemainderStep(s);
  }

  lemma CompleteStep(s: Bytes)
    ensures Complete(s) == if Find(s) == |s| then [] else [Rstrip(s[..Find(s)])] + Complete(s[Find(s) + 1..])
  {
    hide Find, Rstrip, Remainder;
  }

  lemma RemainderStep(s: Bytes)
    ensures Remainder(s) == if Find(s) == |s| then s else Remainder(s[Find(s) + 1..])
  {
    hide Find, Rstrip, Complete;
  }

  lemma FlattenMore(chunks: seq<Bytes>, i: nat)
    requires i < |chunks|
    ensures Flatten(chunks[..i + 1]) == Flatten(chunks[..i]) + chunks[i]
  {
    assert chunks[..i + 1][..i] == chunks[..i];
  }

  lemma NothingComplete()
    ensures Complete([]) == [] && Remainder([]) == [] && Flatten([]) == []
  {
  }

  // ---------------------------------------------------------------- parts

  /** A part of a model turn; `other` stands for its remaining fields. */
  datatype Part = Part(text: Option<string>, thought: Option<bool>, thoughtSignature: Option<string>,
                       signature: Option<string>, other: map<string, string>)
  {
    predicate Mergeable() { text.Some? && thoughtSignature.None? && signature.None? }

    function Text(): string { if text.Some? then text.value else "" }

    predicate IsThought() { thought == Some(true) }
  }

  predicate CanMerge(last: Part, part: Part) { last.Mergeable() && part.Mergeable() && last.thought == part.thought }

  /** One turn of the loop of `_merge_parts`. */
  function Add(merged: seq<Part>, part: Part): seq<Part> {
    if merged == [] then [part]
    else
      var n := |merged| - 1;
      if CanMerge(merged[n], part) then merged[n := merged[n].(text := Some(merged[n].Text() + part.Text()))]
      else merged + [part]
  }

  function AddAll(merged: seq<Part>, parts: seq<Part>): seq<Part> {
    if parts == [] then merged else Add(AddAll(merged, parts[..|parts| - 1]), parts[|parts| - 1])
  }

  /** `_merge_parts`. */
  function Merge(parts: seq<Part>): seq<Part> { AddAll([], parts) }

  method MergeParts(parts: seq<Part>) returns (merged: seq<Part>)
    ensures merged == Merge(parts)
  {
    merged := [];
    for i := 0 to |parts|
      invariant merged == Merge(parts[..i])
    {
      assert parts[..i + 1][..i] == parts[..i];
      var part := parts[i];
      if merged == [] {
        merged := [part];
        continue;
      }
      var n := |merged| - 1;
      if CanMerge(merged[n], part) {
        merged := merged[n := merged[n].(text := Some(merged[n].Text() + part.Text()))];
      } else {
        merged := merged + [part];
      }
    }
    assert parts[..|parts|] == parts;
  }

  /** No two neighbours could still be merged. */
  ghost predicate Tight(parts: seq<Part>) { forall i | 0 <= i < |parts| - 1 :: !CanMerge(parts[i], parts[i + 1]) }

  lemma {:induction false} MergeIsTight(parts: seq<Part>)
    ensures Tight(Merge(parts))
  {
    if parts != [] {
      var n := |parts| - 1;
      MergeIsTight(parts[..n]);
    }
  }

  lemma {:induction false} MergeTight(parts: seq<Part>)
    requires Tight(parts)
    ensures Merge(parts) == parts
  {
    if parts != [] {
      var n := |parts| - 1;
      MergeTight(parts[..n]);
      assert parts == parts[..n] + [parts[n]];
      if n > 0 { assert !CanMerge(parts[n - 1], parts[n]); }
    }
  }

  /** Merging twice changes nothing more. */
  lemma MergeIdempotent(parts: seq<Part>)
    ensures Merge(Merge(parts)) == Merge(parts)
  {
    MergeIsTight(parts);
    MergeTight(Merge(parts));
  }

  lemma {:induction false} AddAllApp(merged: seq<Part>, a: seq<Part>, b: seq<Part>)
    ensures AddAll(merged, a + b) == AddAll(AddAll(merged, a), b)
  {
    if b == [] {
      assert a + b == a;
    } else {
      assert (a + b)[..|a + b| - 1] == a + b[..|b| - 1];
      AddAllApp(merged, a, b[..|b| - 1]);
    }
  }

  /** Adding a part to a list and then to what came before is the same either way. */
  lemma AddAssociates(front: seq<Part>, middle: seq<Part>, part: Part)
    requires middle != []
    ensures AddAll(front, Add(middle, part)) == Add(AddAll(front, middle), part)
  {
    var n := |middle| - 1;
    var before := AddAll(front, middle[..n]);
    var added := Add(middle, part);
    if CanMerge(middle[n], part) {
      assert added[..n] == middle[..n];
      AddTwice(before, middle[n], part);
    } else {
      assert added[..n + 1] == middle;
    }
  }

  lemma AddTwice(before: seq<Part>, a: Part, b: Part)
    requires CanMerge(a, b)
    ensures Add(Add(before, a), b) == Add(before, a.(text := Some(a.Text() + b.Text())))
  {
    if before != [] && CanMerge(before[|before| - 1], a) {
      var last := before[|before| - 1];
      assert (last.Text() + a.Text()) + b.Text() == last.Text() + (a.Text() + b.Text());
    }
  }

  lemma {:induction false} AddAllMerged(front: seq<Part>, parts: seq<Part>)
    ensures AddAll(front, Merge(parts)) == AddAll(front, parts)
  {
    if parts != [] {
      var n := |parts| - 1;
      AddAllMerged(front, parts[..n]);
      if Merge(parts[..n]) == [] {
        assert AddAll(front, [parts[n]]) == Add(AddAll(front, []), parts[n]);
      } else {
        AddAssociates(front, Merge(parts[..n]), parts[n]);
      }
    }
  }

  /** Merging piecewise and then the pieces is merging the whole. */
  lemma MergeOfPieces(a: seq<Part>, b: seq<Part>)
    ensures Merge(Merge(a) + Merge(b)) == Merge(a + b)
  {
    AddAllApp([], Merge(a), Merge(b));
    AddAllApp([], a, b);
    MergeIdempotent(a);
    AddAllMerged(Merge(a), b);
  }

  // ---------------------------------------------------------------- runs

  /** A run of texts without signatures that are all thoughts or all not. */
  ghost predicate Joins(run: seq<Part>) {
    forall p | p in run ::
      p.text.Some? && p.thoughtSignature.None? && p.signature.None? && p.thought == run[0].thought
  }

  function Flat(runs: seq<seq<Part>>): seq<Part> {
    if runs == [] then [] else Flat(runs[..|runs| - 1]) + runs[|runs| - 1]
  }

  function Texts(run: seq<Part>): string {
    if run == [] then "" else Texts(run[..|run| - 1]) + run[|run| - 1].Text()
  }

  /** What a run becomes: its first part, with the texts of all of them. */
  ghost predicate BecomesOne(run: seq<Part>, part: Part) {
    run != [] && if |run| == 1 then part == run[0] else Joins(run) && part == run[0].(text := Some(Texts(run)))
  }

  ghost predicate RunsBecome(runs: seq<seq<Part>>, parts: seq<Part>) {
    |runs| == |parts| && forall i | 0 <= i < |runs| :: BecomesOne(runs[i], parts[i])
  }

  /** Merging cuts the parts into runs, each as long as can be, and makes one part of each. */
  lemma {:induction false} MergeJoinsRuns(parts: seq<Part>) returns (runs: seq<seq<Part>>)
    ensures Flat(runs) == parts && RunsBecome(runs, Merge(parts))
    ensures forall i | 0 < i < |runs| :: !Joins(runs[i - 1] + runs[i])
  {
    hide Joins, BecomesOne, CanMerge;
    if parts == [] { return []; }
    var n := |parts| - 1;
    runs := MergeJoinsRuns(parts[..n]);
    var merged, part := Merge(parts[..n]), parts[n];
    var k := |runs| - 1;
    if merged != [] && CanMerge(merged[k], part) {
      assert BecomesOne(runs[k], merged[k]);
      RunGrows(runs[k], merged[k], part);
      FlatGrows(runs, part);
      if k > 0 { StillApart(runs[k - 1], merged[k - 1], runs[k], part); }
      runs := runs[k := runs[k] + [part]];
    } else {
      if merged != [] {
        assert BecomesOne(runs[k], merged[k]);
        RunEnds(runs[k], merged[k], part);
      }
      FlatMore(runs, [part]);
      AloneIsOne(part);
      runs := runs + [[part]];
    }
  }

  lemma AloneIsOne(part: Part)
    ensures BecomesOne([part], part)
  {
  }

  lemma TextsMore(run: seq<Part>, part: Part)
    ensures Texts(run + [part]) == Texts(run) + part.Text()
  {
    assert (run + [part])[..|run|] == run;
  }

  lemma RunGrows(run: seq<Part>, one: Part, part: Part)
    requires BecomesOne(run, one) && CanMerge(one, part)
    ensures BecomesOne(run + [part], one.(text := Some(one.Text() + part.Text())))
  {
    JoinsMore(run, one, part);
    TextsMore(run, part);
    hide Joins, Texts;
    if |run| == 1 {
      assert run == [run[0]];
      AloneText(run[0]);
    }
  }

  lemma JoinsMore(run: seq<Part>, one: Part, part: Part)
    requires BecomesOne(run, one) && CanMerge(one, part)
    ensures Joins(run + [part])
  {
    hide Texts;
    forall p | p in run + [part]
      ensures p.text.Some? && p.thoughtSignature.None? && p.signature.None? && p.thought == run[0].thought
    {
      if p != part { assert p in run; }
    }
  }

  lemma AloneText(part: Part)
    ensures Texts([part]) == part.Text()
  {
    assert "" + part.Text() == part.Text() && [part][..0] == [];
  }

  /** A part that cannot be merged with what the run became cannot join the run. */
  lemma RunEnds(run: seq<Part>, one: Part, part: Part)
    requires BecomesOne(run, one) && !CanMerge(one, part)
    ensures !Joins(run + [part])
  {
    var all := run + [part];
    assert all[0] == run[0] && run[0] in all && part in all;
  }

  lemma StillApart(a: seq<Part>, one: Part, b: seq<Part>, part: Part)
    requires BecomesOne(a, one) && !Joins(a + b)
    ensures !Joins(a + (b + [part]))
  {
    var p :| p in a + b
      && !(p.text.Some? && p.thoughtSignature.None? && p.signature.None? && p.thought == a[0].thought);
    assert p in a + (b + [part]);
  }

  lemma FlatMore(runs: seq<seq<Part>>, run: seq<Part>)
    ensures Flat(runs + [run]) == Flat(runs) + run
  {
    assert (runs + [run])[..|runs|] == runs;
  }

  lemma FlatGrows(runs: seq<seq<Part>>, part: Part)
    requires runs != []
    ensures var k := |runs| - 1; Flat(runs[k := runs[k] + [part]]) == Flat(runs) + [part]
  {
    var k := |runs| - 1;
    assert runs[k := runs[k] + [part]][..k] == runs[..k];
    assert Flat(runs[..k]) + (runs[k] + [part]) == Flat(runs[..k]) + runs[k] + [part];
  }

  // ---------------------------------------------------------------- what merging keeps

  /** The text of the parts that are thoughts, or of those that are not. */
  function TextOf(parts: seq<Part>, thoughts: bool): string {
    if parts == [] then ""
    else
      var last := parts[|parts| - 1];
      TextOf(parts[..|parts| - 1], thoughts) + if last.IsThought() == thoughts then last.Text() else ""
  }

  /** The parts that carry a signature, untouched. */
  function Signed(parts: seq<Part>): seq<Part> {
    if parts == [] then []
    else
      var last := parts[|parts| - 1];
      Signed(parts[..|parts| - 1]) + if last.thoughtSignature.Some? || last.signature.Some? then [last] else []
  }

  lemma AddKeeps(merged: seq<Part>, part: Part, thoughts: bool)
    ensures TextOf(Add(merged, part), thoughts) ==
      TextOf(merged, thoughts) + if part.IsThought() == thoughts then part.Text() else ""
    ensures Signed(Add(merged, part)) ==
      Signed(merged) + if part.thoughtSignature.Some? || part.signature.Some? then [part] else []
  {
    var added := Add(merged, part);
    assert added[..|added| - 1] ==
      if merged != [] && CanMerge(merged[|merged| - 1], part) then merged[..|merged| - 1] else merged;
    if merged != [] && CanMerge(merged[|merged| - 1], part) {
      var n := |merged| - 1;
      assert (if merged[n].IsThought() == thoughts then merged[n].Text() + part.Text() else "")
          == (if merged[n].IsThought() == thoughts then merged[n].Text() else "")
            + (if part.IsThought() == thoughts then part.Text() else "");
    }
  }

  /** Merging keeps the visible text, the thoughts and every signed part, in order. */
  lemma {:induction false} MergeKeeps(parts: seq<Part>, thoughts: bool)
    ensures TextOf(Merge(parts), thoughts) == TextOf(parts, thoughts)
    ensures Signed(Merge(parts)) == Signed(parts)
  {
    if parts != [] {
      var n := |parts| - 1;
      MergeKeeps(parts[..n], thoughts);
      AddKeeps(Merge(parts[..n]), parts[n], thoughts);
    }
  }

  // ---------------------------------------------------------------- replies

  /** One candidate of a stream event: its parts and its finish reason. */
  datatype Candidate = Candidate(parts: seq<Part>, finish: Option<string>)

  /** What is kept of `Reply`. */
  datatype Reply = Reply(text: string, thoughts: string, rawParts: seq<Part>, stopReason: Option<string>)

  const NO_REPLY := Reply("", "", [], None)

  function PartsOf(candidates: seq<Candidate>): seq<Part> {
    if candidates == [] then [] else PartsOf(candidates[..|candidates| - 1]) + candidates[|candidates| - 1].parts
  }

  /** The last finish reason mentioned. */
  function FinishOf(was: Option<string>, candidates: seq<Candidate>): Option<string> {
    if candidates == [] then was
    else
      var last := candidates[|candidates| - 1];
      if last.finish.Some? then last.finish else FinishOf(was, candidates[..|candidates| - 1])
  }

  /** Every candidate adds its parts, and the last one with a finish reason sets it. */
  lemma CandidatesAdd(was: Option<string>, candidates: seq<Candidate>, c: Candidate)
    ensures PartsOf([]) == [] && PartsOf(candidates + [c]) == PartsOf(candidates) + c.parts
    ensures FinishOf(was, []) == was
    ensures FinishOf(was, candidates + [c]) == if c.finish.Some? then c.finish else FinishOf(was, candidates)
  {
    assert (candidates + [c])[..|candidates|] == candidates;
  }

  /** What a reply that has seen these parts says. */
  function ReplyOf(parts: seq<Part>, stop: Option<string>): Reply {
    Reply(TextOf(parts, false), TextOf(parts, true), parts, stop)
  }

  class Builder {
    var reply: Reply
    /** What has been handed to `on_event` as text deltas. */
    ghost var shown: string

    constructor (existing: Reply)
      ensures reply == existing && shown == ""
    {
      reply, shown := existing, "";
    }

    /** `feed`. */
    method Feed(candidates: seq<Candidate>, ghost before: seq<Part>)
      requires reply == ReplyOf(before, reply.stopReason)
      modifies this
      ensures reply == ReplyOf(before + PartsOf(candidates), FinishOf(old(reply).stopReason, candidates))
      ensures shown == old(shown) + TextOf(PartsOf(candidates), false)
    {
      hide TextOf;
      assert before + [] == before;
      TextOfNone();
      for i := 0 to |candidates|
        invariant reply == ReplyOf(before + PartsOf(candidates[..i]), FinishOf(old(reply).stopReason, candidates[..i]))
        invariant shown == old(shown) + TextOf(PartsOf(candidates[..i]), false)
      {
        var c := candidates[i];
        ghost var done := PartsOf(candidates[..i]);
        assert candidates[..i + 1][..i] == candidates[..i];
        assert done + [] == done && c.parts[..0] == [];
        for j := 0 to |c.parts|
          invariant reply == ReplyOf(before + (done + c.parts[..j]), FinishOf(old(reply).stopReason, candidates[..i]))
          invariant shown == old(shown) + TextOf(done + c.parts[..j], false)
        {
          var part := c.parts[j];
          TextOfMore(before + (done + c.parts[..j]), part);
          TextOfMore(done + c.parts[..j], part);
          OneMore(before, done, c.parts, j);
          reply := reply.(rawParts := reply.rawParts + [part]);
          if part.text.None? || part.text.value == "" { continue; }
          if part.thought == Some(true) {
            reply := reply.(thoughts := reply.thoughts + part.text.value);
          } else {
            reply := reply.(text := reply.text + part.text.value);
            shown := shown + part.text.value;
          }
        }
        assert c.parts[..|c.parts|] == c.parts;
        if c.finish.Some? { reply := reply.(stopReason := c.finish); }
      }
      assert candidates[..|candidates|] == candidates;
    }
  }

  lemma OneMore<T>(before: seq<T>, done: seq<T>, parts: seq<T>, j: nat)
    requires j < |parts|
    ensures done + parts[..j] + [parts[j]] == done + parts[..j + 1]
    ensures before + (done + parts[..j]) + [parts[j]] == before + (done + parts[..j + 1])
  {
  }

  lemma TextOfNone()
    ensures TextOf([], true) == "" == TextOf([], false)
  {
  }

  lemma TextOfMore(parts: seq<Part>, part: Part)
    ensures TextOf(parts + [part], false) == 
      TextOf(parts, false) + if part.text.None? || part.thought == Some(true) then "" else part.text.value
    ensures TextOf(parts + [part], true) ==
      TextOf(parts, true) + if part.text.Some? && part.thought == Some(true) then part.text.value else ""
  {
    assert (parts + [part])[..|parts|] == parts;
  }

  // ---------------------------------------------------------------- continuation

  datatype Turn = Turn(role: string, parts: Option<seq<Part>>)

  /** A request body: its contents, when they are a list, and everything else. */
  datatype Body = Body(contents: Option<seq<Turn>>, rest: string)

  predicate FromModel(t: Turn) { t.role == "model" || t.role == "assistant" }

  /** `_continuation_body`. */
  function Continuation(original: Body, reply: Reply): Body {
    var contents := if original.contents.Some? then original.contents.value else [];
    var merged := Merge(reply.rawParts);
    var parts := if merged == [] && reply.text != "" then [Part(Some(reply.text), None, None, None, map[])] else merged;
    var n := |contents|;
    original.(contents := Some(
      if n > 0 && FromModel(contents[n - 1]) then
        var existing := if contents[n - 1].parts.Some? then contents[n - 1].parts.value else [];
        contents[n - 1 := contents[n - 1].(parts := Some(Merge(existing + parts)))]
      else contents + [Turn("model", Some(parts))]))
  }

  function TurnsOf(body: Body): seq<Turn> { if body.contents.Some? then body.contents.value else [] }

  /** A body whose last turn is not the model's is sent next with all its turns
      untouched and one more of the model, which carries the parts of the reply;
      in one whose last turn is the model's, the parts of the reply, merged, are
      put after those it has.  Nothing else changes. */
  lemma ContinuationAddsOneTurn(original: Body, parts: seq<Part>, stop: Option<string>)
    ensures var b, was := Continuation(original, ReplyOf(parts, stop)), TurnsOf(original);
      var n, now := |was|, TurnsOf(b);
      && b.rest == original.rest && b.contents.Some?
      && (n == 0 || (was[n - 1].role != "model" && was[n - 1].role != "assistant") ==>
            now == was + [Turn("model", Some(Merge(parts)))])
      && (n > 0 && (was[n - 1].role == "model" || was[n - 1].role == "assistant") ==>
            && |now| == n && now[..n - 1] == was[..n - 1] && now[n - 1].role == was[n - 1].role
            && now[n - 1].parts ==
                 Some(Merge((if was[n - 1].parts.Some? then was[n - 1].parts.value else []) + parts)))
  {
    hide TextOf, AddAll;
    var was := TurnsOf(original);
    NothingMerged(parts);
    if was != [] && was[|was| - 1].parts.Some? {
      MergeAfter(was[|was| - 1].parts.value, parts);
    } else {
      MergeAfter([], parts);
    }
  }

  lemma MergeAfter(own: seq<Part>, parts: seq<Part>)
    ensures Merge(own + Merge(parts)) == Merge(own + parts)
  {
    hide AddAll;
    AddAllApp([], own, Merge(parts));
    AddAllApp([], own, parts);
    AddAllMerged(Merge(own), parts);
  }

  /** That turn says what the model had said before and what the reply says, once and in order. */
  lemma {:induction false} ContinuedTurnSaysTheReply(own: seq<Part>, parts: seq<Part>, t: bool)
    ensures TextOf(Merge(own + parts), t) == TextOf(own, t) + TextOf(parts, t)
    ensures Signed(Merge(own + parts)) == Signed(own) + Signed(parts)
  {
    hide TextOf, Signed, Merge;
    MergeKeeps(own + parts, t);
    TextOfApp(own, parts, t);
    SignedApp(own, parts);
  }

  lemma NothingMerged(parts: seq<Part>)
    ensures Merge(parts) == [] ==> parts == [] && TextOf(parts, false) == ""
  {
  }

  lemma {:induction false} TextOfApp(a: seq<Part>, b: seq<Part>, t: bool)
    ensures TextOf(a + b, t) == TextOf(a, t) + TextOf(b, t)
  {
    if b == [] {
      assert a + b == a;
    } else {
      assert (a + b)[..|a + b| - 1] == a + b[..|b| - 1];
      TextOfApp(a, b[..|b| - 1], t);
    }
  }

  lemma {:induction false} SignedApp(a: seq<Part>, b: seq<Part>)
    ensures Signed(a + b) == Signed(a) + Signed(b)
  {
    if b == [] {
      assert a + b == a;
    } else {
      assert (a + b)[..|a + b| - 1] == a + b[..|b| - 1];
      SignedApp(a, b[..|b| - 1]);
    }
  }
}
