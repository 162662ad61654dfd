/** The stored conversation: `agent/segments.py` and the budget of
    `database/repositories/segment.py`.

    Messages are equal when their sorted JSON is.  A segment is normalized when it
    is saved, and de-duplicated again together with the others when it is loaded. */
module History {
  datatype Message = Message(role: string, content: string)

  const ASSISTANT := "assistant"

  function Last(ms: seq<Message>): seq<Message> { if ms == [] then [] else [ms[|ms| - 1]] }

  /** A message equal to the one kept last is skipped. */
  function Push(kept: seq<Message>, m: Message): seq<Message> {
    if Last(kept) == [m] then kept else kept + [m]
  }

  function PushAll(kept: seq<Message>, ms: seq<Message>): seq<Message> {
    if ms == [] then kept else Push(PushAll(kept, ms[..|ms| - 1]), ms[|ms| - 1])
  }

  function Dedupe(ms: seq<Message>): seq<Message> { PushAll([], ms) }

  /** `tidy`. */
  function Tidy(ms: seq<Message>): seq<Message> {
    if ms != [] && ms[|ms| - 1].role != ASSISTANT then Tidy(ms[..|ms| - 1]) else ms
  }

  function Normalize(segment: seq<Message>): seq<Message> { Dedupe(Tidy(segment)) }

  /** The loop that `normalize` and `load` share: `prev` is the key kept last. */
  method DedupeInto(kept: seq<Message>, prev: seq<Message>, more: seq<Message>)
    returns (deduped: seq<Message>, prev': seq<Message>)
    requires prev == Last(kept)
    ensures deduped == PushAll(kept, more) && prev' == Last(deduped)
  {
    deduped, prev' := kept, prev;
    for i := 0 to |more|
      invariant deduped == PushAll(kept, more[..i]) && prev' == Last(deduped)
    {
      assert more[..i + 1][..i] == more[..i];
      var m := more[i];
      if [m] == prev' { continue; }
      prev' := [m];
      deduped := deduped + [m];
    }
    assert more[..|more|] == more;
  }

  /** `normalize`. */
  method NormalizeSegment(segment: seq<Message>) returns (deduped: seq<Message>)
    ensures deduped == Normalize(segment)
  {
    var kept := segment;
    while kept != [] && kept[|kept| - 1].role != ASSISTANT
      invariant Tidy(kept) == Tidy(segment)
    {
      kept := kept[..|kept| - 1];
    }
    if forall i | 0 <= i < |kept| :: kept[i].role != ASSISTANT { return []; }
    var prev;
    deduped, prev := DedupeInto([], [], kept);
  }

  /** The fold of `load` over the segments. */
  method Load(bodies: seq<seq<Message>>) returns (messages: seq<Message>)
    ensures messages == Dedupe(Flatten(bodies))
  {
    messages := [];
    var prev: seq<Message> := [];
    for i := 0 to |bodies|
      invariant messages == Dedupe(Flatten(bodies[..i])) && prev == Last(messages)
    {
      assert bodies[..i + 1][..i] == bodies[..i];
      PushAllApp([], Flatten(bodies[..i]), bodies[i]);
      messages, prev := DedupeInto(messages, prev, bodies[i]);
    }
    assert bodies[..|bodies|] == bodies;
  }

  function Flatten(bodies: seq<seq<Message>>): seq<Message> {
    if bodies == [] then [] else Flatten(bodies[..|bodies| - 1]) + bodies[|bodies| - 1]
  }

  lemma {:induction false} PushAllApp(kept: seq<Message>, a: seq<Message>, b: seq<Message>)
    ensures PushAll(kept, a + b) == PushAll(PushAll(kept, a), b)
  {
    if b == [] {
      assert a + b == a;
    } else {
      assert (a + b)[..|a + b| - 1] == a + b[..|b| - 1];
      PushAllApp(kept, a, b[..|b| - 1]);
    }
  }

  lemma {:induction false} PushAllKeepsLast(kept: seq<Message>, ms: seq<Message>)
    ensures Last(PushAll(kept, ms)) == if ms == [] then Last(kept) else Last(ms)
  {
    if ms != [] { PushAllKeepsLast(kept, ms[..|ms| - 1]); }
  }

  /** After anything kept before, a list and its deduplication make no difference. */
  lemma {:induction false} PushAllDeduped(kept: seq<Message>, ms: seq<Message>)
    ensures PushAll(kept, Dedupe(ms)) == PushAll(kept, ms)
  {
    if ms != [] {
      var n := |ms| - 1;
      var d := Dedupe(ms[..n]);
      PushAllDeduped(kept, ms[..n]);
      PushAllKeepsLast([], ms[..n]);
      PushAllKeepsLast(kept, ms[..n]);
      if Last(d) != [ms[n]] { assert (d + [ms[n]])[..|d|] == d; }
    }
  }

  /** Skipping repetitions piecewise, as segments are saved, and then over the
      whole, as they are loaded, is skipping them over the whole. */
  lemma DedupeOfPieces(a: seq<Message>, b: seq<Message>)
    ensures Dedupe(Dedupe(a) + Dedupe(b)) == Dedupe(a + b)
  {
    PushAllApp([], Dedupe(a), Dedupe(b));
    PushAllApp([], a, b);
    PushAllDeduped([], a);
    PushAllDeduped(Dedupe(a), b);
  }

  /** No message is followed by one equal to it. */
  ghost predicate NoRepeats(ms: seq<Message>) { forall i | 0 < i < |ms| :: ms[i - 1] != ms[i] }

  lemma {:induction false} DedupeHasNoRepeats(ms: seq<Message>)
    ensures NoRepeats(Dedupe(ms))
  {
    if ms != [] { DedupeHasNoRepeats(ms[..|ms| - 1]); }
  }

  lemma {:induction false} NothingToSkip(ms: seq<Message>)
    requires NoRepeats(ms)
    ensures Dedupe(ms) == ms
  {
    if ms != [] {
      var n := |ms| - 1;
      NothingToSkip(ms[..n]);
      assert ms == ms[..n] + [ms[n]];
      if n > 0 { assert ms[n - 1] != ms[n]; }
    }
  }

  lemma RepetitionIsSkipped(a: seq<Message>, m: Message, b: seq<Message>)
    ensures Dedupe(a + [m, m] + b) == Dedupe(a + [m] + b)
  {
    PushAllApp([], a + [m, m], b);
    PushAllApp([], a + [m], b);
    PushAllApp([], a + [m], [m]);
    assert a + [m] + [m] == a + [m, m];
    var kept := Dedupe(a + [m]);
    PushAllKeepsLast([], a + [m]);
    assert [m][..0] == [];
  }

  /** De-duplication leaves a list without repetitions as it is, takes a repeated
      message for one, and ends without repetitions. */
  lemma DedupeIs(a: seq<Message>, m: Message, b: seq<Message>)
    ensures NoRepeats(Dedupe(a)) && (NoRepeats(a) ==> Dedupe(a) == a)
    ensures Dedupe(a + [m, m] + b) == Dedupe(a + [m] + b)
  {
    DedupeHasNoRepeats(a);
    if NoRepeats(a) { NothingToSkip(a); }
    RepetitionIsSkipped(a, m, b);
  }

  /** Tidying cuts the messages after the last one of the assistant. */
  lemma {:induction false} TidyEnds(ms: seq<Message>)
    ensures Tidy(ms) <= ms && forall m | m in ms[|Tidy(ms)|..] :: m.role != ASSISTANT
    ensures Tidy(ms) != [] ==> Tidy(ms)[|Tidy(ms)| - 1].role == ASSISTANT
  {
    if ms != [] && ms[|ms| - 1].role != ASSISTANT {
      var n := |ms| - 1;
      TidyEnds(ms[..n]);
      assert ms[|Tidy(ms)|..] == ms[..n][|Tidy(ms)|..] + [ms[n]];
    }
  }

  /** Normalizing twice changes nothing more; what is left is empty, exactly when
      the assistant said nothing, or ends with the assistant. */
  lemma NormalizeLaws(segment: seq<Message>)
    ensures Normalize(Normalize(segment)) == Normalize(segment)
    ensures Normalize(segment) != [] ==> Normalize(segment)[|Normalize(segment)| - 1].role == "assistant"
    ensures Normalize(segment) == [] <==> forall m | m in segment :: m.role != "assistant"
  {
    hide PushAll;
    var t := Tidy(segment);
    TidyEnds(segment);
    PushAllKeepsLast([], t);
    PushAllDeduped([], t);
    assert segment == t + segment[|t|..];
    if t != [] { assert t[|t| - 1] in segment; }
    assert Tidy(Dedupe(t)) == Dedupe(t);
  }

  /** What is normalized is the segment up to its last message of the assistant. */
  lemma {:induction false} NormalizedIs(segment: seq<Message>, k: nat)
    requires 0 < k <= |segment| && segment[k - 1].role == "assistant"
    requires forall j | k <= j < |segment| :: segment[j].role != "assistant"
    ensures Normalize(segment) == Dedupe(segment[..k])
  {
    hide Dedupe;
    var n := |segment|;
    if k < n {
      NormalizedIs(segment[..n - 1], k);
      assert segment[..n - 1][..k] == segment[..k];
    } else {
      assert segment[..k] == segment;
    }
  }

  // ---------------------------------------------------------------- the budget

  function Total(sizes: seq<nat>): nat { if sizes == [] then 0 else sizes[0] + Total(sizes[1..]) }

  /** The loop of `lineage` over the sizes of the segments, oldest first: how many
      of the oldest are dropped. It keeps the longest run of newest segments within
      the budget, but always the newest one. */
  method Lineage(sizes: seq<nat>, budget: nat) returns (dropped: nat, total: nat)
    ensures dropped <= |sizes| && total == Total(sizes[dropped..])
    ensures sizes != [] ==> dropped < |sizes|
    ensures total <= budget || dropped == |sizes| - 1
    ensures forall k | 0 <= k < dropped :: Total(sizes[k..]) > budget
  {
    dropped, total := |sizes|, 0;
    while dropped > 0
      invariant dropped <= |sizes| && total == Total(sizes[dropped..])
      invariant total <= budget || dropped == |sizes| - 1
    {
      assert sizes[dropped - 1..] == [sizes[dropped - 1]] + sizes[dropped..];
      if dropped < |sizes| && total + sizes[dropped - 1] > budget { break; }
      dropped := dropped - 1;
      total := total + sizes[dropped];
    }
    forall k | 0 <= k < dropped ensures Total(sizes[k..]) > budget { TotalGrows(sizes, k, dropped - 1); }
  }

  lemma {:induction false} TotalGrows(sizes: seq<nat>, k: nat, m: nat)
    requires k <= m <= |sizes|
    ensures Total(sizes[k..]) >= Total(sizes[m..])
    decreases m - k
  {
    if k < m {
      TotalGrows(sizes, k + 1, m);
      assert sizes[k..][1..] == sizes[k + 1..];
    }
  }
}
