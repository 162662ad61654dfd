/** `send` of `agent/client.py`: attempts, cut-offs and failures until a reply is complete. */
module Resume {
  import opened Client
  import opened Options
  import Text

  /** What the network does with one attempt: the stream events that arrive, and
      whether it then breaks with an error, retryable or not. */
  datatype Attempt = Attempt(events: seq<Candidate>, failure: Option<bool>)

  datatype Outcome = Returned(reply: Reply) | Raised

  const NON_RETRYABLE_FINISH_REASONS := {"SAFETY", "RECITATION", "OTHER"}

  predicate Blank(text: string) { forall c | c in text :: Text.IsSpace(c) }

  predicate HasContent(r: Reply) { r.text != "" || r.rawParts != [] }

  /** A reply is only kept from the first attempt on that ends without an error;
      after that, even the parts of attempts that break are. */
  ghost function Kept(attempts: seq<Attempt>): (r: Option<Reply>)
    ensures r.Some? ==> r.value == ReplyOf(r.value.rawParts, r.value.stopReason)
  {
    if attempts == [] then None
    else
      var a, was := attempts[|attempts| - 1], Kept(attempts[..|attempts| - 1]);
      if was.None? && a.failure.Some? then None
      else
        var r := if was.None? then NO_REPLY else was.value;
        Some(ReplyOf(r.rawParts + PartsOf(a.events), FinishOf(r.stopReason, a.events)))
  }

  /** Everything handed to `on_event` as text. */
  ghost function Shown(attempts: seq<Attempt>): string {
    if attempts == [] then ""
    else Shown(attempts[..|attempts| - 1]) + TextOf(PartsOf(attempts[|attempts| - 1].events), false)
  }

  /** The part of it that came from attempts whose parts are dropped. */
  ghost function Dropped(attempts: seq<Attempt>): string {
    if attempts == [] then ""
    else
      var before := attempts[..|attempts| - 1];
      Dropped(before) + if Kept(attempts).None? then TextOf(PartsOf(attempts[|attempts| - 1].events), false) else ""
  }

  /** The text shown is the text of the reply after whatever was dropped before
      it: nothing is repeated and nothing is lost once a reply is kept. */
  lemma {:induction false} ShownIsDroppedThenReply(attempts: seq<Attempt>)
    ensures Shown(attempts) == Dropped(attempts) + if Kept(attempts).Some? then Kept(attempts).value.text else ""
  {
    hide TextOf, PartsOf, Kept, FinishOf;
    KeptNone();
    if attempts != [] {
      var n := |attempts| - 1;
      assert attempts[..n + 1] == attempts;
      ShownIsDroppedThenReply(attempts[..n]);
      KeptMore(attempts, n);
      var was, more := Kept(attempts[..n]), TextOf(PartsOf(attempts[n].events), false);
      if Kept(attempts).Some? {
        var parts := if was.Some? then was.value.rawParts else [];
        TextOfNone();
        TextOfApp(parts, PartsOf(attempts[n].events), false);
        assert (Dropped(attempts[..n]) + TextOf(parts, false)) + more ==
          Dropped(attempts[..n]) + (TextOf(parts, false) + more);
      }
    }
  }

  /** A reply is kept once an attempt has ended without an error. */
  lemma {:induction false} KeptUnlessAllFail(attempts: seq<Attempt>)
    ensures Kept(attempts).None? <==> forall a | a in attempts :: a.failure.Some?
  {
    if attempts != [] {
      var n := |attempts| - 1;
      KeptUnlessAllFail(attempts[..n]);
      assert attempts == attempts[..n] + [attempts[n]];
    }
  }

  /** Attempt k and all before it break. */
  predicate BreaksSoFar(attempts: seq<Attempt>, k: nat)
    requires k < |attempts|
  {
    forall j | 0 <= j <= k :: attempts[j].failure.Some?
  }

  /** The attempts that break before any has ended without an error show no text. */
  ghost predicate SilentFailures(attempts: seq<Attempt>) {
    forall k | 0 <= k < |attempts| && BreaksSoFar(attempts, k) :: TextOf(PartsOf(attempts[k].events), false) == ""
  }

  lemma {:induction false} DroppedNothingIff(attempts: seq<Attempt>)
    ensures Dropped(attempts) == "" <==> SilentFailures(attempts)
  {
    hide TextOf, PartsOf;
    if attempts != [] {
      var n := |attempts| - 1;
      var before := attempts[..n];
      DroppedNothingIff(before);
      KeptUnlessAllFail(attempts);
      forall k | 0 <= k < n ensures BreaksSoFar(before, k) == BreaksSoFar(attempts, k) {
        assert forall j | 0 <= j <= k :: before[j] == attempts[j];
      }
      assert BreaksSoFar(attempts, n) <==> Kept(attempts).None?;
    }
  }

  /** So a returned reply says everything that was shown exactly when the attempts
      that broke before any ended without an error showed no text. */
  lemma ReplyIsWhatWasShownIff(attempts: seq<Attempt>)
    requires exists a :: a in attempts && a.failure.None?
    ensures Kept(attempts).Some? && (Kept(attempts).value.text == Shown(attempts) <==> SilentFailures(attempts))
  {
    hide SilentFailures;
    KeptUnlessAllFail(attempts);
    ShownIsDroppedThenReply(attempts);
    DroppedNothingIff(attempts);
    if Kept(attempts).value.text == Shown(attempts) { assert |Dropped(attempts)| == 0; }
  }

  function Says(text: string): seq<Part> { [Part(Some(text), None, None, None, map[])] }

  /** An attempt shows "a" and breaks, the next says "b": `send` returns "b", and "ab" was shown. */
  lemma ShownButNotInReply(attempts: seq<Attempt>)
    requires attempts ==
      [Attempt([Candidate(Says("a"), None)], Some(true)), Attempt([Candidate(Says("b"), Some("STOP"))], None)]
    ensures var r := Reply("b", "", Says("b"), Some("STOP"));
      Kept(attempts) == Some(r) && Conclusion(attempts, 2) == Returned(r)
    ensures Judge(attempts[..1], false) == Again && Shown(attempts) == "ab"
  {
    hide Kept, Shown, TextOf, PartsOf, FinishOf, Judge;
    SaysText("a", None);
    SaysText("b", Some("STOP"));
    KeptNone();
    assert attempts[..0] == [] && attempts[..2] == attempts && [] + Says("b") == Says("b");
    KeptMore(attempts, 0);
    KeptMore(attempts, 1);
    Judged(attempts, 0);
    Judged(attempts, 1);
    assert 'b' in "b" && !Text.IsSpace('b');
  }

  /** What a first attempt comes to: an error is final when it is not retryable or
      the attempt is the last; without a finish reason the reply is continued, and
      with one it is returned when it says something or was stopped for good. */
  lemma FirstVerdict(parts: seq<Part>, finish: Option<string>, failure: Option<bool>, isLast: bool)
    ensures var text := TextOf(parts, false);
      Judge([Attempt([Candidate(parts, finish)], failure)], isLast) ==
        if failure == Some(false) then Fail
        else if failure == Some(true) then (if isLast then Fail else Again)
        else if finish == None then Again
        else if finish.value == "SAFETY" || finish.value == "RECITATION" || finish.value == "OTHER" then Accept
        else if exists c :: c in text && !Text.IsSpace(c) then Accept
        else if isLast then Fail
        else Again
  {
    hide TextOf, PartsOf, Judge, Kept;
    var events, a := [Candidate(parts, finish)], [Attempt([Candidate(parts, finish)], failure)];
    OneCandidate(parts, finish);
    KeptNone();
    KeptMore(a, 0);
    assert a[..0] == [] && a[..1] == a && [] + parts == parts;
    assert Kept(a) == if failure.Some? then None else Some(ReplyOf(parts, finish));
    if isLast {
      Judged(a, 0);
    } else {
      assert (a + a)[..1] == a && (a + a)[..0] == [];
      Judged(a + a, 0);
    }
    if failure.Some? {
      assert Judge(a, isLast) == if failure.value && !isLast then Again else Fail;
    } else if finish.Some? {
      assert Kept(a).value.text == TextOf(parts, false) && Kept(a).value.stopReason == finish;
      assert Judge(a, isLast) ==
        if finish.value in NON_RETRYABLE_FINISH_REASONS || !Blank(TextOf(parts, false)) then Accept
        else if isLast then Fail
        else Again;
    } else {
      assert Judge(a, isLast) == Again;
    }
  }

  /** What is sent after a first attempt: the same again when it broke, or when it
      finished without saying anything; otherwise its continuation. */
  lemma SecondBody(body: Body, parts: seq<Part>, finish: Option<string>, failure: Option<bool>)
    ensures NextBody(body, [Attempt([Candidate(parts, finish)], failure)]) ==
      if failure.Some? || (parts == [] && finish.Some?) then body else Continuation(body, ReplyOf(parts, finish))
  {
    hide TextOf, PartsOf, Kept, Continuation, WasCutOff, Judge, FinishOf;
    var a := [Attempt([Candidate(parts, finish)], failure)];
    OneCandidate(parts, finish);
    KeptNone();
    KeptMore(a, 0);
    Judged(a, 0);
    TextOfNone();
    assert a[..0] == [] && a[..1] == a && [] + parts == parts;
    if failure.None? && parts == [] { ContinuationOfNothing(body, ReplyOf(parts, finish)); }
  }

  /** When no attempt is left, a reply without a finish reason is returned if it says anything. */
  lemma OnlyAttempt(parts: seq<Part>, failure: Option<bool>)
    ensures Conclusion([Attempt([Candidate(parts, None)], failure)], 1) ==
      if failure.Some? || parts == [] then Raised else Returned(ReplyOf(parts, None))
  {
    hide TextOf, PartsOf, Kept, Judge, FinishOf;
    var a := [Attempt([Candidate(parts, None)], failure)];
    OneCandidate(parts, None);
    KeptNone();
    KeptMore(a, 0);
    TextOfNone();
    FirstVerdict(parts, None, failure, true);
    assert a[..0] == [] && a[..1] == a && [] + parts == parts;
  }

  lemma OneCandidate(parts: seq<Part>, finish: Option<string>)
    ensures PartsOf([Candidate(parts, finish)]) == parts && FinishOf(None, [Candidate(parts, finish)]) == finish
  {
    assert [Candidate(parts, finish)][..0] == [] && [] + parts == parts;
  }

  lemma SaysText(text: string, finish: Option<string>)
    ensures var events := [Candidate(Says(text), finish)];
      && PartsOf(events) == Says(text) && TextOf(Says(text), false) == text && TextOf(Says(text), true) == ""
      && FinishOf(None, events) == finish
  {
    var events := [Candidate(Says(text), finish)];
    assert events[..0] == [] && Says(text)[..0] == [];
  }

  /** What `send` does after an attempt: return the reply, raise an error, or try again. */
  datatype Verdict = Accept | Fail | Again

  /** The attempts so far have mentioned a finish reason; an empty one counts only in the attempt that mentions it. */
  ghost predicate Finished(attempts: seq<Attempt>)
    requires attempts != []
  {
    var n := |attempts| - 1;
    var was := Kept(attempts[..n]);
    FinishOf(None, attempts[n].events).Some?
      || (was.Some? && was.value.stopReason.Some? && was.value.stopReason.value != "")
  }

  /** An attempt settles the matter when it breaks for good, or ends with a finish
      reason and either some text or a reason not to try again; the last attempt
      has to. */
  ghost function Judge(attempts: seq<Attempt>, isLast: bool): Verdict
    requires attempts != []
  {
    var a, r := attempts[|attempts| - 1], Kept(attempts);
    if a.failure.Some? then (if !a.failure.value || isLast then Fail else Again)
    else if !Finished(attempts) || r.None? || r.value.stopReason.None? then Again
    else if r.value.stopReason.value in NON_RETRYABLE_FINISH_REASONS || !Blank(r.value.text) then Accept
    else if isLast then Fail
    else Again
  }

  /** The last attempt ended without an error and without a finish reason. */
  ghost predicate CutOff(attempts: seq<Attempt>)
    requires attempts != []
  {
    var r := Kept(attempts);
    attempts[|attempts| - 1].failure.None? && r.Some? && (!Finished(attempts) || r.value.stopReason.None?)
  }

  /** Some attempt did. */
  ghost predicate WasCutOff(attempts: seq<Attempt>) {
    attempts != [] && (CutOff(attempts) || WasCutOff(attempts[..|attempts| - 1]))
  }

  /** What is sent after the given attempts: the original until a reply is kept, then
      its continuation; while nothing has been said yet, one with an empty turn from the
      first cut-off on. */
  ghost function NextBody(body: Body, attempts: seq<Attempt>): Body {
    var r := Kept(attempts);
    if r.None? then body
    else if HasContent(r.value) then Continuation(body, r.value)
    else if WasCutOff(attempts) then Continuation(body, NO_REPLY)
    else body
  }

  /** What a call has to come to that made n of the attempts at its disposal. */
  ghost function Conclusion(attempts: seq<Attempt>, n: nat): Outcome
    requires n <= |attempts|
  {
    var r := Kept(attempts[..n]);
    if n == 0 || Judge(attempts[..n], n == |attempts|) == Fail || r.None? then Raised
    else if Judge(attempts[..n], n == |attempts|) == Accept || HasContent(r.value) then Returned(r.value)
    else Raised
  }

  /** One attempt: `_once` and `_read` with the reply so far. */
  method Once(a: Attempt, reply: Option<Reply>) returns (r: Reply, hasFinish: bool, ghost shown: string)
    requires reply.Some? ==> reply.value == ReplyOf(reply.value.rawParts, reply.value.stopReason)
    ensures var before := if reply.Some? then reply.value else NO_REPLY;
      && r == ReplyOf(before.rawParts + PartsOf(a.events), FinishOf(before.stopReason, a.events))
      && (hasFinish <==> (before.stopReason.Some? && before.stopReason.value != "") || FinishOf(None, a.events).Some?)
    ensures shown == TextOf(PartsOf(a.events), false)
  {
    hide TextOf, PartsOf;
    var before := if reply.Some? then reply.value else NO_REPLY;
    TextOfNone();
    var builder := new Builder(before);
    builder.Feed(a.events, before.rawParts);
    r, shown := builder.reply, builder.shown;
    hasFinish := (before.stopReason.Some? && before.stopReason.value != "")
      || exists c | c in a.events :: c.finish.Some?;
    FinishMentioned(a.events);
  }

  lemma {:induction false} FinishMentioned(events: seq<Candidate>)
    ensures FinishOf(None, events).Some? <==> exists c | c in events :: c.finish.Some?
  {
    if events != [] {
      var n := |events| - 1;
      FinishMentioned(events[..n]);
      if events[n].finish.Some? { assert events[n] in events; }
      if c :| c in events && c.finish.Some? {
        if c in events[..n] {} else { assert c == events[n]; }
      }
    }
  }

  /** `send`. */
  method Send(body: Body, attempts: seq<Attempt>) returns (outcome: Outcome, sent: seq<Body>, ghost shown: string)
    ensures |sent| <= |attempts| && forall k | 0 <= k < |sent| :: sent[k] == NextBody(body, attempts[..k])
    ensures forall k | 0 < k < |sent| :: Judge(attempts[..k], false) == Again
    ensures |sent| < |attempts| ==> sent != [] && Judge(attempts[..|sent|], false) != Again
    ensures outcome == Conclusion(attempts, |sent|)
    ensures shown == Shown(attempts[..|sent|])
  {
    hide Shown, Kept, TextOf, PartsOf, Continuation, FinishOf, Judge, WasCutOff;
    KeptNone();
    sent, shown := [], "";
    var current := body;
    var reply: Option<Reply> := None;
    for k := 0 to |attempts|
      invariant |sent| == k && forall i | 0 <= i < k :: sent[i] == NextBody(body, attempts[..i])
      invariant reply == Kept(attempts[..k]) && current == NextBody(body, attempts[..k])
      invariant shown == Shown(attempts[..k])
      invariant forall i | 0 < i <= k :: Judge(attempts[..i], i == |attempts|) == Again
    {
      var a := attempts[k];
      sent := sent + [current];
      KeptMore(attempts, k);
      Judged(attempts, k);
      ghost var more: string;
      var r, hasFinish;
      r, hasFinish, more := Once(a, reply);
      shown := shown + more;
      if a.failure.None? {
        reply := Some(r);
        if hasFinish && r.stopReason.Some? {
          if r.stopReason.value in NON_RETRYABLE_FINISH_REASONS { return Returned(r), sent, shown; }
          if !Blank(r.text) { return Returned(r), sent, shown; }
          if k + 1 >= |attempts| { return Raised, sent, shown; }
          if HasContent(r) { current := Continuation(body, r); }
        } else {
          current := Continuation(body, r);
          ContinuationOfNothing(body, r);
        }
      } else {
        if reply.Some? { reply := Some(r); }
        if !a.failure.value || k + 1 >= |attempts| { return Raised, sent, shown; }
        if reply.Some? && HasContent(r) { current := Continuation(body, r); }
      }
    }
    assert attempts[..|attempts|] == attempts;
    if reply.Some? && HasContent(reply.value) { return Returned(reply.value), sent, shown; }
    return Raised, sent, shown;
  }

  lemma KeptNone()
    ensures Kept([]) == None && Shown([]) == "" && !WasCutOff([])
  {
  }

  lemma KeptMore(attempts: seq<Attempt>, k: nat)
    requires k < |attempts|
    ensures var was, a, now := Kept(attempts[..k]), attempts[k], Kept(attempts[..k + 1]);
      var before := if was.None? then NO_REPLY else was.value;
      && now == (if was.None? && a.failure.Some? then None
                 else Some(ReplyOf(before.rawParts + PartsOf(a.events), FinishOf(before.stopReason, a.events))))
      && (was.Some? && HasContent(was.value) ==> HasContent(now.value))
    ensures Shown(attempts[..k + 1]) == Shown(attempts[..k]) + TextOf(PartsOf(attempts[k].events), false)
  {
    assert attempts[..k + 1][..k] == attempts[..k];
    TextOfNone();
  }

  lemma {:induction false} CutOffIsKept(attempts: seq<Attempt>)
    ensures WasCutOff(attempts) ==> Kept(attempts).Some?
  {
    if attempts != [] { CutOffIsKept(attempts[..|attempts| - 1]); }
  }

  /** The verdict on attempt k, and whether it is a cut-off, in terms of the reply before it. */
  lemma Judged(attempts: seq<Attempt>, k: nat)
    requires k < |attempts|
    ensures var was, a, now := Kept(attempts[..k]), attempts[k], Kept(attempts[..k + 1]);
      var before := if was.None? then NO_REPLY else was.value;
      var finished := FinishOf(None, a.events).Some? || (before.stopReason.Some? && before.stopReason.value != "");
      Judge(attempts[..k + 1], k + 1 == |attempts|) ==
        if a.failure.Some? then (if !a.failure.value || k + 1 == |attempts| then Fail else Again)
        else if !finished || now.None? || now.value.stopReason.None? then Again
        else if now.value.stopReason.value in NON_RETRYABLE_FINISH_REASONS || !Blank(now.value.text) then Accept
        else if k + 1 == |attempts| then Fail
        else Again
    ensures var was, a, now := Kept(attempts[..k]), attempts[k], Kept(attempts[..k + 1]);
      var before := if was.None? then NO_REPLY else was.value;
      var finished := FinishOf(None, a.events).Some? || (before.stopReason.Some? && before.stopReason.value != "");
      && (WasCutOff(attempts[..k + 1]) <==>
            WasCutOff(attempts[..k]) || (a.failure.None? && now.Some? && (!finished || now.value.stopReason.None?)))
      && (WasCutOff(attempts[..k]) ==> was.Some?)
  {
    CutOffIsKept(attempts[..k]);
    hide Kept, FinishOf, Blank;
    assert attempts[..k + 1][..k] == attempts[..k];
  }

  lemma ContinuationOfNothing(body: Body, r: Reply)
    ensures !HasContent(r) ==> Continuation(body, r) == Continuation(body, NO_REPLY)
  {
  }
}
