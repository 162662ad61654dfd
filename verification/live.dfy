/** The live stream of a turn, `agent/live.py`. */
module Live {
  // Frames wait in a buffer, texts of one block are joined, and batches are
  // numbered and written until a ceiling of bytes is reached.

  /** What `append` joins by. */
  datatype Key = Key(kind: string, step: int, index: int)

  /** A frame of `append`, any other frame of `emit`, or the note written at the ceiling. */
  datatype Frame = Block(key: Key, text: string, cut: nat) | Plain(kind: string, payload: string) | Truncated

  const TURN_END := "turn.end"

  predicate IsEnd(f: Frame) { (f.Plain? && f.kind == TURN_END) || (f.Block? && f.key.kind == TURN_END) }

  /** The settings, and the length of an encoded body. */
  datatype Limits = Limits(maxText: nat, queue: nat, batch: nat, maxBytes: nat, size: (nat, Frame) -> nat)

  /** The stream, with everything encoded so far in `log`; `refused` says that a
      frame has been turned away because the buffer was full. */
  datatype State = State(buffer: seq<Frame>, log: seq<Frame>, bytes: nat, full: bool, refused: bool)

  const EMPTY := State([], [], 0, false, false)

  /** `clip`. */
  function Clip(text: string, limit: nat): (r: (string, nat))
    ensures r.0 <= text && |r.0| + r.1 == |text| && |r.0| <= limit && (r.1 > 0 ==> |r.0| == limit)
  {
    if |text| <= limit then (text, 0) else (text[..limit], |text| - limit)
  }

  function Push(c: Limits, s: State, f: Frame): State {
    if s.full && !IsEnd(f) then s
    else if |s.buffer| >= c.queue then s.(refused := true)
    else s.(buffer := s.buffer + [f])
  }

  /** The last frame of the buffer can take the text. */
  predicate Joins(c: Limits, s: State, key: Key, text: string) {
    s.buffer != [] &&
    var last := s.buffer[|s.buffer| - 1];
    last.Block? && last.key == key && |last.text| + |text| <= c.maxText
  }

  function Append(c: Limits, s: State, key: Key, text: string): State {
    if text == "" || s.full then s
    else if Joins(c, s, key, text) then
      var n := |s.buffer| - 1;
      s.(buffer := s.buffer[n := s.buffer[n].(text := s.buffer[n].text + text)])
    else
      var (body, cut) := Clip(text, c.maxText);
      Push(c, s, Block(key, body, cut))
  }

  function Encode(c: Limits, s: State, f: Frame): State {
    s.(log := s.log + [f], bytes := s.bytes + c.size(|s.log| + 1, f))
  }

  function Ends(frames: seq<Frame>): (r: seq<Frame>)
    ensures forall f | f in r :: IsEnd(f)
  {
    if frames == [] then [] else (if IsEnd(frames[0]) then [frames[0]] else []) + Ends(frames[1..])
  }

  /** `_batch` with room for n more frames. */
  function Batch(c: Limits, s: State, n: nat): State
    decreases n
  {
    if s.buffer == [] || n == 0 then s
    else
      var t := Encode(c, s.(buffer := s.buffer[1..]), s.buffer[0]);
      if t.bytes >= c.maxBytes && !t.full then Encode(c, t.(full := true, buffer := Ends(t.buffer)), Truncated)
      else Batch(c, t, n - 1)
  }

  lemma BatchNext(c: Limits, s: State, n: nat)
    ensures s.buffer == [] || n == 0 ==> Batch(c, s, n) == s
    ensures s.buffer != [] && n > 0 ==>
      var t := Encode(c, s.(buffer := s.buffer[1..]), s.buffer[0]);
      Batch(c, s, n) ==
        if t.bytes >= c.maxBytes && !t.full then Encode(c, t.(full := true, buffer := Ends(t.buffer)), Truncated)
        else Batch(c, t, n - 1)
  {
  }

  /** An encoded body: its number and its frame. */
  datatype Body = Body(num: nat, frame: Frame)

  class Stream {
    const c: Limits
    var buffer: seq<Frame>
    var frames: nat
    var bytes: nat
    var full: bool
    ghost var log: seq<Frame>
    ghost var refused: bool

    ghost function View(): State reads this { State(buffer, log, bytes, full, refused) }

    /** The counter has numbered every body so far. */
    ghost predicate Valid() reads this { frames == |log| }

    constructor (c: Limits)
      ensures Valid() && View() == EMPTY && this.c == c
    {
      this.c := c;
      buffer, frames, bytes, full, log, refused := [], 0, 0, false, [], false;
    }

    /** `_push`. */
    method PushFrame(f: Frame)
      requires Valid()
      modifies this
      ensures Valid() && View() == Push(c, old(View()), f)
    {
      if full && !IsEnd(f) { return; }
      if |buffer| >= c.queue {
        refused := true;
        return;
      }
      buffer := buffer + [f];
    }

    /** `append`. */
    method AppendText(key: Key, text: string)
      requires Valid()
      modifies this
      ensures Valid() && View() == Append(c, old(View()), key, text)
    {
      if text == "" || full { return; }
      if buffer != [] {
        var n := |buffer| - 1;
        var last := buffer[n];
        if last.Block? && last.key == key && |last.text| + |text| <= c.maxText {
          buffer := buffer[n := last.(text := last.text + text)];
          return;
        }
      }
      var clipped := Clip(text, c.maxText);
      PushFrame(Block(key, clipped.0, clipped.1));
    }

    /** `_encode`. */
    method EncodeFrame(f: Frame) returns (body: Body)
      requires Valid()
      modifies this
      ensures Valid() && View() == Encode(c, old(View()), f) && body == Body(|log|, f)
    {
      frames := frames + 1;
      bytes := bytes + c.size(frames, f);
      log := log + [f];
      body := Body(frames, f);
    }

    /** `_batch`: the bodies written, numbered from where the last batch stopped. */
    method BatchFrames() returns (out: seq<Body>)
      requires Valid()
      modifies this
      ensures Valid() && View() == Batch(c, old(View()), c.batch)
      ensures |old(log)| + |out| == |log| && old(log) <= log
      ensures forall k | 0 <= k < |out| :: out[k] == Body(|old(log)| + k + 1, log[|old(log)| + k])
    {
      hide Ends, Batch;
      out := [];
      while buffer != [] && |out| < c.batch
        invariant Valid() && |out| <= c.batch
        invariant Batch(c, View(), c.batch - |out|) == Batch(c, old(View()), c.batch)
        invariant |old(log)| + |out| == |log| && old(log) <= log
        invariant forall k | 0 <= k < |out| :: out[k] == Body(|old(log)| + k + 1, log[|old(log)| + k])
        decreases c.batch - |out|
      {
        BatchNext(c, View(), c.batch - |out|);
        var f := buffer[0];
        buffer := buffer[1..];
        var body := EncodeFrame(f);
        out := out + [body];
        if bytes >= c.maxBytes && !full {
          full := true;
          buffer := Ends(buffer);
          body := EncodeFrame(Truncated);
          out := out + [body];
          return;
        }
      }
      BatchNext(c, View(), c.batch - |out|);
    }
  }

  // ---------------------------------------------------------------- runs

  datatype Event = Emit(frame: Frame) | Write(key: Key, text: string) | Flush

  /** `emit` is used for other kinds than `append`, and nobody else writes the ceiling's note. */
  predicate Enabled(e: Event) { e.Emit? ==> e.frame.Plain? }

  function Step(c: Limits, s: State, e: Event): State {
    match e
    case Emit(frame) => Push(c, s, frame)
    case Write(key, text) => Append(c, s, key, text)
    case Flush => Batch(c, s, c.batch)
  }

  function Run(c: Limits, events: seq<Event>): State {
    if events == [] then EMPTY else Step(c, Run(c, events[..|events| - 1]), events[|events| - 1])
  }

  /** Everything given to `append` for one block, in order. */
  function TextOf(events: seq<Event>, key: Key): string {
    if events == [] then ""
    else
      var last := events[|events| - 1];
      TextOf(events[..|events| - 1], key) + if last.Write? && last.key == key then last.text else ""
  }

  /** The frames of the block hold the text in order, except that after each
      frame exactly as many characters are missing as it counts in `cut`. */
  ghost predicate Holds(frames: seq<Frame>, key: Key, text: string) {
    if frames == [] then text == ""
    else
      var n := |frames| - 1;
      if !frames[n].Block? || frames[n].key != key then Holds(frames[..n], key, text)
      else
        var f := frames[n];
        |f.text| + f.cut <= |text|
        && text[|text| - |f.text| - f.cut..|text| - f.cut] == f.text
        && Holds(frames[..n], key, text[..|text| - |f.text| - f.cut])
  }

  ghost predicate CutsAreFull(c: Limits, frames: seq<Frame>) {
    forall f | f in frames && f.Block? && f.cut > 0 :: |f.text| == c.maxText
  }

  ghost predicate Faithful(c: Limits, s: State, events: seq<Event>) {
    && CutsAreFull(c, s.buffer)
    && (!s.full && !s.refused ==> forall key :: Holds(s.log + s.buffer, key, TextOf(events, key)))
  }

  lemma HoldsOther(frames: seq<Frame>, f: Frame, key: Key, text: string)
    requires Holds(frames, key, text) && !(f.Block? && f.key == key)
    ensures Holds(frames + [f], key, text)
  {
    assert (frames + [f])[..|frames|] == frames;
  }

  lemma HoldsMore(frames: seq<Frame>, f: Frame, text: string, more: string)
    requires f.Block? && Holds(frames, f.key, text) && f.text <= more && |f.text| + f.cut == |more|
    ensures Holds(frames + [f], f.key, text + more)
  {
    assert (frames + [f])[..|frames|] == frames;
    assert (text + more)[..|text|] == text;
  }

  lemma HoldsJoined(frames: seq<Frame>, f: Frame, text: string, more: string)
    requires f.Block? && f.cut == 0 && Holds(frames + [f], f.key, text)
    ensures Holds(frames + [f.(text := f.text + more)], f.key, text + more)
  {
    var g := f.(text := f.text + more);
    assert (frames + [f])[..|frames|] == frames && (frames + [g])[..|frames|] == frames;
    var n := |text| - |f.text|;
    assert text[n..|text|] == f.text;
    Tails(text, more, n);
  }

  lemma Tails(text: string, more: string, n: nat)
    requires n <= |text|
    ensures (text + more)[n..|text + more|] == text[n..|text|] + more
    ensures (text + more)[..n] == text[..n]
  {
  }

  lemma HoldsSwapped(frames: seq<Frame>, f: Frame, g: Frame, key: Key, text: string)
    requires Holds(frames + [f], key, text) && f.Block? && g.Block? && f.key == g.key && f.key != key
    ensures Holds(frames + [g], key, text)
  {
    assert (frames + [f])[..|frames|] == frames && (frames + [g])[..|frames|] == frames;
  }

  lemma TextOfMore(events: seq<Event>, e: Event, key: Key)
    ensures TextOf(events + [e], key) == TextOf(events, key) + if e.Write? && e.key == key then e.text else ""
  {
    assert (events + [e])[..|events|] == events;
  }

  lemma PushKeeps(c: Limits, s: State, f: Frame, events: seq<Event>, e: Event)
    requires Faithful(c, s, events) && (e == Emit(f) && f.Plain?)
    ensures Faithful(c, Push(c, s, f), events + [e])
  {
    hide Holds, TextOf;
    var t := Push(c, s, f);
    forall key | !t.full && !t.refused ensures Holds(t.log + t.buffer, key, TextOf(events + [e], key)) {
      TextOfMore(events, e, key);
      assert TextOf(events + [e], key) == TextOf(events, key);
      HoldsOther(s.log + s.buffer, f, key, TextOf(events, key));
      assert t.log + t.buffer == s.log + s.buffer + [f];
    }
  }

  lemma AppendJoins(c: Limits, s: State, key: Key, text: string, k: Key, was: string)
    requires CutsAreFull(c, s.buffer) && text != "" && !s.full && Joins(c, s, key, text)
    requires Holds(s.log + s.buffer, k, was)
    ensures var t := Append(c, s, key, text); Holds(t.log + t.buffer, k, if k == key then was + text else was)
  {
    hide Holds;
    var n := |s.buffer| - 1;
    var last, before, t := s.buffer[n], s.log + s.buffer[..n], Append(c, s, key, text);
    var now := last.(text := last.text + text);
    assert last in s.buffer && last.cut == 0;
    assert s.log + s.buffer == before + [last] && t.log + t.buffer == before + [now];
    if k == key { HoldsJoined(before, last, was, text); } else { HoldsSwapped(before, last, now, k, was); }
  }

  lemma AppendPushes(c: Limits, s: State, key: Key, text: string, k: Key, was: string)
    requires text != "" && !s.full && !Joins(c, s, key, text) && |s.buffer| < c.queue
    requires Holds(s.log + s.buffer, k, was)
    ensures var t := Append(c, s, key, text); Holds(t.log + t.buffer, k, if k == key then was + text else was)
  {
    hide Holds;
    var t := Append(c, s, key, text);
    var r := Clip(text, c.maxText);
    var f := Block(key, r.0, r.1);
    assert t.log + t.buffer == s.log + s.buffer + [f];
    if k == key { HoldsMore(s.log + s.buffer, f, was, text); } else { HoldsOther(s.log + s.buffer, f, k, was); }
  }

  lemma AppendKeeps(c: Limits, s: State, key: Key, text: string, events: seq<Event>)
    requires Faithful(c, s, events)
    ensures Faithful(c, Append(c, s, key, text), events + [Write(key, text)])
  {
    hide Holds, TextOf, Joins;
    var t, all := Append(c, s, key, text), events + [Write(key, text)];
    AppendCuts(c, s, key, text);
    forall k | !t.full && !t.refused ensures Holds(t.log + t.buffer, k, TextOf(all, k)) {
      var was := TextOf(events, k);
      TextOfMore(events, Write(key, text), k);
      if text == "" {
        assert TextOf(all, k) == was;
      } else {
        assert TextOf(all, k) == if k == key then was + text else was;
        if Joins(c, s, key, text) {
          AppendJoins(c, s, key, text, k, was);
        } else {
          AppendPushes(c, s, key, text, k, was);
        }
      }
    }
  }

  lemma AppendCuts(c: Limits, s: State, key: Key, text: string)
    requires CutsAreFull(c, s.buffer)
    ensures CutsAreFull(c, Append(c, s, key, text).buffer)
  {
    if text != "" && !s.full && Joins(c, s, key, text) {
      var n := |s.buffer| - 1;
      assert s.buffer[n] in s.buffer;
      var joined := s.buffer[n].(text := s.buffer[n].text + text);
      assert forall f | f in s.buffer[n := joined] :: f in s.buffer || f == joined;
    }
  }

  lemma {:induction false} BatchMoves(c: Limits, s: State, n: nat)
    ensures var t := Batch(c, s, n);
      && (forall f | f in t.buffer :: f in s.buffer)
      && t.refused == s.refused && (s.full ==> t.full)
      && (t.full == s.full ==> t.log + t.buffer == s.log + s.buffer)
    decreases n
  {
    if s.buffer != [] && n > 0 {
      var t := Encode(c, s.(buffer := s.buffer[1..]), s.buffer[0]);
      assert t.log + t.buffer == s.log + s.buffer;
      if t.bytes >= c.maxBytes && !t.full {
        EndsAmong(t.buffer);
      } else {
        BatchMoves(c, t, n - 1);
      }
    }
  }

  lemma {:induction false} EndsAmong(frames: seq<Frame>)
    ensures forall f | f in Ends(frames) :: f in frames
  {
    if frames != [] { EndsAmong(frames[1..]); }
  }

  lemma FlushKeeps(c: Limits, s: State, events: seq<Event>)
    requires Faithful(c, s, events)
    ensures Faithful(c, Batch(c, s, c.batch), events + [Flush])
  {
    BatchMoves(c, s, c.batch);
    forall key ensures TextOf(events + [Flush], key) == TextOf(events, key) {
      assert (events + [Flush])[..|events|] == events;
    }
  }

  /** For any interleaving of emit, append and batches: as long as nothing was
      turned away and the ceiling was not reached, what was written and what still
      waits hold, for every block, the texts given to `append` in order, each
      character once, but for exactly the characters counted as cut. */
  lemma {:induction false} RunIsFaithful(c: Limits, events: seq<Event>)
    requires forall e | e in events :: Enabled(e)
    ensures Faithful(c, Run(c, events), events)
  {
    if events != [] {
      var n := |events| - 1;
      RunIsFaithful(c, events[..n]);
      assert events == events[..n] + [events[n]] && events[n] in events;
      match events[n]
      case Emit(frame) => PushKeeps(c, Run(c, events[..n]), frame, events[..n], events[n]);
      case Write(key, text) => AppendKeeps(c, Run(c, events[..n]), key, text, events[..n]);
      case Flush => FlushKeeps(c, Run(c, events[..n]), events[..n]);
    }
  }

  // ---------------------------------------------------------------- emitted frames

  /** The frames given to `emit`, in order. */
  function Emitted(events: seq<Event>): seq<Frame> {
    if events == [] then []
    else
      var last := events[|events| - 1];
      Emitted(events[..|events| - 1]) + if last.Emit? then [last.frame] else []
  }

  /** The emitted ones among the frames, or only those that end the turn. */
  function Plains(frames: seq<Frame>, ends: bool): seq<Frame> {
    if frames == [] then []
    else
      var last := frames[|frames| - 1];
      Plains(frames[..|frames| - 1], ends)
      + if last.Plain? && (!ends || last.kind == "turn.end") then [last] else []
  }

  lemma {:induction false} PlainsApp(a: seq<Frame>, b: seq<Frame>, ends: bool)
    ensures Plains(a + b, ends) == Plains(a, ends) + Plains(b, ends)
  {
    if b == [] {
      assert a + b == a;
    } else {
      assert (a + b)[..|a + b| - 1] == a + b[..|b| - 1];
      PlainsApp(a, b[..|b| - 1], ends);
    }
  }

  lemma {:induction false} PlainsOfEnds(frames: seq<Frame>)
    ensures Plains(Ends(frames), true) == Plains(frames, true)
  {
    if frames != [] {
      PlainsOfEnds(frames[1..]);
      var head := if IsEnd(frames[0]) then [frames[0]] else [];
      assert frames == [frames[0]] + frames[1..];
      PlainsApp([frames[0]], frames[1..], true);
      PlainsApp(head, Ends(frames[1..]), true);
      assert [frames[0]][..0] == [];
    }
  }

  /** Unless a frame was turned away, every emitted frame is written or waits, once
      and in order, until the ceiling is reached; those that end the turn are even
      then. */
  ghost predicate NoneLost(s: State, events: seq<Event>) {
    !s.refused ==>
      && Plains(s.log + s.buffer, true) == Plains(Emitted(events), true)
      && (!s.full ==> Plains(s.log + s.buffer, false) == Emitted(events))
  }

  lemma {:induction false} BatchLoses(c: Limits, s: State, n: nat)
    ensures var t := Batch(c, s, n);
      && Plains(t.log + t.buffer, true) == Plains(s.log + s.buffer, true)
      && (!t.full ==> t.log + t.buffer == s.log + s.buffer)
    decreases n
  {
    hide Plains, Ends;
    if s.buffer != [] && n > 0 {
      var t := Encode(c, s.(buffer := s.buffer[1..]), s.buffer[0]);
      assert t.log + t.buffer == s.log + s.buffer;
      if t.bytes >= c.maxBytes && !t.full {
        NoteIsNotPlain();
        PlainsApp(t.log, t.buffer, true);
        PlainsOfEnds(t.buffer);
        PlainsApp(t.log, [Truncated], true);
        PlainsApp(t.log + [Truncated], Ends(t.buffer), true);
      } else {
        BatchLoses(c, t, n - 1);
      }
    }
  }

  lemma NoteIsNotPlain()
    ensures Plains([Truncated], true) == []
  {
    assert [Truncated][..0] == [];
  }

  lemma OnePlain(frames: seq<Frame>, f: Frame, ends: bool)
    ensures Plains(frames + [f], ends)
      == Plains(frames, ends) + if f.Plain? && (!ends || f.kind == "turn.end") then [f] else []
  {
    assert (frames + [f])[..|frames|] == frames;
  }

  lemma EmittedMore(events: seq<Event>, e: Event)
    ensures Emitted(events + [e]) == if e.Emit? then Emitted(events) + [e.frame] else Emitted(events)
  {
    assert (events + [e])[..|events|] == events;
  }

  lemma PushLoses(c: Limits, s: State, f: Frame, events: seq<Event>)
    requires NoneLost(s, events) && f.Plain?
    ensures NoneLost(Push(c, s, f), events + [Emit(f)])
  {
    hide Plains, Emitted;
    EmittedMore(events, Emit(f));
    OnePlain(Emitted(events), f, true);
    OnePlain(s.log + s.buffer, f, true);
    OnePlain(s.log + s.buffer, f, false);
    assert s.log + (s.buffer + [f]) == s.log + s.buffer + [f];
  }

  lemma AppendLoses(c: Limits, s: State, key: Key, text: string, ends: bool)
    ensures var t := Append(c, s, key, text); Plains(t.log + t.buffer, ends) == Plains(s.log + s.buffer, ends)
  {
    hide Plains;
    var t, all := Append(c, s, key, text), s.log + s.buffer;
    if t.buffer != s.buffer {
      var last := t.buffer[|t.buffer| - 1];
      if |t.buffer| == |s.buffer| {
        var n := |s.buffer| - 1;
        var before := s.log + s.buffer[..n];
        assert all == before + [s.buffer[n]] && t.log + t.buffer == before + [last];
        OnePlain(before, s.buffer[n], ends);
        OnePlain(before, last, ends);
      } else {
        assert t.log + t.buffer == all + [last];
        OnePlain(all, last, ends);
      }
    }
  }

  lemma {:induction false} RunLosesNone(c: Limits, events: seq<Event>)
    requires forall e | e in events :: Enabled(e)
    ensures NoneLost(Run(c, events), events)
  {
    if events != [] {
      hide Plains, Emitted, Push, Append, Batch, Ends;
      var n := |events| - 1;
      var was := Run(c, events[..n]);
      RunLosesNone(c, events[..n]);
      assert events == events[..n] + [events[n]] && events[n] in events;
      EmittedMore(events[..n], events[n]);
      match events[n]
      case Emit(frame) => PushLoses(c, was, frame, events[..n]);
      case Write(key, text) =>
        AppendLoses(c, was, key, text, true);
        AppendLoses(c, was, key, text, false);
        AppendFlags(c, was, key, text);
      case Flush =>
        BatchLoses(c, was, c.batch);
        BatchMoves(c, was, c.batch);
    }
  }

  lemma AppendFlags(c: Limits, s: State, key: Key, text: string)
    ensures var t := Append(c, s, key, text); t.full == s.full && (s.refused ==> t.refused)
  {
  }

  /** A frame is turned away only when as many as may be are waiting. */
  lemma RefusedWhenFull(c: Limits, s: State, e: Event)
    requires |s.buffer| < c.queue
    ensures Step(c, s, e).refused == s.refused
  {
    BatchMoves(c, s, c.batch);
  }

  /** Two neighbouring frames of one block never fit into one. */
  ghost predicate Packed(c: Limits, frames: seq<Frame>) {
    forall i | 0 < i < |frames| && frames[i - 1].Block? && frames[i].Block? && frames[i - 1].key == frames[i].key ::
      |frames[i - 1].text| + |frames[i].text| + frames[i].cut > c.maxText
  }

  lemma {:induction false} BatchPacks(c: Limits, s: State, n: nat)
    requires !s.full && Packed(c, s.buffer)
    ensures !Batch(c, s, n).full ==> Packed(c, Batch(c, s, n).buffer)
    decreases n
  {
    if s.buffer != [] && n > 0 {
      var t := Encode(c, s.(buffer := s.buffer[1..]), s.buffer[0]);
      assert forall i | 0 < i < |t.buffer| :: t.buffer[i] == s.buffer[i + 1] && t.buffer[i - 1] == s.buffer[i];
      if t.bytes < c.maxBytes { BatchPacks(c, t, n - 1); }
    }
  }

  /** So in every run, up to the ceiling, what waits is joined as far as it can be. */
  lemma {:induction false} RunIsPacked(c: Limits, events: seq<Event>)
    requires forall e | e in events :: Enabled(e)
    ensures !Run(c, events).full ==> Packed(c, Run(c, events).buffer)
  {
    if events != [] {
      hide Ends;
      var n := |events| - 1;
      RunIsPacked(c, events[..n]);
      assert events[n] in events;
      match events[n]
      case Emit(frame) =>
      case Write(key, text) => AppendFlags(c, Run(c, events[..n]), key, text);
      case Flush =>
        BatchMoves(c, Run(c, events[..n]), c.batch);
        if !Run(c, events[..n]).full { BatchPacks(c, Run(c, events[..n]), c.batch); }
    }
  }

  // ---------------------------------------------------------------- batches

  /** The lengths of all bodies, each encoded under its place in the log. */
  function Sizes(c: Limits, log: seq<Frame>): nat {
    if log == [] then 0 else Sizes(c, log[..|log| - 1]) + c.size(|log|, log[|log| - 1])
  }

  /** With room for n frames, a batch takes k of those that wait from the front,
      as many as it may or as there are, and counts their lengths; when these reach
      the ceiling it stops there, writes the note, and of what still waits keeps
      the frames that end the turn. */
  ghost predicate Writes(c: Limits, s: State, n: nat, t: State, k: int) {
    && t.bytes == Sizes(c, t.log) && 0 <= k <= |s.buffer| && k <= n
    && (t.full == s.full ==> (k == n || k == |s.buffer|) && t.log == s.log + s.buffer[..k] && t.buffer == s.buffer[k..])
    && (t.full != s.full ==>
          && t.log == s.log + s.buffer[..k] + [Truncated] && t.buffer == Ends(s.buffer[k..])
          && Sizes(c, s.log + s.buffer[..k]) >= c.maxBytes)
  }

  lemma {:induction false} BatchWrites(c: Limits, s: State, n: nat)
    requires s.bytes == Sizes(c, s.log)
    ensures exists k :: Writes(c, s, n, Batch(c, s, n), k)
    decreases n
  {
    hide Ends, Writes, Sizes;
    if s.buffer == [] || n == 0 {
      WritesNone(c, s, n);
      assert Writes(c, s, n, Batch(c, s, n), 0);
      return;
    }
    var t := Encode(c, s.(buffer := s.buffer[1..]), s.buffer[0]);
    SizesMore(c, s.log, s.buffer[0]);
    if t.bytes >= c.maxBytes && !t.full {
      WritesNote(c, s, n);
      assert Writes(c, s, n, Batch(c, s, n), 1);
      return;
    }
    BatchWrites(c, t, n - 1);
    var k :| Writes(c, t, n - 1, Batch(c, t, n - 1), k);
    WritesMore(c, s, n, Batch(c, t, n - 1), k);
    assert Writes(c, s, n, Batch(c, s, n), k + 1);
  }

  lemma WritesNone(c: Limits, s: State, n: nat)
    requires s.bytes == Sizes(c, s.log) && (s.buffer == [] || n == 0)
    ensures Writes(c, s, n, s, 0)
  {
    hide Sizes;
    assert s.log + s.buffer[..0] == s.log;
  }

  lemma WritesNote(c: Limits, s: State, n: nat)
    requires s.bytes == Sizes(c, s.log) && s.buffer != [] && n > 0 && !s.full
    requires s.bytes + c.size(|s.log| + 1, s.buffer[0]) >= c.maxBytes
    ensures var t := Encode(c, s.(buffer := s.buffer[1..]), s.buffer[0]);
      Writes(c, s, n, Encode(c, t.(full := true, buffer := Ends(t.buffer)), Truncated), 1)
  {
    hide Ends, Sizes;
    assert s.buffer[..1] == [s.buffer[0]];
    SizesMore(c, s.log, s.buffer[0]);
    SizesMore(c, s.log + [s.buffer[0]], Truncated);
  }

  lemma WritesMore(c: Limits, s: State, n: nat, u: State, j: int)
    requires s.buffer != [] && n > 0
    requires Writes(c, Encode(c, s.(buffer := s.buffer[1..]), s.buffer[0]), n - 1, u, j)
    ensures Writes(c, s, n, u, j + 1)
  {
    hide Ends, Sizes;
    assert s.buffer[..j + 1] == [s.buffer[0]] + s.buffer[1..][..j] && s.buffer[j + 1..] == s.buffer[1..][j..];
    assert s.log + s.buffer[..j + 1] == s.log + [s.buffer[0]] + s.buffer[1..][..j];
  }

  lemma {:induction false} RunCounts(c: Limits, events: seq<Event>)
    ensures Run(c, events).bytes == Sizes(c, Run(c, events).log)
  {
    if events != [] {
      var s, e := Run(c, events[..|events| - 1]), events[|events| - 1];
      RunCounts(c, events[..|events| - 1]);
      if e.Flush? {
        BatchWrites(c, s, c.batch);
        var k :| Writes(c, s, c.batch, Batch(c, s, c.batch), k);
      }
    }
  }

  lemma SizesMore(c: Limits, log: seq<Frame>, f: Frame)
    ensures Sizes(c, log + [f]) == Sizes(c, log) + c.size(|log| + 1, f)
  {
    assert (log + [f])[..|log|] == log;
  }

  /** What ends the turn is what is kept beyond the ceiling. */
  lemma EndsAre(a: seq<Frame>, f: Frame)
    ensures Ends([f] + a) ==
      (if (f.Plain? && f.kind == "turn.end") || (f.Block? && f.key.kind == "turn.end") then [f] else []) + Ends(a)
  {
    assert ([f] + a)[1..] == a;
  }

  // ---------------------------------------------------------------- the ceiling

  ghost predicate NoNote(frames: seq<Frame>) { forall f | f in frames :: !f.Truncated? }

  ghost predicate OnlyEnds(frames: seq<Frame>) { forall f | f in frames :: IsEnd(f) }

  ghost predicate NoteThenEnds(log: seq<Frame>) {
    exists k | 0 <= k < |log| :: log[k].Truncated? && NoNote(log[..k]) && OnlyEnds(log[k + 1..])
  }

  /** As long as what was written is below the ceiling there is no note; from the
      frame on that reaches it, the log is what was written until then, one note, and
      `turn.end` frames. */
  ghost predicate Ceiling(c: Limits, s: State) {
    && NoNote(s.buffer) && |s.buffer| <= c.queue
    && (!s.full ==> NoNote(s.log) && (s.log != [] ==> s.bytes < c.maxBytes))
    && (s.full ==> OnlyEnds(s.buffer) && s.bytes >= c.maxBytes && NoteThenEnds(s.log))
  }

  lemma NoteWritten(log: seq<Frame>)
    requires NoNote(log)
    ensures NoteThenEnds(log + [Truncated])
  {
    var k := |log|;
    var u := log + [Truncated];
    assert u[..k] == log && u[k + 1..] == [] && u[k].Truncated?;
  }

  lemma NoteStays(log: seq<Frame>, f: Frame)
    requires NoteThenEnds(log) && IsEnd(f)
    ensures NoteThenEnds(log + [f])
  {
    var k :| 0 <= k < |log| && log[k].Truncated? && NoNote(log[..k]) && OnlyEnds(log[k + 1..]);
    var u := log + [f];
    assert u[..k] == log[..k] && u[k + 1..] == log[k + 1..] + [f] && u[k] == log[k];
  }

  lemma {:induction false} BatchCeiling(c: Limits, s: State, n: nat)
    requires Ceiling(c, s)
    ensures Ceiling(c, Batch(c, s, n))
    decreases n
  {
    hide Ends, NoteThenEnds, IsEnd;
    if s.buffer != [] && n > 0 {
      var f, rest := s.buffer[0], s.buffer[1..];
      var t := Encode(c, s.(buffer := rest), f);
      assert f in s.buffer && forall g | g in rest :: g in s.buffer;
      if t.bytes >= c.maxBytes && !t.full {
        EndsAmong(rest);
        EndsShort(rest);
        NoteWritten(t.log);
      } else {
        if s.full { NoteStays(s.log, f); }
        BatchCeiling(c, t, n - 1);
      }
    }
  }

  lemma {:induction false} EndsShort(frames: seq<Frame>)
    ensures |Ends(frames)| <= |frames|
  {
    if frames != [] { EndsShort(frames[1..]); }
  }

  lemma AppendCeiling(c: Limits, s: State, key: Key, text: string)
    requires Ceiling(c, s)
    ensures Ceiling(c, Append(c, s, key, text))
  {
    var t := Append(c, s, key, text);
    if !s.full {
      forall f | f in t.buffer ensures !f.Truncated? {
        if f !in s.buffer { assert f.Block?; }
      }
    }
  }

  /** In every run the buffer stays within its bound, and once the ceiling is
      reached exactly one note is in the log and only `turn.end` frames follow it. */
  lemma {:induction false} RunRespectsCeiling(c: Limits, events: seq<Event>)
    requires forall e | e in events :: Enabled(e)
    ensures Ceiling(c, Run(c, events))
  {
    if events != [] {
      var n := |events| - 1;
      RunRespectsCeiling(c, events[..n]);
      assert events[n] in events;
      match events[n]
      case Emit(frame) =>
      case Write(key, text) => AppendCeiling(c, Run(c, events[..n]), key, text);
      case Flush => BatchCeiling(c, Run(c, events[..n]), c.batch);
    }
  }
}