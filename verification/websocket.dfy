/** The browser connection, `chrome/ws.py`: frames out, messages in. */
module WebSockets {
  import opened Options
  import opened Wire

  // ---------------------------------------------------------------- sending

  /** What `send_frame` puts on the wire. */
  function ClientFrame(data: Bytes, opcode: Byte, mask: Bytes): Bytes
    requires |mask| == 4 && |data| < 0x1_0000_0000_0000_0000
  {
    [FIN | opcode] + LengthField(|data|, MASK) + mask + Masked(data, mask)
  }

  /** For every opcode, payload and mask, the frame decodes to that opcode and
      payload, with FIN and the mask bit set; strict decoding accepts only the
      shortest length form. */
  lemma ClientFrameDecodes(data: Bytes, opcode: Byte, mask: Bytes, rest: Bytes)
    requires opcode < 16 && |mask| == 4 && |data| < 0x8000_0000_0000_0000
    ensures Decode(ClientFrame(data, opcode, mask) + rest) == Some((Frame(true, opcode, data), true, rest))
  {
    hide LengthField, ExtraLength, Announced, Masked;
    var field, body := LengthField(|data|, MASK), Masked(data, mask);
    var s := ClientFrame(data, opcode, mask) + rest;
    HeadByte(true, opcode);
    LengthRoundTrip(|data|, MASK);
    MaskTwice(data, mask);
    FrameParts(FIN | opcode, field, mask, body, rest);
    assert s == [FIN | opcode] + field + mask + body + rest;
  }

  lemma Part(a: Bytes, x: Bytes, b: Bytes)
    ensures (a + x + b)[|a|..|a| + |x|] == x
  {
  }

  /** Where the parts of a frame stand. */
  lemma FrameParts(head: Byte, field: Bytes, mask: Bytes, body: Bytes, rest: Bytes)
    requires field != [] && |mask| == 4
    ensures var s, k := [head] + field + mask + body + rest, |field| - 1;
      && |s| == 6 + k + |body| + |rest| && s[0] == head && s[1] == field[0] && s[2..2 + k] == field[1..]
      && s[2 + k..6 + k] == mask && s[6 + k..6 + k + |body|] == body && s[6 + k + |body|..] == rest
  {
    var s := [head] + field + mask + body + rest;
    assert s == [head, field[0]] + field[1..] + (mask + body + rest);
    Part([head, field[0]], field[1..], mask + body + rest);
    assert s == ([head] + field) + mask + (body + rest);
    Part([head] + field, mask, body + rest);
    Part([head] + field + mask, body, rest);
    assert s == ([head] + field + mask + body) + rest + [];
    Part([head] + field + mask + body, rest, []);
  }

  /** What `_pong` puts on the wire; from 256 bytes on the header byte does not exist. */
  function PongFrame(payload: Bytes, mask: Bytes): Option<Bytes>
    requires |mask| == 4
  {
    if |payload| >= 256 then None
    else Some([FIN | PONG, MASK | (|payload| as bv8)] + mask + Masked(payload, mask))
  }

  /** A pong carries its payload exactly when that is at most 125 bytes, the
      limit of section 5.5 for control frames. */
  lemma PongDecodesIffControl(payload: Bytes, mask: Bytes)
    requires |mask| == 4
    ensures (PongFrame(payload, mask).Some?
             && Decode(PongFrame(payload, mask).value) == Some((Frame(true, PONG, payload), true, [])))
      <==> |payload| <= 125
  {
    hide Masked, Decode, ExtraLength;
    if |payload| <= 125 {
      ClientFrameDecodes(payload, PONG, mask, []);
      assert PongFrame(payload, mask).value == ClientFrame(payload, PONG, mask) + [];
    } else if |payload| < 256 {
      var b := MASK | (|payload| as bv8);
      LongSizeByte(b);
      var s := [FIN | PONG, b] + mask + Masked(payload, mask);
      if Decode(s).Some? { DecodedSize(s); }
    }
  }

  /** A decoded frame and what follows it account for every byte. */
  lemma DecodedSize(s: Bytes)
    requires Decode(s).Some?
    ensures |s| >= 2
    ensures var r := Decode(s).value;
      && |s| == 2 + ExtraLength(s[1]) + (if r.1 then 4 else 0) + |r.0.payload| + |r.2|
      && (ExtraLength(s[1]) == 0 ==> |r.0.payload| == (s[1] & 0x7F) as nat)
  {
    hide Unpack;
  }

  /** A second header byte that announces no longer length announces at most 125 bytes. */
  lemma LongSizeByte(b: Byte)
    ensures ExtraLength(b) == 0 ==> (b & 0x7F) as nat < 126
  {
  }

  // ---------------------------------------------------------------- receiving

  /** `_frame` on the bytes still to come: the frame, if they hold a whole one, and what is left unread. */
  ghost function Parse(s: Bytes): (r: (Option<Frame>, Bytes))
    ensures r.0.Some? ==> |r.1| < |s|
  {
    if |s| < 2 then (None, s)
    else
      var k, s1 := ExtraLength(s[1]), s[2..];
      if |s1| < k then (None, s1)
      else
        var size, s2 := Announced(s[1], s1[..k]), s1[k..];
        if |s2| < size then (None, s2)
        else (Some(Frame(s[0] & FIN != 0, s[0] & 0x0F, s2[..size])), s2[size..])
  }

  datatype Outcome = Message(data: Bytes) | Ended | Broken

  predicate IsData(opcode: Byte) { opcode == TEXT || opcode == BINARY || opcode == 0x0 }

  datatype Reception = Reception(outcome: Outcome, rest: Bytes, pings: seq<Bytes>)

  /** `recv_bytes` on the bytes still to come, with the fragments collected and the pings answered so far. */
  ghost function Receive(s: Bytes, fragments: Bytes, pings: seq<Bytes>): Reception
    decreases |s|
  {
    var (f, rest) := Parse(s);
    if f.None? || f.value.opcode == CLOSE then Reception(Ended, rest, pings)
    else
      var g := f.value;
      if g.opcode == PING then
        if |g.payload| >= 256 then Reception(Broken, rest, pings)
        else Receive(rest, fragments, pings + [g.payload])
      else if !IsData(g.opcode) then Receive(rest, fragments, pings)
      else if g.fin then Reception(Message(fragments + g.payload), rest, pings)
      else Receive(rest, fragments + g.payload, pings)
  }

  function Flatten(chunks: seq<Bytes>): Bytes {
    if chunks == [] then [] else chunks[0] + Flatten(chunks[1..])
  }

  /** The frame is a pong with this payload under some masking key. */
  ghost predicate IsPong(frame: Bytes, payload: Bytes) {
    exists mask: Bytes :: |mask| == 4 && PongFrame(payload, mask) == Some(frame)
  }

  /** Each frame sent is a pong for the ping in the same place. */
  ghost predicate Answers(sent: seq<Bytes>, pings: seq<Bytes>) {
    |sent| == |pings| && forall k | 0 <= k < |sent| :: IsPong(sent[k], pings[k])
  }

  /** `os.urandom(4)`: any four bytes. */
  method Urandom4() returns (mask: Bytes)
    ensures |mask| == 4
  {
    mask := [0, 0, 0, 0];
  }

  class WebSocket {
    /** Bytes received and not yet used. */
    var buffer: Bytes
    /** The chunks the peer's bytes will arrive in; when there are none left the connection is closed. */
    var incoming: seq<Bytes>
    /** What has been sent, one entry a frame. */
    var sent: seq<Bytes>

    /** A receive on a socket returns no bytes only at the end. */
    ghost predicate Valid() reads this { forall c | c in incoming :: c != [] }

    /** Every byte not yet used, however it is going to be cut into chunks. */
    ghost function Stream(): Bytes reads this { buffer + Flatten(incoming) }

    constructor (incoming: seq<Bytes>)
      requires forall c | c in incoming :: c != []
      ensures Valid() && Stream() == Flatten(incoming) && sent == []
    {
      this.buffer, this.incoming, this.sent := [], incoming, [];
    }

    /** `sock.recv`. */
    method Recv() returns (chunk: Bytes)
      requires Valid()
      modifies this`incoming
      ensures Valid() && old(Flatten(incoming)) == chunk + Flatten(incoming)
      ensures chunk == [] <==> old(incoming) == []
      ensures old(incoming) != [] ==> |incoming| < |old(incoming)|
    {
      if incoming == [] { return []; }
      assert incoming[0] in incoming && forall c | c in incoming[1..] :: c in incoming;
      chunk, incoming := incoming[0], incoming[1..];
    }

    /** `_read`: the next bytes of the stream, or nothing when it ends first. */
    method Read(size: nat) returns (r: Option<Bytes>)
      requires Valid()
      modifies this`buffer, this`incoming
      ensures Valid()
      ensures r == if size <= |old(Stream())| then Some(old(Stream())[..size]) else None
      ensures Stream() == if size <= |old(Stream())| then old(Stream())[size..] else old(Stream())
    {
      while |buffer| < size
        invariant Valid() && Stream() == old(Stream())
        decreases |incoming|
      {
        var chunk := Recv();
        if chunk == [] {
          assert Flatten(incoming) == [];
          return None;
        }
        buffer := buffer + chunk;
      }
      assert old(Stream())[..size] == buffer[..size] && old(Stream())[size..] == buffer[size..] + Flatten(incoming);
      r := Some(buffer[..size]);
      buffer := buffer[size..];
    }

    /** The rest of the length field. */
    method ReadLength(b: Byte) returns (size: Option<nat>)
      requires Valid()
      modifies this`buffer, this`incoming
      ensures Valid()
      ensures var s, k := old(Stream()), ExtraLength(b);
        if |s| < k then size == None && Stream() == s
        else size == Some(Announced(b, s[..k])) && Stream() == s[k..]
    {
      hide Flatten, Stream;
      size := Some((b & 0x7F) as nat);
      Low7(b);
      if b & 0x7F == 126 {
        var more := Read(2);
        if more.None? { return None; }
        size := Some(Unpack(more.value));
      } else if b & 0x7F == 127 {
        var more := Read(8);
        if more.None? { return None; }
        size := Some(Unpack(more.value));
      }
    }

    /** `_frame`. */
    method ReadFrame() returns (r: Option<Frame>)
      requires Valid()
      modifies this`buffer, this`incoming
      ensures Valid() && (r, Stream()) == Parse(old(Stream()))
    {
      hide Flatten, ExtraLength, Announced, Stream;
      var head := Read(2);
      if head.None? { return None; }
      var fin := head.value[0] & FIN != 0;
      var opcode := head.value[0] & 0x0F;
      var size := ReadLength(head.value[1]);
      if size.None? { return None; }
      var payload: Option<Bytes> := Some([]);
      if size.value != 0 { payload := Read(size.value); }
      if payload.None? { return None; }
      return Some(Frame(fin, opcode, payload.value));
    }

    /** `_pong`. */
    method Pong(payload: Bytes) returns (ok: bool)
      modifies this`sent
      ensures ok <==> |payload| < 256
      ensures !ok ==> sent == old(sent)
      ensures ok ==> |sent| == |old(sent)| + 1 && sent[..|old(sent)|] == old(sent) && IsPong(sent[|old(sent)|], payload)
    {
      if |payload| >= 256 { return false; }
      var header := [FIN | PONG, MASK | (|payload| as bv8)];
      var mask := Urandom4();
      header := header + mask;
      sent := sent + [header + Masked(payload, mask)];
      assert PongFrame(payload, mask) == Some(sent[|old(sent)|]);
      return true;
    }

    /** `recv_bytes`: the next message, whatever the chunks. */
    method RecvBytes() returns (outcome: Outcome)
      requires Valid()
      modifies this
      ensures Valid()
      ensures var r := Receive(old(Stream()), [], []);
        && outcome == r.outcome && Stream() == r.rest
        && |old(sent)| <= |sent| && sent[..|old(sent)|] == old(sent) && Answers(sent[|old(sent)|..], r.pings)
    {
      hide Parse, Flatten, IsPong;
      var fragments: Bytes := [];
      ghost var pings: seq<Bytes>, n := [], |sent|;
      while true
        invariant Valid() && n == |old(sent)|
        invariant Receive(Stream(), fragments, pings) == Receive(old(Stream()), [], [])
        invariant n <= |sent| && sent[..n] == old(sent) && Answers(sent[n..], pings)
        decreases |Stream()|
      {
        var frame := ReadFrame();
        if frame.None? { return Ended; }
        var f := frame.value;
        if f.opcode == PING {
          ghost var before := sent;
          var ok := Pong(f.payload);
          if !ok { return Broken; }
          pings := pings + [f.payload];
          assert sent[n..] == before[n..] + [sent[|before|]];
          continue;
        }
        if f.opcode == PONG { continue; }
        if f.opcode == CLOSE { return Ended; }
        if IsData(f.opcode) {
          fragments := fragments + f.payload;
          if f.fin { return Message(fragments); }
        }
      }
    }

    /** `send_frame`. */
    method SendFrame(data: Bytes, opcode: Byte)
      requires |data| < 0x1_0000_0000_0000_0000
      modifies this`sent
      ensures exists mask: Bytes :: |mask| == 4 && sent == old(sent) + [ClientFrame(data, opcode, mask)]
    {
      var header := [FIN | opcode];
      var mask := Urandom4();
      var size := |data|;
      if size < 126 {
        header := header + [MASK | (size as bv8)];
      } else if size < 65536 {
        header := header + [MASK | 126];
        header := header + Pack(size, 2);
      } else {
        header := header + [MASK | 127];
        header := header + Pack(size, 8);
      }
      assert header == [FIN | opcode] + LengthField(size, MASK);
      header := header + mask;
      var masked := Masked(data, mask);
      sent := sent + [header + masked];
      assert sent == old(sent) + [ClientFrame(data, opcode, mask)];
    }
  }

  // ---------------------------------------------------------------- conversations

  /** A frame as a server sends it: unmasked, the length in its shortest form. */
  function ServerFrame(f: Frame): Bytes
    requires |f.payload| < 0x1_0000_0000_0000_0000
  {
    [(if f.fin then FIN else 0) | f.opcode] + LengthField(|f.payload|, 0) + f.payload
  }

  ghost predicate Sendable(f: Frame) { f.opcode < 16 && |f.payload| < 0x8000_0000_0000_0000 }

  lemma ServerFrameParses(f: Frame, rest: Bytes)
    requires Sendable(f)
    ensures Parse(ServerFrame(f) + rest) == (Some(f), rest)
  {
    hide LengthField, ExtraLength, Announced, Unpack;
    var field := LengthField(|f.payload|, 0);
    var head := (if f.fin then FIN else 0) | f.opcode;
    HeadByte(f.fin, f.opcode);
    LengthRoundTrip(|f.payload|, 0);
    CutFrame(head, field, f.payload, rest);
  }

  lemma CutFrame(head: Byte, field: Bytes, payload: Bytes, rest: Bytes)
    requires field != []
    ensures var s, k := [head] + field + payload + rest, |field| - 1;
      && s[0] == head && s[1] == field[0] && s[2..][..k] == field[1..]
      && s[2..][k..][..|payload|] == payload && s[2..][k..][|payload|..] == rest
  {
    var s, k := [head] + field + payload + rest, |field| - 1;
    assert s[2..][k..] == payload + rest;
  }

  function Wired(frames: seq<Frame>): Bytes
    requires forall f | f in frames :: |f.payload| < 0x1_0000_0000_0000_0000
  {
    if frames == [] then [] else ServerFrame(frames[0]) + Wired(frames[1..])
  }

  /** The opcodes of section 5.2: 0x0, 0x1 and 0x2 carry data, as a continuation, text or binary. */
  predicate CarriesData(f: Frame) { f.opcode == 0x0 || f.opcode == 0x1 || f.opcode == 0x2 }

  /** A ping (0x9) or pong (0xA), as section 5.5 allows it inside a message. */
  predicate IsControl(f: Frame) { f.fin && (f.opcode == 0x9 || f.opcode == 0xA) && |f.payload| <= 125 }

  /** The frames of one message (section 5.4): unfinished fragments with control
      frames in between, and a finished fragment at the end. */
  ghost predicate IsMessage(frames: seq<Frame>) {
    && frames != [] && (forall f | f in frames :: Sendable(f))
    && (forall k | 0 <= k < |frames| - 1 :: IsControl(frames[k]) || (CarriesData(frames[k]) && !frames[k].fin))
    && frames[|frames| - 1].fin && CarriesData(frames[|frames| - 1])
  }

  /** What one frame adds to the text of its message, and to the pings to answer. */
  function DataIn(f: Frame): Bytes { if CarriesData(f) then f.payload else [] }

  function PingIn(f: Frame): seq<Bytes> { if f.opcode == 0x9 then [f.payload] else [] }

  /** The text of a message: its fragments, put together. */
  function DataOf(frames: seq<Frame>): Bytes {
    if frames == [] then [] else DataIn(frames[0]) + DataOf(frames[1..])
  }

  function PingsOf(frames: seq<Frame>): seq<Bytes> {
    if frames == [] then [] else PingIn(frames[0]) + PingsOf(frames[1..])
  }

  /** One frame inside a message, and the one that ends it. */
  lemma ReceiveStep(f: Frame, rest: Bytes, fragments: Bytes, pings: seq<Bytes>)
    requires Sendable(f) && (IsControl(f) || CarriesData(f))
    ensures Receive(ServerFrame(f) + rest, fragments, pings) ==
      if f.fin && CarriesData(f) then Reception(Message(fragments + DataIn(f)), rest, pings + PingIn(f))
      else Receive(rest, fragments + DataIn(f), pings + PingIn(f))
  {
    hide Parse, ServerFrame;
    ServerFrameParses(f, rest);
    assert fragments + [] == fragments && pings + [] == pings;
  }

  /** A close frame (0x8), or the end of the stream inside a frame, ends the reception
      without a message; a ping too long to be answered breaks it; and a frame of any
      other opcode adds nothing, whether it is finished or not. */
  lemma ReceiveOther(f: Frame, rest: Bytes, fragments: Bytes, pings: seq<Bytes>)
    requires Sendable(f) && !CarriesData(f)
    ensures Receive(ServerFrame(f) + rest, fragments, pings) ==
      if f.opcode == 0x8 then Reception(Ended, rest, pings)
      else if f.opcode == 0x9 && |f.payload| >= 256 then Reception(Broken, rest, pings)
      else Receive(rest, fragments, pings + PingIn(f))
    ensures Receive([], fragments, pings) == Reception(Ended, [], pings)
  {
    ServerFrameParses(f, rest);
    assert Parse([]) == (None, []);
    hide Parse, ServerFrame;
    assert pings + [] == pings;
  }

  /** The examples of section 5.7 of RFC 6455: "Hello" as a text frame, unmasked and
      masked with 37 fa 21 3d, as a masked pong, and the lengths 256 and 65536. */
  lemma KnownFrames()
    ensures var hello: Bytes, mask: Bytes := [0x48, 0x65, 0x6c, 0x6c, 0x6f], [0x37, 0xfa, 0x21, 0x3d];
      && ServerFrame(Frame(true, 0x1, hello)) == [0x81, 0x05] + hello
      && ClientFrame(hello, 0x1, mask) == [0x81, 0x85] + mask + [0x7f, 0x9f, 0x4d, 0x51, 0x58]
      && PongFrame(hello, mask) == Some([0x8a, 0x85] + mask + [0x7f, 0x9f, 0x4d, 0x51, 0x58])
    ensures LengthField(256, 0) == [0x7e, 0x01, 0x00]
    ensures LengthField(65536, 0) == [0x7f, 0x00, 0x00, 0x00, 0x00, 0x00, 0x01, 0x00, 0x00]
  {
    MaskedHello();
    PackedLengths();
  }

  lemma MaskedHello()
    ensures Masked([0x48, 0x65, 0x6c, 0x6c, 0x6f], [0x37, 0xfa, 0x21, 0x3d]) == [0x7f, 0x9f, 0x4d, 0x51, 0x58]
  {
  }

  lemma PackedLengths()
    ensures Pack(256, 2) == [0x01, 0x00] && Pack(65536, 8) == [0x00, 0x00, 0x00, 0x00, 0x00, 0x01, 0x00, 0x00]
  {
    assert Pack(1, 0) == [] && Pack(1, 1) == [0x01] && Pack(0, 1) == [0x00];
    assert Pack(0, 2) == [0x00, 0x00];
    assert Pack(0, 3) == [0x00, 0x00, 0x00];
    assert Pack(0, 4) == [0x00, 0x00, 0x00, 0x00];
    assert Pack(0, 5) == [0x00, 0x00, 0x00, 0x00, 0x00];
    assert Pack(1, 6) == [0x00, 0x00, 0x00, 0x00, 0x00, 0x01];
    assert Pack(256, 7) == [0x00, 0x00, 0x00, 0x00, 0x00, 0x01, 0x00];
  }

  lemma TailIsMessage(frames: seq<Frame>)
    requires IsMessage(frames)
    ensures Sendable(frames[0]) && forall f | f in frames :: |f.payload| < 0x1_0000_0000_0000_0000
    ensures if |frames| == 1 then frames[0].fin && CarriesData(frames[0])
            else IsMessage(frames[1..]) && (IsControl(frames[0]) || (CarriesData(frames[0]) && !frames[0].fin))
  {
    assert frames[0] in frames;
    var others := frames[1..];
    if |frames| > 1 {
      assert forall g | g in others :: g in frames;
      assert others[|others| - 1] == frames[|frames| - 1];
      assert forall k | 0 <= k < |others| - 1 :: others[k] == frames[k + 1];
    }
  }

  lemma Regroup<T>(a: seq<T>, b: seq<T>, c: seq<T>)
    ensures (a + b) + c == a + (b + c)
  {
  }

  /** Receiving one message takes exactly its bytes, returns exactly its text and sees exactly its pings. */
  lemma {:induction false} ReceiveMessage(frames: seq<Frame>, rest: Bytes, fragments: Bytes, pings: seq<Bytes>)
    requires IsMessage(frames)
    ensures Receive(Wired(frames) + rest, fragments, pings)
         == Reception(Message(fragments + DataOf(frames)), rest, pings + PingsOf(frames))
  {
    assert frames != [];
    hide Receive, IsMessage, Sendable, ServerFrame, CarriesData, IsControl, DataIn, PingIn;
    var f, others := frames[0], frames[1..];
    TailIsMessage(frames);
    Regroup(ServerFrame(f), Wired(others), rest);
    ReceiveStep(f, Wired(others) + rest, fragments, pings);
    if |frames| > 1 {
      ReceiveMessage(others, rest, fragments + DataIn(f), pings + PingIn(f));
      Regroup(fragments, DataIn(f), DataOf(others));
      Regroup(pings, PingIn(f), PingsOf(others));
    } else {
      NothingMore(others, rest, DataIn(f), PingIn(f));
    }
  }

  lemma NothingMore(none: seq<Frame>, rest: Bytes, data: Bytes, pings: seq<Bytes>)
    requires none == []
    ensures Wired(none) + rest == rest && data + DataOf(none) == data && pings + PingsOf(none) == pings
  {
  }

  function Concat(messages: seq<seq<Frame>>): Bytes
    requires forall m, f | m in messages && f in m :: |f.payload| < 0x1_0000_0000_0000_0000
  {
    if messages == [] then [] else Wired(messages[0]) + Concat(messages[1..])
  }

  /** n successive calls of `recv_bytes`. */
  ghost function ReceiveMany(s: Bytes, n: nat): seq<Reception>
    decreases n
  {
    if n == 0 then [] else var r := Receive(s, [], []); [r] + ReceiveMany(r.rest, n - 1)
  }

  /** Whatever the chunks, successive calls return the messages of a conversation
      in order, each the concatenation of its fragments; call k sees exactly the
      pings interleaved with message k, and after the last call what follows is untouched. */
  lemma {:induction false} ReceiveConversation(messages: seq<seq<Frame>>, rest: Bytes)
    requires forall m | m in messages :: IsMessage(m)
    requires forall m, f | m in messages && f in m :: |f.payload| < 0x1_0000_0000_0000_0000
    ensures var rs := ReceiveMany(Concat(messages) + rest, |messages|);
      && |rs| == |messages|
      && (forall k | 0 <= k < |rs| ::
           rs[k].outcome == Message(DataOf(messages[k])) && rs[k].pings == PingsOf(messages[k]))
      && (messages != [] ==> rs[|rs| - 1].rest == rest)
  {
    hide Receive, Wired, DataOf, PingsOf, IsMessage;
    if messages != [] {
      var m, others := messages[0], messages[1..];
      ReceiveMessage(m, Concat(others) + rest, [], []);
      assert Concat(messages) + rest == Wired(m) + (Concat(others) + rest);
      assert [] + DataOf(m) == DataOf(m) && [] + PingsOf(m) == PingsOf(m);
      ReceiveConversation(others, rest);
      if others == [] { assert Concat(others) + rest == rest; }
    }
  }
}
