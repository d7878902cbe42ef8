/** servers/websocket/handler.py: byte strings cut into frames, and read back out of them in any sizes. */
module WebSockets {
  import opened Wrappers
  import opened Bytes
  import opened Frames
  import opened Packets
  import Streams

  const OUT_SIZE := 2040

  /** What a handler shares with its peer: bytes to read, bytes written, and whether it may still be read. */
  datatype Connection = Connection(input: bytes, output: bytes, alive: bool)

  predicate IsData(frame: Frame) {
    frame.opcode == OP_BYTES || frame.opcode == OP_CONTINUATION
  }

  /** Close, text and unassigned opcodes end the connection. */
  predicate Ends(frame: Frame) {
    !IsData(frame) && frame.opcode != OP_PING && frame.opcode != OP_PONG
  }

  function Pong(payload: bytes): Frame {
    Frame(OP_PONG, true, false, payload)
  }

  const CLOSE := Frame(OP_CLOSE, true, false, [])

  /** read_frames: the buffer, grown by the payloads up to the end of the first message. */
  function ReadMessage(c: Connection, buffer: bytes): (r: (Result<bytes>, Connection))
    ensures r.0.Ok? ==> |r.1.input| < |c.input|
    decreases |c.input|
  {
    if !c.alive then (Err(ConnectionClosed), c)
    else
      match ReceiveFrame(c.input)
      case Err(e) => (Err(e), c.(input := []))
      case Ok((frame, count)) =>
        var next := c.(input := c.input[count..]);
        if IsData(frame) then
          if frame.fin then (Ok(buffer + frame.payload), next) else ReadMessage(next, buffer + frame.payload)
        else if frame.opcode == OP_PING then
          ReadMessage(next.(output := next.output + FrameBytes(Pong(frame.payload))), buffer)
        else if frame.opcode == OP_PONG then ReadMessage(next, buffer)
        else
          var output := if frame.opcode == OP_CLOSE && frame.fin then c.output + FrameBytes(CLOSE) else c.output;
          (Err(ConnectionClosed), next.(alive := false, output := output))
  }

  /** read: n bytes of what is buffered and of as many messages as it takes; what is left over stays buffered. */
  function ReadBytes(c: Connection, buffer: bytes, n: nat): (Result<bytes>, Connection, bytes)
    decreases |c.input|
  {
    if n <= |buffer| then (Ok(buffer[..n]), c, buffer[n..])
    else
      var (message, next) := ReadMessage(c, buffer);
      if message.Ok? then ReadBytes(next, message.value, n) else (Err(message.error), next, [])
  }

  // ---------------------------------------------------------------- a byte stream again

  /** All that can still be read from a connection, whatever its bytes are. */
  function Drained(c: Connection, buffer: bytes): bytes
    decreases |c.input|
  {
    var (message, next) := ReadMessage(c, buffer);
    if message.Ok? then Drained(next, message.value) else buffer
  }

  lemma {:induction false} ReadMessagePrefix(c: Connection, a: bytes, b: bytes)
    ensures var (whole, next) := ReadMessage(c, a + b);
            var (part, same) := ReadMessage(c, b);
            next == same && whole == if part.Ok? then Ok(a + part.value) else Err(ConnectionClosed)
    decreases |c.input|
  {
    hide ReceiveFrame, FrameBytes;
    if c.alive && ReceiveFrame(c.input).Ok? {
      var (frame, count) := ReceiveFrame(c.input).value;
      var next := c.(input := c.input[count..]);
      if IsData(frame) {
        assert (a + b) + frame.payload == a + (b + frame.payload);
        ReadMessagePrefix(next, a, b + frame.payload);
      } else if frame.opcode == OP_PING {
        ReadMessagePrefix(next.(output := next.output + FrameBytes(Pong(frame.payload))), a, b);
      } else if frame.opcode == OP_PONG {
        ReadMessagePrefix(next, a, b);
      }
    }
  }

  lemma {:induction false} DrainedPrefix(c: Connection, a: bytes, b: bytes)
    ensures Drained(c, a + b) == a + Drained(c, b)
    decreases |c.input|
  {
    hide ReadMessage;
    ReadMessagePrefix(c, a, b);
    var (message, next) := ReadMessage(c, b);
    if message.Ok? {
      DrainedPrefix(next, a, message.value);
    }
  }

  /**
   On any input, a read of n bytes gives the next n of all that can be read, or fails when there are not that many, and
   leaves the rest: the connection is a plain byte stream to its reader.
   */
  lemma {:induction false} ReadBytesDrained(c: Connection, buffer: bytes, n: nat)
    ensures var (r, next, left) := ReadBytes(c, buffer, n);
            && r == Take(Drained(c, buffer), n)
            && (r.Ok? ==> Drained(next, left) == Drained(c, buffer)[n..])
    decreases |c.input|
  {
    hide ReadMessage;
    if n <= |buffer| {
      assert buffer == buffer[..n] + buffer[n..];
      DrainedPrefix(c, buffer[..n], buffer[n..]);
    } else {
      ReadMessagePrefix(c, buffer, []);
      assert buffer + [] == buffer;
      var (message, next) := ReadMessage(c, buffer);
      if message.Ok? {
        ReadBytesDrained(next, message.value, n);
      }
    }
  }

  // ---------------------------------------------------------------- frames on the wire

  /** A frame as it travels: masked with a key by a client, plain from a server. */
  datatype Wire = Wire(frame: Frame, key: bytes)

  predicate Legal(w: Wire) {
    && w.frame.opcode < 16 && |w.key| == 4
    && |w.frame.payload| < if w.frame.masked then Power256(8) else 65535
  }

  predicate AllLegal(wires: seq<Wire>) {
    forall w :: w in wires ==> Legal(w)
  }

  function WireBytes(w: Wire): bytes
    requires Legal(w)
  {
    if w.frame.masked then ClientBytes(w.frame, w.key) else FrameBytes(w.frame)
  }

  function AllBytes(wires: seq<Wire>): bytes
    requires AllLegal(wires)
  {
    if wires == [] then [] else WireBytes(wires[0]) + AllBytes(wires[1..])
  }

  /** The payloads of the data frames, end to end. */
  function Payloads(wires: seq<Wire>): bytes {
    if wires == [] then []
    else (if IsData(wires[0].frame) then wires[0].frame.payload else []) + Payloads(wires[1..])
  }

  /** The pongs that answer the pings. */
  function Pongs(wires: seq<Wire>): bytes {
    if wires == [] then []
    else
      var frame := wires[0].frame;
      (if frame.opcode == OP_PING then FrameBytes(Pong(frame.payload)) else []) + Pongs(wires[1..])
  }

  /** How many frames there are up to the end of the first message, or 0. */
  function FirstMessage(wires: seq<Wire>): (k: nat)
    ensures k <= |wires|
  {
    if wires == [] || Ends(wires[0].frame) then 0
    else if IsData(wires[0].frame) && wires[0].frame.fin then 1
    else
      var k := FirstMessage(wires[1..]);
      if k == 0 then 0 else k + 1
  }

  /** How many frames there are up to the end of the last message before one that ends the connection. */
  function Complete(wires: seq<Wire>): (k: nat)
    ensures k <= |wires|
  {
    if wires == [] || Ends(wires[0].frame) then 0
    else
      var k := Complete(wires[1..]);
      if k > 0 then k + 1
      else if IsData(wires[0].frame) && wires[0].frame.fin then 1
      else 0
  }

  /** What a reader can get out of these frames: the data of all complete messages. */
  function Available(wires: seq<Wire>): bytes {
    Payloads(wires[..Complete(wires)])
  }

  lemma WireRoundTrip(w: Wire, rest: bytes)
    requires Legal(w)
    ensures ReceiveFrame(WireBytes(w) + rest) == Ok((w.frame, |WireBytes(w)|))
  {
    hide ReceiveFrame, FrameBytes, ClientBytes;
    if w.frame.masked {
      ClientRoundTrip(w.frame, w.key, rest);
    } else {
      FrameRoundTrip(w.frame, rest);
    }
  }

  lemma {:induction false} PayloadsAppend(a: seq<Wire>, b: seq<Wire>)
    ensures Payloads(a + b) == Payloads(a) + Payloads(b)
    ensures Pongs(a + b) == Pongs(a) + Pongs(b)
    decreases |a|
  {
    hide FrameBytes, IsData, Payloads, Pongs;
    if a == [] {
      assert a + b == b;
      NoFrames();
    } else {
      assert (a + b)[1..] == a[1..] + b && (a + b)[0] == a[0];
      PayloadsAppend(a[1..], b);
      FirstFrame(a);
      FirstFrame(a + b);
    }
  }

  lemma NoFrames()
    ensures Payloads([]) == [] && Pongs([]) == []
  {
  }

  lemma FirstFrame(wires: seq<Wire>)
    requires wires != []
    ensures Payloads(wires) == (if IsData(wires[0].frame) then wires[0].frame.payload else []) + Payloads(wires[1..])
    ensures Pongs(wires) ==
            (if wires[0].frame.opcode == OP_PING then FrameBytes(Pong(wires[0].frame.payload)) else []) + Pongs(wires[1..])
  {
  }

  /** The last complete message ends where the messages after the first one do. */
  lemma {:induction false} CompleteSplit(wires: seq<Wire>)
    ensures FirstMessage(wires) == 0 <==> Complete(wires) == 0
    ensures FirstMessage(wires) > 0 ==>
              Complete(wires) == FirstMessage(wires) + Complete(wires[FirstMessage(wires)..])
    decreases |wires|
  {
    hide IsData, Ends;
    if wires != [] && !Ends(wires[0].frame) {
      CompleteSplit(wires[1..]);
      var k := FirstMessage(wires[1..]);
      assert wires[1..][k..] == wires[k + 1..];
    }
  }

  lemma AvailableSplit(wires: seq<Wire>)
    ensures var k := FirstMessage(wires);
            Available(wires) == if k == 0 then [] else Payloads(wires[..k]) + Available(wires[k..])
  {
    hide Complete, FirstMessage;
    var k := FirstMessage(wires);
    CompleteSplit(wires);
    var m := Complete(wires);
    if k == 0 {
      assert wires[..m] == [];
    } else {
      assert wires[..m] == wires[..k] + wires[k..][..m - k];
      PayloadsAppend(wires[..k], wires[k..][..m - k]);
    }
  }

  // ---------------------------------------------------------------- reading

  /** A reader of these frames gets the first message, answers the pings before it, and leaves the rest. */
  lemma {:induction false} ReadMessageOf(c: Connection, wires: seq<Wire>, buffer: bytes)
    requires AllLegal(wires) && c.alive && c.input == AllBytes(wires)
    ensures var k := FirstMessage(wires);
            if k == 0 then ReadMessage(c, buffer).0 == Err(ConnectionClosed)
            else AllLegal(wires[k..]) && ReadMessage(c, buffer) ==
                 (Ok(buffer + Payloads(wires[..k])), Connection(AllBytes(wires[k..]), c.output + Pongs(wires[..k]), true))
    decreases |wires|
  {
    hide ReceiveFrame, FrameBytes, WireBytes, Legal, Payloads, Pongs;
    if wires != [] {
      var frame := wires[0].frame;
      assert Legal(wires[0]) && AllLegal(wires[1..]);
      WireRoundTrip(wires[0], AllBytes(wires[1..]));
      var next := c.(input := AllBytes(wires[1..]));
      assert c.input[|WireBytes(wires[0])|..] == next.input;
      var k := FirstMessage(wires[1..]);
      OneFrame(wires);
      assert c.output + [] == c.output && buffer + [] == buffer;
      if !Ends(frame) && !(IsData(frame) && frame.fin) {
        var more := buffer + Payloads(wires[..1]);
        ReadMessageOf(next.(output := c.output + Pongs(wires[..1])), wires[1..], more);
        MoreFrames(wires, k, buffer, c.output);
      }
    }
  }

  lemma OneFrame(wires: seq<Wire>)
    requires wires != []
    ensures var frame := wires[0].frame;
            && Payloads(wires[..1]) == (if IsData(frame) then frame.payload else [])
            && Pongs(wires[..1]) == (if frame.opcode == OP_PING then FrameBytes(Pong(frame.payload)) else [])
  {
    hide FrameBytes;
    assert wires[..1][1..] == [];
  }

  lemma MoreFrames(wires: seq<Wire>, k: nat, buffer: bytes, output: bytes)
    requires wires != [] && k < |wires|
    ensures buffer + Payloads(wires[..k + 1]) == (buffer + Payloads(wires[..1])) + Payloads(wires[1..][..k])
    ensures output + Pongs(wires[..k + 1]) == (output + Pongs(wires[..1])) + Pongs(wires[1..][..k])
    ensures wires[1..][k..] == wires[k + 1..]
  {
    hide Payloads, Pongs;
    assert wires[..k + 1] == wires[..1] + wires[1..][..k];
    PayloadsAppend(wires[..1], wires[1..][..k]);
  }

  /**
   A read of n bytes gives the next n of the buffered and available bytes, or fails when there are not that
   many, just as a plain byte stream would; nothing between it and the next read is lost or doubled, and the
   pings among the k frames it took have their pongs.
   */
  lemma {:induction false} ReadBytesOf(c: Connection, wires: seq<Wire>, buffer: bytes, n: nat) returns (k: nat)
    requires AllLegal(wires) && c.alive && c.input == AllBytes(wires)
    ensures k <= |wires| && AllLegal(wires[k..])
    ensures var view := buffer + Available(wires);
            var (r, next, left) := ReadBytes(c, buffer, n);
            && r == Take(view, n)
            && (r.Ok? ==> left + Available(wires[k..]) == view[n..]
                          && next == Connection(AllBytes(wires[k..]), c.output + Pongs(wires[..k]), true))
    decreases |wires|
  {
    hide ReadMessage, Payloads, Pongs, Available, FirstMessage, AllBytes, Legal;
    var view := buffer + Available(wires);
    k := 0;
    if n <= |buffer| {
      assert view[..n] == buffer[..n] && view[n..] == buffer[n..] + Available(wires);
      assert wires[0..] == wires;
      NoPongs(wires, c.output);
    } else {
      var m := FirstMessage(wires);
      ReadMessageOf(c, wires, buffer);
      AvailableSplit(wires);
      if m == 0 {
        assert view == buffer;
      } else {
        var (message, next) := ReadMessage(c, buffer);
        assert view == message.value + Available(wires[m..]);
        SomeFrames(wires);
        var j := ReadBytesOf(next, wires[m..], message.value, n);
        k := m + j;
        assert wires[m..][j..] == wires[k..];
        JoinPongs(wires, m, j, c.output);
      }
    }
  }

  lemma NoPongs(wires: seq<Wire>, output: bytes)
    ensures output + Pongs(wires[..0]) == output
  {
  }

  lemma SomeFrames(wires: seq<Wire>)
    requires FirstMessage(wires) > 0
    ensures |wires| > 0
  {
  }

  lemma JoinPongs(wires: seq<Wire>, m: nat, j: nat, output: bytes)
    requires m + j <= |wires|
    ensures (output + Pongs(wires[..m])) + Pongs(wires[m..][..j]) == output + Pongs(wires[..m + j])
  {
    hide Pongs;
    assert wires[..m + j] == wires[..m] + wires[m..][..j];
    PayloadsAppend(wires[..m], wires[m..][..j]);
  }

  /** All that can be read from these frames is what is buffered and available. */
  lemma {:induction false} DrainedOf(c: Connection, wires: seq<Wire>, buffer: bytes)
    requires AllLegal(wires) && c.alive && c.input == AllBytes(wires)
    ensures Drained(c, buffer) == buffer + Available(wires)
    decreases |wires|
  {
    hide ReadMessage, Payloads, Pongs, Available, FirstMessage, AllBytes, Legal;
    var m := FirstMessage(wires);
    ReadMessageOf(c, wires, buffer);
    AvailableSplit(wires);
    if m == 0 {
      assert buffer + [] == buffer;
    } else {
      var (message, next) := ReadMessage(c, buffer);
      SomeFrames(wires);
      DrainedOf(next, wires[m..], message.value);
    }
  }

  /** One read after another. */
  function ReadEach(c: Connection, buffer: bytes, sizes: seq<nat>): Result<seq<bytes>>
    decreases |sizes|
  {
    if sizes == [] then Ok([])
    else
      var (r, next, left) := ReadBytes(c, buffer, sizes[0]);
      var first :- r;
      var others :- ReadEach(next, left, sizes[1..]);
      Ok([first] + others)
  }

  function Total(sizes: seq<nat>): nat {
    if sizes == [] then 0 else sizes[0] + Total(sizes[1..])
  }

  function Joined(parts: seq<bytes>): bytes {
    if parts == [] then [] else parts[0] + Joined(parts[1..])
  }

  /**
   Any sequence of reads succeeds exactly when the available bytes are enough for all of it, and then gives
   consecutive slices of them, of the sizes asked for.
   */
  lemma {:induction false} ReadsAreSlices(c: Connection, wires: seq<Wire>, buffer: bytes, sizes: seq<nat>)
    requires AllLegal(wires) && c.alive && c.input == AllBytes(wires)
    ensures var view, r := buffer + Available(wires), ReadEach(c, buffer, sizes);
            && (r.Ok? <==> Total(sizes) <= |view|)
            && (r.Ok? ==> |r.value| == |sizes| && (forall i :: 0 <= i < |sizes| ==> |r.value[i]| == sizes[i])
                          && Joined(r.value) == view[..Total(sizes)])
    decreases |sizes|
  {
    hide ReadBytes, Available, AllBytes, Legal, Pongs;
    if sizes != [] {
      var view, n := buffer + Available(wires), sizes[0];
      var k := ReadBytesOf(c, wires, buffer, n);
      var (r, next, left) := ReadBytes(c, buffer, n);
      if r.Ok? {
        ReadsAreSlices(next, wires[k..], left, sizes[1..]);
        var others := ReadEach(next, left, sizes[1..]);
        if others.Ok? {
          assert ([r.value] + others.value)[1..] == others.value;
          assert view[..n] + view[n..][..Total(sizes[1..])] == view[..n + Total(sizes[1..])];
        }
      }
    }
  }

  // ---------------------------------------------------------------- writing

  /** send_bytes: payloads of OUT_SIZE bytes, continued until the last frame, which has FIN. */
  function Fragments(opcode: bv8, payload: bytes): (frames: seq<Frame>)
    ensures frames != []
    decreases |payload|
  {
    if |payload| <= OUT_SIZE then [Frame(opcode, true, false, payload)]
    else [Frame(opcode, false, false, payload[..OUT_SIZE])] + Fragments(OP_CONTINUATION, payload[OUT_SIZE..])
  }

  /** What section 5.4 of RFC 6455 asks of a fragmented message. */
  ghost predicate Fragmented(opcode: bv8, frames: seq<Frame>) {
    && frames != [] && frames[0].opcode == opcode
    && (forall i :: 0 < i < |frames| ==> frames[i].opcode == OP_CONTINUATION)
    && (forall i :: 0 <= i < |frames| ==> (frames[i].fin <==> i == |frames| - 1))
  }

  function Plain(frames: seq<Frame>): (wires: seq<Wire>)
    ensures |wires| == |frames| && forall i :: 0 <= i < |frames| ==> wires[i].frame == frames[i]
  {
    seq(|frames|, i requires 0 <= i < |frames| => Wire(frames[i], [0, 0, 0, 0]))
  }

  /** The frames of a message are small, well formed, and hold the message. */
  lemma {:induction false} FragmentsHold(opcode: bv8, payload: bytes)
    requires opcode == OP_BYTES || opcode == OP_CONTINUATION
    ensures var frames := Fragments(opcode, payload);
            && Fragmented(opcode, frames)
            && (forall i :: 0 <= i < |frames| ==> |frames[i].payload| <= OUT_SIZE)
            && (|frames| > 1 ==> forall i :: 0 <= i < |frames| ==> frames[i].payload != [])
            && AllLegal(Plain(frames))
            && Payloads(Plain(frames)) == payload && FirstMessage(Plain(frames)) == |frames|
    decreases |payload|
  {
    var frames := Fragments(opcode, payload);
    var wires := Plain(frames);
    if |payload| <= OUT_SIZE {
      assert wires[1..] == [];
    } else {
      var rest := payload[OUT_SIZE..];
      FragmentsHold(OP_CONTINUATION, rest);
      assert wires[1..] == Plain(Fragments(OP_CONTINUATION, rest));
      assert payload == payload[..OUT_SIZE] + rest;
    }
  }

  /** The frames of messages sent one after another. */
  function Sent(messages: seq<bytes>): seq<Wire> {
    if messages == [] then [] else Plain(Fragments(OP_BYTES, messages[0])) + Sent(messages[1..])
  }

  lemma {:induction false} OneMessageFirst(message: seq<Wire>, wires: seq<Wire>)
    requires message != [] && FirstMessage(message) == |message|
    ensures FirstMessage(message + wires) == |message|
    decreases |message|
  {
    hide IsData, Ends;
    assert (message + wires)[1..] == message[1..] + wires;
    if |message| > 1 {
      OneMessageFirst(message[1..], wires);
    }
  }

  /** The frames of one message, masked or not, cut anywhere, with any pings and pongs before its last frame. */
  ghost predicate Carries(wires: seq<Wire>, message: bytes) {
    wires != [] && AllLegal(wires) && FirstMessage(wires) == |wires| && Payloads(wires) == message
  }

  function Chain(groups: seq<seq<Wire>>): seq<Wire> {
    if groups == [] then [] else groups[0] + Chain(groups[1..])
  }

  lemma CarriedFirst(first: seq<Wire>, rest: seq<Wire>, message: bytes)
    requires Carries(first, message) && AllLegal(rest)
    ensures AllLegal(first + rest) && Available(first + rest) == message + Available(rest)
  {
    hide Legal, Payloads, FirstMessage, Available;
    OneMessageFirst(first, rest);
    AvailableSplit(first + rest);
    assert (first + rest)[..|first|] == first && (first + rest)[|first|..] == rest;
  }

  /** Messages carried one after another are available to their reader, end to end. */
  lemma {:induction false} CarriedAvailable(groups: seq<seq<Wire>>, messages: seq<bytes>)
    requires |groups| == |messages| && forall i :: 0 <= i < |groups| ==> Carries(groups[i], messages[i])
    ensures AllLegal(Chain(groups)) && Available(Chain(groups)) == Joined(messages)
    decreases |groups|
  {
    hide Carries, Available;
    if groups == [] {
      AvailableSplit([]);
    } else {
      CarriedAvailable(groups[1..], messages[1..]);
      CarriedFirst(groups[0], Chain(groups[1..]), messages[0]);
    }
  }

  /** What a client makes of a message it cuts into these pieces: a frame for each, masked with its key. */
  function Masked(opcode: bv8, pieces: seq<bytes>, keys: seq<bytes>): seq<Wire>
    requires |pieces| == |keys|
  {
    seq(|pieces|, i requires 0 <= i < |pieces| =>
      Wire(Frame(if i == 0 then opcode else OP_CONTINUATION, i == |pieces| - 1, true, pieces[i]), keys[i]))
  }

  lemma {:induction false} MaskedCarries(opcode: bv8, pieces: seq<bytes>, keys: seq<bytes>)
    requires pieces != [] && |pieces| == |keys| && (opcode == OP_BYTES || opcode == OP_CONTINUATION)
    requires forall i :: 0 <= i < |pieces| ==> |pieces[i]| < Power256(8) && |keys[i]| == 4
    ensures Carries(Masked(opcode, pieces, keys), Joined(pieces))
    decreases |pieces|
  {
    hide Power256;
    var wires := Masked(opcode, pieces, keys);
    if |pieces| == 1 {
      assert wires[1..] == [] && pieces[1..] == [] && Joined(pieces[1..]) == Payloads(wires[1..]) == [];
      assert Legal(wires[0]);
    } else {
      MaskedCarries(OP_CONTINUATION, pieces[1..], keys[1..]);
      assert wires[1..] == Masked(OP_CONTINUATION, pieces[1..], keys[1..]);
    }
  }

  lemma FragmentsCarry(message: bytes)
    ensures Carries(Plain(Fragments(OP_BYTES, message)), message)
  {
    FragmentsHold(OP_BYTES, message);
  }

  /** Sent messages are available to their reader, end to end. */
  lemma {:induction false} SentAvailable(messages: seq<bytes>)
    ensures AllLegal(Sent(messages)) && Available(Sent(messages)) == Joined(messages)
    decreases |messages|
  {
    hide Available, Fragments, Payloads, FirstMessage, Legal;
    if messages == [] {
      AvailableSplit([]);
    } else {
      SentAvailable(messages[1..]);
      FragmentsCarry(messages[0]);
      CarriedFirst(Plain(Fragments(OP_BYTES, messages[0])), Sent(messages[1..]), messages[0]);
    }
  }

  /** The frames without the pings and pongs among them. */
  function WithoutControl(wires: seq<Wire>): seq<Wire> {
    if wires == [] then []
    else
      var frame := wires[0].frame;
      (if IsData(frame) || Ends(frame) then [wires[0]] else []) + WithoutControl(wires[1..])
  }

  /** Pings and pongs between the fragments of a message change nothing for its reader. */
  lemma {:induction false} ControlIsNoise(wires: seq<Wire>)
    ensures Available(WithoutControl(wires)) == Available(wires)
    ensures Complete(WithoutControl(wires)) == 0 <==> Complete(wires) == 0
    decreases |wires|
  {
    if wires != [] {
      ControlIsNoise(wires[1..]);
      var rest := WithoutControl(wires[1..]);
      if IsData(wires[0].frame) || Ends(wires[0].frame) {
        assert ([wires[0]] + rest)[1..] == rest;
        FirstWire([wires[0]] + rest);
      } else {
        assert [] + rest == rest;
      }
      FirstWire(wires);
    }
  }

  lemma FirstWire(wires: seq<Wire>)
    requires wires != []
    ensures var frame, k := wires[0].frame, Complete(wires[1..]);
            && (Complete(wires) == 0 <==> Ends(frame) || (k == 0 && !(IsData(frame) && frame.fin)))
            && Available(wires) ==
               if Complete(wires) == 0 then []
               else (if IsData(frame) then frame.payload else []) + Available(wires[1..])
  {
    hide Payloads, Ends, IsData;
    var k := Complete(wires[1..]);
    CompleteFirst(wires);
    NoFrames();
    if Complete(wires) > 0 {
      assert wires[..k + 1][1..] == wires[1..][..k];
      FirstFrame(wires[..k + 1]);
    }
  }

  lemma CompleteFirst(wires: seq<Wire>)
    requires wires != []
    ensures var frame, k := wires[0].frame, Complete(wires[1..]);
            Complete(wires) == if Ends(frame) || (k == 0 && !(IsData(frame) && frame.fin)) then 0 else k + 1
  {
    hide Ends, IsData;
  }

  /** A ping as long as a client likes is answered with a frame that is not read back as it was written. */
  lemma LongPongWritten(c: Connection, payload: bytes, key: bytes, rest: bytes)
    requires 65535 <= |payload| < Power256(8) && |key| == 4 && c.alive
    requires c.input == AllBytes([Wire(Frame(OP_PING, true, true, payload), key), Wire(Frame(OP_BYTES, true, true, []), key)])
    ensures ReadMessage(c, []).1.output == c.output + FrameBytes(Pong(payload))
    ensures ReceiveFrame(FrameBytes(Pong(payload)) + rest) != Ok((Pong(payload), |FrameBytes(Pong(payload))|))
  {
    hide Power256, FrameBytes, ReceiveFrame, AllBytes;
    var wires := [Wire(Frame(OP_PING, true, true, payload), key), Wire(Frame(OP_BYTES, true, true, []), key)];
    assert wires[1..] == [wires[1]] && wires[..2] == wires && wires[1..][1..] == [];
    ReadMessageOf(c, wires, []);
    assert Pongs(wires[1..]) == [] + Pongs([]) == [];
    FrameRoundTrip(Pong(payload), rest);
  }

  function Printed(publishes: seq<Streams.PublishPacket>): (messages: seq<bytes>)
    requires forall p :: p in publishes ==> Streams.Publishable(p)
    ensures |messages| == |publishes|
  {
    Streams.AllPrintable(publishes);
    EachPrinted(Streams.ToPackets(publishes))
  }

  function EachPrinted(packets: seq<Streams.Packet>): (messages: seq<bytes>)
    requires forall p :: p in packets ==> Streams.Printable(p)
    ensures |messages| == |packets|
  {
    if packets == [] then [] else [Streams.PacketBytes(packets[0])] + EachPrinted(packets[1..])
  }

  lemma {:induction false} PrintedJoined(packets: seq<Streams.Packet>)
    requires forall p :: p in packets ==> Streams.Printable(p)
    ensures Joined(EachPrinted(packets)) == Streams.Concat(packets)
    decreases |packets|
  {
    hide Streams.PacketBytes, Streams.Printable;
    if packets != [] {
      PrintedJoined(packets[1..]);
      var first := Streams.PacketBytes(packets[0]);
      assert ([first] + EachPrinted(packets[1..]))[1..] == EachPrinted(packets[1..]);
    }
  }

  // ---------------------------------------------------------------- the code

  /** The first frame of what send_bytes has left, and the frames after it. */
  lemma FragmentBytes(opcode: bv8, data: bytes, rest: bytes)
    requires opcode == OP_BYTES || opcode == OP_CONTINUATION
    requires |data| == OUT_SIZE || (rest == [] && |data| < OUT_SIZE)
    ensures AllLegal(Plain(Fragments(opcode, data + rest))) && AllLegal(Plain(Fragments(OP_CONTINUATION, rest)))
    ensures AllBytes(Plain(Fragments(opcode, data + rest))) ==
            FrameBytes(Frame(opcode, rest == [], false, data)) +
            if rest == [] then [] else AllBytes(Plain(Fragments(OP_CONTINUATION, rest)))
  {
    hide Legal, FrameBytes;
    FragmentsHold(opcode, data + rest);
    FragmentsHold(OP_CONTINUATION, rest);
    var wires := Plain(Fragments(opcode, data + rest));
    if rest == [] {
      assert data + rest == data && wires[1..] == [];
    } else {
      assert (data + rest)[..OUT_SIZE] == data && (data + rest)[OUT_SIZE..] == rest;
      assert wires[1..] == Plain(Fragments(OP_CONTINUATION, rest));
    }
  }

  lemma LeftOf(input: bytes, n: nat)
    ensures Frames.Left(input, n) == input[|Recv(input, n)|..]
  {
  }

  class WebsocketHandler {
    var input: bytes
    var output: bytes
    var alive: bool
    var buf: bytes

    constructor (input: bytes)
      ensures this.input == input && output == [] && alive && buf == []
    {
      this.input, output, alive, buf := input, [], true, [];
    }

    function State(): Connection
      reads this
    {
      Connection(input, output, alive)
    }

    method Send(opcode: bv8, fin: bool, payload: bytes)
      modifies this`output
      ensures output == old(output) + FrameBytes(Frame(opcode, fin, false, payload))
    {
      var sent := Frames.ToBytes(Frame(opcode, fin, false, payload));
      output := output + sent;
    }

    /** send_bytes: what it writes is the message, in the frames FragmentsHold speaks of. */
    method SendBytes(payload: bytes)
      modifies this`output
      ensures AllLegal(Plain(Fragments(OP_BYTES, payload)))
      ensures output == old(output) + AllBytes(Plain(Fragments(OP_BYTES, payload)))
    {
      hide FrameBytes, Legal, AllBytes;
      FragmentsHold(OP_BYTES, payload);
      ghost var target := old(output) + AllBytes(Plain(Fragments(OP_BYTES, payload)));
      var n, buffer := Recv(payload, OUT_SIZE), Frames.Left(payload, OUT_SIZE);
      var fin, opcode := false, OP_BYTES;
      assert n + buffer == payload;
      while !fin
        invariant opcode == OP_BYTES || opcode == OP_CONTINUATION
        invariant !fin ==> |n| == OUT_SIZE || (buffer == [] && |n| < OUT_SIZE)
        invariant !fin ==> AllLegal(Plain(Fragments(opcode, n + buffer)))
        invariant if fin then output == target
                  else output + AllBytes(Plain(Fragments(opcode, n + buffer))) == target
        decreases !fin, |buffer|, |n|
      {
        var data := n;
        ghost var rest := buffer;
        FragmentBytes(opcode, data, rest);
        n, buffer := Recv(buffer, OUT_SIZE), Frames.Left(buffer, OUT_SIZE);
        assert n + buffer == rest;
        fin := n == [];
        Send(opcode, fin, data);
        opcode := OP_CONTINUATION;
      }
    }

    /** sock.recv. */
    method SockRecv(n: nat) returns (data: bytes)
      modifies this`input
      ensures data == Recv(old(input), n) && input == Frames.Left(old(input), n)
    {
      data := Recv(input, n);
      input := Frames.Left(input, n);
    }

    /** The length that follows the two bytes of the header. */
    method RecvLength(short: nat) returns (length: nat)
      modifies this`input
      ensures var (count, n) := ExtendedLength(short, old(input));
              length == n && count <= |old(input)| && input == old(input)[count..]
    {
      length := short;
      if short == 126 {
        var size := SockRecv(2);
        length := FromBytes(size);
      } else if short == 127 {
        var size := SockRecv(8);
        length := FromBytes(size);
      }
    }

    method RecvPayload(masked: bool, length: nat) returns (payload: bytes)
      modifies this`input
      ensures var (found, count) := ReceivePayload(masked, length, old(input));
              payload == found && input == old(input)[count..]
    {
      hide Unmask;
      LeftOf(input, if masked then length + 4 else length);
      payload := [];
      if length == 0 {
        if masked {
          var _ := SockRecv(4);
        }
      } else if masked {
        var data := SockRecv(length + 4);
        if |data| > 4 {
          payload := Unmask(data[..4], data[4..]);
        }
      } else {
        payload := SockRecv(length);
      }
    }

    /** Frame.recv on this handler's socket. */
    method RecvFrame() returns (r: Result<Frame>)
      modifies this`input
      ensures match ReceiveFrame(old(input))
              case Ok(found) => r == Ok(found.0) && input == old(input)[found.1..]
              case Err(e) => r == Err(e) && input == []
    {
      hide ReceivePayload, ExtendedLength;
      ghost var before := input;
      var header := SockRecv(2);
      if |header| < 2 {
        return Err(ConnectionClosed);
      }
      hide Recv, Frames.Left;
      assert header[0] == before[0] && header[1] == before[1] && input == before[2..];
      var fin, opcode := header[0] & 128 == 128, header[0] & 15;
      var masked, short := header[1] & 128 == 128, (header[1] & 127) as nat;
      var length := RecvLength(short);
      ghost var body := input;
      assert body == before[2 + ExtendedLength(short, before[2..]).0..];
      var payload := RecvPayload(masked, length);
      assert input == before[|before| - |body| + ReceivePayload(masked, length, body).1..];
      r := Ok(Frame(opcode, fin, masked, payload));
    }

    /** read_frames: frame after frame, until a message ends or the connection does. */
    method ReadFrames(buffer: bytes) returns (r: Result<bytes>)
      modifies this`input, this`output, this`alive
      ensures (r, State()) == ReadMessage(old(State()), buffer)
    {
      hide ReceiveFrame, FrameBytes;
      var message := buffer;
      while alive
        invariant ReadMessage(State(), message) == ReadMessage(old(State()), buffer)
        decreases |input|
      {
        var received := RecvFrame();
        if received.Err? {
          return Err(received.error);
        }
        var frame := received.value;
        if IsData(frame) {
          message := message + frame.payload;
          if frame.fin {
            return Ok(message);
          }
        } else if frame.opcode == OP_CLOSE {
          if frame.fin {
            Send(OP_CLOSE, true, []);
          }
          alive := false;
          return Err(ConnectionClosed);
        } else if frame.opcode == OP_PING {
          Send(OP_PONG, true, frame.payload);
        } else if frame.opcode != OP_PONG {
          alive := false;
          return Err(ConnectionClosed);
        }
      }
      r := Err(ConnectionClosed);
    }

    /** read. */
    method Read(n: nat) returns (r: Result<bytes>)
      modifies this
      ensures (r, State(), buf) == ReadBytes(old(State()), old(buf), n)
    {
      hide ReadMessage;
      var buffer := buf;
      buf := [];
      while |buffer| < n
        invariant ReadBytes(State(), buffer, n) == ReadBytes(old(State()), old(buf), n) && buf == []
        decreases |input|
      {
        var more :- ReadFrames(buffer);
        buffer := more;
      }
      buf := buffer[n..];
      r := Ok(buffer[..n]);
    }
  }
}
