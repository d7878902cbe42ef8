/** servers/streams.py and packet/: the readers of packets, on a plain socket or on a WebSocket. */
module Readers {
  import opened Wrappers
  import opened Bytes
  import opened RemainingLength
  import opened Packets
  import opened Streams
  import opened WebSockets

  /** The method read what the function says, and left the stream right after it. */
  ghost predicate Consumed<T>(r: Result<(T, nat)>, spec: Result<(T, nat)>, before: bytes, after: bytes) {
    r == spec && (r.Ok? ==> r.value.1 <= |before| && after == before[r.value.1..])
  }

  /** The reading side of a handler: from a WebSocket when it has one, else from a plain socket. */
  class ReaderWriter {
    const webSocket: WebsocketHandler?
    var input: bytes

    constructor (input: bytes)
      ensures webSocket == null && View() == input
    {
      this.webSocket, this.input := null, input;
    }

    constructor OverWebSocket(handler: WebsocketHandler)
      ensures webSocket == handler && View() == Drained(handler.State(), handler.buf)
    {
      this.webSocket, this.input := handler, [];
    }

    /** The bytes still to be read. */
    ghost function View(): bytes
      reads this, webSocket
    {
      if webSocket == null then input else Drained(webSocket.State(), webSocket.buf)
    }

    /** Exactly n bytes, or the connection is gone. */
    method Read(n: nat) returns (r: Result<bytes>)
      modifies this, webSocket
      ensures r == Take(old(View()), n)
      ensures r.Ok? ==> View() == old(View())[n..]
    {
      hide ReadBytes, Drained;
      if webSocket != null {
        ReadBytesDrained(webSocket.State(), webSocket.buf, n);
        r := webSocket.Read(n);
      } else if n > |input| {
        r := Err(ConnectionClosed);
      } else {
        r := Ok(input[..n]);
        input := input[n..];
      }
    }

    method DecodePacketLength() returns (r: Result<(nat, nat)>)
      modifies this, webSocket
      ensures Consumed(r, DecodeLength(old(View()), 0), old(View()), View())
    {
      hide DecodeLength, LengthSoFar, Drained, ReaderWriter.View, Grown, Multiplier;
      ghost var start := View();
      var multiplier: nat, value: nat, count := 1, 0, 0;
      var done := false;
      LengthStart(start);
      while !done
        invariant count <= |start| && View() == start[count..]
        invariant !done ==> count <= 3 && multiplier == Multiplier(count)
        invariant if done then DecodeLength(start, 0) == Ok((value, count))
                  else DecodeLength(start, 0) == LengthSoFar(value, multiplier, count, DecodeLength(start[count..], count))
        decreases !done, 4 - count
      {
        LengthStep(value, multiplier, count, start[count..]);
        NextMultiplier(count);
        var encoded := Read(1);
        if encoded.Err? {
          return Err(ConnectionClosed);
        }
        var intByte := encoded.value[0];
        assert start[count..][0] == intByte && start[count..][1..] == start[count + 1..];
        value := Grown(value, intByte, multiplier);
        count := count + 1;
        if intByte & 0x80 == 0 {
          done := true;
        } else {
          multiplier := multiplier * 128;
          if multiplier > 128 * 128 * 128 {
            return Err(InvalidLength);
          }
        }
      }
      r := Ok((value, count));
    }

    /** type and flags from the first byte. */
    method DecodeHeader() returns (r: Result<(bv8, bv8)>)
      modifies this, webSocket
      ensures r.Ok? <==> old(View()) != []
      ensures r.Ok? ==> r.value == ((old(View())[0] & 0xF0) >> 4, old(View())[0] & 0x0F) && View() == old(View())[1..]
      ensures r.Err? ==> r.error == ConnectionClosed
    {
      var byte1 :- Read(1);
      r := Ok(((byte1[0] & 0xF0) >> 4, byte1[0] & 0x0F));
    }

    /** decode_str: a two-byte length, then that many bytes. */
    method DecodeStr() returns (r: Result<(Value, nat)>)
      modifies this, webSocket
      ensures Consumed(r, ReadField(Str, old(View()), 0), old(View()), View())
    {
      var lengthBytes :- Read(2);
      var length := Unpack16(lengthBytes);
      if length != 0 {
        var s :- Read(length);
        r := Ok((StrV(s), length + 2));
      } else {
        assert old(View())[2..][..0] == [];
        r := Ok((StrV([]), 2));
      }
    }

    /** A SubscribePayload: its topic, then its qos. */
    method DecodeRequest() returns (r: Result<(Value, nat)>)
      modifies this, webSocket
      ensures Consumed(r, ReadField(Request, old(View()), 0), old(View()), View())
    {
      hide Drained;
      ghost var before := View();
      var topic :- DecodeStr();
      assert topic.0.StrV? && View() == before[topic.1..];
      var qos :- Read(1);
      r := Ok((RequestV(topic.0.s, qos[0] as nat), topic.1 + 1));
    }

    /** read of the other packet types; lists read items while any of the length is left. */
    method ReadType(kind: Kind, length: int) returns (r: Result<(Value, nat)>)
      modifies this, webSocket
      ensures Consumed(r, ReadField(kind, old(View()), length), old(View()), View())
    {
      match kind
      case Str => r := DecodeStr();
      case Byte =>
        var b :- Read(1);
        r := Ok((IntV(b[0] as nat), 1));
      case Id =>
        var b :- Read(2);
        r := Ok((IntV(Unpack16(b)), 2));
      case Rest =>
        if length < 1 {
          return Ok((RestV(None), 0));
        }
        var b :- Read(length);
        r := Ok((RestV(Some(b)), length));
      case Request => r := DecodeRequest();
      case List(item) =>
        if !IsItem(item) {
          return Ok((ListV([]), 0));
        }
        r := ReadList(item, length);
    }

    method ReadList(item: Kind, budget: int) returns (r: Result<(Value, nat)>)
      requires IsItem(item)
      modifies this, webSocket
      ensures Consumed(r, ReadField(List(item), old(View()), budget), old(View()), View())
    {
      hide ReadItems, ReadField, Linked;
      var result: seq<Value> := [];
      var byteCount: nat := 0;
      var length := budget;
      ListOf(item, View(), budget);
      ItemsStart(item, View(), budget);
      while length > 0
        invariant byteCount <= |old(View())| && View() == old(View())[byteCount..]
        invariant ReadItems(item, old(View()), budget) == Linked(result, byteCount, ReadItems(item, View(), length))
        decreases length
      {
        ghost var before := View();
        ItemsStep(item, result, byteCount, View(), length);
        var found: Result<(Value, nat)>;
        if item == Str {
          found := DecodeStr();
          ItemAny(Str, before);
        } else if item == Request {
          found := DecodeRequest();
          ItemAny(Request, before);
        } else {
          var b := Read(1);
          found := if b.Ok? then Ok((IntV(b.value[0] as nat), 1)) else Err(ConnectionClosed);
          ItemAny(Byte, before);
        }
        if found.Err? {
          return Err(found.error);
        }
        result := result + [found.value.0];
        byteCount := byteCount + found.value.1;
        length := length - found.value.1;
      }
      ItemsEnd(item, result, byteCount, View(), length);
      r := Ok((ListV(result), byteCount));
    }

    /** read_payload: every enabled field in turn, under the running length budget. */
    method ReadPayload(kinds: seq<Kind>, length: int) returns (r: Result<(seq<Value>, nat)>)
      modifies this, webSocket
      ensures Consumed(r, ReadFields(kinds, old(View()), length), old(View()), View())
    {
      hide ReadField, ReadFields, Linked;
      var values: seq<Value> := [];
      var byteCount: nat, left := 0, length;
      FieldsStart(kinds, View(), length);
      for i := 0 to |kinds|
        invariant byteCount <= |old(View())| && View() == old(View())[byteCount..]
        invariant ReadFields(kinds, old(View()), length) == Linked(values, byteCount, ReadFields(kinds[i..], View(), left))
      {
        FieldsStep(kinds[i..], values, byteCount, View(), left);
        assert kinds[i..][1..] == kinds[i + 1..];
        var found := ReadType(kinds[i], left);
        if found.Err? {
          return Err(found.error);
        }
        values := values + [found.value.0];
        byteCount := byteCount + found.value.1;
        left := left - found.value.1 - if kinds[i].List? then found.value.1 else 0;
      }
      assert kinds[|kinds|..] == [];
      FieldsEnd(values, byteCount, View(), left);
      r := Ok((values, byteCount));
    }

    /** read_payload of a packet class, the fields that earlier ones enable included. */
    method ReadBodyOf(typeCode: bv8, flags: bv8, length: int) returns (r: Result<(seq<Value>, nat)>)
      requires KindsOf(typeCode, flags).Some?
      modifies this, webSocket
      ensures Consumed(r, ReadBody(typeCode, flags, old(View()), length), old(View()), View())
    {
      hide KindsOf, ReadFields, ReadBody, TailOf, Drained, ReaderWriter.View;
      ghost var start := View();
      var kinds := KindsOf(typeCode, flags).value;
      var head := ReadPayload(kinds, length);
      HeadOnly(typeCode, flags, start, length);
      if head.Err? || typeCode != CONNECT {
        return head;
      }
      HeadAndTail(flags, start, length);
      var tail := ReadPayload(TailOf(typeCode, head.value.0), length - head.value.1);
      if tail.Err? {
        return tail;
      }
      r := Ok((head.value.0 + tail.value.0, head.value.1 + tail.value.1));
    }

    /** read_next_packet. */
    method ReadNextPacket() returns (r: Result<(Packet, nat)>)
      modifies this, webSocket
      ensures Consumed(r, ReadPacket(old(View())), old(View()), View())
    {
      hide DecodeLength, ReadBody, KindsOf, Drained, ReadPacket, ReaderWriter.View;
      ghost var before := View();
      PacketParts(before);
      var header :- DecodeHeader();
      if KindsOf(header.0, header.1) == None {
        return Err(UnknownPacket);
      }
      var length :- DecodePacketLength();
      assert View() == before[1 + length.1..];
      var fields :- ReadBodyOf(header.0, header.1, length.0);
      r := Ok((Packet(header.0, header.1, fields.0), 1 + length.1 + fields.1));
    }

    /** The loop of read_loop: packets until one cannot be read. */
    method ReadLoop() returns (packets: seq<Packet>)
      modifies this, webSocket
      ensures packets == Readable(old(View()))
    {
      hide ReadPacket, Drained, Readable, ReaderWriter.View;
      packets := [];
      ghost var start := Readable(View());
      assert [] + start == start;
      var reading := true;
      while reading
        invariant reading ==> packets + Readable(View()) == start
        invariant !reading ==> packets == start
        decreases reading, |View()|
      {
        ghost var before := View();
        ReadableNext(packets, before);
        var next := ReadNextPacket();
        if next.Err? {
          reading := false;
        } else {
          packets := packets + [next.value.0];
        }
      }
    }
  }

  /** read_next_packet, part by part. */
  lemma PacketParts(input: bytes)
    ensures input == [] ==> ReadPacket(input) == Err(ConnectionClosed)
    ensures input != [] ==>
      var typeCode, flags, length := (input[0] & 0xF0) >> 4, input[0] & 0x0F, DecodeLength(input[1..], 0);
      && (KindsOf(typeCode, flags) == None ==> ReadPacket(input) == Err(UnknownPacket))
      && (KindsOf(typeCode, flags).Some? && length.Err? ==> ReadPacket(input) == Err(length.error))
      && (KindsOf(typeCode, flags).Some? && length.Ok? ==>
            && input[1..][length.value.1..] == input[1 + length.value.1..]
            && var body := ReadBody(typeCode, flags, input[1 + length.value.1..], length.value.0);
               ReadPacket(input) == if body.Err? then Err(body.error)
                                    else Ok((Packet(typeCode, flags, body.value.0), 1 + length.value.1 + body.value.1)))
  {
    hide KindsOf, DecodeLength, ReadBody;
  }

  lemma HeadOnly(typeCode: bv8, flags: bv8, input: bytes, length: int)
    requires KindsOf(typeCode, flags).Some?
    ensures var head := ReadFields(KindsOf(typeCode, flags).value, input, length);
            head.Err? || typeCode != CONNECT ==> ReadBody(typeCode, flags, input, length) == head
  {
    hide KindsOf, ReadFields, TailOf;
  }

  lemma HeadAndTail(flags: bv8, input: bytes, length: int)
    requires KindsOf(CONNECT, flags).Some? && ReadFields(KindsOf(CONNECT, flags).value, input, length).Ok?
    ensures var head := ReadFields(KindsOf(CONNECT, flags).value, input, length).value;
            var tail := ReadFields(TailOf(CONNECT, head.0), input[head.1..], length - head.1);
            && (tail.Err? ==> ReadBody(CONNECT, flags, input, length) == tail)
            && (tail.Ok? ==> head.1 + tail.value.1 <= |input|
                             && ReadBody(CONNECT, flags, input, length) == Ok((head.0 + tail.value.0, head.1 + tail.value.1))
                             && input[head.1..][tail.value.1..] == input[head.1 + tail.value.1..])
  {
    hide KindsOf, ReadFields, TailOf;
  }

  lemma ReadableNext(packets: seq<Packet>, input: bytes)
    ensures packets + Readable(input) ==
            if ReadPacket(input).Ok? then packets + [ReadPacket(input).value.0] + Readable(input[ReadPacket(input).value.1..])
            else packets
  {
    hide ReadPacket;
  }

  /** The packets at the start of a stream. */
  function Readable(input: bytes): seq<Packet>
    decreases |input|
  {
    var first := ReadPacket(input);
    if first.Ok? then [first.value.0] + Readable(input[first.value.1..]) else []
  }

  lemma {:induction false} ReadableStream(input: bytes)
    requires ReadStream(input).Ok?
    ensures Readable(input) == ReadStream(input).value
    decreases |input|
  {
    hide ReadPacket;
    if input == [] {
      NothingReadable();
    } else {
      ReadableStream(input[ReadPacket(input).value.1..]);
    }
  }

  lemma NothingReadable()
    ensures Readable([]) == []
  {
  }

  /**
   PUBLISH packets over a WebSocket: whenever their bytes are what the frames make available, however they are cut, masked
   and interleaved with pings and pongs, a read loop on the other end reads them, packet by packet and field by field.
   */
  lemma PublishOverWebSocket(publishes: seq<PublishPacket>, wires: seq<Wire>, c: Connection)
    requires forall p :: p in publishes ==> Publishable(p)
    requires AllLegal(wires) && Available(wires) == Joined(Printed(publishes)) && c.alive && c.input == AllBytes(wires)
    ensures ReadsBack(publishes, Readable(Drained(c, [])))
  {
    hide ReadStream, FromPacket, NormalPublish, Available, Concat, Drained, Readable;
    DrainedOf(c, wires, []);
    assert [] + Available(wires) == Available(wires);
    PublishStreamRoundTrip(publishes);
    PrintedJoined(ToPackets(publishes));
    ReadableStream(Drained(c, []));
  }

  /** The packets read are these publishes, in order. */
  ghost predicate ReadsBack(publishes: seq<PublishPacket>, packets: seq<Packet>) {
    |packets| == |publishes| && forall i :: 0 <= i < |publishes| ==> FromPacket(packets[i]) == Some(NormalPublish(publishes[i]))
  }

  /** The frames this handler sends, with pings and pongs anywhere between them. */
  lemma PublishFromHandler(publishes: seq<PublishPacket>, wires: seq<Wire>, c: Connection)
    requires forall p :: p in publishes ==> Publishable(p)
    requires AllLegal(wires) && WithoutControl(wires) == Sent(Printed(publishes)) && c.alive && c.input == AllBytes(wires)
    ensures ReadsBack(publishes, Readable(Drained(c, [])))
  {
    hide ReadsBack, Available, Drained, Readable, Sent, AllBytes, Legal, WithoutControl;
    ControlIsNoise(wires);
    SentAvailable(Printed(publishes));
    PublishOverWebSocket(publishes, wires, c);
  }

  /** The frames a client sends: each packet as one message, masked, cut and interleaved with pings and pongs as it likes. */
  lemma PublishFromClient(publishes: seq<PublishPacket>, groups: seq<seq<Wire>>, c: Connection)
    requires forall p :: p in publishes ==> Publishable(p)
    requires |groups| == |publishes| && forall i :: 0 <= i < |groups| ==> Carries(groups[i], Printed(publishes)[i])
    requires AllLegal(Chain(groups)) && c.alive && c.input == AllBytes(Chain(groups))
    ensures ReadsBack(publishes, Readable(Drained(c, [])))
  {
    hide ReadsBack, Available, Drained, Readable, AllBytes, Legal, Carries;
    CarriedAvailable(groups, Printed(publishes));
    PublishOverWebSocket(publishes, Chain(groups), c);
  }

  /** Values so far, and the rest of them. */
  function Linked(values: seq<Value>, count: nat, rest: Result<(seq<Value>, nat)>): Result<(seq<Value>, nat)> {
    if rest.Ok? then Ok((values + rest.value.0, count + rest.value.1)) else rest
  }

  lemma LinkedEmpty(rest: Result<(seq<Value>, nat)>)
    ensures Linked([], 0, rest) == rest
  {
    if rest.Ok? {
      assert [] + rest.value.0 == rest.value.0;
    }
  }

  lemma LinkedEnd(values: seq<Value>, count: nat)
    ensures Linked(values, count, Ok(([], 0))) == Ok((values, count))
  {
    assert values + [] == values;
  }

  lemma ListOf(item: Kind, input: bytes, length: int)
    requires IsItem(item)
    ensures ReadField(List(item), input, length) ==
            match ReadItems(item, input, length) case Err(e) => Err(e) case Ok(found) => Ok((ListV(found.0), found.1))
  {
  }

  lemma ItemAny(item: Kind, input: bytes)
    requires IsItem(item)
    ensures ReadItem(item, input) == ReadField(item, input, 0)
    ensures item == Byte ==> ReadItem(item, input) == if input == [] then Err(ConnectionClosed) else Ok((IntV(input[0] as nat), 1))
  {
  }

  lemma ItemsStart(item: Kind, input: bytes, length: int)
    requires IsItem(item)
    ensures Linked([], 0, ReadItems(item, input, length)) == ReadItems(item, input, length)
  {
    LinkedEmpty(ReadItems(item, input, length));
  }

  lemma ItemsStep(item: Kind, values: seq<Value>, count: nat, input: bytes, length: int)
    requires IsItem(item) && length > 0
    ensures Linked(values, count, ReadItems(item, input, length)) ==
            match ReadItem(item, input)
            case Err(e) => Err(e)
            case Ok(first) =>
              Linked(values + [first.0], count + first.1, ReadItems(item, input[first.1..], length - first.1))
  {
    hide ReadItem, ReadField, ReadItems, Linked;
    NextItem(item, input, length);
    var first := ReadItem(item, input);
    if first.Ok? {
      LinkedCons(values, count, first.value, ReadItems(item, input[first.value.1..], length - first.value.1));
    } else {
      LinkedErr(values, count, first.error);
    }
  }

  lemma LinkedErr(values: seq<Value>, count: nat, e: Error)
    ensures Linked(values, count, Err(e)) == Err(e)
  {
  }

  lemma LinkedCons(values: seq<Value>, count: nat, first: (Value, nat), others: Result<(seq<Value>, nat)>)
    ensures Linked(values, count, if others.Err? then Err(others.error)
                                  else Ok(([first.0] + others.value.0, first.1 + others.value.1))) ==
            Linked(values + [first.0], count + first.1, others)
  {
    if others.Ok? {
      assert values + ([first.0] + others.value.0) == (values + [first.0]) + others.value.0;
    }
  }

  lemma ItemsEnd(item: Kind, values: seq<Value>, count: nat, input: bytes, length: int)
    requires IsItem(item) && length <= 0
    ensures Linked(values, count, ReadItems(item, input, length)) == Ok((values, count))
  {
    LinkedEnd(values, count);
  }

  lemma FieldsStart(kinds: seq<Kind>, input: bytes, length: int)
    ensures kinds[0..] == kinds && Linked([], 0, ReadFields(kinds, input, length)) == ReadFields(kinds, input, length)
  {
    LinkedEmpty(ReadFields(kinds, input, length));
  }

  lemma FieldsStep(kinds: seq<Kind>, values: seq<Value>, count: nat, input: bytes, length: int)
    requires kinds != []
    ensures Linked(values, count, ReadFields(kinds, input, length)) ==
            match ReadField(kinds[0], input, length)
            case Err(e) => Err(e)
            case Ok(first) =>
              var left := length - first.1 - if kinds[0].List? then first.1 else 0;
              Linked(values + [first.0], count + first.1, ReadFields(kinds[1..], input[first.1..], left))
  {
    hide ReadField, ReadFields, Linked;
    NextField(kinds, input, length);
    var first := ReadField(kinds[0], input, length);
    if first.Ok? {
      var left := length - first.value.1 - if kinds[0].List? then first.value.1 else 0;
      LinkedCons(values, count, first.value, ReadFields(kinds[1..], input[first.value.1..], left));
    } else {
      LinkedErr(values, count, first.error);
    }
  }

  lemma FieldsEnd(values: seq<Value>, count: nat, input: bytes, length: int)
    ensures Linked(values, count, ReadFields([], input, length)) == Ok((values, count))
  {
    LinkedEnd(values, count);
  }

  function Low(byte: bv8): nat {
    (byte & 0x7F) as nat
  }

  /** The length, with the low bits of the next byte. */
  function Grown(value: nat, byte: bv8, multiplier: nat): nat {
    value + Low(byte) * multiplier
  }

  lemma LengthStart(input: bytes)
    ensures LengthSoFar(0, 1, 0, DecodeLength(input, 0)) == DecodeLength(input, 0) && Multiplier(0) == 1
  {
  }

  lemma NextMultiplier(count: nat)
    requires count <= 3
    ensures if count == 3 then Multiplier(count) * 128 > 128 * 128 * 128
            else Multiplier(count) * 128 <= 128 * 128 * 128 && Multiplier(count) * 128 == Multiplier(count + 1)
  {
  }

  /** One byte of the length, read with the multiplier the loop has reached. */
  lemma LengthStep(value: nat, multiplier: nat, count: nat, input: bytes)
    requires count <= 3
    ensures input == [] ==> LengthSoFar(value, multiplier, count, DecodeLength(input, count)) == Err(ConnectionClosed)
    ensures input != [] ==>
      LengthSoFar(value, multiplier, count, DecodeLength(input, count)) ==
      if input[0] & 0x80 == 0 then Ok((Grown(value, input[0], multiplier), count + 1))
      else if count == 3 then Err(InvalidLength)
      else LengthSoFar(Grown(value, input[0], multiplier), multiplier * 128, count + 1, DecodeLength(input[1..], count + 1))
  {
    hide DecodeLength, Low, Grown;
    LengthNext(input, count);
    if input != [] {
      GrownLow(value, input[0], multiplier);
      if count < 3 && DecodeLength(input[1..], count + 1).Ok? {
        Regroup(value, multiplier, Low(input[0]), DecodeLength(input[1..], count + 1).value.0);
      }
    }
  }

  lemma GrownLow(value: nat, byte: bv8, multiplier: nat)
    ensures Grown(value, byte, multiplier) == value + multiplier * Low(byte)
  {
    hide Low;
  }

  /** The length at its next byte. */
  lemma LengthNext(input: bytes, count: nat)
    requires count <= 3
    ensures input == [] ==> DecodeLength(input, count) == Err(ConnectionClosed)
    ensures input != [] ==>
      DecodeLength(input, count) ==
      if input[0] & 0x80 == 0 then Ok((Low(input[0]), 1))
      else if count == 3 then Err(InvalidLength)
      else
        match DecodeLength(input[1..], count + 1)
        case Err(e) => Err(e)
        case Ok(more) => Ok((Low(input[0]) + 128 * more.0, 1 + more.1))
  {
  }

  lemma Regroup(value: nat, multiplier: nat, low: nat, more: nat)
    ensures value + multiplier * (low + 128 * more) == value + multiplier * low + (multiplier * 128) * more
  {
  }

  function Multiplier(count: nat): nat
    requires count <= 3
  {
    if count == 0 then 1 else if count == 1 then 128 else if count == 2 then 16384 else 2097152
  }

  /** A length so far, and the rest of it. */
  function LengthSoFar(value: nat, multiplier: nat, count: nat, rest: Result<(nat, nat)>): Result<(nat, nat)> {
    if rest.Ok? then Ok((value + multiplier * rest.value.0, count + rest.value.1)) else rest
  }
}
