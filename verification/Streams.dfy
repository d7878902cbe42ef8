/** servers/streams.py and packet/base_packet.py: whole packets on a byte stream. */
module Streams {
  import opened Wrappers
  import opened Bytes
  import opened RemainingLength
  import opened Packets
  import Flags

  datatype Packet = Packet(typeCode: bv8, flags: bv8, values: seq<Value>)

  const CONNECT: bv8 := 0x01
  const PUBLISH: bv8 := 0x03
  const SUBSCRIBE: bv8 := 0x08

  /** QOSFlag.read. */
  function QosBits(flags: bv8): bv8 {
    Flags.Read(Flags.PUBLISH_FLAGS[1], flags).n
  }

  /** The fields of a packet class that are enabled under its flags; CONNECT has more, which TailOf gives. */
  function KindsOf(typeCode: bv8, flags: bv8): Option<seq<Kind>> {
    match typeCode
    case 0x01 => Some([Str, Byte, Byte, Id, Str])
    case 0x03 => Some(if QosBits(flags) > 0 then [Str, Id, Rest] else [Str, Rest])
    case 0x04 => Some([Id])
    case 0x05 => Some([Id])
    case 0x06 => Some([Id])
    case 0x07 => Some([Id])
    case 0x08 => Some([Id, List(Request)])
    case 0x09 => Some([Id, List(Byte)])
    case 0x0A => Some([Id, List(Str)])
    case 0x0B => Some([Id])
    case 0x02 => Some([Byte, Byte])
    case 0x0C => Some([])
    case 0x0D => Some([])
    case 0x0F => Some([])
    case _ => None
  }

  /** The optional fields of a CONNECT: enable_last_will, enable_username and enable_password of its flags byte. */
  function ConnectTail(connectFlags: bv8): seq<Kind> {
    (if Flags.Read(Flags.CONNECT_FLAGS[1], connectFlags).on then [Str, Str] else []) +
    (if Flags.Read(Flags.CONNECT_FLAGS[4], connectFlags).on then [Str] else []) +
    (if Flags.Read(Flags.CONNECT_FLAGS[3], connectFlags).on then [Str] else [])
  }

  /** The fields that what was read first enables. */
  function TailOf(typeCode: bv8, values: seq<Value>): seq<Kind> {
    if typeCode == CONNECT && |values| > 2 && values[2].IntV? && values[2].n < 256 then ConnectTail(values[2].n as bv8) else []
  }

  function AllKinds(p: Packet): seq<Kind>
    requires KindsOf(p.typeCode, p.flags).Some?
  {
    KindsOf(p.typeCode, p.flags).value + TailOf(p.typeCode, p.values)
  }

  predicate Printable(p: Packet) {
    && p.typeCode < 16 && p.flags < 16 && KindsOf(p.typeCode, p.flags).Some?
    && FieldsFit(AllKinds(p), p.values) && |FieldsBytes(AllKinds(p), p.values)| < LIMIT
  }

  function PayloadBytes(p: Packet): bytes
    requires Printable(p)
  {
    FieldsBytes(AllKinds(p), p.values)
  }

  function PacketBytes(p: Packet): bytes
    requires Printable(p)
  {
    [(p.typeCode << 4) | p.flags] + EncodeLength(|PayloadBytes(p)|) + PayloadBytes(p)
  }

  /** read_payload of a packet class. */
  function ReadBody(typeCode: bv8, flags: bv8, input: bytes, length: int): (r: Result<(seq<Value>, nat)>)
    requires KindsOf(typeCode, flags).Some?
    ensures r.Ok? ==> r.value.1 <= |input|
  {
    var head :- ReadFields(KindsOf(typeCode, flags).value, input, length);
    if typeCode != CONNECT then Ok(head)
    else
      var tail :- ReadFields(TailOf(typeCode, head.0), input[head.1..], length - head.1);
      Ok((head.0 + tail.0, head.1 + tail.1))
  }

  /** decode_header, the packet class, decode_packet_length, read_payload. */
  function ReadPacket(input: bytes): (r: Result<(Packet, nat)>)
    ensures r.Ok? ==> 0 < r.value.1 <= |input|
  {
    if input == [] then Err(ConnectionClosed)
    else
      var typeCode, flags := (input[0] & 0xF0) >> 4, input[0] & 0x0F;
      if KindsOf(typeCode, flags) == None then Err(UnknownPacket)
      else
        var length :- DecodeLength(input[1..], 0);
        var fields :- ReadBody(typeCode, flags, input[1 + length.1..], length.0);
        Ok((Packet(typeCode, flags, fields.0), 1 + length.1 + fields.1))
  }

  function NormalPacket(p: Packet): Packet {
    p.(values := NormalAll(p.values))
  }

  function NormalPackets(packets: seq<Packet>): seq<Packet> {
    seq(|packets|, i requires 0 <= i < |packets| => NormalPacket(packets[i]))
  }

  lemma KindsGreedyLast(typeCode: bv8, flags: bv8)
    requires KindsOf(typeCode, flags).Some?
    ensures GreedyLast(KindsOf(typeCode, flags).value)
  {
  }

  lemma HeaderByte(typeCode: bv8, flags: bv8)
    requires typeCode < 16 && flags < 16
    ensures (((typeCode << 4) | flags) & 0xF0) >> 4 == typeCode
    ensures ((typeCode << 4) | flags) & 0x0F == flags
  {
  }

  lemma ConnectKinds(flags: bv8, connectFlags: bv8)
    ensures KindsOf(CONNECT, flags).Some? && |KindsOf(CONNECT, flags).value| == 5 && KindsOf(CONNECT, flags).value[2] == Byte
    ensures Budgetless(KindsOf(CONNECT, flags).value) && Budgetless(ConnectTail(connectFlags))
  {
  }

  lemma ConnectBody(flags: bv8, input: bytes, length: int, h: seq<Value>, t: seq<Value>, n: nat, m: nat)
    requires KindsOf(CONNECT, flags).Some? && n <= |input|
    requires ReadFields(KindsOf(CONNECT, flags).value, input, length) == Ok((h, n))
    requires ReadFields(TailOf(CONNECT, h), input[n..], length - n) == Ok((t, m))
    ensures ReadBody(CONNECT, flags, input, length) == Ok((h + t, n + m))
  {
    hide KindsOf, ReadFields, TailOf;
  }

  /** A CONNECT's fields, split where the optional ones begin. */
  lemma ConnectSplit(p: Packet)
    requires Printable(p) && p.typeCode == CONNECT
    ensures KindsOf(CONNECT, p.flags).Some?
    ensures var head, tail := KindsOf(p.typeCode, p.flags).value, TailOf(p.typeCode, p.values);
            && |head| == 5 <= |p.values| && TailOf(p.typeCode, p.values[..5]) == tail && AllKinds(p) == head + tail
            && Budgetless(head) && Budgetless(tail) && Budgetless(AllKinds(p)) && FieldsFit(AllKinds(p), p.values)
  {
    hide KindsOf, FieldsBytes, Packets.Fits, ConnectTail;
    ConnectKinds(p.flags, 0);
    if TailOf(p.typeCode, p.values) != [] {
      ConnectKinds(p.flags, p.values[2].n as bv8);
    }
  }

  /** The optional fields of a CONNECT are found by the flags that were read before them. */
  lemma ConnectRoundTrip(p: Packet, rest: bytes)
    requires Printable(p) && p.typeCode == CONNECT
    ensures ReadBody(p.typeCode, p.flags, PayloadBytes(p) + rest, |PayloadBytes(p)|) == Ok((p.values, |PayloadBytes(p)|))
    ensures NormalAll(p.values) == p.values
  {
    hide KindsOf, ReadFields, FieldsBytes, NormalAll, FieldsFit, Budgetless, TailOf, AllKinds, ReadBody, Printable;
    ConnectSplit(p);
    var head, tail := KindsOf(p.typeCode, p.flags).value, TailOf(p.typeCode, p.values);
    NormalIsPlain(AllKinds(p), p.values);
    FieldsAppend(head, tail, p.values);
    var h, t := p.values[..5], p.values[5..];
    TwoReads(head, tail, h, t, rest, |PayloadBytes(p)|);
    ConnectBody(p.flags, PayloadBytes(p) + rest, |PayloadBytes(p)|, h, t, |FieldsBytes(head, h)|, |FieldsBytes(tail, t)|);
    assert h + t == p.values;
  }

  lemma BodyRoundTrip(p: Packet, rest: bytes)
    requires Printable(p)
    ensures ReadBody(p.typeCode, p.flags, PayloadBytes(p) + rest, |PayloadBytes(p)|) == Ok((NormalAll(p.values), |PayloadBytes(p)|))
  {
    hide KindsOf, ReadFields, FieldsBytes, NormalAll;
    if p.typeCode == CONNECT {
      ConnectRoundTrip(p, rest);
    } else {
      var kinds := KindsOf(p.typeCode, p.flags).value;
      assert kinds + [] == kinds;
      KindsGreedyLast(p.typeCode, p.flags);
      FieldsRoundTrip(kinds, p.values, rest);
    }
  }

  /** A packet parses back from its bytes, whatever follows, and takes exactly those bytes. */
  lemma PacketRoundTrip(p: Packet, rest: bytes)
    requires Printable(p)
    ensures ReadPacket(PacketBytes(p) + rest) == Ok((NormalPacket(p), |PacketBytes(p)|))
  {
    hide KindsOf, EncodeLength, DecodeLength, PayloadBytes, ReadBody, Printable, NormalAll;
    var payload := PayloadBytes(p);
    SmallPayload(p);
    var length := EncodeLength(|payload|);
    var input := PacketBytes(p) + rest;
    HeaderByte(p.typeCode, p.flags);
    assert input[1..] == length + (payload + rest);
    LengthRoundTrip(|payload|, payload + rest);
    assert input[1 + |length|..] == payload + rest;
    BodyRoundTrip(p, rest);
  }

  lemma SmallPayload(p: Packet)
    requires Printable(p)
    ensures |PayloadBytes(p)| < LIMIT && p.typeCode < 16 && p.flags < 16 && KindsOf(p.typeCode, p.flags).Some?
  {
  }

  function Concat(packets: seq<Packet>): bytes
    requires forall p :: p in packets ==> Printable(p)
  {
    if packets == [] then [] else PacketBytes(packets[0]) + Concat(packets[1..])
  }

  /** The read loop on a finite stream: packet after packet, until it ends or fails. */
  function ReadStream(input: bytes): Result<seq<Packet>>
    decreases |input|
  {
    if input == [] then Ok([])
    else
      var first :- ReadPacket(input);
      var others :- ReadStream(input[first.1..]);
      Ok([first.0] + others)
  }

  /** Every list of printable packets parses back from the concatenation of their bytes. */
  lemma {:induction false} StreamRoundTrip(packets: seq<Packet>)
    requires forall p :: p in packets ==> Printable(p)
    ensures ReadStream(Concat(packets)) == Ok(NormalPackets(packets))
  {
    hide PacketBytes, ReadPacket, Printable, NormalPacket;
    if packets != [] {
      assert packets[0] in packets && forall p :: p in packets[1..] ==> p in packets;
      PacketRoundTrip(packets[0], Concat(packets[1..]));
      StreamRoundTrip(packets[1..]);
      NotEmpty(packets[0]);
      assert Concat(packets)[|PacketBytes(packets[0])|..] == Concat(packets[1..]);
      assert [NormalPacket(packets[0])] + NormalPackets(packets[1..]) == NormalPackets(packets);
    }
  }

  lemma NotEmpty(p: Packet)
    requires Printable(p)
    ensures |PacketBytes(p)| > 0
  {
  }

  // ---------------------------------------------------------------- a stream cut short

  lemma TakeMore(input: bytes, more: bytes, n: nat)
    requires Take(input, n).Ok?
    ensures Take(input + more, n) == Take(input, n) && (input + more)[n..] == input[n..] + more
  {
    assert (input + more)[..n] == input[..n];
  }

  lemma AfterMore(input: bytes, more: bytes, n: nat)
    requires n <= |input|
    ensures (input + more)[n..] == input[n..] + more
  {
  }

  lemma StringMore(input: bytes, more: bytes)
    requires ReadField(Str, input, 0).Ok?
    ensures ReadField(Str, input + more, 0) == ReadField(Str, input, 0)
  {
    hide Unpack16;
    TakeMore(input, more, 2);
    TakeMore(input[2..], more, Unpack16(input[..2]));
  }

  lemma RequestMore(input: bytes, more: bytes)
    requires ReadField(Request, input, 0).Ok?
    ensures ReadField(Request, input + more, 0) == ReadField(Request, input, 0)
  {
    hide Unpack16;
    var n := Unpack16(input[..2]);
    TakeMore(input, more, 2);
    TakeMore(input[2..], more, n);
    AfterMore(input, more, 2 + n);
    TakeMore(input[2 + n..], more, 1);
  }

  /** Only the end of the bytes stops the reading of a field or of the items of a list. */
  lemma {:induction false} OnlyTheEnd(kind: Kind, input: bytes, length: int)
    ensures ReadField(kind, input, length).Err? ==> ReadField(kind, input, length).error == ConnectionClosed
    ensures IsItem(kind) && ReadItems(kind, input, length).Err? ==> ReadItems(kind, input, length).error == ConnectionClosed
    decreases kind, length
  {
    hide Unpack16;
    if kind.List? && IsItem(kind.item) {
      OnlyTheEnd(kind.item, input, length);
    } else if IsItem(kind) && length > 0 {
      var first := ReadItem(kind, input);
      if first.Ok? {
        OnlyTheEnd(kind, input[first.value.1..], length - first.value.1);
      }
    }
  }

  /** What was read of a field is what is read of it with more bytes behind. */
  lemma ItemMore(item: Kind, input: bytes, more: bytes)
    requires IsItem(item) && ReadItem(item, input).Ok?
    ensures ReadItem(item, input + more) == ReadItem(item, input)
  {
    match item
    case Str => StringMore(input, more);
    case Request => RequestMore(input, more);
    case Byte => TakeMore(input, more, 1);
  }

  lemma {:induction false} ItemsMore(item: Kind, input: bytes, length: int, more: bytes)
    requires IsItem(item) && ReadItems(item, input, length).Ok?
    ensures ReadItems(item, input + more, length) == ReadItems(item, input, length)
    decreases length
  {
    hide ReadItem, ReadItems;
    NextItem(item, input, length);
    NextItem(item, input + more, length);
    if length > 0 {
      ItemMore(item, input, more);
      var n := ReadItem(item, input).value.1;
      AfterMore(input, more, n);
      ItemsMore(item, input[n..], length - n, more);
    }
  }

  lemma NextItem(item: Kind, input: bytes, length: int)
    requires IsItem(item)
    ensures length <= 0 ==> ReadItems(item, input, length) == Ok(([], 0))
    ensures length > 0 ==>
              var first := ReadItem(item, input);
              && (first.Err? ==> ReadItems(item, input, length) == Err(first.error))
              && (first.Ok? ==>
                    var others := ReadItems(item, input[first.value.1..], length - first.value.1);
                    ReadItems(item, input, length) ==
                    if others.Err? then Err(others.error)
                    else Ok(([first.value.0] + others.value.0, first.value.1 + others.value.1)))
  {
    hide ReadItem;
  }

  lemma FieldMore(kind: Kind, input: bytes, length: int, more: bytes)
    requires ReadField(kind, input, length).Ok?
    ensures ReadField(kind, input + more, length) == ReadField(kind, input, length)
  {
    hide ReadItems, Unpack16;
    match kind
    case Str => StringMore(input, more);
    case Request => RequestMore(input, more);
    case Byte => TakeMore(input, more, 1);
    case Id => TakeMore(input, more, 2);
    case Rest =>
      if length >= 1 {
        TakeMore(input, more, length);
      }
    case List(item) =>
      if IsItem(item) {
        ItemsMore(item, input, length, more);
      }
  }

  lemma {:induction false} FieldsMore(kinds: seq<Kind>, input: bytes, length: int, more: bytes)
    ensures var r := ReadFields(kinds, input, length);
            if r.Ok? then ReadFields(kinds, input + more, length) == r && (input + more)[r.value.1..] == input[r.value.1..] + more
            else r.error == ConnectionClosed
    decreases |kinds|
  {
    hide ReadField, ReadFields;
    NextField(kinds, input, length);
    NextField(kinds, input + more, length);
    if kinds != [] {
      var field := ReadField(kinds[0], input, length);
      OnlyTheEnd(kinds[0], input, length);
      if field.Ok? {
        var n := field.value.1;
        FieldMore(kinds[0], input, length, more);
        AfterMore(input, more, n);
        FieldsMore(kinds[1..], input[n..], length - n - if kinds[0].List? then n else 0, more);
      }
    }
    if ReadFields(kinds, input, length).Ok? {
      AfterMore(input, more, ReadFields(kinds, input, length).value.1);
    }
  }

  lemma NextField(kinds: seq<Kind>, input: bytes, length: int)
    ensures kinds == [] ==> ReadFields(kinds, input, length) == Ok(([], 0))
    ensures kinds != [] ==>
              var first := ReadField(kinds[0], input, length);
              && (first.Err? ==> ReadFields(kinds, input, length) == Err(first.error))
              && (first.Ok? ==>
                    var n := first.value.1;
                    var others := ReadFields(kinds[1..], input[n..], length - n - if kinds[0].List? then n else 0);
                    ReadFields(kinds, input, length) ==
                    if others.Err? then Err(others.error) else Ok(([first.value.0] + others.value.0, n + others.value.1)))
  {
    hide ReadField;
  }

  lemma BodyMore(typeCode: bv8, flags: bv8, input: bytes, length: int, more: bytes)
    requires KindsOf(typeCode, flags).Some?
    ensures var r := ReadBody(typeCode, flags, input, length);
            if r.Ok? then ReadBody(typeCode, flags, input + more, length) == r else r.error == ConnectionClosed
  {
    hide ReadFields, KindsOf, TailOf;
    var kinds := KindsOf(typeCode, flags).value;
    FieldsMore(kinds, input, length, more);
    var head := ReadFields(kinds, input, length);
    if head.Ok? && typeCode == CONNECT {
      FieldsMore(TailOf(typeCode, head.value.0), input[head.value.1..], length - head.value.1, more);
    }
  }

  lemma {:induction false} LengthMore(input: bytes, i: nat, more: bytes)
    ensures var r := DecodeLength(input, i);
            r.Ok? || r.error != ConnectionClosed ==>
              DecodeLength(input + more, i) == r && (r.Ok? ==> (input + more)[r.value.1..] == input[r.value.1..] + more)
    decreases |input|
  {
    if input != [] {
      assert (input + more)[1..] == input[1..] + more;
      LengthMore(input[1..], i + 1, more);
    }
  }

  lemma PacketMore(input: bytes, more: bytes)
    ensures var r := ReadPacket(input);
            r.Ok? || r.error != ConnectionClosed ==> ReadPacket(input + more) == r
  {
    hide KindsOf, DecodeLength, ReadBody;
    if input != [] {
      AfterMore(input, more, 1);
      LengthMore(input[1..], 0, more);
      var length := DecodeLength(input[1..], 0);
      if length.Ok? {
        AfterMore(input, more, 1 + length.value.1);
        PacketTail((input[0] & 0xF0) >> 4, input[0] & 0x0F, input[1 + length.value.1..], length.value.0, more);
      }
    }
  }

  lemma PacketTail(typeCode: bv8, flags: bv8, input: bytes, length: int, more: bytes)
    ensures KindsOf(typeCode, flags).Some? ==>
              var r := ReadBody(typeCode, flags, input, length);
              if r.Ok? then ReadBody(typeCode, flags, input + more, length) == r else r.error == ConnectionClosed
  {
    hide KindsOf, ReadBody;
    if KindsOf(typeCode, flags).Some? {
      BodyMore(typeCode, flags, input, length, more);
    }
  }

  /** A packet that is cut short anywhere is never misread: all that is found is that the connection is gone. */
  lemma CutShort(p: Packet, k: nat)
    requires Printable(p) && k < |PacketBytes(p)|
    ensures ReadPacket(PacketBytes(p)[..k]) == Err(ConnectionClosed)
  {
    hide ReadPacket, PacketBytes, Printable;
    var whole := PacketBytes(p);
    assert whole[..k] + whole[k..] == whole && whole + [] == whole;
    PacketMore(whole[..k], whole[k..]);
    PacketRoundTrip(p, []);
  }

  // ---------------------------------------------------------------- PUBLISH

  datatype PublishPacket = PublishPacket(retain: bool, qos: bv8, topic: bytes, id: Option<nat>, data: Option<bytes>)

  function PublishSettings(retain: bool, qos: bv8): (settings: seq<Flags.Setting>)
    requires qos <= 2
    ensures Flags.AllFit(Flags.PUBLISH_FLAGS, settings)
  {
    [Flags.On(retain), Flags.Amount(qos)]
  }

  function FlagBits(retain: bool, qos: bv8): bv8
    requires qos <= 2
  {
    Flags.Packed(Flags.PUBLISH_FLAGS, PublishSettings(retain, qos))
  }

  function RetainBit(flags: bv8): bool {
    Flags.Read(Flags.PUBLISH_FLAGS[0], flags).on
  }

  /** The retain flag and the qos come back from the header's low four bits. */
  lemma FlagsRoundTrip(retain: bool, qos: bv8)
    requires qos <= 2
    ensures RetainBit(FlagBits(retain, qos)) == retain && QosBits(FlagBits(retain, qos)) == qos
    ensures FlagBits(retain, qos) < 16
  {
    Flags.GroupsDisjoint();
    Flags.FlagsUnpack(Flags.PUBLISH_FLAGS, PublishSettings(retain, qos), 0);
    Flags.FlagsUnpack(Flags.PUBLISH_FLAGS, PublishSettings(retain, qos), 1);
    FlagsLow(retain, qos);
  }

  lemma FlagsLow(retain: bool, qos: bv8)
    requires qos <= 2
    ensures FlagBits(retain, qos) < 16
  {
    var flags, settings := Flags.PUBLISH_FLAGS, PublishSettings(retain, qos);
    assert flags[..1] == [flags[0]] && settings[..1] == [settings[0]];
    assert Flags.Packed([], []) == 0;
    assert flags[..1][..0] == [] && settings[..1][..0] == [];
    assert Flags.Packed(flags[..1], settings[..1]) == if retain then 1 else 0;
    assert qos << 1 < 8;
  }

  /** The packets section 3.3 of MQTT 3.1.1 allows: an id exactly when qos is above 0, and a body below the limit. */
  predicate Publishable(p: PublishPacket) {
    && p.qos <= 2 && |p.topic| < 65536
    && (p.id.Some? <==> p.qos > 0) && (p.id.Some? ==> p.id.value < 65536)
    && 2 + |p.topic| + (if p.id.Some? then 2 else 0) + |p.data.GetOr([])| < LIMIT
  }

  function ToPacket(p: PublishPacket): Packet
    requires Publishable(p)
  {
    Packet(PUBLISH, FlagBits(p.retain, p.qos),
           [StrV(p.topic)] + (if p.id.Some? then [IntV(p.id.value)] else []) + [RestV(p.data)])
  }

  function ToPackets(publishes: seq<PublishPacket>): seq<Packet>
    requires forall p :: p in publishes ==> Publishable(p)
  {
    seq(|publishes|, i requires 0 <= i < |publishes| && publishes[i] in publishes => ToPacket(publishes[i]))
  }

  function FromPacket(p: Packet): Option<PublishPacket> {
    var retain, qos := RetainBit(p.flags), QosBits(p.flags);
    if p.typeCode != PUBLISH then None
    else if |p.values| == 2 && p.values[0].StrV? && p.values[1].RestV? then
      Some(PublishPacket(retain, qos, p.values[0].s, None, p.values[1].data))
    else if |p.values| == 3 && p.values[0].StrV? && p.values[1].IntV? && p.values[2].RestV? then
      Some(PublishPacket(retain, qos, p.values[0].s, Some(p.values[1].n), p.values[2].data))
    else None
  }

  /** A PUBLISH as its reader sees it: empty data is None. */
  function NormalPublish(p: PublishPacket): PublishPacket {
    if p.data == Some([]) then p.(data := None) else p
  }

  /** The fields of a PUBLISH fit its class, and their bytes add up to its body. */
  lemma PublishFields(p: PublishPacket)
    requires Publishable(p)
    ensures var packet := ToPacket(p); var kinds := KindsOf(PUBLISH, packet.flags);
            && kinds.Some? && FieldsFit(kinds.value, packet.values) && |FieldsBytes(kinds.value, packet.values)| < LIMIT
            && NormalAll(packet.values) == ToPacket(NormalPublish(p)).values
  {
    hide FieldsBytes, NormalAll, QosBits, RetainBit, FlagBits, FieldsFit;
    FlagsRoundTrip(p.retain, p.qos);
    if p.id.Some? {
      ThreeFields(StrV(p.topic), IntV(p.id.value), RestV(p.data));
      assert ToPacket(p).values == [StrV(p.topic), IntV(p.id.value), RestV(p.data)];
    } else {
      TwoFields(StrV(p.topic), RestV(p.data));
      assert ToPacket(p).values == [StrV(p.topic), RestV(p.data)];
    }
  }

  lemma TwoFields(topic: Value, rest: Value)
    requires Packets.Fits(Str, topic) && Packets.Fits(Rest, rest)
    ensures FieldsFit([Str, Rest], [topic, rest])
    ensures |FieldsBytes([Str, Rest], [topic, rest])| == |FieldBytes(Str, topic)| + |FieldBytes(Rest, rest)|
    ensures NormalAll([topic, rest]) == [Normal(topic), Normal(rest)]
  {
    hide FieldsBytes, NormalAll, Normal, FieldBytes, Packets.Fits;
    NoFields();
    FieldsCons(Rest, [], rest, []);
    FieldsCons(Str, [Rest], topic, [rest]);
    assert [Rest] + [] == [Rest] && [rest] + [] == [rest] && [Normal(rest)] + [] == [Normal(rest)];
    assert [Str] + [Rest] == [Str, Rest] && [topic] + [rest] == [topic, rest];
  }

  lemma ThreeFields(topic: Value, id: Value, rest: Value)
    requires Packets.Fits(Str, topic) && Packets.Fits(Id, id) && Packets.Fits(Rest, rest)
    ensures FieldsFit([Str, Id, Rest], [topic, id, rest])
    ensures |FieldsBytes([Str, Id, Rest], [topic, id, rest])| ==
            |FieldBytes(Str, topic)| + |FieldBytes(Id, id)| + |FieldBytes(Rest, rest)|
    ensures NormalAll([topic, id, rest]) == [Normal(topic), Normal(id), Normal(rest)]
  {
    hide FieldsBytes, NormalAll, Normal, FieldBytes, Packets.Fits;
    NoFields();
    FieldsCons(Rest, [], rest, []);
    FieldsCons(Id, [Rest], id, [rest]);
    FieldsCons(Str, [Id, Rest], topic, [id, rest]);
    assert [Rest] + [] == [Rest] && [rest] + [] == [rest] && [Normal(rest)] + [] == [Normal(rest)];
    assert [Id] + [Rest] == [Id, Rest] && [id] + [rest] == [id, rest];
    assert [Str] + [Id, Rest] == [Str, Id, Rest] && [topic] + [id, rest] == [topic, id, rest];
  }

  lemma NoFields()
    ensures FieldsBytes([], []) == [] && NormalAll([]) == []
  {
  }

  lemma PublishPrintable(p: PublishPacket)
    requires Publishable(p)
    ensures Printable(ToPacket(p)) && FromPacket(NormalPacket(ToPacket(p))) == Some(NormalPublish(p))
  {
    hide FieldsBytes, NormalAll, QosBits, RetainBit, FlagBits, KindsOf;
    PublishFields(p);
    var kinds := KindsOf(PUBLISH, FlagBits(p.retain, p.qos)).value;
    assert kinds + [] == kinds;
    FlagsRoundTrip(p.retain, p.qos);
  }

  lemma AllPrintable(publishes: seq<PublishPacket>)
    requires forall p :: p in publishes ==> Publishable(p)
    ensures forall p :: p in ToPackets(publishes) ==> Printable(p)
  {
    hide Printable, ToPacket, Publishable;
    forall i | 0 <= i < |publishes|
      ensures Printable(ToPackets(publishes)[i])
    {
      assert publishes[i] in publishes;
      PublishPrintable(publishes[i]);
    }
  }

  lemma FieldsCons(kind: Kind, kinds: seq<Kind>, v: Value, values: seq<Value>)
    requires Packets.Fits(kind, v) && FieldsFit(kinds, values)
    ensures FieldsFit([kind] + kinds, [v] + values)
    ensures |FieldsBytes([kind] + kinds, [v] + values)| == |FieldBytes(kind, v)| + |FieldsBytes(kinds, values)|
    ensures NormalAll([v] + values) == [Normal(v)] + NormalAll(values)
  {
    assert ([kind] + kinds)[1..] == kinds && ([v] + values)[1..] == values;
  }

  /**
   PUBLISH stream round trip: the bytes of any list of PUBLISH packets, end to end, parse back to the same
   list, empty data read as None.
   */
  lemma PublishStreamRoundTrip(publishes: seq<PublishPacket>)
    requires forall p :: p in publishes ==> Publishable(p)
    ensures var packets := ToPackets(publishes);
            && (forall p :: p in packets ==> Printable(p))
            && ReadStream(Concat(packets)).Ok?
            && |ReadStream(Concat(packets)).value| == |publishes|
            && forall i :: 0 <= i < |publishes| ==>
                 FromPacket(ReadStream(Concat(packets)).value[i]) == Some(NormalPublish(publishes[i]))
  {
    hide Printable, FromPacket, ToPacket, NormalPacket;
    var packets := ToPackets(publishes);
    forall i | 0 <= i < |publishes|
      ensures Printable(packets[i]) && FromPacket(NormalPacket(packets[i])) == Some(NormalPublish(publishes[i]))
    {
      assert publishes[i] in publishes;
      PublishPrintable(publishes[i]);
    }
    StreamRoundTrip(packets);
  }

  // ---------------------------------------------------------------- the code

  lemma {:induction false} FieldsSnoc(kinds: seq<Kind>, values: seq<Value>)
    requires kinds != [] && FieldsFit(kinds, values)
    ensures var n := |kinds| - 1;
            FieldsBytes(kinds, values) == FieldsBytes(kinds[..n], values[..n]) + FieldBytes(kinds[n], values[n])
    decreases |kinds|
  {
    hide FieldBytes, Packets.Fits;
    var n := |kinds| - 1;
    if n > 0 {
      FieldsSnoc(kinds[1..], values[1..]);
      assert kinds[1..][..n - 1] == kinds[..n][1..] && values[1..][..n - 1] == values[..n][1..];
    }
  }

  /** What to_bytes can print: flag groups inside a payload, and requests, have no printer here. */
  predicate Writable(p: Packet)
    requires Printable(p)
  {
    p.typeCode != CONNECT && (p.typeCode == SUBSCRIBE ==> p.values[1].items == [])
  }

  /** Whatever the broker writes has a printer: every class but CONNECT and SUBSCRIBE. */
  lemma ServerWrites(p: Packet)
    requires Printable(p)
    ensures p.typeCode != 0x01 && p.typeCode != 0x08 ==> Writable(p)
    ensures p.typeCode == 0x01 ==> !Writable(p)
    ensures p.typeCode == 0x08 ==> p.values[1].ListV? && (Writable(p) <==> p.values[1].items == [])
  {
    hide FieldsBytes;
    if p.typeCode == 0x08 {
      SubscribeItems(p);
    }
  }

  lemma SubscribeItems(p: Packet)
    requires Printable(p) && p.typeCode != CONNECT
    ensures AllKinds(p) == KindsOf(p.typeCode, p.flags).value
    ensures forall i :: 0 <= i < |AllKinds(p)| && AllKinds(p)[i] == List(Request) ==> p.typeCode == SUBSCRIBE && i == 1
    ensures p.typeCode == SUBSCRIBE ==> AllKinds(p) == [Id, List(Request)] && p.values[1].ListV?
  {
    hide FieldsBytes, ConnectTail;
    var kinds := KindsOf(p.typeCode, p.flags).value;
    assert kinds + [] == kinds;
    if p.typeCode == SUBSCRIBE {
      assert Packets.Fits(kinds[1], p.values[1]);
    }
  }

  /**
   Packet.to_bytes: the enabled fields' bytes, behind a header that announces their length. It fails at a flag group
   and at a list of requests that is not empty, which only clients write.
   */
  method ToBytes(p: Packet) returns (r: Result<bytes>)
    requires Printable(p)
    ensures r == if Writable(p) then Ok(PacketBytes(p)) else Err(NotWritable)
  {
    hide FieldsBytes, FieldBytes, KindsOf, EncodeLength, Packets.Fits, AllKinds;
    if p.typeCode == CONNECT {
      return Err(NotWritable);
    }
    var kinds := AllKinds(p);
    SubscribeItems(p);
    var payload: bytes := [];
    NoFields();
    for i := 0 to |kinds|
      invariant payload == FieldsBytes(kinds[..i], p.values[..i])
      invariant i > 1 ==> Writable(p)
    {
      if kinds[i] == List(Request) && p.values[i].items != [] {
        return Err(NotWritable);
      }
      FieldsSnoc(kinds[..i + 1], p.values[..i + 1]);
      assert kinds[..i + 1][..i] == kinds[..i] && p.values[..i + 1][..i] == p.values[..i];
      payload := payload + FieldBytes(kinds[i], p.values[i]);
    }
    assert kinds[..|kinds|] == kinds && p.values[..|kinds|] == p.values;
    var header := GetHeaderBytes(p.typeCode, p.flags, |payload|);
    r := Ok(header + payload);
  }
}
