/**
 The bytes themselves, as MQTT 3.1.1 and RFC 6455 write them: what the packet classes, flag groups, lengths and frames
 look like on the wire, without the project's own printers and readers.
 */
module WireFormats {
  import opened Wrappers
  import opened Bytes
  import opened RemainingLength
  import opened Packets
  import opened Streams
  import opened Frames
  import opened WebSockets
  import Flags

  // ---------------------------------------------------------------- flags

  /** Section 3.3.1 of MQTT 3.1.1: RETAIN is bit 0, QoS is bits 2 and 1. */
  lemma PublishFlagBits(flags: bv8)
    ensures RetainBit(flags) <==> flags % 2 == 1
    ensures QosBits(flags) == (flags / 2) % 4
  {
  }

  lemma PublishFlagByte(retain: bool, qos: bv8)
    requires qos <= 2
    ensures FlagBits(retain, qos) == 2 * qos + if retain then 1 else 0
  {
    hide Flags.Up;
    var flags, settings := Flags.PUBLISH_FLAGS, PublishSettings(retain, qos);
    assert flags[..1] == [flags[0]] && settings[..1] == [settings[0]];
    assert flags[..1][..0] == [] && settings[..1][..0] == [];
    assert Flags.Packed([], []) == 0;
    assert Flags.Packed(flags[..1], settings[..1]) == if retain then 1 else 0;
    QosByte(if retain then 1 else 0, qos);
  }

  lemma QosByte(low: bv8, qos: bv8)
    requires low <= 1 && qos <= 2
    ensures (low & !0x06) | Flags.Up(qos, 1) == 2 * qos + low
  {
  }

  /** Sections 3.1.2.4 to 3.1.2.9: the connect flags, each by its bit. */
  lemma ConnectFlagBits(flags: bv8)
    ensures Flags.Read(Flags.CONNECT_FLAGS[0], flags) == Flags.On((flags / 2) % 2 == 1)
    ensures Flags.Read(Flags.CONNECT_FLAGS[1], flags) == Flags.On((flags / 4) % 2 == 1)
    ensures Flags.Read(Flags.CONNECT_FLAGS[5], flags) == Flags.Amount((flags / 8) % 4)
    ensures Flags.Read(Flags.CONNECT_FLAGS[2], flags) == Flags.On((flags / 32) % 2 == 1)
    ensures Flags.Read(Flags.CONNECT_FLAGS[3], flags) == Flags.On((flags / 64) % 2 == 1)
    ensures Flags.Read(Flags.CONNECT_FLAGS[4], flags) == Flags.On(flags / 128 == 1)
  {
  }

  /** Section 3.1.3: bit 2 brings the will's topic and message, bit 7 the user name, bit 6 the password, in this order. */
  lemma ConnectTailBits(flags: bv8)
    ensures ConnectTail(flags) == (if (flags / 4) % 2 == 1 then [Str, Str] else []) + (if flags / 128 == 1 then [Str] else []) +
                                  (if (flags / 64) % 2 == 1 then [Str] else [])
  {
    ConnectFlagBits(flags);
  }

  // ---------------------------------------------------------------- packets

  /** Sections 1.5.2 and 1.5.3: a word has its most significant byte first, a string has its length in front. */
  function Word(n: nat): bytes
    requires n < 65536
  {
    [(n / 256) as bv8, (n % 256) as bv8]
  }

  function Prefixed(s: bytes): bytes
    requires |s| < 65536
  {
    Word(|s|) + s
  }

  predicate Short(strings: seq<bytes>) {
    forall s :: s in strings ==> |s| < 65536
  }

  function AllPrefixed(strings: seq<bytes>): bytes
    requires Short(strings)
  {
    if strings == [] then [] else Prefixed(strings[0]) + AllPrefixed(strings[1..])
  }

  function Strings(strings: seq<bytes>): seq<Value> {
    seq(|strings|, i requires 0 <= i < |strings| => StrV(strings[i]))
  }

  /** A subscribe request: its topic, then its qos. */
  function AllRequests(requests: seq<(bytes, bv8)>): bytes
    requires forall request :: request in requests ==> |request.0| < 65536
  {
    if requests == [] then [] else Prefixed(requests[0].0) + [requests[0].1] + AllRequests(requests[1..])
  }

  function Requests(requests: seq<(bytes, bv8)>): seq<Value> {
    seq(|requests|, i requires 0 <= i < |requests| => RequestV(requests[i].0, requests[i].1 as nat))
  }

  function Codes(codes: bytes): seq<Value> {
    seq(|codes|, i requires 0 <= i < |codes| => IntV(codes[i] as nat))
  }

  /** Section 2.2: type and flags share the first byte; then the remaining length; then the body. */
  function Framed(typeCode: bv8, flags: bv8, body: bytes): bytes {
    [16 * typeCode + flags] + EncodeLength(|body|) + body
  }

  lemma HeaderSum(typeCode: bv8, flags: bv8)
    requires typeCode < 16 && flags < 16
    ensures (typeCode << 4) | flags == 16 * typeCode + flags
  {
  }

  lemma FramedPacket(p: Packet)
    requires Printable(p)
    ensures PacketBytes(p) == Framed(p.typeCode, p.flags, PayloadBytes(p))
  {
    hide EncodeLength, PayloadBytes, Printable;
    SmallPayload(p);
    HeaderSum(p.typeCode, p.flags);
  }

  lemma OneMoreField(kind: Kind, kinds: seq<Kind>, v: Value, values: seq<Value>)
    requires Packets.Fits(kind, v) && FieldsFit(kinds, values)
    ensures FieldsFit([kind] + kinds, [v] + values)
    ensures FieldsBytes([kind] + kinds, [v] + values) == FieldBytes(kind, v) + FieldsBytes(kinds, values)
  {
    assert ([kind] + kinds)[1..] == kinds && ([v] + values)[1..] == values;
  }

  lemma TwoBytes(a: Kind, b: Kind, v: Value, w: Value)
    requires Packets.Fits(a, v) && Packets.Fits(b, w)
    ensures FieldsFit([a, b], [v, w]) && FieldsBytes([a, b], [v, w]) == FieldBytes(a, v) + FieldBytes(b, w)
    ensures FieldsFit([b], [w]) && FieldsBytes([b], [w]) == FieldBytes(b, w)
  {
    hide FieldBytes, FieldsBytes, Packets.Fits;
    NoFields();
    OneMoreField(b, [], w, []);
    OneMoreField(a, [b], v, [w]);
    assert [b] + [] == [b] && [w] + [] == [w] && [a] + [b] == [a, b] && [v] + [w] == [v, w];
    assert FieldBytes(b, w) + [] == FieldBytes(b, w);
  }

  /** PUBACK, PUBREC, PUBREL, PUBCOMP and UNSUBACK: a packet id. */
  lemma AcknowledgementBytes(typeCode: bv8, flags: bv8, id: nat)
    requires typeCode in {0x04, 0x05, 0x06, 0x07, 0x0B} && flags < 16 && id < 65536
    ensures var p := Packet(typeCode, flags, [IntV(id)]);
            Printable(p) && PacketBytes(p) == Framed(typeCode, flags, Word(id))
  {
    hide FieldsBytes, Framed;
    var p := Packet(typeCode, flags, [IntV(id)]);
    assert [Id] + [] == [Id] && AllKinds(p) == [Id];
    NumberBytes(0, id);
    TwoBytes(Id, Id, IntV(id), IntV(id));
    FramedPacket(p);
  }

  /** PINGREQ, PINGRESP and AUTH have no body; a CONNACK has two bytes. */
  lemma BlankBytes(typeCode: bv8, flags: bv8)
    requires typeCode in {0x0C, 0x0D, 0x0F} && flags < 16
    ensures Printable(Packet(typeCode, flags, [])) && PacketBytes(Packet(typeCode, flags, [])) == Framed(typeCode, flags, [])
  {
    var p := Packet(typeCode, flags, []);
    assert AllKinds(p) == [];
    FramedPacket(p);
  }

  lemma ConnackBytes(flags: bv8, session: bv8, code: bv8)
    requires flags < 16
    ensures var p := Packet(0x02, flags, [IntV(session as nat), IntV(code as nat)]);
            Printable(p) && PacketBytes(p) == Framed(0x02, flags, [session, code])
  {
    hide FieldsBytes, Framed;
    var p := Packet(0x02, flags, [IntV(session as nat), IntV(code as nat)]);
    assert [Byte, Byte] + [] == [Byte, Byte] && AllKinds(p) == [Byte, Byte];
    NumberBytes(session, 0);
    NumberBytes(code, 0);
    TwoBytes(Byte, Byte, IntV(session as nat), IntV(code as nat));
    assert [session] + [code] == [session, code];
    FramedPacket(p);
  }

  /** An id, then a list. */
  lemma ListPacket(typeCode: bv8, flags: bv8, item: Kind, id: nat, items: seq<Value>)
    requires (typeCode, item) in {(0x08, Request), (0x09, Byte), (0x0A, Str)} && flags < 16 && id < 65536
    requires (forall x :: x in items ==> Packets.Fits(item, x)) && 2 + |ItemsBytes(item, items)| < LIMIT
    ensures var p := Packet(typeCode, flags, [IntV(id), ListV(items)]);
            Printable(p) && PacketBytes(p) == Framed(typeCode, flags, Word(id) + ItemsBytes(item, items))
  {
    hide FieldsBytes, Framed, ItemsBytes;
    var p := Packet(typeCode, flags, [IntV(id), ListV(items)]);
    var kinds := [Id, List(item)];
    assert kinds + [] == kinds && AllKinds(p) == kinds;
    NumberBytes(0, id);
    TwoBytes(Id, List(item), IntV(id), ListV(items));
    FramedPacket(p);
  }

  lemma {:induction false} CodeItems(codes: bytes)
    ensures (forall x :: x in Codes(codes) ==> Packets.Fits(Byte, x)) && ItemsBytes(Byte, Codes(codes)) == codes
  {
    if codes != [] {
      CodeItems(codes[1..]);
      assert Codes(codes)[1..] == Codes(codes[1..]) && codes == [codes[0]] + codes[1..];
    }
  }

  lemma StringBytes(s: bytes)
    requires |s| < 65536
    ensures Packets.Fits(Str, StrV(s)) && FieldBytes(Str, StrV(s)) == Prefixed(s)
  {
  }

  lemma RequestBytes(request: (bytes, bv8))
    requires |request.0| < 65536
    ensures var v := RequestV(request.0, request.1 as nat);
            Packets.Fits(Request, v) && FieldBytes(Request, v) == Prefixed(request.0) + [request.1]
  {
  }

  lemma OneMoreItem(item: Kind, items: seq<Value>)
    requires items != [] && forall x :: x in items ==> Packets.Fits(item, x)
    ensures ItemsBytes(item, items) == FieldBytes(item, items[0]) + ItemsBytes(item, items[1..])
  {
    hide FieldBytes, Packets.Fits;
  }

  lemma NoItems(item: Kind)
    ensures ItemsBytes(item, []) == []
  {
  }

  lemma {:induction false} StringItems(strings: seq<bytes>)
    requires Short(strings)
    ensures (forall x :: x in Strings(strings) ==> Packets.Fits(Str, x))
    ensures ItemsBytes(Str, Strings(strings)) == AllPrefixed(strings)
  {
    hide FieldBytes, ItemsBytes, Packets.Fits, Prefixed;
    NoItems(Str);
    if strings != [] {
      assert strings[0] in strings && forall s :: s in strings[1..] ==> s in strings;
      StringBytes(strings[0]);
      StringItems(strings[1..]);
      var items := Strings(strings);
      assert items[1..] == Strings(strings[1..]) && items == [items[0]] + items[1..];
      OneMoreItem(Str, items);
    }
  }

  lemma {:induction false} RequestItems(requests: seq<(bytes, bv8)>)
    requires forall request :: request in requests ==> |request.0| < 65536
    ensures (forall x :: x in Requests(requests) ==> Packets.Fits(Request, x))
    ensures ItemsBytes(Request, Requests(requests)) == AllRequests(requests)
  {
    hide FieldBytes, ItemsBytes, Packets.Fits, Prefixed;
    NoItems(Request);
    if requests != [] {
      assert requests[0] in requests && forall request :: request in requests[1..] ==> request in requests;
      RequestBytes(requests[0]);
      RequestItems(requests[1..]);
      var items := Requests(requests);
      assert items[1..] == Requests(requests[1..]) && items == [items[0]] + items[1..];
      OneMoreItem(Request, items);
    }
  }

  /** SUBACK: the id, then a code for each request. */
  lemma SubackBytes(flags: bv8, id: nat, codes: bytes)
    requires flags < 16 && id < 65536 && 2 + |codes| < LIMIT
    ensures var p := Packet(0x09, flags, [IntV(id), ListV(Codes(codes))]);
            Printable(p) && PacketBytes(p) == Framed(0x09, flags, Word(id) + codes)
  {
    hide Printable, Framed;
    CodeItems(codes);
    ListPacket(0x09, flags, Byte, id, Codes(codes));
  }

  /** UNSUBSCRIBE: the id, then the topics. */
  lemma UnsubscribeBytes(flags: bv8, id: nat, topics: seq<bytes>)
    requires flags < 16 && id < 65536 && Short(topics) && 2 + |AllPrefixed(topics)| < LIMIT
    ensures var p := Packet(0x0A, flags, [IntV(id), ListV(Strings(topics))]);
            Printable(p) && PacketBytes(p) == Framed(0x0A, flags, Word(id) + AllPrefixed(topics))
  {
    hide Printable, Framed;
    StringItems(topics);
    ListPacket(0x0A, flags, Str, id, Strings(topics));
  }

  /** SUBSCRIBE: the id, then the requests. */
  lemma SubscribeBytes(flags: bv8, id: nat, requests: seq<(bytes, bv8)>)
    requires flags < 16 && id < 65536 && forall request :: request in requests ==> |request.0| < 65536
    requires 2 + |AllRequests(requests)| < LIMIT
    ensures var p := Packet(0x08, flags, [IntV(id), ListV(Requests(requests))]);
            Printable(p) && PacketBytes(p) == Framed(0x08, flags, Word(id) + AllRequests(requests))
  {
    hide Printable, Framed;
    RequestItems(requests);
    ListPacket(0x08, flags, Request, id, Requests(requests));
  }

  /** Section 3.3: retain and qos in the first byte; the topic, the id above qos 0, and the data as it is. */
  lemma PublishBytes(p: PublishPacket)
    requires p.qos <= 2 && |p.topic| < 65536 && (p.id.Some? <==> p.qos > 0) && (p.id.Some? ==> p.id.value < 65536)
    requires |Prefixed(p.topic) + (if p.qos > 0 then Word(p.id.value) else []) + p.data.GetOr([])| < LIMIT
    ensures Publishable(p) && Printable(ToPacket(p))
    ensures PacketBytes(ToPacket(p)) ==
            Framed(0x03, 2 * p.qos + if p.retain then 1 else 0,
                   Prefixed(p.topic) + (if p.qos > 0 then Word(p.id.value) else []) + p.data.GetOr([]))
  {
    hide FieldBytes, FieldsBytes, Packets.Fits, FlagBits, AllKinds, Framed;
    assert Publishable(p);
    hide Prefixed, Word;
    PublishPrintable(p);
    var packet := ToPacket(p);
    FramedPacket(packet);
    PublishFlagByte(p.retain, p.qos);
    PublishKinds(p);
    PublishBody(p);
  }

  lemma PublishKinds(p: PublishPacket)
    requires Publishable(p)
    ensures ToPacket(p).flags == FlagBits(p.retain, p.qos) && KindsOf(PUBLISH, ToPacket(p).flags).Some?
    ensures AllKinds(ToPacket(p)) == if p.qos > 0 then [Str, Id, Rest] else [Str, Rest]
    ensures ToPacket(p).values ==
            if p.qos > 0 then [StrV(p.topic), IntV(p.id.value), RestV(p.data)] else [StrV(p.topic), RestV(p.data)]
  {
    hide QosBits, RetainBit, FlagBits;
    FlagsRoundTrip(p.retain, p.qos);
    assert [Str, Id, Rest] + [] == [Str, Id, Rest] && [Str, Rest] + [] == [Str, Rest];
  }

  lemma PublishBody(p: PublishPacket)
    requires Publishable(p)
    ensures var rest := RestV(p.data);
            if p.qos > 0 then
              && FieldsFit([Str, Id, Rest], [StrV(p.topic), IntV(p.id.value), rest])
              && FieldsBytes([Str, Id, Rest], [StrV(p.topic), IntV(p.id.value), rest]) ==
                 Prefixed(p.topic) + Word(p.id.value) + p.data.GetOr([])
            else
              && FieldsFit([Str, Rest], [StrV(p.topic), rest])
              && FieldsBytes([Str, Rest], [StrV(p.topic), rest]) == Prefixed(p.topic) + [] + p.data.GetOr([])
  {
    hide FieldBytes, FieldsBytes, Prefixed, Word, Packets.Fits;
    var topic, rest := StrV(p.topic), RestV(p.data);
    StringBytes(p.topic);
    RestBytes(p.data);
    if p.qos > 0 {
      var id := IntV(p.id.value);
      NumberBytes(0, p.id.value);
      TwoBytes(Id, Rest, id, rest);
      OneMoreField(Str, [Id, Rest], topic, [id, rest]);
      assert [Str] + [Id, Rest] == [Str, Id, Rest] && [topic] + [id, rest] == [topic, id, rest];
      Regroup(Prefixed(p.topic), Word(p.id.value), p.data.GetOr([]));
    } else {
      TwoBytes(Str, Rest, topic, rest);
      assert Prefixed(p.topic) + [] == Prefixed(p.topic);
    }
  }

  lemma RestBytes(data: Option<bytes>)
    ensures Packets.Fits(Rest, RestV(data)) && FieldBytes(Rest, RestV(data)) == data.GetOr([])
  {
  }

  lemma Regroup(a: bytes, b: bytes, c: bytes)
    ensures (a + b) + c == a + (b + c)
  {
  }

  lemma {:induction false} StringFields(kinds: seq<Kind>, strings: seq<bytes>)
    requires |kinds| == |strings| && Short(strings) && forall kind :: kind in kinds ==> kind == Str
    ensures FieldsFit(kinds, Strings(strings)) && FieldsBytes(kinds, Strings(strings)) == AllPrefixed(strings)
  {
    hide FieldBytes, FieldsBytes, Packets.Fits, Prefixed;
    NoFields();
    if strings != [] {
      assert kinds[0] in kinds && strings[0] in strings && forall s :: s in strings[1..] ==> s in strings;
      assert forall kind :: kind in kinds[1..] ==> kind in kinds;
      StringBytes(strings[0]);
      StringFields(kinds[1..], strings[1..]);
      OneMoreField(Str, kinds[1..], StrV(strings[0]), Strings(strings[1..]));
      assert [Str] + kinds[1..] == kinds && [StrV(strings[0])] + Strings(strings[1..]) == Strings(strings);
    }
  }

  /** What a CONNECT says before its optional fields. */
  function ConnectHead(name: bytes, level: bv8, connectFlags: bv8, keepAlive: nat, clientId: bytes): bytes
    requires |name| < 65536 && keepAlive < 65536 && |clientId| < 65536
  {
    Prefixed(name) + [level, connectFlags] + Word(keepAlive) + Prefixed(clientId)
  }

  function ConnectValues(name: bytes, level: bv8, connectFlags: bv8, keepAlive: nat, clientId: bytes): seq<Value> {
    [StrV(name), IntV(level as nat), IntV(connectFlags as nat), IntV(keepAlive), StrV(clientId)]
  }

  lemma ConnectHeadBytes(name: bytes, level: bv8, connectFlags: bv8, keepAlive: nat, clientId: bytes)
    requires |name| < 65536 && keepAlive < 65536 && |clientId| < 65536
    ensures FieldsFit([Str, Byte, Byte, Id, Str], ConnectValues(name, level, connectFlags, keepAlive, clientId))
    ensures FieldsBytes([Str, Byte, Byte, Id, Str], ConnectValues(name, level, connectFlags, keepAlive, clientId)) ==
            ConnectHead(name, level, connectFlags, keepAlive, clientId)
  {
    hide FieldsBytes, FieldBytes, Prefixed, Word, Packets.Fits;
    var a, b, c, d, e := StrV(name), IntV(level as nat), IntV(connectFlags as nat), IntV(keepAlive), StrV(clientId);
    StringBytes(name);
    StringBytes(clientId);
    NumberBytes(level, keepAlive);
    NumberBytes(connectFlags, keepAlive);
    TwoBytes(Id, Str, d, e);
    OneMoreField(Byte, [Id, Str], c, [d, e]);
    OneMoreField(Byte, [Byte] + [Id, Str], b, [c] + [d, e]);
    OneMoreField(Str, [Byte] + ([Byte] + [Id, Str]), a, [b] + ([c] + [d, e]));
    assert [Str] + ([Byte] + ([Byte] + [Id, Str])) == [Str, Byte, Byte, Id, Str];
    assert [a] + ([b] + ([c] + [d, e])) == [a, b, c, d, e];
    assert Prefixed(name) + ([level] + ([connectFlags] + (Word(keepAlive) + Prefixed(clientId)))) ==
           ConnectHead(name, level, connectFlags, keepAlive, clientId);
  }

  lemma NumberBytes(n: bv8, word: nat)
    requires word < 65536
    ensures Packets.Fits(Byte, IntV(n as nat)) && FieldBytes(Byte, IntV(n as nat)) == [n]
    ensures Packets.Fits(Id, IntV(word)) && FieldBytes(Id, IntV(word)) == Word(word)
  {
  }

  /** Section 3.1: the fixed fields in order, then the strings that the flags enable. */
  lemma ConnectBytes(flags: bv8, name: bytes, level: bv8, connectFlags: bv8, keepAlive: nat, clientId: bytes, strings: seq<bytes>)
    requires flags < 16 && |name| < 65536 && keepAlive < 65536 && |clientId| < 65536 && Short(strings)
    requires |strings| == |ConnectTail(connectFlags)|
    requires |ConnectHead(name, level, connectFlags, keepAlive, clientId) + AllPrefixed(strings)| < LIMIT
    ensures var p := Packet(0x01, flags, ConnectValues(name, level, connectFlags, keepAlive, clientId) + Strings(strings));
            && Printable(p)
            && PacketBytes(p) == Framed(0x01, flags, ConnectHead(name, level, connectFlags, keepAlive, clientId) + AllPrefixed(strings))
  {
    hide FieldsBytes, ConnectHead, FieldsFit, ConnectTail;
    var fixed, tail := [Str, Byte, Byte, Id, Str], ConnectTail(connectFlags);
    var head := ConnectValues(name, level, connectFlags, keepAlive, clientId);
    var p := Packet(0x01, flags, head + Strings(strings));
    TailStrings(connectFlags);
    ConnectHeadBytes(name, level, connectFlags, keepAlive, clientId);
    StringFields(tail, strings);
    BothParts(fixed, tail, head, Strings(strings));
    ConnectKindsOf(p, connectFlags);
    FramedPacket(p);
  }

  lemma TailStrings(connectFlags: bv8)
    ensures forall kind :: kind in ConnectTail(connectFlags) ==> kind == Str
  {
  }

  lemma ConnectKindsOf(p: Packet, connectFlags: bv8)
    requires p.typeCode == 0x01 && |p.values| > 2 && p.values[2] == IntV(connectFlags as nat)
    ensures KindsOf(p.typeCode, p.flags).Some? && AllKinds(p) == [Str, Byte, Byte, Id, Str] + ConnectTail(connectFlags)
  {
    hide ConnectTail;
  }

  lemma BothParts(a: seq<Kind>, b: seq<Kind>, v: seq<Value>, w: seq<Value>)
    requires FieldsFit(a, v) && FieldsFit(b, w)
    ensures FieldsFit(a + b, v + w) && FieldsBytes(a + b, v + w) == FieldsBytes(a, v) + FieldsBytes(b, w)
  {
    hide FieldsBytes, Packets.Fits;
    FieldsAppend(a, b, v + w);
    assert (v + w)[..|a|] == v && (v + w)[|a|..] == w;
  }

  /** Every type code is known but 0 and 14: the class of DISCONNECT has none. */
  lemma ClassesKnown(typeCode: bv8, flags: bv8)
    requires typeCode < 16
    ensures KindsOf(typeCode, flags) == None <==> typeCode == 0 || typeCode == 14
  {
  }

  // ---------------------------------------------------------------- lengths and integers

  /** The k-th digit of a number in base 128, from the lowest, and in base 256. */
  function Digit128(n: nat, k: nat): nat {
    if k == 0 then n % 128 else Digit128(n / 128, k - 1)
  }

  function Digit256(n: nat, k: nat): nat {
    if k == 0 then n % 256 else Digit256(n / 256, k - 1)
  }

  /** Section 2.2.3: seven bits of the length in each byte, lowest first, and 128 on all bytes but the last. */
  lemma {:induction false} LengthDigits(n: nat, k: nat)
    requires k < |EncodeLength(n)|
    ensures Digit128(n, k) < 128
    ensures EncodeLength(n)[k] == Digit128(n, k) as bv8 + if k < |EncodeLength(n)| - 1 then 128 else 0
    decreases n
  {
    if n >= 128 {
      if k > 0 {
        LengthDigits(n / 128, k - 1);
      } else {
        MoreBit(n % 128);
      }
    }
  }

  lemma MoreBit(n: nat)
    requires n < 128
    ensures (n as bv8) | 0x80 == n as bv8 + 128
  {
    var b := n as bv8;
    assert b < 128;
  }

  /** A decoded length is the sum of its bytes' low seven bits, each worth 128 times the one before it; at most four. */
  lemma DecodedSum(input: bytes)
    requires DecodeLength(input, 0).Ok?
    ensures var (n, count) := DecodeLength(input, 0).value;
            && 1 <= count <= 4 && input[count - 1] < 128 && (forall k :: 0 <= k < count - 1 ==> input[k] >= 128)
            && n == LowSevenBits(input[0]) + (if count > 1 then 128 * LowSevenBits(input[1]) else 0) +
                    (if count > 2 then 16384 * LowSevenBits(input[2]) else 0) + (if count > 3 then 2097152 * LowSevenBits(input[3]) else 0)
  {
    hide DecodeLength, LowSevenBits;
    DecodedByte(input, 0);
    if input[0] >= 128 {
      var one := input[1..];
      DecodedByte(one, 1);
      assert one[0] == input[1];
      if one[0] >= 128 {
        var two := one[1..];
        DecodedByte(two, 2);
        assert two[0] == input[2];
        if two[0] >= 128 {
          var three := two[1..];
          DecodedByte(three, 3);
          assert three[0] == input[3];
        }
      }
    }
  }

  function LowSevenBits(b: bv8): nat {
    (b % 128) as nat
  }

  lemma DecodedByte(input: bytes, i: nat)
    requires i <= 3 && DecodeLength(input, i).Ok?
    ensures input != [] && (i == 3 ==> input[0] < 128)
    ensures input[0] < 128 ==> DecodeLength(input, i) == Ok((LowSevenBits(input[0]), 1))
    ensures input[0] >= 128 ==>
              var more := DecodeLength(input[1..], i + 1);
              more.Ok? && DecodeLength(input, i) == Ok((LowSevenBits(input[0]) + 128 * more.value.0, 1 + more.value.1))
  {
    TopBit(input[0]);
  }

  lemma TopBit(b: bv8)
    ensures b & 0x80 == 0 <==> b < 128
    ensures b & 0x7F == b % 128
  {
  }

  /** Most significant byte first. */
  lemma {:induction false} BigEndianDigits(n: nat, k: nat, i: nat)
    requires i < k
    ensures Digit256(n, k - 1 - i) < 256 && BigEndian(n, k)[i] == Digit256(n, k - 1 - i) as bv8
  {
    if i < k - 1 {
      BigEndianDigits(n / 256, k - 1, i);
    }
  }

  lemma WordBytes(n: nat)
    requires n < 65536
    ensures Pack16(n) == BigEndian(n, 2) == Word(n)
    ensures Unpack16(Word(n)) == n == FromBytes(Word(n))
  {
    assert BigEndian(n / 256, 1) == [(n / 256) as bv8];
    PackUnpack16(n);
    assert Power256(2) == 65536;
    BigEndianRoundTrip(n, 2);
  }

  lemma {:induction false} FirstByteCounts(b: bytes)
    requires b != []
    ensures FromBytes(b) == b[0] as nat * Power256(|b| - 1) + FromBytes(b[1..])
    decreases |b|
  {
    hide FromBytes, Power256;
    LastByteCounts(b);
    if |b| > 1 {
      var init := b[..|b| - 1];
      FirstByteCounts(init);
      LastByteCounts(b[1..]);
      assert b[1..][..|b| - 2] == init[1..] && b[1..][|b| - 2] == b[|b| - 1];
      Distribute(b[0] as nat, Power256(|b| - 2), FromBytes(init[1..]), b[|b| - 1] as nat);
    } else {
      assert b[1..] == [] && b[..|b| - 1] == [];
    }
  }

  lemma LastByteCounts(b: bytes)
    requires b != []
    ensures FromBytes(b) == 256 * FromBytes(b[..|b| - 1]) + b[|b| - 1] as nat
    ensures FromBytes([]) == 0 && Power256(|b| - 1) == if |b| == 1 then 1 else 256 * Power256(|b| - 2)
  {
  }

  lemma Distribute(first: nat, p: nat, middle: nat, last: nat)
    ensures 256 * (first * p + middle) + last == first * (256 * p) + (256 * middle + last)
  {
  }

  // ---------------------------------------------------------------- frames

  lemma FrameByteBits(b: bv8)
    ensures b & 128 == 128 <==> b >= 128
    ensures b & 15 == b % 16 && b & 127 == b % 128
    ensures (b % 128) as nat < 128
  {
    assert b % 128 < 128;
  }

  /** Section 5.2 of RFC 6455: FIN and the opcode share the first byte, MASK and the short length the second. */
  lemma FrameHeader(input: bytes)
    requires |input| >= 2
    ensures ReceiveFrame(input).Ok?
    ensures var frame := ReceiveFrame(input).value.0;
            && (frame.fin <==> input[0] >= 128) && frame.opcode == input[0] % 16 && (frame.masked <==> input[1] >= 128)
  {
    hide ExtendedLength, ReceivePayload;
    FrameByteBits(input[0]);
    FrameByteBits(input[1]);
  }

  /** How many bytes of length follow the short one, and the length. */
  function LengthSize(short: nat): nat {
    if short == 126 then 2 else if short == 127 then 8 else 0
  }

  function LengthIn(input: bytes): nat
    requires |input| >= 2 && |input| >= 2 + LengthSize((input[1] % 128) as nat)
  {
    var short := (input[1] % 128) as nat;
    if short < 126 then short else FromBytes(input[2..2 + LengthSize(short)])
  }

  predicate Masks(input: bytes)
    requires |input| >= 2
  {
    input[1] >= 128
  }

  /** Where the payload of a frame begins, behind its key if it is masked. */
  function PayloadStart(input: bytes): nat
    requires |input| >= 2
  {
    2 + LengthSize((input[1] % 128) as nat) + if Masks(input) then 4 else 0
  }

  /** Sections 5.2 and 5.3: where the payload of a frame is, and what masks it. */
  lemma FramePayload(input: bytes)
    requires |input| >= 2 && PayloadStart(input) <= |input| && PayloadStart(input) + LengthIn(input) <= |input|
    ensures var start, n := PayloadStart(input), LengthIn(input);
            var (frame, count) := ReceiveFrame(input).value;
            && count == start + n && |frame.payload| == n
            && forall i :: 0 <= i < n ==>
                 frame.payload[i] == if Masks(input) then input[start + i] ^ input[start - 4 + i % 4] else input[start + i]
  {
    hide ExtendedLength, ReceivePayload, Unmask, LengthIn;
    FrameByteBits(input[1]);
    var at, n := 2 + LengthSize((input[1] % 128) as nat), LengthIn(input);
    LengthFound(input);
    var body := input[at..];
    var (payload, size) := ReceivePayload(Masks(input), n, body);
    PayloadFound(Masks(input), n, body);
    var (frame, count) := ReceiveFrame(input).value;
    assert frame.payload == payload && count == at + size;
    forall i | 0 <= i < n
      ensures payload[i] == if Masks(input) then input[at + 4 + i] ^ input[at + i % 4] else input[at + i]
    {
      if Masks(input) {
        assert payload[i] == body[4 + i] ^ body[i % 4];
        assert body[4 + i] == input[at + (4 + i)];
        assert body[i % 4] == input[at + i % 4];
      } else {
        assert payload[i] == body[i];
      }
    }
  }

  lemma LengthFound(input: bytes)
    requires |input| >= 2 && |input| >= 2 + LengthSize((input[1] % 128) as nat)
    ensures ExtendedLength((input[1] % 128) as nat, input[2..]) == (LengthSize((input[1] % 128) as nat), LengthIn(input))
  {
    hide FromBytes;
    FrameByteBits(input[1]);
    var size := LengthSize((input[1] % 128) as nat);
    assert input[2..][..size] == input[2..2 + size];
  }

  lemma PayloadFound(masked: bool, n: nat, body: bytes)
    requires n + (if masked then 4 else 0) <= |body|
    ensures var (payload, count) := ReceivePayload(masked, n, body);
            && count == n + (if masked then 4 else 0) && |payload| == n
            && (masked ==> forall i :: 0 <= i < n ==> payload[i] == body[4 + i] ^ body[i % 4])
            && (!masked ==> payload == body[..n])
  {
    if masked {
      var data := body[..n + 4];
      assert data[..4] == body[..4] && data[4..] == body[4..n + 4];
    }
  }

  /** What a server frame looks like; section 5.2 asks for eight bytes where the last case has seven. */
  lemma FrameWritten(frame: Frame)
    requires frame.opcode < 16
    ensures var first, n := frame.opcode + (if frame.fin then 128 else 0), |frame.payload|;
            FrameBytes(frame) == [first] + LengthWritten(n) + frame.payload
  {
    hide BigEndian, Word;
    FirstSum(frame);
    if 126 <= |frame.payload| < 65535 {
      WordBytes(|frame.payload|);
    }
  }

  function LengthWritten(n: nat): bytes {
    if n < 126 then [n as bv8]
    else if n < 65535 then [126] + Word(n)
    else [127] + BigEndian(n, 7)
  }

  lemma FirstSum(frame: Frame)
    requires frame.opcode < 16
    ensures FirstByte(frame) == frame.opcode + if frame.fin then 128 else 0
  {
  }

  /** Section 5.5: the control frames a server sends, and which frames are data or end the connection. */
  lemma ControlBytes(payload: bytes)
    requires |payload| < 126
    ensures FrameBytes(CLOSE) == [0x88, 0x00]
    ensures FrameBytes(Pong(payload)) == [0x8A, |payload| as bv8] + payload
  {
    FrameWritten(CLOSE);
    FrameWritten(Pong(payload));
  }

  lemma OpcodesRead(frame: Frame)
    ensures IsData(frame) <==> frame.opcode == 0 || frame.opcode == 2
    ensures Ends(frame) <==> frame.opcode !in {0, 2, 9, 10}
  {
  }

  /** A message is cut into frames of 2040 bytes, the last one of what is left, with the opcode of binary data in front. */
  lemma {:induction false} FragmentPlaces(opcode: bv8, payload: bytes, i: nat)
    requires i < |Fragments(opcode, payload)|
    ensures var frames := Fragments(opcode, payload);
            && |frames| == (if payload == [] then 1 else (|payload| + 2039) / 2040)
            && frames[i] == Frame(if i == 0 then opcode else 0, i == |frames| - 1, false,
                                  if i == |frames| - 1 then payload[2040 * i..] else payload[2040 * i..2040 * (i + 1)])
    decreases |payload|
  {
    if |payload| > 2040 {
      var rest := payload[2040..];
      FragmentPlaces(0, rest, if i == 0 then 0 else i - 1);
      if i > 0 {
        assert rest[2040 * (i - 1)..] == payload[2040 * i..];
        if i < |Fragments(opcode, payload)| - 1 {
          assert rest[2040 * (i - 1)..2040 * i] == payload[2040 * i..2040 * (i + 1)];
        }
      }
    }
  }

  // ---------------------------------------------------------------- the end of a connection

  /** The place of the first frame that ends the connection. */
  function FirstEnd(wires: seq<Wire>): (k: nat)
    ensures k <= |wires|
  {
    if wires == [] || Ends(wires[0].frame) then 0 else 1 + FirstEnd(wires[1..])
  }

  /**
   A read that finds no further message takes everything up to the frame that ends the connection. A close frame with FIN
   is answered by one close frame, any other such frame by none, and the connection is alive no more. When no frame ends
   it, the stream has.
   */
  lemma {:induction false} ReadEndOf(c: Connection, wires: seq<Wire>, buffer: bytes)
    requires AllLegal(wires) && c.alive && c.input == AllBytes(wires) && FirstMessage(wires) == 0
    ensures var k := FirstEnd(wires);
            && (k < |wires| ==>
                  AllLegal(wires[k + 1..]) &&
                  ReadMessage(c, buffer) ==
                  (Err(ConnectionClosed),
                   Connection(AllBytes(wires[k + 1..]),
                              c.output + Pongs(wires[..k]) +
                              (if wires[k].frame.opcode == 8 && wires[k].frame.fin then [0x88, 0x00] else []), false)))
            && (k == |wires| ==> ReadMessage(c, buffer) == (Err(ConnectionClosed), Connection([], c.output + Pongs(wires), true)))
    decreases |wires|
  {
    hide ReceiveFrame, FrameBytes, WireBytes, Legal, Payloads, Pongs, AllBytes;
    NoFrames();
    if wires == [] {
      EmptyInput(c);
      assert c.output + [] == c.output;
    } else {
      var frame := wires[0].frame;
      assert Legal(wires[0]) && AllLegal(wires[1..]);
      FirstBytes(wires);
      WireRoundTrip(wires[0], AllBytes(wires[1..]));
      var next := c.(input := AllBytes(wires[1..]));
      assert c.input[|WireBytes(wires[0])|..] == next.input;
      if Ends(frame) {
        ControlBytes([]);
        assert wires[..0] == [] && Pongs(wires[..0]) == [] && c.output + [] == c.output;
      } else {
        OneFrame(wires);
        assert c.output + [] == c.output && buffer + [] == buffer;
        ReadEndOf(next.(output := c.output + Pongs(wires[..1])), wires[1..], buffer + Payloads(wires[..1]));
        LaterEnd(wires, c.output);
      }
    }
  }

  lemma LaterEnd(wires: seq<Wire>, output: bytes)
    requires wires != [] && !Ends(wires[0].frame)
    ensures var k := FirstEnd(wires[1..]);
            && FirstEnd(wires) == k + 1
            && output + Pongs(wires[..1]) + Pongs(wires[1..][..k]) == output + Pongs(wires[..k + 1])
            && output + Pongs(wires[..1]) + Pongs(wires[1..]) == output + Pongs(wires)
            && (k + 1 < |wires| ==> wires[1..][k + 1..] == wires[k + 2..] && wires[1..][k] == wires[k + 1])
  {
    hide Pongs, Payloads, Ends;
    var k := FirstEnd(wires[1..]);
    assert wires[..1] + wires[1..][..k] == wires[..k + 1];
    assert wires[..1] + wires[1..] == wires;
    PayloadsAppend(wires[..1], wires[1..][..k]);
    PayloadsAppend(wires[..1], wires[1..]);
    Regroup(output, Pongs(wires[..1]), Pongs(wires[1..][..k]));
    Regroup(output, Pongs(wires[..1]), Pongs(wires[1..]));
  }

  lemma EmptyInput(c: Connection)
    requires c.alive && c.input == AllBytes([])
    ensures forall buffer :: ReadMessage(c, buffer) == (Err(ConnectionClosed), c.(input := []))
  {
  }

  lemma FirstBytes(wires: seq<Wire>)
    requires wires != [] && AllLegal(wires)
    ensures AllLegal(wires[1..]) && AllBytes(wires) == WireBytes(wires[0]) + AllBytes(wires[1..])
  {
  }
}
