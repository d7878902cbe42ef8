/** servers/websocket/frame.py: one WebSocket frame, printed and read (section 5.2 of RFC 6455). */
module Frames {
  import opened Wrappers
  import opened Bytes

  const OP_CONTINUATION: bv8 := 0
  const OP_BYTES: bv8 := 2
  const OP_CLOSE: bv8 := 8
  const OP_PING: bv8 := 9
  const OP_PONG: bv8 := 10

  datatype Frame = Frame(opcode: bv8, fin: bool, masked: bool, payload: bytes)

  function FirstByte(frame: Frame): bv8 {
    (if frame.fin then 0x80 else 0) ^ frame.opcode
  }

  /** The length of a server frame; 127 is followed by seven bytes. */
  function LengthBytes(n: nat): bytes {
    if n < 126 then [n as bv8]
    else if n < 65535 then [126] + BigEndian(n, 2)
    else [127] + BigEndian(n, 7)
  }

  /** Frame.bytes, which never masks. */
  function FrameBytes(frame: Frame): bytes {
    [FirstByte(frame)] + LengthBytes(|frame.payload|) + frame.payload
  }

  /** Frame.unmask. */
  function Unmask(key: bytes, data: bytes): bytes
    requires |data| > 0 ==> |key| == 4
  {
    seq(|data|, i requires 0 <= i < |data| => data[i] ^ key[i % 4])
  }

  /** sock.recv: n bytes, or what is left of a stream that ended. */
  function Recv(input: bytes, n: nat): bytes {
    if n <= |input| then input[..n] else input
  }

  function Left(input: bytes, n: nat): bytes {
    if n <= |input| then input[n..] else []
  }

  /** How many bytes hold the length after its first seven bits, and the length. */
  function ExtendedLength(short: nat, input: bytes): (nat, nat) {
    if short == 126 then (|Recv(input, 2)|, FromBytes(Recv(input, 2)))
    else if short == 127 then (|Recv(input, 8)|, FromBytes(Recv(input, 8)))
    else (0, short)
  }

  /** The payload behind a length, and the bytes it took; a masked one has its key in front. */
  function ReceivePayload(masked: bool, length: nat, body: bytes): (r: (bytes, nat))
    ensures r.1 <= |body|
  {
    if masked then
      var data := Recv(body, length + 4);
      (if length == 0 || |data| <= 4 then [] else Unmask(data[..4], data[4..]), |data|)
    else (Recv(body, length), |Recv(body, length)|)
  }

  /** Frame.recv: the frame and the bytes it took. */
  function ReceiveFrame(input: bytes): (r: Result<(Frame, nat)>)
    ensures r.Ok? ==> 2 <= r.value.1 <= |input|
    ensures r.Err? <==> |input| < 2
    ensures r.Err? ==> r.error == ConnectionClosed
  {
    if |input| < 2 then Err(ConnectionClosed)
    else
      var fin, opcode := input[0] & 128 == 128, input[0] & 15;
      var masked, short := input[1] & 128 == 128, (input[1] & 127) as nat;
      var (count, length) := ExtendedLength(short, input[2..]);
      var (payload, size) := ReceivePayload(masked, length, input[2 + count..]);
      Ok((Frame(opcode, fin, masked, payload), 2 + count + size))
  }

  // ---------------------------------------------------------------- round trips

  lemma UnmaskInverts(key: bytes, data: bytes)
    requires |key| == 4
    ensures Unmask(key, Unmask(key, data)) == data
  {
    forall i | 0 <= i < |data|
      ensures Unmask(key, Unmask(key, data))[i] == data[i]
    {
      XorTwice(data[i], key[i % 4]);
    }
  }

  lemma XorTwice(a: bv8, b: bv8)
    ensures (a ^ b) ^ b == a
  {
  }

  lemma FirstByteParts(frame: Frame)
    requires frame.opcode < 16
    ensures (FirstByte(frame) & 128 == 128) == frame.fin && FirstByte(frame) & 15 == frame.opcode
  {
  }

  lemma SecondByteParts(n: nat)
    requires n < 128
    ensures (n as bv8) & 128 != 128 && ((n as bv8) & 127) as nat == n
    ensures ((n as bv8) | 128) & 128 == 128 && (((n as bv8) | 128) & 127) as nat == n
  {
    var b := n as bv8;
    assert b < 128;
    assert b & 128 == 0 && b & 127 == b;
    assert (b | 128) & 128 == 128 && (b | 128) & 127 == b;
  }

  /** How a frame reads that starts with these two bytes. */
  lemma ReceiveParts(frame: Frame, second: bv8, size: bytes, body: bytes)
    requires frame.opcode < 16 && (second & 128 == 128) == frame.masked
    requires ExtendedLength((second & 127) as nat, size + body).0 == |size|
    ensures var length := ExtendedLength((second & 127) as nat, size + body).1;
            var (payload, count) := ReceivePayload(frame.masked, length, body);
            ReceiveFrame([FirstByte(frame), second] + size + body) ==
            Ok((frame.(payload := payload), 2 + |size| + count))
  {
    hide FirstByte, ExtendedLength, ReceivePayload;
    var input := [FirstByte(frame), second] + size + body;
    FirstByteParts(frame);
    assert input[0] == FirstByte(frame) && input[1] == second && input[2..] == size + body;
    assert input[2 + |size|..] == body;
  }

  lemma Fits16(n: nat)
    requires n < 65536
    ensures n < Power256(2)
  {
    assert Power256(2) == 256 * Power256(1) && Power256(1) == 256 * Power256(0);
  }

  /** The extended length of a payload, in k bytes. */
  lemma ExtendedParts(n: nat, k: nat, body: bytes)
    requires (k == 2 || k == 8) && n < Power256(k)
    ensures ExtendedLength(if k == 2 then 126 else 127, BigEndian(n, k) + body) == (k, n)
  {
    assert (BigEndian(n, k) + body)[..k] == BigEndian(n, k);
    BigEndianRoundTrip(n, k);
  }

  lemma ExactRecv(payload: bytes, rest: bytes)
    ensures Recv(payload + rest, |payload|) == payload
  {
  }

  /** The length code of a server frame says its length. */
  lemma ServerLength(n: nat, body: bytes) returns (second: bv8, size: bytes)
    requires n < 65535
    ensures LengthBytes(n) == [second] + size && second & 128 != 128
    ensures ExtendedLength((second & 127) as nat, size + body) == (|size|, n)
  {
    hide BigEndian, FromBytes;
    if n < 126 {
      second, size := n as bv8, [];
      SecondByteParts(n);
    } else {
      second, size := 126, BigEndian(n, 2);
      Fits16(n);
      ExtendedParts(n, 2, body);
    }
  }

  lemma ShortServerFrame(frame: Frame, rest: bytes)
    requires frame.opcode < 16 && !frame.masked && |frame.payload| < 65535
    ensures ReceiveFrame(FrameBytes(frame) + rest) == Ok((frame, |FrameBytes(frame)|))
  {
    hide ReceiveFrame, FirstByte, LengthBytes, ExtendedLength;
    var body := frame.payload + rest;
    var second, size := ServerLength(|frame.payload|, body);
    ReceiveParts(frame, second, size, body);
    assert FrameBytes(frame) + rest == [FirstByte(frame), second] + size + body;
    ExactRecv(frame.payload, rest);
  }

  /** A frame of 65535 bytes or more is read as 8 length bytes and however many more: never as many as were written. */
  lemma LongServerFrame(frame: Frame, rest: bytes)
    requires frame.opcode < 16 && !frame.masked && |frame.payload| >= 65535
    ensures ReceiveFrame(FrameBytes(frame) + rest) != Ok((frame, |FrameBytes(frame)|))
  {
    hide ReceiveFrame, FirstByte, BigEndian, FromBytes, Unmask;
    var size := BigEndian(|frame.payload|, 7) + [frame.payload[0]];
    var body := frame.payload[1..] + rest;
    assert (size + body)[..8] == size;
    ReceiveParts(frame, 127, size, body);
    assert FrameBytes(frame) + rest == [FirstByte(frame), 127 as bv8] + size + body;
  }

  /** The frames a server writes are read back, whatever follows, exactly when they are shorter than 65535 bytes. */
  lemma FrameRoundTrip(frame: Frame, rest: bytes)
    requires frame.opcode < 16 && !frame.masked
    ensures ReceiveFrame(FrameBytes(frame) + rest) == Ok((frame, |FrameBytes(frame)|)) <==> |frame.payload| < 65535
  {
    if |frame.payload| < 65535 {
      ShortServerFrame(frame, rest);
    } else {
      LongServerFrame(frame, rest);
    }
  }

  /** The shortest length code of section 5.2 of RFC 6455, behind the mask bit. */
  function ClientLength(n: nat): bytes {
    if n < 126 then [(n as bv8) | 128]
    else if n < 65536 then [(126 as bv8) | 128] + BigEndian(n, 2)
    else [(127 as bv8) | 128] + BigEndian(n, 8)
  }

  /** A client's frame, masked with a key as section 5.3 of RFC 6455 asks. */
  function ClientBytes(frame: Frame, key: bytes): bytes
    requires |key| == 4
  {
    [FirstByte(frame)] + ClientLength(|frame.payload|) + key + Unmask(key, frame.payload)
  }

  lemma MaskedBody(key: bytes, payload: bytes, rest: bytes)
    requires |key| == 4
    ensures ReceivePayload(true, |payload|, key + Unmask(key, payload) + rest) == (payload, 4 + |payload|)
  {
    var sent := key + Unmask(key, payload);
    ExactRecv(sent, rest);
    assert sent[..4] == key && sent[4..] == Unmask(key, payload);
    UnmaskInverts(key, payload);
  }

  lemma ClientLengthParts(n: nat, body: bytes) returns (second: bv8, size: bytes)
    requires n < Power256(8)
    ensures ClientLength(n) == [second] + size && second & 128 == 128
    ensures ExtendedLength((second & 127) as nat, size + body) == (|size|, n)
  {
    hide BigEndian, FromBytes, Power256;
    if n < 126 {
      second, size := (n as bv8) | 128, [];
      SecondByteParts(n);
    } else if n < 65536 {
      second, size := 126 | 128, BigEndian(n, 2);
      Fits16(n);
      ExtendedParts(n, 2, body);
    } else {
      second, size := 127 | 128, BigEndian(n, 8);
      ExtendedParts(n, 8, body);
    }
  }

  /** The frames a client writes are read back and unmasked, whatever follows, at every length. */
  lemma ClientRoundTrip(frame: Frame, key: bytes, rest: bytes)
    requires frame.opcode < 16 && frame.masked && |key| == 4 && |frame.payload| < Power256(8)
    ensures ReceiveFrame(ClientBytes(frame, key) + rest) == Ok((frame, |ClientBytes(frame, key)|))
  {
    hide ReceiveFrame, FirstByte, ClientLength, ExtendedLength, Unmask, Power256, ReceivePayload;
    var body := key + Unmask(key, frame.payload) + rest;
    var second, size := ClientLengthParts(|frame.payload|, body);
    ReceiveParts(frame, second, size, body);
    MaskedBody(key, frame.payload, rest);
    assert ClientBytes(frame, key) + rest == [FirstByte(frame), second] + size + body;
    SameLength(key, frame.payload);
  }

  lemma SameLength(key: bytes, data: bytes)
    requires |key| == 4
    ensures |Unmask(key, data)| == |data|
  {
  }

  // ---------------------------------------------------------------- the code

  /** n >> (k * 8). */
  function Shifted(n: nat, k: nat): nat {
    if k == 0 then n else Shifted(n, k - 1) / 256
  }

  /** The extended length, one byte of it a step: (n >> (i * 8)) & 255 for i from k - 1 down to 0. */
  method AppendBigEndian(buffer: bytes, n: nat, k: nat) returns (result: bytes)
    ensures result == buffer + BigEndian(n, k)
  {
    hide BigEndian;
    result := buffer;
    var i := k;
    NoBytes(Shifted(n, k));
    while i > 0
      invariant 0 <= i <= k
      invariant result == buffer + BigEndian(Shifted(n, i), k - i)
    {
      i := i - 1;
      LastByte(Shifted(n, i), k - i);
      result := result + [(Shifted(n, i) % 256) as bv8];
    }
  }

  lemma NoBytes(n: nat)
    ensures BigEndian(n, 0) == []
  {
  }

  lemma LastByte(n: nat, k: nat)
    requires k > 0
    ensures BigEndian(n, k) == BigEndian(n / 256, k - 1) + [(n % 256) as bv8]
  {
  }

  /** Frame.bytes. */
  method ToBytes(frame: Frame) returns (result: bytes)
    ensures result == FrameBytes(frame)
  {
    result := [FirstByte(frame)];
    var length := |frame.payload|;
    if length < 126 {
      result := result + [length as bv8];
    } else if length < 65535 {
      result := AppendBigEndian(result + [126], length, 2);
    } else {
      result := AppendBigEndian(result + [127], length, 7);
    }
    assert result == [FirstByte(frame)] + LengthBytes(length);
    if length > 0 {
      result := result + frame.payload;
    }
  }
}
