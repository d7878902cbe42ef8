/** The remaining length of an MQTT packet: section 2.2.3 of MQTT 3.1.1. */
module RemainingLength {
  import opened Wrappers
  import opened Bytes

  const LIMIT := 268435456  // 128 to the power of 4

  /** The bytes get_header_bytes appends: seven bits a byte, least significant first, the top bit for "more". */
  function EncodeLength(n: nat): (b: bytes)
    ensures |b| >= 1
  {
    if n < 128 then [n as bv8] else [(n % 128) as bv8 | 0x80] + EncodeLength(n / 128)
  }

  /** The value and the byte count of a length whose first i bytes were read before; at most four bytes are read. */
  function DecodeLength(input: bytes, i: nat): (r: Result<(nat, nat)>)
    ensures r.Ok? ==> 0 < r.value.1 <= |input|
    decreases |input|
  {
    if input == [] then Err(ConnectionClosed)
    else
      var low := (input[0] & 0x7F) as nat;
      if input[0] & 0x80 == 0 then Ok((low, 1))
      else if i >= 3 then Err(InvalidLength)
      else
        var more :- DecodeLength(input[1..], i + 1);
        Ok((low + 128 * more.0, 1 + more.1))
  }

  function PowerLeft(i: nat): nat
    requires i <= 3
  {
    if i == 0 then 268435456 else if i == 1 then 2097152 else if i == 2 then 16384 else 128
  }

  lemma LowBits(n: nat)
    requires n < 128
    ensures (n as bv8) & 0x80 == 0 && ((n as bv8) & 0x7F) as nat == n
    ensures ((n as bv8) | 0x80) & 0x80 != 0 && (((n as bv8) | 0x80) & 0x7F) as nat == n
  {
    var b := n as bv8;
    assert b < 128;
    assert b & 0x80 == 0 && b & 0x7F == b;
    assert (b | 0x80) & 0x80 != 0 && (b | 0x80) & 0x7F == b;
  }

  lemma {:induction false} DecodeInverts(n: nat, i: nat, rest: bytes)
    requires i <= 3 && n < PowerLeft(i)
    ensures DecodeLength(EncodeLength(n) + rest, i) == Ok((n, |EncodeLength(n)|))
    ensures |EncodeLength(n)| <= 4 - i
    decreases n
  {
    LowBits(n % 128);
    if n >= 128 {
      DecodeInverts(n / 128, i + 1, rest);
      assert (EncodeLength(n) + rest)[1..] == EncodeLength(n / 128) + rest;
    }
  }

  /** Decoding inverts encoding for every length below 128 to the fourth, and consumes exactly its bytes. */
  lemma LengthRoundTrip(n: nat, rest: bytes)
    requires n < LIMIT
    ensures DecodeLength(EncodeLength(n) + rest, 0) == Ok((n, |EncodeLength(n)|))
  {
    DecodeInverts(n, 0, rest);
  }

  lemma {:induction false} DecodeRejects(n: nat, i: nat, rest: bytes)
    requires i <= 3 && n >= PowerLeft(i)
    ensures DecodeLength(EncodeLength(n) + rest, i) == Err(InvalidLength)
    decreases n
  {
    LowBits(n % 128);
    if i < 3 {
      DecodeRejects(n / 128, i + 1, rest);
      assert (EncodeLength(n) + rest)[1..] == EncodeLength(n / 128) + rest;
    }
  }

  /** A length is accepted exactly when it is below the limit; every larger one is rejected. */
  lemma LengthAccepted(n: nat, rest: bytes)
    ensures DecodeLength(EncodeLength(n) + rest, 0).Ok? <==> n < LIMIT
    ensures n >= LIMIT ==> DecodeLength(EncodeLength(n) + rest, 0) == Err(InvalidLength)
  {
    if n < LIMIT {
      LengthRoundTrip(n, rest);
    } else {
      DecodeRejects(n, 0, rest);
    }
  }

  lemma LowSeven(b: bv8)
    ensures (b & 0x7F) as nat < 128
  {
    assert b & 0x7F < 128;
  }

  lemma EncodeStep(low: nat, more: nat)
    requires low < 128
    ensures |EncodeLength(low + 128 * more)| <= 1 + |EncodeLength(more)|
  {
    var n := low + 128 * more;
    assert n / 128 == more;
  }

  lemma ShortOne(n: nat)
    requires n < 128
    ensures |EncodeLength(n)| == 1
  {
  }

  /** No encoding is shorter: whatever bytes decode to a value are at least as many as the encoder's. */
  lemma {:induction false} EncodeShortest(input: bytes, i: nat)
    requires i <= 3 && DecodeLength(input, i).Ok?
    ensures var (n, count) := DecodeLength(input, i).value;
            |EncodeLength(n)| <= count <= |input| && n < PowerLeft(i)
    decreases |input|
  {
    hide EncodeLength;
    LowSeven(input[0]);
    if input[0] & 0x80 != 0 {
      EncodeShortest(input[1..], i + 1);
      EncodeStep((input[0] & 0x7F) as nat, DecodeLength(input[1..], i + 1).value.0);
    } else {
      ShortOne((input[0] & 0x7F) as nat);
    }
  }

  lemma LastLengthByte(n: nat)
    requires n / 128 == 0
    ensures EncodeLength(n) == [(n % 128) as bv8]
  {
  }

  lemma NextLengthByte(n: nat)
    requires n / 128 > 0
    ensures EncodeLength(n) == [(n % 128) as bv8 | 0x80] + EncodeLength(n / 128)
  {
  }

  /** Packet.get_header_bytes: type and flags in one byte, then the length. */
  method GetHeaderBytes(typeCode: bv8, flags: bv8, payloadLength: nat) returns (header: bytes)
    ensures header == [(typeCode << 4) | flags] + EncodeLength(payloadLength)
  {
    hide EncodeLength;
    header := [(typeCode << 4) | flags];
    ghost var target := header + EncodeLength(payloadLength);
    var length := payloadLength;
    var done := false;
    while !done
      invariant if done then header == target else header + EncodeLength(length) == target
      decreases !done, length
    {
      var lengthByte := (length % 128) as bv8;
      if length / 128 > 0 {
        NextLengthByte(length);
        lengthByte := lengthByte | 0x80;
      } else {
        LastLengthByte(length);
      }
      length := length / 128;
      header := header + [lengthByte];
      done := length <= 0;
    }
  }
}
