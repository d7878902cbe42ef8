module Bits {
  lemma ByteRoundTrip(n: nat)
    requires n < 256
    ensures (n as bv8) as int == n
  {
  }
}

/** Byte strings, and the big-endian integers struct.pack writes into them. */
module Bytes {
  import opened Bits

  type bytes = seq<bv8>

  function Pack16(n: nat): (b: bytes)
    requires n < 65536
    ensures |b| == 2
  {
    [(n / 256) as bv8, (n % 256) as bv8]
  }

  function Unpack16(b: bytes): (n: nat)
    requires |b| == 2
    ensures n < 65536
  {
    b[0] as nat * 256 + b[1] as nat
  }

  lemma PackUnpack16(n: nat)
    requires n < 65536
    ensures Unpack16(Pack16(n)) == n
  {
    ByteRoundTrip(n / 256);
    ByteRoundTrip(n % 256);
  }

  /** The low k bytes of n, most significant first. */
  function BigEndian(n: nat, k: nat): (b: bytes)
    ensures |b| == k
  {
    if k == 0 then [] else BigEndian(n / 256, k - 1) + [(n % 256) as bv8]
  }

  /** int.from_bytes(b, "big"). */
  function FromBytes(b: bytes): nat {
    if b == [] then 0 else 256 * FromBytes(b[..|b| - 1]) + b[|b| - 1] as nat
  }

  function Power256(k: nat): (p: nat)
    ensures p > 0
  {
    if k == 0 then 1 else 256 * Power256(k - 1)
  }

  lemma {:induction false} BigEndianRoundTrip(n: nat, k: nat)
    requires n < Power256(k)
    ensures FromBytes(BigEndian(n, k)) == n
  {
    if k > 0 {
      BigEndianRoundTrip(n / 256, k - 1);
      ByteRoundTrip(n % 256);
      assert BigEndian(n, k)[..k - 1] == BigEndian(n / 256, k - 1);
    }
  }
}
