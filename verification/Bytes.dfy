/** Bytes and the network byte order of 32-bit lengths. */
module Bytes {
  type Byte = x: int | 0 <= x < 256

  const UINT32_LIMIT: int := 0x1_0000_0000

  /** The memory of HostToNet32(n): most significant byte first. */
  function BigEndian32(n: nat): (b: seq<Byte>)
    requires n < UINT32_LIMIT
    ensures |b| == 4
    ensures n == b[0] as int * 0x100_0000 + b[1] as int * 0x1_0000 + b[2] as int * 0x100 + b[3] as int
  {
    BigEndianSum(n);
    var a: int, b: int, c: int := n / 0x100, n / 0x1_0000, n / 0x100_0000;
    [c, b % 0x100, a % 0x100, n % 0x100]
  }

  lemma BigEndianSum(n: nat)
    requires n < UINT32_LIMIT
    ensures var a, b, c := n / 0x100, n / 0x1_0000, n / 0x100_0000;
            c < 0x100 && c * 0x100_0000 + b % 0x100 * 0x1_0000 + a % 0x100 * 0x100 + n % 0x100 == n
  {
    var a, b, c := n / 0x100, n / 0x1_0000, n / 0x100_0000;
    assert n == a * 0x100 + n % 0x100;
    assert b == a / 0x100 && a == b * 0x100 + a % 0x100;
    assert c == b / 0x100 && b == c * 0x100 + b % 0x100;
  }

  /** The byte at position k, zero past the end. */
  function ByteAt(b: seq<Byte>, k: nat): nat {
    if k < |b| then b[k] else 0
  }

  /** NetToHost32 of a zeroed word into which the first bytes of b were copied. */
  function FromBigEndian32(b: seq<Byte>): nat {
    ByteAt(b, 0) * 0x100_0000 + ByteAt(b, 1) * 0x1_0000 + ByteAt(b, 2) * 0x100 + ByteAt(b, 3)
  }

  lemma BigEndianRoundTrip(n: nat)
    requires n < UINT32_LIMIT
    ensures FromBigEndian32(BigEndian32(n)) == n
  {
  }

  /** A length that is cut short reads as if zeros followed. */
  lemma ShortLength(b: seq<Byte>)
    requires |b| < 4
    ensures FromBigEndian32(b) == FromBigEndian32(b + [0])
  {
  }

  /** IOBuf::cutn: at most n bytes off the front. */
  function CutN(buf: seq<Byte>, n: nat): (r: (seq<Byte>, seq<Byte>))
    ensures r.0 + r.1 == buf && (|r.0| == n || (|r.0| < n && r.1 == []))
  {
    var k := if n < |buf| then n else |buf|;
    (buf[..k], buf[k..])
  }
}
