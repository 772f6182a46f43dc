/** Octets, and the big-endian fixed-width integers every other module serialises. */
module Bytes {

  newtype byte = x: int | 0 <= x < 256

  /** The four octets of a 32-bit quantity, most significant first. */
  function BigEndian32(n: int): (bs: seq<byte>)
    requires 0 <= n < 0x1_0000_0000
    ensures |bs| == 4
  {
    [(n / 0x100_0000) as byte, (n / 0x1_0000 % 0x100) as byte, (n / 0x100 % 0x100) as byte, (n % 0x100) as byte]
  }

  function FromBigEndian32(bs: seq<byte>): (n: int)
    requires |bs| == 4
    ensures 0 <= n < 0x1_0000_0000
  {
    bs[0] as int * 0x100_0000 + bs[1] as int * 0x1_0000 + bs[2] as int * 0x100 + bs[3] as int
  }

  lemma BigEndian32RoundTrip(n: int)
    requires 0 <= n < 0x1_0000_0000
    ensures FromBigEndian32(BigEndian32(n)) == n
  {
    var high, middle := n / 0x1_0000, n / 0x100;
    assert middle == high * 0x100 + middle % 0x100;
    assert high == n / 0x100_0000 * 0x100 + high % 0x100;
  }

  /** The eight octets of a 64-bit quantity, most significant first. */
  function BigEndian64(n: int): (bs: seq<byte>)
    requires 0 <= n < 0x1_0000_0000_0000_0000
    ensures |bs| == 8
  {
    BigEndian32(n / 0x1_0000_0000) + BigEndian32(n % 0x1_0000_0000)
  }

  lemma BigEndian64Injective(m: int, n: int)
    requires 0 <= m < 0x1_0000_0000_0000_0000 && 0 <= n < 0x1_0000_0000_0000_0000
    requires BigEndian64(m) == BigEndian64(n)
    ensures m == n
  {
    assert BigEndian64(m)[..4] == BigEndian32(m / 0x1_0000_0000);
    assert BigEndian64(m)[4..] == BigEndian32(m % 0x1_0000_0000);
    assert BigEndian64(n)[..4] == BigEndian32(n / 0x1_0000_0000);
    assert BigEndian64(n)[4..] == BigEndian32(n % 0x1_0000_0000);
    BigEndian32RoundTrip(m / 0x1_0000_0000);
    BigEndian32RoundTrip(n / 0x1_0000_0000);
    BigEndian32RoundTrip(m % 0x1_0000_0000);
    BigEndian32RoundTrip(n % 0x1_0000_0000);
  }

  function Zeros(n: nat): (zs: seq<byte>)
    ensures |zs| == n && forall i :: 0 <= i < n ==> zs[i] == 0
  {
    seq(n, _ => 0)
  }

  /** All the elements of a sequence of sequences, in order. */
  function Concat<T>(parts: seq<seq<T>>): (all: seq<T>)
  {
    if parts == [] then [] else parts[0] + Concat(parts[1..])
  }
}
