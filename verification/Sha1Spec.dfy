/** The secure hash standard, written from FIPS PUB 180-1 (sections 3 to 7). */
module Sha1Spec {
  import opened Bytes

  /** The five-word buffers A..E and H0..H4. */
  datatype Buffer = Buffer(a: bv32, b: bv32, c: bv32, d: bv32, e: bv32)

  // ----- Section 3: operations on words

  /** Addition modulo 2^32. */
  function Plus(x: bv32, y: bv32): bv32 {
    x + y
  }

  /** The circular left shift S^n(X), which is (X << n) OR (X >> 32-n), for the three n in use. */
  function S(n: nat, x: bv32): bv32
    requires n in {1, 5, 30}
  {
    if n == 1 then (x << 1) | (x >> 31)
    else if n == 5 then (x << 5) | (x >> 27)
    else (x << 30) | (x >> 2)
  }

  function Xor(x: bv32, y: bv32): bv32 {
    x ^ y
  }

  /** The binary digits of an octet. */
  function Bits(n: nat): bv8 {
    if n == 0 then 0 else (Bits(n / 2) << 1) | (if n % 2 == 1 then 1 else 0)
  }

  /** The word whose octets are b0 b1 b2 b3. */
  function Join(b0: byte, b1: byte, b2: byte, b3: byte): bv32 {
    (Bits(b0 as int) as bv32 << 24) | (Bits(b1 as int) as bv32 << 16) |
    (Bits(b2 as int) as bv32 << 8) | (Bits(b3 as int) as bv32)
  }

  // ----- Section 4: message padding

  /** The number of zero octets between the octet 0x80 and the 64-bit length. */
  function ZeroOctets(length: nat): (z: nat)
    ensures z < 64
    ensures (length + 1 + z + 8) % 64 == 0
  {
    (119 - length % 64) % 64
  }

  function Pad(message: seq<byte>): (padded: seq<byte>)
    requires |message| < 0x2000_0000_0000_0000
    ensures |padded| % 64 == 0
  {
    message + [0x80] + Zeros(ZeroOctets(|message|)) + BigEndian64(8 * |message|)
  }

  // ----- Section 5: functions, section 6: constants

  function Choose(b: bv32, c: bv32, d: bv32): bv32 {
    (b & c) | (!b & d)
  }

  function Parity(b: bv32, c: bv32, d: bv32): bv32 {
    b ^ c ^ d
  }

  function Majority(b: bv32, c: bv32, d: bv32): bv32 {
    (b & c) | (b & d) | (c & d)
  }

  function F(t: nat, b: bv32, c: bv32, d: bv32): bv32
    requires t < 80
  {
    if t < 20 then Choose(b, c, d)
    else if t < 40 then Parity(b, c, d)
    else if t < 60 then Majority(b, c, d)
    else Parity(b, c, d)
  }

  function K(t: nat): bv32
    requires t < 80
  {
    if t < 20 then 0x5A827999
    else if t < 40 then 0x6ED9EBA1
    else if t < 60 then 0x8F1BBCDC
    else 0xCA62C1D6
  }

  const INITIAL_BUFFER: Buffer := Buffer(0x67452301, 0xEFCDAB89, 0x98BADCFE, 0x10325476, 0xC3D2E1F0)

  // ----- Section 7: computing the message digest

  /** The first `t` words of the sequence W(0)..W(79). */
  function W(block: seq<byte>, t: nat): (w: seq<bv32>)
    requires |block| == 64 && t <= 80
    ensures |w| == t
  {
    if t == 0 then [] else var w := W(block, t - 1); w + [NextWord(block, w)]
  }

  /** W(t), from the block or from the words before it. */
  function NextWord(block: seq<byte>, w: seq<bv32>): bv32
    requires |block| == 64 && |w| < 80
  {
    var t := |w|;
    if t < 16 then Join(block[4 * t], block[4 * t + 1], block[4 * t + 2], block[4 * t + 3])
    else S(1, Xor(Xor(Xor(w[t - 3], w[t - 8]), w[t - 14]), w[t - 16]))
  }

  function Round(t: nat, w: bv32, r: Buffer): Buffer
    requires t < 80
  {
    Buffer(Plus(Plus(Plus(Plus(S(5, r.a), F(t, r.b, r.c, r.d)), r.e), w), K(t)), r.a, S(30, r.b), r.c, r.d)
  }

  /** The registers after the first `t` rounds with the word sequence `w`, starting from `h`. */
  function Rounds(h: Buffer, w: seq<bv32>, t: nat): Buffer
    requires |w| == 80 && t <= 80
  {
    if t == 0 then h else Round(t - 1, w[t - 1], Rounds(h, w, t - 1))
  }

  function Add(x: Buffer, y: Buffer): Buffer {
    Buffer(Plus(x.a, y.a), Plus(x.b, y.b), Plus(x.c, y.c), Plus(x.d, y.d), Plus(x.e, y.e))
  }

  function Process(h: Buffer, block: seq<byte>): Buffer
    requires |block| == 64
  {
    Add(h, Rounds(h, W(block, 80), 80))
  }

  /** H0..H4 after processing every 64-octet block of `padded`. */
  function HashBlocks(padded: seq<byte>): Buffer
    requires |padded| % 64 == 0
  {
    if |padded| == 0 then INITIAL_BUFFER
    else Process(HashBlocks(padded[..|padded| - 64]), padded[|padded| - 64..])
  }

  function Digest(message: seq<byte>): Buffer
    requires |message| < 0x2000_0000_0000_0000
  {
    HashBlocks(Pad(message))
  }

  // ----- Messages cut into blocks

  /** The octets of `message` in complete blocks. */
  function Whole(message: seq<byte>): (w: seq<byte>)
    ensures |w| % 64 == 0
  {
    message[..64 * (|message| / 64)]
  }

  /** The octets of `message` after its last complete block. */
  function Tail(message: seq<byte>): (t: seq<byte>)
    ensures |t| < 64 && Whole(message) + t == message
  {
    message[64 * (|message| / 64)..]
  }

  lemma HashOneMore(done: seq<byte>, block: seq<byte>)
    requires |done| % 64 == 0 && |block| == 64
    ensures HashBlocks(done + block) == Process(HashBlocks(done), block)
  {
    var all := done + block;
    assert all[..|all| - 64] == done && all[|all| - 64..] == block;
  }

  lemma CutOneMore(message: seq<byte>, last: byte)
    ensures |Tail(message)| < 63 ==>
              Whole(message + [last]) == Whole(message) && Tail(message + [last]) == Tail(message) + [last]
    ensures |Tail(message)| == 63 ==>
              Whole(message + [last]) == Whole(message) + (Tail(message) + [last]) && Tail(message + [last]) == []
  {
    var k := |message| / 64;
    if |Tail(message)| < 63 {
      assert |message + [last]| / 64 == k;
    } else {
      assert |message + [last]| / 64 == k + 1;
    }
  }

  // ----- Properties of the padding

  /** Padding uses the fewest zeros that make the length a multiple of 512 bits. */
  lemma PaddingIsFewest(length: nat, fewer: nat)
    requires fewer < ZeroOctets(length)
    ensures (length + 1 + fewer + 8) % 64 != 0
  {
  }

  /** The length field makes padding one-to-one. */
  lemma PadInjective(m: seq<byte>, n: seq<byte>)
    requires |m| < 0x2000_0000_0000_0000 && |n| < 0x2000_0000_0000_0000
    requires Pad(m) == Pad(n)
    ensures m == n
  {
    var p := Pad(m);
    assert p[|p| - 8..] == BigEndian64(8 * |m|) && Pad(n)[|p| - 8..] == BigEndian64(8 * |n|);
    BigEndian64Injective(8 * |m|, 8 * |n|);
    assert p[..|m|] == m && Pad(n)[..|n|] == n;
  }

  lemma PadOneBlock(message: seq<byte>)
    requires |message| < 0x2000_0000_0000_0000 && |Tail(message)| <= 55
    ensures Pad(message) ==
            Whole(message) + (Tail(message) + [0x80] + Zeros(55 - |Tail(message)|) + BigEndian64(8 * |message|))
  {
    assert |message| == 64 * (|message| / 64) + |Tail(message)|;
    assert ZeroOctets(|message|) == 55 - |Tail(message)|;
  }

  lemma PadTwoBlocks(message: seq<byte>)
    requires |message| < 0x2000_0000_0000_0000 && |Tail(message)| > 55
    ensures Pad(message) ==
            Whole(message) + (Tail(message) + [0x80] + Zeros(63 - |Tail(message)|))
            + (Zeros(56) + BigEndian64(8 * |message|))
  {
    assert |message| == 64 * (|message| / 64) + |Tail(message)|;
    assert ZeroOctets(|message|) == 63 - |Tail(message)| + 56;
    assert Zeros(63 - |Tail(message)|) + Zeros(56) == Zeros(ZeroOctets(|message|));
  }
}
