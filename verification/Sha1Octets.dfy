/** Words and registers as octets, most significant first: what `Join` and `Bits` mean. */
module Sha1Octets {
  import opened Bytes
  import opened Sha1Spec
  import Bitfield

  /** The octets of a word. */
  function Octets(w: bv32): (os: seq<byte>)
    ensures |os| == 4
  {
    [(w >> 24) as bv8 as byte, ((w >> 16) & 0xFF) as bv8 as byte, ((w >> 8) & 0xFF) as bv8 as byte,
     (w & 0xFF) as bv8 as byte]
  }

  /** The five registers of a digest as the twenty octets of a hash. */
  function DigestOctets(d: Buffer): (os: seq<byte>)
    ensures |os| == 20
  {
    Octets(d.a) + (Octets(d.b) + (Octets(d.c) + (Octets(d.d) + Octets(d.e))))
  }

  /** `Bits` writes down the number itself. */
  lemma {:induction false} BitsValue(n: nat)
    requires n < 256
    ensures Bits(n) as int == n
  {
    if n > 0 {
      BitsValue(n / 2);
      Low(Bits(n / 2));
      Bitfield.Doubled(Bits(n / 2));
    }
  }

  lemma Low(x: bv8)
    requires x as int < 128
    ensures x < 0x80
  {
  }

  lemma SameBits(x: bv8, y: bv8)
    requires x as int == y as int
    ensures x == y
  {
  }

  lemma PartsOfWord(x0: bv8, x1: bv8, x2: bv8, x3: bv8)
    ensures var w: bv32 := (x0 as bv32 << 24) | (x1 as bv32 << 16) | (x2 as bv32 << 8) | (x3 as bv32);
            && (w >> 24) as bv8 == x0 && ((w >> 16) & 0xFF) as bv8 == x1
            && ((w >> 8) & 0xFF) as bv8 == x2 && (w & 0xFF) as bv8 == x3
  {
  }

  lemma OctetsOfParts(x0: bv8, x1: bv8, x2: bv8, x3: bv8, w: bv32)
    requires w == (x0 as bv32 << 24) | (x1 as bv32 << 16) | (x2 as bv32 << 8) | (x3 as bv32)
    ensures Octets(w) == [x0 as byte, x1 as byte, x2 as byte, x3 as byte]
  {
    PartsOfWord(x0, x1, x2, x3);
  }

  lemma WordOfParts(w: bv32)
    ensures w == ((w >> 24) as bv8 as bv32 << 24) | (((w >> 16) & 0xFF) as bv8 as bv32 << 16)
                 | (((w >> 8) & 0xFF) as bv8 as bv32 << 8) | ((w & 0xFF) as bv8 as bv32)
  {
  }

  lemma ByteOfBits(b: byte)
    ensures Bits(b as int) as byte == b
  {
    BitsValue(b as int);
  }

  lemma OctetsOfJoin(b0: byte, b1: byte, b2: byte, b3: byte)
    ensures Octets(Join(b0, b1, b2, b3)) ==
            [Bits(b0 as int) as byte, Bits(b1 as int) as byte, Bits(b2 as int) as byte, Bits(b3 as int) as byte]
  {
    hide Bits, Octets;
    OctetsOfParts(Bits(b0 as int), Bits(b1 as int), Bits(b2 as int), Bits(b3 as int), Join(b0, b1, b2, b3));
  }

  /** Joining octets and taking a word apart undo each other. */
  lemma JoinOctets(b0: byte, b1: byte, b2: byte, b3: byte)
    ensures Octets(Join(b0, b1, b2, b3)) == [b0, b1, b2, b3]
  {
    hide Bits, Octets, Join;
    ByteOfBits(b0);
    ByteOfBits(b1);
    ByteOfBits(b2);
    ByteOfBits(b3);
    OctetsOfJoin(b0, b1, b2, b3);
  }

  lemma OctetsJoin(w: bv32)
    ensures var os := Octets(w); Join(os[0], os[1], os[2], os[3]) == w
  {
    var os := Octets(w);
    OctetBits((w >> 24) as bv8);
    OctetBits(((w >> 16) & 0xFF) as bv8);
    OctetBits(((w >> 8) & 0xFF) as bv8);
    OctetBits((w & 0xFF) as bv8);
    WordOfParts(w);
  }

  lemma OctetBits(x: bv8)
    ensures Bits(x as int) == x
  {
    BitsValue(x as int);
    SameBits(Bits(x as int), x);
  }

  lemma JoinExactly(b0: byte, b1: byte, b2: byte, b3: byte, w: bv32)
    ensures Join(b0, b1, b2, b3) == w <==> Octets(w) == [b0, b1, b2, b3]
  {
    hide Join, Octets;
    JoinOctets(b0, b1, b2, b3);
    OctetsJoin(w);
  }
}
