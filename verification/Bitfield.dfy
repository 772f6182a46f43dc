/** Bitfields: one bit a piece, the high bit of the first octet for piece 0. */
module Bitfield {

  /** The table set_bit of fileio.c. */
  function Mask(k: nat): (m: bv8)
    requires k < 8
  {
    if k == 0 then 1 else if k == 1 then 2 else if k == 2 then 4 else if k == 3 then 8
    else if k == 4 then 16 else if k == 5 then 32 else if k == 6 then 64 else 128
  }

  lemma MasksDiffer(j: nat, k: nat)
    requires j < 8 && k < 8 && j != k
    ensures Mask(j) & Mask(k) == 0
  {
  }

  lemma MaskIsShift(k: nat)
    requires k < 8
    ensures (1 as bv8) << k == Mask(k)
  {
    assert k == 0 || k == 1 || k == 2 || k == 3 || k == 4 || k == 5 || k == 6 || k == 7;
  }

  function Or(x: bv8, y: bv8): bv8 {
    x | y
  }

  function AndNot(x: bv8, y: bv8): bv8 {
    x & !y
  }

  /** get_bit_at_index: the bit, or -1 outside the bitfield. */
  function GetBit(bitfield: seq<bv8>, index: int): (bit: int)
    ensures bit == -1 <==> index < 0 || index >= 8 * |bitfield|
    ensures bit in {-1, 0, 1}
  {
    if index < 0 then -1
    else if index / 8 >= |bitfield| then -1
    else if bitfield[index / 8] & ((1 as bv8) << (7 - index % 8)) == 0 then 0 else 1
  }

  /** Bit `k` of a number, counted from its low end: what is odd or even after halving it `k` times. */
  function OctetBit(n: nat, k: nat): (bit: int)
    ensures bit in {0, 1}
  {
    if k == 0 then n % 2 else OctetBit(n / 2, k - 1)
  }

  lemma Doubled(x: bv8)
    requires x < 0x80
    ensures (x << 1) as int == 2 * (x as int) && ((x << 1) | 1) as int == 2 * (x as int) + 1
  {
  }

  lemma Halved(x: bv8)
    ensures (x >> 1) as int == x as int / 2
    ensures (x & 1 == 0) <==> x as int % 2 == 0
  {
    var half := x >> 1;
    Doubled(half);
    assert x == if x & 1 == 0 then half << 1 else (half << 1) | 1;
  }

  lemma MaskOfHalf(x: bv8, k: nat)
    requires 0 < k < 8
    ensures (x & Mask(k) == 0) <==> ((x >> 1) & Mask(k - 1) == 0)
  {
  }

  lemma MaskOfOne(x: bv8)
    ensures (x & Mask(0) == 0) <==> (x & 1 == 0)
  {
  }

  lemma {:induction false} MaskedBit(x: bv8, k: nat)
    requires k < 8
    ensures (Masked(x, k) == 0) <==> OctetBit(x as int, k) == 0
  {
    Halved(x);
    if k == 0 {
      MaskOfOne(x);
    } else {
      MaskOfHalf(x, k);
      hide Mask;
      MaskedBit(x >> 1, k - 1);
    }
  }

  /** Piece `index` is bit `7 - index % 8` of octet `index / 8`. */
  lemma GetBitIsOctetBit(bitfield: seq<bv8>, index: nat)
    requires index < 8 * |bitfield|
    ensures GetBit(bitfield, index) == OctetBit(bitfield[index / 8] as int, 7 - index % 8)
  {
    MaskIsShift(7 - index % 8);
    MaskedBit(bitfield[index / 8], 7 - index % 8);
  }

  /** What a bit that was read contributes to its octet. */
  function Weight(bit: int, offset: nat): bv8
    requires offset < 8
  {
    if bit == 1 then Mask(offset) else 0
  }

  /** The bits that are read, eight at a time and the high bit first, make up the octets. */
  lemma OctetFromBits(bitfield: seq<bv8>, k: nat)
    requires k < |bitfield|
    ensures bitfield[k] ==
            Weight(GetBit(bitfield, 8 * k), 7) | Weight(GetBit(bitfield, 8 * k + 1), 6)
            | Weight(GetBit(bitfield, 8 * k + 2), 5) | Weight(GetBit(bitfield, 8 * k + 3), 4)
            | Weight(GetBit(bitfield, 8 * k + 4), 3) | Weight(GetBit(bitfield, 8 * k + 5), 2)
            | Weight(GetBit(bitfield, 8 * k + 6), 1) | Weight(GetBit(bitfield, 8 * k + 7), 0)
  {
    hide GetBit, Mask, Weight, Masked;
    BitOf(bitfield, k, 0);
    BitOf(bitfield, k, 1);
    BitOf(bitfield, k, 2);
    BitOf(bitfield, k, 3);
    BitOf(bitfield, k, 4);
    BitOf(bitfield, k, 5);
    BitOf(bitfield, k, 6);
    BitOf(bitfield, k, 7);
    SumOfMasks(bitfield[k]);
  }

  /** The bit of an octet at an offset from its low end. */
  function Masked(octet: bv8, offset: nat): bv8
    requires offset < 8
  {
    octet & Mask(offset)
  }

  lemma BitOf(bitfield: seq<bv8>, k: nat, j: nat)
    requires k < |bitfield| && j < 8
    ensures Weight(GetBit(bitfield, 8 * k + j), 7 - j) == Masked(bitfield[k], 7 - j)
  {
    assert (8 * k + j) / 8 == k && (8 * k + j) % 8 == j;
    MaskIsShift(7 - j);
    MaskedIsAll(bitfield[k], 7 - j);
  }

  lemma MaskedIsAll(octet: bv8, offset: nat)
    requires offset < 8
    ensures Masked(octet, offset) == 0 || Masked(octet, offset) == Mask(offset)
  {
  }

  lemma SumOfMasks(octet: bv8)
    ensures octet == Masked(octet, 7) | Masked(octet, 6) | Masked(octet, 5) | Masked(octet, 4)
                     | Masked(octet, 3) | Masked(octet, 2) | Masked(octet, 1) | Masked(octet, 0)
  {
  }

  /** What set_bit_at_index stores in the octet it changes. */
  function WithBit(octet: bv8, offset: nat, bit: bool): bv8
    requires offset < 8
  {
    if bit then Or(octet, Mask(offset)) else AndNot(octet, Mask(offset))
  }

  lemma WithBitSetsOne(octet: bv8, offset: nat, bit: bool, other: nat)
    requires offset < 8 && other < 8
    ensures (WithBit(octet, offset, bit) & Mask(other) == 0) ==
            if other == offset then !bit else octet & Mask(other) == 0
  {
    if other == offset {
      var m := Mask(offset);
      assert m != 0;
      assert ((octet | m) & m) == m && ((octet & !m) & m) == 0;
    } else {
      MasksDiffer(offset, other);
      OtherMask(octet, Mask(offset), Mask(other));
    }
  }

  lemma OtherMask(octet: bv8, m: bv8, n: bv8)
    requires m & n == 0
    ensures (octet | m) & n == octet & n && (octet & !m) & n == octet & n
  {
  }

  function SetBit(info: seq<bv8>, index: nat, bit: bool): (r: seq<bv8>)
    requires index < 8 * |info|
    ensures |r| == |info|
  {
    info[index / 8 := WithBit(info[index / 8], 7 - index % 8, bit)]
  }

  /** Reading after writing: bit `index` is the one written, every other bit is as before. */
  lemma GetSet(info: seq<bv8>, index: nat, bit: bool, j: int)
    requires index < 8 * |info|
    ensures GetBit(SetBit(info, index, bit), j) ==
            if j == index then (if bit then 1 else 0) else GetBit(info, j)
  {
    if 0 <= j < 8 * |info| && j / 8 == index / 8 {
      MaskIsShift(7 - j % 8);
      WithBitSetsOne(info[index / 8], 7 - index % 8, bit, 7 - j % 8);
    }
  }

  /** set_bit_at_index. */
  method SetBitAtIndex(info: array<bv8>, index: nat, bit: bool)
    requires index < 8 * info.Length
    modifies info
    ensures info[..] == SetBit(old(info[..]), index, bit)
  {
    var byteIndex, offset := index / 8, 7 - index % 8;
    var octet := info[byteIndex];
    if bit {
      octet := Or(octet, Mask(offset));
    } else {
      octet := AndNot(octet, Mask(offset));
    }
    info[byteIndex] := octet;
  }
}
