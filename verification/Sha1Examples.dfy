/** The two worked examples of FIPS PUB 180-1 (appendices A and B), word by word and round by round. */
module Sha1Examples {
  import opened Bytes
  import opened Sha1Spec
  import opened Sha1Octets

  // ----- One turn of the computation

  lemma {:induction false} SchedulePrefix(block: seq<byte>, t: nat, n: nat)
    requires |block| == 64 && t <= n <= 80
    ensures W(block, n)[..t] == W(block, t)
  {
    if t < n {
      SchedulePrefix(block, t, n - 1);
      assert W(block, n)[..t] == W(block, n - 1)[..t];
    } else {
      assert W(block, n)[..t] == W(block, n);
    }
  }

  lemma WordAt(block: seq<byte>, t: nat)
    requires |block| == 64 && t < 80
    ensures W(block, 80)[t] == NextWord(block, W(block, 80)[..t])
  {
    SchedulePrefix(block, t, 80);
    SchedulePrefix(block, t + 1, 80);
    assert W(block, 80)[t] == W(block, 80)[..t + 1][t];
  }

  /** The registers after `t` rounds. */
  ghost predicate Registers(h: Buffer, block: seq<byte>, t: nat, r: Buffer) {
    |block| == 64 && t <= 80 && Rounds(h, W(block, 80), t) == r
  }

  /** Word `t` of the schedule. */
  ghost predicate IsWord(block: seq<byte>, t: nat, w: bv32) {
    |block| == 64 && t < 80 && W(block, 80)[t] == w
  }

  lemma RoundFrom(h: Buffer, block: seq<byte>, t: nat, w: bv32,
                  a: bv32, b: bv32, c: bv32, d: bv32, e: bv32, a': bv32, c': bv32)
    requires t < 80 && Registers(h, block, t, Buffer(a, b, c, d, e)) && IsWord(block, t, w)
    requires Plus(Plus(Plus(Plus(S(5, a), F(t, b, c, d)), e), w), K(t)) == a' && S(30, b) == c'
    ensures Registers(h, block, t + 1, Buffer(a', a, c', c, d))
  {
    hide S, F, K, Plus, W;
  }

  /** A round with a word of the block. */
  lemma FirstTurn(h: Buffer, block: seq<byte>, t: nat, w: bv32,
                  a: bv32, b: bv32, c: bv32, d: bv32, e: bv32, a': bv32, c': bv32)
    requires t < 16 && Registers(h, block, t, Buffer(a, b, c, d, e))
    requires Octets(w) == [block[4 * t], block[4 * t + 1], block[4 * t + 2], block[4 * t + 3]]
    requires Plus(Plus(Plus(Plus(S(5, a), F(t, b, c, d)), e), w), K(t)) == a' && S(30, b) == c'
    ensures IsWord(block, t, w) && Registers(h, block, t + 1, Buffer(a', a, c', c, d))
  {
    hide S, F, K, Plus, W, Octets, Join;
    WordAt(block, t);
    JoinExactly(block[4 * t], block[4 * t + 1], block[4 * t + 2], block[4 * t + 3], w);
    RoundFrom(h, block, t, w, a, b, c, d, e, a', c');
  }

  /** A round with a word of the schedule. */
  lemma Turn(h: Buffer, block: seq<byte>, t: nat, w3: bv32, w8: bv32, w14: bv32, w16: bv32, w: bv32,
             a: bv32, b: bv32, c: bv32, d: bv32, e: bv32, a': bv32, c': bv32)
    requires 16 <= t < 80 && Registers(h, block, t, Buffer(a, b, c, d, e))
    requires IsWord(block, t - 3, w3) && IsWord(block, t - 8, w8)
    requires IsWord(block, t - 14, w14) && IsWord(block, t - 16, w16)
    requires S(1, Xor(Xor(Xor(w3, w8), w14), w16)) == w
    requires Plus(Plus(Plus(Plus(S(5, a), F(t, b, c, d)), e), w), K(t)) == a' && S(30, b) == c'
    ensures IsWord(block, t, w) && Registers(h, block, t + 1, Buffer(a', a, c', c, d))
  {
    hide S, F, K, Plus, W, Xor;
    WordAt(block, t);
    RoundFrom(h, block, t, w, a, b, c, d, e, a', c');
  }

  lemma NoRounds(h: Buffer, block: seq<byte>)
    requires |block| == 64
    ensures Registers(h, block, 0, h)
  {
  }

  // ----- Appendix A: the message "abc"

  /** The padded message. */
  function AbcBlock(): (block: seq<byte>)
    ensures |block| == 64
  {
    [0x61, 0x62, 0x63, 0x80] + Zeros(59) + [0x18]
  }

  lemma AbcRounds0To15(h: Buffer, block: seq<byte>)
    requires h == Buffer(0x67452301, 0xEFCDAB89, 0x98BADCFE, 0x10325476, 0xC3D2E1F0)
    requires block == AbcBlock()
    ensures Registers(h, block, 16, Buffer(0x20BDD62F, 0x196BEE77, 0x644A3DA5, 0x1181ED99, 0x18C623F9))
    ensures IsWord(block, 0, 0x61626380) && IsWord(block, 1, 0x00000000)
    ensures IsWord(block, 2, 0x00000000) && IsWord(block, 3, 0x00000000)
    ensures IsWord(block, 4, 0x00000000) && IsWord(block, 5, 0x00000000)
    ensures IsWord(block, 6, 0x00000000) && IsWord(block, 7, 0x00000000)
    ensures IsWord(block, 8, 0x00000000) && IsWord(block, 9, 0x00000000)
    ensures IsWord(block, 10, 0x00000000) && IsWord(block, 11, 0x00000000)
    ensures IsWord(block, 12, 0x00000000) && IsWord(block, 13, 0x00000000)
    ensures IsWord(block, 14, 0x00000000) && IsWord(block, 15, 0x00000018)
  {
    hide Registers, IsWord;
    NoRounds(h, block);
    var a0, a1: bv32 := 0xEFCDAB89, 0x67452301;
    var c0, c1, c2: bv32 := 0xC3D2E1F0, 0x10325476, 0x98BADCFE;
    var w0, a2, c3: bv32 := 0x61626380, 0x0116FC33, 0x7BF36AE2;
    FirstTurn(h, block, 0, w0, a1, a0, c2, c1, c0, a2, c3);
    var w1, a3, c4: bv32 := 0x00000000, 0x8990536D, 0x59D148C0;
    FirstTurn(h, block, 1, w1, a2, a1, c3, c2, c1, a3, c4);
    var w2, a4, c5: bv32 := 0x00000000, 0xA1390F08, 0xC045BF0C;
    FirstTurn(h, block, 2, w2, a3, a2, c4, c3, c2, a4, c5);
    var w3, a5, c6: bv32 := 0x00000000, 0xCDD8E11B, 0x626414DB;
    FirstTurn(h, block, 3, w3, a4, a3, c5, c4, c3, a5, c6);
    var w4, a6, c7: bv32 := 0x00000000, 0xCFD499DE, 0x284E43C2;
    FirstTurn(h, block, 4, w4, a5, a4, c6, c5, c4, a6, c7);
    var w5, a7, c8: bv32 := 0x00000000, 0x3FC7CA40, 0xF3763846;
    FirstTurn(h, block, 5, w5, a6, a5, c7, c6, c5, a7, c8);
    var w6, a8, c9: bv32 := 0x00000000, 0x993E30C1, 0xB3F52677;
    FirstTurn(h, block, 6, w6, a7, a6, c8, c7, c6, a8, c9);
    var w7, a9, c10: bv32 := 0x00000000, 0x9E8C07D4, 0x0FF1F290;
    FirstTurn(h, block, 7, w7, a8, a7, c9, c8, c7, a9, c10);
    var w8, a10, c11: bv32 := 0x00000000, 0x4B6AE328, 0x664F8C30;
    FirstTurn(h, block, 8, w8, a9, a8, c10, c9, c8, a10, c11);
    var w9, a11, c12: bv32 := 0x00000000, 0x8351F929, 0x27A301F5;
    FirstTurn(h, block, 9, w9, a10, a9, c11, c10, c9, a11, c12);
    var w10, a12, c13: bv32 := 0x00000000, 0xFBDA9E89, 0x12DAB8CA;
    FirstTurn(h, block, 10, w10, a11, a10, c12, c11, c10, a12, c13);
    var w11, a13, c14: bv32 := 0x00000000, 0x63188FE4, 0x60D47E4A;
    FirstTurn(h, block, 11, w11, a12, a11, c13, c12, c11, a13, c14);
    var w12, a14, c15: bv32 := 0x00000000, 0x4607B664, 0x7EF6A7A2;
    FirstTurn(h, block, 12, w12, a13, a12, c14, c13, c12, a14, c15);
    var w13, a15, c16: bv32 := 0x00000000, 0x9128F695, 0x18C623F9;
    FirstTurn(h, block, 13, w13, a14, a13, c15, c14, c13, a15, c16);
    var w14, a16, c17: bv32 := 0x00000000, 0x196BEE77, 0x1181ED99;
    FirstTurn(h, block, 14, w14, a15, a14, c16, c15, c14, a16, c17);
    var w15, a17, c18: bv32 := 0x00000018, 0x20BDD62F, 0x644A3DA5;
    FirstTurn(h, block, 15, w15, a16, a15, c17, c16, c15, a17, c18);
  }

  lemma AbcRounds16To31(h: Buffer, block: seq<byte>)
    requires Registers(h, block, 16, Buffer(0x20BDD62F, 0x196BEE77, 0x644A3DA5, 0x1181ED99, 0x18C623F9))
    requires IsWord(block, 0, 0x61626380) && IsWord(block, 1, 0x00000000)
    requires IsWord(block, 2, 0x00000000) && IsWord(block, 3, 0x00000000)
    requires IsWord(block, 4, 0x00000000) && IsWord(block, 5, 0x00000000)
    requires IsWord(block, 6, 0x00000000) && IsWord(block, 7, 0x00000000)
    requires IsWord(block, 8, 0x00000000) && IsWord(block, 9, 0x00000000)
    requires IsWord(block, 10, 0x00000000) && IsWord(block, 11, 0x00000000)
    requires IsWord(block, 12, 0x00000000) && IsWord(block, 13, 0x00000000)
    requires IsWord(block, 14, 0x00000000) && IsWord(block, 15, 0x00000018)
    ensures Registers(h, block, 32, Buffer(0x3B845D33, 0x1267B407, 0x717EEBD7, 0xA0DC2D4B, 0xD2AA1365))
    ensures IsWord(block, 16, 0xC2C4C700) && IsWord(block, 17, 0x00000000)
    ensures IsWord(block, 18, 0x00000030) && IsWord(block, 19, 0x85898E01)
    ensures IsWord(block, 20, 0x00000000) && IsWord(block, 21, 0x00000060)
    ensures IsWord(block, 22, 0x0B131C03) && IsWord(block, 23, 0x00000030)
    ensures IsWord(block, 24, 0x85898EC1) && IsWord(block, 25, 0x16263806)
    ensures IsWord(block, 26, 0x00000000) && IsWord(block, 27, 0x00000180)
    ensures IsWord(block, 28, 0x2C4C700C) && IsWord(block, 29, 0x000000F0)
    ensures IsWord(block, 30, 0x93AFB507) && IsWord(block, 31, 0x5898E048)
  {
    hide Registers, IsWord;
    var a16, a17: bv32 := 0x196BEE77, 0x20BDD62F;
    var c16, c17, c18: bv32 := 0x18C623F9, 0x1181ED99, 0x644A3DA5;
    var w0, w1, w2, w3: bv32 := 0x61626380, 0x00000000, 0x00000000, 0x00000000;
    var w4, w5, w6, w7: bv32 := 0x00000000, 0x00000000, 0x00000000, 0x00000000;
    var w8, w9, w10, w11: bv32 := 0x00000000, 0x00000000, 0x00000000, 0x00000000;
    var w12, w13, w14, w15: bv32 := 0x00000000, 0x00000000, 0x00000000, 0x00000018;
    var w16, a18, c19: bv32 := 0xC2C4C700, 0x4E925823, 0xC65AFB9D;
    Turn(h, block, 16, w13, w8, w2, w0, w16, a17, a16, c18, c17, c16, a18, c19);
    var w17, a19, c20: bv32 := 0x00000000, 0x82AA6728, 0xC82F758B;
    Turn(h, block, 17, w14, w9, w3, w1, w17, a18, a17, c19, c18, c17, a19, c20);
    var w18, a20, c21: bv32 := 0x00000030, 0xDC64901D, 0xD3A49608;
    Turn(h, block, 18, w15, w10, w4, w2, w18, a19, a18, c20, c19, c18, a20, c21);
    var w19, a21, c22: bv32 := 0x85898E01, 0xFD9E1D7D, 0x20AA99CA;
    Turn(h, block, 19, w16, w11, w5, w3, w19, a20, a19, c21, c20, c19, a21, c22);
    var w20, a22, c23: bv32 := 0x00000000, 0x1A37B0CA, 0x77192407;
    Turn(h, block, 20, w17, w12, w6, w4, w20, a21, a20, c22, c21, c20, a22, c23);
    var w21, a23, c24: bv32 := 0x00000060, 0x33A23BFC, 0x7F67875F;
    Turn(h, block, 21, w18, w13, w7, w5, w21, a22, a21, c23, c22, c21, a23, c24);
    var w22, a24, c25: bv32 := 0x0B131C03, 0x21283486, 0x868DEC32;
    Turn(h, block, 22, w19, w14, w8, w6, w22, a23, a22, c24, c23, c22, a24, c25);
    var w23, a25, c26: bv32 := 0x00000030, 0xD541F12D, 0x0CE88EFF;
    Turn(h, block, 23, w20, w15, w9, w7, w23, a24, a23, c25, c24, c23, a25, c26);
    var w24, a26, c27: bv32 := 0x85898EC1, 0xC7567DC6, 0x884A0D21;
    Turn(h, block, 24, w21, w16, w10, w8, w24, a25, a24, c26, c25, c24, a26, c27);
    var w25, a27, c28: bv32 := 0x16263806, 0x48413BA4, 0x75507C4B;
    Turn(h, block, 25, w22, w17, w11, w9, w25, a26, a25, c27, c26, c25, a27, c28);
    var w26, a28, c29: bv32 := 0x00000000, 0xBE35FBD5, 0xB1D59F71;
    Turn(h, block, 26, w23, w18, w12, w10, w26, a27, a26, c28, c27, c26, a28, c29);
    var w27, a29, c30: bv32 := 0x00000180, 0x4AA84D97, 0x12104EE9;
    Turn(h, block, 27, w24, w19, w13, w11, w27, a28, a27, c29, c28, c27, a29, c30);
    var w28, a30, c31: bv32 := 0x2C4C700C, 0x8370B52E, 0x6F8D7EF5;
    Turn(h, block, 28, w25, w20, w14, w12, w28, a29, a28, c30, c29, c28, a30, c31);
    var w29, a31, c32: bv32 := 0x000000F0, 0xC5FBAF5D, 0xD2AA1365;
    Turn(h, block, 29, w26, w21, w15, w13, w29, a30, a29, c31, c30, c29, a31, c32);
    var w30, a32, c33: bv32 := 0x93AFB507, 0x1267B407, 0xA0DC2D4B;
    Turn(h, block, 30, w27, w22, w16, w14, w30, a31, a30, c32, c31, c30, a32, c33);
    var w31, a33, c34: bv32 := 0x5898E048, 0x3B845D33, 0x717EEBD7;
    Turn(h, block, 31, w28, w23, w17, w15, w31, a32, a31, c33, c32, c31, a33, c34);
  }

  lemma AbcRounds32To47(h: Buffer, block: seq<byte>)
    requires Registers(h, block, 32, Buffer(0x3B845D33, 0x1267B407, 0x717EEBD7, 0xA0DC2D4B, 0xD2AA1365))
    requires IsWord(block, 16, 0xC2C4C700) && IsWord(block, 17, 0x00000000)
    requires IsWord(block, 18, 0x00000030) && IsWord(block, 19, 0x85898E01)
    requires IsWord(block, 20, 0x00000000) && IsWord(block, 21, 0x00000060)
    requires IsWord(block, 22, 0x0B131C03) && IsWord(block, 23, 0x00000030)
    requires IsWord(block, 24, 0x85898EC1) && IsWord(block, 25, 0x16263806)
    requires IsWord(block, 26, 0x00000000) && IsWord(block, 27, 0x00000180)
    requires IsWord(block, 28, 0x2C4C700C) && IsWord(block, 29, 0x000000F0)
    requires IsWord(block, 30, 0x93AFB507) && IsWord(block, 31, 0x5898E048)
    ensures Registers(h, block, 48, Buffer(0xBEAD02CA, 0xA01B846C, 0x8714787C, 0x503CA382, 0xFB86C6AB))
    ensures IsWord(block, 32, 0x8E9A9202) && IsWord(block, 33, 0x00000600)
    ensures IsWord(block, 34, 0xB131C0F0) && IsWord(block, 35, 0x16263BC6)
    ensures IsWord(block, 36, 0x4EBED41E) && IsWord(block, 37, 0x626380A1)
    ensures IsWord(block, 38, 0x16263806) && IsWord(block, 39, 0x000018C0)
    ensures IsWord(block, 40, 0xD2E138C4) && IsWord(block, 41, 0x00000F00)
    ensures IsWord(block, 42, 0x3AFB5079) && IsWord(block, 43, 0x898E04E5)
    ensures IsWord(block, 44, 0xE2BA3C2B) && IsWord(block, 45, 0x000060C0)
    ensures IsWord(block, 46, 0x053A37CD) && IsWord(block, 47, 0x74458547)
  {
    hide Registers, IsWord;
    var a32, a33: bv32 := 0x1267B407, 0x3B845D33;
    var c32, c33, c34: bv32 := 0xD2AA1365, 0xA0DC2D4B, 0x717EEBD7;
    var w16, w17, w18, w19: bv32 := 0xC2C4C700, 0x00000000, 0x00000030, 0x85898E01;
    var w20, w21, w22, w23: bv32 := 0x00000000, 0x00000060, 0x0B131C03, 0x00000030;
    var w24, w25, w26, w27: bv32 := 0x85898EC1, 0x16263806, 0x00000000, 0x00000180;
    var w28, w29, w30, w31: bv32 := 0x2C4C700C, 0x000000F0, 0x93AFB507, 0x5898E048;
    var w32, a34, c35: bv32 := 0x8E9A9202, 0x046FAA0A, 0xC499ED01;
    Turn(h, block, 32, w29, w24, w18, w16, w32, a33, a32, c34, c33, c32, a34, c35);
    var w33, a35, c36: bv32 := 0x00000600, 0x2C0EBC11, 0xCEE1174C;
    Turn(h, block, 33, w30, w25, w19, w17, w33, a34, a33, c35, c34, c33, a35, c36);
    var w34, a36, c37: bv32 := 0xB131C0F0, 0x21796AD4, 0x811BEA82;
    Turn(h, block, 34, w31, w26, w20, w18, w34, a35, a34, c36, c35, c34, a36, c37);
    var w35, a37, c38: bv32 := 0x16263BC6, 0xDCBBB0CB, 0x4B03AF04;
    Turn(h, block, 35, w32, w27, w21, w19, w35, a36, a35, c37, c36, c35, a37, c38);
    var w36, a38, c39: bv32 := 0x4EBED41E, 0x0F511FD8, 0x085E5AB5;
    Turn(h, block, 36, w33, w28, w22, w20, w36, a37, a36, c38, c37, c36, a38, c39);
    var w37, a39, c40: bv32 := 0x626380A1, 0xDC63973F, 0xF72EEC32;
    Turn(h, block, 37, w34, w29, w23, w21, w37, a38, a37, c39, c38, c37, a39, c40);
    var w38, a40, c41: bv32 := 0x16263806, 0x4C986405, 0x03D447F6;
    Turn(h, block, 38, w35, w30, w24, w22, w38, a39, a38, c40, c39, c38, a40, c41);
    var w39, a41, c42: bv32 := 0x000018C0, 0x32DE1CBA, 0xF718E5CF;
    Turn(h, block, 39, w36, w31, w25, w23, w39, a40, a39, c41, c40, c39, a41, c42);
    var w40, a42, c43: bv32 := 0xD2E138C4, 0xFC87DEDF, 0x53261901;
    Turn(h, block, 40, w37, w32, w26, w24, w40, a41, a40, c42, c41, c40, a42, c43);
    var w41, a43, c44: bv32 := 0x00000F00, 0x970A0D5C, 0x8CB7872E;
    Turn(h, block, 41, w38, w33, w27, w25, w41, a42, a41, c43, c42, c41, a43, c44);
    var w42, a44, c45: bv32 := 0x3AFB5079, 0x7F193DC5, 0xFF21F7B7;
    Turn(h, block, 42, w39, w34, w28, w26, w42, a43, a42, c44, c43, c42, a44, c45);
    var w43, a45, c46: bv32 := 0x898E04E5, 0xEE1B1AAF, 0x25C28357;
    Turn(h, block, 43, w40, w35, w29, w27, w43, a44, a43, c45, c44, c43, a45, c46);
    var w44, a46, c47: bv32 := 0xE2BA3C2B, 0x40F28E09, 0x5FC64F71;
    Turn(h, block, 44, w41, w36, w30, w28, w44, a45, a44, c46, c45, c44, a46, c47);
    var w45, a47, c48: bv32 := 0x000060C0, 0x1C51E1F2, 0xFB86C6AB;
    Turn(h, block, 45, w42, w37, w31, w29, w45, a46, a45, c47, c46, c45, a47, c48);
    var w46, a48, c49: bv32 := 0x053A37CD, 0xA01B846C, 0x503CA382;
    Turn(h, block, 46, w43, w38, w32, w30, w46, a47, a46, c48, c47, c46, a48, c49);
    var w47, a49, c50: bv32 := 0x74458547, 0xBEAD02CA, 0x8714787C;
    Turn(h, block, 47, w44, w39, w33, w31, w47, a48, a47, c49, c48, c47, a49, c50);
  }

  lemma AbcRounds48To63(h: Buffer, block: seq<byte>)
    requires Registers(h, block, 48, Buffer(0xBEAD02CA, 0xA01B846C, 0x8714787C, 0x503CA382, 0xFB86C6AB))
    requires IsWord(block, 32, 0x8E9A9202) && IsWord(block, 33, 0x00000600)
    requires IsWord(block, 34, 0xB131C0F0) && IsWord(block, 35, 0x16263BC6)
    requires IsWord(block, 36, 0x4EBED41E) && IsWord(block, 37, 0x626380A1)
    requires IsWord(block, 38, 0x16263806) && IsWord(block, 39, 0x000018C0)
    requires IsWord(block, 40, 0xD2E138C4) && IsWord(block, 41, 0x00000F00)
    requires IsWord(block, 42, 0x3AFB5079) && IsWord(block, 43, 0x898E04E5)
    requires IsWord(block, 44, 0xE2BA3C2B) && IsWord(block, 45, 0x000060C0)
    requires IsWord(block, 46, 0x053A37CD) && IsWord(block, 47, 0x74458547)
    ensures Registers(h, block, 64, Buffer(0x6B61C9E1, 0xB66C020B, 0x9523272C, 0xF5D5B051, 0x8FD4B796))
    ensures IsWord(block, 48, 0xDA9415ED) && IsWord(block, 49, 0x26380A16)
    ensures IsWord(block, 50, 0x626383A1) && IsWord(block, 51, 0x4EBF54DE)
    ensures IsWord(block, 52, 0x3835B44B) && IsWord(block, 53, 0x0000F600)
    ensures IsWord(block, 54, 0x1E84C7A3) && IsWord(block, 55, 0x98E04D98)
    ensures IsWord(block, 56, 0x651D16A0) && IsWord(block, 57, 0x62658CA1)
    ensures IsWord(block, 58, 0x458544D6) && IsWord(block, 59, 0x44584CB7)
    ensures IsWord(block, 60, 0x7BA06619) && IsWord(block, 61, 0x6380AEA2)
    ensures IsWord(block, 62, 0x0AE55269) && IsWord(block, 63, 0x627B49A1)
  {
    hide Registers, IsWord;
    var a48, a49: bv32 := 0xA01B846C, 0xBEAD02CA;
    var c48, c49, c50: bv32 := 0xFB86C6AB, 0x503CA382, 0x8714787C;
    var w32, w33, w34, w35: bv32 := 0x8E9A9202, 0x00000600, 0xB131C0F0, 0x16263BC6;
    var w36, w37, w38, w39: bv32 := 0x4EBED41E, 0x626380A1, 0x16263806, 0x000018C0;
    var w40, w41, w42, w43: bv32 := 0xD2E138C4, 0x00000F00, 0x3AFB5079, 0x898E04E5;
    var w44, w45, w46, w47: bv32 := 0xE2BA3C2B, 0x000060C0, 0x053A37CD, 0x74458547;
    var w48, a50, c51: bv32 := 0xDA9415ED, 0xBAF39337, 0x2806E11B;
    Turn(h, block, 48, w45, w40, w34, w32, w48, a49, a48, c50, c49, c48, a50, c51);
    var w49, a51, c52: bv32 := 0x26380A16, 0x120731C5, 0xAFAB40B2;
    Turn(h, block, 49, w46, w41, w35, w33, w49, a50, a49, c51, c50, c49, a51, c52);
    var w50, a52, c53: bv32 := 0x626383A1, 0x641DB2CE, 0xEEBCE4CD;
    Turn(h, block, 50, w47, w42, w36, w34, w50, a51, a50, c52, c51, c50, a52, c53);
    var w51, a53, c54: bv32 := 0x4EBF54DE, 0x3847AD66, 0x4481CC71;
    Turn(h, block, 51, w48, w43, w37, w35, w51, a52, a51, c53, c52, c51, a53, c54);
    var w52, a54, c55: bv32 := 0x3835B44B, 0xE490436D, 0x99076CB3;
    Turn(h, block, 52, w49, w44, w38, w36, w52, a53, a52, c54, c53, c52, a54, c55);
    var w53, a55, c56: bv32 := 0x0000F600, 0x27E9F1D8, 0x8E11EB59;
    Turn(h, block, 53, w50, w45, w39, w37, w53, a54, a53, c55, c54, c53, a55, c56);
    var w54, a56, c57: bv32 := 0x1E84C7A3, 0x7B71F76D, 0x792410DB;
    Turn(h, block, 54, w51, w46, w40, w38, w54, a55, a54, c56, c55, c54, a56, c57);
    var w55, a57, c58: bv32 := 0x98E04D98, 0x5E6456AF, 0x09FA7C76;
    Turn(h, block, 55, w52, w47, w41, w39, w55, a56, a55, c57, c56, c55, a57, c58);
    var w56, a58, c59: bv32 := 0x651D16A0, 0xC846093F, 0x5EDC7DDB;
    Turn(h, block, 56, w53, w48, w42, w40, w56, a57, a56, c58, c57, c56, a58, c59);
    var w57, a59, c60: bv32 := 0x62658CA1, 0xD262FF50, 0xD79915AB;
    Turn(h, block, 57, w54, w49, w43, w41, w57, a58, a57, c59, c58, c57, a59, c60);
    var w58, a60, c61: bv32 := 0x458544D6, 0x09D785FD, 0xF211824F;
    Turn(h, block, 58, w55, w50, w44, w42, w58, a59, a58, c60, c59, c58, a60, c61);
    var w59, a61, c62: bv32 := 0x44584CB7, 0x3F52DE5A, 0x3498BFD4;
    Turn(h, block, 59, w56, w51, w45, w43, w59, a60, a59, c61, c60, c59, a61, c62);
    var w60, a62, c63: bv32 := 0x7BA06619, 0xD756C147, 0x4275E17F;
    Turn(h, block, 60, w57, w52, w46, w44, w60, a61, a60, c62, c61, c60, a62, c63);
    var w61, a63, c64: bv32 := 0x6380AEA2, 0x548C9CB2, 0x8FD4B796;
    Turn(h, block, 61, w58, w53, w47, w45, w61, a62, a61, c63, c62, c61, a63, c64);
    var w62, a64, c65: bv32 := 0x0AE55269, 0xB66C020B, 0xF5D5B051;
    Turn(h, block, 62, w59, w54, w48, w46, w62, a63, a62, c64, c63, c62, a64, c65);
    var w63, a65, c66: bv32 := 0x627B49A1, 0x6B61C9E1, 0x9523272C;
    Turn(h, block, 63, w60, w55, w49, w47, w63, a64, a63, c65, c64, c63, a65, c66);
  }

  lemma AbcRounds64To79(h: Buffer, block: seq<byte>)
    requires Registers(h, block, 64, Buffer(0x6B61C9E1, 0xB66C020B, 0x9523272C, 0xF5D5B051, 0x8FD4B796))
    requires IsWord(block, 48, 0xDA9415ED) && IsWord(block, 49, 0x26380A16)
    requires IsWord(block, 50, 0x626383A1) && IsWord(block, 51, 0x4EBF54DE)
    requires IsWord(block, 52, 0x3835B44B) && IsWord(block, 53, 0x0000F600)
    requires IsWord(block, 54, 0x1E84C7A3) && IsWord(block, 55, 0x98E04D98)
    requires IsWord(block, 56, 0x651D16A0) && IsWord(block, 57, 0x62658CA1)
    requires IsWord(block, 58, 0x458544D6) && IsWord(block, 59, 0x44584CB7)
    requires IsWord(block, 60, 0x7BA06619) && IsWord(block, 61, 0x6380AEA2)
    requires IsWord(block, 62, 0x0AE55269) && IsWord(block, 63, 0x627B49A1)
    ensures Registers(h, block, 80, Buffer(0x42541B35, 0x5738D5E1, 0x21834873, 0x681E6DF6, 0xD8FDF6AD))
  {
    hide Registers, IsWord;
    var a64, a65: bv32 := 0xB66C020B, 0x6B61C9E1;
    var c64, c65, c66: bv32 := 0x8FD4B796, 0xF5D5B051, 0x9523272C;
    var w48, w49, w50, w51: bv32 := 0xDA9415ED, 0x26380A16, 0x626383A1, 0x4EBF54DE;
    var w52, w53, w54, w55: bv32 := 0x3835B44B, 0x0000F600, 0x1E84C7A3, 0x98E04D98;
    var w56, w57, w58, w59: bv32 := 0x651D16A0, 0x62658CA1, 0x458544D6, 0x44584CB7;
    var w60, w61, w62, w63: bv32 := 0x7BA06619, 0x6380AEA2, 0x0AE55269, 0x627B49A1;
    var w64, a66, c67: bv32 := 0x7CD45C9D, 0x19DFA7AC, 0xED9B0082;
    Turn(h, block, 64, w61, w56, w50, w48, w64, a65, a64, c66, c65, c64, a66, c67);
    var w65, a67, c68: bv32 := 0x000F0000, 0x101655F9, 0x5AD87278;
    Turn(h, block, 65, w62, w57, w51, w49, w65, a66, a65, c67, c66, c65, a67, c68);
    var w66, a68, c69: bv32 := 0xFB50753A, 0x0C3DF2B4, 0x0677E9EB;
    Turn(h, block, 66, w63, w58, w52, w50, w66, a67, a66, c68, c67, c66, a68, c69);
    var w67, a69, c70: bv32 := 0xEC6765E8, 0x78DD4D2B, 0x4405957E;
    Turn(h, block, 67, w64, w59, w53, w51, w67, a68, a67, c69, c68, c67, a69, c70);
    var w68, a70, c71: bv32 := 0xBA3C2BE2, 0x497093C0, 0x030F7CAD;
    Turn(h, block, 68, w65, w60, w54, w52, w68, a69, a68, c70, c69, c68, a70, c71);
    var w69, a71, c72: bv32 := 0x0060C000, 0x3F2588C2, 0xDE37534A;
    Turn(h, block, 69, w66, w61, w55, w53, w69, a70, a69, c71, c70, c69, a71, c72);
    var w70, a72, c73: bv32 := 0x3A37CD05, 0xC199F8C7, 0x125C24F0;
    Turn(h, block, 70, w67, w62, w56, w54, w70, a71, a70, c72, c71, c70, a72, c73);
    var w71, a73, c74: bv32 := 0x458546F4, 0x39859DE7, 0x8FC96230;
    Turn(h, block, 71, w68, w63, w57, w55, w71, a72, a71, c73, c72, c71, a73, c74);
    var w72, a74, c75: bv32 := 0xB8599DD6, 0xEDB42DE4, 0xF0667E31;
    Turn(h, block, 72, w69, w64, w58, w56, w72, a73, a72, c74, c73, c72, a74, c75);
    var w73, a75, c76: bv32 := 0x380A1A26, 0x11793F6F, 0xCE616779;
    Turn(h, block, 73, w70, w65, w59, w57, w73, a74, a73, c75, c74, c73, a75, c76);
    var w74, a76, c77: bv32 := 0x01E02203, 0x5EE76897, 0x3B6D0B79;
    Turn(h, block, 74, w71, w66, w60, w58, w74, a75, a74, c76, c75, c74, a76, c77);
    var w75, a77, c78: bv32 := 0xE7CC3456, 0x63F7DAB7, 0xC45E4FDB;
    Turn(h, block, 75, w72, w67, w61, w59, w75, a76, a75, c77, c76, c75, a77, c78);
    var w76, a78, c79: bv32 := 0xE6E60B69, 0xA079B7D9, 0xD7B9DA25;
    Turn(h, block, 76, w73, w68, w62, w60, w76, a77, a76, c78, c77, c76, a78, c79);
    var w77, a79, c80: bv32 := 0x00F60A00, 0x860D21CC, 0xD8FDF6AD;
    Turn(h, block, 77, w74, w69, w63, w61, w77, a78, a77, c79, c78, c77, a79, c80);
    var w78, a80, c81: bv32 := 0x5795EF4F, 0x5738D5E1, 0x681E6DF6;
    Turn(h, block, 78, w75, w70, w64, w62, w78, a79, a78, c80, c79, c78, a80, c81);
    var w79, a81, c82: bv32 := 0x822E0879, 0x42541B35, 0x21834873;
    Turn(h, block, 79, w76, w71, w65, w63, w79, a80, a79, c81, c80, c79, a81, c82);
  }

  lemma AbcRounds(h: Buffer, block: seq<byte>)
    requires h == Buffer(0x67452301, 0xEFCDAB89, 0x98BADCFE, 0x10325476, 0xC3D2E1F0) && block == AbcBlock()
    ensures Registers(h, block, 80, Buffer(0x42541B35, 0x5738D5E1, 0x21834873, 0x681E6DF6, 0xD8FDF6AD))
  {
    hide Registers, IsWord, AbcBlock;
    AbcRounds0To15(h, block);
    AbcRounds16To31(h, block);
    AbcRounds32To47(h, block);
    AbcRounds48To63(h, block);
    AbcRounds64To79(h, block);
  }

  /** The digest of "abc" is A9993E36 4706816A BA3E2571 7850C26C 9CD0D89D. */
  lemma DigestOfAbc()
    ensures Digest([0x61, 0x62, 0x63]) == Buffer(0xA9993E36, 0x4706816A, 0xBA3E2571, 0x7850C26C, 0x9CD0D89D)
  {
    var message: seq<byte> := [0x61, 0x62, 0x63];
    var block := AbcBlock();
    AbcRounds(INITIAL_BUFFER, block);
    AbcPadded();
    OneBlock(block);
    hide W, Rounds, Pad, AbcBlock;
  }

  lemma AbcPadded()
    ensures Pad([0x61, 0x62, 0x63]) == AbcBlock()
  {
    assert ZeroOctets(3) == 52;
    assert BigEndian64(24) == Zeros(7) + [0x18];
    assert Zeros(52) + Zeros(7) == Zeros(59);
  }

  // ----- Appendix B: the message "abcdbcdecdefdefgefghfghighijhijkijkljklmklmnlmnomnopnopq"

  function LongMessage(): (message: seq<byte>)
    ensures |message| == 56
  {
    [0x61, 0x62, 0x63, 0x64, 0x62, 0x63, 0x64, 0x65, 0x63, 0x64, 0x65, 0x66, 0x64, 0x65, 0x66, 0x67]
    + [0x65, 0x66, 0x67, 0x68, 0x66, 0x67, 0x68, 0x69, 0x67, 0x68, 0x69, 0x6A, 0x68, 0x69, 0x6A, 0x6B]
    + [0x69, 0x6A, 0x6B, 0x6C, 0x6A, 0x6B, 0x6C, 0x6D, 0x6B, 0x6C, 0x6D, 0x6E, 0x6C, 0x6D, 0x6E, 0x6F]
    + [0x6D, 0x6E, 0x6F, 0x70, 0x6E, 0x6F, 0x70, 0x71]
  }

  /** The first block of the padded message. */
  function FirstBlock(): (block: seq<byte>)
    ensures |block| == 64
  {
    LongMessage() + [0x80] + Zeros(7)
  }

  /** The second block. */
  function SecondBlock(): (block: seq<byte>)
    ensures |block| == 64
  {
    Zeros(62) + [0x01, 0xC0]
  }

  lemma FirstRounds0To15(h: Buffer, block: seq<byte>)
    requires h == Buffer(0x67452301, 0xEFCDAB89, 0x98BADCFE, 0x10325476, 0xC3D2E1F0)
    requires block == FirstBlock()
    ensures Registers(h, block, 16, Buffer(0x42637E39, 0xB2E7A8BE, 0x4CBE52A1, 0xA180D207, 0xB867B2A8))
    ensures IsWord(block, 0, 0x61626364) && IsWord(block, 1, 0x62636465)
    ensures IsWord(block, 2, 0x63646566) && IsWord(block, 3, 0x64656667)
    ensures IsWord(block, 4, 0x65666768) && IsWord(block, 5, 0x66676869)
    ensures IsWord(block, 6, 0x6768696A) && IsWord(block, 7, 0x68696A6B)
    ensures IsWord(block, 8, 0x696A6B6C) && IsWord(block, 9, 0x6A6B6C6D)
    ensures IsWord(block, 10, 0x6B6C6D6E) && IsWord(block, 11, 0x6C6D6E6F)
    ensures IsWord(block, 12, 0x6D6E6F70) && IsWord(block, 13, 0x6E6F7071)
    ensures IsWord(block, 14, 0x80000000) && IsWord(block, 15, 0x00000000)
  {
    hide Registers, IsWord;
    NoRounds(h, block);
    var a0, a1: bv32 := 0xEFCDAB89, 0x67452301;
    var c0, c1, c2: bv32 := 0xC3D2E1F0, 0x10325476, 0x98BADCFE;
    var w0, a2, c3: bv32 := 0x61626364, 0x0116FC17, 0x7BF36AE2;
    FirstTurn(h, block, 0, w0, a1, a0, c2, c1, c0, a2, c3);
    var w1, a3, c4: bv32 := 0x62636465, 0xEBF3B452, 0x59D148C0;
    FirstTurn(h, block, 1, w1, a2, a1, c3, c2, c1, a3, c4);
    var w2, a4, c5: bv32 := 0x63646566, 0x5109913A, 0xC045BF05;
    FirstTurn(h, block, 2, w2, a3, a2, c4, c3, c2, a4, c5);
    var w3, a5, c6: bv32 := 0x64656667, 0x2C4F6EAC, 0xBAFCED14;
    FirstTurn(h, block, 3, w3, a4, a3, c5, c4, c3, a5, c6);
    var w4, a6, c7: bv32 := 0x65666768, 0x33F4AE5B, 0x9442644E;
    FirstTurn(h, block, 4, w4, a5, a4, c6, c5, c4, a6, c7);
    var w5, a7, c8: bv32 := 0x66676869, 0x96B85189, 0x0B13DBAB;
    FirstTurn(h, block, 5, w5, a6, a5, c7, c6, c5, a7, c8);
    var w6, a8, c9: bv32 := 0x6768696A, 0xDB04CB58, 0xCCFD2B96;
    FirstTurn(h, block, 6, w6, a7, a6, c8, c7, c6, a8, c9);
    var w7, a9, c10: bv32 := 0x68696A6B, 0x45833F0F, 0x65AE1462;
    FirstTurn(h, block, 7, w7, a8, a7, c9, c8, c7, a9, c10);
    var w8, a10, c11: bv32 := 0x696A6B6C, 0xC565C35E, 0x36C132D6;
    FirstTurn(h, block, 8, w8, a9, a8, c10, c9, c8, a10, c11);
    var w9, a11, c12: bv32 := 0x6A6B6C6D, 0x6350AFDA, 0xD160CFC3;
    FirstTurn(h, block, 9, w9, a10, a9, c11, c10, c9, a11, c12);
    var w10, a12, c13: bv32 := 0x6B6C6D6E, 0x8993EA77, 0xB15970D7;
    FirstTurn(h, block, 10, w10, a11, a10, c12, c11, c10, a12, c13);
    var w11, a13, c14: bv32 := 0x6C6D6E6F, 0xE19ECAA2, 0x98D42BF6;
    FirstTurn(h, block, 11, w11, a12, a11, c13, c12, c11, a13, c14);
    var w12, a14, c15: bv32 := 0x6D6E6F70, 0x8603481E, 0xE264FA9D;
    FirstTurn(h, block, 12, w12, a13, a12, c14, c13, c12, a14, c15);
    var w13, a15, c16: bv32 := 0x6E6F7071, 0x32F94A85, 0xB867B2A8;
    FirstTurn(h, block, 13, w13, a14, a13, c15, c14, c13, a15, c16);
    var w14, a16, c17: bv32 := 0x80000000, 0xB2E7A8BE, 0xA180D207;
    FirstTurn(h, block, 14, w14, a15, a14, c16, c15, c14, a16, c17);
    var w15, a17, c18: bv32 := 0x00000000, 0x42637E39, 0x4CBE52A1;
    FirstTurn(h, block, 15, w15, a16, a15, c17, c16, c15, a17, c18);
  }

  lemma FirstRounds16To31(h: Buffer, block: seq<byte>)
    requires Registers(h, block, 16, Buffer(0x42637E39, 0xB2E7A8BE, 0x4CBE52A1, 0xA180D207, 0xB867B2A8))
    requires IsWord(block, 0, 0x61626364) && IsWord(block, 1, 0x62636465)
    requires IsWord(block, 2, 0x63646566) && IsWord(block, 3, 0x64656667)
    requires IsWord(block, 4, 0x65666768) && IsWord(block, 5, 0x66676869)
    requires IsWord(block, 6, 0x6768696A) && IsWord(block, 7, 0x68696A6B)
    requires IsWord(block, 8, 0x696A6B6C) && IsWord(block, 9, 0x6A6B6C6D)
    requires IsWord(block, 10, 0x6B6C6D6E) && IsWord(block, 11, 0x6C6D6E6F)
    requires IsWord(block, 12, 0x6D6E6F70) && IsWord(block, 13, 0x6E6F7071)
    requires IsWord(block, 14, 0x80000000) && IsWord(block, 15, 0x00000000)
    ensures Registers(h, block, 32, Buffer(0x52E31F60, 0xA9C84BEC, 0x816D15EC, 0x78448908, 0x3549A991))
    ensures IsWord(block, 16, 0x0A063A3E) && IsWord(block, 17, 0xD8DADCDF)
    ensures IsWord(block, 18, 0xDADCDEC0) && IsWord(block, 19, 0xC8D2B4BE)
    ensures IsWord(block, 20, 0x6F757B5B) && IsWord(block, 21, 0x757B5967)
    ensures IsWord(block, 22, 0x8DA16D70) && IsWord(block, 23, 0xDAEEFABA)
    ensures IsWord(block, 24, 0xFAF6CAB6) && IsWord(block, 25, 0xA6FB675A)
    ensures IsWord(block, 26, 0x0C604CC8) && IsWord(block, 27, 0x604CC02C)
    ensures IsWord(block, 28, 0x49C0E6E2) && IsWord(block, 29, 0x2EE8CBBC)
    ensures IsWord(block, 30, 0xCFD72EC4) && IsWord(block, 31, 0x97E9810E)
  {
    hide Registers, IsWord;
    var a16, a17: bv32 := 0xB2E7A8BE, 0x42637E39;
    var c16, c17, c18: bv32 := 0xB867B2A8, 0xA180D207, 0x4CBE52A1;
    var w0, w1, w2, w3: bv32 := 0x61626364, 0x62636465, 0x63646566, 0x64656667;
    var w4, w5, w6, w7: bv32 := 0x65666768, 0x66676869, 0x6768696A, 0x68696A6B;
    var w8, w9, w10, w11: bv32 := 0x696A6B6C, 0x6A6B6C6D, 0x6B6C6D6E, 0x6C6D6E6F;
    var w12, w13, w14, w15: bv32 := 0x6D6E6F70, 0x6E6F7071, 0x80000000, 0x00000000;
    var w16, a18, c19: bv32 := 0x0A063A3E, 0x6B068048, 0xACB9EA2F;
    Turn(h, block, 16, w13, w8, w2, w0, w16, a17, a16, c18, c17, c16, a18, c19);
    var w17, a19, c20: bv32 := 0xD8DADCDF, 0x426B9C35, 0x5098DF8E;
    Turn(h, block, 17, w14, w9, w3, w1, w17, a18, a17, c19, c18, c17, a19, c20);
    var w18, a20, c21: bv32 := 0xDADCDEC0, 0x944B1BD1, 0x1AC1A012;
    Turn(h, block, 18, w15, w10, w4, w2, w18, a19, a18, c20, c19, c18, a20, c21);
    var w19, a21, c22: bv32 := 0xC8D2B4BE, 0x6C445652, 0x509AE70D;
    Turn(h, block, 19, w16, w11, w5, w3, w19, a20, a19, c21, c20, c19, a21, c22);
    var w20, a22, c23: bv32 := 0x6F757B5B, 0x95836DA5, 0x6512C6F4;
    Turn(h, block, 20, w17, w12, w6, w4, w20, a21, a20, c22, c21, c20, a22, c23);
    var w21, a23, c24: bv32 := 0x757B5967, 0x09511177, 0x9B111594;
    Turn(h, block, 21, w18, w13, w7, w5, w21, a22, a21, c23, c22, c21, a23, c24);
    var w22, a24, c25: bv32 := 0x8DA16D70, 0xE2B92DC4, 0x6560DB69;
    Turn(h, block, 22, w19, w14, w8, w6, w22, a23, a22, c24, c23, c22, a24, c25);
    var w23, a25, c26: bv32 := 0xDAEEFABA, 0xFD224575, 0xC254445D;
    Turn(h, block, 23, w20, w15, w9, w7, w23, a24, a23, c25, c24, c23, a25, c26);
    var w24, a26, c27: bv32 := 0xFAF6CAB6, 0xEEB82D9A, 0x38AE4B71;
    Turn(h, block, 24, w21, w16, w10, w8, w24, a25, a24, c26, c25, c24, a26, c27);
    var w25, a27, c28: bv32 := 0xA6FB675A, 0x5A142C1A, 0x7F48915D;
    Turn(h, block, 25, w22, w17, w11, w9, w25, a26, a25, c27, c26, c25, a27, c28);
    var w26, a28, c29: bv32 := 0x0C604CC8, 0x2972F7C7, 0xBBAE0B66;
    Turn(h, block, 26, w23, w18, w12, w10, w26, a27, a26, c28, c27, c26, a28, c29);
    var w27, a29, c30: bv32 := 0x604CC02C, 0xD526A644, 0x96850B06;
    Turn(h, block, 27, w24, w19, w13, w11, w27, a28, a27, c29, c28, c27, a29, c30);
    var w28, a30, c31: bv32 := 0x49C0E6E2, 0xE1122421, 0xCA5CBDF1;
    Turn(h, block, 28, w25, w20, w14, w12, w28, a29, a28, c30, c29, c28, a30, c31);
    var w29, a31, c32: bv32 := 0x2EE8CBBC, 0x05B457B2, 0x3549A991;
    Turn(h, block, 29, w26, w21, w15, w13, w29, a30, a29, c31, c30, c29, a31, c32);
    var w30, a32, c33: bv32 := 0xCFD72EC4, 0xA9C84BEC, 0x78448908;
    Turn(h, block, 30, w27, w22, w16, w14, w30, a31, a30, c32, c31, c30, a32, c33);
    var w31, a33, c34: bv32 := 0x97E9810E, 0x52E31F60, 0x816D15EC;
    Turn(h, block, 31, w28, w23, w17, w15, w31, a32, a31, c33, c32, c31, a33, c34);
  }

  lemma FirstRounds32To47(h: Buffer, block: seq<byte>)
    requires Registers(h, block, 32, Buffer(0x52E31F60, 0xA9C84BEC, 0x816D15EC, 0x78448908, 0x3549A991))
    requires IsWord(block, 16, 0x0A063A3E) && IsWord(block, 17, 0xD8DADCDF)
    requires IsWord(block, 18, 0xDADCDEC0) && IsWord(block, 19, 0xC8D2B4BE)
    requires IsWord(block, 20, 0x6F757B5B) && IsWord(block, 21, 0x757B5967)
    requires IsWord(block, 22, 0x8DA16D70) && IsWord(block, 23, 0xDAEEFABA)
    requires IsWord(block, 24, 0xFAF6CAB6) && IsWord(block, 25, 0xA6FB675A)
    requires IsWord(block, 26, 0x0C604CC8) && IsWord(block, 27, 0x604CC02C)
    requires IsWord(block, 28, 0x49C0E6E2) && IsWord(block, 29, 0x2EE8CBBC)
    requires IsWord(block, 30, 0xCFD72EC4) && IsWord(block, 31, 0x97E9810E)
    ensures Registers(h, block, 48, Buffer(0xC8A69090, 0xA2AD4F02, 0xB1BA8907, 0x26307A99, 0x58CFA558))
    ensures IsWord(block, 32, 0x0989CBE8) && IsWord(block, 33, 0xF24843FE)
    ensures IsWord(block, 34, 0x5C40D0BA) && IsWord(block, 35, 0xA8D9CC3B)
    ensures IsWord(block, 36, 0xB2B9666E) && IsWord(block, 37, 0xBA7B71B7)
    ensures IsWord(block, 38, 0x20B28A72) && IsWord(block, 39, 0xB28AF500)
    ensures IsWord(block, 40, 0x8AC87842) && IsWord(block, 41, 0x289ADDF4)
    ensures IsWord(block, 42, 0x56D51F21) && IsWord(block, 43, 0xD96B7FD2)
    ensures IsWord(block, 44, 0x3868E778) && IsWord(block, 45, 0xAB5E4848)
    ensures IsWord(block, 46, 0x7F0E2118) && IsWord(block, 47, 0xDE87A111)
  {
    hide Registers, IsWord;
    var a32, a33: bv32 := 0xA9C84BEC, 0x52E31F60;
    var c32, c33, c34: bv32 := 0x3549A991, 0x78448908, 0x816D15EC;
    var w16, w17, w18, w19: bv32 := 0x0A063A3E, 0xD8DADCDF, 0xDADCDEC0, 0xC8D2B4BE;
    var w20, w21, w22, w23: bv32 := 0x6F757B5B, 0x757B5967, 0x8DA16D70, 0xDAEEFABA;
    var w24, w25, w26, w27: bv32 := 0xFAF6CAB6, 0xA6FB675A, 0x0C604CC8, 0x604CC02C;
    var w28, w29, w30, w31: bv32 := 0x49C0E6E2, 0x2EE8CBBC, 0xCFD72EC4, 0x97E9810E;
    var w32, a34, c35: bv32 := 0x0989CBE8, 0x5AF3242C, 0x2A7212FB;
    Turn(h, block, 32, w29, w24, w18, w16, w32, a33, a32, c34, c33, c32, a34, c35);
    var w33, a35, c36: bv32 := 0xF24843FE, 0x31C756A9, 0x14B8C7D8;
    Turn(h, block, 33, w30, w25, w19, w17, w33, a34, a33, c35, c34, c33, a35, c36);
    var w34, a36, c37: bv32 := 0x5C40D0BA, 0xE9AC987C, 0x16BCC90B;
    Turn(h, block, 34, w31, w26, w20, w18, w34, a35, a34, c36, c35, c34, a36, c37);
    var w35, a37, c38: bv32 := 0xA8D9CC3B, 0xAB7C32EE, 0x4C71D5AA;
    Turn(h, block, 35, w32, w27, w21, w19, w35, a36, a35, c37, c36, c35, a37, c38);
    var w36, a38, c39: bv32 := 0xB2B9666E, 0x5933FC99, 0x3A6B261F;
    Turn(h, block, 36, w33, w28, w22, w20, w36, a37, a36, c38, c37, c36, a38, c39);
    var w37, a39, c40: bv32 := 0xBA7B71B7, 0x43F87AE9, 0xAADF0CBB;
    Turn(h, block, 37, w34, w29, w23, w21, w37, a38, a37, c39, c38, c37, a39, c40);
    var w38, a40, c41: bv32 := 0x20B28A72, 0x24957F22, 0x564CFF26;
    Turn(h, block, 38, w35, w30, w24, w22, w38, a39, a38, c40, c39, c38, a40, c41);
    var w39, a41, c42: bv32 := 0xB28AF500, 0xADEB7478, 0x50FE1EBA;
    Turn(h, block, 39, w36, w31, w25, w23, w39, a40, a39, c41, c40, c39, a41, c42);
    var w40, a42, c43: bv32 := 0x8AC87842, 0xD70E5010, 0x89255FC8;
    Turn(h, block, 40, w37, w32, w26, w24, w40, a41, a40, c42, c41, c40, a42, c43);
    var w41, a43, c44: bv32 := 0x289ADDF4, 0x79BCFB08, 0x2B7ADD1E;
    Turn(h, block, 41, w38, w33, w27, w25, w41, a42, a41, c43, c42, c41, a43, c44);
    var w42, a44, c45: bv32 := 0x56D51F21, 0xF9BCB8DE, 0x35C39404;
    Turn(h, block, 42, w39, w34, w28, w26, w42, a43, a42, c44, c43, c42, a44, c45);
    var w43, a45, c46: bv32 := 0xD96B7FD2, 0x633E9561, 0x1E6F3EC2;
    Turn(h, block, 43, w40, w35, w29, w27, w43, a44, a43, c45, c44, c43, a45, c46);
    var w44, a46, c47: bv32 := 0x3868E778, 0x98C1EA64, 0xBE6F2E37;
    Turn(h, block, 44, w41, w36, w30, w28, w44, a45, a44, c46, c45, c44, a46, c47);
    var w45, a47, c48: bv32 := 0xAB5E4848, 0xC6EA241E, 0x58CFA558;
    Turn(h, block, 45, w42, w37, w31, w29, w45, a46, a45, c47, c46, c45, a47, c48);
    var w46, a48, c49: bv32 := 0x7F0E2118, 0xA2AD4F02, 0x26307A99;
    Turn(h, block, 46, w43, w38, w32, w30, w46, a47, a46, c48, c47, c46, a48, c49);
    var w47, a49, c50: bv32 := 0xDE87A111, 0xC8A69090, 0xB1BA8907;
    Turn(h, block, 47, w44, w39, w33, w31, w47, a48, a47, c49, c48, c47, a49, c50);
  }

  lemma FirstRounds48To63(h: Buffer, block: seq<byte>)
    requires Registers(h, block, 48, Buffer(0xC8A69090, 0xA2AD4F02, 0xB1BA8907, 0x26307A99, 0x58CFA558))
    requires IsWord(block, 32, 0x0989CBE8) && IsWord(block, 33, 0xF24843FE)
    requires IsWord(block, 34, 0x5C40D0BA) && IsWord(block, 35, 0xA8D9CC3B)
    requires IsWord(block, 36, 0xB2B9666E) && IsWord(block, 37, 0xBA7B71B7)
    requires IsWord(block, 38, 0x20B28A72) && IsWord(block, 39, 0xB28AF500)
    requires IsWord(block, 40, 0x8AC87842) && IsWord(block, 41, 0x289ADDF4)
    requires IsWord(block, 42, 0x56D51F21) && IsWord(block, 43, 0xD96B7FD2)
    requires IsWord(block, 44, 0x3868E778) && IsWord(block, 45, 0xAB5E4848)
    requires IsWord(block, 46, 0x7F0E2118) && IsWord(block, 47, 0xDE87A111)
    ensures Registers(h, block, 64, Buffer(0x513F9CA0, 0x2BFAF7A8, 0x10203537, 0xCD8952C4, 0xE7BDDD70))
    ensures IsWord(block, 48, 0xE8BE56B0) && IsWord(block, 49, 0x1A0AE652)
    ensures IsWord(block, 50, 0xCD5611C8) && IsWord(block, 51, 0x46EF29DC)
    ensures IsWord(block, 52, 0x60D3DA6D) && IsWord(block, 53, 0xDDF3BA6E)
    ensures IsWord(block, 54, 0x2737F5E9) && IsWord(block, 55, 0x4888A710)
    ensures IsWord(block, 56, 0xD2A1177B) && IsWord(block, 57, 0x9999633B)
    ensures IsWord(block, 58, 0xD6C69D03) && IsWord(block, 59, 0xCCF6127B)
    ensures IsWord(block, 60, 0x7C58FE6D) && IsWord(block, 61, 0xFDD99C68)
    ensures IsWord(block, 62, 0xF8E32074) && IsWord(block, 63, 0xE0BA3C7D)
  {
    hide Registers, IsWord;
    var a48, a49: bv32 := 0xA2AD4F02, 0xC8A69090;
    var c48, c49, c50: bv32 := 0x58CFA558, 0x26307A99, 0xB1BA8907;
    var w32, w33, w34, w35: bv32 := 0x0989CBE8, 0xF24843FE, 0x5C40D0BA, 0xA8D9CC3B;
    var w36, w37, w38, w39: bv32 := 0xB2B9666E, 0xBA7B71B7, 0x20B28A72, 0xB28AF500;
    var w40, w41, w42, w43: bv32 := 0x8AC87842, 0x289ADDF4, 0x56D51F21, 0xD96B7FD2;
    var w44, w45, w46, w47: bv32 := 0x3868E778, 0xAB5E4848, 0x7F0E2118, 0xDE87A111;
    var w48, a50, c51: bv32 := 0xE8BE56B0, 0x88341600, 0xA8AB53C0;
    Turn(h, block, 48, w45, w40, w34, w32, w48, a49, a48, c50, c49, c48, a50, c51);
    var w49, a51, c52: bv32 := 0x1A0AE652, 0x7E846F58, 0x3229A424;
    Turn(h, block, 49, w46, w41, w35, w33, w49, a50, a49, c51, c50, c49, a51, c52);
    var w50, a52, c53: bv32 := 0xCD5611C8, 0x86E358BA, 0x220D0580;
    Turn(h, block, 50, w47, w42, w36, w34, w50, a51, a50, c52, c51, c50, a52, c53);
    var w51, a53, c54: bv32 := 0x46EF29DC, 0x8D2E76C8, 0x1FA11BD6;
    Turn(h, block, 51, w48, w43, w37, w35, w51, a52, a51, c53, c52, c51, a53, c54);
    var w52, a54, c55: bv32 := 0x60D3DA6D, 0xCE892E10, 0xA1B8D62E;
    Turn(h, block, 52, w49, w44, w38, w36, w52, a53, a52, c54, c53, c52, a54, c55);
    var w53, a55, c56: bv32 := 0xDDF3BA6E, 0xEDEA95B1, 0x234B9DB2;
    Turn(h, block, 53, w50, w45, w39, w37, w53, a54, a53, c55, c54, c53, a55, c56);
    var w54, a56, c57: bv32 := 0x2737F5E9, 0x36D1230A, 0x33A24B84;
    Turn(h, block, 54, w51, w46, w40, w38, w54, a55, a54, c56, c55, c54, a56, c57);
    var w55, a57, c58: bv32 := 0x4888A710, 0x776C3910, 0x7B7AA56C;
    Turn(h, block, 55, w52, w47, w41, w39, w55, a56, a55, c57, c56, c55, a57, c58);
    var w56, a58, c59: bv32 := 0xD2A1177B, 0xA681B723, 0x8DB448C2;
    Turn(h, block, 56, w53, w48, w42, w40, w56, a57, a56, c58, c57, c56, a58, c59);
    var w57, a59, c60: bv32 := 0x9999633B, 0xAC0A794F, 0x1DDB0E44;
    Turn(h, block, 57, w54, w49, w43, w41, w57, a58, a57, c59, c58, c57, a59, c60);
    var w58, a60, c61: bv32 := 0xD6C69D03, 0xF03D3782, 0xE9A06DC8;
    Turn(h, block, 58, w55, w50, w44, w42, w58, a59, a58, c60, c59, c58, a60, c61);
    var w59, a61, c62: bv32 := 0xCCF6127B, 0x9EF775C3, 0xEB029E53;
    Turn(h, block, 59, w56, w51, w45, w43, w59, a60, a59, c61, c60, c59, a61, c62);
    var w60, a62, c63: bv32 := 0x7C58FE6D, 0x36254B13, 0xBC0F4DE0;
    Turn(h, block, 60, w57, w52, w46, w44, w60, a61, a60, c62, c61, c60, a62, c63);
    var w61, a63, c64: bv32 := 0xFDD99C68, 0x4080D4DC, 0xE7BDDD70;
    Turn(h, block, 61, w58, w53, w47, w45, w61, a62, a61, c63, c62, c61, a63, c64);
    var w62, a64, c65: bv32 := 0xF8E32074, 0x2BFAF7A8, 0xCD8952C4;
    Turn(h, block, 62, w59, w54, w48, w46, w62, a63, a62, c64, c63, c62, a64, c65);
    var w63, a65, c66: bv32 := 0xE0BA3C7D, 0x513F9CA0, 0x10203537;
    Turn(h, block, 63, w60, w55, w49, w47, w63, a64, a63, c65, c64, c63, a65, c66);
  }

  lemma FirstRounds64To79(h: Buffer, block: seq<byte>)
    requires Registers(h, block, 64, Buffer(0x513F9CA0, 0x2BFAF7A8, 0x10203537, 0xCD8952C4, 0xE7BDDD70))
    requires IsWord(block, 48, 0xE8BE56B0) && IsWord(block, 49, 0x1A0AE652)
    requires IsWord(block, 50, 0xCD5611C8) && IsWord(block, 51, 0x46EF29DC)
    requires IsWord(block, 52, 0x60D3DA6D) && IsWord(block, 53, 0xDDF3BA6E)
    requires IsWord(block, 54, 0x2737F5E9) && IsWord(block, 55, 0x4888A710)
    requires IsWord(block, 56, 0xD2A1177B) && IsWord(block, 57, 0x9999633B)
    requires IsWord(block, 58, 0xD6C69D03) && IsWord(block, 59, 0xCCF6127B)
    requires IsWord(block, 60, 0x7C58FE6D) && IsWord(block, 61, 0xFDD99C68)
    requires IsWord(block, 62, 0xF8E32074) && IsWord(block, 63, 0xE0BA3C7D)
    ensures Registers(h, block, 80, Buffer(0x8CE34517, 0xD3AD7C25, 0x6B4E1883, 0x74351CD2, 0x86838382))
  {
    hide Registers, IsWord;
    var a64, a65: bv32 := 0x2BFAF7A8, 0x513F9CA0;
    var c64, c65, c66: bv32 := 0xE7BDDD70, 0xCD8952C4, 0x10203537;
    var w48, w49, w50, w51: bv32 := 0xE8BE56B0, 0x1A0AE652, 0xCD5611C8, 0x46EF29DC;
    var w52, w53, w54, w55: bv32 := 0x60D3DA6D, 0xDDF3BA6E, 0x2737F5E9, 0x4888A710;
    var w56, w57, w58, w59: bv32 := 0xD2A1177B, 0x9999633B, 0xD6C69D03, 0xCCF6127B;
    var w60, w61, w62, w63: bv32 := 0x7C58FE6D, 0xFDD99C68, 0xF8E32074, 0xE0BA3C7D;
    var w64, a66, c67: bv32 := 0x152198D6, 0xE5895C81, 0x0AFEBDEA;
    Turn(h, block, 64, w61, w56, w50, w48, w64, a65, a64, c66, c65, c64, a66, c67);
    var w65, a67, c68: bv32 := 0x7B3F1982, 0x1037D2D5, 0x144FE728;
    Turn(h, block, 65, w62, w57, w51, w49, w65, a66, a65, c67, c66, c65, a67, c68);
    var w66, a68, c69: bv32 := 0x37F2D5B7, 0x14A82DA9, 0x79625720;
    Turn(h, block, 66, w63, w58, w52, w50, w66, a67, a66, c68, c67, c66, a68, c69);
    var w67, a69, c70: bv32 := 0x8596323E, 0x6D17C9FD, 0x440DF4B5;
    Turn(h, block, 67, w64, w59, w53, w51, w67, a68, a67, c69, c68, c67, a69, c70);
    var w68, a70, c71: bv32 := 0x810790D6, 0x2C7B07BD, 0x452A0B6A;
    Turn(h, block, 68, w65, w60, w54, w52, w68, a69, a68, c70, c69, c68, a70, c71);
    var w69, a71, c72: bv32 := 0xBEA0A942, 0xFDF6EFFF, 0x5B45F27F;
    Turn(h, block, 69, w66, w61, w55, w53, w69, a70, a69, c71, c70, c69, a71, c72);
    var w70, a72, c73: bv32 := 0x11C7E1B1, 0x112B96E3, 0x4B1EC1EF;
    Turn(h, block, 70, w67, w62, w56, w54, w70, a71, a70, c72, c71, c70, a72, c73);
    var w71, a73, c74: bv32 := 0x6158D101, 0x84065712, 0xFF7DBBFF;
    Turn(h, block, 71, w68, w63, w57, w55, w71, a72, a71, c73, c72, c71, a73, c74);
    var w72, a74, c75: bv32 := 0x5FCD77D9, 0xAB89FB71, 0xC44AE5B8;
    Turn(h, block, 72, w69, w64, w58, w56, w72, a73, a72, c74, c73, c72, a74, c75);
    var w73, a75, c76: bv32 := 0x7F2F12E6, 0xC5210E35, 0xA10195C4;
    Turn(h, block, 73, w70, w65, w59, w57, w73, a74, a73, c75, c74, c73, a75, c76);
    var w74, a76, c77: bv32 := 0xF868CFB1, 0x352D9F4B, 0x6AE27EDC;
    Turn(h, block, 74, w71, w66, w60, w58, w74, a75, a74, c76, c75, c74, a76, c77);
    var w75, a77, c78: bv32 := 0xD6E997E9, 0x1A0E0E0A, 0x7148438D;
    Turn(h, block, 75, w72, w67, w61, w59, w75, a76, a75, c77, c76, c75, a77, c78);
    var w76, a78, c79: bv32 := 0xF526B852, 0xD0D47349, 0xCD4B67D2;
    Turn(h, block, 76, w73, w68, w62, w60, w76, a77, a76, c78, c77, c76, a78, c79);
    var w77, a79, c80: bv32 := 0xB7578DCC, 0xAD38620D, 0x86838382;
    Turn(h, block, 77, w74, w69, w63, w61, w77, a78, a77, c79, c78, c77, a79, c80);
    var w78, a80, c81: bv32 := 0x55D99DF4, 0xD3AD7C25, 0x74351CD2;
    Turn(h, block, 78, w75, w70, w64, w62, w78, a79, a78, c80, c79, c78, a80, c81);
    var w79, a81, c82: bv32 := 0x1FF69958, 0x8CE34517, 0x6B4E1883;
    Turn(h, block, 79, w76, w71, w65, w63, w79, a80, a79, c81, c80, c79, a81, c82);
  }

  lemma FirstRounds(h: Buffer, block: seq<byte>)
    requires h == Buffer(0x67452301, 0xEFCDAB89, 0x98BADCFE, 0x10325476, 0xC3D2E1F0) && block == FirstBlock()
    ensures Registers(h, block, 80, Buffer(0x8CE34517, 0xD3AD7C25, 0x6B4E1883, 0x74351CD2, 0x86838382))
  {
    hide Registers, IsWord, FirstBlock;
    FirstRounds0To15(h, block);
    FirstRounds16To31(h, block);
    FirstRounds32To47(h, block);
    FirstRounds48To63(h, block);
    FirstRounds64To79(h, block);
  }

  lemma SecondRounds0To15(h: Buffer, block: seq<byte>)
    requires h == Buffer(0xF4286818, 0xC37B27AE, 0x0408F581, 0x84677148, 0x4A566572)
    requires block == SecondBlock()
    ensures Registers(h, block, 16, Buffer(0xD9772360, 0x258B0BAA, 0x2898132A, 0xFFB35EEF, 0xD0E89E4B))
    ensures IsWord(block, 0, 0x00000000) && IsWord(block, 1, 0x00000000)
    ensures IsWord(block, 2, 0x00000000) && IsWord(block, 3, 0x00000000)
    ensures IsWord(block, 4, 0x00000000) && IsWord(block, 5, 0x00000000)
    ensures IsWord(block, 6, 0x00000000) && IsWord(block, 7, 0x00000000)
    ensures IsWord(block, 8, 0x00000000) && IsWord(block, 9, 0x00000000)
    ensures IsWord(block, 10, 0x00000000) && IsWord(block, 11, 0x00000000)
    ensures IsWord(block, 12, 0x00000000) && IsWord(block, 13, 0x00000000)
    ensures IsWord(block, 14, 0x00000000) && IsWord(block, 15, 0x000001C0)
  {
    hide Registers, IsWord;
    NoRounds(h, block);
    var a0, a1: bv32 := 0xC37B27AE, 0xF4286818;
    var c0, c1, c2: bv32 := 0x4A566572, 0x84677148, 0x0408F581;
    var w0, a2, c3: bv32 := 0x00000000, 0x2DF257E9, 0xB0DEC9EB;
    FirstTurn(h, block, 0, w0, a1, a0, c2, c1, c0, a2, c3);
    var w1, a3, c4: bv32 := 0x00000000, 0x4D3DC58F, 0x3D0A1A06;
    FirstTurn(h, block, 1, w1, a2, a1, c3, c2, c1, a3, c4);
    var w2, a4, c5: bv32 := 0x00000000, 0xC352BB05, 0x4B7C95FA;
    FirstTurn(h, block, 2, w2, a3, a2, c4, c3, c2, a4, c5);
    var w3, a5, c6: bv32 := 0x00000000, 0xEEF743C6, 0xD34F7163;
    FirstTurn(h, block, 3, w3, a4, a3, c5, c4, c3, a5, c6);
    var w4, a6, c7: bv32 := 0x00000000, 0x41E34277, 0x70D4AEC1;
    FirstTurn(h, block, 4, w4, a5, a4, c6, c5, c4, a6, c7);
    var w5, a7, c8: bv32 := 0x00000000, 0x5443915C, 0xBBBDD0F1;
    FirstTurn(h, block, 5, w5, a6, a5, c7, c6, c5, a7, c8);
    var w6, a8, c9: bv32 := 0x00000000, 0xE7FA0377, 0xD078D09D;
    FirstTurn(h, block, 6, w6, a7, a6, c8, c7, c6, a8, c9);
    var w7, a9, c10: bv32 := 0x00000000, 0xC6946813, 0x1510E457;
    FirstTurn(h, block, 7, w7, a8, a7, c9, c8, c7, a9, c10);
    var w8, a10, c11: bv32 := 0x00000000, 0xFDDE1DE1, 0xF9FE80DD;
    FirstTurn(h, block, 8, w8, a9, a8, c10, c9, c8, a10, c11);
    var w9, a11, c12: bv32 := 0x00000000, 0xB8538ACA, 0xF1A51A04;
    FirstTurn(h, block, 9, w9, a10, a9, c11, c10, c9, a11, c12);
    var w10, a12, c13: bv32 := 0x00000000, 0x6BA94F63, 0x7F778778;
    FirstTurn(h, block, 10, w10, a11, a10, c12, c11, c10, a12, c13);
    var w11, a13, c14: bv32 := 0x00000000, 0x43A2792F, 0xAE14E2B2;
    FirstTurn(h, block, 11, w11, a12, a11, c13, c12, c11, a13, c14);
    var w12, a14, c15: bv32 := 0x00000000, 0xFECD7BBF, 0xDAEA53D8;
    FirstTurn(h, block, 12, w12, a13, a12, c14, c13, c12, a14, c15);
    var w13, a15, c16: bv32 := 0x00000000, 0xA2604CA8, 0xD0E89E4B;
    FirstTurn(h, block, 13, w13, a14, a13, c15, c14, c13, a15, c16);
    var w14, a16, c17: bv32 := 0x00000000, 0x258B0BAA, 0xFFB35EEF;
    FirstTurn(h, block, 14, w14, a15, a14, c16, c15, c14, a16, c17);
    var w15, a17, c18: bv32 := 0x000001C0, 0xD9772360, 0x2898132A;
    FirstTurn(h, block, 15, w15, a16, a15, c17, c16, c15, a17, c18);
  }

  lemma SecondRounds16To31(h: Buffer, block: seq<byte>)
    requires Registers(h, block, 16, Buffer(0xD9772360, 0x258B0BAA, 0x2898132A, 0xFFB35EEF, 0xD0E89E4B))
    requires IsWord(block, 0, 0x00000000) && IsWord(block, 1, 0x00000000)
    requires IsWord(block, 2, 0x00000000) && IsWord(block, 3, 0x00000000)
    requires IsWord(block, 4, 0x00000000) && IsWord(block, 5, 0x00000000)
    requires IsWord(block, 6, 0x00000000) && IsWord(block, 7, 0x00000000)
    requires IsWord(block, 8, 0x00000000) && IsWord(block, 9, 0x00000000)
    requires IsWord(block, 10, 0x00000000) && IsWord(block, 11, 0x00000000)
    requires IsWord(block, 12, 0x00000000) && IsWord(block, 13, 0x00000000)
    requires IsWord(block, 14, 0x00000000) && IsWord(block, 15, 0x000001C0)
    ensures Registers(h, block, 32, Buffer(0x8A4AF384, 0x17986223, 0x028BEC42, 0xC90A6F97, 0xD7105B6B))
    ensures IsWord(block, 16, 0x00000000) && IsWord(block, 17, 0x00000000)
    ensures IsWord(block, 18, 0x00000380) && IsWord(block, 19, 0x00000000)
    ensures IsWord(block, 20, 0x00000000) && IsWord(block, 21, 0x00000700)
    ensures IsWord(block, 22, 0x00000000) && IsWord(block, 23, 0x00000380)
    ensures IsWord(block, 24, 0x00000E00) && IsWord(block, 25, 0x00000000)
    ensures IsWord(block, 26, 0x00000000) && IsWord(block, 27, 0x00001C00)
    ensures IsWord(block, 28, 0x00000000) && IsWord(block, 29, 0x00000D80)
    ensures IsWord(block, 30, 0x00003800) && IsWord(block, 31, 0x00000480)
  {
    hide Registers, IsWord;
    var a16, a17: bv32 := 0x258B0BAA, 0xD9772360;
    var c16, c17, c18: bv32 := 0xD0E89E4B, 0xFFB35EEF, 0x2898132A;
    var w0, w1, w2, w3: bv32 := 0x00000000, 0x00000000, 0x00000000, 0x00000000;
    var w4, w5, w6, w7: bv32 := 0x00000000, 0x00000000, 0x00000000, 0x00000000;
    var w8, w9, w10, w11: bv32 := 0x00000000, 0x00000000, 0x00000000, 0x00000000;
    var w12, w13, w14, w15: bv32 := 0x00000000, 0x00000000, 0x00000000, 0x000001C0;
    var w16, a18, c19: bv32 := 0x00000000, 0x5507DB6E, 0x8962C2EA;
    Turn(h, block, 16, w13, w8, w2, w0, w16, a17, a16, c18, c17, c16, a18, c19);
    var w17, a19, c20: bv32 := 0x00000000, 0xA51B58BC, 0x365DC8D8;
    Turn(h, block, 17, w14, w9, w3, w1, w17, a18, a17, c19, c18, c17, a19, c20);
    var w18, a20, c21: bv32 := 0x00000380, 0xC2EB709F, 0x9541F6DB;
    Turn(h, block, 18, w15, w10, w4, w2, w18, a19, a18, c20, c19, c18, a20, c21);
    var w19, a21, c22: bv32 := 0x00000000, 0xD8992153, 0x2946D62F;
    Turn(h, block, 19, w16, w11, w5, w3, w19, a20, a19, c21, c20, c19, a21, c22);
    var w20, a22, c23: bv32 := 0x00000000, 0x37482F5F, 0xF0BADC27;
    Turn(h, block, 20, w17, w12, w6, w4, w20, a21, a20, c22, c21, c20, a22, c23);
    var w21, a23, c24: bv32 := 0x00000700, 0xEE8700BD, 0xF6264854;
    Turn(h, block, 21, w18, w13, w7, w5, w21, a22, a21, c23, c22, c21, a23, c24);
    var w22, a24, c25: bv32 := 0x00000000, 0x9AD594B9, 0xCDD20BD7;
    Turn(h, block, 22, w19, w14, w8, w6, w22, a23, a22, c24, c23, c22, a24, c25);
    var w23, a25, c26: bv32 := 0x00000380, 0x8FBAA5B9, 0x7BA1C02F;
    Turn(h, block, 23, w20, w15, w9, w7, w23, a24, a23, c25, c24, c23, a25, c26);
    var w24, a26, c27: bv32 := 0x00000E00, 0x88FB5867, 0x66B5652E;
    Turn(h, block, 24, w21, w16, w10, w8, w24, a25, a24, c26, c25, c24, a26, c27);
    var w25, a27, c28: bv32 := 0x00000000, 0xEEC50521, 0x63EEA96E;
    Turn(h, block, 25, w22, w17, w11, w9, w25, a26, a25, c27, c26, c25, a27, c28);
    var w26, a28, c29: bv32 := 0x00000000, 0x50BCE434, 0xE23ED619;
    Turn(h, block, 26, w23, w18, w12, w10, w26, a27, a26, c28, c27, c26, a28, c29);
    var w27, a29, c30: bv32 := 0x00001C00, 0x5C416DAF, 0x7BB14148;
    Turn(h, block, 27, w24, w19, w13, w11, w27, a28, a27, c29, c28, c27, a29, c30);
    var w28, a30, c31: bv32 := 0x00000000, 0x2429BE5F, 0x142F390D;
    Turn(h, block, 28, w25, w20, w14, w12, w28, a29, a28, c30, c29, c28, a30, c31);
    var w29, a31, c32: bv32 := 0x00000D80, 0x0A2FB108, 0xD7105B6B;
    Turn(h, block, 29, w26, w21, w15, w13, w29, a30, a29, c31, c30, c29, a31, c32);
    var w30, a32, c33: bv32 := 0x00003800, 0x17986223, 0xC90A6F97;
    Turn(h, block, 30, w27, w22, w16, w14, w30, a31, a30, c32, c31, c30, a32, c33);
    var w31, a33, c34: bv32 := 0x00000480, 0x8A4AF384, 0x028BEC42;
    Turn(h, block, 31, w28, w23, w17, w15, w31, a32, a31, c33, c32, c31, a33, c34);
  }

  lemma SecondRounds32To47(h: Buffer, block: seq<byte>)
    requires Registers(h, block, 32, Buffer(0x8A4AF384, 0x17986223, 0x028BEC42, 0xC90A6F97, 0xD7105B6B))
    requires IsWord(block, 16, 0x00000000) && IsWord(block, 17, 0x00000000)
    requires IsWord(block, 18, 0x00000380) && IsWord(block, 19, 0x00000000)
    requires IsWord(block, 20, 0x00000000) && IsWord(block, 21, 0x00000700)
    requires IsWord(block, 22, 0x00000000) && IsWord(block, 23, 0x00000380)
    requires IsWord(block, 24, 0x00000E00) && IsWord(block, 25, 0x00000000)
    requires IsWord(block, 26, 0x00000000) && IsWord(block, 27, 0x00001C00)
    requires IsWord(block, 28, 0x00000000) && IsWord(block, 29, 0x00000D80)
    requires IsWord(block, 30, 0x00003800) && IsWord(block, 31, 0x00000480)
    ensures Registers(h, block, 48, Buffer(0x46F93B68, 0x7316056A, 0xB0F40CFA, 0xCF2BB5EB, 0x7B074F58))
    ensures IsWord(block, 32, 0x00000000) && IsWord(block, 33, 0x00007000)
    ensures IsWord(block, 34, 0x00000E00) && IsWord(block, 35, 0x00003600)
    ensures IsWord(block, 36, 0x0000E000) && IsWord(block, 37, 0x00000E00)
    ensures IsWord(block, 38, 0x00000000) && IsWord(block, 39, 0x0001CE00)
    ensures IsWord(block, 40, 0x00000000) && IsWord(block, 41, 0x0000D800)
    ensures IsWord(block, 42, 0x00038000) && IsWord(block, 43, 0x00004F00)
    ensures IsWord(block, 44, 0x00000000) && IsWord(block, 45, 0x00070E00)
    ensures IsWord(block, 46, 0x0000EE00) && IsWord(block, 47, 0x00037500)
  {
    hide Registers, IsWord;
    var a32, a33: bv32 := 0x17986223, 0x8A4AF384;
    var c32, c33, c34: bv32 := 0xD7105B6B, 0xC90A6F97, 0x028BEC42;
    var w16, w17, w18, w19: bv32 := 0x00000000, 0x00000000, 0x00000380, 0x00000000;
    var w20, w21, w22, w23: bv32 := 0x00000000, 0x00000700, 0x00000000, 0x00000380;
    var w24, w25, w26, w27: bv32 := 0x00000E00, 0x00000000, 0x00000000, 0x00001C00;
    var w28, w29, w30, w31: bv32 := 0x00000000, 0x00000D80, 0x00003800, 0x00000480;
    var w32, a34, c35: bv32 := 0x00000000, 0x6B629993, 0xC5E61888;
    Turn(h, block, 32, w29, w24, w18, w16, w32, a33, a32, c34, c33, c32, a34, c35);
    var w33, a35, c36: bv32 := 0x00007000, 0xF15F04F3, 0x2292BCE1;
    Turn(h, block, 33, w30, w25, w19, w17, w33, a34, a33, c35, c34, c33, a35, c36);
    var w34, a36, c37: bv32 := 0x00000E00, 0x295CC25B, 0xDAD8A664;
    Turn(h, block, 34, w31, w26, w20, w18, w34, a35, a34, c36, c35, c34, a36, c37);
    var w35, a37, c38: bv32 := 0x00003600, 0x696DA404, 0xFC57C13C;
    Turn(h, block, 35, w32, w27, w21, w19, w35, a36, a35, c37, c36, c35, a37, c38);
    var w36, a38, c39: bv32 := 0x0000E000, 0xCEF5AE12, 0xCA573096;
    Turn(h, block, 36, w33, w28, w22, w20, w36, a37, a36, c38, c37, c36, a38, c39);
    var w37, a39, c40: bv32 := 0x00000E00, 0x87D5B80C, 0x1A5B6901;
    Turn(h, block, 37, w34, w29, w23, w21, w37, a38, a37, c39, c38, c37, a39, c40);
    var w38, a40, c41: bv32 := 0x00000000, 0x84E2A5F2, 0xB3BD6B84;
    Turn(h, block, 38, w35, w30, w24, w22, w38, a39, a38, c40, c39, c38, a40, c41);
    var w39, a41, c42: bv32 := 0x0001CE00, 0x03BB6310, 0x21F56E03;
    Turn(h, block, 39, w36, w31, w25, w23, w39, a40, a39, c41, c40, c39, a41, c42);
    var w40, a42, c43: bv32 := 0x00000000, 0xC2D8F75F, 0xA138A97C;
    Turn(h, block, 40, w37, w32, w26, w24, w40, a41, a40, c42, c41, c40, a42, c43);
    var w41, a43, c44: bv32 := 0x0000D800, 0xBFB25768, 0x00EED8C4;
    Turn(h, block, 41, w38, w33, w27, w25, w41, a42, a41, c43, c42, c41, a43, c44);
    var w42, a44, c45: bv32 := 0x00038000, 0x28589152, 0xF0B63DD7;
    Turn(h, block, 42, w39, w34, w28, w26, w42, a43, a42, c44, c43, c42, a44, c45);
    var w43, a45, c46: bv32 := 0x00004F00, 0xEC1D3D61, 0x2FEC95DA;
    Turn(h, block, 43, w40, w35, w29, w27, w43, a44, a43, c45, c44, c43, a45, c46);
    var w44, a46, c47: bv32 := 0x00000000, 0x3CAED7AF, 0x8A162454;
    Turn(h, block, 44, w41, w36, w30, w28, w44, a45, a44, c46, c45, c44, a46, c47);
    var w45, a47, c48: bv32 := 0x00070E00, 0xC3D033EA, 0x7B074F58;
    Turn(h, block, 45, w42, w37, w31, w29, w45, a46, a45, c47, c46, c45, a47, c48);
    var w46, a48, c49: bv32 := 0x0000EE00, 0x7316056A, 0xCF2BB5EB;
    Turn(h, block, 46, w43, w38, w32, w30, w46, a47, a46, c48, c47, c46, a48, c49);
    var w47, a49, c50: bv32 := 0x00037500, 0x46F93B68, 0xB0F40CFA;
    Turn(h, block, 47, w44, w39, w33, w31, w47, a48, a47, c49, c48, c47, a49, c50);
  }

  lemma SecondRounds48To63(h: Buffer, block: seq<byte>)
    requires Registers(h, block, 48, Buffer(0x46F93B68, 0x7316056A, 0xB0F40CFA, 0xCF2BB5EB, 0x7B074F58))
    requires IsWord(block, 32, 0x00000000) && IsWord(block, 33, 0x00007000)
    requires IsWord(block, 34, 0x00000E00) && IsWord(block, 35, 0x00003600)
    requires IsWord(block, 36, 0x0000E000) && IsWord(block, 37, 0x00000E00)
    requires IsWord(block, 38, 0x00000000) && IsWord(block, 39, 0x0001CE00)
    requires IsWord(block, 40, 0x00000000) && IsWord(block, 41, 0x0000D800)
    requires IsWord(block, 42, 0x00038000) && IsWord(block, 43, 0x00004F00)
    requires IsWord(block, 44, 0x00000000) && IsWord(block, 45, 0x00070E00)
    requires IsWord(block, 46, 0x0000EE00) && IsWord(block, 47, 0x00037500)
    ensures Registers(h, block, 64, Buffer(0xD504902B, 0xF66D9BF4, 0x24D85327, 0xDEAAC406, 0xE996063D))
    ensures IsWord(block, 48, 0x000E0000) && IsWord(block, 49, 0x0000E000)
    ensures IsWord(block, 50, 0x00003600) && IsWord(block, 51, 0x001CEE00)
    ensures IsWord(block, 52, 0x00000000) && IsWord(block, 53, 0x000DF000)
    ensures IsWord(block, 54, 0x00380000) && IsWord(block, 55, 0x0004C600)
    ensures IsWord(block, 56, 0x0000E000) && IsWord(block, 57, 0x0070EE00)
    ensures IsWord(block, 58, 0x000EE000) && IsWord(block, 59, 0x00369E00)
    ensures IsWord(block, 60, 0x00E00000) && IsWord(block, 61, 0x000ED600)
    ensures IsWord(block, 62, 0x0000E000) && IsWord(block, 63, 0x01CEA600)
  {
    hide Registers, IsWord;
    var a48, a49: bv32 := 0x7316056A, 0x46F93B68;
    var c48, c49, c50: bv32 := 0x7B074F58, 0xCF2BB5EB, 0xB0F40CFA;
    var w32, w33, w34, w35: bv32 := 0x00000000, 0x00007000, 0x00000E00, 0x00003600;
    var w36, w37, w38, w39: bv32 := 0x0000E000, 0x00000E00, 0x00000000, 0x0001CE00;
    var w40, w41, w42, w43: bv32 := 0x00000000, 0x0000D800, 0x00038000, 0x00004F00;
    var w44, w45, w46, w47: bv32 := 0x00000000, 0x00070E00, 0x0000EE00, 0x00037500;
    var w48, a50, c51: bv32 := 0x000E0000, 0xDC8E7F26, 0x9CC5815A;
    Turn(h, block, 48, w45, w40, w34, w32, w48, a49, a48, c50, c49, c48, a50, c51);
    var w49, a51, c52: bv32 := 0x0000E000, 0x850D411C, 0x11BE4EDA;
    Turn(h, block, 49, w46, w41, w35, w33, w49, a50, a49, c51, c50, c49, a51, c52);
    var w50, a52, c53: bv32 := 0x00003600, 0x7E4672C0, 0xB7239FC9;
    Turn(h, block, 50, w47, w42, w36, w34, w50, a51, a50, c52, c51, c50, a52, c53);
    var w51, a53, c54: bv32 := 0x001CEE00, 0x89FBD41D, 0x21435047;
    Turn(h, block, 51, w48, w43, w37, w35, w51, a52, a51, c53, c52, c51, a53, c54);
    var w52, a54, c55: bv32 := 0x00000000, 0x1797E228, 0x1F919CB0;
    Turn(h, block, 52, w49, w44, w38, w36, w52, a53, a52, c54, c53, c52, a54, c55);
    var w53, a55, c56: bv32 := 0x000DF000, 0x431D65BC, 0x627EF507;
    Turn(h, block, 53, w50, w45, w39, w37, w53, a54, a53, c55, c54, c53, a55, c56);
    var w54, a56, c57: bv32 := 0x00380000, 0x2BDBB8CB, 0x05E5F88A;
    Turn(h, block, 54, w51, w46, w40, w38, w54, a55, a54, c56, c55, c54, a56, c57);
    var w55, a57, c58: bv32 := 0x0004C600, 0x6DA72E7F, 0x10C7596F;
    Turn(h, block, 55, w52, w47, w41, w39, w55, a56, a55, c57, c56, c55, a57, c58);
    var w56, a58, c59: bv32 := 0x0000E000, 0xA8495A9B, 0xCAF6EE32;
    Turn(h, block, 56, w53, w48, w42, w40, w56, a57, a56, c58, c57, c56, a58, c59);
    var w57, a59, c60: bv32 := 0x0070EE00, 0xE785655A, 0xDB69CB9F;
    Turn(h, block, 57, w54, w49, w43, w41, w57, a58, a57, c59, c58, c57, a59, c60);
    var w58, a60, c61: bv32 := 0x000EE000, 0x5B086C42, 0xEA1256A6;
    Turn(h, block, 58, w55, w50, w44, w42, w58, a59, a58, c60, c59, c58, a60, c61);
    var w59, a61, c62: bv32 := 0x00369E00, 0xA65818F7, 0xB9E15956;
    Turn(h, block, 59, w56, w51, w45, w43, w59, a60, a59, c61, c60, c59, a61, c62);
    var w60, a62, c63: bv32 := 0x00E00000, 0x7AAB101B, 0x96C21B10;
    Turn(h, block, 60, w57, w52, w46, w44, w60, a61, a60, c62, c61, c60, a62, c63);
    var w61, a63, c64: bv32 := 0x000ED600, 0x93614C9C, 0xE996063D;
    Turn(h, block, 61, w58, w53, w47, w45, w61, a62, a61, c63, c62, c61, a63, c64);
    var w62, a64, c65: bv32 := 0x0000E000, 0xF66D9BF4, 0xDEAAC406;
    Turn(h, block, 62, w59, w54, w48, w46, w62, a63, a62, c64, c63, c62, a64, c65);
    var w63, a65, c66: bv32 := 0x01CEA600, 0xD504902B, 0x24D85327;
    Turn(h, block, 63, w60, w55, w49, w47, w63, a64, a63, c65, c64, c63, a65, c66);
  }

  lemma SecondRounds64To79(h: Buffer, block: seq<byte>)
    requires Registers(h, block, 64, Buffer(0xD504902B, 0xF66D9BF4, 0x24D85327, 0xDEAAC406, 0xE996063D))
    requires IsWord(block, 48, 0x000E0000) && IsWord(block, 49, 0x0000E000)
    requires IsWord(block, 50, 0x00003600) && IsWord(block, 51, 0x001CEE00)
    requires IsWord(block, 52, 0x00000000) && IsWord(block, 53, 0x000DF000)
    requires IsWord(block, 54, 0x00380000) && IsWord(block, 55, 0x0004C600)
    requires IsWord(block, 56, 0x0000E000) && IsWord(block, 57, 0x0070EE00)
    requires IsWord(block, 58, 0x000EE000) && IsWord(block, 59, 0x00369E00)
    requires IsWord(block, 60, 0x00E00000) && IsWord(block, 61, 0x000ED600)
    requires IsWord(block, 62, 0x0000E000) && IsWord(block, 63, 0x01CEA600)
    ensures Registers(h, block, 80, Buffer(0x906FD62C, 0x58C0AAC0, 0xB6A55520, 0x74E9B89D, 0x9AF00B7F))
  {
    hide Registers, IsWord;
    var a64, a65: bv32 := 0xF66D9BF4, 0xD504902B;
    var c64, c65, c66: bv32 := 0xE996063D, 0xDEAAC406, 0x24D85327;
    var w48, w49, w50, w51: bv32 := 0x000E0000, 0x0000E000, 0x00003600, 0x001CEE00;
    var w52, w53, w54, w55: bv32 := 0x00000000, 0x000DF000, 0x00380000, 0x0004C600;
    var w56, w57, w58, w59: bv32 := 0x0000E000, 0x0070EE00, 0x000EE000, 0x00369E00;
    var w60, w61, w62, w63: bv32 := 0x00E00000, 0x000ED600, 0x0000E000, 0x01CEA600;
    var w64, a66, c67: bv32 := 0x00000000, 0x60A9DA62, 0x3D9B66FD;
    Turn(h, block, 64, w61, w56, w50, w48, w64, a65, a64, c66, c65, c64, a66, c67);
    var w65, a67, c68: bv32 := 0x00D80000, 0x8B687819, 0xF541240A;
    Turn(h, block, 65, w62, w57, w51, w49, w65, a66, a65, c67, c66, c65, a67, c68);
    var w66, a68, c69: bv32 := 0x0380E000, 0x083E90C3, 0x982A7698;
    Turn(h, block, 66, w63, w58, w52, w50, w66, a67, a66, c68, c67, c66, a68, c69);
    var w67, a69, c70: bv32 := 0x004F0000, 0xF6226BBF, 0x62DA1E06;
    Turn(h, block, 67, w64, w59, w53, w51, w67, a68, a67, c69, c68, c67, a69, c70);
    var w68, a70, c71: bv32 := 0x00000000, 0x76C0563B, 0xC20FA430;
    Turn(h, block, 68, w65, w60, w54, w52, w68, a69, a68, c70, c69, c68, a70, c71);
    var w69, a71, c72: bv32 := 0x070E0000, 0x989DD165, 0xFD889AEF;
    Turn(h, block, 69, w66, w61, w55, w53, w69, a70, a69, c71, c70, c69, a71, c72);
    var w70, a72, c73: bv32 := 0x00EE0000, 0x8B2C7573, 0xDDB0158E;
    Turn(h, block, 70, w67, w62, w56, w54, w70, a71, a70, c72, c71, c70, a72, c73);
    var w71, a73, c74: bv32 := 0x03751C00, 0xAE1B8E7B, 0x66277459;
    Turn(h, block, 71, w68, w63, w57, w55, w71, a72, a71, c73, c72, c71, a73, c74);
    var w72, a74, c75: bv32 := 0x0E000000, 0xCA1840DE, 0xE2CB1D5C;
    Turn(h, block, 72, w69, w64, w58, w56, w72, a73, a72, c74, c73, c72, a74, c75);
    var w73, a75, c76: bv32 := 0x00E0E000, 0x16F3BABB, 0xEB86E39E;
    Turn(h, block, 73, w70, w65, w59, w57, w73, a74, a73, c75, c74, c73, a75, c76);
    var w74, a76, c77: bv32 := 0x00363800, 0xD28D83AD, 0xB2861037;
    Turn(h, block, 74, w71, w66, w60, w58, w74, a75, a74, c76, c75, c74, a76, c77);
    var w75, a77, c78: bv32 := 0x1CEE9000, 0x6BC02DFE, 0xC5BCEEAE;
    Turn(h, block, 75, w72, w67, w61, w59, w75, a76, a75, c77, c76, c75, a77, c78);
    var w76, a78, c79: bv32 := 0x00000000, 0xD3A6E275, 0x74A360EB;
    Turn(h, block, 76, w73, w68, w62, w60, w76, a77, a76, c78, c77, c76, a78, c79);
    var w77, a79, c80: bv32 := 0x0DF09000, 0xDA955482, 0x9AF00B7F;
    Turn(h, block, 77, w74, w69, w63, w61, w77, a78, a77, c79, c78, c77, a79, c80);
    var w78, a80, c81: bv32 := 0x3800E000, 0x58C0AAC0, 0x74E9B89D;
    Turn(h, block, 78, w75, w70, w64, w62, w78, a79, a78, c80, c79, c78, a80, c81);
    var w79, a81, c82: bv32 := 0x04C77400, 0x906FD62C, 0xB6A55520;
    Turn(h, block, 79, w76, w71, w65, w63, w79, a80, a79, c81, c80, c79, a81, c82);
  }

  lemma SecondRounds(h: Buffer, block: seq<byte>)
    requires h == Buffer(0xF4286818, 0xC37B27AE, 0x0408F581, 0x84677148, 0x4A566572) && block == SecondBlock()
    ensures Registers(h, block, 80, Buffer(0x906FD62C, 0x58C0AAC0, 0xB6A55520, 0x74E9B89D, 0x9AF00B7F))
  {
    hide Registers, IsWord, SecondBlock;
    SecondRounds0To15(h, block);
    SecondRounds16To31(h, block);
    SecondRounds32To47(h, block);
    SecondRounds48To63(h, block);
    SecondRounds64To79(h, block);
  }

  /** Its digest is 84983E44 1C3BD26E BAAE4AA1 F95129E5 E54670F1. */
  lemma DigestOfLongMessage()
    ensures Digest(LongMessage()) == Buffer(0x84983E44, 0x1C3BD26E, 0xBAAE4AA1, 0xF95129E5, 0xE54670F1)
  {
    FirstRounds(INITIAL_BUFFER, FirstBlock());
    SecondRounds(Buffer(0xF4286818, 0xC37B27AE, 0x0408F581, 0x84677148, 0x4A566572), SecondBlock());
    LongMessagePadded();
    TwoBlocks(FirstBlock(), SecondBlock());
    hide W, Rounds, Pad, FirstBlock, SecondBlock, LongMessage;
  }

  lemma LongMessagePadded()
    ensures Pad(LongMessage()) == FirstBlock() + SecondBlock()
  {
    var message := LongMessage();
    PadTwoBlocks(message);
    assert Tail(message) == message && Whole(message) == [];
    assert BigEndian64(448) == Zeros(6) + [0x01, 0xC0];
    assert Zeros(56) + Zeros(6) == Zeros(62);
    hide LongMessage, Pad, Tail, Whole;
  }

  // ----- Blocks together

  lemma OneBlock(block: seq<byte>)
    requires |block| == 64
    ensures HashBlocks(block) == Add(INITIAL_BUFFER, Rounds(INITIAL_BUFFER, W(block, 80), 80))
  {
    hide W, Rounds;
    assert block[..0] == [] && block[0..] == block;
  }

  lemma TwoBlocks(first: seq<byte>, second: seq<byte>)
    requires |first| == |second| == 64
    ensures var h := Add(INITIAL_BUFFER, Rounds(INITIAL_BUFFER, W(first, 80), 80));
            HashBlocks(first + second) == Add(h, Rounds(h, W(second, 80), 80))
  {
    hide W, Rounds;
    OneBlock(first);
    HashOneMore(first, second);
  }
}
