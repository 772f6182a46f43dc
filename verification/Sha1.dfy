/** The streaming SHA-1 of sha1.c: a context updated in place, proved against `Sha1Spec`. */
module Sha1 {
  import opened Bytes
  import opened Sha1Spec

  /** What a context has been told so far. */
  datatype Phase =
    | Absorbing(message: seq<byte>)
    | Computed(message: seq<byte>)
    | Corrupted

  ghost predicate PhaseValid(p: Phase) {
    p.Corrupted? || |p.message| < 0x2000_0000_0000_0000
  }

  /** The meaning of one call of SHA1Input. */
  ghost function AfterInput(p: Phase, data: seq<byte>): (q: Phase) {
    if data == [] then p
    else if p.Absorbing? && |p.message| + |data| < 0x2000_0000_0000_0000 then Absorbing(p.message + data)
    else Corrupted
  }

  /** The meaning of one call of SHA1Result. */
  ghost function AfterResult(p: Phase): (q: Phase) {
    if p.Absorbing? then Computed(p.message) else p
  }

  // ----- Every way of splitting a message into calls

  ghost function AfterInputs(p: Phase, chunks: seq<seq<byte>>): (q: Phase)
    decreases |chunks|
  {
    if chunks == [] then p else AfterInputs(AfterInput(p, chunks[0]), chunks[1..])
  }

  /** However the octets are cut into calls of SHA1Input, only their concatenation counts. */
  lemma {:induction false} SplittingIsIrrelevant(message: seq<byte>, chunks: seq<seq<byte>>)
    requires |message| < 0x2000_0000_0000_0000
    ensures AfterInputs(Absorbing(message), chunks) ==
            if |message| + |Concat(chunks)| < 0x2000_0000_0000_0000
            then Absorbing(message + Concat(chunks)) else Corrupted
    decreases |chunks|
  {
    if chunks == [] {
      assert message + Concat(chunks) == message;
    } else if |message| + |chunks[0]| < 0x2000_0000_0000_0000 {
      assert AfterInput(Absorbing(message), chunks[0]) == Absorbing(message + chunks[0]) by {
        assert chunks[0] == [] ==> message + chunks[0] == message;
      }
      SplittingIsIrrelevant(message + chunks[0], chunks[1..]);
      assert message + chunks[0] + Concat(chunks[1..]) == message + Concat(chunks);
    } else {
      CorruptedLatches(chunks[1..]);
    }
  }

  lemma {:induction false} CorruptedLatches(chunks: seq<seq<byte>>)
    ensures AfterInputs(Corrupted, chunks) == Corrupted
  {
    if chunks != [] {
      CorruptedLatches(chunks[1..]);
    }
  }

  /** SHA1Reset, any calls of SHA1Input, SHA1Result: the digest of what was put in, or a failure if it was too long. */
  lemma DigestOfAnySplit(chunks: seq<seq<byte>>)
    ensures AfterResult(AfterInputs(Absorbing([]), chunks)) ==
            if |Concat(chunks)| < 0x2000_0000_0000_0000 then Computed(Concat(chunks)) else Corrupted
  {
    SplittingIsIrrelevant([], chunks);
    assert [] + Concat(chunks) == Concat(chunks);
  }

  // ----- Every sequence of calls

  datatype Call = Input(data: seq<byte>) | Result

  ghost function AfterCall(p: Phase, c: Call): (q: Phase) {
    if c.Input? then AfterInput(p, c.data) else AfterResult(p)
  }

  ghost function AfterCalls(calls: seq<Call>): (q: Phase) {
    if calls == [] then Absorbing([])
    else AfterCall(AfterCalls(calls[..|calls| - 1]), calls[|calls| - 1])
  }

  /** The octets put in so far. */
  ghost function Octets(calls: seq<Call>): nat {
    if calls == [] then 0
    else Octets(calls[..|calls| - 1]) + if calls[|calls| - 1].Input? then |calls[|calls| - 1].data| else 0
  }

  ghost predicate Asked(calls: seq<Call>) {
    Result in calls
  }

  /** Call number `k` puts octets into a context that has already answered, or overflows the 64-bit length. */
  ghost predicate Misuse(calls: seq<Call>, k: nat)
    requires k < |calls|
  {
    && calls[k].Input? && calls[k].data != []
    && (Asked(calls[..k]) || Octets(calls[..k + 1]) >= 0x2000_0000_0000_0000)
  }

  /** The Corrupted flag is set exactly by a misuse, and never cleared. */
  lemma {:induction false} CorruptedExactly(calls: seq<Call>)
    ensures var p := AfterCalls(calls);
            && (p.Corrupted? <==> exists k: nat :: k < |calls| && Misuse(calls, k))
            && (p.Absorbing? ==> !Asked(calls) && |p.message| == Octets(calls) < 0x2000_0000_0000_0000)
            && (p.Computed? ==> Asked(calls))
  {
    if calls != [] {
      var n := |calls| - 1;
      CorruptedExactly(calls[..n]);
      assert calls[..n + 1] == calls;
      AskedOneMore(calls);
      forall k: nat | k < n
        ensures Misuse(calls, k) <==> Misuse(calls[..n], k)
      {
        MisuseOfPrefix(calls, k);
      }
      assert Misuse(calls, n) ==> AfterCalls(calls).Corrupted?;
      assert AfterCalls(calls).Corrupted? ==> AfterCalls(calls[..n]).Corrupted? || Misuse(calls, n);
    }
  }

  lemma MisuseOfPrefix(calls: seq<Call>, k: nat)
    requires k < |calls| - 1
    ensures Misuse(calls, k) <==> Misuse(calls[..|calls| - 1], k)
  {
    var earlier := calls[..|calls| - 1];
    assert calls[..k] == earlier[..k] && calls[..k + 1] == earlier[..k + 1];
  }

  lemma AskedOneMore(calls: seq<Call>)
    requires calls != []
    ensures Asked(calls) <==> Asked(calls[..|calls| - 1]) || calls[|calls| - 1].Result?
  {
    assert calls == calls[..|calls| - 1] + [calls[|calls| - 1]];
  }

  /** Eight bits more, in two words. */
  lemma NextLength(low: int, high: int, octets: int)
    requires 0 <= low < 0x1_0000_0000 && 0 <= high < 0x1_0000_0000 && high * 0x1_0000_0000 + low == 8 * octets
    ensures (low + 8) % 0x1_0000_0000 == if low == 0xFFFF_FFF8 then 0 else low + 8
    ensures low == 0xFFFF_FFF8 && high == 0xFFFF_FFFF <==> octets + 1 == 0x2000_0000_0000_0000
  {
    assert low == 8 * (octets - high * 0x2000_0000);
  }

  /** The macro SHA1CircularShift. */
  function CircularShift(bits: nat, word: bv32): (r: bv32)
    requires bits in {1, 5, 30}
    ensures r == S(bits, word)
  {
    ((word << bits) & 0xFFFF_FFFF) | (word >> (32 - bits))
  }

  lemma TwoWords(low: int, high: int, bits: int)
    requires 0 <= low < 0x1_0000_0000 && bits == high * 0x1_0000_0000 + low
    ensures bits / 0x1_0000_0000 == high && bits % 0x1_0000_0000 == low
  {
  }

  // The expressions of the round loops.

  function ChosenBits(b: bv32, c: bv32, d: bv32): (f: bv32)
    ensures f == Choose(b, c, d)
  {
    (b & c) | ((!b) & d)
  }

  function ParityBits(b: bv32, c: bv32, d: bv32): (f: bv32)
    ensures f == Parity(b, c, d)
  {
    b ^ c ^ d
  }

  function MajorityBits(b: bv32, c: bv32, d: bv32): (f: bv32)
    ensures f == Majority(b, c, d)
  {
    (b & c) | (b & d) | (c & d)
  }

  /** The struct SHA1Context of sha1.h; `phase` is what the caller has told it. */
  class Sha1Context {
    const messageDigest: array<bv32>
    var lengthLow: int
    var lengthHigh: int
    const messageBlock: array<byte>
    var messageBlockIndex: int
    var computed: bool
    var corrupted: bool
    ghost var phase: Phase

    ghost predicate WellFormed()
    {
      messageDigest.Length == 5 && messageBlock.Length == 64
    }

    ghost function Registers(): Buffer
      requires WellFormed()
      reads messageDigest
    {
      Buffer(messageDigest[0], messageDigest[1], messageDigest[2], messageDigest[3], messageDigest[4])
    }

    ghost predicate LengthIs(octets: int)
      reads this`lengthLow, this`lengthHigh
    {
      && 0 <= lengthLow < 0x1_0000_0000 && 0 <= lengthHigh < 0x1_0000_0000
      && lengthHigh * 0x1_0000_0000 + lengthLow == 8 * octets
    }

    /** The length words and the block buffer agree with the octets consumed so far. */
    ghost predicate Tracks(message: seq<byte>)
      reads this, messageDigest, messageBlock
    {
      && WellFormed()
      && LengthIs(|message|)
      && messageBlockIndex == |Tail(message)|
      && messageBlock[..messageBlockIndex] == Tail(message)
      && Registers() == HashBlocks(Whole(message))
    }

    ghost predicate Valid()
      reads this, messageDigest, messageBlock
    {
      && WellFormed()
      && PhaseValid(phase)
      && corrupted == phase.Corrupted?
      && (!corrupted ==> computed == phase.Computed?)
      && (phase.Absorbing? ==> Tracks(phase.message))
      && (phase.Computed? ==> Registers() == Digest(phase.message))
    }

    constructor ()
      ensures WellFormed() && fresh(messageDigest) && fresh(messageBlock)
    {
      messageDigest, messageBlock := new bv32[5], new byte[64];
    }

    /** SHA1Reset. */
    method Reset()
      requires WellFormed()
      modifies this, messageDigest
      ensures Valid() && phase == Absorbing([])
    {
      lengthLow, lengthHigh, messageBlockIndex := 0, 0, 0;
      messageDigest[0] := 0x67452301;
      messageDigest[1] := 0xEFCDAB89;
      messageDigest[2] := 0x98BADCFE;
      messageDigest[3] := 0x10325476;
      messageDigest[4] := 0xC3D2E1F0;
      computed, corrupted := false, false;
      phase := Absorbing([]);
    }

    /** SHA1Result: a digest for every context that is not corrupted, the same one each time. */
    method Result() returns (ok: bool)
      requires Valid()
      modifies this, messageDigest, messageBlock
      ensures Valid() && phase == AfterResult(old(phase))
      ensures ok == !old(phase).Corrupted?
      ensures ok ==> Registers() == Digest(phase.message)
      ensures old(phase).Computed? ==> messageDigest[..] == old(messageDigest[..])
    {
      if corrupted {
        return false;
      }
      if !computed {
        PadMessage(phase.message);
        computed := true;
        phase := Computed(phase.message);
      }
      return true;
    }

    /** The calls that every caller makes: SHA1Reset, SHA1Input for each chunk, and SHA1Result. */
    method Hash(chunks: seq<seq<byte>>) returns (ok: bool)
      requires WellFormed() && forall chunk <- chunks :: |chunk| < 0x1_0000_0000
      modifies this, messageDigest, messageBlock
      ensures Valid() && ok == (|Concat(chunks)| < 0x2000_0000_0000_0000)
      ensures ok ==> Registers() == Digest(Concat(chunks))
    {
      DigestOfAnySplit(chunks);
      Reset();
      for i := 0 to |chunks|
        invariant Valid() && AfterInputs(phase, chunks[i..]) == AfterInputs(Absorbing([]), chunks)
      {
        Input(chunks[i]);
        assert chunks[i..][1..] == chunks[i + 1..];
      }
      ok := Result();
    }

    /** SHA1Input. */
    method Input(data: seq<byte>)
      requires Valid()
      requires |data| < 0x1_0000_0000
      modifies this, messageDigest, messageBlock
      ensures Valid() && phase == AfterInput(old(phase), data)
    {
      if |data| == 0 {
        return;
      }
      if computed || corrupted {
        corrupted := true;
        phase := Corrupted;
        return;
      }
      ghost var before := phase.message;
      Absorb(before, data);
      phase := if corrupted then Corrupted else Absorbing(before + data);
    }

    /** The loop of SHA1Input. */
    method Absorb(ghost before: seq<byte>, data: seq<byte>)
      requires Tracks(before) && |before| < 0x2000_0000_0000_0000 && !corrupted
      modifies this, messageDigest, messageBlock
      ensures WellFormed() && computed == old(computed)
      ensures corrupted == (|before| + |data| >= 0x2000_0000_0000_0000)
      ensures !corrupted ==> Tracks(before + data)
    {
      var i := 0;
      ghost var message := before;
      while i < |data| && !corrupted
        invariant 0 <= i <= |data| && message == before + data[..i]
        invariant WellFormed() && computed == old(computed)
        invariant !corrupted ==> |message| < 0x2000_0000_0000_0000 && Tracks(message)
        invariant corrupted ==> |message| >= 0x2000_0000_0000_0000
      {
        AddOctet(message, data[i]);
        assert data[..i + 1] == data[..i] + [data[i]];
        message := message + [data[i]];
        i := i + 1;
      }
      assert i == |data| ==> message == before + data;
    }

    /** The body of the loop of SHA1Input: one octet, and the block it completes. */
    method AddOctet(ghost message: seq<byte>, next: byte)
      requires Tracks(message) && |message| < 0x2000_0000_0000_0000 && !corrupted
      modifies this, messageDigest, messageBlock
      ensures WellFormed() && computed == old(computed)
      ensures corrupted == (|message| + 1 == 0x2000_0000_0000_0000)
      ensures !corrupted ==> Tracks(message + [next])
    {
      CutOneMore(message, next);
      messageBlock[messageBlockIndex] := next;
      messageBlockIndex := messageBlockIndex + 1;
      CountOctet(|message|);
      assert messageBlock[..messageBlockIndex] == Tail(message) + [next];
      if messageBlockIndex == 64 {
        assert messageBlock[..] == Tail(message) + [next];
        HashOneMore(Whole(message), messageBlock[..]);
        ProcessMessageBlock();
      }
    }

    /** The 64-bit length held in two words. */
    method CountOctet(ghost count: int)
      requires LengthIs(count) && !corrupted
      modifies this`lengthLow, this`lengthHigh, this`corrupted
      ensures corrupted == (count + 1 == 0x2000_0000_0000_0000)
      ensures !corrupted ==> LengthIs(count + 1)
    {
      NextLength(lengthLow, lengthHigh, count);
      lengthLow := (lengthLow + 8) % 0x1_0000_0000;
      if lengthLow == 0 {
        lengthHigh := (lengthHigh + 1) % 0x1_0000_0000;
        if lengthHigh == 0 {
          corrupted := true;
        }
      }
    }

    /** SHA1ProcessMessageBlock. */
    method ProcessMessageBlock()
      requires WellFormed()
      modifies this`messageBlockIndex, messageDigest
      ensures Registers() == Process(old(Registers()), messageBlock[..])
      ensures messageBlockIndex == 0
    {
      ghost var block := messageBlock[..];
      ghost var h := Registers();
      var w := Schedule();
      var r := Buffer(messageDigest[0], messageDigest[1], messageDigest[2], messageDigest[3], messageDigest[4]);
      r := Rounds0To19(h, w[..], r);
      r := Rounds20To39(h, w[..], r);
      r := Rounds40To59(h, w[..], r);
      r := Rounds60To79(h, w[..], r);
      messageDigest[0] := Plus(messageDigest[0], r.a);
      messageDigest[1] := Plus(messageDigest[1], r.b);
      messageDigest[2] := Plus(messageDigest[2], r.c);
      messageDigest[3] := Plus(messageDigest[3], r.d);
      messageDigest[4] := Plus(messageDigest[4], r.e);
      messageBlockIndex := 0;
    }

    /** The first two loops of SHA1ProcessMessageBlock: the array W. */
    method Schedule() returns (w: array<bv32>)
      requires WellFormed()
      ensures w[..] == W(messageBlock[..], 80)
    {
      w := new bv32[80];
      FirstWords(w);
      LaterWords(messageBlock[..], w);
      assert w[..80] == w[..];
    }

    method FirstWords(w: array<bv32>)
      requires WellFormed() && w.Length == 80
      modifies w
      ensures w[..16] == W(messageBlock[..], 16)
    {
      ghost var block := messageBlock[..];
      for t := 0 to 16
        invariant w[..t] == W(block, t)
        invariant messageBlock[..] == block
      {
        w[t] := Join(messageBlock[t * 4], messageBlock[t * 4 + 1], messageBlock[t * 4 + 2], messageBlock[t * 4 + 3]);
        assert w[..t + 1] == w[..t] + [w[t]];
      }
    }

    static method LaterWords(ghost block: seq<byte>, w: array<bv32>)
      requires |block| == 64 && w.Length == 80 && w[..16] == W(block, 16)
      modifies w
      ensures w[..80] == W(block, 80)
    {
      for t := 16 to 80
        invariant w[..t] == W(block, t)
      {
        assert w[t - 3] == w[..t][t - 3] && w[t - 8] == w[..t][t - 8];
        assert w[t - 14] == w[..t][t - 14] && w[t - 16] == w[..t][t - 16];
        w[t] := CircularShift(1, Xor(Xor(Xor(w[t - 3], w[t - 8]), w[t - 14]), w[t - 16]));
        assert w[..t + 1] == w[..t] + [w[t]];
      }
    }

    // The four round loops of SHA1ProcessMessageBlock.

    method Rounds0To19(ghost h: Buffer, w: seq<bv32>, start: Buffer) returns (end: Buffer)
      requires |w| == 80 && start == Rounds(h, w, 0)
      ensures end == Rounds(h, w, 20)
    {
      hide Choose, Parity, Majority, ChosenBits, ParityBits, MajorityBits, Plus, S, CircularShift;
      var a, b, c, d, e := start.a, start.b, start.c, start.d, start.e;
      for t := 0 to 20
        invariant Buffer(a, b, c, d, e) == Rounds(h, w, t)
      {
        var f := ChosenBits(b, c, d);
        var temp := Plus(Plus(Plus(Plus(CircularShift(5, a), f), e), w[t]), 0x5A827999);
        a, b, c, d, e := temp, a, CircularShift(30, b), c, d;
      }
      end := Buffer(a, b, c, d, e);
    }

    method Rounds20To39(ghost h: Buffer, w: seq<bv32>, start: Buffer) returns (end: Buffer)
      requires |w| == 80 && start == Rounds(h, w, 20)
      ensures end == Rounds(h, w, 40)
    {
      hide Choose, Parity, Majority, ChosenBits, ParityBits, MajorityBits, Plus, S, CircularShift;
      var a, b, c, d, e := start.a, start.b, start.c, start.d, start.e;
      for t := 20 to 40
        invariant Buffer(a, b, c, d, e) == Rounds(h, w, t)
      {
        var f := ParityBits(b, c, d);
        var temp := Plus(Plus(Plus(Plus(CircularShift(5, a), f), e), w[t]), 0x6ED9EBA1);
        a, b, c, d, e := temp, a, CircularShift(30, b), c, d;
      }
      end := Buffer(a, b, c, d, e);
    }

    method Rounds40To59(ghost h: Buffer, w: seq<bv32>, start: Buffer) returns (end: Buffer)
      requires |w| == 80 && start == Rounds(h, w, 40)
      ensures end == Rounds(h, w, 60)
    {
      hide Choose, Parity, Majority, ChosenBits, ParityBits, MajorityBits, Plus, S, CircularShift;
      var a, b, c, d, e := start.a, start.b, start.c, start.d, start.e;
      for t := 40 to 60
        invariant Buffer(a, b, c, d, e) == Rounds(h, w, t)
      {
        var f := MajorityBits(b, c, d);
        var temp := Plus(Plus(Plus(Plus(CircularShift(5, a), f), e), w[t]), 0x8F1BBCDC);
        a, b, c, d, e := temp, a, CircularShift(30, b), c, d;
      }
      end := Buffer(a, b, c, d, e);
    }

    method Rounds60To79(ghost h: Buffer, w: seq<bv32>, start: Buffer) returns (end: Buffer)
      requires |w| == 80 && start == Rounds(h, w, 60)
      ensures end == Rounds(h, w, 80)
    {
      hide Choose, Parity, Majority, ChosenBits, ParityBits, MajorityBits, Plus, S, CircularShift;
      var a, b, c, d, e := start.a, start.b, start.c, start.d, start.e;
      for t := 60 to 80
        invariant Buffer(a, b, c, d, e) == Rounds(h, w, t)
      {
        var f := ParityBits(b, c, d);
        var temp := Plus(Plus(Plus(Plus(CircularShift(5, a), f), e), w[t]), 0xCA62C1D6);
        a, b, c, d, e := temp, a, CircularShift(30, b), c, d;
      }
      end := Buffer(a, b, c, d, e);
    }

    /** SHA1PadMessage: the last one or two blocks of the padded message. */
    method PadMessage(ghost message: seq<byte>)
      requires Tracks(message) && |message| < 0x2000_0000_0000_0000
      modifies this`messageBlockIndex, messageDigest, messageBlock
      ensures Registers() == Digest(message)
    {
      if messageBlockIndex > 55 {
        PadIntoTwoBlocks(message);
      } else {
        PadIntoOneBlock(message);
      }
    }

    method PadIntoTwoBlocks(ghost message: seq<byte>)
      requires Tracks(message) && |message| < 0x2000_0000_0000_0000 && messageBlockIndex > 55
      modifies this`messageBlockIndex, messageDigest, messageBlock
      ensures Registers() == Digest(message)
    {
      ghost var first := Tail(message) + [0x80] + Zeros(63 - |Tail(message)|);
      CloseFirstBlock(message, first);
      FillSecondBlock(Whole(message) + first, |message|);
      PadTwoBlocks(message);
    }

    method CloseFirstBlock(ghost message: seq<byte>, ghost first: seq<byte>)
      requires Tracks(message) && messageBlockIndex > 55
      requires first == Tail(message) + [0x80] + Zeros(63 - |Tail(message)|)
      modifies this`messageBlockIndex, messageDigest, messageBlock
      ensures messageBlockIndex == 0
      ensures Registers() == HashBlocks(Whole(message) + first)
    {
      hide Process, HashBlocks;
      AppendMarker(64);
      assert messageBlock[..64] == messageBlock[..];
      HashOneMore(Whole(message), first);
      ProcessMessageBlock();
    }

    method FillSecondBlock(ghost done: seq<byte>, ghost octets: int)
      requires WellFormed() && messageBlockIndex == 0
      requires LengthIs(octets) && 0 <= octets < 0x2000_0000_0000_0000
      requires |done| % 64 == 0 && Registers() == HashBlocks(done)
      modifies this`messageBlockIndex, messageDigest, messageBlock
      ensures Registers() == HashBlocks(done + (Zeros(56) + BigEndian64(8 * octets)))
    {
      ZeroFill(56);
      assert messageBlock[..56] == Zeros(56);
      StoreLength(octets);
      HashOneMore(done, messageBlock[..]);
      ProcessMessageBlock();
    }

    method PadIntoOneBlock(ghost message: seq<byte>)
      requires Tracks(message) && |message| < 0x2000_0000_0000_0000 && messageBlockIndex <= 55
      modifies this`messageBlockIndex, messageDigest, messageBlock
      ensures Registers() == Digest(message)
    {
      AppendMarker(56);
      StoreLength(|message|);
      HashOneMore(Whole(message), messageBlock[..]);
      ProcessMessageBlock();
      PadOneBlock(message);
    }

    /** The octet 0x80 and the zeros after it, up to `end`. */
    method AppendMarker(end: int)
      requires WellFormed() && 0 <= messageBlockIndex < end <= 64
      modifies this`messageBlockIndex, messageBlock
      ensures messageBlockIndex == end
      ensures messageBlock[..end] ==
              old(messageBlock[..messageBlockIndex]) + [0x80] + Zeros(end - 1 - old(messageBlockIndex))
    {
      messageBlock[messageBlockIndex] := 0x80;
      messageBlockIndex := messageBlockIndex + 1;
      assert messageBlock[..messageBlockIndex] == old(messageBlock[..messageBlockIndex]) + [0x80];
      ZeroFill(end);
    }

    /** The loops of SHA1PadMessage that zero the buffer up to `end`. */
    method ZeroFill(end: int)
      requires WellFormed() && 0 <= messageBlockIndex <= end <= 64
      modifies this`messageBlockIndex, messageBlock
      ensures messageBlockIndex == end
      ensures messageBlock[..end] == old(messageBlock[..messageBlockIndex]) + Zeros(end - old(messageBlockIndex))
    {
      while messageBlockIndex < end
        invariant old(messageBlockIndex) <= messageBlockIndex <= end
        invariant messageBlock[..old(messageBlockIndex)] == old(messageBlock[..messageBlockIndex])
        invariant forall i :: old(messageBlockIndex) <= i < messageBlockIndex ==> messageBlock[i] == 0
      {
        messageBlock[messageBlockIndex] := 0;
        messageBlockIndex := messageBlockIndex + 1;
      }
    }

    /** The two length words, as the last eight octets of the block. */
    method StoreLength(ghost octets: int)
      requires WellFormed() && LengthIs(octets) && 0 <= octets < 0x2000_0000_0000_0000
      modifies messageBlock
      ensures messageBlock[..] == old(messageBlock[..56]) + BigEndian64(8 * octets)
    {
      StoreWord(56, lengthHigh);
      StoreWord(60, lengthLow);
      TwoWords(lengthLow, lengthHigh, 8 * octets);
      assert messageBlock[..] == messageBlock[..56] + (messageBlock[56..60] + messageBlock[60..]);
    }

    /** One of them. */
    method StoreWord(at: nat, word: int)
      requires WellFormed() && at <= 60 && 0 <= word < 0x1_0000_0000
      modifies messageBlock
      ensures messageBlock[at..at + 4] == BigEndian32(word)
      ensures messageBlock[..at] == old(messageBlock[..at]) && messageBlock[at + 4..] == old(messageBlock[at + 4..])
    {
      messageBlock[at] := (word / 0x100_0000 % 0x100) as byte;
      messageBlock[at + 1] := (word / 0x1_0000 % 0x100) as byte;
      messageBlock[at + 2] := (word / 0x100 % 0x100) as byte;
      messageBlock[at + 3] := (word % 0x100) as byte;
    }
  }
}
