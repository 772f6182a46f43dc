/** The octets of every message, one by one, and what message_handler reads from any octets. */
module WireLayout {
  import opened Bytes
  import opened WireFormat

  // ----- Numbers

  /** An int in network byte order. */
  function Network(x: Int32): (bs: seq<byte>)
    ensures |bs| == 4
  {
    BigEndian32(x % 0x1_0000_0000)
  }

  lemma NetworkLiterals()
    ensures Network(0x01020304) == [1, 2, 3, 4] && Network(-2) == [255, 255, 255, 254]
    ensures Network(0) == [0, 0, 0, 0] && Network(1) == [0, 0, 0, 1]
    ensures Network(5) == [0, 0, 0, 5] && Network(13) == [0, 0, 0, 13]
  {
  }

  lemma WordIsNetwork(x: Int32)
    ensures Word(x) == Network(x) && Unsigned(x) == x % 0x1_0000_0000
  {
    hide BigEndian32, Octet, ReverseByteOrder, IntOf;
    NetworkOrder(x, Memory(x));
  }

  /** The octets of the number that four octets make up. */
  lemma BigEndian32Back(bs: seq<byte>)
    requires |bs| == 4
    ensures BigEndian32(FromBigEndian32(bs)) == bs
  {
    var n := FromBigEndian32(bs);
    LastOctet(n, bs[0] as int * 0x1_0000 + bs[1] as int * 0x100 + bs[2] as int, bs[3]);
    LastOctet(n / 0x100, bs[0] as int * 0x100 + bs[1] as int, bs[2]);
    LastOctet(n / 0x1_0000, bs[0] as int, bs[1]);
    hide FromBigEndian32;
  }

  /** The most significant octet comes first, and negative ints are their two's complements. */
  lemma NetworkExactly(x: Int32, bs: seq<byte>)
    requires |bs| == 4
    ensures bs == Network(x) <==>
            bs[0] as int * 0x100_0000 + bs[1] as int * 0x1_0000 + bs[2] as int * 0x100 + bs[3] as int
            == if x < 0 then 0x1_0000_0000 + x else x
    ensures bs == Network(x) <==> IntOf(bs) == x
  {
    hide BigEndian32, Memory, ReverseByteOrder, IntOf;
    WordIsNetwork(x);
    NetworkOrder(x, bs);
    BigEndian32RoundTrip(Unsigned(x));
    BigEndian32Back(bs);
    SignedUnsigned(FromBigEndian32(bs), x);
  }

  // ----- Writing

  /** Every message as BEP 3 numbers and lays it out, except for the length of CHOKE. */
  lemma Layout(m: Message)
    requires Sendable(m)
    ensures Write(m) ==
            match m
            case KeepAlive => [0, 0, 0, 0]
            case Choke => [0, 0x10, 0, 0, 0]
            case Unchoke => [0, 0, 0, 1, 1]
            case Interested => [0, 0, 0, 1, 2]
            case NotInterested => [0, 0, 0, 1, 3]
            case Have(index) => [0, 0, 0, 5, 4] + Network(index)
            case Bitfield(bits) => Network(1 + |bits|) + [5] + bits
            case Request(index, begin, length) =>
              [0, 0, 0, 13, 6] + Network(index) + Network(begin) + Network(length)
            case Piece(index, begin, block) => Network(9 + |block|) + [7] + Network(index) + Network(begin) + block
            case Cancel(index, begin, length) =>
              [0, 0, 0, 13, 8] + Network(index) + Network(begin) + Network(length)
            case Unknown(_) => []
  {
    hide Word, Network, Memory;
    NetworkLiterals();
    MemoryLiterals();
    WordIsNetwork(1);
    WordIsNetwork(5);
    WordIsNetwork(13);
    forall x: Int32 ensures Word(x) == Network(x) {
      WordIsNetwork(x);
    }
  }

  lemma MemoryLiterals()
    ensures Memory(0) == [0, 0, 0, 0] && Memory(0x1000) == [0, 0x10, 0, 0]
  {
  }

  // ----- Reading

  /** What follows the length word. */
  function Body(m: Message): (bs: seq<byte>)
    requires Sendable(m) && !m.KeepAlive?
    ensures bs != []
  {
    Write(m)[4..]
  }

  lemma LengthIsRead(len: Int32, id: byte, rest: seq<byte>, broken: bool)
    ensures ReadMessage(Network(len) + ([id] + rest), broken) ==
            if len > 0 then ReadBody(id, len, rest, broken) else Read(KeepAlive, [id] + rest)
  {
    hide Network, ReadBody, Word, IntOf;
    WordIsNetwork(len);
    IntRoundTrip(len);
    TakeExactly(Word(len), [id] + rest, broken);
    TakeExactly([id], rest, broken);
  }

  /** The switch of the reader on what follows the id of such a message. */
  lemma FieldsAreRead(m: Message, len: Int32, rest: seq<byte>, broken: bool)
    requires Sendable(m) && len > 0 && !m.KeepAlive? && !m.Bitfield? && !m.Piece?
    ensures ReadBody(Body(m)[0], len, Body(m)[1..] + rest, broken) == Read(m, rest)
  {
    hide TakeInts, Word, Memory;
    var after := Body(m)[1..] + rest;
    if m.Have? {
      OneWord(m.index, rest, broken);
      assert after == Word(m.index) + rest;
    } else if m.Request? || m.Cancel? {
      ThreeWords(m.index, m.begin, m.length, rest, broken);
      assert after == Word(m.index) + Word(m.begin) + Word(m.length) + rest;
    }
  }

  lemma BodyIsRead(len: Int32, body: seq<byte>, rest: seq<byte>, broken: bool)
    requires len > 0 && body != []
    ensures ReadMessage(Network(len) + (body + rest), broken) == ReadBody(body[0], len, body[1..] + rest, broken)
  {
    hide *;
    LengthIsRead(len, body[0], body[1..] + rest, broken);
    assert body + rest == [body[0]] + (body[1..] + rest);
  }

  /** Whatever the length word says, a message other than a BITFIELD or a PIECE is what its id says. */
  lemma LengthIsIgnored(m: Message, len: Int32, rest: seq<byte>, broken: bool)
    requires Sendable(m) && len > 0 && !m.KeepAlive? && !m.Bitfield? && !m.Piece?
    ensures ReadMessage(Network(len) + (Body(m) + rest), broken) == Read(m, rest)
  {
    hide *;
    FieldsAreRead(m, len, rest, broken);
    BodyIsRead(len, Body(m), rest, broken);
  }

  /** Of a message with another id only the header is taken off the stream, however long it says it is. */
  lemma UnknownIsNotSkipped(len: Int32, id: byte, rest: seq<byte>, broken: bool)
    requires len > 0 && id as int > 8
    ensures ReadMessage(Network(len) + ([id] + rest), broken) == Read(Unknown(id), rest)
  {
    hide Network, ReadMessage;
    LengthIsRead(len, id, rest, broken);
  }

  /** Without a positive length the message is a KEEPALIVE of four octets. */
  lemma NoLength(len: Int32, rest: seq<byte>, broken: bool)
    requires len <= 0
    ensures ReadMessage(Network(len) + rest, broken) == Read(KeepAlive, rest)
  {
    hide Network, Word, IntOf;
    WordIsNetwork(len);
    IntRoundTrip(len);
    TakeExactly(Word(len), rest, broken);
  }

  /** A BITFIELD or a PIECE whose length leaves nothing for its contents ends the session. */
  lemma NoContents(len: Int32, index: Int32, begin: Int32, rest: seq<byte>, broken: bool)
    ensures ReadMessage(Network(1) + ([5] + rest), broken) == Stop(Refused)
    ensures 0 < len <= 9 ==>
              ReadMessage(Network(len) + ([7] + (Network(index) + Network(begin) + rest)), broken) == Stop(Refused)
  {
    hide Network, ReadMessage, TakeInts;
    LengthIsRead(1, 5, rest, broken);
    LengthIsRead(len, 7, Network(index) + Network(begin) + rest, broken);
    WordIsNetwork(index);
    WordIsNetwork(begin);
    TwoWords(index, begin, rest, broken);
  }

  /** The first `k` octets of `m` end between two fields. */
  predicate BetweenFields(m: Message, k: nat) {
    k in {4, 5} || (k in {9, 13} && !m.Bitfield?)
  }

  lemma {:induction false} FewInts(s: seq<byte>, broken: bool, n: nat)
    requires |s| < 4 * n
    ensures TakeInts(s, broken, n) == NoFields(if broken || |s| % 4 == 0 then Refused else Cut)
  {
    if |s| >= 4 {
      FewInts(s[4..], broken, n - 1);
    }
  }

  /** The first octets of a message with an id, and its length word as the reader takes it. */
  lemma HeaderOf(m: Message, k: nat, broken: bool) returns (len: Int32)
    requires Sendable(m) && !m.KeepAlive? && 5 <= k <= |Write(m)|
    ensures len > 0 && ReadMessage(Write(m)[..k], broken) == ReadBody(Write(m)[4], len, Write(m)[5..k], broken)
    ensures m.Bitfield? ==> len == 1 + |m.bits|
    ensures m.Piece? ==> len == 9 + |m.block|
  {
    hide IntOf, ReadMessage, ReadBody, Memory;
    LengthWordExactly(m);
    ChokeWord();
    len := if m == Choke then 0x10_0000 else |Write(m)| - 4;
    HeaderIsRead(Write(m)[..4], Write(m)[4], Write(m)[5..k], broken);
    assert Write(m)[..k] == Write(m)[..4] + [Write(m)[4]] + Write(m)[5..k];
  }

  lemma TruncatedHeader(s: seq<byte>, k: nat, broken: bool)
    requires k < |s| && k < 5 && (k == 4 ==> IntOf(s[..4]) > 0)
    ensures ReadMessage(s[..k], broken) ==
            Stop(if k == 0 || (k < 4 && broken) then Closed else if broken || k == 4 then Refused else Cut)
  {
    hide IntOf;
    if k == 4 {
      assert s[..k][..4] == s[..4] && s[..k][4..] == [];
    }
  }

  /** What the switch of the reader makes of `s`, the fields of a message so far. */
  lemma TruncatedBody(m: Message, len: Int32, s: seq<byte>, broken: bool)
    requires Sendable(m) && 5 + |s| < |Write(m)| && s <= Write(m)[5..] && len > 0
    requires (m.Bitfield? ==> len == 1 + |m.bits|) && (m.Piece? ==> len == 9 + |m.block|)
    ensures ReadBody(Write(m)[4], len, s, broken) ==
            Stop(if broken || BetweenFields(m, 5 + |s|) then Refused else Cut)
  {
    hide TakeInts, Word, Memory;
    match m
    case Have(index) => FewInts(s, broken, 1);
    case Request(index, begin, length) => FewInts(s, broken, 3);
    case Cancel(index, begin, length) => FewInts(s, broken, 3);
    case Piece(index, begin, block) =>
      if |s| < 8 {
        FewInts(s, broken, 2);
      } else {
        TwoWords(index, begin, s[8..], broken);
        assert s == s[..8] + s[8..];
        var fields := Write(m)[5..];
        assert fields == Word(index) + Word(begin) + block;
        assert s[..8] == fields[..8] == Word(index) + Word(begin);
      }
    case _ =>
  }

  /** A message that breaks off is never read; only inside a field of a stream that was closed, the reader goes on
      with what it has of it. */
  lemma Truncated(m: Message, k: nat, broken: bool)
    requires Sendable(m) && k < |Write(m)|
    ensures ReadMessage(Write(m)[..k], broken) ==
            Stop(if k == 0 || (k < 4 && broken) then Closed
                 else if broken || BetweenFields(m, k) then Refused else Cut)
  {
    hide ReadMessage, ReadBody, IntOf, Word, Memory;
    if k < 5 {
      LengthWordExactly(m);
      ChokeWord();
      TruncatedHeader(Write(m), k, broken);
    } else {
      var len := HeaderOf(m, k, broken);
      TruncatedBody(m, len, Write(m)[5..k], broken);
    }
  }
}
