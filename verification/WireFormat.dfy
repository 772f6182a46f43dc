/** The messages of peer_wire.c as octets: what the send_* functions write and what message_handler reads. */
module WireFormat {
  import opened Bytes

  // ----- The 32-bit int of a little-endian host

  type Int32 = x: int | -0x8000_0000 <= x < 0x8000_0000

  function Unsigned(x: Int32): (n: int)
    ensures 0 <= n < 0x1_0000_0000
  {
    if x >= 0 then x else x + 0x1_0000_0000
  }

  function Signed(n: int): (x: Int32)
    requires 0 <= n < 0x1_0000_0000
  {
    if n < 0x8000_0000 then n else n - 0x1_0000_0000
  }

  /** Octet `k` of an int, counted from the least significant one. */
  function Octet(x: Int32, k: nat): (b: byte)
    requires k < 4
  {
    var n := Unsigned(x);
    (if k == 0 then n % 0x100 else if k == 1 then n / 0x100 % 0x100 else if k == 2 then n / 0x1_0000 % 0x100
     else n / 0x100_0000) as byte
  }

  /** How an int lies in memory. */
  function Memory(x: Int32): (bs: seq<byte>)
    ensures |bs| == 4
  {
    [Octet(x, 0), Octet(x, 1), Octet(x, 2), Octet(x, 3)]
  }

  function FromMemory(bs: seq<byte>): (x: Int32)
    requires |bs| == 4
  {
    Signed(bs[3] as int * 0x100_0000 + bs[2] as int * 0x1_0000 + bs[1] as int * 0x100 + bs[0] as int)
  }

  /** reverse_byte_orderi. */
  function ReverseByteOrder(x: Int32): (y: Int32) {
    Signed(Octet(x, 0) as int * 0x100_0000 + Octet(x, 1) as int * 0x1_0000 + Octet(x, 2) as int * 0x100
           + Octet(x, 3) as int)
  }

  /** What the reader makes of four octets. */
  function IntOf(bs: seq<byte>): (x: Int32)
    requires |bs| == 4
  {
    ReverseByteOrder(FromMemory(bs))
  }

  lemma SignedUnsigned(n: int, x: Int32)
    requires 0 <= n < 0x1_0000_0000
    ensures Unsigned(Signed(n)) == n && Signed(Unsigned(x)) == x
  {
  }

  lemma LastOctet(n: int, high: int, low: byte)
    requires n == high * 0x100 + low as int
    ensures n / 0x100 == high && n % 0x100 == low as int
  {
  }

  /** The octets of a number put together from octets. */
  lemma OctetsOf(a: byte, b: byte, c: byte, d: byte)
    ensures var x := Signed(a as int * 0x100_0000 + b as int * 0x1_0000 + c as int * 0x100 + d as int);
            Octet(x, 3) == a && Octet(x, 2) == b && Octet(x, 1) == c && Octet(x, 0) == d
  {
    var n := a as int * 0x100_0000 + b as int * 0x1_0000 + c as int * 0x100 + d as int;
    SignedUnsigned(n, 0);
    LastOctet(n, a as int * 0x1_0000 + b as int * 0x100 + c as int, d);
    LastOctet(n / 0x100, a as int * 0x100 + b as int, c);
    LastOctet(n / 0x1_0000, a as int, b);
    hide Signed, Unsigned;
  }

  /** An int is put together from its octets. */
  lemma OctetsSum(x: Int32)
    ensures Octet(x, 3) as int * 0x100_0000 + Octet(x, 2) as int * 0x1_0000 + Octet(x, 1) as int * 0x100
            + Octet(x, 0) as int == Unsigned(x)
  {
    var n := Unsigned(x);
    var high, middle := n / 0x1_0000, n / 0x100;
    assert middle == high * 0x100 + middle % 0x100;
    assert high == n / 0x100_0000 * 0x100 + high % 0x100;
  }

  /** On this host the reversal writes, and reads back, the big-endian form of the two's complement. */
  lemma NetworkOrder(x: Int32, bs: seq<byte>)
    requires |bs| == 4
    ensures Memory(ReverseByteOrder(x)) == BigEndian32(Unsigned(x))
    ensures IntOf(bs) == Signed(FromBigEndian32(bs))
  {
    OctetsOf(Octet(x, 0), Octet(x, 1), Octet(x, 2), Octet(x, 3));
    assert BigEndian32(Unsigned(x)) == [Octet(x, 3), Octet(x, 2), Octet(x, 1), Octet(x, 0)];
    IntOfOctets(bs);
  }

  lemma IntOfOctets(bs: seq<byte>)
    requires |bs| == 4
    ensures IntOf(bs) == Signed(FromBigEndian32(bs))
  {
    hide Octet;
    OctetsOf(bs[3], bs[2], bs[1], bs[0]);
  }

  lemma ReversedTwice(x: Int32)
    ensures ReverseByteOrder(ReverseByteOrder(x)) == x
  {
    hide Octet;
    OctetsOf(Octet(x, 0), Octet(x, 1), Octet(x, 2), Octet(x, 3));
    OctetsSum(x);
    SignedUnsigned(0, x);
  }

  lemma IntRoundTrip(x: Int32)
    ensures IntOf(Word(x)) == x
  {
    var bs := Memory(ReverseByteOrder(x));
    NetworkOrder(x, bs);
    BigEndian32RoundTrip(Unsigned(x));
    SignedUnsigned(0, x);
  }

  // ----- Messages

  const CHOKE: byte := 0
  const UNCHOKE: byte := 1
  const INTERESTED: byte := 2
  const NOT_INTERESTED: byte := 3
  const HAVE: byte := 4
  const BITFIELD: byte := 5
  const REQUEST: byte := 6
  const PIECE: byte := 7
  const CANCEL: byte := 8

  datatype Message =
    | KeepAlive
    | Choke
    | Unchoke
    | Interested
    | NotInterested
    | Have(index: Int32)
    | Bitfield(bits: seq<byte>)
    | Request(index: Int32, begin: Int32, length: Int32)
    | Piece(index: Int32, begin: Int32, block: seq<byte>)
    | Cancel(index: Int32, begin: Int32, length: Int32)
    | Unknown(id: byte)

  /** What the send_* functions can be asked to write: a bitfield always has an octet, and lengths are ints. */
  predicate Sendable(m: Message) {
    match m
    case Bitfield(bits) => 0 < |bits| < 0x7FFF_FFFF
    case Piece(_, _, block) => |block| < 0x7FFF_FFF7
    case Unknown(_) => false
    case _ => true
  }

  /** An int as the writer stores it. */
  function Word(x: Int32): (bs: seq<byte>)
    ensures |bs| == 4
  {
    Memory(ReverseByteOrder(x))
  }

  /** The octets of a message. The length word of CHOKE is a constant that is not reversed. */
  function Write(m: Message): (bs: seq<byte>)
    requires Sendable(m)
  {
    match m
    case KeepAlive => Memory(0)
    case Choke => Memory(0x1000) + [CHOKE]
    case Unchoke => Word(1) + [UNCHOKE]
    case Interested => Word(1) + [INTERESTED]
    case NotInterested => Word(1) + [NOT_INTERESTED]
    case Have(index) => Word(5) + [HAVE] + Word(index)
    case Bitfield(bits) => Word(|bits| + 1) + [BITFIELD] + bits
    case Request(index, begin, length) => Word(13) + [REQUEST] + Word(index) + Word(begin) + Word(length)
    case Piece(index, begin, block) => Word(9 + |block|) + [PIECE] + Word(index) + Word(begin) + block
    case Cancel(index, begin, length) => Word(13) + [CANCEL] + Word(index) + Word(begin) + Word(length)
  }

  function WriteAll(ms: seq<Message>): (bs: seq<byte>)
    requires forall m <- ms :: Sendable(m)
  {
    if ms == [] then [] else Write(ms[0]) + WriteAll(ms[1..])
  }

  // ----- Reading

  /** What Recv gives for `n` octets: all of them, some of them because the stream ended, or an error or nothing. */
  datatype Got =
    | Full(data: seq<byte>, rest: seq<byte>)
    | Short
    | Nothing

  /** `s` is what still arrives; `broken` says that an error comes after it, and not the end of the stream. */
  function Take(s: seq<byte>, broken: bool, n: int): (got: Got)
    ensures got.Full? ==> n > 0 && got.data + got.rest == s && |got.data| == n
  {
    if n <= 0 then Nothing
    else if |s| >= n then Full(s[..n], s[n..])
    else if broken || s == [] then Nothing
    else Short
  }

  /** Why message_handler stops reading. After `Cut` it goes on for a while with a field that arrived
      only in part; what it does with it is not modelled. */
  datatype Ending = Closed | Refused | Cut

  datatype Fields =
    | Fields(values: seq<Int32>, rest: seq<byte>)
    | NoFields(ending: Ending)

  /** `n` ints. */
  function TakeInts(s: seq<byte>, broken: bool, n: nat): (r: Fields)
    ensures r.Fields? ==> |r.values| == n && |r.rest| == |s| - 4 * n
  {
    if n == 0 then Fields([], s)
    else
      match Take(s, broken, 4)
      case Nothing => NoFields(Refused)
      case Short => NoFields(Cut)
      case Full(data, rest) =>
        match TakeInts(rest, broken, n - 1)
        case NoFields(ending) => NoFields(ending)
        case Fields(values, rest') => Fields([IntOf(data)] + values, rest')
  }

  datatype Reading =
    | Read(message: Message, rest: seq<byte>)
    | Stop(ending: Ending)

  /** The switch of message_handler; `len` is the value of the length word. */
  function ReadBody(id: byte, len: Int32, s: seq<byte>, broken: bool): (r: Reading)
    requires len > 0
    ensures r.Read? ==> |r.rest| <= |s|
  {
    if id == CHOKE then Read(Choke, s)
    else if id == UNCHOKE then Read(Unchoke, s)
    else if id == INTERESTED then Read(Interested, s)
    else if id == NOT_INTERESTED then Read(NotInterested, s)
    else if id == HAVE then
      match TakeInts(s, broken, 1)
      case NoFields(ending) => Stop(ending)
      case Fields(v, rest) => Read(Have(v[0]), rest)
    else if id == BITFIELD then
      match Take(s, broken, len - 1)
      case Nothing => Stop(Refused)
      case Short => Stop(Cut)
      case Full(bits, rest) => Read(Bitfield(bits), rest)
    else if id == REQUEST then
      match TakeInts(s, broken, 3)
      case NoFields(ending) => Stop(ending)
      case Fields(v, rest) => Read(Request(v[0], v[1], v[2]), rest)
    else if id == PIECE then
      match TakeInts(s, broken, 2)
      case NoFields(ending) => Stop(ending)
      case Fields(v, rest) =>
        match Take(rest, broken, len - 9)
        case Nothing => Stop(Refused)
        case Short => Stop(Cut)
        case Full(block, rest') => Read(Piece(v[0], v[1], block), rest')
    else if id == CANCEL then
      match TakeInts(s, broken, 3)
      case NoFields(ending) => Stop(ending)
      case Fields(v, rest) => Read(Cancel(v[0], v[1], v[2]), rest)
    else Read(Unknown(id), s)
  }

  /** One turn of the loop of message_handler. */
  function ReadMessage(s: seq<byte>, broken: bool): (r: Reading)
    ensures r.Read? ==> |r.rest| < |s|
  {
    match Take(s, broken, 4)
    case Nothing => Stop(Closed)
    case Short => Stop(Cut)
    case Full(word, s1) =>
      if IntOf(word) <= 0 then Read(KeepAlive, s1)
      else
        match Take(s1, broken, 1)
        case Nothing => Stop(Refused)
        case Short => Stop(Cut)
        case Full(id, s2) => ReadBody(id[0], IntOf(word), s2, broken)
  }

  datatype Session = Session(messages: seq<Message>, ending: Ending)

  /** All the messages of a stream, and why there are no more. */
  function ReadAll(s: seq<byte>, broken: bool): (r: Session)
    decreases |s|
  {
    match ReadMessage(s, broken)
    case Stop(ending) => Session([], ending)
    case Read(message, rest) =>
      var r := ReadAll(rest, broken);
      Session([message] + r.messages, r.ending)
  }

  // ----- Round trips

  lemma TakeExactly(data: seq<byte>, rest: seq<byte>, broken: bool)
    ensures Take(data + rest, broken, |data|) == if data == [] then Nothing else Full(data, rest)
  {
  }

  lemma {:induction false} TakeWords(xs: seq<Int32>, rest: seq<byte>, broken: bool)
    ensures TakeInts(Words(xs) + rest, broken, |xs|) == Fields(xs, rest)
  {
    if xs == [] {
      assert Words(xs) + rest == rest;
    } else {
      var after := Words(xs[1..]) + rest;
      assert Words(xs) + rest == Word(xs[0]) + after;
      TakeExactly(Word(xs[0]), after, broken);
      IntRoundTrip(xs[0]);
      TakeWords(xs[1..], rest, broken);
    }
  }

  function Words(xs: seq<Int32>): (bs: seq<byte>) {
    if xs == [] then [] else Word(xs[0]) + Words(xs[1..])
  }

  /** The length word and the id of a message are taken off its front. */
  lemma HeaderIsRead(word: seq<byte>, id: byte, body: seq<byte>, broken: bool)
    requires |word| == 4 && IntOf(word) > 0
    ensures ReadMessage(word + [id] + body, broken) == ReadBody(id, IntOf(word), body, broken)
  {
    hide IntOf, ReadBody;
    var s := word + [id] + body;
    assert s[..4] == word && s[4..] == [id] + body && ([id] + body)[..1] == [id] && ([id] + body)[1..] == body;
  }

  lemma WordIsRead(x: Int32, id: byte, body: seq<byte>, broken: bool)
    requires x > 0
    ensures ReadMessage(Word(x) + [id] + body, broken) == ReadBody(id, x, body, broken)
  {
    IntRoundTrip(x);
    HeaderIsRead(Word(x), id, body, broken);
  }

  /** The length word of CHOKE reads as 0x100000 instead of 1. */
  lemma ChokeWord()
    ensures IntOf(Memory(0x1000)) == 0x10_0000
  {
    var bs := Memory(0x1000);
    assert bs == [0, 0x10, 0, 0];
    IntOfOctets(bs);
  }

  lemma KeepAliveWord()
    ensures IntOf(Memory(0)) == 0
  {
    var bs := Memory(0);
    assert bs == [0, 0, 0, 0];
    IntOfOctets(bs);
  }

  /** Every message but a PIECE without a block is read back as it was written, and nothing else is consumed. */
  lemma MessageRoundTrip(m: Message, rest: seq<byte>, broken: bool)
    requires Sendable(m)
    ensures ReadMessage(Write(m) + rest, broken) == Read(m, rest) <==> HasBlock(m)
  {
    hide Word, Memory, IntOf, ReadMessage, TakeInts, Take;
    match m
    case KeepAlive => KeepAliveIsRead(rest, broken);
    case Choke =>
      ChokeWord();
      HeaderIsRead(Memory(0x1000), CHOKE, rest, broken);
    case Unchoke => WordIsRead(1, UNCHOKE, rest, broken);
    case Interested => WordIsRead(1, INTERESTED, rest, broken);
    case NotInterested => WordIsRead(1, NOT_INTERESTED, rest, broken);
    case Have(index) => HaveIsRead(index, rest, broken);
    case Bitfield(bits) => BitfieldIsRead(bits, rest, broken);
    case Request(index, begin, length) => RangeIsRead(m, rest, broken);
    case Piece(index, begin, block) => PieceIsRead(index, begin, block, rest, broken);
    case Cancel(index, begin, length) => RangeIsRead(m, rest, broken);
  }

  lemma HaveIsRead(index: Int32, rest: seq<byte>, broken: bool)
    ensures ReadMessage(Write(Have(index)) + rest, broken) == Read(Have(index), rest)
  {
    hide Word, IntOf, ReadMessage, TakeInts;
    WordIsRead(5, HAVE, Word(index) + rest, broken);
    OneWord(index, rest, broken);
    assert Write(Have(index)) + rest == Word(5) + [HAVE] + (Word(index) + rest);
  }

  lemma BitfieldIsRead(bits: seq<byte>, rest: seq<byte>, broken: bool)
    requires Sendable(Bitfield(bits))
    ensures ReadMessage(Write(Bitfield(bits)) + rest, broken) == Read(Bitfield(bits), rest)
  {
    hide Word, IntOf, ReadMessage, Take;
    WordIsRead(|bits| + 1, BITFIELD, bits + rest, broken);
    TakeExactly(bits, rest, broken);
    assert Write(Bitfield(bits)) + rest == Word(|bits| + 1) + [BITFIELD] + (bits + rest);
  }

  lemma RangeIsRead(m: Message, rest: seq<byte>, broken: bool)
    requires m.Request? || m.Cancel?
    ensures ReadMessage(Write(m) + rest, broken) == Read(m, rest)
  {
    hide Word, IntOf, ReadMessage, TakeInts;
    var id := if m.Request? then REQUEST else CANCEL;
    var body := Word(m.index) + Word(m.begin) + Word(m.length) + rest;
    WordIsRead(13, id, body, broken);
    ThreeWords(m.index, m.begin, m.length, rest, broken);
    assert Write(m) + rest == Word(13) + [id] + body;
  }

  /** A PIECE without a block is refused instead. */
  lemma PieceIsRead(index: Int32, begin: Int32, block: seq<byte>, rest: seq<byte>, broken: bool)
    requires Sendable(Piece(index, begin, block))
    ensures ReadMessage(Write(Piece(index, begin, block)) + rest, broken) ==
            if block == [] then Stop(Refused) else Read(Piece(index, begin, block), rest)
  {
    hide Word, IntOf, ReadMessage, TakeInts, Take;
    var body := Word(index) + Word(begin) + (block + rest);
    WordIsRead(9 + |block|, PIECE, body, broken);
    TwoWords(index, begin, block + rest, broken);
    TakeExactly(block, rest, broken);
    assert Write(Piece(index, begin, block)) + rest == Word(9 + |block|) + [PIECE] + body;
  }

  lemma KeepAliveIsRead(rest: seq<byte>, broken: bool)
    ensures ReadMessage(Memory(0) + rest, broken) == Read(KeepAlive, rest)
  {
    hide IntOf, Memory;
    KeepAliveWord();
    TakeExactly(Memory(0), rest, broken);
  }

  lemma OneWord(x: Int32, rest: seq<byte>, broken: bool)
    ensures TakeInts(Word(x) + rest, broken, 1) == Fields([x], rest)
  {
    hide Word, Take, TakeInts;
    TakeWords([x], rest, broken);
    assert Words([x]) == Word(x);
  }

  lemma TwoWords(x: Int32, y: Int32, rest: seq<byte>, broken: bool)
    ensures TakeInts(Word(x) + Word(y) + rest, broken, 2) == Fields([x, y], rest)
  {
    hide Word, Take, TakeInts;
    TakeWords([x, y], rest, broken);
    assert Words([y]) == Word(y);
    assert Words([x, y]) == Word(x) + Word(y);
  }

  lemma ThreeWords(x: Int32, y: Int32, z: Int32, rest: seq<byte>, broken: bool)
    ensures TakeInts(Word(x) + Word(y) + Word(z) + rest, broken, 3) == Fields([x, y, z], rest)
  {
    hide Word, Take, TakeInts;
    TakeWords([x, y, z], rest, broken);
    assert Words([z]) == Word(z);
    assert [x, y, z][1..] == [y, z] && [y, z][1..] == [z];
    assert Words([y, z]) == Word(y) + Word(z);
    assert Words([x, y, z]) == Word(x) + (Word(y) + Word(z));
    assert Word(x) + Word(y) + Word(z) + rest == Words([x, y, z]) + rest;
  }

  predicate HasBlock(m: Message) {
    m.Piece? ==> m.block != []
  }

  lemma ReadOneMore(s: seq<byte>, broken: bool, m: Message, rest: seq<byte>)
    requires ReadMessage(s, broken) == Read(m, rest)
    ensures var r := ReadAll(rest, broken); ReadAll(s, broken) == Session([m] + r.messages, r.ending)
  {
  }

  /** Whatever list of messages was written, the reader recovers that list and then goes on with what follows. */
  lemma {:induction false} StreamRoundTrip(ms: seq<Message>, rest: seq<byte>, broken: bool)
    requires forall m <- ms :: Sendable(m) && HasBlock(m)
    ensures var r := ReadAll(rest, broken);
            ReadAll(WriteAll(ms) + rest, broken) == Session(ms + r.messages, r.ending)
  {
    hide Write, ReadMessage, ReadAll, HasBlock;
    if ms == [] {
      assert WriteAll(ms) + rest == rest;
      assert ms + ReadAll(rest, broken).messages == ReadAll(rest, broken).messages;
    } else {
      var after := WriteAll(ms[1..]) + rest;
      assert WriteAll(ms) + rest == Write(ms[0]) + after;
      MessageRoundTrip(ms[0], after, broken);
      ReadOneMore(WriteAll(ms) + rest, broken, ms[0], after);
      StreamRoundTrip(ms[1..], rest, broken);
      assert [ms[0]] + (ms[1..] + ReadAll(rest, broken).messages) == ms + ReadAll(rest, broken).messages;
    }
  }

  /** A connection that is closed after the last message yields exactly the messages that were written,
      if and only if no PIECE among them is without a block. */
  lemma {:induction false} WholeStream(ms: seq<Message>)
    requires forall m <- ms :: Sendable(m)
    ensures ReadAll(WriteAll(ms), false) == Session(ms, Closed) <==> forall m <- ms :: HasBlock(m)
  {
    hide Write, ReadMessage, HasBlock;
    if ms == [] {
      NothingToRead();
    } else {
      var rest := WriteAll(ms[1..]);
      if HasBlock(ms[0]) {
        MessageRoundTrip(ms[0], rest, false);
        WholeStream(ms[1..]);
        assert forall m :: m in ms <==> m == ms[0] || m in ms[1..];
        assert ([ms[0]] + ReadAll(rest, false).messages)[1..] == ReadAll(rest, false).messages;
      } else {
        BlocklessIsPiece(ms[0]);
        EmptyBlockEndsSession(ms[0].index, ms[0].begin, rest, false);
        assert ms[0] in ms;
      }
    }
  }

  lemma NothingToRead()
    ensures ReadAll([], false) == Session([], Closed)
  {
  }

  lemma BlocklessIsPiece(m: Message)
    requires !HasBlock(m)
    ensures m.Piece? && m == Piece(m.index, m.begin, [])
  {
  }

  /** A PIECE without a block ends the session: the messages after it are lost. */
  lemma EmptyBlockEndsSession(index: Int32, begin: Int32, rest: seq<byte>, broken: bool)
    ensures ReadAll(Write(Piece(index, begin, [])) + rest, broken) == Session([], Refused)
  {
    PieceIsRead(index, begin, [], rest, broken);
  }

  /** Two lists of messages that look the same on the wire are the same. */
  lemma WritingIsInjective(ms: seq<Message>, ns: seq<Message>)
    requires (forall m <- ms :: Sendable(m) && HasBlock(m)) && (forall n <- ns :: Sendable(n) && HasBlock(n))
    requires WriteAll(ms) == WriteAll(ns)
    ensures ms == ns
  {
    WholeStream(ms);
    WholeStream(ns);
  }

  /** The length word counts the octets after it, as the protocol demands, for every message but CHOKE. */
  lemma LengthWordExactly(m: Message)
    requires Sendable(m)
    ensures |Write(m)| >= 4
    ensures IntOf(Write(m)[..4]) == |Write(m)| - 4 <==> m != Choke
  {
    hide Word, Memory, IntOf;
    ChokeWord();
    KeepAliveWord();
    var n := |Write(m)| - 4;
    IntRoundTrip(n);
    if m != Choke && m != KeepAlive {
      assert Write(m)[..4] == Word(n);
    } else {
      assert Write(m)[..4] == Memory(if m == Choke then 0x1000 else 0);
    }
  }
}
