/** Connections: the loops of Recv and Send over a fragmented stream, the send_* functions, and the
    reading loop of message_handler. */
module Wire {
  import opened Bytes
  import opened Bitfield
  import opened Geometry
  import opened FileIo
  import opened WireFormat

  /** Chunks of a stream are never empty. */
  type Packet = s: seq<byte> | s != [] witness [0]

  /** What successive calls of recv find: a chunk of the stream, an interruption, or an error.
      When nothing is left, the other side has closed the connection. */
  datatype Arrival =
    | Chunk(data: Packet)
    | Interrupted
    | Failed

  /** The octets that can still be read. */
  function Ahead(arrivals: seq<Arrival>): (s: seq<byte>) {
    if arrivals == [] || arrivals[0].Failed? then []
    else if arrivals[0].Chunk? then arrivals[0].data + Ahead(arrivals[1..])
    else Ahead(arrivals[1..])
  }

  /** An error ends the stream. */
  predicate Broken(arrivals: seq<Arrival>) {
    arrivals != [] && (arrivals[0].Failed? || Broken(arrivals[1..]))
  }

  /** The stream is what the chunks bring, in order, up to the first error. */
  lemma {:induction false} AheadOfTwo(xs: seq<Arrival>, ys: seq<Arrival>, chunk: Packet)
    ensures Ahead(xs + ys) == if Failed in xs then Ahead(xs) else Ahead(xs) + Ahead(ys)
    ensures Ahead([Chunk(chunk)]) == chunk && Ahead([Interrupted]) == Ahead([Failed]) == []
    ensures Broken(xs) <==> Failed in xs
  {
    if xs == [] {
      assert xs + ys == ys;
    } else {
      assert (xs + ys)[1..] == xs[1..] + ys;
      AheadOfTwo(xs[1..], ys, chunk);
      assert Failed in xs <==> xs[0] == Failed || Failed in xs[1..];
    }
  }

  /** What successive calls of send do: accept at most so many octets, or none because of an interruption or an
      error. */
  datatype Acceptance =
    | Takes(most: nat)
    | NotNow
    | Refuses

  /** Every call of send makes progress or is interrupted. */
  ghost predicate Clear(acceptances: seq<Acceptance>) {
    forall a <- acceptances :: a == NotNow || (a.Takes? && a.most > 0)
  }

  /** What is left of a session in which the handling of a REQUEST or a PIECE can fail and end it. */
  function Handling(session: Session, before: seq<Message>, handled: seq<Message> -> bool): (r: Session)
    decreases |session.messages|
  {
    if session.messages == [] then session
    else
      var m := session.messages[0];
      if (m.Request? || m.Piece?) && !handled(before + [m]) then Session([m], Refused)
      else
        var r := Handling(Session(session.messages[1..], session.ending), before + [m], handled);
        Session([m] + r.messages, r.ending)
  }

  lemma HandleOneMore(session: Session, m: Message, rest: Session, before: seq<Message>, handled: seq<Message> -> bool)
    requires session == Session([m] + rest.messages, rest.ending)
    ensures var fails := (m.Request? || m.Piece?) && !handled(before + [m]);
            var r := Handling(rest, before + [m], handled);
            && Handling(session, before, handled) ==
               (if fails then Session([m], Refused) else Session([m] + r.messages, r.ending))
            && before + ([m] + r.messages) == before + [m] + r.messages
  {
    assert session.messages[1..] == rest.messages;
  }

  /** Message `j` of the session is a REQUEST or a PIECE, and handling it fails. */
  predicate Fails(session: Session, before: seq<Message>, handled: seq<Message> -> bool, j: nat)
    requires j < |session.messages|
  {
    (session.messages[j].Request? || session.messages[j].Piece?) && !handled(before + session.messages[..j + 1])
  }

  /** The messages of `r` are those of the session up to the first whose handling fails; without one, all of them. */
  ghost predicate StopsAtFailure(session: Session, before: seq<Message>, handled: seq<Message> -> bool, r: Session) {
    var last := |r.messages| - 1;
    && r.messages <= session.messages
    && (forall j: nat :: j < last ==> !Fails(session, before, handled, j))
    && (if last >= 0 && Fails(session, before, handled, last) then r.ending == WireFormat.Refused else r == session)
  }

  lemma {:induction false} HandlingExactly(session: Session, before: seq<Message>, handled: seq<Message> -> bool)
    ensures StopsAtFailure(session, before, handled, Handling(session, before, handled))
    decreases |session.messages|
  {
    if session.messages != [] {
      var m := session.messages[0];
      assert session.messages[..1] == [m];
      if !Fails(session, before, handled, 0) {
        var next := Session(session.messages[1..], session.ending);
        HandlingExactly(next, before + [m], handled);
        OneMoreHandled(session, before, handled, next, Handling(next, before + [m], handled));
      }
    }
  }

  lemma OneMoreHandled(session: Session, before: seq<Message>, handled: seq<Message> -> bool, next: Session, r: Session)
    requires session.messages != [] && next == Session(session.messages[1..], session.ending)
    requires !Fails(session, before, handled, 0)
    requires StopsAtFailure(next, before + [session.messages[0]], handled, r)
    ensures StopsAtFailure(session, before, handled, Session([session.messages[0]] + r.messages, r.ending))
  {
    var m := session.messages[0];
    forall j: nat | j < |next.messages|
      ensures Fails(next, before + [m], handled, j) == Fails(session, before, handled, j + 1)
    {
      assert before + [m] + next.messages[..j + 1] == before + session.messages[..j + 2];
    }
    hide Fails;
    var messages := [m] + r.messages;
    assert messages <= session.messages;
    forall j: nat | j < |messages| - 1
      ensures !Fails(session, before, handled, j)
    {
      if j > 0 {
        assert !Fails(next, before + [m], handled, j - 1);
      }
    }
    assert r == next ==> messages == session.messages;
  }

  /** If every message is handled, all of them are read. */
  lemma {:induction false} AllHandled(session: Session, before: seq<Message>, handled: seq<Message> -> bool)
    requires forall ms :: handled(ms)
    ensures Handling(session, before, handled) == session
    decreases |session.messages|
  {
    if session.messages != [] {
      var m := session.messages[0];
      AllHandled(Session(session.messages[1..], session.ending), before + [m], handled);
      assert [m] + session.messages[1..] == session.messages;
    }
  }

  /** No call of send takes nothing. */
  ghost predicate NeverNothing(acceptances: seq<Acceptance>) {
    forall a <- acceptances :: a != Takes(0)
  }

  /** Where a block of a piece lies in the file. */
  function Offset(m: Meta, index: int, begin: int, beginIndex: int): (at: int) {
    index * m.pieceLen + begin - beginIndex
  }

  /** A bitfield as octets. */
  function AsOctets(bits: seq<bv8>): (bs: seq<byte>)
    ensures |bs| == |bits| && forall k :: 0 <= k < |bs| ==> bs[k] as int == bits[k] as int
  {
    seq(|bits|, i requires 0 <= i < |bits| => bits[i] as byte)
  }

  /** What a BITFIELD says, read as numbers: bit `7 - i % 8` of octet `i / 8` is 1 if and only if there is a piece `i`
      and it hashes correctly. */
  ghost predicate Announces(m: Meta, ok: Check, file: seq<byte>, contents: seq<byte>)
    requires ValidMeta(m) && m.size <= |file|
  {
    && |contents| == m.numPieces / 8 + 1
    && forall i: nat :: i < 8 * |contents| ==>
         (BitSet(contents, i) <==> i < m.numPieces && PieceOk(m, ok, file, i))
  }

  predicate BitSet(contents: seq<byte>, i: nat)
    requires i < 8 * |contents|
  {
    OctetBit(contents[i / 8] as int, 7 - i % 8) == 1
  }

  lemma BitsAnnounce(m: Meta, ok: Check, file: seq<byte>, bits: seq<bv8>)
    requires ValidMeta(m) && m.size <= |file| && IsBitfield(m, ok, file, bits, m.numPieces)
    ensures Announces(m, ok, file, AsOctets(bits))
  {
    forall i: nat | i < 8 * |bits|
      ensures BitSet(AsOctets(bits), i) <==> i < m.numPieces && PieceOk(m, ok, file, i)
    {
      BitsAsNumbers(m, ok, file, bits, i);
    }
  }

  lemma BitfieldLength(m: Meta)
    requires ValidMeta(m)
    ensures m.numPieces / 8 + 1 < 0x7FFF_FFFF
  {
    PiecesFit(m);
    if m.numPieces > 0 {
      AtLeast(m.numPieces - 1, m.pieceLen);
    }
  }

  lemma AtLeast(n: nat, k: nat)
    requires k > 0
    ensures n <= n * k
  {
  }

  lemma IsBitfieldLength(m: Meta, ok: Check, file: seq<byte>, bits: seq<bv8>)
    requires ValidMeta(m) && m.size <= |file| && IsBitfield(m, ok, file, bits, m.numPieces)
    ensures |bits| == m.numPieces / 8 + 1
  {
  }

  lemma FirstOf(acceptances: seq<Acceptance>)
    requires acceptances != []
    ensures var a := acceptances[0];
            && (Clear(acceptances) ==> Clear(acceptances[1..]) && (a == NotNow || (a.Takes? && a.most > 0)))
            && (NeverNothing(acceptances) ==> NeverNothing(acceptances[1..]) && a != Takes(0))
  {
    assert acceptances[0] in acceptances && forall a <- acceptances[1..] :: a in acceptances;
  }

  /** A block of `n` octets that starts with `bytes`. */
  function Padded(bytes: seq<byte>, n: nat): (block: seq<byte>)
    requires |bytes| <= n
    ensures |block| == n && bytes <= block && forall k :: |bytes| <= k < n ==> block[k] == 0
  {
    bytes + Zeros(n - |bytes|)
  }

  /** The block of send_piece, byte by byte: the bytes of the file from the start of the piece and `begin` on, and
      zeros after its end. */
  lemma BlockBytes(m: Meta, file: seq<byte>, index: int, begin: int, beginIndex: int, size: nat, n: nat, j: nat)
    requires size <= |file| && j < n && 0 <= Offset(m, index, begin, beginIndex) < size
    ensures var x := index * m.pieceLen + begin - beginIndex + j;
            Padded(ReadAt(file, size, Offset(m, index, begin, beginIndex), n), n)[j] == if x < size then file[x] else 0
  {
  }

  class Socket {
    var arrivals: seq<Arrival>
    var acceptances: seq<Acceptance>
    var written: seq<byte>

    constructor (arrivals: seq<Arrival>, acceptances: seq<Acceptance>)
      ensures this.arrivals == arrivals && this.acceptances == acceptances && written == []
    {
      this.arrivals, this.acceptances, written := arrivals, acceptances, [];
    }

    // ----- Reading

    /** recv: at most `cnt` octets of the first chunk; zero at the end; `again` is an interruption. */
    method SystemRecv(cnt: nat) returns (rc: int, data: seq<byte>, again: bool)
      requires cnt > 0
      modifies this`arrivals
      ensures rc == (if again || (data == [] && Broken(old(arrivals))) then -1 else |data|) && |data| <= cnt
      ensures again ==> data == [] && |arrivals| < |old(arrivals)|
      ensures again || data != [] ==>
                |arrivals| <= |old(arrivals)|
                && Ahead(old(arrivals)) == data + Ahead(arrivals) && Broken(old(arrivals)) == Broken(arrivals)
      ensures !again && data == [] ==> Ahead(old(arrivals)) == []
      ensures !again && data == [] && !Broken(old(arrivals)) ==> arrivals == old(arrivals)
    {
      if arrivals == [] {
        return 0, [], false;
      }
      var first := arrivals[0];
      match first {
        case Interrupted =>
          arrivals := arrivals[1..];
          return -1, [], true;
        case Failed =>
          return -1, [], false;
        case Chunk(chunk) =>
          if |chunk| <= cnt {
            arrivals := arrivals[1..];
            return |chunk|, chunk, false;
          } else {
            arrivals := [Chunk(chunk[cnt..])] + arrivals[1..];
            return cnt, chunk[..cnt], false;
          }
      }
    }

    /** Recv: however the stream is cut up, the result depends on its octets only. */
    method Recv(len: int) returns (ret: int, data: seq<byte>)
      modifies this`arrivals
      ensures var got := Take(Ahead(old(arrivals)), Broken(old(arrivals)), len);
              match got
              case Full(d, rest) =>
                ret == len && data == d && Ahead(arrivals) == rest && Broken(arrivals) == Broken(old(arrivals))
              case Short => 0 < ret < len
              case Nothing => ret <= 0
    {
      var cnt := len;
      data := [];
      ghost var all, broken := Ahead(arrivals), Broken(arrivals);
      while cnt > 0
        invariant |data| == len - cnt || (len <= 0 && cnt == len && data == [])
        invariant len > 0 ==> 0 <= cnt
        invariant all == data + Ahead(arrivals) && broken == Broken(arrivals)
        decreases cnt + |arrivals|
      {
        var rc, part, again := SystemRecv(cnt);
        if rc < 0 {
          if again {
            continue;
          }
          return -1, data;
        }
        if rc == 0 {
          return len - cnt, data;
        }
        data := data + part;
        cnt := cnt - rc;
      }
      return len, data;
    }

    /** Recv of an int; the value is meaningful only if all of it arrived. */
    method RecvInt() returns (ret: int, value: Int32)
      modifies this`arrivals
      ensures var got := Take(Ahead(old(arrivals)), Broken(old(arrivals)), 4);
              match got
              case Full(d, rest) =>
                ret == 4 && value == IntOf(d) && Ahead(arrivals) == rest && Broken(arrivals) == Broken(old(arrivals))
              case Short => 0 < ret < 4
              case Nothing => ret <= 0
    {
      var data;
      ret, data := Recv(4);
      value := if ret == 4 then ReverseByteOrder(FromMemory(data)) else 0;
    }

    /** The ints of a message, one after the other. */
    method RecvInts(n: nat) returns (values: seq<Int32>, stop: bool, ending: Ending)
      modifies this`arrivals
      ensures match TakeInts(Ahead(old(arrivals)), Broken(old(arrivals)), n)
              case NoFields(e) => stop && ending == e
              case Fields(v, rest) =>
                !stop && values == v && Ahead(arrivals) == rest && Broken(arrivals) == Broken(old(arrivals))
    {
      values, stop, ending := [], false, Closed;
      if n > 0 {
        var ret, value := RecvInt();
        if ret <= 0 {
          return [], true, Refused;
        }
        if ret < 4 {
          return [], true, Cut;
        }
        values, stop, ending := RecvInts(n - 1);
        values := [value] + values;
      }
    }

    /** The payload of a BITFIELD or a PIECE. */
    method RecvPayload(len: int) returns (data: seq<byte>, stop: bool, ending: Ending)
      modifies this`arrivals
      ensures match Take(Ahead(old(arrivals)), Broken(old(arrivals)), len)
              case Nothing => stop && ending == Refused
              case Short => stop && ending == Cut
              case Full(d, rest) =>
                !stop && data == d && Ahead(arrivals) == rest && Broken(arrivals) == Broken(old(arrivals))
    {
      var ret;
      ret, data := Recv(len);
      stop, ending := ret <= 0 || ret < len, if ret <= 0 then Refused else Cut;
    }

    /** The switch of message_handler. */
    method ReceiveBody(id: byte, len: Int32) returns (message: Message, stop: bool, ending: Ending)
      requires len > 0
      modifies this`arrivals
      ensures match ReadBody(id, len, Ahead(old(arrivals)), Broken(old(arrivals)))
              case Stop(e) => stop && ending == e
              case Read(m, rest) =>
                !stop && message == m && Ahead(arrivals) == rest && Broken(arrivals) == Broken(old(arrivals))
    {
      message, stop, ending := Unknown(id), false, Closed;
      if id == CHOKE {
        message := Choke;
      } else if id == UNCHOKE {
        message := Unchoke;
      } else if id == INTERESTED {
        message := Interested;
      } else if id == NOT_INTERESTED {
        message := NotInterested;
      } else if id == HAVE {
        var v;
        v, stop, ending := RecvInts(1);
        if !stop {
          message := Have(v[0]);
        }
      } else if id == BITFIELD {
        var bits;
        bits, stop, ending := RecvPayload(len - 1);
        message := Bitfield(bits);
      } else if id == REQUEST {
        var v;
        v, stop, ending := RecvInts(3);
        if !stop {
          message := Request(v[0], v[1], v[2]);
        }
      } else if id == PIECE {
        var v;
        v, stop, ending := RecvInts(2);
        if !stop {
          var block;
          block, stop, ending := RecvPayload(len - 9);
          message := Piece(v[0], v[1], block);
        }
      } else if id == CANCEL {
        var v;
        v, stop, ending := RecvInts(3);
        if !stop {
          message := Cancel(v[0], v[1], v[2]);
        }
      }
    }

    /** One turn of the loop of message_handler. */
    method Receive() returns (message: Message, stop: bool, ending: Ending)
      modifies this`arrivals
      ensures match ReadMessage(Ahead(old(arrivals)), Broken(old(arrivals)))
              case Stop(e) => stop && ending == e
              case Read(m, rest) =>
                !stop && message == m && Ahead(arrivals) == rest && Broken(arrivals) == Broken(old(arrivals))
    {
      message, stop, ending := KeepAlive, false, Closed;
      var ret, len := RecvInt();
      if ret <= 0 {
        return KeepAlive, true, Closed;
      }
      if ret < 4 {
        return KeepAlive, true, Cut;
      }
      if len > 0 {
        var id;
        id, stop, ending := RecvPayload(1);
        if !stop {
          message, stop, ending := ReceiveBody(id[0], len);
        }
      }
    }

    /** message_handler: reads messages until the connection ends, a read fails, or a message is not handled.
        The messages depend on the octets of the stream only, not on how it is cut up. `handled` tells whether
        the last of the messages so far is handled without an error. */
    method MessageHandler(handled: seq<Message> -> bool) returns (messages: seq<Message>, ending: Ending)
      modifies this`arrivals
      ensures Session(messages, ending) == Handling(ReadAll(Ahead(old(arrivals)), Broken(old(arrivals))), [], handled)
    {
      hide ReadMessage;
      messages := [];
      ghost var all := Handling(ReadAll(Ahead(arrivals), Broken(arrivals)), [], handled);
      while true
        invariant var r := Handling(ReadAll(Ahead(arrivals), Broken(arrivals)), messages, handled);
                  all.messages == messages + r.messages && all.ending == r.ending
        decreases |Ahead(arrivals)|
      {
        var message, stop;
        ghost var before := ReadAll(Ahead(arrivals), Broken(arrivals));
        message, stop, ending := Receive();
        if stop {
          return;
        }
        ghost var after := ReadAll(Ahead(arrivals), Broken(arrivals));
        HandleOneMore(before, message, after, messages, handled);
        messages := messages + [message];
        if (message.Request? || message.Piece?) && !handled(messages) {
          return messages, Refused;
        }
      }
    }

    // ----- Writing

    /** send: the first octets of `data`, as many as the system accepts. */
    method SystemSend(data: seq<byte>) returns (rc: int, again: bool)
      requires data != []
      modifies this`acceptances, this`written
      ensures rc == -1 || 0 <= rc <= |data|
      ensures written == old(written) + if rc < 0 then [] else data[..rc]
      ensures again ==> rc == -1 && |acceptances| < |old(acceptances)|
      ensures !again ==> |acceptances| <= |old(acceptances)|
      ensures Clear(old(acceptances)) ==> Clear(acceptances) && (again || rc > 0)
      ensures NeverNothing(old(acceptances)) ==> NeverNothing(acceptances) && rc != 0
    {
      if acceptances == [] {
        written := written + data;
        return |data|, false;
      }
      var first := acceptances[0];
      FirstOf(acceptances);
      acceptances := acceptances[1..];
      match first {
        case NotNow => return -1, true;
        case Refuses => return -1, false;
        case Takes(most) =>
          rc := if most < |data| then most else |data|;
          written := written + data[..rc];
          return rc, false;
      }
    }

    /** Send: writes a prefix of `data`, and all of it unless a call of send fails or takes nothing. */
    method Send(data: seq<byte>) returns (ret: int)
      modifies this`acceptances, this`written
      ensures old(written) <= written && written <= old(written) + data
      ensures ret >= 0 ==> |written| == |old(written)| + ret
      ensures Clear(old(acceptances)) ==> ret == |data| && Clear(acceptances)
      ensures NeverNothing(old(acceptances)) ==> NeverNothing(acceptances) && (ret < 0 || ret == |data|)
    {
      var cnt := |data|;
      ghost var before := written;
      while cnt > 0
        invariant 0 <= cnt <= |data| && written == before + data[..|data| - cnt]
        invariant Clear(old(acceptances)) ==> Clear(acceptances)
        invariant NeverNothing(old(acceptances)) ==> NeverNothing(acceptances)
        decreases cnt + |acceptances|
      {
        var left := data[|data| - cnt..];
        var rc, again := SystemSend(left);
        if rc < 0 {
          if again {
            continue;
          }
          return -1;
        }
        if rc == 0 {
          return |data| - cnt;
        }
        assert data[..|data| - cnt] + left[..rc] == data[..|data| - cnt + rc];
        cnt := cnt - rc;
      }
      return |data|;
    }

    /** send_keepalive. */
    method SendKeepalive() returns (ok: bool)
      modifies this`acceptances, this`written
      ensures old(written) <= written && written <= old(written) + Write(KeepAlive)
      ensures Clear(old(acceptances)) ==> ok && written == old(written) + Write(KeepAlive) && Clear(acceptances)
    {
      var ret := Send(Memory(0));
      ok := ret >= 0;
    }

    /** A message without fields. */
    method SendFlag(len: Int32, id: byte) returns (ok: bool)
      modifies this`acceptances, this`written
      ensures old(written) <= written && written <= old(written) + (Memory(len) + [id])
      ensures Clear(old(acceptances)) ==> ok && written == old(written) + (Memory(len) + [id]) && Clear(acceptances)
      ensures NeverNothing(old(acceptances)) ==>
                NeverNothing(acceptances) && (ok ==> written == old(written) + (Memory(len) + [id]))
    {
      var buffer := new byte[5];
      StoreInt(buffer, 0, len);
      buffer[4] := id;
      assert buffer[..] == Memory(len) + [id];
      var ret := Send(buffer[..]);
      ok := ret >= 0;
    }

    /** send_choke. */
    method SendChoke() returns (ok: bool)
      modifies this`acceptances, this`written
      ensures old(written) <= written && written <= old(written) + Write(Choke)
      ensures Clear(old(acceptances)) ==> ok && written == old(written) + Write(Choke) && Clear(acceptances)
    {
      ok := SendFlag(0x1000, CHOKE);
    }

    /** send_unchoke, send_interested and send_notinterested. */
    method SendState(m: Message) returns (ok: bool)
      requires m in {Unchoke, Interested, NotInterested}
      modifies this`acceptances, this`written
      ensures old(written) <= written && written <= old(written) + Write(m)
      ensures Clear(old(acceptances)) ==> ok && written == old(written) + Write(m) && Clear(acceptances)
    {
      var id := match m case Unchoke => UNCHOKE case Interested => INTERESTED case _ => NOT_INTERESTED;
      ok := SendFlag(ReverseByteOrder(1), id);
    }

    /** send_have, to one peer. */
    method SendHave(index: Int32) returns (ok: bool)
      modifies this`acceptances, this`written
      ensures old(written) <= written && written <= old(written) + Write(Have(index))
      ensures Clear(old(acceptances)) ==> ok && written == old(written) + Write(Have(index)) && Clear(acceptances)
    {
      var buffer := new byte[9];
      StoreInt(buffer, 0, ReverseByteOrder(5));
      StoreInt(buffer, 5, ReverseByteOrder(index));
      buffer[4] := HAVE;
      assert buffer[..] == Write(Have(index));
      var ret := Send(buffer[..]);
      ok := ret >= 0;
    }

    /** send_bitfield: the bitfield of the pieces on disk, header and contents in two pieces. If a call of send takes
        nothing, the contents can follow a header that is cut short; otherwise what is written is a prefix of the
        message. */
    method SendBitfield(disk: FileInfo, m: Meta, ghost ok: Check) returns (success: bool, ghost contents: seq<byte>)
      requires disk.Holds(m) && ChecksSha1(m, ok)
      modifies this`acceptances, this`written, disk`downloaded
      ensures Announces(m, ok, disk.disk[..], contents)
      ensures Sendable(Message.Bitfield(contents)) && old(written) <= written
      ensures NeverNothing(old(acceptances)) ==> written <= old(written) + Write(Message.Bitfield(contents))
      ensures Clear(old(acceptances)) ==>
                success && written == old(written) + Write(Message.Bitfield(contents)) && Clear(acceptances)
    {
      hide IsBitfield, Memory, ReverseByteOrder, Write, Word, AsOctets, Announces;
      var length := m.numPieces / 8 + 1;
      BitfieldLength(m);
      success := SendFlag(ReverseByteOrder(length + 1), BITFIELD);
      var bitfield := disk.GenBitfield(m, ok);
      contents := AsOctets(bitfield[..]);
      IsBitfieldLength(m, ok, disk.disk[..], bitfield[..]);
      BitsAnnounce(m, ok, disk.disk[..], bitfield[..]);
      BitfieldWritten(contents);
      if success {
        success := SendContents(AsOctets(bitfield[..]));
      }
    }

    /** Send of a whole buffer, which is the end of the longer send_* functions. */
    method SendContents(contents: seq<byte>) returns (success: bool)
      modifies this`acceptances, this`written
      ensures old(written) <= written && written <= old(written) + contents
      ensures Clear(old(acceptances)) ==> success && written == old(written) + contents && Clear(acceptances)
    {
      var ret := Send(contents);
      success := ret >= 0;
    }

    /** send_request and send_cancel. */
    method SendRange(m: Message) returns (ok: bool)
      requires m.Request? || m.Cancel?
      modifies this`acceptances, this`written
      ensures old(written) <= written && written <= old(written) + Write(m)
      ensures Clear(old(acceptances)) ==> ok && written == old(written) + Write(m) && Clear(acceptances)
    {
      hide Write, Clear;
      var octets := RangeOctets(m);
      ok := SendContents(octets);
    }

    /** send_piece: the block as get_block reads it, filled up with zeros where the file ends. For other lengths
        the sizes in the code are negative or overflow; it has no defined behaviour, and nothing is promised here. */
    method SendPiece(disk: FileInfo, m: Meta, index: Int32, begin: Int32, blockLen: Int32) returns (ok: bool)
      requires disk.Valid()
      modifies this`acceptances, this`written
      ensures 0 <= blockLen < 0x7FFF_FFF3 ==>
              var at := Offset(m, index, begin, disk.beginIndex);
              var message := Piece(index, begin, Padded(ReadAt(disk.disk[..], disk.size, at, blockLen), blockLen));
              && old(written) <= written && written <= old(written) + Write(message)
              && (!(0 <= at < disk.size) ==> !ok && written == old(written))
              && (0 <= at < disk.size && Clear(old(acceptances)) ==>
                    ok && written == old(written) + Write(message) && Clear(acceptances))
    {
      if !(0 <= blockLen < 0x7FFF_FFF3) {
        return false;
      }
      hide Memory, ReverseByteOrder, Padded, ReadAt, Clear, Offset, Write, Word, Clipped;
      var header := PieceHeader(9 + blockLen, index, begin);
      var n, block := BlockOf(disk, m, index, begin, blockLen);
      if n < 0 {
        return false;
      }
      PieceOctets(index, begin, block);
      ok := SendContents(header + block);
    }
  }

  lemma BitfieldWritten(contents: seq<byte>)
    requires Sendable(Bitfield(contents))
    ensures Write(Bitfield(contents)) ==
            Memory(ReverseByteOrder(|contents| + 1)) + [BITFIELD] + contents
  {
  }

  lemma PieceOctets(index: Int32, begin: Int32, block: seq<byte>)
    requires |block| < 0x7FFF_FFF3
    ensures Sendable(Piece(index, begin, block))
    ensures Write(Piece(index, begin, block)) == Word(9 + |block|) + [PIECE] + Word(index) + Word(begin) + block
  {
  }

  /** The buffer of send_request and send_cancel. */
  method RangeOctets(m: Message) returns (octets: seq<byte>)
    requires m.Request? || m.Cancel?
    ensures octets == Write(m)
  {
    hide ReverseByteOrder, Memory;
    var buffer := new byte[17];
    StoreInt(buffer, 0, ReverseByteOrder(13));
    StoreInt(buffer, 5, ReverseByteOrder(m.index));
    StoreInt(buffer, 9, ReverseByteOrder(m.begin));
    StoreInt(buffer, 13, ReverseByteOrder(m.length));
    buffer[4] := if m.Request? then REQUEST else CANCEL;
    octets := buffer[..];
  }

  /** The first thirteen octets of the buffer in send_piece. */
  method PieceHeader(len: Int32, index: Int32, begin: Int32) returns (header: seq<byte>)
    ensures header == Word(len) + [PIECE] + Word(index) + Word(begin)
  {
    hide ReverseByteOrder, Memory;
    var buffer := new byte[13];
    StoreInt(buffer, 0, ReverseByteOrder(len));
    StoreInt(buffer, 5, ReverseByteOrder(index));
    StoreInt(buffer, 9, ReverseByteOrder(begin));
    buffer[4] := PIECE;
    header := buffer[..];
  }

  /** The other octets of that buffer: zeros, and over them what get_block reads. */
  method BlockOf(disk: FileInfo, m: Meta, index: int, begin: int, blockLen: nat) returns (n: int, block: seq<byte>)
    requires disk.Valid()
    ensures var at := Offset(m, index, begin, disk.beginIndex);
            && n == Clipped(disk.size, at, blockLen)
            && block == Padded(ReadAt(disk.disk[..], disk.size, at, blockLen), blockLen)
  {
    var buffer := new byte[blockLen](_ => 0);
    assert buffer[..] == Zeros(blockLen);
    n := disk.GetBlock(m, index, begin, blockLen, buffer);
    block := buffer[..];
  }

  /** `*p = x` for a pointer to an int inside a buffer. */
  method StoreInt(buffer: array<byte>, at: nat, x: Int32)
    requires at + 4 <= buffer.Length
    modifies buffer
    ensures buffer[..] == old(buffer[..at]) + Memory(x) + old(buffer[at + 4..])
  {
    var bs := Memory(x);
    buffer[at], buffer[at + 1], buffer[at + 2], buffer[at + 3] := bs[0], bs[1], bs[2], bs[3];
  }
}
