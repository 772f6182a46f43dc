/** The shared variables of the client and the handlers that update them; each handler is proved to be
    one step of the state machine of `Protocol` that keeps the linked list of peers in step with it. */
module Client {
  import opened Bytes
  import opened Bitfield
  import opened Geometry
  import opened FileIo
  import opened Assembly
  import opened Protocol
  import opened Counting
  import opened Invariant
  import opened PeerPool

  class Client {
    const m: Meta
    ghost const ok: Check
    const disk: FileInfo
    const list: Pool
    var pieces: seq<int>
    var avail: seq<int>
    /** What `list` holds whenever no handler is at work. */
    ghost var pool: seq<Peer>
    var rest: int
    var have: int
    var requesting: int
    var locked: bool
    var requester: Requester
    var endGame: bool
    var isSeed: bool
    var sent: seq<Sent>
    ghost var issued: nat
    ghost var returned: nat
    ghost var fanned: nat

    ghost function Cfg(): Config {
      Config(m, ok)
    }

    /** The state of the protocol that these variables stand for. */
    ghost function St(): State
      reads this, disk.disk
    {
      State(pieces, avail, pool, rest, have, requesting, locked, requester, endGame, isSeed,
            disk.disk[..], sent, issued, returned, fanned)
    }

    ghost predicate Fits()
      reads this, disk.disk
    {
      Fitting(St()) && |pieces| == m.numPieces
    }

    ghost predicate Valid()
      reads this, disk.disk, list, list.spine, list.Peers()
    {
      Fits() && list.Valid() && list.contents == pool
    }

    /** What never changes: the file on disk is the torrent's, and pieces are judged by their SHA-1 digests. */
    ghost predicate Fixed() {
      disk.Holds(m) && ChecksSha1(m, ok)
    }

    /** The client and its file are no part of the list. */
    lemma Outside()
      ensures var nodes: seq<object> := list.spine;
              var peers: seq<object> := list.Peers();
              && this !in nodes && disk !in nodes && disk.disk !in nodes
              && this !in peers && disk !in peers && disk.disk !in peers
    {
    }

    // ----- The start

    /** The static variables before anything happened. */
    constructor (m: Meta, ghost ok: Check, disk: FileInfo)
      requires disk.Holds(m) && ChecksSha1(m, ok)
      ensures this.m == m && this.ok == ok && this.disk == disk && Blank() && list.Valid() && list.contents == []
    {
      this.m, this.ok, this.disk := m, ok, disk;
      list := new Pool();
      pieces, avail, pool, rest, have := [], [], [], 0, 0;
      requesting, locked, requester, endGame, isSeed := 0, false, Idle, false, false;
      sent, issued, returned, fanned := [], 0, 0, 0;
    }

    ghost predicate Blank()
      reads this
    {
      && requesting == 0 && !locked && requester.Idle? && !endGame && !isSeed
      && pool == [] && sent == [] && issued == returned == fanned == 0
    }

    /** Start-up: init_pieces_state_arr, init_pieces_num_in_peers and the first lines of request_file. */
    method StartUp()
      requires Fixed() && Blank() && list.Valid() && list.contents == []
      modifies this`pieces, this`avail, this`rest, this`have, disk`downloaded
      ensures Valid() && Init(Cfg(), St())
    {
      hide Pool.Valid;
      Outside();
      InitPiecesStateArr();
      InitPiecesNumInPeers();
      have := m.numPieces - rest;
    }

    /** init_pieces_state_arr. */
    method InitPiecesStateArr()
      requires Fixed()
      modifies this`pieces, this`rest, disk`downloaded
      ensures |pieces| == m.numPieces && rest == Count(pieces, PIECE_HAVNT)
      ensures forall i: nat :: i < m.numPieces ==>
                pieces[i] == if PieceOk(m, ok, disk.disk[..], i) then PIECE_COMPLETED else PIECE_HAVNT
    {
      var bitfield := disk.GenBitfield(m, ok);
      pieces, rest := StatesFromBitfield(m, ok, disk.disk[..], bitfield[..]);
    }

    /** init_pieces_num_in_peers. */
    method InitPiecesNumInPeers()
      modifies this`avail
      ensures |avail| == m.numPieces && forall i :: 0 <= i < m.numPieces ==> avail[i] == 0
    {
      avail := [];
      var i := 0;
      while i < m.numPieces
        invariant |avail| == i <= m.numPieces && forall j :: 0 <= j < i ==> avail[j] == 0
      {
        avail := avail + [0];
        i := i + 1;
      }
    }

    // ----- The choices of the requester

    /** which_piece_to_request. */
    method WhichPieceToRequest() returns (min: int)
      requires |pieces| == |avail| == m.numPieces
      ensures IsRarest(pieces, avail, min)
    {
      min := 0;
      while min < m.numPieces && !(pieces[min] == PIECE_HAVNT && avail[min] > 0)
        invariant 0 <= min <= m.numPieces
        invariant forall j :: 0 <= j < min ==> !Candidate(pieces, avail, j)
      {
        min := min + 1;
      }
      if min == m.numPieces {
        return -1;
      }
      var minVal := avail[min];
      var i := min;
      while i < m.numPieces
        invariant 0 <= min <= i <= m.numPieces
        invariant Candidate(pieces, avail, min) && minVal == avail[min]
        invariant forall j :: 0 <= j < i && Candidate(pieces, avail, j) ==>
                    minVal <= avail[j] && (j < min ==> minVal < avail[j])
      {
        if avail[i] > 0 && pieces[i] == PIECE_HAVNT && avail[i] < minVal {
          min := i;
          minVal := avail[min];
        }
        i := i + 1;
      }
    }

    // ----- A request of the normal phase

    /** A turn of the first loop of request_file, up to the counting in LOCK_PIECE. */
    method BeginRequest() returns (p: PeerT?, index: int)
      requires Valid() && Shaped(Cfg(), St())
      requires requester.Idle? && !endGame && !isSeed && rest > 5
      modifies this`requesting, this`requester
      ensures Valid()
      ensures p != null ==>
                && 0 <= index && Enabled(Cfg(), old(St()), Begin(index, p.connfd))
                && St() == Next(Cfg(), old(St()), Begin(index, p.connfd))
      ensures p == null ==> St() == old(St()) && forall i, c :: !Enabled(Cfg(), old(St()), Begin(i, c))
    {
      hide Pool.Valid;
      Outside();
      ghost var s := St();
      index := WhichPieceToRequest();
      p := null;
      if index >= 0 {
        p := list.FindPeerHavePiece(index, m.numPieces);
      }
      if p == null {
        CannotBegin(Cfg(), s, index, -1);
        return;
      }
      ghost var k: nat :| list.IsPeer(p, k) && IsLeastUsed(list.contents, index, k);
      list.PeerIs(p, k);
      CanBeginIs(Cfg(), s, index, k);
      Outside();
      CountRequest(index, p.connfd);
    }

    /** The counting in LOCK_PIECE: from the fifth piece on, the mutex is needed. */
    method CountRequest(index: nat, connfd: int)
      modifies this`requesting, this`requester
      ensures St() == Begun(old(St()), index, connfd)
    {
      requesting := requesting + 1;
      requester := if requesting >= 5 then Waiting(index, connfd) else Granted(index, connfd);
    }

    /** The mutex of LOCK_PIECE is taken. */
    method AcquireWindow()
      requires Valid() && Shaped(Cfg(), St()) && Enabled(Cfg(), St(), Acquire)
      modifies this`locked, this`requester
      ensures Valid() && St() == Next(Cfg(), old(St()), Acquire)
    {
      hide Pool.Valid;
      Outside();
      locked := true;
      requester := Granted(requester.index, requester.connfd);
    }

    /** The rest of the turn, once the window is open. */
    method SendRequest(p: PeerT, ghost k: nat)
      requires Valid() && list.IsPeer(p, k)
      requires requester.Granted? && requester.index < m.numPieces && p.connfd == requester.connfd
      modifies this`pieces, this`pool, this`sent, this`rest, this`requester, this`issued
      modifies p`pieces, p`downloaded, list`contents
      ensures Valid() && Connected(old(St()).pool, p.connfd)
      ensures St() == PieceAsked(m, old(St()), old(requester).index, p.connfd)
    {
      hide Pool.Valid;
      list.PeerIs(p, k);
      var index := requester.index;
      list.Update(p, k, p.pieces[index := PEER_BE_REQUESTED], p.downloaded + 1);
      Outside();
      AskFor(p.connfd, k, index);
    }

    /** SendRequest on the client's own variables. */
    method AskFor(connfd: int, ghost k: nat, index: nat)
      requires Fits() && index < m.numPieces && k < |pool| && pool[k].connfd == connfd
      modifies this`pieces, this`pool, this`sent, this`rest, this`requester, this`issued
      ensures Fits() && Connected(old(St()).pool, connfd)
      ensures St() == PieceAsked(m, old(St()), index, connfd)
      ensures var p := old(pool)[k];
              pool == old(pool)[k := p.(pieces := p.pieces[index := PEER_BE_REQUESTED], downloaded := p.downloaded + 1)]
    {
      ghost var s, p := St(), pool[k];
      RequestAPiece(connfd, index);
      pool := pool[k := p.(pieces := p.pieces[index := PEER_BE_REQUESTED], downloaded := p.downloaded + 1)];
      rest := rest - 1;
      requester, issued := Idle, issued + 1;
      PieceAskedIs(m, s, St(), k, index);
    }

    /** request_a_piece. */
    method RequestAPiece(connfd: int, index: nat)
      requires index < |pieces|
      modifies this`pieces, this`sent
      ensures St() == old(St()).(pieces := old(St()).pieces[index := PIECE_REQUESTING],
                                 sent := old(St()).sent + SentFor(m, connfd, index))
    {
      pieces := pieces[index := PIECE_REQUESTING];
      sent := SendSubRequests(m, connfd, index, sent);
    }

    // ----- Handshakes and bitfields

    /** handshake_handler: an address that is already in the pool is refused. `initial` is what the freshly
        allocated state array happens to hold. */
    method HandleHandshake(connfd: int, ip: string, initial: seq<int>) returns (ret: int)
      requires Valid() && |initial| == m.numPieces && !Connected(pool, connfd)
      modifies this`pool, list`head, list`spine, list`contents
      ensures Valid() && St() == Added(old(St()), connfd, ip, initial)
      ensures ret == if Known(old(pool), ip) then 0 else 1
    {
      hide Pool.Valid;
      var node := list.FindPeerNode(ip);
      if node != null {
        return 0;
      }
      var p := list.AddPeer(connfd, ip, initial);
      Outside();
      JoinPool(connfd, ip, initial);
      return 1;
    }

    /** HandleHandshake on the client's own variables. */
    ghost method JoinPool(connfd: int, ip: string, initial: seq<int>)
      requires Fits() && |initial| == m.numPieces && !Connected(pool, connfd) && !Known(pool, ip)
      modifies this`pool
      ensures Fits() && St() == Added(old(St()), connfd, ip, initial)
      ensures pool == [Peer(connfd, ip, initial, 0)] + old(pool)
    {
      var s := St();
      pool := [Peer(connfd, ip, initial, 0)] + pool;
      AddedIs(s, St(), connfd, ip, initial);
    }

    /** handle_bitfield: peer_have_piece for every bit that is set. */
    method HandleBitfield(p: PeerT, ghost k: nat, bits: seq<bv8>)
      requires Valid() && list.IsPeer(p, k)
      modifies this`pool, this`avail, p`pieces, p`downloaded, list`contents
      ensures Valid() && Connected(old(St()).pool, p.connfd)
      ensures St() == BitfieldHandled(old(St()), p.connfd, bits)
    {
      hide Pool.Valid;
      list.PeerIs(p, k);
      Outside();
      var states := Announce(p.pieces, k, bits);
      list.Update(p, k, states, p.downloaded);
    }

    /** HandleBitfield on the client's own variables. */
    method Announce(states: seq<int>, ghost k: nat, bits: seq<bv8>) returns (newStates: seq<int>)
      requires Fits() && k < |pool| && states == pool[k].pieces
      modifies this`pool, this`avail
      ensures Fits() && Connected(old(St()).pool, old(pool)[k].connfd)
      ensures St() == BitfieldHandled(old(St()), old(pool)[k].connfd, bits)
      ensures newStates == MarkedPieces(states, bits) && pool == old(pool)[k := old(pool)[k].(pieces := newStates)]
    {
      ghost var s := St();
      newStates, avail := MarkAll(states, avail, bits);
      pool := pool[k := pool[k].(pieces := newStates)];
      BitfieldHandledIs(s, St(), k, bits);
    }

    // ----- Blocks

    /** The first half of handle_piece: writes the block unless another peer was first. */
    method WriteBlock(connfd: int, index: nat, begin: int, block: seq<byte>) returns (accepted: bool)
      requires Fits() && Fixed() && index < m.numPieces
      modifies this`pieces, disk.disk
      ensures Fits() && accepted == Accepts(old(St()), connfd, index)
      ensures St() == if accepted then Written(m, old(St()), connfd, index, begin, block) else old(St())
    {
      accepted := !endGame || pieces[index] == PIECE_REQUESTING || pieces[index] == PIECE_END_GAME_GETED + connfd;
      if accepted {
        var n := disk.SetBlock(m, index, begin, block);
        if endGame {
          pieces := pieces[index := PIECE_END_GAME_GETED + connfd];
        }
      }
    }

    /** The bitfield in handle_piece: is piece `index` complete, and is the whole file? */
    method CheckDisk(index: nat) returns (complete: bool, whole: bool)
      requires Fixed() && index < m.numPieces
      modifies disk`downloaded
      ensures complete == PieceOk(m, ok, disk.disk[..], index)
      ensures whole == forall i: nat :: i < m.numPieces ==> PieceOk(m, ok, disk.disk[..], i)
    {
      var bitfield := disk.GenBitfield(m, ok);
      var bit := PieceBit(m, ok, disk.disk[..], bitfield[..], index);
      complete := bit == 1;
      whole := AllBits(m, ok, disk.disk[..], bitfield[..]);
    }

    /** handle_piece. */
    method HandlePiece(p: PeerT, ghost k: nat, index: nat, begin: int, block: seq<byte>)
      requires Valid() && Fixed() && Shaped(Cfg(), St()) && list.IsPeer(p, k) && index < m.numPieces
      modifies this`pieces, this`pool, this`have, this`requesting, this`locked, this`isSeed
      modifies p`pieces, p`downloaded, list`contents, disk.disk, disk`downloaded
      ensures Valid() && Connected(old(St()).pool, p.connfd)
      ensures St() == Delivered(Cfg(), old(St()), p.connfd, index, begin, block)
    {
      hide Pool.Valid;
      list.PeerIs(p, k);
      Outside();
      var complete, whole := StoreBlock(p.connfd, k, index, begin, block);
      if complete {
        list.Update(p, k, p.pieces[index := PEER_HAVE], p.downloaded);
        Outside();
        CompletePiece(k, index, whole);
      }
    }

    /** The first half of handle_piece on the client's own variables and the file. */
    method StoreBlock(connfd: int, ghost k: nat, index: nat, begin: int, block: seq<byte>)
      returns (complete: bool, whole: bool)
      requires Fits() && Fixed() && k < |pool| && connfd == pool[k].connfd && index < m.numPieces
      modifies this`pieces, disk.disk, disk`downloaded
      ensures Fits() && Connected(old(St()).pool, connfd) && Shaped(Cfg(), old(St())) && Shaped(Cfg(), St())
      ensures complete ==> whole == forall i: nat :: i < m.numPieces ==> PieceOk(m, ok, disk.disk[..], i)
      ensures Delivered(Cfg(), old(St()), connfd, index, begin, block) ==
              if complete then Completed(Cfg(), St(), connfd, index) else St()
    {
      PositionIs(pool, k);
      var accepted := WriteBlock(connfd, index, begin, block);
      complete, whole := false, false;
      if accepted {
        complete, whole := CheckDisk(index);
      }
    }

    /** The second half of handle_piece on the client's own variables: the piece is complete. */
    method CompletePiece(ghost k: nat, index: nat, whole: bool)
      requires Fits() && Shaped(Cfg(), St()) && k < |pool| && index < m.numPieces
      requires whole == forall i: nat :: i < m.numPieces ==> PieceOk(m, ok, disk.disk[..], i)
      modifies this`pieces, this`pool, this`have, this`requesting, this`locked, this`isSeed
      ensures Fits() && Connected(old(St()).pool, old(pool)[k].connfd)
      ensures St() == Completed(Cfg(), old(St()), old(pool)[k].connfd, index)
      ensures var p := old(pool)[k]; pool == old(pool)[k := p.(pieces := p.pieces[index := PEER_HAVE])]
    {
      ghost var s := St();
      CountPiece(k, index, whole);
      CompletedIs(Cfg(), s, St(), k, index, whole);
    }

    method CountPiece(ghost k: nat, index: nat, whole: bool)
      requires k < |pool| && index < |pieces| && index < |pool[k].pieces|
      modifies this`pieces, this`pool, this`have, this`requesting, this`locked, this`isSeed
      ensures var s := old(St());
              St() == s.(pieces := s.pieces[index := PIECE_COMPLETED],
                         have := s.have + 1,
                         isSeed := s.isSeed || whole,
                         pool := s.pool[k := s.pool[k].(pieces := s.pool[k].pieces[index := PEER_HAVE])],
                         requesting := s.requesting - 1,
                         locked := Released(s.requesting, s.locked, 1))
    {
      pieces := pieces[index := PIECE_COMPLETED];
      have := have + 1;
      pool := pool[k := pool[k].(pieces := pool[k].pieces[index := PEER_HAVE])];
      requesting := requesting - 1;
      if requesting + 1 >= 5 {
        locked := false;
      }
      if whole {
        isSeed := true;
      }
    }

    // ----- Disconnects

    /** The end of message_handler: the pieces asked of the peer go back, and its node is removed. */
    method HandleDisconnect(p: PeerT, ghost k: nat)
      requires Valid() && list.IsPeer(p, k)
      modifies this`pieces, this`avail, this`pool, this`requesting, this`locked, this`returned
      modifies list`head, list`spine, list`contents, list.spine`next
      ensures Valid() && Connected(old(St()).pool, p.connfd)
      ensures St() == Disconnected(old(St()), p.connfd)
    {
      hide Pool.Valid;
      list.PeerIs(p, k);
      var states := p.pieces;
      list.RemoveNode(p);
      Outside();
      GiveUpPieces(states, k);
    }

    /** HandleDisconnect on the client's own variables. */
    method GiveUpPieces(states: seq<int>, ghost k: nat)
      requires Fits() && k < |pool| && pool[k].pieces == states
      modifies this`pieces, this`avail, this`pool, this`requesting, this`locked, this`returned
      ensures Fits() && Connected(old(St()).pool, old(pool)[k].connfd)
      ensures St() == Disconnected(old(St()), old(pool)[k].connfd)
      ensures pool == RemoveIp(old(pool), old(pool)[k].ip)
    {
      hide PiecesBack, AvailWithout, BackCount, Released, Disconnected, RemoveIp;
      ghost var s := St();
      returned := returned + BackCount(pieces, states, |pieces|);
      pieces, avail, requesting, locked := TakeBack(pieces, avail, requesting, locked, states);
      pool := RemoveIp(pool, pool[k].ip);
      DisconnectedIs(s, St(), k);
    }

    // ----- The end game

    /** The end game begins. */
    method EnterEndGame()
      requires Valid() && Shaped(Cfg(), St()) && Enabled(Cfg(), St(), Event.EnterEndGame)
      modifies this`endGame
      ensures Valid() && St() == Next(Cfg(), old(St()), Event.EnterEndGame)
    {
      hide Pool.Valid;
      Outside();
      endGame := true;
    }

    /** A turn of the last loop of request_file, when the window is free. */
    method EndGameTurn() returns (index: int)
      requires Valid() && Shaped(Cfg(), St())
      requires endGame && !isSeed && (requesting + 1 >= 5 ==> !locked)
      modifies this`pieces, this`pool, this`sent, this`requesting, this`locked, this`fanned
      modifies list`contents, list.Peers()`pieces, list.Peers()`downloaded
      ensures Valid()
      ensures index >= 0 ==>
                && Enabled(Cfg(), old(St()), Event.FanOut(index))
                && St() == Next(Cfg(), old(St()), Event.FanOut(index))
      ensures index < 0 ==> St() == old(St()) && forall i :: !Enabled(Cfg(), old(St()), Event.FanOut(i))
    {
      hide Pool.Valid;
      Outside();
      index := WhichPieceToRequest();
      if index >= 0 {
        FanOut(index);
      }
    }

    /** The piece is asked of every peer that has it. */
    method FanOut(index: nat)
      requires Valid() && index < m.numPieces && (requesting + 1 >= 5 ==> !locked)
      modifies this`pieces, this`pool, this`sent, this`requesting, this`locked, this`fanned
      modifies list`contents, list.Peers()`pieces, list.Peers()`downloaded
      ensures Valid() && St() == FannedOut(m, old(St()), index)
    {
      hide Pool.Valid;
      var newPieces, newSent := AskPeers(m, list, pieces, sent, index);
      Outside();
      CountFanOut(index, newPieces, newSent);
    }

    /** FanOut on the client's own variables. */
    method CountFanOut(index: nat, newPieces: seq<int>, newSent: seq<Sent>)
      requires Fits() && index < m.numPieces
      requires newSent == sent + FannedSent(m, pool, index)
      requires newPieces == if SomebodyHas(pool, index) then pieces[index := PIECE_REQUESTING] else pieces
      modifies this`pieces, this`pool, this`sent, this`requesting, this`locked, this`fanned
      ensures Fits() && St() == FannedOut(m, old(St()), index)
      ensures pool == FannedPool(old(pool), index)
    {
      ghost var s, has := St(), SomebodyHas(pool, index);
      StoreFanOut(index, newPieces, newSent);
      requesting := requesting + 1;
      if requesting >= 5 {
        locked := true;
      }
      fanned := fanned + if has then 1 else 0;
      FannedOutIs(m, s, St(), index, has);
    }

    method StoreFanOut(index: nat, newPieces: seq<int>, newSent: seq<Sent>)
      modifies this`pieces, this`pool, this`sent
      ensures St() == old(St()).(pieces := newPieces, sent := newSent, pool := FannedPool(old(St()).pool, index))
    {
      pieces, sent, pool := newPieces, newSent, FannedPool(pool, index);
    }
  }

  /** The loop of init_pieces_state_arr. */
  method StatesFromBitfield(m: Meta, ghost ok: Check, ghost file: seq<byte>, bits: seq<bv8>)
    returns (arr: seq<int>, missing: int)
    requires ValidMeta(m) && m.size <= |file| && IsBitfield(m, ok, file, bits, m.numPieces)
    ensures |arr| == m.numPieces && missing == Count(arr, PIECE_HAVNT)
    ensures forall i: nat :: i < m.numPieces ==>
              arr[i] == if PieceOk(m, ok, file, i) then PIECE_COMPLETED else PIECE_HAVNT
  {
    arr, missing := [], 0;
    var i := 0;
    while i < m.numPieces
      invariant |arr| == i <= m.numPieces && missing == Count(arr, PIECE_HAVNT)
      invariant forall j: nat :: j < i ==> arr[j] == if PieceOk(m, ok, file, j) then PIECE_COMPLETED else PIECE_HAVNT
    {
      var bit := PieceBit(m, ok, file, bits, i);
      var state := if bit == 1 then PIECE_COMPLETED else PIECE_HAVNT;
      CountAppend(arr, state, PIECE_HAVNT);
      arr := arr + [state];
      if bit != 1 {
        missing := missing + 1;
      }
      i := i + 1;
    }
  }

  /** The loop of request_a_piece: the messages after those in `log`. */
  method SendSubRequests(m: Meta, connfd: int, index: nat, log: seq<Sent>) returns (sent: seq<Sent>)
    ensures sent == log + SentFor(m, connfd, index)
  {
    hide SentFrom, SentFor;
    ghost var all := log + SentFor(m, connfd, index);
    SentAll(m, connfd, index);
    var start := index * m.pieceLen;
    var subPieceLen := m.pieceLen / 4;
    var subBegin := 0;
    sent := log;
    var i := 0;
    while i < 4
      invariant 0 <= i <= 4
      invariant sent + SentFrom(connfd, index, start, m.size, subPieceLen, subBegin, 4 - i) == all
    {
      SentOneMore(connfd, index, start, m.size, subPieceLen, subBegin, 4 - i, sent);
      if start + subBegin + subPieceLen > m.size {
        subPieceLen := m.size - start - subBegin;
        if subPieceLen <= 0 {
          return;
        }
      }
      sent := sent + [Sent(connfd, Wanted(index, Sub(subBegin, subPieceLen)))];
      subBegin := subBegin + subPieceLen;
      i := i + 1;
    }
    SentNoMore(connfd, index, start, m.size, subPieceLen, subBegin);
  }

  /** The messages of the last `count` turns of the loop. */
  ghost function SentFrom(connfd: int, index: nat, start: int, size: int, subLen: int, begin: int, count: nat)
    : seq<Sent>
  {
    SentSubs(connfd, index, SubsFrom(start, size, subLen, begin, count))
  }

  lemma SentAll(m: Meta, connfd: int, index: nat)
    ensures SentFor(m, connfd, index) == SentFrom(connfd, index, index * m.pieceLen, m.size, m.pieceLen / 4, 0, 4)
  {
  }

  lemma SentNoMore(connfd: int, index: nat, start: int, size: int, subLen: int, begin: int)
    ensures SentFrom(connfd, index, start, size, subLen, begin, 0) == []
  {
  }

  lemma SentOneMore(connfd: int, index: nat, start: int, size: int, subLen: int, begin: int, count: nat, log: seq<Sent>)
    requires count > 0
    ensures var length := if start + begin + subLen > size then size - start - begin else subLen;
            log + SentFrom(connfd, index, start, size, subLen, begin, count) ==
            if start + begin + subLen > size && length <= 0 then log
            else log + [Sent(connfd, Wanted(index, Sub(begin, length)))]
                 + SentFrom(connfd, index, start, size, length, begin + length, count - 1)
  {
  }

  /** A list is no part of itself. */
  lemma NotInside(list: Pool)
    ensures var nodes: seq<object> := list.spine;
            var peers: seq<object> := list.Peers();
            list !in nodes && list !in peers
  {
  }

  /** The body of that loop. */
  method AskPeer(m: Meta, list: Pool, p: PeerT, ghost k: nat, pieces: seq<int>, log: seq<Sent>, index: nat)
    returns (newPieces: seq<int>, sent: seq<Sent>)
    requires list.Valid() && list.IsPeer(p, k) && index < |p.pieces| && index < |pieces|
    modifies list`contents, p`pieces, p`downloaded
    ensures list.Valid()
    ensures var before := old(p.Value());
            var has := before.pieces[index] == PEER_HAVE;
            var after := if has then before.(pieces := before.pieces[index := PEER_BE_REQUESTED]) else before;
            && k < |old(list.contents)| && list.contents == old(list.contents)[k := after]
            && newPieces == (if has then pieces[index := PIECE_REQUESTING] else pieces)
            && sent == log + if has then SentFor(m, p.connfd, index) else []
  {
    hide Pool.Valid, SentFor;
    list.PeerIs(p, k);
    newPieces, sent := pieces, log;
    if p.pieces[index] == PEER_HAVE {
      newPieces := newPieces[index := PIECE_REQUESTING];
      NotInside(list);
      sent := SendSubRequests(m, p.connfd, index, sent);
      list.Update(p, k, p.pieces[index := PEER_BE_REQUESTED], p.downloaded);
    }
  }

  /** The loop over the pool in the end game. */
  method AskPeers(m: Meta, list: Pool, pieces: seq<int>, log: seq<Sent>, index: nat)
    returns (newPieces: seq<int>, sent: seq<Sent>)
    requires list.Valid() && Sized(list.contents, |pieces|) && index < |pieces|
    modifies list`contents, list.Peers()`pieces, list.Peers()`downloaded
    ensures list.Valid() && list.contents == FannedPool(old(list.contents), index)
    ensures newPieces == if SomebodyHas(old(list.contents), index) then pieces[index := PIECE_REQUESTING] else pieces
    ensures sent == log + FannedSent(m, old(list.contents), index)
  {
    hide Pool.Valid, FannedPool, FannedSent, SomebodyHas, SentFor;
    ghost var pool := list.contents;
    ghost var fanned := FannedPool(pool, index);
    assert pool[..0] == [];
    FannedNobody(m, index);
    newPieces, sent := pieces, log;
    list.Links(0);
    var node := list.head;
    ghost var i := 0;
    while node != null
      invariant list.Valid() && list.spine == old(list.spine) && HalfWay(pool, list.contents, fanned, i)
      invariant node == NodeAt(list.spine, i)
      invariant newPieces == if SomebodyHas(pool[..i], index) then pieces[index := PIECE_REQUESTING] else pieces
      invariant sent == log + FannedSent(m, pool[..i], index)
      decreases |pool| - i
    {
      list.Links(i);
      var p := node.peer;
      list.PeerIs(p, i);
      assert pool[i] in pool;
      FannedOneMore(m, pool, i, index);
      HalfWayOneMore(pool, list.contents, fanned, i);
      newPieces, sent := AskPeer(m, list, p, i, newPieces, sent, index);
      list.Links(i);
      node := node.next;
      i := i + 1;
    }
    list.Links(i);
    assert pool[..i] == pool;
  }

  /** The first `i` peers are as in `after`, the others still as in `before`. */
  ghost predicate HalfWay(before: seq<Peer>, now: seq<Peer>, after: seq<Peer>, i: int) {
    && 0 <= i <= |before| == |now| == |after|
    && forall j :: 0 <= j < |now| ==> now[j] == if j < i then after[j] else before[j]
  }

  lemma HalfWayOneMore(before: seq<Peer>, now: seq<Peer>, after: seq<Peer>, i: nat)
    requires HalfWay(before, now, after, i) && i < |now|
    ensures HalfWay(before, now[i := after[i]], after, i + 1)
    ensures before[i] == after[i] ==> HalfWay(before, now, after, i + 1)
  {
  }

  /** A bit of the bitfield that gen_bitfield has built. */
  method PieceBit(m: Meta, ghost ok: Check, ghost file: seq<byte>, bits: seq<bv8>, i: nat) returns (bit: int)
    requires ValidMeta(m) && m.size <= |file| && i < m.numPieces && IsBitfield(m, ok, file, bits, m.numPieces)
    ensures bit == if PieceOk(m, ok, file, i) then 1 else 0
  {
    bit := GetBit(bits, i);
  }

  /** Is every bit of the bitfield set? The last loop of handle_piece. */
  method AllBits(m: Meta, ghost ok: Check, ghost file: seq<byte>, bits: seq<bv8>) returns (all: bool)
    requires ValidMeta(m) && m.size <= |file| && IsBitfield(m, ok, file, bits, m.numPieces)
    ensures all == forall i: nat :: i < m.numPieces ==> PieceOk(m, ok, file, i)
  {
    var i := 0;
    while i < m.numPieces
      invariant 0 <= i <= m.numPieces
      invariant forall j: nat :: j < i ==> PieceOk(m, ok, file, j)
    {
      var bit := PieceBit(m, ok, file, bits, i);
      if bit != 1 {
        return false;
      }
      i := i + 1;
    }
    return true;
  }

  /** The loop of handle_bitfield. */
  method MarkAll(states: seq<int>, avail: seq<int>, bits: seq<bv8>)
    returns (newStates: seq<int>, newAvail: seq<int>)
    requires |states| == |avail|
    ensures newStates == MarkedPieces(states, bits) && newAvail == MarkedAvail(avail, bits)
  {
    newStates, newAvail := states, avail;
    var i := 0;
    while i < |states|
      invariant 0 <= i <= |states| == |newStates| == |newAvail|
      invariant forall j :: 0 <= j < |states| ==>
                  && newStates[j] == (if j < i then MarkedPieces(states, bits)[j] else states[j])
                  && newAvail[j] == (if j < i then MarkedAvail(avail, bits)[j] else avail[j])
    {
      var peerBit := GetBit(bits, i);
      if peerBit == 1 {
        newStates := newStates[i := PEER_HAVE];
        newAvail := newAvail[i := newAvail[i] + 1];
      }
      i := i + 1;
    }
  }

  /** The loop at the end of message_handler. */
  method TakeBack(pieces: seq<int>, avail: seq<int>, requesting: int, locked: bool, states: seq<int>)
    returns (newPieces: seq<int>, newAvail: seq<int>, count: int, lock: bool)
    requires |pieces| == |avail| == |states|
    ensures newPieces == PiecesBack(pieces, states) && newAvail == AvailWithout(avail, states)
    ensures count == requesting - BackCount(pieces, states, |pieces|)
    ensures lock == Released(requesting, locked, BackCount(pieces, states, |pieces|))
  {
    newPieces, newAvail, count, lock := pieces, avail, requesting, locked;
    var i := 0;
    while i < |pieces|
      invariant 0 <= i <= |pieces| == |newPieces| == |newAvail|
      invariant forall j :: 0 <= j < |states| ==>
                  && newPieces[j] == (if j < i then PiecesBack(pieces, states)[j] else pieces[j])
                  && newAvail[j] == (if j < i then AvailWithout(avail, states)[j] else avail[j])
      invariant count == requesting - BackCount(pieces, states, i)
      invariant lock == Released(requesting, locked, BackCount(pieces, states, i))
    {
      if states[i] > PEER_HAVNT {
        newAvail := newAvail[i := newAvail[i] - 1];
      }
      if states[i] == PEER_BE_REQUESTED {
        if newPieces[i] == PIECE_REQUESTING {
          newPieces := newPieces[i := PIECE_HAVNT];
          ReleasedOneMore(requesting, locked, BackCount(pieces, states, i));
          count := count - 1;
          if count + 1 >= 5 {
            lock := false;
          }
        }
      }
      i := i + 1;
    }
  }

  lemma ReleasedOneMore(requesting: int, locked: bool, n: nat)
    ensures Released(requesting, locked, n + 1) ==
            (if requesting - n >= 5 then false else Released(requesting, locked, n))
  {
    ReleasedWindow(requesting, locked, n);
    ReleasedWindow(requesting, locked, n + 1);
  }

  // ----- The steps of the state machine, with the position of the peer known

  /** Every sequence has an entry for each piece, and no two peers share a connection or an address. */
  ghost predicate Fitting(s: State) {
    |s.pieces| == |s.avail| && Sized(s.pool, |s.pieces|) && Distinct(s.pool)
  }

  lemma AddedIs(s: State, t: State, connfd: int, ip: string, initial: seq<int>)
    requires Fitting(s) && |initial| == |s.pieces| && !Connected(s.pool, connfd) && !Known(s.pool, ip)
    requires t == s.(pool := [Peer(connfd, ip, initial, 0)] + s.pool)
    ensures t == Added(s, connfd, ip, initial) && Fitting(t)
  {
    ConsKeepsPositions(s.pool, Peer(connfd, ip, initial, 0));
  }

  lemma CanBeginIs(cfg: Config, s: State, index: nat, k: nat)
    requires Shaped(cfg, s) && Distinct(s.pool) && k < |s.pool|
    requires s.requester.Idle? && !s.endGame && !s.isSeed && s.rest > 5
    requires IsRarest(s.pieces, s.avail, index) && IsLeastUsed(s.pool, index, k)
    ensures Enabled(cfg, s, Begin(index, s.pool[k].connfd))
  {
    PositionIs(s.pool, k);
  }

  /** If there is no piece to request, or nobody to ask for it, no request can begin. */
  lemma CannotBegin(cfg: Config, s: State, index: int, k: int)
    requires Shaped(cfg, s) && IsRarest(s.pieces, s.avail, index)
    requires index < 0 || (k < 0 && IsLeastUsed(s.pool, index, k))
    ensures forall i, c :: !Enabled(cfg, s, Begin(i, c))
  {
  }

  lemma PieceAskedIs(m: Meta, s: State, t: State, k: nat, index: nat)
    requires Fitting(s) && k < |s.pool| && index < |s.pieces|
    requires var p := s.pool[k];
             t == s.(pieces := s.pieces[index := PIECE_REQUESTING],
                     sent := s.sent + SentFor(m, p.connfd, index),
                     pool := s.pool[k := p.(pieces := p.pieces[index := PEER_BE_REQUESTED],
                                            downloaded := p.downloaded + 1)],
                     rest := s.rest - 1, issued := s.issued + 1, requester := Idle)
    ensures Connected(s.pool, s.pool[k].connfd)
    ensures t == PieceAsked(m, s, index, s.pool[k].connfd) && Fitting(t)
  {
    PositionIs(s.pool, k);
    ReplaceKeepsPositions(s.pool, k, t.pool[k]);
  }

  lemma BitfieldHandledIs(s: State, t: State, k: nat, bits: seq<bv8>)
    requires Fitting(s) && k < |s.pool|
    requires var p := s.pool[k];
             t == s.(pool := s.pool[k := p.(pieces := MarkedPieces(p.pieces, bits))],
                     avail := MarkedAvail(s.avail, bits))
    ensures Connected(s.pool, s.pool[k].connfd)
    ensures t == BitfieldHandled(s, s.pool[k].connfd, bits) && Fitting(t)
  {
    PositionIs(s.pool, k);
    ReplaceKeepsPositions(s.pool, k, t.pool[k]);
  }

  lemma CompletedIs(cfg: Config, s: State, t: State, k: nat, index: nat, whole: bool)
    requires Fitting(s) && Shaped(cfg, s) && k < |s.pool| && index < cfg.m.numPieces
    requires whole == forall i: nat :: i < cfg.m.numPieces ==> PieceOk(cfg.m, cfg.ok, s.file, i)
    requires var p := s.pool[k];
             t == s.(pieces := s.pieces[index := PIECE_COMPLETED],
                     have := s.have + 1,
                     isSeed := s.isSeed || whole,
                     pool := s.pool[k := p.(pieces := p.pieces[index := PEER_HAVE])],
                     requesting := s.requesting - 1,
                     locked := Released(s.requesting, s.locked, 1))
    ensures Connected(s.pool, s.pool[k].connfd)
    ensures t == Completed(cfg, s, s.pool[k].connfd, index) && Fitting(t)
  {
    PositionIs(s.pool, k);
    ReplaceKeepsPositions(s.pool, k, t.pool[k]);
  }

  lemma DisconnectedIs(s: State, t: State, k: nat)
    requires Fitting(s) && k < |s.pool|
    requires var p := s.pool[k];
             var back := BackCount(s.pieces, p.pieces, |s.pieces|);
             t == s.(pieces := PiecesBack(s.pieces, p.pieces),
                     avail := AvailWithout(s.avail, p.pieces),
                     requesting := s.requesting - back,
                     locked := Released(s.requesting, s.locked, back),
                     returned := s.returned + back,
                     pool := RemoveIp(s.pool, p.ip))
    ensures Connected(s.pool, s.pool[k].connfd) && t == Disconnected(s, s.pool[k].connfd) && Fitting(t)
  {
    PositionIs(s.pool, k);
    RemoveIpIs(s.pool, k);
  }

  lemma FannedOutIs(m: Meta, s: State, t: State, index: nat, has: bool)
    requires Fitting(s) && index < |s.pieces| && has == SomebodyHas(s.pool, index)
    requires t == s.(requesting := s.requesting + 1,
                     locked := s.locked || s.requesting + 1 >= 5,
                     pieces := if has then s.pieces[index := PIECE_REQUESTING] else s.pieces,
                     pool := FannedPool(s.pool, index),
                     sent := s.sent + FannedSent(m, s.pool, index),
                     fanned := s.fanned + if has then 1 else 0)
    ensures t == FannedOut(m, s, index) && Fitting(t)
  {
    FannedKeepsPositions(s.pool, index);
  }

  lemma FannedNobody(m: Meta, index: nat)
    ensures !SomebodyHas([], index) && FannedSent(m, [], index) == []
  {
  }

  lemma FannedOneMore(m: Meta, pool: seq<Peer>, i: nat, index: nat)
    requires i < |pool|
    ensures var p := pool[i];
            var has := index < |p.pieces| && p.pieces[index] == PEER_HAVE;
            && FannedPool(pool, index)[i] == (if has then p.(pieces := p.pieces[index := PEER_BE_REQUESTED]) else p)
            && SomebodyHas(pool[..i + 1], index) == (SomebodyHas(pool[..i], index) || has)
            && FannedSent(m, pool[..i + 1], index) ==
               FannedSent(m, pool[..i], index) + if has then SentFor(m, p.connfd, index) else []
  {
    assert pool[..i + 1] == pool[..i] + [pool[i]];
    assert pool[..i + 1][..i] == pool[..i];
  }
}
