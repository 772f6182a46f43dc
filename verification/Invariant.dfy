/** What every reachable state of the protocol satisfies, and why every event keeps it. */
module Invariant {
  import opened Bytes
  import opened Geometry
  import opened FileIo
  import opened Assembly
  import opened Protocol
  import opened Counting

  /** One entry a connection and an address, and only the three states of a peer's piece. */
  ghost predicate PeersOk(pool: seq<Peer>) {
    && Distinct(pool)
    && (forall p <- pool :: p.connfd >= 0 && StatesOk(p.pieces))
  }

  ghost predicate StatesOk(states: seq<int>) {
    forall i :: 0 <= i < |states| ==> PEER_HAVNT <= states[i] <= PEER_BE_REQUESTED
  }

  /** Claims exist in the end game only. */
  ghost predicate PiecesOk(pieces: seq<int>, endGame: bool) {
    forall i :: 0 <= i < |pieces| ==> pieces[i] >= 0 && (!endGame ==> pieces[i] <= 2)
  }

  /** The completed pieces are exactly those whose bytes pass the check, but for piece `except`. */
  ghost predicate Verified(cfg: Config, pieces: seq<int>, file: seq<byte>, except: int)
    requires ValidMeta(cfg.m) && |pieces| == cfg.m.numPieces && cfg.m.size <= |file|
  {
    forall i: nat {:trigger PieceOk(cfg.m, cfg.ok, file, i)} :: i < cfg.m.numPieces && i != except ==>
      (pieces[i] == PIECE_COMPLETED <==> PieceOk(cfg.m, cfg.ok, file, i))
  }

  /** Only a complete file makes a seed. */
  ghost predicate Seeded(pieces: seq<int>, isSeed: bool) {
    isSeed ==> forall i :: 0 <= i < |pieces| ==> pieces[i] == PIECE_COMPLETED
  }

  ghost predicate Conserved(pieces: seq<int>, have: int, rest: int, returned: nat, fanned: nat, endGame: bool) {
    && have == Count(pieces, PIECE_COMPLETED)
    && rest + returned == Count(pieces, PIECE_HAVNT) + fanned
    && (!endGame ==> fanned == 0)
  }

  /** For every piece, one if it is being requested and zero if not. */
  ghost function Flags(pieces: seq<int>): (r: seq<int>)
    ensures |r| == |pieces|
  {
    seq(|pieces|, i requires 0 <= i < |pieces| => if pieces[i] == PIECE_REQUESTING then 1 else 0)
  }

  /** In the normal phase a piece is being requested exactly while one peer is asked for it. */
  ghost predicate Owned(pool: seq<Peer>, pieces: seq<int>, endGame: bool) {
    !endGame ==> TallyIs(pool, PEER_BE_REQUESTED, Flags(pieces))
  }

  /** The window of the normal phase, with `inFlight` pieces being requested: the counter is the pieces in
      flight plus the one asked for, and the fifth piece in flight holds the mutex. */
  ghost predicate Windowed(inFlight: nat, requesting: int, locked: bool, requester: Requester, endGame: bool) {
    !endGame ==>
      var granted := inFlight + if requester.Granted? then 1 else 0;
      && requesting == inFlight + (if requester.Idle? then 0 else 1)
      && granted <= 5
      && (granted == 5 ==> locked)
      && (requester.Waiting? && locked ==> requesting >= 5)
  }

  /** The piece chosen by the requester is still missing and still offered when its turn comes. */
  ghost predicate Reserved(pool: seq<Peer>, pieces: seq<int>, requester: Requester, rest: int, endGame: bool) {
    !requester.Idle? ==>
      && !endGame && rest > 5
      && requester.index < |pieces| && pieces[requester.index] == PIECE_HAVNT
      && StillOffers(pool, requester.connfd, requester.index)
  }

  ghost predicate StillOffers(pool: seq<Peer>, connfd: int, index: nat) {
    Connected(pool, connfd) && Offers(pool, Position(pool, connfd), index)
  }

  ghost predicate Bounded(m: Meta, missing: int, rest: int, issued: nat, sent: seq<Sent>) {
    && rest + issued == missing
    && (issued > 0 ==> rest >= 5)
    && (forall x <- sent :: IsRequest(m, x.wanted))
  }

  ghost function InFlight(pieces: seq<int>): nat {
    Count(pieces, PIECE_REQUESTING)
  }

  /** The invariant but for piece `except`; handle_piece is in the middle of one, otherwise it is -1.
      `missing` is the number of pieces that were missing at the start. */
  ghost predicate InvBut(cfg: Config, missing: int, s: State, except: int) {
    && Shaped(cfg, s)
    && PeersOk(s.pool) && PiecesOk(s.pieces, s.endGame)
    && TallyIs(s.pool, PEER_HAVE, s.avail)
    && Verified(cfg, s.pieces, s.file, except)
    && Seeded(s.pieces, s.isSeed)
    && Conserved(s.pieces, s.have, s.rest, s.returned, s.fanned, s.endGame)
    && Owned(s.pool, s.pieces, s.endGame)
    && Windowed(InFlight(s.pieces), s.requesting, s.locked, s.requester, s.endGame)
    && Reserved(s.pool, s.pieces, s.requester, s.rest, s.endGame)
    && Bounded(cfg.m, missing, s.rest, s.issued, s.sent)
  }

  ghost predicate Inv(cfg: Config, missing: int, s: State) {
    InvBut(cfg, missing, s, -1)
  }

  // ----- The start

  lemma InitInv(cfg: Config, s: State)
    requires Init(cfg, s)
    ensures Inv(cfg, s.rest, s)
  {
    CountsPartition(s.pieces);
    CountPositive(s.pieces, PIECE_REQUESTING);
  }

  // ----- Peers come

  lemma AddPeerInv(cfg: Config, missing: int, s: State, connfd: int, ip: string, initial: seq<int>)
    requires Inv(cfg, missing, s) && Enabled(cfg, s, AddPeer(connfd, ip, initial))
    ensures Inv(cfg, missing, Added(s, connfd, ip, initial))
  {
    if !Known(s.pool, ip) {
      var p := Peer(connfd, ip, initial, 0);
      TallyIsCons(s.pool, p, PEER_HAVE, s.avail);
      if !s.endGame {
        TallyIsCons(s.pool, p, PEER_BE_REQUESTED, Flags(s.pieces));
      }
      ConsPeer(s.pool, p, cfg.m.numPieces);
    }
  }

  lemma ConsPeer(pool: seq<Peer>, p: Peer, n: nat)
    requires PeersOk(pool) && Sized(pool, n) && !Connected(pool, p.connfd) && !Known(pool, p.ip)
    requires p.connfd >= 0 && |p.pieces| == n && StatesOk(p.pieces)
    ensures PeersOk([p] + pool) && Sized([p] + pool, n)
    ensures forall c, i :: StillOffers(pool, c, i) ==> StillOffers([p] + pool, c, i)
  {
    ConsKeepsPositions(pool, p);
  }

  /** What a change of one peer keeps. */
  lemma ReplacePeer(pool: seq<Peer>, k: nat, q: Peer, n: nat)
    requires PeersOk(pool) && Sized(pool, n) && k < |pool|
    requires q.connfd == pool[k].connfd && q.ip == pool[k].ip && |q.pieces| == n && StatesOk(q.pieces)
    ensures PeersOk(pool[k := q]) && Sized(pool[k := q], n)
    ensures forall c, i: nat :: StillOffers(pool, c, i) && q.pieces[i] > PEER_HAVNT ==> StillOffers(pool[k := q], c, i)
    ensures forall c, i :: StillOffers(pool, c, i) && c != q.connfd ==> StillOffers(pool[k := q], c, i)
  {
    assert pool[k] in pool;
    ReplaceKeepsPositions(pool, k, q);
    forall p | p in pool[k := q]
      ensures p in pool || p == q
    {
    }
  }

  lemma BitfieldInv(cfg: Config, missing: int, s: State, connfd: int, bits: seq<bv8>)
    requires Inv(cfg, missing, s) && Enabled(cfg, s, HandleBitfield(connfd, bits))
    ensures Inv(cfg, missing, BitfieldHandled(s, connfd, bits))
  {
    var k := Position(s.pool, connfd);
    var p := s.pool[k];
    assert p in s.pool;
    MarkedOk(p.pieces, bits);
    var q := p.(pieces := MarkedPieces(p.pieces, bits));
    TallyIsReplace(s.pool, k, q, PEER_HAVE, s.avail, MarkedAvail(s.avail, bits));
    if !s.endGame {
      TallyIsReplace(s.pool, k, q, PEER_BE_REQUESTED, Flags(s.pieces), Flags(s.pieces));
    }
    ReplacePeer(s.pool, k, q, cfg.m.numPieces);
  }

  lemma MarkedOk(states: seq<int>, bits: seq<bv8>)
    requires StatesOk(states)
    ensures StatesOk(MarkedPieces(states, bits))
  {
  }

  // ----- A request of the normal phase

  lemma BeginInv(cfg: Config, missing: int, s: State, index: nat, connfd: int)
    requires Inv(cfg, missing, s) && Enabled(cfg, s, Begin(index, connfd))
    ensures Inv(cfg, missing, Begun(s, index, connfd))
  {
  }

  lemma SendInv(cfg: Config, missing: int, s: State)
    requires Inv(cfg, missing, s) && s.requester.Granted?
    ensures Connected(s.pool, s.requester.connfd)
    ensures var k := Position(s.pool, s.requester.connfd); s.requester.index < |s.pieces| == |s.pool[k].pieces|
    ensures Inv(cfg, missing, PieceAsked(cfg.m, s, s.requester.index, s.requester.connfd))
  {
    hide PieceOk, IsRequest, SentFor, Count;
    var index, connfd := s.requester.index, s.requester.connfd;
    AskPeer(s.pool, s.pieces, s.avail, Position(s.pool, connfd), index);
    SendCounts(s, index);
    SendVerified(cfg, s.pieces, s.file, index);
    SendBounded(cfg.m, missing, s, connfd, index);
  }

  /** The pool after a peer is asked for a piece that nobody was asked for. */
  lemma AskPeer(pool: seq<Peer>, pieces: seq<int>, avail: seq<int>, k: nat, index: nat)
    requires PeersOk(pool) && k < |pool| && index < |pieces| && pieces[index] != PIECE_REQUESTING
    requires TallyIs(pool, PEER_HAVE, avail) && TallyIs(pool, PEER_BE_REQUESTED, Flags(pieces))
    requires |pool[k].pieces| == |pieces| && pool[k].pieces[index] > PEER_HAVNT
    ensures var p := pool[k];
            var pool' := pool[k := p.(pieces := p.pieces[index := PEER_BE_REQUESTED], downloaded := p.downloaded + 1)];
            && PeersOk(pool') && Sized(pool', |pieces|)
            && TallyIs(pool', PEER_HAVE, avail)
            && TallyIs(pool', PEER_BE_REQUESTED, Flags(pieces[index := PIECE_REQUESTING]))
  {
    var p := pool[k];
    assert p in pool;
    var q := p.(pieces := p.pieces[index := PEER_BE_REQUESTED], downloaded := p.downloaded + 1);
    NobodyAsked(pool, pieces, index, k);
    TallyIsReplace(pool, k, q, PEER_HAVE, avail, avail);
    TallyIsReplace(pool, k, q, PEER_BE_REQUESTED, Flags(pieces), Flags(pieces[index := PIECE_REQUESTING]));
    ReplacePeer(pool, k, q, |pieces|);
  }

  lemma SendCounts(s: State, index: nat)
    requires index < |s.pieces| && s.pieces[index] == PIECE_HAVNT && s.requester.Granted? && !s.endGame
    requires PiecesOk(s.pieces, s.endGame)
    requires Conserved(s.pieces, s.have, s.rest, s.returned, s.fanned, s.endGame)
    requires Windowed(InFlight(s.pieces), s.requesting, s.locked, s.requester, s.endGame)
    ensures var pieces' := s.pieces[index := PIECE_REQUESTING];
            && PiecesOk(pieces', s.endGame)
            && Conserved(pieces', s.have, s.rest - 1, s.returned, s.fanned, s.endGame)
            && Windowed(InFlight(pieces'), s.requesting, s.locked, Idle, s.endGame)
  {
    MovePiece(s.pieces, index, PIECE_REQUESTING);
  }

  lemma SendVerified(cfg: Config, pieces: seq<int>, file: seq<byte>, index: nat)
    requires ValidMeta(cfg.m) && index < |pieces| == cfg.m.numPieces && cfg.m.size <= |file|
    requires pieces[index] != PIECE_COMPLETED && Verified(cfg, pieces, file, -1)
    ensures Verified(cfg, pieces[index := PIECE_REQUESTING], file, -1)
  {
  }

  lemma SendBounded(m: Meta, missing: int, s: State, connfd: int, index: nat)
    requires Bounded(m, missing, s.rest, s.issued, s.sent) && s.rest > 5 && index < m.numPieces
    ensures Bounded(m, missing, s.rest - 1, s.issued + 1, s.sent + SentFor(m, connfd, index))
  {
  }

  /** The counts after piece `i` changes its state. */
  lemma MovePiece(pieces: seq<int>, i: nat, x: int)
    requires i < |pieces|
    ensures forall v :: Count(pieces[i := x], v) ==
              Count(pieces, v) - (if pieces[i] == v then 1 else 0) + (if x == v then 1 else 0)
  {
    forall v {
      CountUpdate(pieces, i, x, v);
    }
  }

  /** A piece that is not being requested is asked of nobody. */
  lemma NobodyAsked(pool: seq<Peer>, pieces: seq<int>, index: nat, k: nat)
    requires TallyIs(pool, PEER_BE_REQUESTED, Flags(pieces))
    requires index < |pieces| && pieces[index] != PIECE_REQUESTING && k < |pool|
    ensures |pool[k].pieces| == |pieces| && pool[k].pieces[index] < PEER_BE_REQUESTED
  {
    assert pool[k] in pool;
    TallyPositive(pool, index, PEER_BE_REQUESTED);
    assert Flags(pieces)[index] == 0;
  }

  // ----- A block arrives

  lemma DeliverInv(cfg: Config, missing: int, s: State, connfd: int, index: nat, begin: int, block: seq<byte>)
    requires Inv(cfg, missing, s) && Enabled(cfg, s, Deliver(connfd, index, begin, block))
    ensures Inv(cfg, missing, Delivered(cfg, s, connfd, index, begin, block))
  {
    if Accepts(s, connfd, index) {
      OpenPiece(cfg, missing, s, connfd, index);
      assert s.pool[Position(s.pool, connfd)] in s.pool;
      WrittenInv(cfg, missing, s, connfd, index, begin, block);
      var w := Written(cfg.m, s, connfd, index, begin, block);
      if PieceOk(cfg.m, cfg.ok, w.file, index) {
        CompletedInv(cfg, missing, w, connfd, index);
      }
    }
  }

  /** A block is written only into a piece that is being requested or claimed. */
  lemma OpenPiece(cfg: Config, missing: int, s: State, connfd: int, index: nat)
    requires Inv(cfg, missing, s) && Connected(s.pool, connfd) && index < cfg.m.numPieces
    requires s.pool[Position(s.pool, connfd)].pieces[index] == PEER_BE_REQUESTED
    requires Accepts(s, connfd, index)
    ensures Open(s.pieces[index], s.endGame)
  {
    var k := Position(s.pool, connfd);
    assert s.pool[k] in s.pool;
    if !s.endGame && s.pieces[index] != PIECE_REQUESTING {
      NobodyAsked(s.pool, s.pieces, index, k);
    }
  }

  ghost predicate Open(piece: int, endGame: bool) {
    piece == PIECE_REQUESTING || (endGame && piece >= PIECE_END_GAME_GETED)
  }

  lemma WrittenInv(cfg: Config, missing: int, s: State, connfd: int, index: nat, begin: int, block: seq<byte>)
    requires Inv(cfg, missing, s) && index < cfg.m.numPieces && Open(s.pieces[index], s.endGame)
    requires connfd >= 0 && StaysInside(cfg.m, index, begin, |block|)
    ensures var w := Written(cfg.m, s, connfd, index, begin, block);
            InvBut(cfg, missing, w, index)
            && Open(w.pieces[index], w.endGame)
            && (!PieceOk(cfg.m, cfg.ok, w.file, index) ==> Inv(cfg, missing, w))
  {
    hide PieceOk, WriteAt, IsRequest;
    var w := Written(cfg.m, s, connfd, index, begin, block);
    assert w.pieces[index] != PIECE_COMPLETED;
    OthersVerified(cfg, s.pieces, w.pieces, s.file, index, begin, block);
    if s.endGame {
      ClaimCounts(s.pieces, index, PIECE_END_GAME_GETED + connfd, s.have, s.rest, s.returned, s.fanned);
    } else {
      assert w == s.(file := w.file);
    }
  }

  lemma ClaimCounts(pieces: seq<int>, index: nat, claim: int, have: int, rest: int, returned: nat, fanned: nat)
    requires index < |pieces| && claim >= PIECE_END_GAME_GETED && Open(pieces[index], true)
    requires PiecesOk(pieces, true) && Conserved(pieces, have, rest, returned, fanned, true)
    ensures PiecesOk(pieces[index := claim], true)
    ensures Conserved(pieces[index := claim], have, rest, returned, fanned, true)
  {
    MovePiece(pieces, index, claim);
  }

  lemma OthersVerified(cfg: Config, pieces: seq<int>, pieces': seq<int>, file: seq<byte>,
                       index: nat, begin: int, block: seq<byte>)
    requires ValidMeta(cfg.m) && |pieces| == |pieces'| == cfg.m.numPieces && cfg.m.size <= |file|
    requires StaysInside(cfg.m, index, begin, |block|)
    requires Verified(cfg, pieces, file, -1)
    requires index < |pieces|
    requires pieces'[index] != PIECE_COMPLETED
    requires forall i :: 0 <= i < |pieces| && i != index ==> pieces'[i] == pieces[i]
    ensures var file' := WriteAt(file, cfg.m.size, Start(cfg.m, index) + begin, block);
            && Verified(cfg, pieces', file', index)
            && (!PieceOk(cfg.m, cfg.ok, file', index) ==> Verified(cfg, pieces', file', -1))
  {
    var file' := WriteAt(file, cfg.m.size, Start(cfg.m, index) + begin, block);
    InsideKeepsOthers(cfg.m, file, index, begin, block);
    forall i: nat | i < cfg.m.numPieces && i != index
      ensures PieceOk(cfg.m, cfg.ok, file', i) == PieceOk(cfg.m, cfg.ok, file, i)
    {
      assert PieceBytes(cfg.m, file', i) == PieceBytes(cfg.m, file, i);
    }
  }

  lemma CompletedInv(cfg: Config, missing: int, w: State, connfd: int, index: nat)
    requires InvBut(cfg, missing, w, index) && Connected(w.pool, connfd) && index < cfg.m.numPieces
    requires Open(w.pieces[index], w.endGame)
    requires w.pool[Position(w.pool, connfd)].pieces[index] == PEER_BE_REQUESTED
    requires PieceOk(cfg.m, cfg.ok, w.file, index)
    ensures Inv(cfg, missing, Completed(cfg, w, connfd, index))
  {
    var k := Position(w.pool, connfd);
    PeerDelivers(w.pool, w.pieces, w.avail, k, index, w.endGame);
    CompletedCounts(w, index);
    CompletedVerified(cfg, w.pieces, w.file, index);
  }

  /** The pool after a peer has delivered the piece it was asked for. */
  lemma PeerDelivers(pool: seq<Peer>, pieces: seq<int>, avail: seq<int>, k: nat, index: nat, endGame: bool)
    requires PeersOk(pool) && k < |pool| && index < |pieces| && Open(pieces[index], endGame)
    requires TallyIs(pool, PEER_HAVE, avail) && Owned(pool, pieces, endGame) && |avail| == |pieces|
    requires |pool[k].pieces| == |pieces| && pool[k].pieces[index] == PEER_BE_REQUESTED
    ensures var p := pool[k];
            var pool' := pool[k := p.(pieces := p.pieces[index := PEER_HAVE])];
            && PeersOk(pool') && Sized(pool', |pieces|)
            && TallyIs(pool', PEER_HAVE, avail)
            && Owned(pool', pieces[index := PIECE_COMPLETED], endGame)
            && forall c, i :: StillOffers(pool, c, i) ==> StillOffers(pool', c, i)
  {
    var p := pool[k];
    assert p in pool;
    var q := p.(pieces := p.pieces[index := PEER_HAVE]);
    TallyIsReplace(pool, k, q, PEER_HAVE, avail, avail);
    if !endGame {
      TallyIsReplace(pool, k, q, PEER_BE_REQUESTED, Flags(pieces), Flags(pieces[index := PIECE_COMPLETED]));
    }
    ReplacePeer(pool, k, q, |pieces|);
    ReplaceKeepsPositions(pool, k, q);
  }

  lemma CompletedCounts(w: State, index: nat)
    requires index < |w.pieces| && Open(w.pieces[index], w.endGame) && PiecesOk(w.pieces, w.endGame)
    requires Conserved(w.pieces, w.have, w.rest, w.returned, w.fanned, w.endGame)
    requires Windowed(InFlight(w.pieces), w.requesting, w.locked, w.requester, w.endGame)
    ensures var pieces' := w.pieces[index := PIECE_COMPLETED];
            && PiecesOk(pieces', w.endGame)
            && Conserved(pieces', w.have + 1, w.rest, w.returned, w.fanned, w.endGame)
            && Windowed(InFlight(pieces'), w.requesting - 1, Released(w.requesting, w.locked, 1),
                        w.requester, w.endGame)
  {
    MovePiece(w.pieces, index, PIECE_COMPLETED);
    ReleasedWindow(w.requesting, w.locked, 1);
  }

  lemma CompletedVerified(cfg: Config, pieces: seq<int>, file: seq<byte>, index: nat)
    requires ValidMeta(cfg.m) && |pieces| == cfg.m.numPieces && cfg.m.size <= |file| && index < cfg.m.numPieces
    requires Verified(cfg, pieces, file, index) && PieceOk(cfg.m, cfg.ok, file, index)
    ensures Verified(cfg, pieces[index := PIECE_COMPLETED], file, -1)
    ensures (forall i: nat :: i < cfg.m.numPieces ==> PieceOk(cfg.m, cfg.ok, file, i)) ==>
              Seeded(pieces[index := PIECE_COMPLETED], true)
  {
    var after := pieces[index := PIECE_COMPLETED];
    if forall i: nat :: i < cfg.m.numPieces ==> PieceOk(cfg.m, cfg.ok, file, i) {
      forall i: nat | i < |after|
        ensures after[i] == PIECE_COMPLETED
      {
        assert PieceOk(cfg.m, cfg.ok, file, i);
      }
    }
  }

  // ----- A peer goes

  lemma DisconnectInv(cfg: Config, missing: int, s: State, connfd: int)
    requires Inv(cfg, missing, s) && Enabled(cfg, s, Disconnect(connfd))
    ensures Inv(cfg, missing, Disconnected(s, connfd))
  {
    var k := Position(s.pool, connfd);
    assert s.pool[k] in s.pool;
    LeavePool(s.pool, s.pieces, s.avail, k, s.endGame);
    BackCounts(s, s.pool[k].pieces);
    BackVerified(cfg, s.pieces, s.pool[k].pieces, s.file);
  }

  /** The pool after peer number `k` has left. */
  lemma LeavePool(pool: seq<Peer>, pieces: seq<int>, avail: seq<int>, k: nat, endGame: bool)
    requires PeersOk(pool) && k < |pool| && |avail| == |pieces| == |pool[k].pieces|
    requires TallyIs(pool, PEER_HAVE, avail) && Owned(pool, pieces, endGame)
    ensures var p := pool[k];
            var pool' := RemoveIp(pool, p.ip);
            && PeersOk(pool') && Sized(pool', |pieces|)
            && TallyIs(pool', PEER_HAVE, AvailWithout(avail, p.pieces))
            && Owned(pool', PiecesBack(pieces, p.pieces), endGame)
            && forall c, i :: StillOffers(pool, c, i) && c != p.connfd ==> StillOffers(pool', c, i)
  {
    assert pool[k] in pool;
    RemovePeer(pool, k, |pieces|);
    RemoveIpIs(pool, k);
    TallyIsRemove(pool, k, PEER_HAVE, avail, AvailWithout(avail, pool[k].pieces));
    if !endGame {
      OwnedWithout(pool, pieces, k);
    }
  }

  lemma BackCounts(s: State, states: seq<int>)
    requires |states| == |s.pieces| && PiecesOk(s.pieces, s.endGame) && Seeded(s.pieces, s.isSeed)
    requires Conserved(s.pieces, s.have, s.rest, s.returned, s.fanned, s.endGame)
    requires Windowed(InFlight(s.pieces), s.requesting, s.locked, s.requester, s.endGame)
    ensures var pieces' := PiecesBack(s.pieces, states);
            var back := BackCount(s.pieces, states, |s.pieces|);
            && PiecesOk(pieces', s.endGame) && Seeded(pieces', s.isSeed)
            && Conserved(pieces', s.have, s.rest, s.returned + back, s.fanned, s.endGame)
            && Windowed(InFlight(pieces'), s.requesting - back, Released(s.requesting, s.locked, back),
                        s.requester, s.endGame)
  {
    var pieces' := PiecesBack(s.pieces, states);
    CountBack(s.pieces, states, |s.pieces|);
    assert s.pieces[..|s.pieces|] == s.pieces && pieces'[..|pieces'|] == pieces';
    ReleasedWindow(s.requesting, s.locked, BackCount(s.pieces, states, |s.pieces|));
  }

  lemma RemovePeer(pool: seq<Peer>, k: nat, n: nat)
    requires PeersOk(pool) && Sized(pool, n) && k < |pool|
    ensures PeersOk(RemoveIp(pool, pool[k].ip)) && Sized(RemoveIp(pool, pool[k].ip), n)
    ensures forall c, i :: StillOffers(pool, c, i) && c != pool[k].connfd ==>
              StillOffers(RemoveIp(pool, pool[k].ip), c, i)
  {
    RemoveIpIs(pool, k);
    var after := RemoveIp(pool, pool[k].ip);
    assert forall p <- after :: p in pool;
    forall c, i | StillOffers(pool, c, i) && c != pool[k].connfd
      ensures StillOffers(after, c, i)
    {
      RemoveKeepsPeers(pool, k, c);
    }
  }

  lemma BackVerified(cfg: Config, pieces: seq<int>, states: seq<int>, file: seq<byte>)
    requires ValidMeta(cfg.m) && |pieces| == |states| == cfg.m.numPieces && cfg.m.size <= |file|
    requires Verified(cfg, pieces, file, -1)
    ensures Verified(cfg, PiecesBack(pieces, states), file, -1)
  {
  }

  lemma OwnedWithout(pool: seq<Peer>, pieces: seq<int>, k: nat)
    requires TallyIs(pool, PEER_BE_REQUESTED, Flags(pieces)) && PeersOk(pool) && k < |pool|
    ensures |pool[k].pieces| == |pieces|
    ensures TallyIs(pool[..k] + pool[k + 1..], PEER_BE_REQUESTED, Flags(PiecesBack(pieces, pool[k].pieces)))
    ensures forall i :: 0 <= i < |pieces| && pool[k].pieces[i] == PEER_BE_REQUESTED ==> pieces[i] == PIECE_REQUESTING
  {
    var p := pool[k];
    assert p in pool;
    forall i: nat | i < |pieces| && p.pieces[i] == PEER_BE_REQUESTED
      ensures pieces[i] == PIECE_REQUESTING
    {
      if pieces[i] != PIECE_REQUESTING {
        NobodyAsked(pool, pieces, i, k);
      }
    }
    TallyIsRemove(pool, k, PEER_BE_REQUESTED, Flags(pieces), Flags(PiecesBack(pieces, p.pieces)));
  }

  /** Any release at five or more frees the mutex; below five nothing changes. */
  lemma {:induction false} ReleasedWindow(requesting: int, locked: bool, n: nat)
    ensures Released(requesting, locked, n) == (locked && (n == 0 || requesting < 5))
    decreases n
  {
    if n > 0 {
      ReleasedWindow(requesting - 1, if requesting >= 5 then false else locked, n - 1);
    }
  }

  // ----- The end game

  lemma FanOutInv(cfg: Config, missing: int, s: State, index: nat)
    requires Inv(cfg, missing, s) && Enabled(cfg, s, FanOut(index))
    ensures Inv(cfg, missing, FannedOut(cfg.m, s, index))
  {
    MovePiece(s.pieces, index, PIECE_REQUESTING);
    FannedTallies(s.pool, index, s.avail);
    FannedRequests(cfg.m, s.pool, index);
    FannedPeers(s.pool, index);
  }

  lemma FannedPeers(pool: seq<Peer>, index: nat)
    requires PeersOk(pool)
    ensures PeersOk(FannedPool(pool, index))
  {
    FannedKeepsPositions(pool, index);
    forall p | p in FannedPool(pool, index)
      ensures p.connfd >= 0 && StatesOk(p.pieces)
    {
      var k :| 0 <= k < |pool| && FannedPool(pool, index)[k] == p;
      assert pool[k] in pool;
    }
  }

  lemma FannedTallies(pool: seq<Peer>, index: nat, want: seq<int>)
    requires TallyIs(pool, PEER_HAVE, want)
    ensures TallyIs(FannedPool(pool, index), PEER_HAVE, want)
  {
    forall p | p in FannedPool(pool, index)
      ensures |p.pieces| == |want|
    {
      var k :| 0 <= k < |pool| && FannedPool(pool, index)[k] == p;
      assert pool[k] in pool;
    }
    forall i: nat | i < |want| {
      FannedTally(pool, index, i);
    }
  }

  lemma {:induction false} FannedTally(pool: seq<Peer>, index: nat, i: nat)
    requires Covered(pool, i)
    ensures Covered(FannedPool(pool, index), i)
    ensures Tally(FannedPool(pool, index), i, PEER_HAVE) == Tally(pool, i, PEER_HAVE)
  {
    if pool != [] {
      var n := |pool| - 1;
      FannedTally(pool[..n], index, i);
      assert FannedPool(pool, index)[..n] == FannedPool(pool[..n], index);
    }
  }

  lemma {:induction false} FannedRequests(m: Meta, pool: seq<Peer>, index: nat)
    requires index < m.numPieces
    ensures forall x <- FannedSent(m, pool, index) :: IsRequest(m, x.wanted)
  {
    if pool != [] {
      FannedRequests(m, pool[..|pool| - 1], index);
    }
  }

  // ----- Every event

  /** Every event keeps the invariant. */
  lemma NextInv(cfg: Config, missing: int, s: State, e: Event)
    requires Inv(cfg, missing, s) && Enabled(cfg, s, e)
    ensures Inv(cfg, missing, Next(cfg, s, e))
  {
    match e
    case AddPeer(connfd, ip, initial) => AddPeerInv(cfg, missing, s, connfd, ip, initial);
    case HandleBitfield(connfd, bits) => BitfieldInv(cfg, missing, s, connfd, bits);
    case Begin(index, connfd) => BeginInv(cfg, missing, s, index, connfd);
    case Acquire =>
    case Send => SendInv(cfg, missing, s);
    case Deliver(connfd, index, begin, block) => DeliverInv(cfg, missing, s, connfd, index, begin, block);
    case Disconnect(connfd) => DisconnectInv(cfg, missing, s, connfd);
    case EnterEndGame =>
    case FanOut(index) => FanOutInv(cfg, missing, s, index);
  }
}
