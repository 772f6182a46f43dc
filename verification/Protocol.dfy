/** The download protocol of peer_wire.c as a state machine: one event for each atomic step. */
module Protocol {
  import opened Bytes
  import opened Bitfield
  import opened Geometry
  import opened FileIo
  import opened Assembly

  // ----- The constants of mytorrent.h

  const PIECE_REQUESTING: int := 0
  const PIECE_COMPLETED: int := 1
  const PIECE_HAVNT: int := 2
  const PIECE_END_GAME_GETED: int := 3

  const PEER_HAVNT: int := 0
  const PEER_HAVE: int := 1
  const PEER_BE_REQUESTED: int := 2

  lemma StateNumbers()
    ensures [PIECE_REQUESTING, PIECE_COMPLETED, PIECE_HAVNT, PIECE_END_GAME_GETED] == [0, 1, 2, 3]
    ensures [PEER_HAVNT, PEER_HAVE, PEER_BE_REQUESTED] == [0, 1, 2]
  {
  }

  // ----- State

  /** What is known of a connected peer (peer_t). */
  datatype Peer = Peer(connfd: int, ip: string, pieces: seq<int>, downloaded: int)

  /** Where the requester thread is between two requests: LOCK_PIECE first counts and then, from the
      fifth piece on, needs the mutex. */
  datatype Requester =
    | Idle
    | Waiting(index: nat, connfd: int)
    | Granted(index: nat, connfd: int)

  /** A sub-request sent to a peer. */
  datatype Sent = Sent(connfd: int, wanted: Wanted)

  /** The torrent and the verdict on piece bytes. */
  datatype Config = Config(m: Meta, ok: Check)

  /** The shared variables. The last three fields count, for the theorems only: requests of the normal
      phase, pieces returned by disconnects, and pieces fanned out in the end game. */
  datatype State = State(
    pieces: seq<int>,
    avail: seq<int>,
    pool: seq<Peer>,
    rest: int,
    have: int,
    requesting: int,
    locked: bool,
    requester: Requester,
    endGame: bool,
    isSeed: bool,
    file: seq<byte>,
    sent: seq<Sent>,
    issued: nat,
    returned: nat,
    fanned: nat)

  ghost predicate Shaped(cfg: Config, s: State) {
    && ValidMeta(cfg.m)
    && |s.pieces| == |s.avail| == cfg.m.numPieces
    && cfg.m.size <= |s.file|
    && Sized(s.pool, cfg.m.numPieces)
  }

  /** Every peer has a state for each of the `n` pieces. */
  ghost predicate Sized(pool: seq<Peer>, n: nat) {
    forall p <- pool :: |p.pieces| == n
  }

  // ----- Counting

  /** How many elements of `s` are `v`. */
  ghost function Count(s: seq<int>, v: int): (c: nat) {
    if s == [] then 0 else Count(s[..|s| - 1], v) + if s[|s| - 1] == v then 1 else 0
  }

  /** How many peers have at least state `level` for piece `i`. */
  ghost function Tally(pool: seq<Peer>, i: nat, level: int): (c: nat)
    requires forall p <- pool :: i < |p.pieces|
  {
    if pool == [] then 0
    else Tally(pool[..|pool| - 1], i, level) + if pool[|pool| - 1].pieces[i] >= level then 1 else 0
  }

  // ----- Peers

  ghost predicate Connected(pool: seq<Peer>, connfd: int) {
    exists p <- pool :: p.connfd == connfd
  }

  /** The position of a connection in the pool. */
  ghost function Position(pool: seq<Peer>, connfd: int): (k: nat)
    requires Connected(pool, connfd)
    ensures k < |pool| && pool[k].connfd == connfd
  {
    if pool[0].connfd == connfd then 0 else
      assert Connected(pool[1..], connfd) by {
        var p :| p in pool && p.connfd == connfd;
        assert p in pool[1..];
      }
      1 + Position(pool[1..], connfd)
  }

  /** find_peernode: somebody with this address is in the pool. */
  ghost predicate Known(pool: seq<Peer>, ip: string) {
    exists p <- pool :: p.ip == ip
  }

  /** peerpool_remove_node: the pool without the first peer that has this address. */
  function RemoveIp(pool: seq<Peer>, ip: string): (r: seq<Peer>) {
    if pool == [] then []
    else if pool[0].ip == ip then pool[1..]
    else [pool[0]] + RemoveIp(pool[1..], ip)
  }

  // ----- The two choices of the requester

  /** A piece that can be requested: not here yet, and some peer has it. */
  ghost predicate Candidate(pieces: seq<int>, avail: seq<int>, i: int)
    requires |pieces| == |avail|
  {
    0 <= i < |pieces| && pieces[i] == PIECE_HAVNT && avail[i] > 0
  }

  /** which_piece_to_request returns `i`: the first of the rarest candidates, or -1 if there is none. */
  ghost predicate IsRarest(pieces: seq<int>, avail: seq<int>, i: int)
    requires |pieces| == |avail|
  {
    if i == -1 then forall j :: !Candidate(pieces, avail, j)
    else
      && Candidate(pieces, avail, i)
      && forall j :: Candidate(pieces, avail, j) ==> avail[i] <= avail[j] && (j < i ==> avail[i] < avail[j])
  }

  ghost predicate Offers(pool: seq<Peer>, k: int, index: nat) {
    0 <= k < |pool| && index < |pool[k].pieces| && pool[k].pieces[index] > PEER_HAVNT
  }

  /** find_peer_have_piece returns the peer at position `k`: the first least-used one that has the piece, or none. */
  ghost predicate IsLeastUsed(pool: seq<Peer>, index: nat, k: int) {
    if k == -1 then forall j :: !Offers(pool, j, index)
    else
      && Offers(pool, k, index)
      && forall j :: Offers(pool, j, index) ==>
           pool[k].downloaded <= pool[j].downloaded && (j < k ==> pool[k].downloaded < pool[j].downloaded)
  }

  // ----- Events

  datatype Event =
    | AddPeer(connfd: int, ip: string, initial: seq<int>)
    | HandleBitfield(connfd: int, bits: seq<bv8>)
    | Begin(index: nat, connfd: int)
    | Acquire
    | Send
    | Deliver(connfd: int, index: nat, begin: int, block: seq<byte>)
    | Disconnect(connfd: int)
    | EnterEndGame
    | FanOut(index: nat)

  ghost function SentSubs(connfd: int, index: nat, subs: seq<Sub>): (r: seq<Sent>)
    ensures |r| == |subs|
  {
    seq(|subs|, j requires 0 <= j < |subs| => Sent(connfd, Wanted(index, subs[j])))
  }

  /** What request_a_piece sends. */
  ghost function SentFor(m: Meta, connfd: int, index: nat): (r: seq<Sent>) {
    SentSubs(connfd, index, Subs(m, index))
  }

  /** UNLOCK_PIECE, `n` times: each turn releases the mutex if five or more pieces are counted. */
  function Released(requesting: int, locked: bool, n: nat): (stillLocked: bool)
    decreases n
  {
    if n == 0 then locked
    else if requesting >= 5 then Released(requesting - 1, false, n - 1)
    else Released(requesting - 1, locked, n - 1)
  }

  // AddPeer: handshake_handler refuses an address that is already in the pool.

  ghost function Added(s: State, connfd: int, ip: string, initial: seq<int>): State {
    if Known(s.pool, ip) then s else s.(pool := [Peer(connfd, ip, initial, 0)] + s.pool)
  }

  // HandleBitfield

  function MarkedPieces(pieces: seq<int>, bits: seq<bv8>): (r: seq<int>)
    ensures |r| == |pieces|
  {
    seq(|pieces|, i requires 0 <= i < |pieces| => if GetBit(bits, i) == 1 then PEER_HAVE else pieces[i])
  }

  function MarkedAvail(avail: seq<int>, bits: seq<bv8>): (r: seq<int>)
    ensures |r| == |avail|
  {
    seq(|avail|, i requires 0 <= i < |avail| => avail[i] + if GetBit(bits, i) == 1 then 1 else 0)
  }

  ghost function BitfieldHandled(s: State, connfd: int, bits: seq<bv8>): State
    requires Connected(s.pool, connfd)
  {
    var k := Position(s.pool, connfd);
    var p := s.pool[k];
    s.(pool := s.pool[k := p.(pieces := MarkedPieces(p.pieces, bits))], avail := MarkedAvail(s.avail, bits))
  }

  // Begin, Acquire, Send: a request of the normal phase

  ghost function Begun(s: State, index: nat, connfd: int): State {
    s.(requesting := s.requesting + 1,
       requester := if s.requesting + 1 >= 5 then Waiting(index, connfd) else Granted(index, connfd))
  }

  ghost function PieceAsked(m: Meta, s: State, index: nat, connfd: int): State
    requires Connected(s.pool, connfd) && index < |s.pieces|
    requires index < |s.pool[Position(s.pool, connfd)].pieces|
  {
    var k := Position(s.pool, connfd);
    var p := s.pool[k];
    s.(pieces := s.pieces[index := PIECE_REQUESTING],
       pool := s.pool[k := p.(pieces := p.pieces[index := PEER_BE_REQUESTED], downloaded := p.downloaded + 1)],
       rest := s.rest - 1,
       requester := Idle,
       sent := s.sent + SentFor(m, connfd, index),
       issued := s.issued + 1)
  }

  // Deliver: handle_piece

  /** In the end game only the first peer to deliver may write a piece. */
  ghost predicate Accepts(s: State, connfd: int, index: nat)
    requires index < |s.pieces|
  {
    !s.endGame || s.pieces[index] == PIECE_REQUESTING || s.pieces[index] == PIECE_END_GAME_GETED + connfd
  }

  ghost function Written(m: Meta, s: State, connfd: int, index: nat, begin: int, block: seq<byte>): State
    requires index < |s.pieces| && m.size <= |s.file|
  {
    s.(file := WriteAt(s.file, m.size, Start(m, index) + begin, block),
       pieces := if s.endGame then s.pieces[index := PIECE_END_GAME_GETED + connfd] else s.pieces)
  }

  ghost function Completed(cfg: Config, s: State, connfd: int, index: nat): State
    requires Shaped(cfg, s) && index < cfg.m.numPieces && Connected(s.pool, connfd)
  {
    var k := Position(s.pool, connfd);
    var p := s.pool[k];
    s.(pieces := s.pieces[index := PIECE_COMPLETED],
       have := s.have + 1,
       pool := s.pool[k := p.(pieces := p.pieces[index := PEER_HAVE])],
       requesting := s.requesting - 1,
       locked := Released(s.requesting, s.locked, 1),
       isSeed := s.isSeed || forall i: nat :: i < cfg.m.numPieces ==> PieceOk(cfg.m, cfg.ok, s.file, i))
  }

  ghost function Delivered(cfg: Config, s: State, connfd: int, index: nat, begin: int, block: seq<byte>): State
    requires Shaped(cfg, s) && index < cfg.m.numPieces && Connected(s.pool, connfd)
  {
    if !Accepts(s, connfd, index) then s
    else
      var w := Written(cfg.m, s, connfd, index, begin, block);
      if PieceOk(cfg.m, cfg.ok, w.file, index) then Completed(cfg, w, connfd, index) else w
  }

  // Disconnect: the end of message_handler

  /** A piece goes back to PIECE_HAVNT if it was being requested from the departing peer. */
  predicate GoesBack(pieces: seq<int>, states: seq<int>, i: nat)
    requires i < |pieces| == |states|
  {
    states[i] == PEER_BE_REQUESTED && pieces[i] == PIECE_REQUESTING
  }

  function PiecesBack(pieces: seq<int>, states: seq<int>): (r: seq<int>)
    requires |pieces| == |states|
    ensures |r| == |pieces|
  {
    seq(|pieces|, i requires 0 <= i < |pieces| => if GoesBack(pieces, states, i) then PIECE_HAVNT else pieces[i])
  }

  function BackCount(pieces: seq<int>, states: seq<int>, n: nat): (c: nat)
    requires n <= |pieces| == |states|
  {
    if n == 0 then 0 else BackCount(pieces, states, n - 1) + if GoesBack(pieces, states, n - 1) then 1 else 0
  }

  function AvailWithout(avail: seq<int>, states: seq<int>): (r: seq<int>)
    requires |avail| == |states|
    ensures |r| == |avail|
  {
    seq(|avail|, i requires 0 <= i < |avail| => avail[i] - if states[i] > PEER_HAVNT then 1 else 0)
  }

  ghost function Disconnected(s: State, connfd: int): State
    requires |s.pieces| == |s.avail| && Sized(s.pool, |s.pieces|) && Connected(s.pool, connfd)
  {
    var p := s.pool[Position(s.pool, connfd)];
    var back := BackCount(s.pieces, p.pieces, |s.pieces|);
    s.(pieces := PiecesBack(s.pieces, p.pieces),
       avail := AvailWithout(s.avail, p.pieces),
       pool := RemoveIp(s.pool, p.ip),
       requesting := s.requesting - back,
       locked := Released(s.requesting, s.locked, back),
       returned := s.returned + back)
  }

  // FanOut: a turn of the end-game loop

  function FannedPool(pool: seq<Peer>, index: nat): (r: seq<Peer>)
    ensures |r| == |pool|
  {
    seq(|pool|, k requires 0 <= k < |pool| =>
      var p := pool[k];
      if index < |p.pieces| && p.pieces[index] == PEER_HAVE
      then p.(pieces := p.pieces[index := PEER_BE_REQUESTED]) else p)
  }

  /** The requests of a fan-out, along the pool. */
  ghost function FannedSent(m: Meta, pool: seq<Peer>, index: nat): (r: seq<Sent>) {
    if pool == [] then []
    else
      var p := pool[|pool| - 1];
      FannedSent(m, pool[..|pool| - 1], index) +
      if index < |p.pieces| && p.pieces[index] == PEER_HAVE then SentFor(m, p.connfd, index) else []
  }

  ghost predicate SomebodyHas(pool: seq<Peer>, index: nat) {
    exists p <- pool :: index < |p.pieces| && p.pieces[index] == PEER_HAVE
  }

  ghost function FannedOut(m: Meta, s: State, index: nat): State
    requires index < |s.pieces|
  {
    s.(requesting := s.requesting + 1,
       locked := s.locked || s.requesting + 1 >= 5,
       pieces := if SomebodyHas(s.pool, index) then s.pieces[index := PIECE_REQUESTING] else s.pieces,
       pool := FannedPool(s.pool, index),
       sent := s.sent + FannedSent(m, s.pool, index),
       fanned := s.fanned + if SomebodyHas(s.pool, index) then 1 else 0)
  }

  // ----- Steps

  /** When a step can happen. Beyond the tests of the code, this states what the environment grants:
      a new peer's states are clear, a bitfield names no piece twice, a block stays inside a piece its sender is asked
      for, the peer chosen for a request stays until the request is sent, descriptors of open connections differ,
      and the end-game fan-out happens when the window is free. `Guards` says what depends on each of these. */
  ghost predicate Enabled(cfg: Config, s: State, e: Event)
    requires Shaped(cfg, s)
  {
    match e
    case AddPeer(connfd, ip, initial) =>
      connfd >= 0 && !Connected(s.pool, connfd)
      && |initial| == cfg.m.numPieces && forall i :: 0 <= i < |initial| ==> initial[i] == PEER_HAVNT
    case HandleBitfield(connfd, bits) =>
      Connected(s.pool, connfd) && Unmarked(s, connfd, bits)
    case Begin(index, connfd) => CanBegin(s, index, connfd)
    case Acquire => s.requester.Waiting? && !s.locked
    case Send => s.requester.Granted? && Connected(s.pool, s.requester.connfd) && s.requester.index < cfg.m.numPieces
    case Deliver(connfd, index, begin, block) =>
      Connected(s.pool, connfd) && index < cfg.m.numPieces
      && s.pool[Position(s.pool, connfd)].pieces[index] == PEER_BE_REQUESTED
      && StaysInside(cfg.m, index, begin, |block|)
    case Disconnect(connfd) =>
      Connected(s.pool, connfd) && (s.requester.Idle? || s.requester.connfd != connfd)
    case EnterEndGame =>
      s.requester.Idle? && !s.endGame && (s.isSeed || s.rest <= 5) && s.rest > 0 && cfg.m.numPieces - s.have <= 5
    case FanOut(index) =>
      s.endGame && !s.isSeed && IsRarest(s.pieces, s.avail, index) && (s.requesting + 1 >= 5 ==> !s.locked)
  }

  /** The requester is free, more than five requests are left, and this is its choice of piece and peer. */
  ghost predicate CanBegin(s: State, index: nat, connfd: int)
    requires |s.pieces| == |s.avail|
  {
    && s.requester.Idle? && !s.endGame && !s.isSeed && s.rest > 5
    && IsRarest(s.pieces, s.avail, index)
    && Connected(s.pool, connfd) && IsLeastUsed(s.pool, index, Position(s.pool, connfd))
  }

  /** No piece of the bitfield was already announced by the peer. */
  ghost predicate Unmarked(s: State, connfd: int, bits: seq<bv8>)
    requires Connected(s.pool, connfd)
  {
    var states := s.pool[Position(s.pool, connfd)].pieces;
    forall i :: 0 <= i < |states| && GetBit(bits, i) == 1 ==> states[i] == PEER_HAVNT
  }

  ghost function Next(cfg: Config, s: State, e: Event): State
    requires Shaped(cfg, s) && Enabled(cfg, s, e)
  {
    match e
    case AddPeer(connfd, ip, initial) => Added(s, connfd, ip, initial)
    case HandleBitfield(connfd, bits) => BitfieldHandled(s, connfd, bits)
    case Begin(index, connfd) => Begun(s, index, connfd)
    case Acquire => s.(locked := true, requester := Granted(s.requester.index, s.requester.connfd))
    case Send => PieceAsked(cfg.m, s, s.requester.index, s.requester.connfd)
    case Deliver(connfd, index, begin, block) => Delivered(cfg, s, connfd, index, begin, block)
    case Disconnect(connfd) => Disconnected(s, connfd)
    case EnterEndGame => s.(endGame := true)
    case FanOut(index) => FannedOut(cfg.m, s, index)
  }

  /** The start: the pieces on disk are checked, nobody is connected (init_pieces_state_arr,
      init_pieces_num_in_peers and the first lines of request_file). */
  ghost predicate Init(cfg: Config, s: State) {
    && Shaped(cfg, s)
    && (forall i: nat :: i < cfg.m.numPieces ==>
          s.avail[i] == 0
          && s.pieces[i] == if PieceOk(cfg.m, cfg.ok, s.file, i) then PIECE_COMPLETED else PIECE_HAVNT)
    && s.rest == Count(s.pieces, PIECE_HAVNT)
    && s.have == cfg.m.numPieces - s.rest
    && s.pool == [] && s.sent == []
    && s.requesting == 0 && !s.locked && s.requester.Idle?
    && !s.endGame && !s.isSeed
    && s.issued == s.returned == s.fanned == 0
  }
}
