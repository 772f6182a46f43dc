/** From which states a download can still be completed. */
module Completion {
  import opened Bytes
  import opened Bitfield
  import opened Geometry
  import opened FileIo
  import opened Assembly
  import opened Protocol
  import opened Counting
  import opened Invariant
  import opened Theorems
  import opened Reachability

  // ----- Choices exist

  /** Some candidate is the rarest. */
  lemma {:induction false} RarestExists(pieces: seq<int>, avail: seq<int>, best: int, n: nat) returns (i: nat)
    requires |pieces| == |avail| && n <= |pieces| && Candidate(pieces, avail, best)
    requires forall j :: Candidate(pieces, avail, j) && j < n ==>
               avail[best] <= avail[j] && (j < best ==> avail[best] < avail[j])
    ensures IsRarest(pieces, avail, i)
    decreases |pieces| - n
  {
    if n == |pieces| {
      i := best;
    } else if Candidate(pieces, avail, n) && (avail[n] < avail[best] || (avail[n] == avail[best] && n < best)) {
      i := RarestExists(pieces, avail, n, n + 1);
    } else {
      i := RarestExists(pieces, avail, best, n + 1);
    }
  }

  /** Some peer that offers a piece is the first least-used one. */
  lemma {:induction false} LeastUsedExists(pool: seq<Peer>, index: nat, best: int, n: nat) returns (k: nat)
    requires n <= |pool| && Offers(pool, best, index)
    requires forall j :: Offers(pool, j, index) && j < n ==>
               pool[best].downloaded <= pool[j].downloaded && (j < best ==> pool[best].downloaded < pool[j].downloaded)
    ensures k < |pool| && IsLeastUsed(pool, index, k)
    decreases |pool| - n
  {
    if n == |pool| {
      k := best;
    } else if Offers(pool, n, index)
           && (pool[n].downloaded < pool[best].downloaded
               || (pool[n].downloaded == pool[best].downloaded && n < best)) {
      k := LeastUsedExists(pool, index, n, n + 1);
    } else {
      k := LeastUsedExists(pool, index, best, n + 1);
    }
  }

  // ----- Whole pieces arrive

  /** A file whose pieces all pass the check. */
  ghost predicate IsSeed(cfg: Config, seed: seq<byte>) {
    && ValidMeta(cfg.m) && cfg.m.size <= |seed|
    && forall i: nat :: i < cfg.m.numPieces ==> PieceOk(cfg.m, cfg.ok, seed, i)
  }

  /** Bytes that make piece `i` complete. */
  ghost predicate Passes(cfg: Config, bytes: seq<byte>, i: nat)
    requires ValidMeta(cfg.m) && i < cfg.m.numPieces
  {
    |bytes| == End(cfg.m, i) - Start(cfg.m, i) && cfg.ok(bytes, i)
  }

  lemma SeedPasses(cfg: Config, seed: seq<byte>, i: nat)
    requires IsSeed(cfg, seed) && i < cfg.m.numPieces
    ensures Passes(cfg, PieceBytes(cfg.m, seed, i), i)
  {
    PieceInside(cfg.m, i);
    assert PieceOk(cfg.m, cfg.ok, seed, i);
  }

  lemma WholeFits(cfg: Config, bytes: seq<byte>, file: seq<byte>, i: nat)
    requires ValidMeta(cfg.m) && i < cfg.m.numPieces && cfg.m.size <= |file| && Passes(cfg, bytes, i)
    ensures StaysInside(cfg.m, i, 0, |bytes|)
    ensures PieceOk(cfg.m, cfg.ok, WriteAt(file, cfg.m.size, Start(cfg.m, i) + 0, bytes), i)
  {
    PieceInside(cfg.m, i);
    var after := WriteAt(file, cfg.m.size, Start(cfg.m, i) + 0, bytes);
    var at := Start(cfg.m, i);
    assert Clipped(cfg.m.size, at, |bytes|) == |bytes|;
    assert after == file[..at] + bytes + file[at + |bytes|..];
    assert PieceBytes(cfg.m, after, i) == bytes;
  }

  /** A peer that is asked for a piece delivers all of it as one block, and the piece is complete. */
  lemma WholeArrives(cfg: Config, missing: int, s: State, bytes: seq<byte>, k: nat, i: nat)
    requires Inv(cfg, missing, s) && AskedOf(s, k, i) && i < cfg.m.numPieces && Passes(cfg, bytes, i)
    requires Accepts(s, s.pool[k].connfd, i)
    ensures Enabled(cfg, s, Deliver(s.pool[k].connfd, i, 0, bytes))
    ensures var t := Next(cfg, s, Deliver(s.pool[k].connfd, i, 0, bytes));
            var p := s.pool[k];
            && Inv(cfg, missing, t)
            && (t.isSeed <==> s.isSeed || forall j :: 0 <= j < |t.pieces| ==> t.pieces[j] == PIECE_COMPLETED)
            && t == s.(pieces := s.pieces[i := PIECE_COMPLETED], have := s.have + 1,
                       pool := s.pool[k := p.(pieces := p.pieces[i := PEER_HAVE])],
                       requesting := s.requesting - 1, locked := s.locked && s.requesting < 5,
                       isSeed := t.isSeed, file := t.file)
  {
    hide WriteAt, StaysInside, PieceOk, Passes;
    var connfd := s.pool[k].connfd;
    var e := Deliver(connfd, i, 0, bytes);
    PositionIs(s.pool, k);
    WholeFits(cfg, bytes, s.file, i);
    NextInv(cfg, missing, s, e);
    ReleasedWindow(s.requesting, s.locked, 1);
    var t := Next(cfg, s, e);
    AllVerified(cfg, t.pieces, t.file);
    assert s.pieces[i := PIECE_END_GAME_GETED + connfd][i := PIECE_COMPLETED] == s.pieces[i := PIECE_COMPLETED];
  }

  lemma AllVerified(cfg: Config, pieces: seq<int>, file: seq<byte>)
    requires ValidMeta(cfg.m) && |pieces| == cfg.m.numPieces && cfg.m.size <= |file| && Verified(cfg, pieces, file, -1)
    ensures (forall i: nat :: i < cfg.m.numPieces ==> PieceOk(cfg.m, cfg.ok, file, i)) <==>
            (forall j :: 0 <= j < |pieces| ==> pieces[j] == PIECE_COMPLETED)
  {
    hide PieceOk;
    if forall j :: 0 <= j < |pieces| ==> pieces[j] == PIECE_COMPLETED {
    } else {
      var j: nat :| j < |pieces| && pieces[j] != PIECE_COMPLETED;
      assert !PieceOk(cfg.m, cfg.ok, file, j);
    }
  }

  // ----- A peer that has everything

  lemma {:induction false} FreshConnection(pool: seq<Peer>) returns (connfd: nat, length: nat)
    ensures forall p <- pool :: p.connfd < connfd && |p.ip| < length
  {
    if pool == [] {
      return 0, 0;
    }
    connfd, length := FreshConnection(pool[1..]);
    var first := pool[0];
    if connfd <= first.connfd {
      connfd := first.connfd + 1;
    }
    if length <= |first.ip| {
      length := |first.ip| + 1;
    }
  }

  function AllBits(n: nat): (bits: seq<bv8>) {
    seq(n / 8 + 1, _ => 0xFF)
  }

  lemma AllBitsAreSet(n: nat, i: nat)
    requires i < n
    ensures GetBit(AllBits(n), i) == 1
  {
    MaskIsShift(7 - i % 8);
    EveryMask(7 - i % 8);
  }

  lemma EveryMask(k: nat)
    requires k < 8
    ensures (0xFF as bv8) & Mask(k) != 0
  {
  }

  /** The first peer of the pool announced every piece. */
  ghost predicate Saint(pool: seq<Peer>, n: nat) {
    pool != [] && |pool[0].pieces| == n && forall i :: 0 <= i < n ==> pool[0].pieces[i] >= PEER_HAVE
  }

  /** What the handshake and the bitfield of such a peer do. */
  lemma SaintAnnounces(s: State, connfd: int, ip: string, n: nat)
    requires Distinct(s.pool) && !Connected(s.pool, connfd) && !Known(s.pool, ip)
    ensures var t := Added(s, connfd, ip, seq(n, _ => PEER_HAVNT));
            && Connected(t.pool, connfd) && Unmarked(t, connfd, AllBits(n))
            && var u := BitfieldHandled(t, connfd, AllBits(n));
               u == s.(pool := [Peer(connfd, ip, seq(n, _ => PEER_HAVE), 0)] + s.pool, avail := u.avail)
  {
    var t := Added(s, connfd, ip, seq(n, _ => PEER_HAVNT));
    ConsKeepsPositions(s.pool, t.pool[0]);
    PositionIs(t.pool, 0);
    forall i | 0 <= i < n
      ensures GetBit(AllBits(n), i) == 1
    {
      AllBitsAreSet(n, i);
    }
    assert MarkedPieces(seq(n, _ => PEER_HAVNT), AllBits(n)) == seq(n, _ => PEER_HAVE);
  }

  /** Such a peer can join at any time. */
  lemma SaintJoins(cfg: Config, missing: int, s: State) returns (es: seq<Event>)
    requires Inv(cfg, missing, s)
    ensures Legal(cfg, s, es)
    ensures var t := After(cfg, s, es);
            && Inv(cfg, missing, t) && t == s.(pool := t.pool, avail := t.avail)
            && |t.pool| == |s.pool| + 1 && t.pool[1..] == s.pool
            && |t.pool[0].pieces| == cfg.m.numPieces
            && forall i :: 0 <= i < cfg.m.numPieces ==> t.pool[0].pieces[i] == PEER_HAVE
  {
    var connfd, length := FreshConnection(s.pool);
    var ip: string := seq(length, _ => '0');
    var n := cfg.m.numPieces;
    SaintAnnounces(s, connfd, ip, n);
    var e, f := AddPeer(connfd, ip, seq(n, _ => PEER_HAVNT)), HandleBitfield(connfd, AllBits(n));
    hide BitfieldHandled, Unmarked, AllBits, MarkedAvail;
    es := [e, f];
    AddPeerInv(cfg, missing, s, connfd, ip, e.initial);
    TwoEvents(cfg, missing, s, e, f);
  }

  lemma TwoEvents(cfg: Config, missing: int, s: State, e: Event, f: Event)
    requires Inv(cfg, missing, s) && Enabled(cfg, s, e)
    requires Shaped(cfg, Next(cfg, s, e)) && Enabled(cfg, Next(cfg, s, e), f)
    ensures Legal(cfg, s, [e, f]) && After(cfg, s, [e, f]) == Next(cfg, Next(cfg, s, e), f)
    ensures Inv(cfg, missing, After(cfg, s, [e, f]))
  {
    hide Enabled, Next;
    var t := Next(cfg, s, e);
    NextInv(cfg, missing, s, e);
    NextInv(cfg, missing, t, f);
    OneMoreEvent(cfg, t, [f]);
    OneMoreEvent(cfg, s, [e, f]);
  }

  // ----- The normal phase

  /** The normal phase of a download from which nothing was returned, with a peer that has everything. */
  ghost predicate Normal(cfg: Config, missing: int, s: State) {
    && Inv(cfg, missing, s) && missing > 5 && !s.endGame && s.returned == 0
    && Saint(s.pool, cfg.m.numPieces)
  }

  /** What is left to do before the end game can open. */
  ghost function Work(s: State): int {
    8 * s.rest + 2 * InFlight(s.pieces)
    + match s.requester case Idle => 2 case Waiting(_, _) => 1 case Granted(_, _) => 0
  }

  /** `e` is a step of the normal phase towards the end game. */
  ghost predicate Advances(cfg: Config, missing: int, s: State, e: Event)
    requires Shaped(cfg, s)
  {
    Enabled(cfg, s, e) && Normal(cfg, missing, Next(cfg, s, e)) && Work(Next(cfg, s, e)) < Work(s)
  }

  lemma SendAdvances(cfg: Config, missing: int, s: State)
    requires Normal(cfg, missing, s) && s.requester.Granted?
    ensures Advances(cfg, missing, s, Send)
  {
    NextInv(cfg, missing, s, Send);
    MovePiece(s.pieces, s.requester.index, PIECE_REQUESTING);
  }

  lemma AcquireAdvances(cfg: Config, missing: int, s: State)
    requires Normal(cfg, missing, s) && s.requester.Waiting? && !s.locked
    ensures Advances(cfg, missing, s, Acquire)
  {
    NextInv(cfg, missing, s, Acquire);
  }

  lemma DeliveryAdvances(cfg: Config, missing: int, s: State, seed: seq<byte>) returns (e: Event)
    requires Normal(cfg, missing, s) && IsSeed(cfg, seed) && InFlight(s.pieces) > 0
    ensures Advances(cfg, missing, s, e)
  {
    CountPositive(s.pieces, PIECE_REQUESTING);
    var i: nat :| i < |s.pieces| && s.pieces[i] == PIECE_REQUESTING;
    RequestedOfExactlyOne(cfg, missing, s, i);
    var k: nat :| AskedOf(s, k, i);
    var bytes := PieceBytes(cfg.m, seed, i);
    SeedPasses(cfg, seed, i);
    e := Deliver(s.pool[k].connfd, i, 0, bytes);
    WholeArrives(cfg, missing, s, bytes, k, i);
    MovePiece(s.pieces, i, PIECE_COMPLETED);
  }

  /** A missing piece that somebody has makes which_piece_to_request succeed. */
  lemma SomePieceIsRarest(pool: seq<Peer>, pieces: seq<int>, avail: seq<int>, k: nat, i: nat) returns (index: nat)
    requires TallyIs(pool, PEER_HAVE, avail) && |pieces| == |avail| && i < |pieces| && pieces[i] == PIECE_HAVNT
    requires k < |pool| && |pool[k].pieces| == |pieces| && pool[k].pieces[i] >= PEER_HAVE
    ensures IsRarest(pieces, avail, index) && index < |pieces|
    ensures pieces[index] == PIECE_HAVNT && exists l :: Offers(pool, l, index)
  {
    TallyPositive(pool, i, PEER_HAVE);
    index := RarestExists(pieces, avail, i, 0);
    assert Candidate(pieces, avail, index);
    TallyPositive(pool, index, PEER_HAVE);
    var l: nat :| l < |pool| && pool[l].pieces[index] >= PEER_HAVE;
    assert Offers(pool, l, index);
  }

  lemma BeginAdvances(cfg: Config, missing: int, s: State) returns (e: Event)
    requires Normal(cfg, missing, s) && s.requester.Idle? && s.rest > 5
    ensures Advances(cfg, missing, s, e)
  {
    PiecesConserved(cfg, missing, s);
    CountPositive(s.pieces, PIECE_HAVNT);
    var i: nat :| i < |s.pieces| && s.pieces[i] == PIECE_HAVNT;
    var index := SomePieceIsRarest(s.pool, s.pieces, s.avail, 0, i);
    var l :| Offers(s.pool, l, index);
    var k := LeastUsedExists(s.pool, index, l, 0);
    hide IsRarest, IsLeastUsed, TallyIs, PieceOk;
    PositionIs(s.pool, k);
    e := Begin(index, s.pool[k].connfd);
    BeginInv(cfg, missing, s, index, s.pool[k].connfd);
  }

  /** Until the end game can open, there is such a step. */
  lemma NormalAdvances(cfg: Config, missing: int, s: State, seed: seq<byte>) returns (e: Event)
    requires Normal(cfg, missing, s) && IsSeed(cfg, seed) && !Enabled(cfg, s, EnterEndGame)
    ensures Advances(cfg, missing, s, e)
  {
    PiecesConserved(cfg, missing, s);
    EndGameOpensExactly(cfg, missing, s);
    WindowOfFive(cfg, missing, s, []);
    if s.requester.Granted? {
      SendAdvances(cfg, missing, s);
      e := Send;
    } else if s.requester.Waiting? && !s.locked {
      AcquireAdvances(cfg, missing, s);
      e := Acquire;
    } else if InFlight(s.pieces) > 0 {
      e := DeliveryAdvances(cfg, missing, s, seed);
    } else {
      e := BeginAdvances(cfg, missing, s);
    }
  }

  /** So the end game opens. */
  lemma {:induction false} EndGameIsReached(cfg: Config, missing: int, s: State, seed: seq<byte>)
    returns (es: seq<Event>)
    requires Normal(cfg, missing, s) && IsSeed(cfg, seed)
    ensures Legal(cfg, s, es)
    ensures var t := After(cfg, s, es); Normal(cfg, missing, t) && Enabled(cfg, t, EnterEndGame)
    decreases Work(s)
  {
    if Enabled(cfg, s, EnterEndGame) {
      es := [];
    } else {
      PiecesConserved(cfg, missing, s);
      var e := NormalAdvances(cfg, missing, s, seed);
      var more := EndGameIsReached(cfg, missing, Next(cfg, s, e), seed);
      es := [e] + more;
      assert es[1..] == more;
      OneMoreEvent(cfg, s, es);
    }
  }

  // ----- The end game

  /** Nothing is being requested or claimed. */
  ghost predicate Calm(pieces: seq<int>) {
    forall i :: 0 <= i < |pieces| ==> pieces[i] in {PIECE_HAVNT, PIECE_COMPLETED}
  }

  /** The window does not keep the end game from asking for a piece. */
  ghost predicate WindowFree(requesting: int, locked: bool) {
    requesting + 1 >= 5 ==> !locked
  }

  /** The end game can go on by itself: nothing is in flight, pieces are missing, and the first peer has them all
      and was not asked for them. */
  ghost predicate Ready(cfg: Config, missing: int, s: State) {
    && Inv(cfg, missing, s) && s.endGame && !s.isSeed
    && Calm(s.pieces) && Count(s.pieces, PIECE_HAVNT) > 0 && WindowFree(s.requesting, s.locked)
    && s.pool != [] && |s.pool[0].pieces| == cfg.m.numPieces
    && forall i :: 0 <= i < cfg.m.numPieces && s.pieces[i] == PIECE_HAVNT ==> s.pool[0].pieces[i] == PEER_HAVE
  }

  /** The end-game turn for the rarest piece. */
  lemma ReadyFansOut(cfg: Config, missing: int, s: State) returns (index: nat)
    requires Ready(cfg, missing, s)
    ensures Enabled(cfg, s, FanOut(index)) && index < cfg.m.numPieces && s.pieces[index] == PIECE_HAVNT
    ensures var u := FannedOut(cfg.m, s, index);
            && Inv(cfg, missing, u)
            && u == s.(requesting := s.requesting + 1, locked := s.locked || s.requesting + 1 >= 5,
                       pieces := s.pieces[index := PIECE_REQUESTING], pool := FannedPool(s.pool, index),
                       sent := u.sent, fanned := u.fanned)
            && AskedOf(u, 0, index)
  {
    CountPositive(s.pieces, PIECE_HAVNT);
    var i: nat :| i < |s.pieces| && s.pieces[i] == PIECE_HAVNT;
    index := SomePieceIsRarest(s.pool, s.pieces, s.avail, 0, i);
    hide IsRarest, TallyIs, PieceOk;
    FanOutInv(cfg, missing, s, index);
    assert s.pool[0] in s.pool;
  }

  /** One turn and its delivery: a piece less is missing, and with the last one the file is complete. */
  lemma ReadyAdvances(cfg: Config, missing: int, s: State, seed: seq<byte>) returns (es: seq<Event>)
    requires Ready(cfg, missing, s) && IsSeed(cfg, seed)
    ensures Legal(cfg, s, es)
    ensures var t := After(cfg, s, es);
            t.isSeed || (Ready(cfg, missing, t) && Count(t.pieces, PIECE_HAVNT) < Count(s.pieces, PIECE_HAVNT))
  {
    var index := ReadyFansOut(cfg, missing, s);
    var u := FannedOut(cfg.m, s, index);
    hide Enabled, Next, FannedOut;
    var bytes := PieceBytes(cfg.m, seed, index);
    SeedPasses(cfg, seed, index);
    WholeArrives(cfg, missing, u, bytes, 0, index);
    var e := Deliver(u.pool[0].connfd, index, 0, bytes);
    FanOutIsNext(cfg, s, index);
    TwoEvents(cfg, missing, s, FanOut(index), e);
    es := [FanOut(index), e];
    var t := Next(cfg, u, e);
    assert t.pieces == s.pieces[index := PIECE_COMPLETED];
    MovePiece(s.pieces, index, PIECE_COMPLETED);
    CountPositive(t.pieces, PIECE_HAVNT);
    if !t.isSeed {
      var j :| 0 <= j < |t.pieces| && t.pieces[j] != PIECE_COMPLETED;
      assert t.pieces[j] == PIECE_HAVNT;
    }
  }

  lemma FanOutIsNext(cfg: Config, s: State, index: nat)
    requires Shaped(cfg, s) && Enabled(cfg, s, FanOut(index)) && index < cfg.m.numPieces
    ensures Next(cfg, s, FanOut(index)) == FannedOut(cfg.m, s, index)
  {
  }

  /** So the file is completed. */
  lemma {:induction false} ReadyCompletes(cfg: Config, missing: int, s: State, seed: seq<byte>) returns (es: seq<Event>)
    requires Ready(cfg, missing, s) && IsSeed(cfg, seed)
    ensures Legal(cfg, s, es) && After(cfg, s, es).isSeed
    decreases Count(s.pieces, PIECE_HAVNT)
  {
    es := ReadyAdvances(cfg, missing, s, seed);
    var t := After(cfg, s, es);
    if !t.isSeed {
      var more := ReadyCompletes(cfg, missing, t, seed);
      RunsJoin(cfg, s, es, more);
      es := es + more;
    }
  }

  // ----- Which end games can still complete the file

  /** Somebody is asked for piece `i`. */
  ghost predicate AskedIn(pool: seq<Peer>, i: nat) {
    exists p <- pool :: i < |p.pieces| && p.pieces[i] == PEER_BE_REQUESTED
  }

  /** Somebody is asked for every piece that is being requested. */
  ghost predicate Pursued(pool: seq<Peer>, pieces: seq<int>) {
    forall i: nat :: i < |pieces| && pieces[i] == PIECE_REQUESTING ==> AskedIn(pool, i)
  }

  lemma PursuedInNormalPhase(cfg: Config, missing: int, s: State)
    requires Inv(cfg, missing, s) && !s.endGame
    ensures Pursued(s.pool, s.pieces)
  {
    forall i: nat | i < |s.pieces| && s.pieces[i] == PIECE_REQUESTING
      ensures AskedIn(s.pool, i)
    {
      RequestedOfExactlyOne(cfg, missing, s, i);
      var k: nat :| AskedOf(s, k, i);
      assert s.pool[k] in s.pool;
    }
  }

  lemma PursuedAfterReplace(pool: seq<Peer>, pieces: seq<int>, k: nat, q: Peer, pieces': seq<int>)
    requires Pursued(pool, pieces) && k < |pool| && |q.pieces| == |pool[k].pieces| == |pieces| == |pieces'|
    requires forall i: nat :: i < |pieces| && pieces'[i] == PIECE_REQUESTING ==>
               && pieces[i] == PIECE_REQUESTING
               && (pool[k].pieces[i] == PEER_BE_REQUESTED ==> q.pieces[i] == PEER_BE_REQUESTED)
    ensures Pursued(pool[k := q], pieces')
  {
    forall i: nat | i < |pieces'| && pieces'[i] == PIECE_REQUESTING
      ensures AskedIn(pool[k := q], i)
    {
      var j :| 0 <= j < |pool| && i < |pool[j].pieces| && pool[j].pieces[i] == PEER_BE_REQUESTED;
      assert pool[k := q][j] in pool[k := q];
    }
  }

  lemma PursuedAfterDisconnect(pool: seq<Peer>, pieces: seq<int>, k: nat)
    requires Pursued(pool, pieces) && k < |pool| && |pool[k].pieces| == |pieces|
    ensures Pursued(pool[..k] + pool[k + 1..], PiecesBack(pieces, pool[k].pieces))
  {
    var after := pool[..k] + pool[k + 1..];
    forall i: nat | i < |pieces| && PiecesBack(pieces, pool[k].pieces)[i] == PIECE_REQUESTING
      ensures AskedIn(after, i)
    {
      var j :| 0 <= j < |pool| && i < |pool[j].pieces| && pool[j].pieces[i] == PEER_BE_REQUESTED;
      assert after[if j < k then j else j - 1] == pool[j];
    }
  }

  lemma PursuedAfterFanOut(pool: seq<Peer>, pieces: seq<int>, index: nat)
    requires Pursued(pool, pieces) && index < |pieces| && Sized(pool, |pieces|)
    ensures Pursued(FannedPool(pool, index),
                    if SomebodyHas(pool, index) then pieces[index := PIECE_REQUESTING] else pieces)
  {
    var after := FannedPool(pool, index);
    var pieces' := if SomebodyHas(pool, index) then pieces[index := PIECE_REQUESTING] else pieces;
    forall i: nat | i < |pieces'| && pieces'[i] == PIECE_REQUESTING
      ensures AskedIn(after, i)
    {
      var p :| p in pool && i < |p.pieces|
               && (p.pieces[i] == PEER_BE_REQUESTED || (i == index && p.pieces[i] == PEER_HAVE));
      var j :| 0 <= j < |pool| && pool[j] == p;
      assert after[j] in after;
    }
  }

  /** Every event keeps that. */
  lemma PursuedOneStep(cfg: Config, missing: int, s: State, e: Event)
    requires Inv(cfg, missing, s) && Enabled(cfg, s, e) && Pursued(s.pool, s.pieces)
    ensures var t := Next(cfg, s, e); Pursued(t.pool, t.pieces)
  {
    NextInv(cfg, missing, s, e);
    if !Next(cfg, s, e).endGame {
      PursuedInNormalPhase(cfg, missing, Next(cfg, s, e));
    } else if s.endGame {
      PursuedInEndGame(cfg, missing, s, e);
    }
  }

  lemma PursuedInEndGame(cfg: Config, missing: int, s: State, e: Event)
    requires Inv(cfg, missing, s) && Enabled(cfg, s, e) && Pursued(s.pool, s.pieces) && s.endGame
    ensures var t := Next(cfg, s, e); Pursued(t.pool, t.pieces)
  {
    hide PieceOk, WriteAt, TallyIs, Windowed, Count, FannedSent, StaysInside, Pursued;
    match e
    case AddPeer(connfd, ip, initial) =>
      PursuedAfterAdd(s.pool, s.pieces, Peer(connfd, ip, initial, 0));
    case HandleBitfield(c, bits) =>
      var k := Position(s.pool, c);
      assert s.pool[k] in s.pool;
      PursuedAfterReplace(s.pool, s.pieces, k, Next(cfg, s, e).pool[k], s.pieces);
    case Deliver(c, index, begin, block) =>
      var k := Position(s.pool, c);
      assert s.pool[k] in s.pool;
      var t := Next(cfg, s, e);
      if Accepts(s, c, index) {
        assert t.pieces[index] != PIECE_REQUESTING;
        PursuedAfterReplace(s.pool, s.pieces, k, t.pool[k], t.pieces);
        assert s.pool[k := s.pool[k]] == s.pool;
      }
    case Disconnect(c) =>
      var k := Position(s.pool, c);
      assert s.pool[k] in s.pool;
      RemoveIpIs(s.pool, k);
      PursuedAfterDisconnect(s.pool, s.pieces, k);
    case FanOut(index) =>
      assert Candidate(s.pieces, s.avail, index);
      PursuedAfterFanOut(s.pool, s.pieces, index);
    case _ =>
  }

  lemma PursuedAfterAdd(pool: seq<Peer>, pieces: seq<int>, p: Peer)
    requires Pursued(pool, pieces)
    ensures Pursued([p] + pool, pieces)
  {
    forall i: nat | i < |pieces| && pieces[i] == PIECE_REQUESTING
      ensures AskedIn([p] + pool, i)
    {
      var q :| q in pool && i < |q.pieces| && q.pieces[i] == PEER_BE_REQUESTED;
      assert q in [p] + pool;
    }
  }

  /** So it holds in every state of every run. */
  lemma {:induction false} PursuedInEveryRun(cfg: Config, missing: int, s: State, es: seq<Event>)
    requires Inv(cfg, missing, s) && Legal(cfg, s, es) && Pursued(s.pool, s.pieces)
    ensures var t := After(cfg, s, es); Inv(cfg, missing, t) && Pursued(t.pool, t.pieces)
    decreases |es|
  {
    if es != [] {
      PursuedOneStep(cfg, missing, s, es[0]);
      NextInv(cfg, missing, s, es[0]);
      PursuedInEveryRun(cfg, missing, Next(cfg, s, es[0]), es[1..]);
    }
  }

  /** No piece is claimed for a connection on which nobody is asked for it. */
  ghost predicate NoneLost(pool: seq<Peer>, pieces: seq<int>) {
    forall i: nat :: i < |pieces| && pieces[i] >= PIECE_END_GAME_GETED ==>
      !Unasked(pool, pieces[i] - PIECE_END_GAME_GETED, i)
  }

  /** An end game that can go on. */
  ghost predicate Hopeful(cfg: Config, missing: int, s: State) {
    && Inv(cfg, missing, s) && s.endGame && !s.isSeed
    && Pursued(s.pool, s.pieces) && NoneLost(s.pool, s.pieces)
  }

  /** Whoever can complete a piece that is being requested or claimed. */
  lemma SomebodyDelivers(cfg: Config, missing: int, s: State, i: nat) returns (k: nat)
    requires Hopeful(cfg, missing, s) && i < cfg.m.numPieces && s.pieces[i] !in {PIECE_HAVNT, PIECE_COMPLETED}
    ensures AskedOf(s, k, i) && Accepts(s, s.pool[k].connfd, i)
  {
    if s.pieces[i] == PIECE_REQUESTING {
      k :| 0 <= k < |s.pool| && i < |s.pool[k].pieces| && s.pool[k].pieces[i] == PEER_BE_REQUESTED;
    } else {
      var c := s.pieces[i] - PIECE_END_GAME_GETED;
      k :| 0 <= k < |s.pool| && s.pool[k].connfd == c && i < |s.pool[k].pieces|
           && s.pool[k].pieces[i] == PEER_BE_REQUESTED;
    }
  }

  /** Completing one piece takes no hope from the others. */
  lemma HopeStays(pool: seq<Peer>, pieces: seq<int>, k: nat, i: nat)
    requires Pursued(pool, pieces) && NoneLost(pool, pieces)
    requires k < |pool| && i < |pieces| == |pool[k].pieces|
    ensures var pool' := pool[k := pool[k].(pieces := pool[k].pieces[i := PEER_HAVE])];
            var pieces' := pieces[i := PIECE_COMPLETED];
            Pursued(pool', pieces') && NoneLost(pool', pieces')
  {
    var q := pool[k].(pieces := pool[k].pieces[i := PEER_HAVE]);
    var pieces' := pieces[i := PIECE_COMPLETED];
    PursuedAfterReplace(pool, pieces, k, q, pieces');
    forall j: nat | j < |pieces'| && pieces'[j] >= PIECE_END_GAME_GETED
      ensures !Unasked(pool[k := q], pieces'[j] - PIECE_END_GAME_GETED, j)
    {
      var c := pieces[j] - PIECE_END_GAME_GETED;
      var l :| 0 <= l < |pool| && pool[l].connfd == c && j < |pool[l].pieces| && pool[l].pieces[j] == PEER_BE_REQUESTED;
      assert pool[k := q][l] in pool[k := q];
    }
  }

  ghost function Busy(pieces: seq<int>): int {
    |pieces| - Count(pieces, PIECE_HAVNT) - Count(pieces, PIECE_COMPLETED)
  }

  lemma {:induction false} BusyCounts(pieces: seq<int>)
    ensures Busy(pieces) >= 0
  {
    if pieces != [] {
      BusyCounts(pieces[..|pieces| - 1]);
    }
  }

  /** A piece in flight arrives; if the window was full, it no longer is. */
  lemma OneIsDrained(cfg: Config, missing: int, s: State, seed: seq<byte>) returns (e: Event)
    requires Hopeful(cfg, missing, s) && IsSeed(cfg, seed) && !Calm(s.pieces)
    ensures Enabled(cfg, s, e)
    ensures var t := Next(cfg, s, e);
            && (t.isSeed || Hopeful(cfg, missing, t)) && WindowFree(t.requesting, t.locked)
            && Count(t.pieces, PIECE_HAVNT) == Count(s.pieces, PIECE_HAVNT) && Busy(t.pieces) < Busy(s.pieces)
            && (Calm(t.pieces) && Count(t.pieces, PIECE_HAVNT) == 0 ==> t.isSeed)
  {
    var i: nat :| i < |s.pieces| && s.pieces[i] !in {PIECE_HAVNT, PIECE_COMPLETED};
    var k := SomebodyDelivers(cfg, missing, s, i);
    hide Enabled, Next;
    var bytes := PieceBytes(cfg.m, seed, i);
    SeedPasses(cfg, seed, i);
    WholeArrives(cfg, missing, s, bytes, k, i);
    e := Deliver(s.pool[k].connfd, i, 0, bytes);
    HopeStays(s.pool, s.pieces, k, i);
    MovePiece(s.pieces, i, PIECE_COMPLETED);
    CountPositive(s.pieces[i := PIECE_COMPLETED], PIECE_HAVNT);
  }

  /** Everything in flight arrives. */
  lemma {:induction false} AllAreDrained(cfg: Config, missing: int, s: State, seed: seq<byte>) returns (es: seq<Event>)
    requires Hopeful(cfg, missing, s) && IsSeed(cfg, seed)
    ensures Legal(cfg, s, es)
    ensures var t := After(cfg, s, es);
            t.isSeed
            || (Hopeful(cfg, missing, t) && Calm(t.pieces)
                && Count(t.pieces, PIECE_HAVNT) == Count(s.pieces, PIECE_HAVNT)
                && (!Calm(s.pieces) ==> WindowFree(t.requesting, t.locked) && Count(t.pieces, PIECE_HAVNT) > 0)
                && (Calm(s.pieces) ==> t == s))
    decreases Busy(s.pieces)
  {
    if Calm(s.pieces) {
      es := [];
    } else {
      BusyCounts(s.pieces);
      var e := OneIsDrained(cfg, missing, s, seed);
      var t := Next(cfg, s, e);
      var more := [];
      if !t.isSeed {
        more := AllAreDrained(cfg, missing, t, seed);
      }
      es := [e] + more;
      assert es[1..] == more;
      OneMoreEvent(cfg, s, es);
    }
  }

  /** Nothing is in flight, and no piece is missing or the window is full. */
  ghost predicate Jammed(cfg: Config, missing: int, s: State) {
    && Inv(cfg, missing, s) && s.endGame && !s.isSeed && Calm(s.pieces)
    && (Count(s.pieces, PIECE_HAVNT) == 0 || !WindowFree(s.requesting, s.locked))
  }

  /** Then nothing ever happens to a piece again. */
  lemma JammedOneStep(cfg: Config, missing: int, s: State, e: Event)
    requires Jammed(cfg, missing, s) && Enabled(cfg, s, e)
    ensures var t := Next(cfg, s, e); Jammed(cfg, missing, t) && t.pieces == s.pieces
  {
    hide PieceOk, WriteAt, TallyIs, Windowed, FannedSent, StaysInside;
    NextInv(cfg, missing, s, e);
    CountPositive(s.pieces, PIECE_HAVNT);
    match e
    case Deliver(c, index, begin, block) =>
      assert s.pool[Position(s.pool, c)] in s.pool;
    case Disconnect(c) =>
      var p := s.pool[Position(s.pool, c)];
      assert p in s.pool;
      BackCountPositive(s.pieces, p.pieces, |s.pieces|);
      assert PiecesBack(s.pieces, p.pieces) == s.pieces;
    case _ =>
  }

  lemma {:induction false} JammedForEver(cfg: Config, missing: int, s: State, es: seq<Event>)
    requires Jammed(cfg, missing, s) && Legal(cfg, s, es)
    ensures var t := After(cfg, s, es); Jammed(cfg, missing, t) && t.pieces == s.pieces && !t.isSeed
    decreases |es|
  {
    if es != [] {
      JammedOneStep(cfg, missing, s, es[0]);
      JammedForEver(cfg, missing, Next(cfg, s, es[0]), es[1..]);
    }
  }

  /** An end game that is not jammed and has lost nothing can complete the file. */
  lemma HopefulCompletes(cfg: Config, missing: int, s: State, seed: seq<byte>) returns (es: seq<Event>)
    requires Hopeful(cfg, missing, s) && IsSeed(cfg, seed) && !Jammed(cfg, missing, s)
    ensures Legal(cfg, s, es) && After(cfg, s, es).isSeed
  {
    es := AllAreDrained(cfg, missing, s, seed);
    var t := After(cfg, s, es);
    if !t.isSeed {
      var joining := SaintJoins(cfg, missing, t);
      var u := After(cfg, t, joining);
      assert Ready(cfg, missing, u);
      var rest := ReadyCompletes(cfg, missing, u, seed);
      RunsJoin(cfg, t, joining, rest);
      RunsJoin(cfg, s, es, joining + rest);
      es := es + (joining + rest);
    }
  }

  /** Some run from `s` completes the file. */
  ghost predicate Completable(cfg: Config, s: State) {
    exists es :: Legal(cfg, s, es) && After(cfg, s, es).isSeed
  }

  /** In the end game, provided the pieces exist at all, the file can still be completed exactly if no piece is lost
      and the end game is not jammed. */
  lemma EndGameCompletableExactly(cfg: Config, missing: int, s: State, seed: seq<byte>)
    requires Inv(cfg, missing, s) && s.endGame && !s.isSeed && Pursued(s.pool, s.pieces) && IsSeed(cfg, seed)
    ensures Completable(cfg, s) <==> !Jammed(cfg, missing, s) && forall c, i :: !Lost(cfg, missing, s, c, i)
  {
    if c, i :| Lost(cfg, missing, s, c, i) {
      forall es | Legal(cfg, s, es)
        ensures !After(cfg, s, es).isSeed
      {
        LostForEver(cfg, missing, s, es, c, i);
      }
    } else if Jammed(cfg, missing, s) {
      forall es | Legal(cfg, s, es)
        ensures !After(cfg, s, es).isSeed
      {
        JammedForEver(cfg, missing, s, es);
      }
    } else {
      forall i: nat | i < |s.pieces| && s.pieces[i] >= PIECE_END_GAME_GETED
        ensures !Unasked(s.pool, s.pieces[i] - PIECE_END_GAME_GETED, i)
      {
        assert !Lost(cfg, missing, s, s.pieces[i] - PIECE_END_GAME_GETED, i);
      }
      var es := HopefulCompletes(cfg, missing, s, seed);
    }
  }

  /** In the normal phase of a download that misses more than five pieces, provided the pieces exist at all, the file
      can still be completed exactly if no piece was ever returned. */
  lemma NormalPhaseCompletableExactly(cfg: Config, missing: int, s: State, seed: seq<byte>)
    requires Inv(cfg, missing, s) && missing > 5 && !s.endGame && IsSeed(cfg, seed)
    ensures Completable(cfg, s) <==> s.returned == 0
  {
    if s.returned > 0 {
      forall es | Legal(cfg, s, es)
        ensures !After(cfg, s, es).isSeed
      {
        DoomedForEver(cfg, missing, s, es);
      }
    } else {
      var es := NormalCompletes(cfg, missing, s, seed);
    }
  }

  /** A peer with everything joins, the end game opens, and the file is completed. */
  lemma NormalCompletes(cfg: Config, missing: int, s: State, seed: seq<byte>) returns (es: seq<Event>)
    requires Inv(cfg, missing, s) && missing > 5 && !s.endGame && s.returned == 0 && IsSeed(cfg, seed)
    ensures Legal(cfg, s, es) && After(cfg, s, es).isSeed
  {
    hide Enabled, Next;
    var joining := SaintJoins(cfg, missing, s);
    var t := After(cfg, s, joining);
    var opening := EndGameIsReached(cfg, missing, t, seed);
    var u := After(cfg, t, opening);
    EndGameOpensExactly(cfg, missing, u);
    CountPositive(u.pieces, PIECE_HAVNT);
    var closing := FromTheEndGame(cfg, missing, u, seed);
    RunsJoin(cfg, t, opening, closing);
    RunsJoin(cfg, s, joining, opening + closing);
    es := joining + (opening + closing);
  }

  /** Once the end game can open, the file can be completed. */
  lemma FromTheEndGame(cfg: Config, missing: int, s: State, seed: seq<byte>) returns (es: seq<Event>)
    requires Inv(cfg, missing, s) && IsSeed(cfg, seed) && Enabled(cfg, s, EnterEndGame) && !s.isSeed
    requires InFlight(s.pieces) == 0 && Count(s.pieces, PIECE_HAVNT) > 0
    ensures Legal(cfg, s, es) && After(cfg, s, es).isSeed
  {
    var t := Next(cfg, s, EnterEndGame);
    NextInv(cfg, missing, s, EnterEndGame);
    CountPositive(s.pieces, PIECE_REQUESTING);
    PursuedInNormalPhase(cfg, missing, s);
    var more := HopefulCompletes(cfg, missing, t, seed);
    es := [EnterEndGame] + more;
    assert es[1..] == more;
    OneMoreEvent(cfg, s, es);
  }

  /** A download that misses a piece at its start can be completed, provided the pieces exist at all. */
  lemma CompletionIsReachable(cfg: Config, s: State, seed: seq<byte>)
    requires Init(cfg, s) && s.rest > 0 && IsSeed(cfg, seed)
    ensures Completable(cfg, s)
  {
    InitInv(cfg, s);
    if s.rest > 5 {
      NormalPhaseCompletableExactly(cfg, s.rest, s, seed);
    } else {
      CountPositive(s.pieces, PIECE_REQUESTING);
      var es := FromTheEndGame(cfg, s.rest, s, seed);
    }
  }
}
