/** How the end game loses pieces, and from which starts it comes to that. */
module Losses {
  import opened Bytes
  import opened Bitfield
  import opened Geometry
  import opened FileIo
  import opened Assembly
  import opened Protocol
  import opened Counting
  import opened Invariant
  import opened Theorems
  import opened Reachability
  import opened Completion

  // ----- Claimed pieces

  /** A claimed piece can be completed by some run, provided its bytes exist, exactly if its claimer is still asked
      for it. */
  lemma ClaimCompletableExactly(cfg: Config, missing: int, s: State, connfd: int, i: nat, bytes: seq<byte>)
    requires Inv(cfg, missing, s) && s.endGame && connfd >= 0
    requires i < cfg.m.numPieces && s.pieces[i] == PIECE_END_GAME_GETED + connfd && Passes(cfg, bytes, i)
    ensures (exists es :: CompletesPiece(cfg, s, es, i)) <==> !Unasked(s.pool, connfd, i)
  {
    if Unasked(s.pool, connfd, i) {
      forall es | Legal(cfg, s, es)
        ensures !CompletesPiece(cfg, s, es, i)
      {
        LostForEver(cfg, missing, s, es, connfd, i);
      }
    } else {
      var k :| 0 <= k < |s.pool| && s.pool[k].connfd == connfd && i < |s.pool[k].pieces|
               && s.pool[k].pieces[i] == PEER_BE_REQUESTED;
      var e := Deliver(connfd, i, 0, bytes);
      WholeArrives(cfg, missing, s, bytes, k, i);
      hide Enabled, Next;
      OneMoreEvent(cfg, s, [e]);
      assert CompletesPiece(cfg, s, [e], i);
    }
  }

  ghost predicate CompletesPiece(cfg: Config, s: State, es: seq<Event>, i: nat) {
    && Legal(cfg, s, es)
    && i < |After(cfg, s, es).pieces| && After(cfg, s, es).pieces[i] == PIECE_COMPLETED
  }

  /** The first byte of a piece, as it already is on the disk, claims a requested piece and does nothing else. */
  lemma SameByteClaims(cfg: Config, missing: int, s: State, k: nat, i: nat) returns (e: Event)
    requires Inv(cfg, missing, s) && s.endGame && AskedOf(s, k, i) && i < cfg.m.numPieces
    requires s.pieces[i] == PIECE_REQUESTING
    ensures Enabled(cfg, s, e)
    ensures Next(cfg, s, e) == s.(pieces := s.pieces[i := PIECE_END_GAME_GETED + s.pool[k].connfd])
  {
    PieceInside(cfg.m, i);
    PositionIs(s.pool, k);
    var at := Start(cfg.m, i);
    e := Deliver(s.pool[k].connfd, i, 0, [s.file[at]]);
    assert WriteAt(s.file, cfg.m.size, at + 0, [s.file[at]]) == s.file;
    hide WriteAt;
    assert !PieceOk(cfg.m, cfg.ok, s.file, i);
  }

  /** A peer that has everything joins, and the end game opens. */
  lemma OpensReady(cfg: Config, missing: int, s: State) returns (es: seq<Event>)
    requires Inv(cfg, missing, s) && Enabled(cfg, s, EnterEndGame) && !s.isSeed
    requires InFlight(s.pieces) == 0 && Count(s.pieces, PIECE_HAVNT) > 0
    ensures Legal(cfg, s, es) && Ready(cfg, missing, After(cfg, s, es))
  {
    var joining := SaintJoins(cfg, missing, s);
    var t := After(cfg, s, joining);
    NextInv(cfg, missing, t, EnterEndGame);
    CountPositive(s.pieces, PIECE_REQUESTING);
    assert Ready(cfg, missing, Next(cfg, t, EnterEndGame));
    hide Enabled, Next;
    OneMoreEvent(cfg, t, [EnterEndGame]);
    RunsJoin(cfg, s, joining, [EnterEndGame]);
    es := joining + [EnterEndGame];
  }

  /** A peer is asked for a piece, delivers a byte of it, and leaves. */
  lemma LossFollows(cfg: Config, missing: int, s: State) returns (es: seq<Event>, connfd: int, i: nat)
    requires Ready(cfg, missing, s)
    ensures Legal(cfg, s, es) && Lost(cfg, missing, After(cfg, s, es), connfd, i)
  {
    i := ReadyFansOut(cfg, missing, s);
    FanOutIsNext(cfg, s, i);
    hide Enabled, Next, FannedOut;
    var t := FannedOut(cfg.m, s, i);
    connfd := t.pool[0].connfd;
    var rest := ClaimerLeaves(cfg, missing, t, 0, i);
    es := [FanOut(i)] + rest;
    assert es[1..] == rest;
    OneMoreEvent(cfg, s, es);
  }

  lemma ClaimerLeaves(cfg: Config, missing: int, s: State, k: nat, i: nat) returns (es: seq<Event>)
    requires Inv(cfg, missing, s) && s.endGame && AskedOf(s, k, i) && i < cfg.m.numPieces
    requires s.pieces[i] == PIECE_REQUESTING
    ensures Legal(cfg, s, es) && Lost(cfg, missing, After(cfg, s, es), s.pool[k].connfd, i)
  {
    var e := SameByteClaims(cfg, missing, s, k, i);
    var connfd := s.pool[k].connfd;
    assert s.pool[k] in s.pool;
    PositionIs(s.pool, k);
    NextInv(cfg, missing, s, e);
    var t := Next(cfg, s, e);
    LeavingClaimerLosesPiece(cfg, missing, t, connfd, i);
    es := [e, Disconnect(connfd)];
    TwoEvents(cfg, missing, s, e, Disconnect(connfd));
  }

  /** Every download that misses a piece at its start has a run in which a piece is lost; one that misses more than
      five must first be able to reach its end game. */
  lemma LostIsReachable(cfg: Config, s: State, seed: seq<byte>) returns (es: seq<Event>, connfd: int, i: nat)
    requires Init(cfg, s) && s.rest > 0 && (s.rest > 5 ==> IsSeed(cfg, seed))
    ensures Legal(cfg, s, es) && Lost(cfg, s.rest, After(cfg, s, es), connfd, i)
  {
    InitInv(cfg, s);
    var opening: seq<Event> := [];
    if s.rest > 5 {
      var joining := SaintJoins(cfg, s.rest, s);
      var t := After(cfg, s, joining);
      opening := EndGameIsReached(cfg, s.rest, t, seed);
      EndGameOpensExactly(cfg, s.rest, After(cfg, t, opening));
      CountPositive(After(cfg, t, opening).pieces, PIECE_HAVNT);
      RunsJoin(cfg, s, joining, opening);
      opening := joining + opening;
    }
    CountPositive(s.pieces, PIECE_REQUESTING);
    var u := After(cfg, s, opening);
    var ready := OpensReady(cfg, s.rest, u);
    hide Enabled, Next;
    es, connfd, i := LossFollows(cfg, s.rest, After(cfg, u, ready));
    RunsJoin(cfg, u, ready, es);
    RunsJoin(cfg, s, opening, ready + es);
    es := opening + (ready + es);
  }

  // ----- Returned pieces

  /** A piece that is missing in the end game and that nobody can be asked for: whoever has it was asked already. */
  ghost predicate Stranded(cfg: Config, missing: int, s: State, i: nat) {
    && Inv(cfg, missing, s) && s.endGame && i < cfg.m.numPieces
    && s.pieces[i] == PIECE_HAVNT && !SomebodyHas(s.pool, i)
  }

  /** Event `e` is a bitfield that names piece `i`. */
  ghost predicate Names(e: Event, i: nat) {
    e.HandleBitfield? && GetBit(e.bits, i) == 1
  }

  /** If a peer that is asked for a piece leaves before a block arrives, the piece goes back and is stranded. */
  lemma LeavingPeerStrandsPiece(cfg: Config, missing: int, s: State, connfd: int, i: nat)
    requires Inv(cfg, missing, s) && s.endGame && Enabled(cfg, s, Disconnect(connfd))
    requires i < cfg.m.numPieces && s.pieces[i] == PIECE_REQUESTING && !SomebodyHas(s.pool, i)
    requires AskedOf(s, Position(s.pool, connfd), i)
    ensures Stranded(cfg, missing, Next(cfg, s, Disconnect(connfd)), i)
  {
    DisconnectInv(cfg, missing, s, connfd);
    DisconnectReturnsOwn(cfg, missing, s, connfd);
    var k := Position(s.pool, connfd);
    var after := s.pool[..k] + s.pool[k + 1..];
    assert forall p <- after :: p in s.pool;
  }

  /** The blocks of the other peers that were asked for it are refused. */
  lemma StrandedRefusesBlocks(cfg: Config, missing: int, s: State, connfd: int, i: nat)
    requires Stranded(cfg, missing, s, i) && Connected(s.pool, connfd)
    ensures !Accepts(s, connfd, i)
  {
    assert s.pool[Position(s.pool, connfd)] in s.pool;
  }

  lemma StrandedOneStep(cfg: Config, missing: int, s: State, e: Event, i: nat)
    requires Stranded(cfg, missing, s, i) && Enabled(cfg, s, e) && !Names(e, i)
    ensures Stranded(cfg, missing, Next(cfg, s, e), i)
  {
    NextInv(cfg, missing, s, e);
    NobodyHasStays(cfg, missing, s, e, i);
    hide PieceOk, WriteAt, TallyIs, Windowed, Count, FannedSent, StaysInside, SomebodyHas;
    match e
    case Deliver(c, index, begin, block) => StrandedRefusesBlocks(cfg, missing, s, c, i);
    case FanOut(index) => assert index == i ==> !SomebodyHas(s.pool, i);
    case _ =>
  }

  lemma NobodyHasStays(cfg: Config, missing: int, s: State, e: Event, i: nat)
    requires Stranded(cfg, missing, s, i) && Enabled(cfg, s, e) && !Names(e, i)
    ensures !SomebodyHas(Next(cfg, s, e).pool, i)
  {
    hide PieceOk, WriteAt, TallyIs, Windowed, Count, FannedSent, StaysInside, SomebodyHas;
    match e
    case AddPeer(connfd, ip, initial) =>
      NobodyHasAfterAdd(s.pool, Peer(connfd, ip, initial, 0), i);
    case HandleBitfield(c, bits) =>
      var k := Position(s.pool, c);
      assert s.pool[k] in s.pool;
      NobodyHasAfterReplace(s.pool, k, Next(cfg, s, e).pool[k], i);
    case Deliver(c, index, begin, block) =>
      var k := Position(s.pool, c);
      assert s.pool[k] in s.pool;
      StrandedRefusesBlocks(cfg, missing, s, c, i);
      NobodyHasAfterReplace(s.pool, k, Next(cfg, s, e).pool[k], i);
      assert s.pool[k := s.pool[k]] == s.pool;
    case Disconnect(c) =>
      RemoveIpIs(s.pool, Position(s.pool, c));
      NobodyHasAfterRemove(s.pool, Position(s.pool, c), i);
    case FanOut(index) =>
      NobodyHasAfterFanOut(s.pool, index, i);
    case _ =>
  }

  lemma NobodyHasAfterAdd(pool: seq<Peer>, p: Peer, i: nat)
    requires !SomebodyHas(pool, i) && (i < |p.pieces| ==> p.pieces[i] != PEER_HAVE)
    ensures !SomebodyHas([p] + pool, i)
  {
  }

  lemma NobodyHasAfterReplace(pool: seq<Peer>, k: nat, q: Peer, i: nat)
    requires !SomebodyHas(pool, i) && k < |pool| && |q.pieces| == |pool[k].pieces|
    requires i < |q.pieces| ==> q.pieces[i] == pool[k].pieces[i]
    ensures !SomebodyHas(pool[k := q], i)
  {
    assert pool[k] in pool;
  }

  lemma NobodyHasAfterRemove(pool: seq<Peer>, k: nat, i: nat)
    requires !SomebodyHas(pool, i) && k < |pool|
    ensures !SomebodyHas(pool[..k] + pool[k + 1..], i)
  {
    assert forall p <- pool[..k] + pool[k + 1..] :: p in pool;
  }

  lemma NobodyHasAfterFanOut(pool: seq<Peer>, index: nat, i: nat)
    requires !SomebodyHas(pool, i)
    ensures !SomebodyHas(FannedPool(pool, index), i)
    ensures index == i ==> FannedPool(pool, index) == pool
  {
    forall k | 0 <= k < |pool|
      ensures var p := FannedPool(pool, index)[k];
              !(i < |p.pieces| && p.pieces[i] == PEER_HAVE) && (index == i ==> p == pool[k])
    {
      assert pool[k] in pool;
    }
  }

  /** Until a bitfield names it, a stranded piece stays missing, and the file is not completed. */
  lemma {:induction false} StrandedUntilNamed(cfg: Config, missing: int, s: State, es: seq<Event>, i: nat)
    requires Stranded(cfg, missing, s, i) && Legal(cfg, s, es) && forall e <- es :: !Names(e, i)
    ensures var t := After(cfg, s, es); Stranded(cfg, missing, t, i) && !t.isSeed
    decreases |es|
  {
    if es != [] {
      assert es[0] in es;
      StrandedOneStep(cfg, missing, s, es[0], i);
      StrandedUntilNamed(cfg, missing, Next(cfg, s, es[0]), es[1..], i);
    }
  }

  // ----- The window runs full

  /** The rarest piece is one that nobody can be asked for: every turn takes the window and sends nothing. */
  ghost predicate Spinning(cfg: Config, missing: int, s: State, i: nat) {
    && Stranded(cfg, missing, s, i) && !s.isSeed && Calm(s.pieces) && IsRarest(s.pieces, s.avail, i)
  }

  lemma SpinningTurn(cfg: Config, missing: int, s: State, i: nat)
    requires Spinning(cfg, missing, s, i) && WindowFree(s.requesting, s.locked)
    ensures Enabled(cfg, s, FanOut(i))
    ensures var t := Next(cfg, s, FanOut(i));
            && Spinning(cfg, missing, t, i)
            && t.requesting == s.requesting + 1 && t.locked == (s.locked || s.requesting + 1 >= 5)
  {
    NobodyHasAfterFanOut(s.pool, i, i);
    NextInv(cfg, missing, s, FanOut(i));
  }

  /** So the requester ends up waiting for a mutex that nothing releases: the end game is jammed, for ever. */
  lemma {:induction false} SpinningJams(cfg: Config, missing: int, s: State, i: nat) returns (es: seq<Event>)
    requires Spinning(cfg, missing, s, i)
    ensures Legal(cfg, s, es) && Jammed(cfg, missing, After(cfg, s, es))
    decreases if s.requesting < 4 then 5 - s.requesting else if WindowFree(s.requesting, s.locked) then 1 else 0
  {
    if WindowFree(s.requesting, s.locked) {
      SpinningTurn(cfg, missing, s, i);
      var more := SpinningJams(cfg, missing, Next(cfg, s, FanOut(i)), i);
      es := [FanOut(i)] + more;
      assert es[1..] == more;
      OneMoreEvent(cfg, s, es);
    } else {
      es := [];
    }
  }

  /** The pool is two peers that have everything and were asked for nothing. */
  ghost predicate TwoSaints(pool: seq<Peer>, n: nat) {
    && |pool| == 2 && |pool[0].pieces| == |pool[1].pieces| == n
    && forall i :: 0 <= i < n ==> pool[0].pieces[i] == pool[1].pieces[i] == PEER_HAVE
  }

  /** Two such peers are asked for the rarest piece, and one of them leaves. */
  lemma TwoSaintsSpin(cfg: Config, missing: int, s: State) returns (es: seq<Event>, i: nat)
    requires Ready(cfg, missing, s) && TwoSaints(s.pool, cfg.m.numPieces)
    ensures Legal(cfg, s, es)
    ensures var t := After(cfg, s, es); Spinning(cfg, missing, t, i) && AskedIn(t.pool, i)
  {
    i := ReadyFansOut(cfg, missing, s);
    FanOutIsNext(cfg, s, i);
    OneSaintLeft(cfg, missing, s, i);
    hide Enabled, Next, FannedOut;
    var t := FannedOut(cfg.m, s, i);
    OneSaintSpins(cfg, missing, s, t, i);
    var e := Disconnect(t.pool[0].connfd);
    TwoEvents(cfg, missing, s, FanOut(i), e);
    es := [FanOut(i), e];
  }

  lemma OneSaintSpins(cfg: Config, missing: int, s: State, t: State, i: nat)
    requires Shaped(cfg, s) && TwoSaints(s.pool, cfg.m.numPieces) && Calm(s.pieces) && !s.isSeed
    requires Inv(cfg, missing, t) && t.endGame && i < cfg.m.numPieces && s.pieces[i] == PIECE_HAVNT
    requires t.pieces == s.pieces[i := PIECE_REQUESTING] && t.pool == FannedPool(s.pool, i)
    requires t.avail == s.avail && t.isSeed == s.isSeed
    requires IsRarest(s.pieces, AvailWithout(s.avail, FannedPool(s.pool, i)[0].pieces), i)
    ensures Enabled(cfg, t, Disconnect(t.pool[0].connfd))
    ensures var u := Next(cfg, t, Disconnect(t.pool[0].connfd)); Spinning(cfg, missing, u, i) && AskedIn(u.pool, i)
  {
    var connfd := t.pool[0].connfd;
    PositionIs(t.pool, 0);
    DisconnectReturnsOwn(cfg, missing, t, connfd);
    LeavingPeerStrandsPiece(cfg, missing, t, connfd, i);
    hide IsRarest;
    var u := Next(cfg, t, Disconnect(connfd));
    assert u.pieces == s.pieces && u.pool[0] == t.pool[1];
  }

  lemma OneSaintLeft(cfg: Config, missing: int, s: State, i: nat)
    requires Ready(cfg, missing, s) && TwoSaints(s.pool, cfg.m.numPieces)
    requires i < cfg.m.numPieces && IsRarest(s.pieces, s.avail, i)
    ensures IsRarest(s.pieces, AvailWithout(s.avail, FannedPool(s.pool, i)[0].pieces), i)
  {
    var after := AvailWithout(s.avail, FannedPool(s.pool, i)[0].pieces);
    forall j: nat | j < cfg.m.numPieces
      ensures s.avail[j] == 2 && after[j] == 1
    {
      assert s.pool[..1] == [s.pool[0]] && [s.pool[0]][..0] == [];
      assert Tally(s.pool[..1], j, PEER_HAVE) == 1;
      assert Tally(s.pool, j, PEER_HAVE) == 2;
    }
    assert Candidate(s.pieces, s.avail, i);
    assert forall j :: Candidate(s.pieces, after, j) ==> Candidate(s.pieces, s.avail, j);
  }

  /** Every download that misses one to five pieces at its start has a run that strands a piece for which another peer
      is still asked: two peers come, both are asked for a piece, and one of them leaves. */
  lemma SpinningIsReachable(cfg: Config, s: State) returns (es: seq<Event>, i: nat)
    requires Init(cfg, s) && 0 < s.rest <= 5
    ensures Legal(cfg, s, es)
    ensures var t := After(cfg, s, es); Spinning(cfg, s.rest, t, i) && AskedIn(t.pool, i)
  {
    InitInv(cfg, s);
    CountPositive(s.pieces, PIECE_REQUESTING);
    var one := SaintJoins(cfg, s.rest, s);
    var t := After(cfg, s, one);
    assert t.pool[1..] == [];
    var two := SaintJoins(cfg, s.rest, t);
    var u := After(cfg, t, two);
    assert u.pool[1] == u.pool[1..][0];
    NextInv(cfg, s.rest, u, EnterEndGame);
    var v := Next(cfg, u, EnterEndGame);
    assert Ready(cfg, s.rest, v);
    hide Enabled, Next;
    OneMoreEvent(cfg, u, [EnterEndGame]);
    es, i := TwoSaintsSpin(cfg, s.rest, v);
    RunsJoin(cfg, u, [EnterEndGame], es);
    RunsJoin(cfg, t, two, [EnterEndGame] + es);
    RunsJoin(cfg, s, one, two + ([EnterEndGame] + es));
    es := one + (two + ([EnterEndGame] + es));
  }

  /** And such a download has a run that jams. */
  lemma JammedIsReachable(cfg: Config, s: State) returns (es: seq<Event>)
    requires Init(cfg, s) && 0 < s.rest <= 5
    ensures Legal(cfg, s, es) && Jammed(cfg, s.rest, After(cfg, s, es))
  {
    var i;
    es, i := SpinningIsReachable(cfg, s);
    var jam := SpinningJams(cfg, s.rest, After(cfg, s, es), i);
    RunsJoin(cfg, s, es, jam);
    es := es + jam;
  }
}
