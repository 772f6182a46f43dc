/** What holds in every run of the download protocol. */
module Theorems {
  import opened Bytes
  import opened Bitfield
  import opened Geometry
  import opened FileIo
  import opened Assembly
  import opened Protocol
  import opened Counting
  import opened Invariant

  // ----- Runs

  /** The events can happen one after the other, from `s` on. */
  ghost predicate Legal(cfg: Config, s: State, es: seq<Event>)
    decreases |es|
  {
    es == [] || (Shaped(cfg, s) && Enabled(cfg, s, es[0]) && Legal(cfg, Next(cfg, s, es[0]), es[1..]))
  }

  ghost function After(cfg: Config, s: State, es: seq<Event>): State
    requires Legal(cfg, s, es)
    decreases |es|
  {
    if es == [] then s else After(cfg, Next(cfg, s, es[0]), es[1..])
  }

  lemma {:induction false} RunInv(cfg: Config, missing: int, s: State, es: seq<Event>)
    requires Inv(cfg, missing, s) && Legal(cfg, s, es)
    ensures Inv(cfg, missing, After(cfg, s, es))
    decreases |es|
  {
    if es != [] {
      NextInv(cfg, missing, s, es[0]);
      RunInv(cfg, missing, Next(cfg, s, es[0]), es[1..]);
    }
  }

  /** Every state of every run satisfies the invariant. */
  lemma EveryRun(cfg: Config, s: State, es: seq<Event>)
    requires Init(cfg, s) && Legal(cfg, s, es)
    ensures Inv(cfg, s.rest, After(cfg, s, es))
  {
    InitInv(cfg, s);
    RunInv(cfg, s.rest, s, es);
  }

  // ----- The choices of the requester

  /** The two choices are determined by the state. */
  lemma ChoicesAreUnique(pieces: seq<int>, avail: seq<int>, i: int, j: int, pool: seq<Peer>, index: nat, k: int, l: int)
    requires |pieces| == |avail| && IsRarest(pieces, avail, i) && IsRarest(pieces, avail, j)
    requires IsLeastUsed(pool, index, k) && IsLeastUsed(pool, index, l)
    ensures i == j && k == l
  {
    assert i != -1 ==> Candidate(pieces, avail, i);
    assert j != -1 ==> Candidate(pieces, avail, j);
    assert k != -1 ==> Offers(pool, k, index);
    assert l != -1 ==> Offers(pool, l, index);
  }

  /** The availability index never promises a piece that no connected peer has:
      a piece chosen by which_piece_to_request always finds a peer. */
  lemma ChosenPieceHasPeer(cfg: Config, missing: int, s: State, index: nat, k: int)
    requires Inv(cfg, missing, s)
    requires IsRarest(s.pieces, s.avail, index) && IsLeastUsed(s.pool, index, k)
    ensures 0 <= k < |s.pool|
  {
    TallyPositive(s.pool, index, PEER_HAVE);
    var j :| 0 <= j < |s.pool| && s.pool[j].pieces[index] >= PEER_HAVE;
    assert s.pool[j] in s.pool && Offers(s.pool, j, index);
  }

  /** The availability index survives a bitfield exactly if the bitfield names no piece the peer already had. */
  lemma BitfieldKeepsIndexExactly(cfg: Config, s: State, connfd: int, bits: seq<bv8>)
    requires Shaped(cfg, s) && TallyIs(s.pool, PEER_HAVE, s.avail) && PeersOk(s.pool) && Connected(s.pool, connfd)
    ensures var t := BitfieldHandled(s, connfd, bits);
            TallyIs(t.pool, PEER_HAVE, t.avail) <==> Unmarked(s, connfd, bits)
  {
    var k := Position(s.pool, connfd);
    var p := s.pool[k];
    assert p in s.pool;
    var q := p.(pieces := MarkedPieces(p.pieces, bits));
    var t := BitfieldHandled(s, connfd, bits);
    if Unmarked(s, connfd, bits) {
      TallyIsReplace(s.pool, k, q, PEER_HAVE, s.avail, t.avail);
    } else {
      var i: nat :| i < |p.pieces| && GetBit(bits, i) == 1 && p.pieces[i] != PEER_HAVNT;
      TallyUpdate(s.pool, k, q, i, PEER_HAVE);
      assert t.avail[i] == s.avail[i] + 1 && Tally(t.pool, i, PEER_HAVE) == s.avail[i];
    }
  }

  /** A peer joins without disturbing the index exactly if its state array starts out clear. */
  lemma AddPeerKeepsIndexExactly(cfg: Config, s: State, connfd: int, ip: string, initial: seq<int>)
    requires Shaped(cfg, s) && TallyIs(s.pool, PEER_HAVE, s.avail) && |initial| == cfg.m.numPieces
    ensures var t := Added(s, connfd, ip, initial);
            TallyIs(t.pool, PEER_HAVE, t.avail) <==>
            Known(s.pool, ip) || forall i :: 0 <= i < |initial| ==> initial[i] < PEER_HAVE
  {
    var p := Peer(connfd, ip, initial, 0);
    if i: nat :| i < |initial| && initial[i] >= PEER_HAVE {
      TallyCons(s.pool, p, i, PEER_HAVE);
      if !Known(s.pool, ip) {
        assert Tally(Added(s, connfd, ip, initial).pool, i, PEER_HAVE) == s.avail[i] + 1;
      }
    } else {
      TallyIsCons(s.pool, p, PEER_HAVE, s.avail);
    }
  }

  // ----- Verified data

  /** A block that stays inside its piece leaves every other piece alone. */
  lemma DeliverElsewhere(cfg: Config, s: State, connfd: int, index: nat, begin: int, block: seq<byte>, i: nat)
    requires Shaped(cfg, s) && Connected(s.pool, connfd) && index < cfg.m.numPieces
    requires StaysInside(cfg.m, index, begin, |block|) && i < cfg.m.numPieces && i != index
    ensures var t := Delivered(cfg, s, connfd, index, begin, block);
            t.pieces[i] == s.pieces[i] && PieceBytes(cfg.m, t.file, i) == PieceBytes(cfg.m, s.file, i)
  {
    hide PieceOk, WriteAt, PieceBytes, StaysInside;
    InsideKeepsOthers(cfg.m, s.file, index, begin, block);
    assert PieceBytes(cfg.m, Written(cfg.m, s, connfd, index, begin, block).file, i) == PieceBytes(cfg.m, s.file, i);
  }

  /** A completed piece stays completed and none of its bytes changes. */
  lemma CompletedStaysOneStep(cfg: Config, missing: int, s: State, e: Event, i: nat)
    requires Inv(cfg, missing, s) && Enabled(cfg, s, e)
    requires i < cfg.m.numPieces && s.pieces[i] == PIECE_COMPLETED
    ensures var t := Next(cfg, s, e);
            && Shaped(cfg, t) && (s.endGame ==> t.endGame)
            && t.pieces[i] == PIECE_COMPLETED && PieceBytes(cfg.m, t.file, i) == PieceBytes(cfg.m, s.file, i)
  {
    NextInv(cfg, missing, s, e);
    if e.Deliver? {
      if e.index != i {
        DeliverElsewhere(cfg, s, e.connfd, e.index, e.begin, e.block, i);
      } else if Accepts(s, e.connfd, e.index) {
        OpenPiece(cfg, missing, s, e.connfd, e.index);
      }
    } else {
      OtherEventsKeep(cfg, missing, s, e, i);
    }
  }

  /** Only blocks change the file, and no other event touches a complete or claimed piece. */
  lemma OtherEventsKeep(cfg: Config, missing: int, s: State, e: Event, i: nat)
    requires Inv(cfg, missing, s) && Enabled(cfg, s, e) && !e.Deliver?
    requires i < cfg.m.numPieces && s.pieces[i] !in {PIECE_HAVNT, PIECE_REQUESTING}
    ensures var t := Next(cfg, s, e); i < |t.pieces| && t.pieces[i] == s.pieces[i] && t.file == s.file
    ensures s.endGame ==> Next(cfg, s, e).endGame
  {
    hide PieceOk, WriteAt, TallyIs, Count, Windowed, Verified, FannedPool, FannedSent;
  }

  lemma {:induction false} CompletedStays(cfg: Config, missing: int, s: State, es: seq<Event>, i: nat)
    requires Inv(cfg, missing, s) && Legal(cfg, s, es)
    requires i < cfg.m.numPieces && s.pieces[i] == PIECE_COMPLETED
    ensures var t := After(cfg, s, es);
            && Inv(cfg, missing, t) && (s.endGame ==> t.endGame) && t.pieces[i] == PIECE_COMPLETED
            && PieceBytes(cfg.m, t.file, i) == PieceBytes(cfg.m, s.file, i) && PieceOk(cfg.m, cfg.ok, t.file, i)
    decreases |es|
  {
    if es != [] {
      CompletedStaysOneStep(cfg, missing, s, es[0], i);
      NextInv(cfg, missing, s, es[0]);
      CompletedStays(cfg, missing, Next(cfg, s, es[0]), es[1..], i);
    }
  }

  /** handle_piece makes the client a seed exactly when it completes the last piece that was missing. */
  lemma SeedExactlyWhenComplete(cfg: Config, missing: int, s: State, e: Event)
    requires Inv(cfg, missing, s) && Enabled(cfg, s, e) && !s.isSeed
    ensures var t := Next(cfg, s, e);
            t.isSeed <==> t.have > s.have && forall i: nat :: i < cfg.m.numPieces ==> PieceOk(cfg.m, cfg.ok, t.file, i)
  {
    hide PieceOk, WriteAt, IsRequest, FannedPool, FannedSent, MarkedPieces, PiecesBack;
  }

  /** Outside the guard: a block for a piece that its sender is not asked for. The counter and the verdicts
      stay right exactly if the piece is not already complete, or in the end game, which refuses such blocks. */
  lemma CountAndVerdictsExactly(cfg: Config, missing: int, s: State, connfd: int,
                                index: nat, begin: int, block: seq<byte>)
    requires Inv(cfg, missing, s) && Connected(s.pool, connfd) && connfd >= 0
    requires index < cfg.m.numPieces && StaysInside(cfg.m, index, begin, |block|)
    ensures var t := Delivered(cfg, s, connfd, index, begin, block);
            t.have == Count(t.pieces, PIECE_COMPLETED) && Verified(cfg, t.pieces, t.file, -1)
            <==> s.endGame || s.pieces[index] != PIECE_COMPLETED
  {
    hide PieceOk, WriteAt, TallyIs, Count, Windowed, Verified, StaysInside;
    var w := if s.endGame then s.pieces[index := PIECE_END_GAME_GETED + connfd] else s.pieces;
    BlockVerdicts(cfg, s.pieces, w, s.file, index, begin, block);
    MovePiece(s.pieces, index, PIECE_END_GAME_GETED + connfd);
    MovePiece(w, index, PIECE_COMPLETED);
    if s.pieces[index] == PIECE_COMPLETED && !s.endGame {
      assert s.pieces[index := PIECE_COMPLETED] == s.pieces;
    }
  }

  /** What a block does to the verdicts; `pieces'` are the states once it is written. */
  lemma BlockVerdicts(cfg: Config, pieces: seq<int>, pieces': seq<int>, file: seq<byte>,
                      index: nat, begin: int, block: seq<byte>)
    requires ValidMeta(cfg.m) && |pieces| == |pieces'| == cfg.m.numPieces && cfg.m.size <= |file| && index < |pieces|
    requires forall i :: 0 <= i < |pieces| && i != index ==> pieces'[i] == pieces[i]
    requires StaysInside(cfg.m, index, begin, |block|) && Verified(cfg, pieces, file, -1)
    ensures var file' := WriteAt(file, cfg.m.size, Start(cfg.m, index) + begin, block);
            && (Verified(cfg, pieces', file', -1) <==>
                  (pieces'[index] == PIECE_COMPLETED <==> PieceOk(cfg.m, cfg.ok, file', index)))
            && (PieceOk(cfg.m, cfg.ok, file', index) ==> Verified(cfg, pieces'[index := PIECE_COMPLETED], file', -1))
  {
    hide WriteAt;
    var file' := WriteAt(file, cfg.m.size, Start(cfg.m, index) + begin, block);
    InsideKeepsOthers(cfg.m, file, index, begin, block);
    forall i: nat | i < cfg.m.numPieces && i != index
      ensures PieceOk(cfg.m, cfg.ok, file', i) == PieceOk(cfg.m, cfg.ok, file, i)
    {
      assert PieceBytes(cfg.m, file', i) == PieceBytes(cfg.m, file, i);
    }
  }

  // ----- The request window

  /** The end game starts with at most five pieces that are not complete. */
  ghost predicate EndGameIsSmall(cfg: Config, s: State) {
    s.endGame ==> cfg.m.numPieces - s.have <= 5
  }

  lemma EndGameStaysSmall(cfg: Config, missing: int, s: State, e: Event)
    requires Inv(cfg, missing, s) && Enabled(cfg, s, e) && EndGameIsSmall(cfg, s)
    ensures EndGameIsSmall(cfg, Next(cfg, s, e))
  {
    hide PieceOk, WriteAt, FannedPool, FannedSent, MarkedPieces, PiecesBack, TallyIs, Windowed, Count;
  }

  /** In every run, in both phases, at most five pieces are in flight; and while the requester of the normal
      phase is held up, at least four are. */
  lemma {:induction false} WindowOfFive(cfg: Config, missing: int, s: State, es: seq<Event>)
    requires Inv(cfg, missing, s) && EndGameIsSmall(cfg, s) && Legal(cfg, s, es)
    ensures var t := After(cfg, s, es);
            && InFlight(t.pieces) <= 5
            && (t.requester.Waiting? && t.locked ==> InFlight(t.pieces) >= 4)
    decreases |es|
  {
    if es == [] {
      CountsOfTwo(s.pieces);
    } else {
      NextInv(cfg, missing, s, es[0]);
      EndGameStaysSmall(cfg, missing, s, es[0]);
      WindowOfFive(cfg, missing, Next(cfg, s, es[0]), es[1..]);
    }
  }

  /** The same from the start. */
  lemma WindowOfEveryRun(cfg: Config, s: State, es: seq<Event>)
    requires Init(cfg, s) && Legal(cfg, s, es)
    ensures var t := After(cfg, s, es);
            && InFlight(t.pieces) <= 5
            && (t.requester.Waiting? && t.locked ==> InFlight(t.pieces) >= 4)
  {
    InitInv(cfg, s);
    WindowOfFive(cfg, s.rest, s, es);
  }

  lemma {:induction false} CountsOfTwo(pieces: seq<int>)
    ensures Count(pieces, PIECE_REQUESTING) + Count(pieces, PIECE_COMPLETED) <= |pieces|
  {
    if pieces != [] {
      CountsOfTwo(pieces[..|pieces| - 1]);
    }
  }

  /** The very next event that takes a piece out of flight lets a waiting requester go on. */
  lemma WaitingIsReleased(cfg: Config, missing: int, s: State, e: Event)
    requires Inv(cfg, missing, s) && Enabled(cfg, s, e) && !s.endGame
    requires s.requester.Waiting? && s.locked
    requires InFlight(Next(cfg, s, e).pieces) < InFlight(s.pieces)
    ensures var t := Next(cfg, s, e); Shaped(cfg, t) && Enabled(cfg, t, Acquire)
  {
    NextInv(cfg, missing, s, e);
    if e.Deliver? {
      ReleasedWindow(s.requesting, s.locked, 1);
    } else if e.Disconnect? {
      ReturnReleases(cfg, s, e.connfd);
    } else {
      OnlyArrivalsLand(cfg, s, e);
    }
  }

  lemma ReturnReleases(cfg: Config, s: State, connfd: int)
    requires Shaped(cfg, s) && Connected(s.pool, connfd) && s.requesting >= 5
    requires InFlight(Disconnected(s, connfd).pieces) < InFlight(s.pieces)
    ensures !Disconnected(s, connfd).locked
  {
    var p := s.pool[Position(s.pool, connfd)];
    var back := PiecesBack(s.pieces, p.pieces);
    CountBack(s.pieces, p.pieces, |s.pieces|);
    assert s.pieces[..|s.pieces|] == s.pieces && back[..|back|] == back;
    ReleasedWindow(s.requesting, s.locked, BackCount(s.pieces, p.pieces, |s.pieces|));
  }

  lemma OnlyArrivalsLand(cfg: Config, s: State, e: Event)
    requires Shaped(cfg, s) && Enabled(cfg, s, e) && !s.endGame && !e.Deliver? && !e.Disconnect?
    ensures InFlight(Next(cfg, s, e).pieces) >= InFlight(s.pieces)
  {
    if e.Send? {
      MovePiece(s.pieces, s.requester.index, PIECE_REQUESTING);
    }
  }

  // ----- Ownership of requests

  ghost predicate AskedOf(s: State, k: int, i: nat) {
    0 <= k < |s.pool| && i < |s.pool[k].pieces| && s.pool[k].pieces[i] == PEER_BE_REQUESTED
  }

  /** In the normal phase a piece is being requested exactly if one peer, and only one, is asked for it. */
  lemma RequestedOfExactlyOne(cfg: Config, missing: int, s: State, i: nat)
    requires Inv(cfg, missing, s) && !s.endGame && i < cfg.m.numPieces
    ensures s.pieces[i] == PIECE_REQUESTING <==> exists k :: AskedOf(s, k, i)
    ensures forall j, k :: AskedOf(s, j, i) && AskedOf(s, k, i) ==> j == k
  {
    assert Flags(s.pieces)[i] == if s.pieces[i] == PIECE_REQUESTING then 1 else 0;
    TallyPositive(s.pool, i, PEER_BE_REQUESTED);
    assert forall k :: 0 <= k < |s.pool| ==> s.pool[k] in s.pool;
    assert forall k :: 0 <= k < |s.pool| && s.pool[k].pieces[i] >= PEER_BE_REQUESTED ==> AskedOf(s, k, i);
    forall j, k | AskedOf(s, j, i) && AskedOf(s, k, i)
      ensures j == k
    {
      if j < k {
        TallyTwo(s.pool, j, k, i, PEER_BE_REQUESTED);
      } else if k < j {
        TallyTwo(s.pool, k, j, i, PEER_BE_REQUESTED);
      }
    }
  }

  /** A disconnect returns exactly the pieces being requested that the departing peer was asked for, in the normal
      phase all that it was asked for, and removes that peer and nobody else. */
  lemma DisconnectReturnsOwn(cfg: Config, missing: int, s: State, connfd: int)
    requires Inv(cfg, missing, s) && Connected(s.pool, connfd)
    ensures var k := Position(s.pool, connfd);
            var t := Disconnected(s, connfd);
            && t.pool == s.pool[..k] + s.pool[k + 1..]
            && (forall i: nat :: i < cfg.m.numPieces ==>
                  t.pieces[i] ==
                  if AskedOf(s, k, i) && s.pieces[i] == PIECE_REQUESTING then PIECE_HAVNT else s.pieces[i])
            && (!s.endGame ==> forall i: nat :: i < cfg.m.numPieces && AskedOf(s, k, i) ==> t.pieces[i] == PIECE_HAVNT)
  {
    var k := Position(s.pool, connfd);
    assert s.pool[k] in s.pool;
    RemoveIpIs(s.pool, k);
    if !s.endGame {
      OwnedWithout(s.pool, s.pieces, k);
    }
  }

  /** request_a_piece without the guard: if the chosen peer has left, only its own orphaned states are marked. */
  ghost function SentRegardless(m: Meta, s: State, index: nat, connfd: int): State
    requires index < |s.pieces| && Sized(s.pool, |s.pieces|)
  {
    if Connected(s.pool, connfd) then
      assert s.pool[Position(s.pool, connfd)] in s.pool;
      PieceAsked(m, s, index, connfd)
    else
      s.(pieces := s.pieces[index := PIECE_REQUESTING], rest := s.rest - 1, requester := Idle,
         sent := s.sent + SentFor(m, connfd, index), issued := s.issued + 1)
  }

  /** Outside the guard: the pieces being requested are still those that a peer is asked for, if and only if
      the peer chosen for a request is there when the request is sent. */
  lemma SendKeepsOwnershipExactly(cfg: Config, s: State, index: nat, connfd: int)
    requires Shaped(cfg, s) && PeersOk(s.pool) && Owned(s.pool, s.pieces, s.endGame) && !s.endGame
    requires index < cfg.m.numPieces && s.pieces[index] == PIECE_HAVNT
    ensures var t := SentRegardless(cfg.m, s, index, connfd);
            Owned(t.pool, t.pieces, t.endGame) <==> Connected(s.pool, connfd)
  {
    var after := s.pieces[index := PIECE_REQUESTING];
    if Connected(s.pool, connfd) {
      var k := Position(s.pool, connfd);
      var p := s.pool[k];
      var q := p.(pieces := p.pieces[index := PEER_BE_REQUESTED], downloaded := p.downloaded + 1);
      assert p in s.pool;
      NobodyAsked(s.pool, s.pieces, index, k);
      TallyIsReplace(s.pool, k, q, PEER_BE_REQUESTED, Flags(s.pieces), Flags(after));
    } else {
      assert Flags(s.pieces)[index] == 0 && Flags(after)[index] == 1;
    }
  }

  // ----- Conservation

  /** Every piece is missing, requested or complete; the counters are the counts; requests are bounded. */
  lemma PiecesConserved(cfg: Config, missing: int, s: State)
    requires Inv(cfg, missing, s)
    ensures s.have == Count(s.pieces, PIECE_COMPLETED)
    ensures !s.endGame ==> InFlight(s.pieces) + s.have + Count(s.pieces, PIECE_HAVNT) == cfg.m.numPieces
    ensures !s.endGame ==> s.rest + s.returned == Count(s.pieces, PIECE_HAVNT)
    ensures missing > 5 ==> s.issued <= missing - 5 && s.rest >= 5
  {
    if !s.endGame {
      CountsPartition(s.pieces);
    }
  }

  /** The end game of a download that misses more than five pieces opens exactly when the requester is done, five
      pieces are missing, none is in flight, and no piece was ever returned. */
  lemma EndGameOpensExactly(cfg: Config, missing: int, s: State)
    requires Inv(cfg, missing, s) && missing > 5 && !s.endGame
    ensures Enabled(cfg, s, EnterEndGame) <==>
            s.requester.Idle? && s.rest == 5 && InFlight(s.pieces) == 0 && s.returned == 0
    ensures Enabled(cfg, s, EnterEndGame) ==> Count(s.pieces, PIECE_HAVNT) == 5 && s.have == cfg.m.numPieces - 5
  {
    PiecesConserved(cfg, missing, s);
    if s.isSeed {
      CountPositive(s.pieces, PIECE_HAVNT);
    }
  }

  /** In every run of a download of more than five pieces, the end game opens with exactly five pieces missing,
      none in flight, and none ever returned. */
  lemma EndGameOpensWithFive(cfg: Config, s: State, es: seq<Event>)
    requires Init(cfg, s) && s.rest > 5 && Legal(cfg, s, es)
    requires Shaped(cfg, After(cfg, s, es)) && Enabled(cfg, After(cfg, s, es), EnterEndGame)
    ensures var t := After(cfg, s, es);
            && Count(t.pieces, PIECE_HAVNT) == 5 && InFlight(t.pieces) == 0 && t.have == cfg.m.numPieces - 5
            && t.returned == 0
  {
    EveryRun(cfg, s, es);
    EndGameOpensExactly(cfg, s.rest, After(cfg, s, es));
  }

  /** A piece was returned in the normal phase of a download that misses more than five pieces. */
  ghost predicate Doomed(cfg: Config, missing: int, s: State) {
    Inv(cfg, missing, s) && missing > 5 && !s.endGame && s.returned > 0
  }

  lemma DoomedIsFarOff(cfg: Config, missing: int, s: State)
    requires Doomed(cfg, missing, s)
    ensures Count(s.pieces, PIECE_HAVNT) >= 6 && cfg.m.numPieces - s.have >= 6 && !s.isSeed
    ensures !Enabled(cfg, s, EnterEndGame)
  {
    PiecesConserved(cfg, missing, s);
    EndGameOpensExactly(cfg, missing, s);
    if s.isSeed {
      CountPositive(s.pieces, PIECE_HAVNT);
    }
  }

  lemma DoomedOneStep(cfg: Config, missing: int, s: State, e: Event)
    requires Doomed(cfg, missing, s) && Enabled(cfg, s, e)
    ensures Doomed(cfg, missing, Next(cfg, s, e))
  {
    NextInv(cfg, missing, s, e);
    DoomedIsFarOff(cfg, missing, s);
  }

  /** From the first returned piece on, however many requests are left, the end game never opens, at least six
      pieces stay missing, and the file is never complete. */
  lemma {:induction false} DoomedForEver(cfg: Config, missing: int, s: State, es: seq<Event>)
    requires Doomed(cfg, missing, s) && Legal(cfg, s, es)
    ensures var t := After(cfg, s, es);
            Doomed(cfg, missing, t) && !t.isSeed && Count(t.pieces, PIECE_HAVNT) >= 6
    decreases |es|
  {
    DoomedIsFarOff(cfg, missing, s);
    if es != [] {
      DoomedOneStep(cfg, missing, s, es[0]);
      DoomedForEver(cfg, missing, Next(cfg, s, es[0]), es[1..]);
    }
  }

  /** The requests of the normal phase are used up as well. */
  ghost predicate Stuck(cfg: Config, missing: int, s: State) {
    Doomed(cfg, missing, s) && s.rest == 5
  }

  /** Then the client does not even make another request. */
  lemma {:induction false} StuckForEver(cfg: Config, missing: int, s: State, es: seq<Event>)
    requires Stuck(cfg, missing, s) && Legal(cfg, s, es)
    ensures var t := After(cfg, s, es); Stuck(cfg, missing, t) && t.issued == s.issued && t.sent == s.sent
    decreases |es|
  {
    if es != [] {
      StuckOneStep(cfg, missing, s, es[0]);
      StuckForEver(cfg, missing, Next(cfg, s, es[0]), es[1..]);
    }
  }

  lemma StuckOneStep(cfg: Config, missing: int, s: State, e: Event)
    requires Stuck(cfg, missing, s) && Enabled(cfg, s, e)
    ensures var t := Next(cfg, s, e); Stuck(cfg, missing, t) && t.issued == s.issued && t.sent == s.sent
  {
    DoomedOneStep(cfg, missing, s, e);
    DoomedIsFarOff(cfg, missing, s);
  }

  // ----- The end game

  /** Event `e` is a block of piece `i` from connection `connfd`. */
  ghost predicate BlockFrom(e: Event, connfd: int, i: nat) {
    e.Deliver? && e.connfd == connfd && e.index == i
  }

  /** In the end game a claimed piece is written by its claimer only, until it is complete. */
  lemma ClaimOneStep(cfg: Config, missing: int, s: State, e: Event, connfd: int, i: nat)
    requires Inv(cfg, missing, s) && Enabled(cfg, s, e) && s.endGame && connfd >= 0
    requires i < cfg.m.numPieces && s.pieces[i] == PIECE_END_GAME_GETED + connfd
    ensures var t := Next(cfg, s, e);
            && Shaped(cfg, t) && t.endGame
            && t.pieces[i] in {PIECE_END_GAME_GETED + connfd, PIECE_COMPLETED}
            && (!BlockFrom(e, connfd, i) ==>
                  t.pieces[i] == s.pieces[i] && PieceBytes(cfg.m, t.file, i) == PieceBytes(cfg.m, s.file, i))
  {
    NextInv(cfg, missing, s, e);
    if e.Deliver? {
      if e.index != i {
        DeliverElsewhere(cfg, s, e.connfd, e.index, e.begin, e.block, i);
      }
    } else {
      OtherEventsKeep(cfg, missing, s, e, i);
    }
  }

  /** Until a block of its claimer arrives, nothing happens to a claimed piece; its claim ends only in completion;
      and at every moment the blocks of all others are refused, those of a complete piece from everybody. */
  lemma {:induction false} SingleWriter(cfg: Config, missing: int, s: State, es: seq<Event>, connfd: int, i: nat)
    requires Inv(cfg, missing, s) && Legal(cfg, s, es) && s.endGame && connfd >= 0
    requires i < cfg.m.numPieces && s.pieces[i] in {PIECE_END_GAME_GETED + connfd, PIECE_COMPLETED}
    ensures var t := After(cfg, s, es);
            && Inv(cfg, missing, t) && t.endGame
            && t.pieces[i] in {PIECE_END_GAME_GETED + connfd, PIECE_COMPLETED}
            && (s.pieces[i] == PIECE_COMPLETED ==> t.pieces[i] == PIECE_COMPLETED)
            && (s.pieces[i] == PIECE_COMPLETED || (forall e <- es :: !BlockFrom(e, connfd, i)) ==>
                  t.pieces[i] == s.pieces[i] && PieceBytes(cfg.m, t.file, i) == PieceBytes(cfg.m, s.file, i))
            && forall c :: Connected(t.pool, c) && (t.pieces[i] == PIECE_COMPLETED || c != connfd) ==> !Accepts(t, c, i)
    decreases |es|
  {
    if es == [] {
      forall c | Connected(s.pool, c) && (s.pieces[i] == PIECE_COMPLETED || c != connfd)
        ensures !Accepts(s, c, i)
      {
        OthersRefused(cfg, missing, s, connfd, i, c);
      }
    } else {
      var n := Next(cfg, s, es[0]);
      NextInv(cfg, missing, s, es[0]);
      if s.pieces[i] == PIECE_COMPLETED {
        CompletedStaysOneStep(cfg, missing, s, es[0], i);
      } else {
        ClaimOneStep(cfg, missing, s, es[0], connfd, i);
      }
      assert es[0] in es && forall e <- es[1..] :: e in es;
      SingleWriter(cfg, missing, n, es[1..], connfd, i);
    }
  }

  /** In the end game no connection but the claimer's can write a claimed piece, and nobody a complete one. */
  lemma OthersRefused(cfg: Config, missing: int, s: State, connfd: int, i: nat, c: int)
    requires Inv(cfg, missing, s) && s.endGame && connfd >= 0 && Connected(s.pool, c)
    requires i < cfg.m.numPieces && s.pieces[i] in {PIECE_END_GAME_GETED + connfd, PIECE_COMPLETED}
    requires s.pieces[i] == PIECE_COMPLETED || c != connfd
    ensures !Accepts(s, c, i)
  {
    assert s.pool[Position(s.pool, c)] in s.pool;
  }

  /** Piece `i` is claimed for a connection on which nobody is asked for it. */
  ghost predicate Lost(cfg: Config, missing: int, s: State, connfd: int, i: nat) {
    && Inv(cfg, missing, s) && s.endGame && connfd >= 0
    && i < cfg.m.numPieces && s.pieces[i] == PIECE_END_GAME_GETED + connfd
    && Unasked(s.pool, connfd, i)
  }

  /** Nobody on the connection is asked for the piece. */
  ghost predicate Unasked(pool: seq<Peer>, connfd: int, i: nat) {
    forall p <- pool :: p.connfd == connfd && i < |p.pieces| ==> p.pieces[i] != PEER_BE_REQUESTED
  }

  /** Only a request for the piece changes that. */
  lemma UnaskedStays(cfg: Config, missing: int, s: State, e: Event, connfd: int, i: nat)
    requires Lost(cfg, missing, s, connfd, i) && Enabled(cfg, s, e)
    ensures Unasked(Next(cfg, s, e).pool, connfd, i)
  {
    hide PieceOk, WriteAt, TallyIs, Windowed, Count, FannedSent, StaysInside, Flags;
    hide SentFor, IsRequest, Released, BackCount;
    match e
    case HandleBitfield(c, bits) => assert s.pool[Position(s.pool, c)] in s.pool;
    case Deliver(c, index, begin, block) => assert s.pool[Position(s.pool, c)] in s.pool;
    case Disconnect(c) => RemoveIpIs(s.pool, Position(s.pool, c));
    case FanOut(index) =>
      forall p | p in FannedPool(s.pool, index) && p.connfd == connfd && i < |p.pieces|
        ensures p.pieces[i] != PEER_BE_REQUESTED
      {
        var k :| 0 <= k < |s.pool| && FannedPool(s.pool, index)[k] == p;
        assert s.pool[k] in s.pool && Candidate(s.pieces, s.avail, index);
      }
    case _ =>
  }

  /** When the claimer of a piece leaves, the piece is not returned. */
  lemma LeavingClaimerLosesPiece(cfg: Config, missing: int, s: State, connfd: int, i: nat)
    requires Inv(cfg, missing, s) && s.endGame && Enabled(cfg, s, Disconnect(connfd)) && connfd >= 0
    requires i < cfg.m.numPieces && s.pieces[i] == PIECE_END_GAME_GETED + connfd
    ensures Lost(cfg, missing, Next(cfg, s, Disconnect(connfd)), connfd, i)
  {
    DisconnectInv(cfg, missing, s, connfd);
    DisconnectReturnsOwn(cfg, missing, s, connfd);
    NobodyLeft(s.pool, connfd);
  }

  lemma NobodyLeft(pool: seq<Peer>, connfd: int)
    requires Distinct(pool) && Connected(pool, connfd)
    ensures var k := Position(pool, connfd); !Connected(pool[..k] + pool[k + 1..], connfd)
  {
    var k := Position(pool, connfd);
    var after := pool[..k] + pool[k + 1..];
    forall j | 0 <= j < |after|
      ensures after[j].connfd != connfd
    {
      assert if j < k then Differ(pool[j], pool[k]) else Differ(pool[k], pool[j + 1]);
    }
  }

  /** Such a piece is lost for ever: no run of the end game completes it or the file, even if the descriptor
      is used again. */
  lemma {:induction false} LostForEver(cfg: Config, missing: int, s: State, es: seq<Event>, connfd: int, i: nat)
    requires Lost(cfg, missing, s, connfd, i) && Legal(cfg, s, es)
    ensures var t := After(cfg, s, es); Lost(cfg, missing, t, connfd, i) && t.pieces[i] == s.pieces[i] && !t.isSeed
    decreases |es|
  {
    if es != [] {
      LostOneStep(cfg, missing, s, es[0], connfd, i);
      LostForEver(cfg, missing, Next(cfg, s, es[0]), es[1..], connfd, i);
    }
  }

  lemma LostOneStep(cfg: Config, missing: int, s: State, e: Event, connfd: int, i: nat)
    requires Lost(cfg, missing, s, connfd, i) && Enabled(cfg, s, e)
    ensures Lost(cfg, missing, Next(cfg, s, e), connfd, i)
  {
    NextInv(cfg, missing, s, e);
    UnaskedStays(cfg, missing, s, e, connfd, i);
    if e.Deliver? {
      assert s.pool[Position(s.pool, e.connfd)] in s.pool;
    }
    ClaimOneStep(cfg, missing, s, e, connfd, i);
  }
}
