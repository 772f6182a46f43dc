/** What depends on the assumptions about the environment: when the guard of an event is dropped, the whole
    invariant survives the step exactly if the guard would have held, or in the few cases stated here. */
module Guards {
  import opened Bytes
  import opened FileIo
  import opened Assembly
  import opened Protocol
  import opened Counting
  import opened Invariant
  import opened Theorems

  /** A peer joins: unless its address is known, its descriptor must be new and its states clear. */
  lemma AddPeerExactly(cfg: Config, missing: int, s: State, connfd: int, ip: string, initial: seq<int>)
    requires Inv(cfg, missing, s) && |initial| == cfg.m.numPieces
    ensures Inv(cfg, missing, Added(s, connfd, ip, initial)) <==>
            Known(s.pool, ip)
            || (connfd >= 0 && !Connected(s.pool, connfd)
                && forall i :: 0 <= i < |initial| ==> initial[i] == PEER_HAVNT)
  {
    var t := Added(s, connfd, ip, initial);
    if Known(s.pool, ip) {
    } else if connfd >= 0 && !Connected(s.pool, connfd) && forall i :: 0 <= i < |initial| ==> initial[i] == PEER_HAVNT {
      AddPeerInv(cfg, missing, s, connfd, ip, initial);
    } else {
      assert t.pool[0] in t.pool;
      AddPeerKeepsIndexExactly(cfg, s, connfd, ip, initial);
      if Connected(s.pool, connfd) {
        var k := Position(s.pool, connfd);
        assert t.pool[k + 1] == s.pool[k] && !Differ(t.pool[0], t.pool[k + 1]);
      }
    }
  }

  /** A bitfield arrives: it must name no piece that the peer already had. */
  lemma BitfieldExactly(cfg: Config, missing: int, s: State, connfd: int, bits: seq<bv8>)
    requires Inv(cfg, missing, s) && Connected(s.pool, connfd)
    ensures Inv(cfg, missing, BitfieldHandled(s, connfd, bits)) <==> Unmarked(s, connfd, bits)
  {
    if Unmarked(s, connfd, bits) {
      BitfieldInv(cfg, missing, s, connfd, bits);
    } else {
      BitfieldKeepsIndexExactly(cfg, s, connfd, bits);
    }
  }

  /** A block inside its piece arrives from a peer that is not asked for the piece. In the normal phase the piece must
      neither be complete nor be completed by it; in the end game a block that is not refused may complete its piece,
      but then the peer must have announced it. */
  lemma UnaskedBlockExactly(cfg: Config, missing: int, s: State, connfd: int, index: nat, begin: int, block: seq<byte>)
    requires Inv(cfg, missing, s) && Connected(s.pool, connfd) && index < cfg.m.numPieces
    requires StaysInside(cfg.m, index, begin, |block|)
    requires !AskedOf(s, Position(s.pool, connfd), index)
    ensures var completes := PieceOk(cfg.m, cfg.ok, Written(cfg.m, s, connfd, index, begin, block).file, index);
            Inv(cfg, missing, Delivered(cfg, s, connfd, index, begin, block)) <==>
            if !s.endGame then s.pieces[index] != PIECE_COMPLETED && !completes
            else !Accepts(s, connfd, index) || !completes
                 || HasAnnounced(s, Position(s.pool, connfd), index)
  {
    var k := Position(s.pool, connfd);
    assert s.pool[k] in s.pool;
    if s.endGame {
      UnaskedInEndGame(cfg, missing, s, k, index, begin, block);
    } else {
      UnaskedInNormalPhase(cfg, missing, s, k, index, begin, block);
    }
  }

  ghost predicate HasAnnounced(s: State, k: nat, i: nat) {
    k < |s.pool| && i < |s.pool[k].pieces| && s.pool[k].pieces[i] == PEER_HAVE
  }

  lemma UnaskedInNormalPhase(cfg: Config, missing: int, s: State, k: nat, index: nat, begin: int, block: seq<byte>)
    requires Inv(cfg, missing, s) && !s.endGame && k < |s.pool| && index < cfg.m.numPieces
    requires StaysInside(cfg.m, index, begin, |block|)
    requires !AskedOf(s, k, index) && index < |s.pool[k].pieces|
    ensures Connected(s.pool, s.pool[k].connfd)
    ensures Inv(cfg, missing, Delivered(cfg, s, s.pool[k].connfd, index, begin, block)) <==>
            s.pieces[index] != PIECE_COMPLETED
            && !PieceOk(cfg.m, cfg.ok, Written(cfg.m, s, s.pool[k].connfd, index, begin, block).file, index)
  {
    var connfd := s.pool[k].connfd;
    PositionIs(s.pool, k);
    var w := Written(cfg.m, s, connfd, index, begin, block);
    var t := Delivered(cfg, s, connfd, index, begin, block);
    BlockVerdicts(cfg, s.pieces, s.pieces, s.file, index, begin, block);
    if PieceOk(cfg.m, cfg.ok, w.file, index) {
      MovePiece(s.pieces, index, PIECE_COMPLETED);
      if s.pieces[index] == PIECE_REQUESTING {
        StillAskedOfOther(s.pool, s.pieces, k, index);
      }
    }
  }

  /** A requested piece that one peer delivers unasked is still asked of another. */
  lemma StillAskedOfOther(pool: seq<Peer>, pieces: seq<int>, k: nat, index: nat)
    requires TallyIs(pool, PEER_BE_REQUESTED, Flags(pieces)) && k < |pool| && index < |pieces|
    requires |pool[k].pieces| == |pieces| && pool[k].pieces[index] < PEER_BE_REQUESTED
    requires pieces[index] == PIECE_REQUESTING
    ensures var p := pool[k].(pieces := pool[k].pieces[index := PEER_HAVE]);
            !TallyIs(pool[k := p], PEER_BE_REQUESTED, Flags(pieces[index := PIECE_COMPLETED]))
  {
    var p := pool[k].(pieces := pool[k].pieces[index := PEER_HAVE]);
    TallyUpdate(pool, k, p, index, PEER_BE_REQUESTED);
    assert Flags(pieces)[index] == 1 && Flags(pieces[index := PIECE_COMPLETED])[index] == 0;
  }

  lemma UnaskedInEndGame(cfg: Config, missing: int, s: State, k: nat, index: nat, begin: int, block: seq<byte>)
    requires Inv(cfg, missing, s) && s.endGame && k < |s.pool| && index < cfg.m.numPieces
    requires StaysInside(cfg.m, index, begin, |block|)
    requires !AskedOf(s, k, index) && index < |s.pool[k].pieces|
    ensures Connected(s.pool, s.pool[k].connfd)
    ensures var connfd := s.pool[k].connfd;
            Inv(cfg, missing, Delivered(cfg, s, connfd, index, begin, block)) <==>
            !Accepts(s, connfd, index)
            || !PieceOk(cfg.m, cfg.ok, Written(cfg.m, s, connfd, index, begin, block).file, index)
            || s.pool[k].pieces[index] == PEER_HAVE
  {
    var connfd := s.pool[k].connfd;
    assert s.pool[k] in s.pool;
    PositionIs(s.pool, k);
    if Accepts(s, connfd, index) {
      WrittenInv(cfg, missing, s, connfd, index, begin, block);
      var w := Written(cfg.m, s, connfd, index, begin, block);
      if PieceOk(cfg.m, cfg.ok, w.file, index) {
        CompletedCounts(w, index);
        CompletedVerified(cfg, w.pieces, w.file, index);
        AnnouncesByDelivering(w.pool, w.avail, k, index);
      }
    }
  }

  /** Marking a delivered piece keeps the availability index exactly if the peer had announced the piece. */
  lemma AnnouncesByDelivering(pool: seq<Peer>, avail: seq<int>, k: nat, index: nat)
    requires PeersOk(pool) && TallyIs(pool, PEER_HAVE, avail) && k < |pool| && index < |avail| == |pool[k].pieces|
    requires pool[k].pieces[index] != PEER_BE_REQUESTED
    ensures var pool' := pool[k := pool[k].(pieces := pool[k].pieces[index := PEER_HAVE])];
            && PeersOk(pool') && Sized(pool', |avail|)
            && (TallyIs(pool', PEER_HAVE, avail) <==> pool[k].pieces[index] == PEER_HAVE)
  {
    assert pool[k] in pool;
    var p := pool[k].(pieces := pool[k].pieces[index := PEER_HAVE]);
    ReplacePeer(pool, k, p, |avail|);
    TallyUpdate(pool, k, p, index, PEER_HAVE);
    if pool[k].pieces[index] == PEER_HAVE {
      TallyIsReplace(pool, k, p, PEER_HAVE, avail, avail);
    }
  }

  /** The invariant but for the reservation of the requester, who has the window and goes for piece `index`. */
  ghost predicate Unreserved(cfg: Config, missing: int, s: State, index: nat) {
    && Shaped(cfg, s) && PeersOk(s.pool) && PiecesOk(s.pieces, s.endGame)
    && TallyIs(s.pool, PEER_HAVE, s.avail)
    && Verified(cfg, s.pieces, s.file, -1) && Seeded(s.pieces, s.isSeed)
    && Conserved(s.pieces, s.have, s.rest, s.returned, s.fanned, s.endGame)
    && Owned(s.pool, s.pieces, s.endGame)
    && Windowed(InFlight(s.pieces), s.requesting, s.locked, s.requester, s.endGame)
    && Bounded(cfg.m, missing, s.rest, s.issued, s.sent)
    && s.requester.Granted? && s.requester.index == index
    && !s.endGame && s.rest > 5 && index < cfg.m.numPieces && s.pieces[index] == PIECE_HAVNT
  }

  /** The request is sent: its peer must still be there. `connfd` still has the piece if it is connected. */
  lemma SendExactly(cfg: Config, missing: int, s: State, index: nat)
    requires Unreserved(cfg, missing, s, index)
    requires Connected(s.pool, s.requester.connfd) ==> StillOffers(s.pool, s.requester.connfd, index)
    ensures Inv(cfg, missing, SentRegardless(cfg.m, s, index, s.requester.connfd)) <==>
            Connected(s.pool, s.requester.connfd)
  {
    var connfd := s.requester.connfd;
    if Connected(s.pool, connfd) {
      SendInv(cfg, missing, s);
    } else {
      SendKeepsOwnershipExactly(cfg, s, index, connfd);
    }
  }

  /** The end-game turn keeps the invariant whether or not the window is free. */
  lemma FanOutNeedsNoWindow(cfg: Config, missing: int, s: State, index: nat)
    requires Inv(cfg, missing, s) && s.endGame && IsRarest(s.pieces, s.avail, index)
    ensures Inv(cfg, missing, FannedOut(cfg.m, s, index))
  {
    var free := s.(locked := false, isSeed := false);
    FanOutInv(cfg, missing, free, index);
    assert Candidate(s.pieces, s.avail, index);
  }
}
