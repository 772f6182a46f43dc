/** Every download that misses more than five pieces has a run that gets stuck. */
module Reachability {
  import opened Bitfield
  import opened Protocol
  import opened Counting
  import opened Invariant
  import opened Theorems

  /** Nobody is connected and the requester is between two requests of the normal phase. */
  ghost predicate Alone(cfg: Config, missing: int, s: State) {
    Inv(cfg, missing, s) && s.pool == [] && s.requester.Idle? && !s.endGame && !s.isSeed
  }

  /** A bitfield that names one piece. */
  function OneBit(n: nat, index: nat): (bits: seq<bv8>)
    requires index < n
  {
    SetBit(seq(n / 8 + 1, _ => 0), index, true)
  }

  lemma OneBitNamesOne(n: nat, index: nat)
    requires index < n
    ensures forall i :: 0 <= i < n ==> GetBit(OneBit(n, index), i) == if i == index then 1 else 0
  {
    var clear: seq<bv8> := seq(n / 8 + 1, _ => 0);
    forall i | 0 <= i < n
      ensures GetBit(OneBit(n, index), i) == if i == index then 1 else 0
    {
      GetSet(clear, index, true, i);
    }
  }

  /** A peer comes, offers one piece, is asked for it, and leaves. */
  ghost function Visit(cfg: Config, index: nat): (es: seq<Event>)
    requires index < cfg.m.numPieces
  {
    [AddPeer(0, "", seq(cfg.m.numPieces, _ => PEER_HAVNT)),
     HandleBitfield(0, OneBit(cfg.m.numPieces, index)),
     Begin(index, 0), Send, Disconnect(0)]
  }

  /** A state with one peer, who offers one piece. */
  ghost predicate OneOffer(cfg: Config, missing: int, s: State, index: nat) {
    && Inv(cfg, missing, s) && s.requester.Idle? && !s.endGame && !s.isSeed
    && index < cfg.m.numPieces && s.pieces[index] == PIECE_HAVNT
    && |s.pool| == 1 && s.pool[0].connfd == 0
    && forall i :: 0 <= i < cfg.m.numPieces ==>
         s.avail[i] == s.pool[0].pieces[i] == if i == index then PEER_HAVE else PEER_HAVNT
  }

  lemma PeerArrives(cfg: Config, missing: int, s: State, index: nat)
    requires Alone(cfg, missing, s) && index < cfg.m.numPieces && s.pieces[index] == PIECE_HAVNT
    ensures var es := Visit(cfg, index);
            && Enabled(cfg, s, es[0])
            && var t := Next(cfg, s, es[0]);
               && Shaped(cfg, t) && Enabled(cfg, t, es[1])
               && var u := Next(cfg, t, es[1]);
                  OneOffer(cfg, missing, u, index) && u.rest == s.rest && u.returned == s.returned
  {
    var es := Visit(cfg, index);
    var t := Next(cfg, s, es[0]);
    NextInv(cfg, missing, s, es[0]);
    PositionIs(t.pool, 0);
    OneBitNamesOne(cfg.m.numPieces, index);
    NextInv(cfg, missing, t, es[1]);
    forall i: nat | i < cfg.m.numPieces
      ensures s.avail[i] == 0
    {
      assert Tally(s.pool, i, PEER_HAVE) == 0;
    }
  }

  lemma NothingInFlight(cfg: Config, missing: int, s: State, index: nat)
    requires OneOffer(cfg, missing, s, index)
    ensures s.requesting == 0
  {
    forall i: nat | i < cfg.m.numPieces
      ensures s.pieces[i] != PIECE_REQUESTING
    {
      TallyPositive(s.pool, i, PEER_BE_REQUESTED);
      assert Flags(s.pieces)[i] == if s.pieces[i] == PIECE_REQUESTING then 1 else 0;
    }
    CountPositive(s.pieces, PIECE_REQUESTING);
  }

  /** A state in which the one peer is asked for the piece. */
  ghost predicate OneAsked(cfg: Config, missing: int, s: State, index: nat) {
    && Inv(cfg, missing, s) && s.requester.Idle? && !s.endGame && !s.isSeed
    && index < cfg.m.numPieces && s.pieces[index] == PIECE_REQUESTING
    && |s.pool| == 1 && s.pool[0].connfd == 0 && s.pool[0].pieces[index] == PEER_BE_REQUESTED
    && InFlight(s.pieces) == 1
  }

  lemma PeerIsAsked(cfg: Config, missing: int, s: State, index: nat)
    requires OneOffer(cfg, missing, s, index) && s.rest > 5
    ensures var es := Visit(cfg, index);
            && Enabled(cfg, s, es[2])
            && var t := Next(cfg, s, es[2]);
               && Shaped(cfg, t) && Enabled(cfg, t, es[3])
               && var u := Next(cfg, t, es[3]);
                  OneAsked(cfg, missing, u, index) && u.rest == s.rest - 1 && u.returned == s.returned
  {
    var es := Visit(cfg, index);
    NothingInFlight(cfg, missing, s, index);
    PositionIs(s.pool, 0);
    assert Candidate(s.pieces, s.avail, index) && Offers(s.pool, 0, index);
    NextInv(cfg, missing, s, es[2]);
    var t := Next(cfg, s, es[2]);
    MovePiece(s.pieces, index, PIECE_REQUESTING);
    NextInv(cfg, missing, t, es[3]);
  }

  lemma PeerLeaves(cfg: Config, missing: int, s: State, index: nat)
    requires OneAsked(cfg, missing, s, index)
    ensures Enabled(cfg, s, Disconnect(0))
    ensures var t := Next(cfg, s, Disconnect(0));
            Alone(cfg, missing, t) && t.rest == s.rest && t.returned > s.returned
  {
    PositionIs(s.pool, 0);
    NextInv(cfg, missing, s, Disconnect(0));
    RemoveIpIs(s.pool, 0);
    assert GoesBack(s.pieces, s.pool[0].pieces, index);
    BackCountPositive(s.pieces, s.pool[0].pieces, |s.pieces|);
  }

  /** A visit uses up a request and leaves its piece missing. */
  lemma OneVisit(cfg: Config, missing: int, s: State, index: nat)
    requires Alone(cfg, missing, s) && s.rest > 5 && index < cfg.m.numPieces && s.pieces[index] == PIECE_HAVNT
    ensures Legal(cfg, s, Visit(cfg, index))
    ensures var t := After(cfg, s, Visit(cfg, index));
            Alone(cfg, missing, t) && t.rest == s.rest - 1 && t.returned > s.returned
  {
    var es := Visit(cfg, index);
    PeerArrives(cfg, missing, s, index);
    var t := Next(cfg, s, es[0]);
    var u := Next(cfg, t, es[1]);
    PeerIsAsked(cfg, missing, u, index);
    var v := Next(cfg, u, es[2]);
    var w := Next(cfg, v, es[3]);
    PeerLeaves(cfg, missing, w, index);
    hide Enabled, Next, Shaped, Alone, OneOffer, OneAsked;
    OneMoreEvent(cfg, w, es[4..]);
    OneMoreEvent(cfg, v, es[3..]);
    OneMoreEvent(cfg, u, es[2..]);
    OneMoreEvent(cfg, t, es[1..]);
    OneMoreEvent(cfg, s, es);
  }

  lemma OneMoreEvent(cfg: Config, s: State, es: seq<Event>)
    requires es != [] && Shaped(cfg, s) && Enabled(cfg, s, es[0]) && Legal(cfg, Next(cfg, s, es[0]), es[1..])
    ensures Legal(cfg, s, es) && After(cfg, s, es) == After(cfg, Next(cfg, s, es[0]), es[1..])
  {
  }

  /** From every state of the normal phase in which nobody is connected, a run ends stuck. */
  lemma {:induction false} VisitsUntilStuck(cfg: Config, missing: int, s: State) returns (es: seq<Event>)
    requires Alone(cfg, missing, s) && missing > 5 && (s.rest > 5 || (s.rest == 5 && s.returned > 0))
    ensures Legal(cfg, s, es) && Stuck(cfg, missing, After(cfg, s, es))
    decreases s.rest
  {
    if s.rest == 5 {
      return [];
    }
    PiecesConserved(cfg, missing, s);
    CountPositive(s.pieces, PIECE_HAVNT);
    var index: nat :| index < cfg.m.numPieces && s.pieces[index] == PIECE_HAVNT;
    OneVisit(cfg, missing, s, index);
    var visit := Visit(cfg, index);
    var more := VisitsUntilStuck(cfg, missing, After(cfg, s, visit));
    RunsJoin(cfg, s, visit, more);
    es := visit + more;
  }

  lemma {:induction false} RunsJoin(cfg: Config, s: State, es: seq<Event>, more: seq<Event>)
    requires Legal(cfg, s, es) && Legal(cfg, After(cfg, s, es), more)
    ensures Legal(cfg, s, es + more) && After(cfg, s, es + more) == After(cfg, After(cfg, s, es), more)
    decreases |es|
  {
    if es == [] {
      assert es + more == more;
    } else {
      assert (es + more)[1..] == es[1..] + more;
      RunsJoin(cfg, Next(cfg, s, es[0]), es[1..], more);
    }
  }

  /** Whatever the torrent and the pieces at the start, if more than five are missing, some run gets stuck for ever. */
  lemma StuckIsReachable(cfg: Config, s: State) returns (es: seq<Event>)
    requires Init(cfg, s) && s.rest > 5
    ensures Legal(cfg, s, es) && Stuck(cfg, s.rest, After(cfg, s, es))
  {
    InitInv(cfg, s);
    es := VisitsUntilStuck(cfg, s.rest, s);
  }
}
