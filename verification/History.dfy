/** The protocol told from its events alone: who is connected, what each peer announced and how often it was asked,
    and the requester's choices and requests in these terms. */
module History {
  import opened Bytes
  import opened Bitfield
  import opened Geometry
  import opened FileIo
  import opened Assembly
  import opened Protocol
  import opened Counting
  import opened Invariant
  import opened Theorems

  /** A connected peer: the pieces that its bitfields named, and the requests of the normal phase sent to it. */
  datatype Member = Member(connfd: int, ip: string, announced: set<nat>, used: int)

  /** The connected peers, the last to come first, and the connection chosen last. */
  datatype Roster = Roster(members: seq<Member>, chosen: int)

  /** The pieces that a bitfield names: bit 7 - i % 8 of octet i / 8 for piece `i`. */
  function Named(bits: seq<bv8>): (pieces: set<nat>) {
    set i: nat | i < 8 * |bits| && OctetBit(bits[i / 8] as int, 7 - i % 8) == 1
  }

  ghost predicate KnownTo(members: seq<Member>, ip: string) {
    exists m <- members :: m.ip == ip
  }

  function Announce(members: seq<Member>, connfd: int, pieces: set<nat>): (r: seq<Member>)
    ensures |r| == |members|
  {
    seq(|members|, k requires 0 <= k < |members| =>
      var m := members[k];
      if m.connfd == connfd then m.(announced := m.announced + pieces) else m)
  }

  function Use(members: seq<Member>, connfd: int): (r: seq<Member>)
    ensures |r| == |members|
  {
    seq(|members|, k requires 0 <= k < |members| =>
      var m := members[k];
      if m.connfd == connfd then m.(used := m.used + 1) else m)
  }

  function Leave(members: seq<Member>, connfd: int): (r: seq<Member>) {
    if members == [] then []
    else (if members[0].connfd == connfd then [] else [members[0]]) + Leave(members[1..], connfd)
  }

  ghost function Record(r: Roster, e: Event): Roster {
    match e
    case AddPeer(connfd, ip, _) =>
      if KnownTo(r.members, ip) then r else r.(members := [Member(connfd, ip, {}, 0)] + r.members)
    case HandleBitfield(connfd, bits) => r.(members := Announce(r.members, connfd, Named(bits)))
    case Begin(_, connfd) => r.(chosen := connfd)
    case Send => r.(members := Use(r.members, r.chosen))
    case Disconnect(connfd) => r.(members := Leave(r.members, connfd))
    case _ => r
  }

  ghost function RecordAll(r: Roster, es: seq<Event>): Roster
    decreases |es|
  {
    if es == [] then r else RecordAll(Record(r, es[0]), es[1..])
  }

  /** A peer of the pool as the roster has it. */
  ghost predicate Agrees(p: Peer, m: Member) {
    && p.connfd == m.connfd && p.ip == m.ip && p.downloaded == m.used
    && forall i: nat :: i < |p.pieces| ==> (p.pieces[i] != PEER_HAVNT <==> i in m.announced)
  }

  ghost predicate Tells(s: State, r: Roster) {
    && |s.pool| == |r.members|
    && (forall k :: 0 <= k < |s.pool| ==> Agrees(s.pool[k], r.members[k]))
    && (s.requester.Idle? || s.requester.connfd == r.chosen)
  }

  // ----- Every event

  lemma TellsAdded(s: State, r: Roster, connfd: int, ip: string, initial: seq<int>)
    requires Tells(s, r) && forall i :: 0 <= i < |initial| ==> initial[i] == PEER_HAVNT
    ensures Tells(Added(s, connfd, ip, initial), Record(r, AddPeer(connfd, ip, initial)))
  {
    assert Known(s.pool, ip) <==> KnownTo(r.members, ip) by {
      if Known(s.pool, ip) {
        var k :| 0 <= k < |s.pool| && s.pool[k].ip == ip;
        assert r.members[k] in r.members && Agrees(s.pool[k], r.members[k]);
      }
      if KnownTo(r.members, ip) {
        var k :| 0 <= k < |r.members| && r.members[k].ip == ip;
        assert s.pool[k] in s.pool && Agrees(s.pool[k], r.members[k]);
      }
    }
  }

  lemma TellsBitfield(s: State, r: Roster, connfd: int, bits: seq<bv8>)
    requires Tells(s, r) && Distinct(s.pool) && Connected(s.pool, connfd)
    ensures Tells(BitfieldHandled(s, connfd, bits), Record(r, HandleBitfield(connfd, bits)))
  {
    var k := Position(s.pool, connfd);
    var t, q := BitfieldHandled(s, connfd, bits), Record(r, HandleBitfield(connfd, bits));
    MarkedAgrees(s.pool[k], r.members[k], bits);
    forall j | 0 <= j < |s.pool|
      ensures Agrees(t.pool[j], q.members[j])
    {
      assert Agrees(s.pool[j], r.members[j]);
      PositionIs(s.pool, j);
    }
  }

  lemma MarkedAgrees(p: Peer, m: Member, bits: seq<bv8>)
    requires Agrees(p, m)
    ensures Agrees(p.(pieces := MarkedPieces(p.pieces, bits)), m.(announced := m.announced + Named(bits)))
  {
    forall i: nat | i < |p.pieces|
      ensures GetBit(bits, i) == 1 <==> i in Named(bits)
    {
      if i < 8 * |bits| {
        GetBitIsOctetBit(bits, i);
      }
    }
  }

  /** Only the connection counts when the other states of a peer change between announced ones. */
  lemma TellsReplaced(s: State, r: Roster, k: nat, p: Peer, m: Member, members: seq<Member>)
    requires Tells(s, r) && k < |s.pool| && Agrees(p, m)
    requires |members| == |r.members| && members[k] == m
    requires forall j :: 0 <= j < |members| && j != k ==> members[j] == r.members[j]
    ensures Tells(s.(pool := s.pool[k := p]), r.(members := members))
  {
  }

  lemma TellsSend(m: Meta, s: State, r: Roster)
    requires Tells(s, r) && Distinct(s.pool) && !s.requester.Idle?
    requires StillOffers(s.pool, s.requester.connfd, s.requester.index) && s.requester.index < |s.pieces|
    ensures Tells(PieceAsked(m, s, s.requester.index, s.requester.connfd), Record(r, Send))
  {
    var index, connfd := s.requester.index, s.requester.connfd;
    var k := Position(s.pool, connfd);
    var p := s.pool[k];
    var q := p.(pieces := p.pieces[index := PEER_BE_REQUESTED], downloaded := p.downloaded + 1);
    var members := Use(r.members, connfd);
    assert Agrees(p, r.members[k]);
    forall j | 0 <= j < |members| && j != k
      ensures members[j] == r.members[j]
    {
      assert Agrees(s.pool[j], r.members[j]);
      PositionIs(s.pool, j);
    }
    TellsReplaced(s, r, k, q, members[k], members);
  }

  lemma TellsDelivered(cfg: Config, s: State, r: Roster, connfd: int, index: nat, begin: int, block: seq<byte>)
    requires Tells(s, r) && Shaped(cfg, s) && Enabled(cfg, s, Deliver(connfd, index, begin, block))
    ensures Tells(Delivered(cfg, s, connfd, index, begin, block), r)
  {
    hide PieceOk, WriteAt;
    var k := Position(s.pool, connfd);
    var p := s.pool[k];
    assert Agrees(p, r.members[k]);
    TellsReplaced(s, r, k, p.(pieces := p.pieces[index := PEER_HAVE]), r.members[k], r.members);
  }

  lemma {:induction false} LeaveIs(pool: seq<Peer>, members: seq<Member>, k: nat)
    requires Distinct(pool) && |pool| == |members| && k < |pool|
    requires forall j :: 0 <= j < |pool| ==> pool[j].connfd == members[j].connfd
    ensures Leave(members, pool[k].connfd) == members[..k] + members[k + 1..]
  {
    var others := pool[1..];
    DistinctOthers(pool);
    if k == 0 {
      LeaveNobody(others, members[1..], pool[0].connfd);
    } else {
      assert Differ(pool[0], pool[k]);
      LeaveIs(others, members[1..], k - 1);
      assert members[..k] + members[k + 1..] == [members[0]] + (members[1..][..k - 1] + members[1..][k..]);
    }
  }

  lemma DistinctOthers(pool: seq<Peer>)
    requires Distinct(pool) && pool != []
    ensures Distinct(pool[1..]) && forall p <- pool[1..] :: p.connfd != pool[0].connfd
  {
    var others := pool[1..];
    forall i, j | 0 <= i < j < |others|
      ensures Differ(others[i], others[j])
    {
      assert Differ(pool[i + 1], pool[j + 1]);
    }
    forall j | 0 <= j < |others|
      ensures others[j].connfd != pool[0].connfd
    {
      assert Differ(pool[0], pool[j + 1]);
    }
  }

  lemma {:induction false} LeaveNobody(pool: seq<Peer>, members: seq<Member>, connfd: int)
    requires |pool| == |members| && forall p <- pool :: p.connfd != connfd
    requires forall j :: 0 <= j < |pool| ==> pool[j].connfd == members[j].connfd
    ensures Leave(members, connfd) == members
  {
    if pool != [] {
      assert pool[0] in pool;
      LeaveNobody(pool[1..], members[1..], connfd);
    }
  }

  lemma AgreeWithout(pool: seq<Peer>, members: seq<Member>, k: nat)
    requires |pool| == |members| && k < |pool| && forall j :: 0 <= j < |pool| ==> Agrees(pool[j], members[j])
    ensures var pool', members' := pool[..k] + pool[k + 1..], members[..k] + members[k + 1..];
            |pool'| == |members'| && forall j :: 0 <= j < |pool'| ==> Agrees(pool'[j], members'[j])
  {
    hide Agrees;
  }

  lemma TellsDisconnected(s: State, r: Roster, connfd: int)
    requires Tells(s, r) && Distinct(s.pool) && |s.pieces| == |s.avail| && Sized(s.pool, |s.pieces|)
    requires Connected(s.pool, connfd)
    ensures Tells(Disconnected(s, connfd), Record(r, Disconnect(connfd)))
  {
    var k := Position(s.pool, connfd);
    RemoveIpIs(s.pool, k);
    forall j | 0 <= j < |s.pool|
      ensures s.pool[j].connfd == r.members[j].connfd
    {
      assert Agrees(s.pool[j], r.members[j]);
    }
    hide Agrees, Distinct, Sized, RemoveIp, Leave, PiecesBack, AvailWithout, BackCount;
    LeaveIs(s.pool, r.members, k);
    AgreeWithout(s.pool, r.members, k);
  }

  lemma TellsFanned(m: Meta, s: State, r: Roster, index: nat)
    requires Tells(s, r) && index < |s.pieces|
    ensures Tells(FannedOut(m, s, index), r)
  {
    hide FannedSent;
    var pool := FannedPool(s.pool, index);
    forall k | 0 <= k < |s.pool|
      ensures Agrees(pool[k], r.members[k])
    {
      assert Agrees(s.pool[k], r.members[k]);
    }
  }

  lemma TellsNext(cfg: Config, missing: int, s: State, r: Roster, e: Event)
    requires Inv(cfg, missing, s) && Enabled(cfg, s, e) && Tells(s, r)
    ensures Tells(Next(cfg, s, e), Record(r, e))
  {
    match e
    case AddPeer(connfd, ip, initial) => TellsAdded(s, r, connfd, ip, initial);
    case HandleBitfield(connfd, bits) => TellsBitfield(s, r, connfd, bits);
    case Send => TellsSend(cfg.m, s, r);
    case Deliver(connfd, index, begin, block) => TellsDelivered(cfg, s, r, connfd, index, begin, block);
    case Disconnect(connfd) => TellsDisconnected(s, r, connfd);
    case FanOut(index) => TellsFanned(cfg.m, s, r, index);
    case Begin(index, connfd) =>
    case Acquire =>
    case EnterEndGame =>
  }

  lemma {:induction false} RunTells(cfg: Config, missing: int, s: State, r: Roster, es: seq<Event>)
    requires Inv(cfg, missing, s) && Legal(cfg, s, es) && Tells(s, r)
    ensures Tells(After(cfg, s, es), RecordAll(r, es))
    decreases |es|
  {
    hide Enabled, Next, Tells, Record;
    if es != [] {
      NextInv(cfg, missing, s, es[0]);
      TellsNext(cfg, missing, s, r, es[0]);
      RunTells(cfg, missing, Next(cfg, s, es[0]), Record(r, es[0]), es[1..]);
    }
  }

  /** After every run the pool is what the events say: who came and has not left, in reverse order, what each of them
      announced, and how many requests each was sent. */
  lemma PoolIsHistory(cfg: Config, s: State, es: seq<Event>)
    requires Init(cfg, s) && Legal(cfg, s, es)
    ensures Tells(After(cfg, s, es), RecordAll(Roster([], -1), es))
  {
    InitInv(cfg, s);
    RunTells(cfg, s.rest, s, Roster([], -1), es);
  }

  // ----- The choices of the requester

  /** The connected peers that announced piece `i`. */
  ghost function Announcers(members: seq<Member>, i: nat): (ks: set<nat>)
    ensures forall k <- ks :: k < |members|
  {
    set k: nat | k < |members| && i in members[k].announced
  }

  /** Piece `i` is missing, and somebody announced it. */
  ghost predicate CanBeHad(pieces: seq<int>, members: seq<Member>, i: nat) {
    i < |pieces| && pieces[i] == PIECE_HAVNT && Announcers(members, i) != {}
  }

  /** Of the pieces that can be had, the first of those that the fewest peers announced. */
  ghost predicate FewestAnnounced(pieces: seq<int>, members: seq<Member>, i: nat) {
    && CanBeHad(pieces, members, i)
    && forall j: nat :: CanBeHad(pieces, members, j) ==>
         var mine, others := |Announcers(members, i)|, |Announcers(members, j)|;
         mine <= others && (j < i ==> mine < others)
  }

  /** Of the peers that announced piece `i`, the last to come of those that were asked least often. */
  ghost predicate LeastAsked(members: seq<Member>, k: nat, i: nat) {
    && k in Announcers(members, i)
    && forall l <- Announcers(members, i) ::
         members[k].used <= members[l].used && (l < k ==> members[k].used < members[l].used)
  }

  lemma IndexIsAnnouncers(cfg: Config, missing: int, s: State, r: Roster, i: nat)
    requires Inv(cfg, missing, s) && Tells(s, r) && i < |s.avail|
    ensures s.avail[i] == |Announcers(r.members, i)|
    ensures s.avail[i] > 0 <==> Announcers(r.members, i) != {}
    ensures forall k: nat :: k in Announcers(r.members, i) <==> Offers(s.pool, k, i)
  {
    TallyIsNumber(s.pool, i, PEER_HAVE);
    var offering := Having(s.pool, i, PEER_HAVE);
    forall k: nat
      ensures k in offering <==> k in Announcers(r.members, i)
      ensures k in offering <==> Offers(s.pool, k, i)
    {
      if k < |s.pool| {
        assert s.pool[k] in s.pool && Agrees(s.pool[k], r.members[k]);
      }
    }
    assert offering == Announcers(r.members, i);
  }

  lemma RarestIsFewest(cfg: Config, missing: int, s: State, r: Roster, i: nat)
    requires Inv(cfg, missing, s) && Tells(s, r)
    ensures IsRarest(s.pieces, s.avail, i) <==> FewestAnnounced(s.pieces, r.members, i)
  {
    forall j: nat
      ensures j < |s.avail| ==> s.avail[j] == |Announcers(r.members, j)|
      ensures Candidate(s.pieces, s.avail, j) <==> CanBeHad(s.pieces, r.members, j)
    {
      if j < |s.avail| {
        IndexIsAnnouncers(cfg, missing, s, r, j);
      }
    }
    hide Inv, Tells, Announcers, CanBeHad;
    assert forall j: int :: Candidate(s.pieces, s.avail, j) ==> 0 <= j < |s.avail|;
  }

  lemma LeastUsedIsLeastAsked(cfg: Config, missing: int, s: State, r: Roster, i: nat, k: nat)
    requires Inv(cfg, missing, s) && Tells(s, r) && i < |s.avail|
    ensures IsLeastUsed(s.pool, i, k) <==> LeastAsked(r.members, k, i)
  {
    IndexIsAnnouncers(cfg, missing, s, r, i);
    hide Inv, Announcers;
    forall j: nat | j < |s.pool|
      ensures s.pool[j].downloaded == r.members[j].used
    {
      assert Agrees(s.pool[j], r.members[j]);
    }
  }

  /** In every run, a request of the normal phase can begin exactly for the missing piece that the fewest connected
      peers announced, the lowest of them, and at the peer that was asked least often of those that announced it, the
      last to come of them. */
  lemma RequestsFromHistory(cfg: Config, s: State, es: seq<Event>, index: nat, connfd: int)
    requires Init(cfg, s) && Legal(cfg, s, es)
    ensures var t, members := After(cfg, s, es), RecordAll(Roster([], -1), es).members;
            Shaped(cfg, t) &&
            (Enabled(cfg, t, Begin(index, connfd)) <==>
              && t.requester.Idle? && !t.endGame && !t.isSeed && t.rest > 5
              && FewestAnnounced(t.pieces, members, index)
              && exists k: nat :: LeastAsked(members, k, index) && members[k].connfd == connfd)
  {
    EveryRun(cfg, s, es);
    PoolIsHistory(cfg, s, es);
    var t, r := After(cfg, s, es), RecordAll(Roster([], -1), es);
    ChoicesFromHistory(cfg, s.rest, t, r, index, connfd);
  }

  lemma ChoicesFromHistory(cfg: Config, missing: int, s: State, r: Roster, index: nat, connfd: int)
    requires Inv(cfg, missing, s) && Tells(s, r)
    ensures CanBegin(s, index, connfd) <==>
            && s.requester.Idle? && !s.endGame && !s.isSeed && s.rest > 5
            && FewestAnnounced(s.pieces, r.members, index)
            && exists k: nat :: LeastAsked(r.members, k, index) && r.members[k].connfd == connfd
  {
    RarestIsFewest(cfg, missing, s, r, index);
    hide IsRarest, FewestAnnounced;
    if index < |s.avail| {
      forall k: nat | k < |s.pool|
        ensures IsLeastUsed(s.pool, index, k) <==> LeastAsked(r.members, k, index)
        ensures Connected(s.pool, s.pool[k].connfd) && Position(s.pool, s.pool[k].connfd) == k
        ensures s.pool[k].connfd == r.members[k].connfd
      {
        LeastUsedIsLeastAsked(cfg, missing, s, r, index, k);
        PositionIs(s.pool, k);
        assert Agrees(s.pool[k], r.members[k]);
      }
      hide Inv, IsLeastUsed, LeastAsked, Announcers;
    }
  }

  // ----- The requests that are sent

  /** What an event makes the client send: the sub-requests of the chosen piece to the chosen peer, in the end game to
      every peer that has the piece and is not asked for it yet. */
  ghost predicate Sends(m: Meta, s: State, e: Event, x: Sent) {
    match e
    case Send =>
      s.requester.Granted? && x.connfd == s.requester.connfd && x.wanted.index == s.requester.index
      && x.wanted.sub in Subs(m, x.wanted.index)
    case FanOut(index) =>
      && x.wanted.index == index && x.wanted.sub in Subs(m, index)
      && exists k :: HasUnasked(s, k, index) && s.pool[k].connfd == x.connfd
    case _ => false
  }

  ghost predicate HasUnasked(s: State, k: int, i: nat) {
    0 <= k < |s.pool| && i < |s.pool[k].pieces| && s.pool[k].pieces[i] == PEER_HAVE
  }

  lemma {:induction false} FannedSentExactly(m: Meta, s: State, pool: seq<Peer>, index: nat, x: Sent)
    requires pool <= s.pool
    ensures x in FannedSent(m, pool, index) <==>
            && x.wanted.index == index && x.wanted.sub in Subs(m, index)
            && exists k :: k < |pool| && HasUnasked(s, k, index) && s.pool[k].connfd == x.connfd
  {
    if pool != [] {
      var n := |pool| - 1;
      FannedSentExactly(m, s, pool[..n], index, x);
      SentForExactly(m, pool[n].connfd, index, x);
      hide Subs, SentFor;
      assert HasUnasked(s, n, index) <==> index < |pool[n].pieces| && pool[n].pieces[index] == PEER_HAVE;
    }
  }

  lemma SentForExactly(m: Meta, connfd: int, index: nat, x: Sent)
    ensures x in SentFor(m, connfd, index) <==>
            x.connfd == connfd && x.wanted.index == index && x.wanted.sub in Subs(m, index)
  {
    hide Subs;
    var subs := Subs(m, index);
    if x.connfd == connfd && x.wanted.index == index && x.wanted.sub in subs {
      var j :| 0 <= j < |subs| && subs[j] == x.wanted.sub;
      assert SentFor(m, connfd, index)[j] == x;
    }
  }

  /** An event adds to what was sent exactly what it sends. */
  lemma SentExactly(cfg: Config, s: State, e: Event, x: Sent)
    requires Shaped(cfg, s) && Enabled(cfg, s, e)
    ensures s.sent <= Next(cfg, s, e).sent
    ensures x in Next(cfg, s, e).sent[|s.sent|..] <==> Sends(cfg.m, s, e, x)
  {
    hide PieceOk, WriteAt, IsRarest;
    match e
    case Send => SentForExactly(cfg.m, s.requester.connfd, s.requester.index, x);
    case FanOut(index) => FannedSentExactly(cfg.m, s, s.pool, index, x);
    case _ => assert Next(cfg, s, e).sent == s.sent;
  }

  /** A peer that is asked for a piece was sent all of its sub-requests. */
  ghost predicate AskedWereSent(m: Meta, s: State) {
    forall k, i, sub :: AskedOf(s, k, i) && sub in Subs(m, i) ==> Sent(s.pool[k].connfd, Wanted(i, sub)) in s.sent
  }

  lemma AskedWereSentInEveryRun(cfg: Config, s: State, es: seq<Event>)
    requires Init(cfg, s) && Legal(cfg, s, es)
    ensures AskedWereSent(cfg.m, After(cfg, s, es))
  {
    InitInv(cfg, s);
    AskedWereSentInRun(cfg, s.rest, s, es);
  }

  lemma {:induction false} AskedWereSentInRun(cfg: Config, missing: int, s: State, es: seq<Event>)
    requires Inv(cfg, missing, s) && Legal(cfg, s, es) && AskedWereSent(cfg.m, s)
    ensures AskedWereSent(cfg.m, After(cfg, s, es))
    decreases |es|
  {
    hide Enabled, Next, AskedWereSent;
    if es != [] {
      NextInv(cfg, missing, s, es[0]);
      AskedWereSentNext(cfg, missing, s, es[0]);
      AskedWereSentInRun(cfg, missing, Next(cfg, s, es[0]), es[1..]);
    }
  }

  lemma AskedWereSentNext(cfg: Config, missing: int, s: State, e: Event)
    requires Inv(cfg, missing, s) && Enabled(cfg, s, e) && AskedWereSent(cfg.m, s)
    ensures AskedWereSent(cfg.m, Next(cfg, s, e))
  {
    var t := Next(cfg, s, e);
    forall k, i, sub | AskedOf(t, k, i) && sub in Subs(cfg.m, i)
      ensures Sent(t.pool[k].connfd, Wanted(i, sub)) in t.sent
    {
      var x := Sent(t.pool[k].connfd, Wanted(i, sub));
      SentExactly(cfg, s, e, x);
      AskedBefore(cfg, missing, s, e, k, i);
    }
  }

  /** The connection is asked for the piece. */
  ghost predicate IsAsked(s: State, connfd: int, i: nat) {
    exists j :: AskedOf(s, j, i) && s.pool[j].connfd == connfd
  }

  lemma AskedBeforeAdded(s: State, connfd: int, ip: string, initial: seq<int>, k: int, i: nat)
    requires AskedOf(Added(s, connfd, ip, initial), k, i)
    requires forall j :: 0 <= j < |initial| ==> initial[j] == PEER_HAVNT
    ensures IsAsked(s, Added(s, connfd, ip, initial).pool[k].connfd, i)
  {
    var t := Added(s, connfd, ip, initial);
    var j := if Known(s.pool, ip) then k else k - 1;
    assert AskedOf(s, j, i) && s.pool[j].connfd == t.pool[k].connfd;
  }

  lemma AskedBeforeDisconnected(s: State, connfd: int, k: int, i: nat)
    requires Distinct(s.pool) && |s.pieces| == |s.avail| && Sized(s.pool, |s.pieces|) && Connected(s.pool, connfd)
    requires AskedOf(Disconnected(s, connfd), k, i)
    ensures IsAsked(s, Disconnected(s, connfd).pool[k].connfd, i)
  {
    var t, l := Disconnected(s, connfd), Position(s.pool, connfd);
    RemoveIpIs(s.pool, l);
    var j := if k < l then k else k + 1;
    assert AskedOf(s, j, i) && s.pool[j].connfd == t.pool[k].connfd;
  }

  /** Who is asked for a piece after an event was asked before, or is asked by it. */
  lemma AskedBefore(cfg: Config, missing: int, s: State, e: Event, k: int, i: nat)
    requires Inv(cfg, missing, s) && Enabled(cfg, s, e) && AskedOf(Next(cfg, s, e), k, i)
    ensures var connfd := Next(cfg, s, e).pool[k].connfd;
            || IsAsked(s, connfd, i)
            || (e == Send && i == s.requester.index && connfd == s.requester.connfd)
            || (e == FanOut(i) && HasUnasked(s, k, i) && s.pool[k].connfd == connfd)
  {
    hide PieceOk, WriteAt, IsRarest, SentFor, FannedSent, TallyIs, Windowed, Conserved, Verified, Bounded;
    match e
    case AddPeer(connfd, ip, initial) => AskedBeforeAdded(s, connfd, ip, initial, k, i);
    case Disconnect(connfd) => AskedBeforeDisconnected(s, connfd, k, i);
    case _ =>
      assert s.pool[k] in s.pool && s.pool[k].connfd == Next(cfg, s, e).pool[k].connfd;
      assert AskedOf(s, k, i) || e == Send || e == FanOut(i);
  }
}
