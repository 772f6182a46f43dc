/** A whole download: served, written to the wire, read back, and written to the local file. */
module EndToEnd {
  import opened Bytes
  import opened Geometry
  import opened FileIo
  import opened Assembly
  import opened WireFormat
  import opened Wire
  import opened Protocol
  import opened Counting
  import opened Invariant
  import opened Theorems

  /** Indices and lengths are ints. */
  predicate FitsInts(m: Meta) {
    m.numPieces < 0x8000_0000 && m.pieceLen < 0x7FFF_FFF3
  }

  /** The message with which a seed answers a request. */
  function Answer(m: Meta, seed: seq<byte>, w: Wanted): (message: Message)
    requires ValidMeta(m) && FitsInts(m) && m.size <= |seed| && IsRequest(m, w)
    ensures Sendable(message)
  {
    RequestInside(m, w);
    Piece(w.index, w.sub.begin, Served(m, seed, w))
  }

  function Answers(m: Meta, seed: seq<byte>, ws: seq<Wanted>): (messages: seq<Message>)
    requires ValidMeta(m) && FitsInts(m) && m.size <= |seed|
    requires forall w <- ws :: IsRequest(m, w)
    ensures forall message <- messages :: Sendable(message)
  {
    if ws == [] then [] else Answers(m, seed, ws[..|ws| - 1]) + [Answer(m, seed, ws[|ws| - 1])]
  }

  /** The local file after set_block was called for every PIECE among the messages. */
  function StoredFrom(m: Meta, local: seq<byte>, messages: seq<Message>): (file: seq<byte>)
    requires m.size <= |local|
    ensures |file| == |local|
  {
    if messages == [] then local
    else
      var last := messages[|messages| - 1];
      var before := StoredFrom(m, local, messages[..|messages| - 1]);
      if last.Piece? then WriteAt(before, m.size, last.index * m.pieceLen + last.begin, last.block) else before
  }

  /** send_piece sends just the answer: nothing of the block is missing or filled up. */
  lemma AnswerIsSent(m: Meta, seed: seq<byte>, w: Wanted)
    requires ValidMeta(m) && FitsInts(m) && QuartersCover(m) && m.size <= |seed| && IsRequest(m, w)
    ensures 0 <= At(m, w) < m.size && 0 < w.sub.length < 0x7FFF_FFF3
    ensures Answer(m, seed, w).block == Padded(ReadAt(seed, m.size, At(m, w), w.sub.length), w.sub.length)
    ensures HasBlock(Answer(m, seed, w))
  {
    RequestInside(m, w);
    QuartersCoverPiece(m, w.index);
  }

  lemma {:induction false} AnswersHaveBlocks(m: Meta, seed: seq<byte>, ws: seq<Wanted>)
    requires ValidMeta(m) && FitsInts(m) && QuartersCover(m) && m.size <= |seed|
    requires forall w <- ws :: IsRequest(m, w)
    ensures forall answer <- Answers(m, seed, ws) :: HasBlock(answer)
  {
    if ws != [] {
      AnswersHaveBlocks(m, seed, ws[..|ws| - 1]);
      AnswerIsSent(m, seed, ws[|ws| - 1]);
    }
  }

  lemma {:induction false} StoredIsArrived(m: Meta, seed: seq<byte>, local: seq<byte>, ws: seq<Wanted>)
    requires ValidMeta(m) && FitsInts(m) && m.size <= |seed| && m.size <= |local|
    requires forall w <- ws :: IsRequest(m, w)
    ensures StoredFrom(m, local, Answers(m, seed, ws)) == Arrived(m, seed, local, ws)
  {
    if ws != [] {
      hide WriteAt, Served;
      var n := |ws| - 1;
      StoredIsArrived(m, seed, local, ws[..n]);
      var messages := Answers(m, seed, ws);
      assert messages[..|messages| - 1] == Answers(m, seed, ws[..n]);
    }
  }

  /** If a seed answers every sub-request, in any order and any number of times, and its stream arrives whole,
      cut up in any way, then the client recovers the answers and its file becomes the seed's. */
  lemma DownloadOverTheWire(m: Meta, ok: Check, seed: seq<byte>, local: seq<byte>, ws: seq<Wanted>,
                            arrivals: seq<Arrival>)
    requires ValidMeta(m) && FitsInts(m) && QuartersCover(m) && m.size <= |seed| && m.size <= |local|
    requires forall w :: w in ws <==> IsRequest(m, w)
    requires Ahead(arrivals) == WriteAll(Answers(m, seed, ws)) && !Broken(arrivals)
    ensures var session := ReadAll(Ahead(arrivals), Broken(arrivals));
            var file := StoredFrom(m, local, session.messages);
            && session == Session(Answers(m, seed, ws), Closed)
            && file == seed[..m.size] + local[m.size..]
            && forall i: nat :: i < m.numPieces ==> PieceOk(m, ok, file, i) == PieceOk(m, ok, seed, i)
  {
    hide PieceOk;
    AnswersHaveBlocks(m, seed, ws);
    WholeStream(Answers(m, seed, ws));
    StoredIsArrived(m, seed, local, ws);
    DownloadCopiesSeed(m, ok, seed, local, ws);
  }

  // ----- In the protocol

  /** What a PIECE can say. */
  ghost predicate FromWire(e: Event) {
    e.Deliver? ==> e.index < 0x8000_0000 && -0x8000_0000 <= e.begin < 0x8000_0000
  }

  ghost predicate AllFromWire(es: seq<Event>) {
    forall i :: 0 <= i < |es| ==> FromWire(es[i])
  }

  /** The PIECE of an event, if it is one. */
  ghost function PieceOf(e: Event): (messages: seq<Message>)
    requires FromWire(e)
  {
    if e.Deliver? then [Piece(e.index, e.begin, e.block)] else []
  }

  /** The same, if its block is not refused. */
  ghost function AcceptedOf(s: State, e: Event): (messages: seq<Message>)
    requires FromWire(e)
  {
    if e.Deliver? && e.index < |s.pieces| && Accepts(s, e.connfd, e.index) then PieceOf(e) else []
  }

  /** The PIECE messages of a run whose blocks are not refused. */
  ghost function Accepted(cfg: Config, s: State, es: seq<Event>): (messages: seq<Message>)
    requires Legal(cfg, s, es) && AllFromWire(es)
    decreases |es|
  {
    if es == [] then [] else AcceptedOf(s, es[0]) + Accepted(cfg, Next(cfg, s, es[0]), es[1..])
  }

  /** All the PIECE messages of a run. */
  ghost function Delivered(es: seq<Event>): (messages: seq<Message>)
    requires AllFromWire(es)
  {
    if es == [] then [] else PieceOf(es[0]) + Delivered(es[1..])
  }

  lemma {:induction false} StoredInTwo(m: Meta, local: seq<byte>, first: seq<Message>, second: seq<Message>)
    requires m.size <= |local|
    ensures StoredFrom(m, local, first + second) == StoredFrom(m, StoredFrom(m, local, first), second)
    decreases |second|
  {
    hide WriteAt;
    var all := first + second;
    if second == [] {
      assert all == first;
    } else {
      var n := |second| - 1;
      assert all[..|all| - 1] == first + second[..n] && all[|all| - 1] == second[n];
      StoredInTwo(m, local, first, second[..n]);
    }
  }

  /** After every legal run, the file is what set_block makes of the blocks that were not refused, and the complete
      pieces are those that then pass the check. */
  lemma {:induction false} RunStoresAccepted(cfg: Config, missing: int, s: State, es: seq<Event>)
    requires Inv(cfg, missing, s) && Legal(cfg, s, es) && AllFromWire(es)
    ensures var t := After(cfg, s, es);
            && Inv(cfg, missing, t) && t.file == StoredFrom(cfg.m, s.file, Accepted(cfg, s, es))
            && forall i: nat :: i < cfg.m.numPieces ==>
                 (t.pieces[i] == PIECE_COMPLETED <==> PieceOk(cfg.m, cfg.ok, t.file, i))
    decreases |es|
  {
    hide Enabled, Next, PieceOk, StoredFrom, AcceptedOf;
    if es == [] {
      NothingStored(cfg.m, s.file);
    } else {
      NextInv(cfg, missing, s, es[0]);
      var t := Next(cfg, s, es[0]);
      RunStoresAccepted(cfg, missing, t, es[1..]);
      StoredByEvent(cfg, missing, s, es[0]);
      StoredInTwo(cfg.m, s.file, AcceptedOf(s, es[0]), Accepted(cfg, t, es[1..]));
    }
  }

  lemma NothingStored(m: Meta, file: seq<byte>)
    requires m.size <= |file|
    ensures StoredFrom(m, file, []) == file
  {
  }

  lemma StoredByEvent(cfg: Config, missing: int, s: State, e: Event)
    requires Inv(cfg, missing, s) && Enabled(cfg, s, e) && FromWire(e)
    ensures Next(cfg, s, e).file == StoredFrom(cfg.m, s.file, AcceptedOf(s, e))
  {
    hide PieceOk, WriteAt, TallyIs, Windowed, Count, FannedPool, FannedSent, StaysInside;
    if AcceptedOf(s, e) != [] {
      assert AcceptedOf(s, e)[..0] == [];
      assert StoredFrom(cfg.m, s.file, []) == s.file;
    }
  }

  /** Outside the end game no block is refused. */
  lemma {:induction false} NothingIsRefused(cfg: Config, s: State, es: seq<Event>)
    requires Legal(cfg, s, es) && AllFromWire(es) && !After(cfg, s, es).endGame
    ensures Accepted(cfg, s, es) == Delivered(es)
    decreases |es|
  {
    if es != [] {
      NoWayBack(cfg, Next(cfg, s, es[0]), es[1..]);
      NothingIsRefused(cfg, Next(cfg, s, es[0]), es[1..]);
    }
  }

  /** The end game is never left. */
  lemma {:induction false} NoWayBack(cfg: Config, s: State, es: seq<Event>)
    requires Legal(cfg, s, es)
    ensures s.endGame ==> After(cfg, s, es).endGame
    decreases |es|
  {
    if es != [] {
      NoWayBack(cfg, Next(cfg, s, es[0]), es[1..]);
    }
  }

  /** If the blocks that a run accepts are those that arrive over the wire from a seed, in the order of the stream, the
      file is put together from the seed's as `ByteAfter` and `DownloadCopiesSeed` say, and the complete pieces are
      exactly those that then pass the check. */
  lemma RunOverTheWire(cfg: Config, s: State, es: seq<Event>, seed: seq<byte>, ws: seq<Wanted>, arrivals: seq<Arrival>)
    requires Init(cfg, s) && Legal(cfg, s, es) && AllFromWire(es)
    requires FitsInts(cfg.m) && QuartersCover(cfg.m) && cfg.m.size <= |seed| && forall w <- ws :: IsRequest(cfg.m, w)
    requires Ahead(arrivals) == WriteAll(Answers(cfg.m, seed, ws)) && !Broken(arrivals)
    requires Accepted(cfg, s, es) == ReadAll(Ahead(arrivals), Broken(arrivals)).messages
    ensures var t := After(cfg, s, es);
            && Inv(cfg, s.rest, t) && t.file == Arrived(cfg.m, seed, s.file, ws)
            && forall i: nat :: i < cfg.m.numPieces ==>
                 (t.pieces[i] == PIECE_COMPLETED <==> PieceOk(cfg.m, cfg.ok, t.file, i))
  {
    hide PieceOk, Next, Enabled;
    AnswersHaveBlocks(cfg.m, seed, ws);
    WholeStream(Answers(cfg.m, seed, ws));
    InitInv(cfg, s);
    RunStoresAccepted(cfg, s.rest, s, es);
    StoredIsArrived(cfg.m, seed, s.file, ws);
  }

  /** In particular, if the stream answers every request and the seed's pieces pass the check, every piece is complete
      and the file is the seed's. */
  lemma RunCopiesSeed(cfg: Config, s: State, es: seq<Event>, seed: seq<byte>, ws: seq<Wanted>, arrivals: seq<Arrival>)
    requires Init(cfg, s) && Legal(cfg, s, es) && AllFromWire(es)
    requires FitsInts(cfg.m) && QuartersCover(cfg.m) && cfg.m.size <= |seed|
    requires forall w :: w in ws <==> IsRequest(cfg.m, w)
    requires Ahead(arrivals) == WriteAll(Answers(cfg.m, seed, ws)) && !Broken(arrivals)
    requires Accepted(cfg, s, es) == ReadAll(Ahead(arrivals), Broken(arrivals)).messages
    requires forall i: nat :: i < cfg.m.numPieces ==> PieceOk(cfg.m, cfg.ok, seed, i)
    ensures var t := After(cfg, s, es);
            && |t.pieces| == cfg.m.numPieces && (forall i :: 0 <= i < |t.pieces| ==> t.pieces[i] == PIECE_COMPLETED)
            && t.file == seed[..cfg.m.size] + s.file[cfg.m.size..]
  {
    hide PieceOk, Next, Enabled;
    RunOverTheWire(cfg, s, es, seed, ws, arrivals);
    DownloadCopiesSeed(cfg.m, cfg.ok, seed, s.file, ws);
  }
}
