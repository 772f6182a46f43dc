/** Serving every sub-request from a complete file and writing the answers, in any order, copies the file. */
module Assembly {
  import opened Bytes
  import opened Geometry
  import opened FileIo

  /** A sub-request of a piece. */
  datatype Wanted = Wanted(index: nat, sub: Sub)

  ghost predicate IsRequest(m: Meta, w: Wanted) {
    w.index < m.numPieces && w.sub in Subs(m, w.index)
  }

  function At(m: Meta, w: Wanted): int {
    w.index * m.pieceLen + w.sub.begin
  }

  ghost predicate Covers(m: Meta, w: Wanted, x: int) {
    At(m, w) <= x < At(m, w) + w.sub.length
  }

  /** Some request of the whole download asks for byte `x`. */
  ghost predicate Requested(m: Meta, x: int) {
    exists w :: IsRequest(m, w) && Covers(m, w, x)
  }

  /** The sub-requests of every piece reach its end. */
  predicate QuartersCover(m: Meta) {
    m.pieceLen >= 4 && (m.pieceLen % 4 == 0 || m.size <= 4 * (m.pieceLen / 4))
  }

  lemma QuartersCoverPiece(m: Meta, i: nat)
    requires ValidMeta(m) && i < m.numPieces
    ensures QuartersCover(m) ==> Tiles(Subs(m, i), 0, End(m, i) - Start(m, i))
  {
    PieceInside(m, i);
    SubsTilePiece(m, i);
    assert Start(m, i + 1) == Start(m, i) + m.pieceLen;
  }

  /** Requests lie inside their pieces. */
  lemma RequestInside(m: Meta, w: Wanted)
    requires ValidMeta(m) && IsRequest(m, w)
    ensures 0 <= w.sub.begin && 0 <= w.sub.length && At(m, w) + w.sub.length <= End(m, w.index)
    ensures w.sub.begin + w.sub.length <= 4 * (m.pieceLen / 4)
  {
    PieceInside(m, w.index);
    SubsInside(Start(m, w.index), m.size, m.pieceLen / 4, 0, 4);
    assert Start(m, w.index + 1) == Start(m, w.index) + m.pieceLen;
  }

  lemma {:induction false} SubsInside(start: int, size: int, subLen: int, begin: int, count: nat)
    requires subLen >= 0 && start + begin <= size
    ensures forall sub <- SubsFrom(start, size, subLen, begin, count) ::
              begin <= sub.begin && 0 <= sub.length && start + sub.begin + sub.length <= size
              && sub.begin + sub.length <= begin + count * subLen
    decreases count
  {
    if count > 0 {
      var length := if start + begin + subLen > size then size - start - begin else subLen;
      assert count * subLen == (count - 1) * subLen + subLen;
      assert 0 <= (count - 1) * length <= (count - 1) * subLen;
      SubsInside(start, size, length, begin + length, count - 1);
    }
  }

  /** No byte is asked for twice: requests that cover the same byte are the same request. */
  lemma RequestsAreDisjoint(m: Meta, v: Wanted, w: Wanted, x: int)
    requires ValidMeta(m) && IsRequest(m, v) && IsRequest(m, w) && Covers(m, v, x) && Covers(m, w, x)
    ensures v == w
  {
    RequestInside(m, v);
    RequestInside(m, w);
    if v.index != w.index {
      PiecesDisjoint(m, v.index, w.index);
    } else {
      PieceInside(m, v.index);
      SubsDisjoint(Start(m, v.index), m.size, m.pieceLen / 4, 0, 4, v.sub, w.sub, x - Start(m, v.index));
    }
  }

  lemma {:induction false} SubsDisjoint(start: int, size: int, subLen: int, begin: int, count: nat, a: Sub, b: Sub,
                                        x: int)
    requires subLen >= 0 && start + begin <= size
    requires a in SubsFrom(start, size, subLen, begin, count) && a.begin <= x < a.begin + a.length
    requires b in SubsFrom(start, size, subLen, begin, count) && b.begin <= x < b.begin + b.length
    ensures a == b
    decreases count
  {
    var length := if start + begin + subLen > size then size - start - begin else subLen;
    var first := Sub(begin, length);
    SubsInside(start, size, length, begin + length, count - 1);
    if a != first && b != first {
      SubsDisjoint(start, size, length, begin + length, count - 1, a, b, x);
    }
  }

  /** The download asks for every byte of the file exactly when quarters cover. */
  lemma EveryByteRequested(m: Meta)
    requires ValidMeta(m) && m.numPieces > 0
    ensures QuartersCover(m) <==> forall x :: 0 <= x < m.size ==> Requested(m, x)
  {
    if QuartersCover(m) {
      forall x | 0 <= x < m.size
        ensures Requested(m, x)
      {
        var w := RequestFor(m, x);
      }
    } else {
      var x := NeverRequested(m);
    }
  }

  lemma RequestFor(m: Meta, x: nat) returns (w: Wanted)
    requires ValidMeta(m) && QuartersCover(m) && x < m.size
    ensures IsRequest(m, w) && Covers(m, w, x)
  {
    var i := PieceOfByte(m, x);
    QuartersCoverPiece(m, i);
    var k := TiledByte(Subs(m, i), 0, End(m, i) - Start(m, i), x - Start(m, i));
    w := Wanted(i, Subs(m, i)[k]);
  }

  /** A byte of the first piece that no request asks for. */
  lemma NeverRequested(m: Meta) returns (x: nat)
    requires ValidMeta(m) && m.numPieces > 0 && !QuartersCover(m)
    ensures x < m.size && !Requested(m, x)
  {
    PieceInside(m, 0);
    x := 4 * (m.pieceLen / 4);
    assert Start(m, 0) == 0 && Start(m, 1) == m.pieceLen;
    if m.pieceLen < 4 {
      assert x == 0;
    }
    forall w | IsRequest(m, w)
      ensures !Covers(m, w, x)
    {
      RequestInside(m, w);
      if w.index > 0 {
        StartMonotone(m, 1, w.index);
      }
    }
  }

  // ----- Blocks of any shape

  /** What a block of `length` bytes, `begin` bytes into piece `index`, puts into the file lies within that piece. */
  predicate StaysInside(m: Meta, index: nat, begin: int, length: nat) {
    var at := Start(m, index) + begin;
    var n := Clipped(m.size, at, length);
    n <= 0 || (Start(m, index) <= at && at + n <= End(m, index))
  }

  lemma RequestStaysInside(m: Meta, w: Wanted)
    requires ValidMeta(m) && IsRequest(m, w)
    ensures w.sub.length >= 0 && StaysInside(m, w.index, w.sub.begin, w.sub.length)
  {
    RequestInside(m, w);
  }

  /** No byte of another piece is changed. */
  ghost predicate OthersKept(m: Meta, before: seq<byte>, after: seq<byte>, index: nat)
    requires ValidMeta(m) && m.size <= |before| && m.size <= |after|
  {
    forall j: nat :: j < m.numPieces && j != index ==> PieceBytes(m, after, j) == PieceBytes(m, before, j)
  }

  lemma InsideKeepsOthers(m: Meta, file: seq<byte>, index: nat, begin: int, block: seq<byte>)
    requires ValidMeta(m) && m.size <= |file| && index < m.numPieces && StaysInside(m, index, begin, |block|)
    ensures OthersKept(m, file, WriteAt(file, m.size, Start(m, index) + begin, block), index)
  {
    hide Start, WriteAt;
    var after := WriteAt(file, m.size, Start(m, index) + begin, block);
    forall j: nat | j < m.numPieces && j != index
      ensures PieceBytes(m, after, j) == PieceBytes(m, file, j)
    {
      PieceInside(m, j);
      PiecesDisjoint(m, index, j);
      RangeKept(file, m.size, Start(m, index) + begin, block, Start(m, j), End(m, j));
    }
  }

  /** What lies before or behind a write is kept. */
  lemma RangeKept(file: seq<byte>, size: nat, at: int, block: seq<byte>, from: nat, to: nat)
    requires size <= |file| && from <= to <= size
    requires var n := Clipped(size, at, |block|); n <= 0 || to <= at || at + n <= from
    ensures WriteAt(file, size, at, block)[from..to] == file[from..to]
  {
    var after := WriteAt(file, size, at, block);
    forall x | from <= x < to
      ensures after[x] == file[x]
    {
    }
  }

  /** Whatever its contents, a block of this length at this place leaves the other pieces alone, if and only if
      what is written of it stays inside its piece. */
  lemma BlockKeepsOthersExactly(m: Meta, file: seq<byte>, index: nat, begin: int, length: nat)
    requires ValidMeta(m) && m.size <= |file| && index < m.numPieces
    ensures (forall block: seq<byte> :: |block| == length ==>
               OthersKept(m, file, WriteAt(file, m.size, Start(m, index) + begin, block), index))
            <==> StaysInside(m, index, begin, length)
  {
    if StaysInside(m, index, begin, length) {
      forall block: seq<byte> | |block| == length
        ensures OthersKept(m, file, WriteAt(file, m.size, Start(m, index) + begin, block), index)
      {
        InsideKeepsOthers(m, file, index, begin, block);
      }
    } else {
      var block := Intruder(m, file, index, begin, length);
    }
  }

  /** A block that changes a byte of another piece. */
  lemma Intruder(m: Meta, file: seq<byte>, index: nat, begin: int, length: nat) returns (block: seq<byte>)
    requires ValidMeta(m) && m.size <= |file| && index < m.numPieces && !StaysInside(m, index, begin, length)
    ensures |block| == length
    ensures !OthersKept(m, file, WriteAt(file, m.size, Start(m, index) + begin, block), index)
  {
    hide Start;
    var at := Start(m, index) + begin;
    PieceInside(m, index);
    var x: nat := if at < Start(m, index) then at else if at >= End(m, index) then at else End(m, index);
    var j := PieceOfByte(m, x);
    PieceInside(m, j);
    var other: byte := if file[x] == 0 then 1 else 0;
    block := seq(length, _ => other);
    var after := WriteAt(file, m.size, at, block);
    ByteWritten(file, m.size, at, block, x);
    ByteOfPiece(m, after, j, x);
    ByteOfPiece(m, file, j, x);
    hide WriteAt, PieceBytes;
    assert PieceBytes(m, after, j) != PieceBytes(m, file, j);
  }

  lemma ByteWritten(file: seq<byte>, size: nat, at: int, block: seq<byte>, x: nat)
    requires size <= |file| && at <= x < at + Clipped(size, at, |block|)
    ensures x < size && WriteAt(file, size, at, block)[x] == block[x - at]
  {
  }

  lemma ByteOfPiece(m: Meta, file: seq<byte>, j: nat, x: nat)
    requires ValidMeta(m) && j < m.numPieces && m.size <= |file| && Start(m, j) <= x < End(m, j)
    ensures x < |file| && x - Start(m, j) < |PieceBytes(m, file, j)|
    ensures PieceBytes(m, file, j)[x - Start(m, j)] == file[x]
  {
    PieceInside(m, j);
  }

  // ----- Downloading

  /** What a seed with file `seed` sends back for a request. */
  function Served(m: Meta, seed: seq<byte>, w: Wanted): (block: seq<byte>)
    requires m.size <= |seed| && w.sub.length >= 0
  {
    ReadAt(seed, m.size, At(m, w), w.sub.length)
  }

  /** The local file after the answers to `arrivals` were written, in that order. */
  ghost function Arrived(m: Meta, seed: seq<byte>, local: seq<byte>, arrivals: seq<Wanted>): (file: seq<byte>)
    requires ValidMeta(m) && m.size <= |seed| && m.size <= |local|
    requires forall w <- arrivals :: IsRequest(m, w)
    ensures |file| == |local|
  {
    if arrivals == [] then local
    else
      var last := arrivals[|arrivals| - 1];
      RequestInside(m, last);
      WriteAt(Arrived(m, seed, local, arrivals[..|arrivals| - 1]), m.size, At(m, last), Served(m, seed, last))
  }

  ghost predicate CoveredBy(m: Meta, arrivals: seq<Wanted>, x: int) {
    exists w <- arrivals :: Covers(m, w, x)
  }

  /** A byte is the seed's if an answer covered it, and otherwise what it was. */
  lemma {:induction false} ByteAfter(m: Meta, seed: seq<byte>, local: seq<byte>, arrivals: seq<Wanted>, x: nat)
    requires ValidMeta(m) && m.size <= |seed| && m.size <= |local|
    requires forall w <- arrivals :: IsRequest(m, w)
    requires x < |local|
    ensures CoveredBy(m, arrivals, x) ==> x < m.size
    ensures Arrived(m, seed, local, arrivals)[x] == if CoveredBy(m, arrivals, x) then seed[x] else local[x]
  {
    if arrivals != [] {
      var n := |arrivals| - 1;
      var last := arrivals[n];
      ByteAfter(m, seed, local, arrivals[..n], x);
      ServedByte(m, seed, Arrived(m, seed, local, arrivals[..n]), last, x);
      assert CoveredBy(m, arrivals, x) <==> CoveredBy(m, arrivals[..n], x) || Covers(m, last, x) by {
        assert arrivals == arrivals[..n] + [last];
      }
    }
  }

  /** Writing one answer changes the bytes it covers, and no others. */
  lemma ServedByte(m: Meta, seed: seq<byte>, file: seq<byte>, w: Wanted, x: nat)
    requires ValidMeta(m) && m.size <= |seed| && m.size <= |file| && x < |file|
    requires IsRequest(m, w)
    ensures 0 <= w.sub.length && (Covers(m, w, x) ==> x < m.size)
    ensures WriteAt(file, m.size, At(m, w), Served(m, seed, w))[x] == if Covers(m, w, x) then seed[x] else file[x]
  {
    RequestInside(m, w);
    PieceInside(m, w.index);
  }

  /** If every sub-request is answered, in any order and any number of times, the local file becomes the seed's,
      nothing else on the disk changes, and every piece passes the check if the seed's pieces do. */
  lemma DownloadCopiesSeed(m: Meta, ok: Check, seed: seq<byte>, local: seq<byte>, arrivals: seq<Wanted>)
    requires ValidMeta(m) && m.size <= |seed| && m.size <= |local| && QuartersCover(m)
    requires forall w :: w in arrivals <==> IsRequest(m, w)
    ensures var file := Arrived(m, seed, local, arrivals);
            && file == seed[..m.size] + local[m.size..]
            && forall i: nat :: i < m.numPieces ==> PieceOk(m, ok, file, i) == PieceOk(m, ok, seed, i)
  {
    var file := Arrived(m, seed, local, arrivals);
    forall x: nat | x < |local|
      ensures file[x] == (seed[..m.size] + local[m.size..])[x]
    {
      ByteAfter(m, seed, local, arrivals, x);
      if x < m.size {
        var w := RequestFor(m, x);
        assert w in arrivals;
      }
    }
    assert file == seed[..m.size] + local[m.size..];
    forall i: nat | i < m.numPieces
      ensures PieceOk(m, ok, file, i) == PieceOk(m, ok, seed, i)
    {
      PieceInside(m, i);
      assert PieceBytes(m, file, i) == PieceBytes(m, seed, i);
    }
  }
}
