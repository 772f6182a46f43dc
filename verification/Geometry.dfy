/** How a torrent cuts its file into pieces and a piece into sub-requests. */
module Geometry {
  import opened Bytes

  /** The part of torrentmetadata_t that concerns the file: piece hashes are strings of 20 octets. */
  datatype Meta = Meta(pieceLen: nat, numPieces: nat, size: nat, hashes: seq<seq<byte>>)

  /** What parsetorrentfile builds: the number of pieces is the file size over the piece length, rounded up. */
  ghost predicate ValidMeta(m: Meta) {
    && 0 < m.pieceLen
    && m.size < 0x8000_0000
    && m.numPieces == m.size / m.pieceLen + (if m.size % m.pieceLen != 0 then 1 else 0)
    && |m.hashes| == m.numPieces
    && forall i :: 0 <= i < m.numPieces ==> |m.hashes[i]| == 20
  }

  function Start(m: Meta, i: nat): (at: nat) {
    i * m.pieceLen
  }

  /** The end of piece `i`: the last piece stops at the end of the file. */
  function End(m: Meta, i: nat): (at: nat) {
    if Start(m, i + 1) <= m.size then Start(m, i + 1) else m.size
  }

  lemma {:induction false} StartMonotone(m: Meta, i: nat, j: nat)
    requires i <= j
    ensures Start(m, i) <= Start(m, j)
    ensures i < j ==> Start(m, i + 1) <= Start(m, j)
    decreases j - i
  {
    if i < j {
      assert Start(m, i + 1) == Start(m, i) + m.pieceLen;
      StartMonotone(m, i + 1, j);
    }
  }

  lemma PiecesFit(m: Meta)
    requires ValidMeta(m)
    ensures m.numPieces > 0 ==> Start(m, m.numPieces - 1) < m.size
    ensures m.size <= Start(m, m.numPieces)
  {
    var q, r := m.size / m.pieceLen, m.size % m.pieceLen;
    assert m.size == q * m.pieceLen + r;
    if r == 0 && m.numPieces > 0 {
      assert (q - 1) * m.pieceLen == q * m.pieceLen - m.pieceLen;
    } else if r != 0 {
      assert (q + 1) * m.pieceLen == q * m.pieceLen + m.pieceLen;
    }
  }

  /** Every piece is a non-empty stretch inside the file; all but the last have the full length. */
  lemma PieceInside(m: Meta, i: nat)
    requires ValidMeta(m) && i < m.numPieces
    ensures Start(m, i) < End(m, i) <= m.size
    ensures i < m.numPieces - 1 ==> End(m, i) == Start(m, i + 1) && End(m, i) - Start(m, i) == m.pieceLen
    ensures i == m.numPieces - 1 ==> End(m, i) == m.size && End(m, i) - Start(m, i) <= m.pieceLen
  {
    PiecesFit(m);
    StartMonotone(m, i, m.numPieces - 1);
    assert Start(m, i + 1) == Start(m, i) + m.pieceLen;
  }

  lemma PiecesDisjoint(m: Meta, i: nat, j: nat)
    requires i != j
    ensures End(m, i) <= Start(m, j) || End(m, j) <= Start(m, i)
  {
    if i < j {
      StartMonotone(m, i, j);
    } else {
      StartMonotone(m, j, i);
    }
  }

  lemma Quotient(m: Meta, x: nat)
    requires m.pieceLen > 0
    ensures Start(m, x / m.pieceLen) <= x < Start(m, x / m.pieceLen + 1)
  {
    var i := x / m.pieceLen;
    assert x == i * m.pieceLen + x % m.pieceLen;
    assert Start(m, i + 1) == Start(m, i) + m.pieceLen;
  }

  /** The piece that holds a byte of the file. */
  lemma PieceOfByte(m: Meta, x: nat) returns (i: nat)
    requires ValidMeta(m) && x < m.size
    ensures i < m.numPieces && Start(m, i) <= x < End(m, i)
  {
    i := x / m.pieceLen;
    Quotient(m, x);
    PiecesFit(m);
    hide Start, ValidMeta;
    if i >= m.numPieces {
      StartMonotone(m, m.numPieces, i);
    }
  }

  // ----- Sub-requests

  /** A request for `length` bytes of a piece, `begin` bytes into it. */
  datatype Sub = Sub(begin: int, length: int)

  /** The loop of request_a_piece with `count` turns left: the requests it sends for a piece that
      starts at byte `start` of the file. The clipped length is kept for the turns that follow. */
  function SubsFrom(start: int, size: int, subLen: int, begin: int, count: nat): (subs: seq<Sub>)
    ensures |subs| <= count
    decreases count
  {
    if count == 0 then []
    else
      var length := if start + begin + subLen > size then size - start - begin else subLen;
      if start + begin + subLen > size && length <= 0 then []
      else [Sub(begin, length)] + SubsFrom(start, size, length, begin + length, count - 1)
  }

  /** All the requests of request_a_piece for piece `index`. */
  function Subs(m: Meta, index: nat): (subs: seq<Sub>) {
    SubsFrom(Start(m, index), m.size, m.pieceLen / 4, 0, 4)
  }

  /** One request for each quarter that begins inside the file, for what of it lies in the file. */
  lemma SubsAreQuarters(m: Meta, index: nat, j: nat)
    requires 0 < m.pieceLen && Start(m, index) < m.size && j < 4
    ensures var at, quarter := Start(m, index) + j * (m.pieceLen / 4), m.pieceLen / 4;
            && (j < |Subs(m, index)| <==> at < m.size)
            && (j < |Subs(m, index)| ==>
                  Subs(m, index)[j] == Sub(j * quarter, if at + quarter <= m.size then quarter else m.size - at))
  {
    QuartersFrom(Start(m, index), m.size, m.pieceLen / 4, 0, 4, j, j * (m.pieceLen / 4));
  }

  lemma {:induction false} QuartersFrom(start: int, size: int, quarter: int, begin: int, count: nat, j: nat, to: int)
    requires quarter >= 0 && start + begin < size && j < count && to == begin + j * quarter
    ensures var subs := SubsFrom(start, size, quarter, begin, count);
            && (j < |subs| <==> start + to < size)
            && (j < |subs| ==>
                  subs[j] == Sub(to, if start + to + quarter <= size then quarter else size - start - to))
    decreases count
  {
    if j > 0 {
      TimesOneLess(j, quarter);
      if start + begin + quarter < size {
        QuartersFrom(start, size, quarter, begin + quarter, count - 1, j - 1, to);
      } else {
        var length := size - start - begin;
        assert SubsFrom(start, size, length, begin + length, count - 1) == [];
      }
    }
  }

  lemma TimesOneLess(j: nat, quarter: int)
    requires j > 0 && quarter >= 0
    ensures j * quarter == quarter + (j - 1) * quarter && j * quarter >= quarter
  {
    assert (j - 1) * quarter >= 0;
  }

  /** Non-empty, in order, without gap or overlap, and exactly from `from` to `to`. */
  ghost predicate Tiles(subs: seq<Sub>, from: int, to: int) {
    if subs == [] then from == to
    else subs[0].begin == from && subs[0].length > 0 && Tiles(subs[1..], from + subs[0].length, to)
  }

  /** Where `count` turns of the loop get if nothing is clipped. */
  function Reach(begin: int, subLen: int, count: nat): (end: int)
    decreases count
  {
    if count == 0 then begin else Reach(begin + subLen, subLen, count - 1)
  }

  lemma {:induction false} ReachGrows(begin: int, subLen: int, count: nat)
    requires subLen > 0
    ensures Reach(begin, subLen, count) >= begin && (count > 0 ==> Reach(begin, subLen, count) >= begin + subLen)
    decreases count
  {
    if count > 0 {
      ReachGrows(begin + subLen, subLen, count - 1);
    }
  }

  /** From `begin` on, the loop tiles as much as `count` sub-pieces or the file allow. */
  lemma {:induction false} SubsTile(start: int, size: int, subLen: int, begin: int, count: nat)
    requires subLen > 0 && start + begin <= size
    ensures var reach := Reach(begin, subLen, count);
            Tiles(SubsFrom(start, size, subLen, begin, count), begin,
                  if start + reach <= size then reach else size - start)
    decreases count
  {
    ReachGrows(begin, subLen, count);
    if count > 0 {
      if start + begin + subLen <= size {
        SubsTile(start, size, subLen, begin + subLen, count - 1);
      } else if start + begin < size {
        assert SubsFrom(start, size, size - start - begin, size - start, count - 1) == [];
      }
    }
  }

  lemma {:induction false} TilesReachOneEnd(subs: seq<Sub>, from: int, to: int, to': int)
    requires Tiles(subs, from, to) && Tiles(subs, from, to')
    ensures to == to'
  {
    if subs != [] {
      TilesReachOneEnd(subs[1..], from + subs[0].length, to, to');
    }
  }

  lemma FourQuarters(quarter: int)
    ensures Reach(0, quarter, 4) == 4 * quarter
  {
    assert Reach(3 * quarter, quarter, 1) == 4 * quarter;
    assert Reach(2 * quarter, quarter, 2) == 4 * quarter;
    assert Reach(quarter, quarter, 3) == 4 * quarter;
  }

  /** The sub-requests tile their piece exactly when the piece, or what of it lies in the file,
      is no longer than four times the truncated quarter of the piece length. */
  lemma SubsTilePiece(m: Meta, index: nat)
    requires 0 < m.pieceLen && Start(m, index) < m.size
    ensures Tiles(Subs(m, index), 0, End(m, index) - Start(m, index)) <==>
            m.pieceLen >= 4 && End(m, index) - Start(m, index) <= 4 * (m.pieceLen / 4)
  {
    var start, quarter := Start(m, index), m.pieceLen / 4;
    assert Start(m, index + 1) == start + m.pieceLen;
    if quarter > 0 {
      SubsTile(start, m.size, quarter, 0, 4);
      FourQuarters(quarter);
      var reach := if start + 4 * quarter <= m.size then 4 * quarter else m.size - start;
      if Tiles(Subs(m, index), 0, End(m, index) - start) {
        TilesReachOneEnd(Subs(m, index), 0, reach, End(m, index) - start);
      }
    } else {
      assert Subs(m, index)[0] == Sub(0, 0);
    }
  }

  /** Every byte of a tiled range belongs to one of the requests. */
  lemma {:induction false} TiledByte(subs: seq<Sub>, from: int, to: int, x: int) returns (k: nat)
    requires Tiles(subs, from, to) && from <= x < to
    ensures k < |subs| && subs[k].begin <= x < subs[k].begin + subs[k].length
  {
    if x < from + subs[0].length {
      k := 0;
    } else {
      k := TiledByte(subs[1..], from + subs[0].length, to, x);
      k := k + 1;
    }
  }
}
