/** Block input and output on the shared file, and the bitfield of the pieces that hash correctly. */
module FileIo {
  import opened Bytes
  import opened Bitfield
  import opened Geometry
  import opened Sha1Spec
  import opened Sha1Octets
  import Sha1

  // ----- What the operations mean

  /** The number of bytes that a transfer of `length` bytes at offset `at` moves, or -1 outside the file. */
  function Clipped(size: nat, at: int, length: nat): (n: int)
    ensures n == -1 <==> !(0 <= at < size)
    ensures n != -1 ==> 0 <= n <= length && at + n <= size
  {
    if !(0 <= at < size) then -1 else if at + length <= size then length else size - at
  }

  /** What a transfer from the file brings. */
  function ReadAt(file: seq<byte>, size: nat, at: int, length: nat): (block: seq<byte>)
    requires size <= |file|
  {
    var n := Clipped(size, at, length);
    if n == -1 then [] else file[at..at + n]
  }

  /** The file after a transfer to it. */
  function WriteAt(file: seq<byte>, size: nat, at: int, block: seq<byte>): (r: seq<byte>)
    requires size <= |file|
    ensures |r| == |file|
  {
    var n := Clipped(size, at, |block|);
    if n == -1 then file else file[..at] + block[..n] + file[at + n..]
  }

  /** A transfer moves as many bytes as it can without leaving the file. */
  lemma ClippedIsMost(size: nat, at: int, length: nat, n: int)
    requires 0 <= at < size
    ensures 0 <= n <= length && at + n <= size ==> n <= Clipped(size, at, length)
  {
  }

  /** Byte by byte: byte `x` of the file becomes byte `x - at` of the block if there is one and `x` is in the file. */
  lemma WrittenByte(file: seq<byte>, size: nat, at: int, block: seq<byte>, x: nat)
    requires size <= |file| && x < |file|
    ensures WriteAt(file, size, at, block)[x] ==
            if 0 <= at <= x < size && x - at < |block| then block[x - at] else file[x]
  {
  }

  /** Byte `j` of what is read is byte `at + j` of the file. */
  lemma ReadBytes(file: seq<byte>, size: nat, at: int, length: nat, j: nat)
    requires size <= |file|
    ensures j < |ReadAt(file, size, at, length)| <==> 0 <= at && j < length && at + j < size
    ensures j < |ReadAt(file, size, at, length)| ==> ReadAt(file, size, at, length)[j] == file[at + j]
  {
  }

  function PieceBytes(m: Meta, file: seq<byte>, i: nat): (bytes: seq<byte>)
    requires ValidMeta(m) && i < m.numPieces && m.size <= |file|
    ensures |bytes| < 0x8000_0000
  {
    PieceInside(m, i);
    file[Start(m, i)..End(m, i)]
  }

  /** The five big-endian words of a 20-octet hash string. */
  function HashWords(hash: seq<byte>): Buffer
    requires |hash| == 20
  {
    Buffer(Join(hash[0], hash[1], hash[2], hash[3]),
           Join(hash[4], hash[5], hash[6], hash[7]),
           Join(hash[8], hash[9], hash[10], hash[11]),
           Join(hash[12], hash[13], hash[14], hash[15]),
           Join(hash[16], hash[17], hash[18], hash[19]))
  }

  /** A verdict on the bytes of a piece. The laws of the protocol hold whatever the digest is;
      `Sha1Check` is the one that the client uses. */
  type Check = (seq<byte>, nat) -> bool

  ghost predicate HashesTo(bytes: seq<byte>, hash: seq<byte>) {
    |bytes| < 0x8000_0000 && |hash| == 20 && Digest(bytes) == HashWords(hash)
  }

  /** A piece hashes correctly if and only if its hash string is the five registers of its digest, each with its most
      significant octet first: what htonl and memcmp compare. */
  lemma HashesToExactly(bytes: seq<byte>, hash: seq<byte>)
    requires |bytes| < 0x8000_0000
    ensures HashesTo(bytes, hash) <==> hash == DigestOctets(Digest(bytes))
  {
    hide Join, Octets, Digest;
    if |hash| == 20 {
      var d := Digest(bytes);
      JoinExactly(hash[0], hash[1], hash[2], hash[3], d.a);
      JoinExactly(hash[4], hash[5], hash[6], hash[7], d.b);
      JoinExactly(hash[8], hash[9], hash[10], hash[11], d.c);
      JoinExactly(hash[12], hash[13], hash[14], hash[15], d.d);
      JoinExactly(hash[16], hash[17], hash[18], hash[19], d.e);
      InFives(hash, d);
    }
  }

  /** Twenty octets are those of five words if each four of them are. */
  lemma InFives(hash: seq<byte>, d: Buffer)
    requires |hash| == 20
    ensures hash == DigestOctets(d) <==>
            && [hash[0], hash[1], hash[2], hash[3]] == Octets(d.a)
            && [hash[4], hash[5], hash[6], hash[7]] == Octets(d.b)
            && [hash[8], hash[9], hash[10], hash[11]] == Octets(d.c)
            && [hash[12], hash[13], hash[14], hash[15]] == Octets(d.d)
            && [hash[16], hash[17], hash[18], hash[19]] == Octets(d.e)
  {
    hide Octets;
    var a, b, c, e := hash[4..], hash[8..], hash[12..], hash[16..];
    FirstFour(hash, Octets(d.a), Octets(d.b) + (Octets(d.c) + (Octets(d.d) + Octets(d.e))));
    FirstFour(a, Octets(d.b), Octets(d.c) + (Octets(d.d) + Octets(d.e)));
    FirstFour(b, Octets(d.c), Octets(d.d) + Octets(d.e));
    FirstFour(c, Octets(d.d), Octets(d.e));
    assert a[4..] == b && b[4..] == c && c[4..] == e;
    assert e == [hash[16], hash[17], hash[18], hash[19]];
  }

  lemma FirstFour(s: seq<byte>, first: seq<byte>, rest: seq<byte>)
    requires |s| >= 4 && |first| == 4
    ensures s == first + rest <==> [s[0], s[1], s[2], s[3]] == first && s[4..] == rest
  {
    assert s == s[..4] + s[4..] && s[..4] == [s[0], s[1], s[2], s[3]];
    assert (first + rest)[..4] == first && (first + rest)[4..] == rest;
  }

  /** `ok` compares the SHA-1 digest of the bytes with the hash that the torrent promises. */
  ghost predicate ChecksSha1(m: Meta, ok: Check) {
    forall bytes: seq<byte>, i: nat {:trigger HashesTo(bytes, m.hashes[i])} ::
      i < |m.hashes| ==> ok(bytes, i) == HashesTo(bytes, m.hashes[i])
  }

  ghost function Sha1Check(m: Meta): (ok: Check)
    ensures ChecksSha1(m, ok)
  {
    (bytes: seq<byte>, i: nat) => i < |m.hashes| && HashesTo(bytes, m.hashes[i])
  }

  /** Piece `i` of the file passes the check. */
  ghost predicate PieceOk(m: Meta, ok: Check, file: seq<byte>, i: nat)
    requires ValidMeta(m) && i < m.numPieces && m.size <= |file|
  {
    ok(PieceBytes(m, file, i), i)
  }

  /** What the client checks of a piece: that the digest of its bytes, which end with the file at the latest,
      is the hash that the torrent has for this piece. */
  lemma PieceOkExactly(m: Meta, ok: Check, file: seq<byte>, i: nat)
    requires ValidMeta(m) && i < m.numPieces && m.size <= |file| && ChecksSha1(m, ok)
    ensures var from := i * m.pieceLen;
            var to := if from + m.pieceLen <= m.size then from + m.pieceLen else m.size;
            && from < to && to - from < 0x8000_0000
            && (PieceOk(m, ok, file, i) <==> m.hashes[i] == DigestOctets(Digest(file[from..to])))
  {
    PieceInside(m, i);
    HashesToExactly(PieceBytes(m, file, i), m.hashes[i]);
  }

  /** How many of the first `n` pieces pass the check. */
  ghost function OkCount(m: Meta, ok: Check, file: seq<byte>, n: nat): (c: nat)
    requires ValidMeta(m) && n <= m.numPieces && m.size <= |file|
  {
    if n == 0 then 0 else OkCount(m, ok, file, n - 1) + if PieceOk(m, ok, file, n - 1) then 1 else 0
  }

  lemma {:induction false} OkCountIsNumber(m: Meta, ok: Check, file: seq<byte>, n: nat)
    requires ValidMeta(m) && n <= m.numPieces && m.size <= |file|
    ensures OkCount(m, ok, file, n) == |set i: nat | i < n && PieceOk(m, ok, file, i)|
  {
    hide PieceOk;
    var good := set i: nat | i < n && PieceOk(m, ok, file, i);
    if n == 0 {
      assert good == {};
    } else {
      var before := set i: nat | i < n - 1 && PieceOk(m, ok, file, i);
      OkCountIsNumber(m, ok, file, n - 1);
      assert good == if PieceOk(m, ok, file, n - 1) then before + {n - 1} else before;
    }
  }

  // ----- The file

  /** The struct fileinfo_t: a file on disk, of which bytes 0 to `size` are the torrent's bytes from `beginIndex` on. */
  class FileInfo {
    const beginIndex: nat
    const size: nat
    const disk: array<byte>
    var downloaded: int

    ghost predicate Valid()
    {
      size <= disk.Length
    }

    constructor (beginIndex: nat, size: nat, disk: array<byte>)
      requires size <= disk.Length
      ensures Valid() && this.beginIndex == beginIndex && this.size == size && this.disk == disk && downloaded == 0
    {
      this.beginIndex, this.size, this.disk, downloaded := beginIndex, size, disk, 0;
    }

    /** list_get_piece: fills the front of `buf` and leaves its rest alone. */
    method ListGetPiece(buf: array<byte>, len: nat, begin: int) returns (n: int)
      requires Valid() && len <= buf.Length && buf != disk
      modifies buf
      ensures n == Clipped(size, begin - beginIndex, len)
      ensures var block := ReadAt(disk[..], size, begin - beginIndex, len);
              buf[..] == block + old(buf[..])[|block|..]
    {
      if beginIndex <= begin && beginIndex + size > begin {
        var from := begin - beginIndex;
        n := if beginIndex + size - begin - len >= 0 then len else size - (begin - beginIndex);
        forall k | 0 <= k < n {
          buf[k] := disk[from + k];
        }
        assert buf[..n] == disk[..][from..from + n];
      } else {
        n := -1;
      }
    }

    /** list_set_piece: writes at most to the end of the file. */
    method ListSetPiece(buf: seq<byte>, begin: int) returns (n: int)
      requires Valid()
      modifies disk
      ensures n == Clipped(size, begin - beginIndex, |buf|)
      ensures disk[..] == WriteAt(old(disk[..]), size, begin - beginIndex, buf)
    {
      if beginIndex <= begin && beginIndex + size > begin {
        var to := begin - beginIndex;
        n := if beginIndex + size - begin - |buf| >= 0 then |buf| else size - (begin - beginIndex);
        forall k | 0 <= k < n {
          disk[to + k] := buf[k];
        }
      } else {
        n := -1;
      }
    }

    /** get_block. */
    method GetBlock(m: Meta, index: int, begin: int, length: nat, block: array<byte>) returns (n: int)
      requires Valid() && length <= block.Length && block != disk
      modifies block
      ensures n == Clipped(size, index * m.pieceLen + begin - beginIndex, length)
      ensures var bytes := ReadAt(disk[..], size, index * m.pieceLen + begin - beginIndex, length);
              block[..] == bytes + old(block[..])[|bytes|..]
    {
      n := ListGetPiece(block, length, index * m.pieceLen + begin);
    }

    /** set_block. */
    method SetBlock(m: Meta, index: int, begin: int, block: seq<byte>) returns (n: int)
      requires Valid()
      modifies disk
      ensures n == Clipped(size, index * m.pieceLen + begin - beginIndex, |block|)
      ensures disk[..] == WriteAt(old(disk[..]), size, index * m.pieceLen + begin - beginIndex, block)
    {
      n := ListSetPiece(block, index * m.pieceLen + begin);
    }

    /** This file is the whole file of the torrent. */
    ghost predicate Holds(m: Meta) {
      Valid() && ValidMeta(m) && beginIndex == 0 && size == m.size
    }

    /** gen_bitfield: bit `i` is set exactly if piece `i` hashes correctly, no other bit is set,
        and the download counter grows by a piece length for every correct piece. */
    method GenBitfield(m: Meta, ghost ok: Check) returns (bitfield: array<bv8>)
      requires Holds(m) && ChecksSha1(m, ok)
      modifies this`downloaded
      ensures fresh(bitfield) && IsBitfield(m, ok, disk[..], bitfield[..], m.numPieces)
      ensures downloaded == old(downloaded) + m.pieceLen * OkCount(m, ok, disk[..], m.numPieces)
    {
      hide PieceOk;
      bitfield := new bv8[m.numPieces / 8 + 1](_ => 0);
      var hashbuf := new byte[m.pieceLen](_ => 0);
      ghost var file := disk[..];
      for i := 0 to m.numPieces
        invariant fresh(bitfield) && fresh(hashbuf) && disk[..] == file
        invariant IsBitfield(m, ok, file, bitfield[..], i)
        invariant downloaded == old(downloaded) + m.pieceLen * OkCount(m, ok, file, i)
      {
        var good := CheckPiece(m, ok, i, hashbuf);
        SetOneMore(m, ok, file, bitfield[..], i);
        CountOneMore(m, ok, file, i);
        if good {
          downloaded := downloaded + m.pieceLen;
          SetBitAtIndex(bitfield, i, true);
        } else {
          SetBitAtIndex(bitfield, i, false);
        }
      }
    }

    /** The comparison in the loop of gen_bitfield. */
    method CheckPiece(m: Meta, ghost ok: Check, i: nat, hashbuf: array<byte>) returns (good: bool)
      requires Holds(m) && ChecksSha1(m, ok) && i < m.numPieces && hashbuf.Length == m.pieceLen && hashbuf != disk
      modifies hashbuf
      ensures good == PieceOk(m, ok, disk[..], i)
    {
      var blocksize := ReadPiece(m, i, hashbuf);
      var digest := HashOf(hashbuf[..blocksize]);
      good := digest == HashWords(m.hashes[i]);
      assert good == HashesTo(PieceBytes(m, disk[..], i), m.hashes[i]);
    }

    /** The reading half of the loop of gen_bitfield. */
    method ReadPiece(m: Meta, i: nat, hashbuf: array<byte>) returns (blocksize: nat)
      requires Holds(m) && i < m.numPieces && hashbuf.Length == m.pieceLen && hashbuf != disk
      modifies hashbuf
      ensures blocksize <= hashbuf.Length && hashbuf[..blocksize] == PieceBytes(m, disk[..], i)
    {
      PieceInside(m, i);
      var cursize := beginIndex + size;
      blocksize := if i != m.numPieces - 1 then m.pieceLen else cursize - (m.numPieces - 1) * m.pieceLen;
      var n := ListGetPiece(hashbuf, blocksize, m.pieceLen * i);
    }
  }

  /** The hashing half of the loop of gen_bitfield; the assertion there never fails. */
  method HashOf(data: seq<byte>) returns (digest: Buffer)
    requires |data| < 0x8000_0000
    ensures digest == Digest(data)
  {
    var sha := new Sha1.Sha1Context();
    sha.Reset();
    assert [] + data == data;
    sha.Input(data);
    var done := sha.Result();
    assert done;
    digest := Buffer(sha.messageDigest[0], sha.messageDigest[1], sha.messageDigest[2], sha.messageDigest[3],
                     sha.messageDigest[4]);
  }

  /** The first `n` bits tell which pieces hash correctly; the others are clear. */
  ghost predicate IsBitfield(m: Meta, ok: Check, file: seq<byte>, bitfield: seq<bv8>, n: nat)
    requires ValidMeta(m) && n <= m.numPieces && m.size <= |file|
  {
    && |bitfield| == m.numPieces / 8 + 1
    && forall j: nat :: j < 8 * |bitfield| ==> GetBit(bitfield, j) == if j < n && PieceOk(m, ok, file, j) then 1 else 0
  }

  /** The bits as numbers: bit `7 - i % 8` of octet `i / 8` is 1 if and only if there is a piece `i` and it hashes
      correctly. */
  lemma BitsAsNumbers(m: Meta, ok: Check, file: seq<byte>, bitfield: seq<bv8>, i: nat)
    requires ValidMeta(m) && m.size <= |file| && IsBitfield(m, ok, file, bitfield, m.numPieces)
    requires i < 8 * |bitfield|
    ensures OctetBit(bitfield[i / 8] as int, 7 - i % 8) == 1 <==> i < m.numPieces && PieceOk(m, ok, file, i)
  {
    GetBitIsOctetBit(bitfield, i);
  }

  lemma SetOneMore(m: Meta, ok: Check, file: seq<byte>, bitfield: seq<bv8>, i: nat)
    requires ValidMeta(m) && i < m.numPieces && m.size <= |file|
    requires IsBitfield(m, ok, file, bitfield, i)
    ensures IsBitfield(m, ok, file, SetBit(bitfield, i, PieceOk(m, ok, file, i)), i + 1)
  {
    forall j: nat | j < 8 * |bitfield| {
      GetSet(bitfield, i, PieceOk(m, ok, file, i), j);
    }
  }

  lemma CountOneMore(m: Meta, ok: Check, file: seq<byte>, i: nat)
    requires ValidMeta(m) && i < m.numPieces && m.size <= |file|
    ensures m.pieceLen * OkCount(m, ok, file, i + 1) ==
            m.pieceLen * OkCount(m, ok, file, i) + if PieceOk(m, ok, file, i) then m.pieceLen else 0
  {
    OneMore(m.pieceLen, OkCount(m, ok, file, i));
  }

  lemma OneMore(a: int, c: int)
    ensures a * (c + 1) == a * c + a
  {
  }
}
