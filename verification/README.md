# SimpleTorrent, verified

A Dafny model of the core of SimpleTorrent, a small BitTorrent client, with proofs of what it is for:
bytes arrive in fragments, are framed into messages, are placed in the file, are hashed, and drive the
state of the pieces. `dafny verify dfyconfig.toml` checks the whole project.

The modules follow the program:

- `Sha1Spec`, `Sha1`: FIPS PUB 180-1 (sections 3 to 7) as functions, and the streaming context of `sha1.c`
  as a class that refines it.
- `Sha1Octets`, `Sha1Examples`: words as octets, and the examples of appendices A and B of FIPS PUB 180-1, with
  every word of the schedule and the registers after every round.
- `BencodeSpec`, `Bencode`, `BencodeProofs`, `BencodeTermination`, `BencodeStall`: the encoder of BEP 3 (section
  "bencoding"), the recursive-descent decoder of `bencode.c` with its shared cursor, the proof that the one
  inverts the other, and the exact inputs on which the decoder never ends.
- `BencodeText`: the same language in characters: what every input is decoded to, and examples.
- `Bitfield`, `Geometry`, `FileIo`, `Assembly`: bits, pieces and sub-requests, clipped block input and
  output, the bitfield of correct pieces, and how answers put a file together.
- `Protocol`, `Counting`, `Invariant`, `Theorems`: the download protocol of `peer_wire.c` as a state machine with
  one event for each atomic step, an inductive invariant, and what holds in every run.
- `History`: the pool, the requester's choices and its requests told from the events of a run alone.
- `Guards`: what depends on each assumption about the environment.
- `Reachability`, `Completion`, `Losses`: which downloads can still be completed, and the runs that spoil them.
- `PeerPool`: the linked list of peers, over nodes and peers that are updated in place.
- `Client`: the shared variables and the handlers of `peer_wire.c` as a class that owns the linked list; every
  handler is proved to be one step of the state machine, and to leave an acyclic list with one node for an
  address that holds exactly the peers of the state machine.
- `WireFormat`, `WireLayout`, `Wire`, `EndToEnd`: the messages as octets, the loops of `Recv` and `Send` over a
  fragmented stream, the writers and the reading loop, and a whole download over the wire.

## What the environment grants

The guards of the protocol's events (`Protocol.Enabled`) go beyond the tests of the code. These assumptions
come with a lemma about the event without its guard:

- A new peer's array of piece states is clear, which the code does not see to
  (`SimpleTorrent/src/peers_pool.c:35`), and its descriptor is new: `Guards.AddPeerExactly`, the whole invariant
  survives if and only if both hold or the address is known.
- A bitfield names no piece that its sender already announced (BEP 3: at most one bitfield a connection):
  `Guards.BitfieldExactly`, the whole invariant survives if and only if that holds.
- What a delivered block puts into the file lies inside its piece, as every answer to a sub-request does
  (`Assembly.RequestStaysInside`): `Assembly.BlockKeepsOthersExactly`, the bytes of the other pieces survive every
  block of that length at that place if and only if that holds.
- The sender of a block is still being asked for the piece: `Guards.UnaskedBlockExactly`, the exact condition under
  which the whole invariant survives a block inside its piece from any other peer.
- The peer chosen for a request stays until the request is sent: `Guards.SendExactly`, the whole invariant survives
  if and only if that holds.
- The window is free at an end-game turn: `Guards.FanOutNeedsNoWindow`, the invariant survives either way.

These are assumptions only, and no lemma says what fails without them:

- Handlers are atomic, but LOCK_PIECE is two steps (count, then take the mutex), and the end-game turn over
  the pool is one step. The mutex is a binary semaphore, and releasing it when it is free does nothing.
- Arithmetic on piece indices, lengths and counters does not overflow an int, and malloc succeeds.
- The torrent is one file that starts at byte 0, as `SimpleTorrent/src/parsetorrentfile.c:102` sets it.
- The bencoded text is followed by a zero byte, which is where strtoll stops.
- The host is little-endian with two's-complement ints of 32 bits.

## Results that are not what one might expect

- The decoder crashes on every tree that holds an empty list or dictionary, and on no other well-formed tree
  (`BencodeProofs.RoundTrip`). It never ends on exactly the inputs in which a position inside an open container
  is neither the container's end nor the start of a value or, in a dictionary, of a key
  (`BencodeStall.TerminatesExactly`); the shortest are `l` and `d`. A well-formed encoding never stalls it.
- Sub-requests tile every piece exactly if quarters of the piece length cover it (`Geometry.SubsTilePiece`).
  If they do not, some byte of the file is never asked for (`Assembly.EveryByteRequested`).
- A piece that a disconnect returns is not added back to the number of pieces that the normal phase may still
  request. So a download that was short of more than five pieces can be completed from a state of its normal phase
  if and only if no piece was returned before (`Completion.NormalPhaseCompletableExactly`). From every such start
  there is a run after which the client does not even make a request again (`Reachability.StuckIsReachable`).
- In the end game a disconnect returns no claimed piece: when the claimer leaves, nothing ever completes the piece,
  even if the descriptor is used again. And a piece that is returned is asked of nobody who was asked before, whose
  blocks are refused; a turn for it takes the window and sends nothing, until the requester waits for a mutex that
  nothing releases. The end game can be completed if and only if it is in neither of these states
  (`Completion.EndGameCompletableExactly`), and every download that misses a piece can lose one this way
  (`Losses.LostIsReachable`, `Losses.JammedIsReachable`).
- The length word of CHOKE is 0x1000 in host order and reads as 0x100000. The reader of this program does not
  use it; for every other message the length word counts the octets that follow
  (`WireFormat.LengthWordExactly`).
- A PIECE without a block ends the session of its reader (`WireFormat.EmptyBlockEndsSession`).
- The length word of any other message but a BITFIELD is not looked at (`WireLayout.LengthIsIgnored`), and the rest of
  a message with an unknown id is read as the next message (`WireLayout.UnknownIsNotSkipped`).
- `ie` is decoded to the integer 0, and an integer without its e leaves a null pointer in a list
  (`BencodeText.IntegersInText`, `BencodeText.NullInList`).

## Model

| member | source | states |
|---|---|---|
| Sha1.Sha1Context.Reset | SimpleTorrent/src/sha1.c:71-85 | whatever the context was, it now has consumed nothing: zero length, empty block, initial registers |
| Sha1.Sha1Context.Input | SimpleTorrent/src/sha1.c:143-185 | the context consumes the octets, or is corrupted exactly by the 64-bit overflow or by input after the result; length words, block buffer and registers agree with the octets consumed so far |
| Sha1.Sha1Context.AddOctet | SimpleTorrent/src/sha1.c:160-181 | one octet keeps the length words at 8 times the octets consumed, the index at that count mod 64 and the registers at the hash of the complete blocks, unless the length overflows |
| Sha1.Sha1Context.ProcessMessageBlock | SimpleTorrent/src/sha1.c:207-300 | the registers become the standard's block function of the old registers and the buffered block |
| Sha1.Sha1Context.Schedule | SimpleTorrent/src/sha1.c:224-235 | the array is the standard's word sequence W(0)..W(79) of the block |
| Sha1.Sha1Context.PadMessage | SimpleTorrent/src/sha1.c:326-370 | from a context that has consumed a message, the registers become the digest of the padded message, with one closing block or with two |
| Sha1.Sha1Context.StoreLength | SimpleTorrent/src/sha1.c:361-368 | the last eight octets of the block are the bit length, most significant octet first, and the others stay |
| Sha1.Sha1Context.Result | SimpleTorrent/src/sha1.c:104-119 | it succeeds exactly if the context is not corrupted, the registers are then the digest of all that was put in, and asking again changes nothing |
| Sha1.Sha1Context.Hash | SimpleTorrent/src/fileio.c:133-140 | reset, input of any chunks and result on a context: success exactly if they have less than 2^61 octets together, and then the digest of their concatenation |
| Sha1.CircularShift | SimpleTorrent/src/sha1.c:46-48 | the macro is the standard's circular left shift for every amount it is used with |
| Sha1.SplittingIsIrrelevant | SimpleTorrent/src/sha1.c:143-185 | however octets are cut into calls, only their concatenation counts |
| Sha1.DigestOfAnySplit | SimpleTorrent/src/sha1.c:71-185 | the phase of a context after any calls of input and a result depends on the concatenation only |
| Sha1.CorruptedExactly | SimpleTorrent/src/sha1.c:107-110 | over every sequence of calls, the corrupted flag is set if and only if some call put octets in after a result or overflowed the length |
| Sha1Spec.PaddingIsFewest | SimpleTorrent/src/sha1.c:326-370 | with fewer zeros the length would be no multiple of 512 bits |
| Sha1Spec.PadInjective | SimpleTorrent/src/sha1.c:326-370 | two messages with the same padding are the same |
| Sha1Spec.PadOneBlock | SimpleTorrent/src/sha1.c:349-370 | with at most 55 octets in the last block, the padding is one closing block |
| Sha1Spec.PadTwoBlocks | SimpleTorrent/src/sha1.c:334-348 | with more than 55 octets in the last block, the padding is two closing blocks |
| Sha1Spec.CutOneMore | SimpleTorrent/src/sha1.c:160-181 | one octet more either lengthens the unfinished block or completes it |
| Sha1Octets.JoinExactly | SimpleTorrent/src/sha1.c:224-230 | four octets make up a word if and only if they are its octets, most significant first |
| Sha1Examples.DigestOfAbc | SimpleTorrent/src/sha1.c:207-300 | the digest of "abc" is A9993E36 4706816A BA3E2571 7850C26C 9CD0D89D, the example of appendix A of FIPS PUB 180-1, through the registers after each of the 80 rounds |
| Sha1Examples.DigestOfLongMessage | SimpleTorrent/src/sha1.c:207-370 | the digest of the 56 octets of appendix B, which padding makes two blocks, is 84983E44 1C3BD26E BAAE4AA1 F95129E5 E54670F1, round by round in both blocks |
| Bencode.Decoder.ParseStr | SimpleTorrent/src/bencode.c:41-73 | the string and the bytes consumed are those of the pure decoder, and cursor offset plus remaining length stays constant |
| Bencode.Decoder.Parse | SimpleTorrent/src/bencode.c:75-156 | the same for a value of any kind, in every branch, failures included |
| Bencode.Decoder.ParseItems | SimpleTorrent/src/bencode.c:84-102 | the same for the list loop, with an empty list as a crash and a turn without progress as a stall |
| Bencode.Decoder.ParseEntries | SimpleTorrent/src/bencode.c:105-124 | the same for the dictionary loop |
| Bencode.Decoden | SimpleTorrent/src/bencode.c:158-161 | the outcome of decoding from the start of the data |
| BencodeProofs.StrtollOfDecimal | SimpleTorrent/src/bencode.c:24-31 | every printed 64-bit integer is read back, with the cursor behind its last digit |
| BencodeProofs.StringRoundTrip | SimpleTorrent/src/bencode.c:41-73 | an encoded string followed by anything is read back with the cursor just behind it |
| BencodeProofs.RoundTrip | SimpleTorrent/src/bencode.c:75-156 | decoding an encoded well-formed tree followed by any bytes gives the tree and the cursor just behind it, exactly if no container of the tree is empty, and crashes otherwise |
| BencodeProofs.PrefixFree | SimpleTorrent/src/bencode.c:75-156 | no encoding is a proper prefix of another, and no two trees share one |
| BencodeTermination.RunIsDecode | SimpleTorrent/src/bencode.c:75-156 | without stall detection, a decode that ends gives the modelled result, and twice the input length bounds its depth and turns |
| BencodeTermination.TerminatesUnlessStalled | SimpleTorrent/src/bencode.c:91-117 | `Stalled` is not a convention of the model: it is the outcome exactly when no bound on nested calls and turns is enough |
| BencodeStall.StallsExactly | SimpleTorrent/src/bencode.c:82-153 | the decoder stalls exactly if reading left to right with a stack of open containers comes to a blocked place, and crashes exactly if it comes to the end of an empty container |
| BencodeStall.TerminatesExactly | SimpleTorrent/src/bencode.c:91-117 | the decoder ends, unless the input starts a value and after some number of steps the reading is blocked: no end, no value and, in a dictionary, no key |
| BencodeStall.EncodingsNeverStall | SimpleTorrent/src/bencode.c:75-156 | a well-formed encoding followed by anything never stalls |
| BencodeStall.OpenContainerStalls | SimpleTorrent/src/bencode.c:91-117 | the one-letter inputs `l` and `d` stall |
| BencodeText.Characters | SimpleTorrent/src/bencode.c:63-143 | the letters are i, l, d, e, the colon and the signs, digits are 0 to 9, and strtoll skips the six white-space characters |
| BencodeText.StrtollExactly | SimpleTorrent/src/bencode.c:24-31 | every input is spaces, a sign, digits and a rest, each as long as it can be; with digits their number with the sign is read, clamped, and the cursor is behind them, without digits nothing is read |
| BencodeText.ClampIsNearest | SimpleTorrent/src/bencode.c:24-31 | clamping gives the 64-bit integer that is nearest to the number |
| BencodeText.IntegerExactly | SimpleTorrent/src/bencode.c:127-138 | after the letter i, an e behind the numeral gives an integer, and anything else gives no node and the cursor behind the numeral |
| BencodeText.StringExactly | SimpleTorrent/src/bencode.c:41-73 | there is a string if and only if the length is not negative, a colon follows it and so many octets follow that; otherwise the cursor is behind the numeral |
| BencodeText.NothingElse | SimpleTorrent/src/bencode.c:79-153 | no other character starts a value, and the cursor stays |
| BencodeText.ListExactly | SimpleTorrent/src/bencode.c:84-102 | a list is decoded to some elements if and only if these are decoded one after the other, none from nothing, and an e follows, malformed elements included |
| BencodeText.DictExactly | SimpleTorrent/src/bencode.c:105-124 | the same for the keys and values of a dictionary |
| BencodeText.HerdInText | SimpleTorrent/src/bencode.c:75-156 | a tree with every kind of node is encoded as d3:cowli-42e4:spam0:ee |
| BencodeText.TextOfHerd | SimpleTorrent/src/bencode.c:75-156 | that text is decoded to that tree |
| BencodeText.IntegersInText | SimpleTorrent/src/bencode.c:127-138 | i42e is 42, ie is 0, and i4 is no node |
| BencodeText.EmptyInText | SimpleTorrent/src/bencode.c:91-117 | le and de crash the decoder, and lx stalls it |
| BencodeText.NoStringInList | SimpleTorrent/src/bencode.c:57-58 | l3e is a list of a string node without a string |
| BencodeText.NullInList | SimpleTorrent/src/bencode.c:133-134 | li4i5ee is a list of a null pointer and 5 |
| Bitfield.GetSet | SimpleTorrent/src/fileio.c:114-120 | after a bit is written, that bit reads as written and every other bit as before |
| Bitfield.SetBitAtIndex | SimpleTorrent/src/fileio.c:114-120 | the buffer becomes the old one with that one bit changed |
| Bitfield.OctetFromBits | SimpleTorrent/src/peer_wire.c:41-57 | the bits that are read, eight at a time and the high bit first, make up the octets |
| Bitfield.GetBitIsOctetBit | SimpleTorrent/src/peer_wire.c:53-54 | the bit of a piece is the bit of its octet at offset 7 - index % 8 from the low end, read from the octet as a number by halving |
| Geometry.PieceInside | SimpleTorrent/src/fileio.c:130-132 | every piece is a non-empty stretch of the file, and only the last may be short |
| Geometry.PiecesDisjoint | SimpleTorrent/src/fileio.c:130-132 | different pieces share no byte |
| Geometry.PieceOfByte | SimpleTorrent/src/fileio.c:130-132 | every byte of the file belongs to a piece |
| Geometry.SubsTilePiece | SimpleTorrent/src/peer_wire.c:604-621 | the sub-requests of a piece are contiguous, disjoint, non-empty and cover it, if and only if it is no longer than four truncated quarters of the piece length |
| Geometry.SubsAreQuarters | SimpleTorrent/src/peer_wire.c:606-620 | request j is for the quarter j of the piece length, clipped at the end of the file, and exists if and only if that begins inside the file |
| FileIo.FileInfo.ListGetPiece | SimpleTorrent/src/fileio.c:64-85 | the buffer gets the file's bytes from that position, clipped at the end of the file, its rest is kept, and a position outside gives -1 |
| FileIo.FileInfo.ListSetPiece | SimpleTorrent/src/fileio.c:89-110 | the file gets the buffer at that position, clipped at the end of the file, and no other byte changes |
| FileIo.ReadBytes | SimpleTorrent/src/fileio.c:64-85 | what is read is the file from the position on, byte for byte, as far as the length asked for and the file reach |
| FileIo.WrittenByte | SimpleTorrent/src/fileio.c:89-110 | byte for byte, the file has the block from the position on as far as the file reaches, and elsewhere what it had |
| FileIo.ClippedIsMost | SimpleTorrent/src/fileio.c:69-81 | a transfer moves the largest number of bytes that stays inside the file |
| FileIo.FileInfo.SetBlock | SimpleTorrent/src/fileio.c:218-220 | the same at the position of a block of a piece |
| FileIo.FileInfo.GetBlock | SimpleTorrent/src/fileio.c:215-217 | the bytes of a block of a piece, clipped at the end of the file |
| FileIo.FileInfo.CheckPiece | SimpleTorrent/src/fileio.c:131-155 | the comparison succeeds exactly if the SHA-1 digest of the piece's bytes is its hash in the torrent |
| FileIo.FileInfo.GenBitfield | SimpleTorrent/src/fileio.c:123-168 | bit i is set exactly if piece i hashes correctly, every bit beyond the pieces is clear, and the download counter grows by a piece length for every correct piece |
| FileIo.SetOneMore | SimpleTorrent/src/fileio.c:155-162 | writing the verdict on the next piece extends a correct bitfield by one piece |
| FileIo.HashesToExactly | SimpleTorrent/src/fileio.c:141-155 | bytes hash to a string if and only if that is the five registers of their digest in order, each with its most significant octet first |
| FileIo.PieceOkExactly | SimpleTorrent/src/fileio.c:130-155 | a piece is correct if and only if the bytes from its start to its end, or to the end of the file, have the digest that the torrent lists at its index, octet by octet |
| FileIo.BitsAsNumbers | SimpleTorrent/src/fileio.c:112-168 | read as numbers, bit 7 - i % 8 of octet i / 8 is 1 if and only if there is a piece i and it is correct |
| FileIo.OkCountIsNumber | SimpleTorrent/src/fileio.c:155-158 | the count behind the download counter is the number of correct pieces |
| Assembly.EveryByteRequested | SimpleTorrent/src/peer_wire.c:604-621 | over all pieces, every byte of the file is asked for if and only if the piece length is at least 4 and is divisible by 4 or covers the file with four truncated quarters |
| Assembly.RequestsAreDisjoint | SimpleTorrent/src/peer_wire.c:604-621 | over all pieces, no byte is asked for by two requests |
| Assembly.NeverRequested | SimpleTorrent/src/peer_wire.c:607-616 | otherwise a byte of the first piece that no request covers |
| Assembly.RequestInside | SimpleTorrent/src/peer_wire.c:612-620 | no request reaches over the end of its piece |
| Assembly.RequestStaysInside | SimpleTorrent/src/peer_wire.c:612-620 | the answer to a sub-request is written inside its piece |
| Assembly.BlockKeepsOthersExactly | SimpleTorrent/src/fileio.c:89-110 | every block of a length at a place leaves the bytes of all other pieces alone, if and only if what is written of it stays inside its piece |
| Assembly.ByteAfter | SimpleTorrent/src/fileio.c:215-220 | after any answers in any order, a byte is the seed's if an answer covered it, and otherwise what it was |
| Assembly.DownloadCopiesSeed | SimpleTorrent/src/fileio.c:89-110 | if every sub-request is answered, in any order and any number of times, the file becomes the seed's, nothing else on the disk changes, and the verdicts on all pieces are the seed's |
| Invariant.InitInv | SimpleTorrent/src/process_tracker_response.c:282-321 | the initialised state satisfies the invariant |
| Invariant.AddPeerInv | SimpleTorrent/src/peer_wire.c:775-804 | a handshake keeps the invariant |
| Invariant.BitfieldInv | SimpleTorrent/src/peer_wire.c:872-905 | a bitfield keeps the invariant |
| Invariant.BeginInv | SimpleTorrent/src/peer_wire.c:688-693 | choosing a piece and counting it keeps the invariant |
| Invariant.SendInv | SimpleTorrent/src/peer_wire.c:694-697 | sending the request keeps the invariant: one more piece in flight, asked of one peer |
| Invariant.DeliverInv | SimpleTorrent/src/peer_wire.c:925-988 | a block keeps the invariant, whether it is refused, written, or completes its piece |
| Invariant.DisconnectInv | SimpleTorrent/src/peer_wire.c:1124-1150 | a disconnect keeps the invariant |
| Invariant.FanOutInv | SimpleTorrent/src/peer_wire.c:709-722 | an end-game turn keeps the invariant |
| Invariant.NextInv | SimpleTorrent/src/peer_wire.c:684-1154 | every event keeps the invariant: index, verdicts, counters, ownership, window and reservations |
| Invariant.ReleasedWindow | SimpleTorrent/src/peer_wire.c:33 | repeated UNLOCK_PIECE frees the mutex exactly if five or more pieces were counted at the first |
| Theorems.EveryRun | SimpleTorrent/src/peer_wire.c:684-1154 | every state of every run from every start satisfies the invariant |
| Theorems.ChoicesAreUnique | SimpleTorrent/src/peer_wire.c:629-678 | the piece and the peer that the two searches return are determined by the state |
| Theorems.ChosenPieceHasPeer | SimpleTorrent/src/peer_wire.c:689-692 | in every reachable state, a piece chosen for a request finds a peer to ask |
| Theorems.BitfieldKeepsIndexExactly | SimpleTorrent/src/peer_wire.c:884-893 | the availability index still agrees with the pool after a bitfield if and only if the bitfield names no piece the peer already had |
| Theorems.AddPeerKeepsIndexExactly | SimpleTorrent/src/peers_pool.c:35 | the index still agrees with the pool after a handshake if and only if the address was known or the new state array announces nothing |
| Theorems.CompletedStays | SimpleTorrent/src/peer_wire.c:925-988 | over every run, a completed piece stays completed, none of its bytes changes, and it still hashes correctly |
| Theorems.SeedExactlyWhenComplete | SimpleTorrent/src/peer_wire.c:974-983 | an event makes the client a seed if and only if it completes a piece and every piece then hashes correctly |
| Theorems.CountAndVerdictsExactly | SimpleTorrent/src/peer_wire.c:930-968 | for a block inside its piece from a peer that need not be asked for it, the count of complete pieces and the verdicts stay right if and only if its piece was not complete or the end game is on |
| Guards.AddPeerExactly | SimpleTorrent/src/peers_pool.c:20-62 | the invariant survives a handshake if and only if the address is known, or the descriptor is new and all states are clear |
| Guards.BitfieldExactly | SimpleTorrent/src/peer_wire.c:884-893 | the invariant survives a bitfield if and only if it names no piece the peer already had |
| Guards.UnaskedBlockExactly | SimpleTorrent/src/peer_wire.c:930-968 | the invariant survives a block inside its piece from a peer that is not asked for it, if and only if: in the normal phase the piece is not complete and not completed by it; in the end game the block is refused, or completes nothing, or its sender had announced the piece |
| Guards.SendExactly | SimpleTorrent/src/peer_wire.c:693-697 | the invariant survives the sending of a request if and only if the chosen peer is still there |
| Guards.FanOutNeedsNoWindow | SimpleTorrent/src/peer_wire.c:712-721 | the invariant survives an end-game turn whether or not the window is free |
| Theorems.WindowOfFive | SimpleTorrent/src/peer_wire.c:27-33 | in every run, in both phases, at most five pieces are in flight, and at least four while the requester is held up |
| Theorems.WindowOfEveryRun | SimpleTorrent/src/peer_wire.c:684-726 | the same for every run from the start |
| Theorems.WaitingIsReleased | SimpleTorrent/src/peer_wire.c:958-968 | the very next event that takes a piece out of flight lets a held-up requester go on |
| Theorems.ReturnReleases | SimpleTorrent/src/peer_wire.c:1135-1140 | a disconnect that returns a piece releases a full window |
| Theorems.RequestedOfExactlyOne | SimpleTorrent/src/peer_wire.c:684-702 | in the normal phase a piece is being requested if and only if a peer is asked for it, and never two |
| Theorems.DisconnectReturnsOwn | SimpleTorrent/src/peer_wire.c:1130-1143 | in both phases a disconnect returns exactly the requested pieces that the departing peer was asked for, in the normal phase all it was asked for, and removes exactly that peer, keeping the order of the others |
| Theorems.SendKeepsOwnershipExactly | SimpleTorrent/src/peer_wire.c:693-697 | requested pieces are still those that one peer is asked for, if and only if the chosen peer is there when the request is sent |
| Theorems.PiecesConserved | SimpleTorrent/src/peer_wire.c:684-707 | missing, requested and completed pieces add up to all; the counters are those counts; with R missing at the start at most R - 5 requests are made |
| Theorems.EndGameOpensWithFive | SimpleTorrent/src/peer_wire.c:704-707 | in every run of a download of more than five pieces the end game opens with exactly five missing, none in flight and none ever returned |
| Theorems.EndGameOpensExactly | SimpleTorrent/src/peer_wire.c:704-707 | in every reachable state of the normal phase the end game can open if and only if the requester is done, five pieces are left, none is in flight and none was ever returned |
| Theorems.DoomedForEver | SimpleTorrent/src/peer_wire.c:1135-1138 | from the first returned piece of a download of more than five pieces on, however many requests are left, no run opens the end game or completes the file, and at least six pieces stay missing |
| Theorems.StuckForEver | SimpleTorrent/src/peer_wire.c:1135-1138 | once the requests are used up as well, no run makes another request |
| Reachability.StuckIsReachable | SimpleTorrent/src/peer_wire.c:1135-1138 | every start with more than five missing pieces has a run that ends there |
| Theorems.SingleWriter | SimpleTorrent/src/peer_wire.c:933-949 | over every run of the end game, a claimed piece changes only by blocks of its claimer, its claim ends only in completion, and at every moment the blocks of all others are refused, those of a complete piece from everybody |
| Theorems.LeavingClaimerLosesPiece | SimpleTorrent/src/peer_wire.c:1135-1138 | a disconnect of its claimer leaves a piece claimed for a connection on which nobody is asked for it |
| Theorems.LostForEver | SimpleTorrent/src/peer_wire.c:934-948 | no run after that completes the piece or the file, even if the descriptor is used again |
| Theorems.OtherEventsKeep | SimpleTorrent/src/peer_wire.c:933-949 | only blocks change the file, and no other event touches a completed or claimed piece |
| Completion.WholeArrives | SimpleTorrent/src/peer_wire.c:925-988 | a piece that arrives whole from a peer that is asked for it is complete, and the file is if it was the last |
| Completion.RarestExists | SimpleTorrent/src/peer_wire.c:629-651 | if any piece can be requested, one is the first of the rarest |
| Completion.LeastUsedExists | SimpleTorrent/src/peer_wire.c:656-678 | if any peer has a piece, one is the first least-used |
| Completion.EndGameIsReached | SimpleTorrent/src/peer_wire.c:688-707 | from every state of the normal phase from which nothing was returned, with a peer that has everything, a run opens the end game |
| Completion.PursuedInEveryRun | SimpleTorrent/src/peer_wire.c:709-722 | in every run, somebody is asked for every piece that is being requested |
| Completion.JammedForEver | SimpleTorrent/src/peer_wire.c:712 | with nothing in flight and a full window no run of the end game changes the state of a piece |
| Completion.NormalPhaseCompletableExactly | SimpleTorrent/src/peer_wire.c:688-707 | a state of the normal phase of a download of more than five pieces has a run that completes the file, if and only if no piece was ever returned |
| Completion.EndGameCompletableExactly | SimpleTorrent/src/peer_wire.c:709-722 | a state of the end game has a run that completes the file, if and only if no piece is lost and the end game is not jammed |
| Completion.CompletionIsReachable | SimpleTorrent/src/peer_wire.c:684-726 | every download that misses a piece at its start has a run that completes the file, provided the pieces exist |
| Losses.ClaimCompletableExactly | SimpleTorrent/src/peer_wire.c:934-948 | a claimed piece can be completed by some run if and only if its claimer is still asked for it |
| Losses.LostIsReachable | SimpleTorrent/src/peer_wire.c:1135-1138 | every download that misses a piece has a run in which a piece is lost |
| Losses.LeavingPeerStrandsPiece | SimpleTorrent/src/peer_wire.c:1135-1138 | when an asked peer leaves before a block arrives, the piece is missing again and nobody can be asked for it |
| Losses.StrandedRefusesBlocks | SimpleTorrent/src/peer_wire.c:941-947 | the blocks of the other peers that were asked for it are refused |
| Losses.StrandedUntilNamed | SimpleTorrent/src/peer_wire.c:717 | no run completes such a piece or the file until a bitfield names the piece |
| Losses.SpinningIsReachable | SimpleTorrent/src/peer_wire.c:709-722 | every download that misses one to five pieces has a run that comes to that with another peer still asked for the piece |
| Losses.SpinningJams | SimpleTorrent/src/peer_wire.c:710-722 | further turns for it fill the window and jam the end game |
| Losses.JammedIsReachable | SimpleTorrent/src/peer_wire.c:709-722 | every download that misses one to five pieces has a run that jams |
| PeerPool.Pool.AddPeer | SimpleTorrent/src/peers_pool.c:20-62 | the new peer is in front, the others keep their order, and the list stays acyclic |
| PeerPool.Pool.FindPeerNode | SimpleTorrent/src/peers_pool.c:69-79 | the first node with the address, or null exactly if there is none |
| PeerPool.Pool.RemoveNode | SimpleTorrent/src/peers_pool.c:81-100 | exactly the first node with the peer's address is gone, the others keep their order, and the list stays acyclic |
| PeerPool.Pool.FindPeerHavePiece | SimpleTorrent/src/peer_wire.c:656-678 | the first least-used peer of the list that has the piece, or null exactly if nobody has it |
| PeerPool.Pool.PeersWithout | SimpleTorrent/src/peer_wire.c:450-459 | the connections of the peers that lack the piece, in the order of the list |
| PeerPool.LackingNamesExactly | SimpleTorrent/src/peer_wire.c:450-459 | a connection is among them if and only if a peer without the piece has it |
| PeerPool.RemoveIpAt | SimpleTorrent/src/peers_pool.c:86-94 | removing by address removes the first peer with that address |
| Counting.RemoveIpIs | SimpleTorrent/src/peers_pool.c:86-94 | with one peer for an address, it removes just that peer, keeps the order, and leaves addresses and connections distinct |
| Counting.CountIsNumber | SimpleTorrent/src/process_tracker_response.c:282-321 | a count of pieces in a state is the number of their indices |
| Counting.TallyIsNumber | SimpleTorrent/src/peer_wire.c:883-902 | a tally of a piece is the number of peers that have it in at least that state |
| History.PoolIsHistory | SimpleTorrent/src/peers_pool.c:20-100 | after every run the pool is what the events say: who came with a new address and has not left, the last to come first, with exactly the pieces that its bitfields named, as numbers, and the number of requests sent to it |
| History.RequestsFromHistory | SimpleTorrent/src/peer_wire.c:629-693 | in every run, a request can begin exactly for the lowest of the missing pieces that the fewest connected peers announced, at the last to come of the announcers that were sent the fewest requests |
| History.SentExactly | SimpleTorrent/src/peer_wire.c:604-621 | an event sends exactly the sub-requests of the chosen piece to the chosen peer, or in the end game to every peer that has the piece and is not asked for it yet, after all that was sent before |
| History.AskedWereSentInEveryRun | SimpleTorrent/src/peer_wire.c:694-722 | in every run, whoever is asked for a piece was sent all of its sub-requests on this connection |
| Client.Client.StartUp | SimpleTorrent/src/process_tracker_response.c:282-321 | the variables and the empty list form an initial state of the protocol: pieces on disk that hash correctly are complete and the others are counted as missing |
| Client.Client.WhichPieceToRequest | SimpleTorrent/src/peer_wire.c:629-651 | the smallest index among the missing pieces of minimal positive availability, or -1 exactly if there is none |
| Client.Client.BeginRequest | SimpleTorrent/src/peer_wire.c:688-693 | the piece and the peer found by the two searches give a step of the protocol, and if they find none, no such step is possible |
| Client.Client.AcquireWindow | SimpleTorrent/src/peer_wire.c:30 | from every state in which the protocol allows Acquire, taking the mutex is that step, and the list stays in step |
| Client.Client.EnterEndGame | SimpleTorrent/src/peer_wire.c:704-707 | from every state in which the protocol allows it, setting the flag is the step that opens the end game |
| Client.Client.SendRequest | SimpleTorrent/src/peer_wire.c:694-697 | the step that sends the sub-requests of the piece and marks it and its peer |
| Client.SendSubRequests | SimpleTorrent/src/peer_wire.c:612-620 | the messages sent are the sub-requests of the piece |
| Client.Client.HandleHandshake | SimpleTorrent/src/peer_wire.c:775-820 | an address that the list holds is refused and changes nothing, a new one joins list and protocol in front |
| Client.Client.HandleBitfield | SimpleTorrent/src/peer_wire.c:883-902 | every piece that the bitfield names is marked for the peer and counted in the index |
| Client.Client.WriteBlock | SimpleTorrent/src/peer_wire.c:930-949 | the block is written unless in the end game another connection was first, and the first block claims the piece |
| Client.Client.HandlePiece | SimpleTorrent/src/peer_wire.c:925-988 | exactly the step of the protocol for an arriving block |
| Client.Client.HandleDisconnect | SimpleTorrent/src/peer_wire.c:1124-1150 | exactly the step of the protocol for a disconnect, on the list as on the counters |
| Client.TakeBack | SimpleTorrent/src/peer_wire.c:1130-1142 | the loop returns the pieces asked of the peer, lowers the index for all its pieces, and unlocks once for every piece returned |
| Client.Client.EndGameTurn | SimpleTorrent/src/peer_wire.c:709-725 | exactly the end-game step of the protocol for the piece that is found, and no step exactly if none is possible |
| Client.AskPeers | SimpleTorrent/src/peer_wire.c:714-721 | the walk over the list asks every peer that has the piece, in order, and marks exactly those |
| Client.MarkAll | SimpleTorrent/src/peer_wire.c:884-893 | the loop marks and counts exactly the pieces whose bit is set |
| WireFormat.NetworkOrder | SimpleTorrent/src/peer_wire.c:516-519 | on this host the byte reversal writes, and reads, the big-endian two's complement |
| WireLayout.NetworkExactly | SimpleTorrent/src/peer_wire.c:516-519 | four octets are an int in network order if and only if, most significant first, they make up its two's complement, and if and only if the reader takes them for it |
| WireLayout.Layout | SimpleTorrent/src/peer_wire.c:336-568 | every message octet by octet, with its number from 0 to 8, its length and its fields in order |
| WireFormat.ReversedTwice | SimpleTorrent/src/peer_wire.c:1057-1059 | the byte reversal undoes itself |
| WireFormat.MessageRoundTrip | SimpleTorrent/src/peer_wire.c:336-595 | whatever follows it, a message is read back as it was written and nothing else is consumed, if and only if it is no PIECE without a block |
| WireLayout.LengthIsIgnored | SimpleTorrent/src/peer_wire.c:1017-1107 | whatever positive length it comes with, a message other than BITFIELD and PIECE is read as its id and fields say |
| WireLayout.UnknownIsNotSkipped | SimpleTorrent/src/peer_wire.c:1108-1111 | of a message with an id above 8 only the header is consumed, whatever its length |
| WireLayout.NoLength | SimpleTorrent/src/peer_wire.c:1114-1119 | a length of zero or below is a keep-alive of four octets |
| WireLayout.NoContents | SimpleTorrent/src/peer_wire.c:1033-1080 | a BITFIELD or PIECE whose length leaves nothing for its contents ends the session |
| WireLayout.Truncated | SimpleTorrent/src/peer_wire.c:1008-1107 | no proper prefix of a message is read as one: the session ends, at once if nothing of the next field arrived or an error came, otherwise with a part of it |
| WireFormat.StreamRoundTrip | SimpleTorrent/src/peer_wire.c:1008-1121 | the reader recovers every list of written messages and goes on with what follows them |
| WireFormat.WholeStream | SimpleTorrent/src/peer_wire.c:1008-1121 | a stream that ends after the last message yields exactly the messages written, if and only if every PIECE has a block |
| WireFormat.WritingIsInjective | SimpleTorrent/src/peer_wire.c:336-595 | two lists of messages that look the same on the wire are the same |
| WireFormat.EmptyBlockEndsSession | SimpleTorrent/src/peer_wire.c:1064-1080 | a PIECE without a block ends the session and loses what follows |
| WireFormat.LengthWordExactly | SimpleTorrent/src/peer_wire.c:350-365 | the length word counts the octets after it for every message but CHOKE |
| Wire.Socket.Recv | SimpleTorrent/src/peer_wire.c:82-105 | however the stream is cut up and interrupted, the result depends on its octets and on how it ends only |
| Wire.AheadOfTwo | SimpleTorrent/src/peer_wire.c:90-103 | the stream is the octets of the chunks in order, up to the first error, whatever interrupts it |
| Wire.Socket.Send | SimpleTorrent/src/peer_wire.c:108-130 | a prefix of the data is written, all of it if every call of send makes progress or is interrupted |
| Wire.Socket.SendChoke | SimpleTorrent/src/peer_wire.c:350-365 | the octets of CHOKE with its unreversed length word |
| Wire.Socket.SendKeepalive | SimpleTorrent/src/peer_wire.c:336-343 | the octets of a keep-alive |
| Wire.Socket.SendState | SimpleTorrent/src/peer_wire.c:372-432 | the octets of UNCHOKE, INTERESTED or NOT INTERESTED |
| Wire.Socket.SendHave | SimpleTorrent/src/peer_wire.c:440-455 | the octets of HAVE, to one of the connections that `PeersWithout` names |
| Wire.Socket.SendRange | SimpleTorrent/src/peer_wire.c:510-528 | the octets of REQUEST or CANCEL |
| Wire.Socket.SendBitfield | SimpleTorrent/src/peer_wire.c:469-501 | the octets of BITFIELD with contents in which, read as numbers, bit 7 - i % 8 of octet i / 8 is 1 if and only if there is a piece i and it hashes correctly: all of them if every send makes progress, a prefix unless a send takes nothing |
| Wire.Socket.SendPiece | SimpleTorrent/src/peer_wire.c:535-568 | the octets of PIECE with the block from the file, filled up with zeros behind the end of the file; outside the file nothing is sent |
| Wire.BlockBytes | SimpleTorrent/src/peer_wire.c:535-568 | byte j of the block is the file's at the start of the piece plus begin plus j, and zero behind the end of the file |
| Wire.Socket.ReceiveBody | SimpleTorrent/src/peer_wire.c:1017-1112 | each branch recovers its message or stops, and leaves the rest of the stream |
| Wire.Socket.MessageHandler | SimpleTorrent/src/peer_wire.c:1008-1121 | for every fragmentation, the messages and the reason for stopping are those of the pure reader on the octets of the stream, cut off behind the first REQUEST or PIECE whose handling fails |
| Wire.AllHandled | SimpleTorrent/src/peer_wire.c:1060-1085 | if every message is handled, nothing is cut off |
| Wire.HandlingExactly | SimpleTorrent/src/peer_wire.c:1060-1085 | the messages are cut off behind the first REQUEST or PIECE whose handling fails, and nowhere else |
| EndToEnd.RunStoresAccepted | SimpleTorrent/src/peer_wire.c:925-988 | after every legal run the file is what set_block makes of the blocks that were not refused, in order, and the complete pieces are exactly those that then hash correctly |
| EndToEnd.NothingIsRefused | SimpleTorrent/src/peer_wire.c:930-932 | in a run that does not come to the end game, these are all blocks |
| EndToEnd.RunOverTheWire | SimpleTorrent/src/peer_wire.c:1064-1087 | if the blocks that a run accepts are those that a seed's stream carries, the file is put together from the seed's, and the piece states say which pieces hash correctly |
| EndToEnd.RunCopiesSeed | SimpleTorrent/src/peer_wire.c:1064-1087 | if the stream answers every request, every piece is complete and the file is the seed's |
| EndToEnd.DownloadOverTheWire | SimpleTorrent/src/peer_wire.c:535-568 | if a seed's answers to all sub-requests arrive, in any order and cut up in any way, the messages are recovered and the file becomes the seed's |

## Left out

- Threads, sockets, signals, sleeping, printing and the tracker loop: connections are scripts of arriving chunks and of accepted sends, and the file is an array of octets.
- The scan of HTTP headers and the dictionary form of the tracker's peer list (`SimpleTorrent/src/process_tracker_response.c:193-223`), and its compact form, which would only add easy members.
- The check of the info hash in `handshake_handler`, its failure returns, and the peer list of the tracker that it consults.
- Choke and interest flags and the messages sent because of them; HAVE messages, which change no piece state.
- `get_piece`, `set_piece` and `get_any_piece`, which repeat the block functions and which the protocol does not use.
- Memory: `malloc` and `free`, `be_free`, `be_dump` and uninitialised memory beyond a new peer's states.
- Data races on `pieces_requesting` and between the two mutexes.
- What the reader does with a field of which only a part arrived before the stream ended: it goes on with whatever memory holds; the model stops with `Cut`.
- Piece indices outside the torrent, with which the handlers index their arrays unchecked.
- WireFormat.WholeStream: starts after the handshake, which is a fixed structure compared as a whole.
- Client.Client.SendRequest: leaves out the INTERESTED that goes before the sub-requests.
- Client.Client.WriteBlock: leaves out the CANCEL that answers a refused block.
- Client.Client.HandlePiece: leaves out that CANCEL, the HAVE that announces a completed piece, and the return value, which tells whether the CANCEL was sent.
- Wire.Socket.SendHave: writes to one connection; the connections are those of `PeerPool.Pool.PeersWithout`.
- Wire.Socket.SendPiece: promises nothing for lengths below zero or so large that the size of the buffer overflows, for which the code has no defined behaviour.
- Wire.Socket.SendBitfield: does not promise that what is written is a prefix of the message when a call of send takes nothing, because the code then sends the bitfield after a cut header.
- Wire.Socket.MessageHandler: takes as an argument which messages are handled without an error, and does not connect them to the handlers of `Client`.
- Client.Client.HandleHandshake: starts after the check of the info hash, and cannot fail to send the answering handshake.
- Theorems.WindowOfFive: counts pieces in flight; the counter `pieces_requesting` itself can exceed five in the end game, where a turn can take the window without sending a request.
- Bencode.Decoder.Parse: a store through the null array pointer of an empty container is the outcome `Crashed`, and a loop that makes no progress is `Stalled`.
