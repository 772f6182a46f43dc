/** On which inputs the decoder of bencode.c never returns: read the input from left to right, keep a stack of the
    containers that are open, and look for a position inside one where nothing can be read. */
module BencodeStall {
  import opened Bytes
  import opened BencodeSpec
  import opened Bencode
  import opened BencodeProofs
  import BencodeTermination

  /** A container that is open, and whether something was read in it. */
  datatype Frame = InList(empty: bool) | InDict(empty: bool)

  /** What is still to be read, inside which containers, innermost first. */
  datatype Place = Place(rest: seq<byte>, open: seq<Frame>)

  /** A value starts with a digit or one of three letters. */
  predicate StartsValue(input: seq<byte>) {
    input != [] && (IsDigit(input[0]) || input[0] in {LETTER_I, LETTER_L, LETTER_D})
  }

  /** Something is read as a key: a number, or the colon of an empty string. */
  predicate StartsKey(input: seq<byte>) {
    Strtoll(input).used > 0 || Peek(input) == COLON
  }

  /** No end, no value and, in a dictionary, no key: the loop of the container repeats itself. */
  predicate Blocked(p: Place) {
    && p.open != [] && Peek(p.rest) != LETTER_E && !StartsValue(p.rest)
    && (p.open[0].InDict? ==> !StartsKey(p.rest))
  }

  /** The end of a container in which nothing was read, where the decoder crashes. */
  predicate AtEmptyEnd(p: Place) {
    p.open != [] && Peek(p.rest) == LETTER_E && p.open[0].empty
  }

  function Filled(f: Frame): Frame {
    if f.InList? then InList(false) else InDict(false)
  }

  /** The place after a value has begun at `input`: behind a string or an integer, or inside a new container. */
  function EnterValue(input: seq<byte>, open: seq<Frame>): (p: Place)
    requires StartsValue(input)
    ensures |p.rest| < |input|
  {
    if input[0] == LETTER_L then Place(input[1..], [InList(true)] + open)
    else if input[0] == LETTER_D then Place(input[1..], [InDict(true)] + open)
    else if input[0] == LETTER_I then Place(input[1 + DecodeInt(input[1..]).used..], open)
    else
      StringUsed(input);
      Place(input[DecodeStr(input).used..], open)
  }

  lemma StringUsed(input: seq<byte>)
    requires StartsValue(input) && IsDigit(input[0])
    ensures DecodeStr(input).used > 0
  {
  }

  lemma KeyUsed(input: seq<byte>)
    ensures DecodeStr(input).used > 0 <==> StartsKey(input)
  {
  }

  /** One step of the reading. */
  function Onward(p: Place): (q: Place)
    requires p.open != [] && !Blocked(p) && !AtEmptyEnd(p)
    ensures |q.rest| < |p.rest|
  {
    var open := [Filled(p.open[0])] + p.open[1..];
    if Peek(p.rest) == LETTER_E then Place(p.rest[1..], p.open[1..])
    else if p.open[0].InList? then EnterValue(p.rest, open)
    else
      KeyUsed(p.rest);
      var rest := p.rest[DecodeStr(p.rest).used..];
      if StartsValue(rest) then EnterValue(rest, open) else Place(rest, open)
  }

  /** The reading comes to a place where the decoder is blocked. */
  ghost predicate Blocks(p: Place)
    decreases |p.rest|
  {
    p.open != [] && !AtEmptyEnd(p) && (Blocked(p) || Blocks(Onward(p)))
  }

  /** The reading comes to an empty container's end. */
  ghost predicate Empties(p: Place)
    decreases |p.rest|
  {
    p.open != [] && !Blocked(p) && (AtEmptyEnd(p) || Empties(Onward(p)))
  }

  /** What the reading at `p` comes to, when the decoder of the innermost container gives `d`. */
  ghost predicate Follows(p: Place, d: Decoded)
    requires p.open != [] && d.used <= |p.rest|
  {
    Agree(p, Place(p.rest[d.used..], p.open[1..]), d.outcome)
  }

  ghost predicate Agree(p: Place, behind: Place, outcome: Outcome) {
    match outcome
    case Stalled => Blocks(p) && !Empties(p)
    case Crashed => !Blocks(p) && Empties(p)
    case Returned(_) => (Blocks(p) <==> Blocks(behind)) && (Empties(p) <==> Empties(behind))
  }

  lemma {:induction false} ValueFollows(input: seq<byte>, open: seq<Frame>)
    requires StartsValue(input)
    ensures Agree(EnterValue(input, open), Place(input[Decode(input).used..], open), Decode(input).outcome)
    decreases |input|, 1
  {
    if input[0] == LETTER_L {
      ListFollows(input[1..], [], open);
      assert ([InList(true)] + open)[1..] == open;
      assert input[1..][DecodeItems(input[1..], []).used..] == input[Decode(input).used..];
    } else if input[0] == LETTER_D {
      DictFollows(input[1..], [], open);
      assert ([InDict(true)] + open)[1..] == open;
      assert input[1..][DecodeEntries(input[1..], []).used..] == input[Decode(input).used..];
    }
  }

  /** A turn of the loop of a container that goes on reading. */
  lemma GoesOn(p: Place, q: Place)
    requires p.open != [] && Peek(p.rest) != LETTER_E && !Blocked(p) && Onward(p) == q
    ensures (Blocks(p) <==> Blocks(q)) && (Empties(p) <==> Empties(q))
  {
  }

  /** The end of a container, or a place where its loop repeats itself. */
  lemma ComesToEnd(input: seq<byte>, frame: Frame, open: seq<Frame>)
    ensures var p := Place(input, [frame] + open);
            && (Peek(input) == LETTER_E ==>
                  Agree(p, Place(input[1..], open), if frame.empty then Crashed else Returned(Null)))
            && (Blocked(p) ==> Blocks(p) && !Empties(p))
  {
    assert ([frame] + open)[1..] == open;
  }

  /** An element of a list. */
  lemma ItemFollows(input: seq<byte>, empty: bool, open: seq<Frame>)
    requires var p := Place(input, [InList(empty)] + open); Peek(input) != LETTER_E && !Blocked(p)
    ensures var p := Place(input, [InList(empty)] + open);
            var item := Decode(input);
            item.used > 0 && Agree(p, Place(input[item.used..], [InList(false)] + open), item.outcome)
    decreases |input|, 2
  {
    var p := Place(input, [InList(empty)] + open);
    assert p.open[1..] == open;
    StartUsed(input);
    ValueFollows(input, [InList(false)] + open);
    GoesOn(p, EnterValue(input, [InList(false)] + open));
  }

  lemma NoItem(input: seq<byte>)
    requires !StartsValue(input)
    ensures Decode(input) == Decoded(Returned(Null), 0)
  {
  }

  lemma {:induction false} ListFollows(input: seq<byte>, items: seq<Node>, open: seq<Frame>)
    ensures Follows(Place(input, [InList(items == [])] + open), DecodeItems(input, items))
    decreases |input|, 3
  {
    hide Onward, Blocks, Empties, Decode, StartsValue;
    var p := Place(input, [InList(items == [])] + open);
    assert p.open[1..] == open;
    if Peek(input) == LETTER_E || Blocked(p) {
      ComesToEnd(input, InList(items == []), open);
      if Peek(input) != LETTER_E {
        NoItem(input);
      }
    } else {
      var item := Decode(input);
      ItemFollows(input, items == [], open);
      if item.outcome.Returned? {
        ListFollows(input[item.used..], items + [item.outcome.node], open);
        var r := DecodeItems(input[item.used..], items + [item.outcome.node]);
        assert ([InList(false)] + open)[1..] == open;
        assert input[item.used..][r.used..] == input[item.used + r.used..];
      }
    }
  }

  lemma StartUsed(input: seq<byte>)
    requires StartsValue(input)
    ensures Decode(input).used > 0
  {
  }

  /** An entry that is read as a key and a value, or a key alone. */
  lemma EntryFollows(input: seq<byte>, empty: bool, open: seq<Frame>)
    requires var p := Place(input, [InDict(empty)] + open); Peek(input) != LETTER_E && !Blocked(p)
    ensures var p := Place(input, [InDict(empty)] + open);
            var entry := DecodeEntry(input);
            entry.used > 0 && Agree(p, Place(input[entry.used..], [InDict(false)] + open), entry.outcome)
    decreases |input|, 2
  {
    var p := Place(input, [InDict(empty)] + open);
    assert p.open[1..] == open;
    KeyUsed(input);
    var rest := input[DecodeStr(input).used..];
    if StartsValue(rest) {
      ValueFollows(rest, [InDict(false)] + open);
      StartUsed(rest);
      GoesOn(p, EnterValue(rest, [InDict(false)] + open));
    } else {
      assert input[0..] == input;
      GoesOn(p, Place(rest, [InDict(false)] + open));
    }
    assert rest[Decode(rest).used..] == input[DecodeEntry(input).used..];
  }

  lemma NoEntry(input: seq<byte>)
    requires !StartsValue(input) && !StartsKey(input)
    ensures DecodeEntry(input).used == 0 && DecodeEntry(input).outcome.Returned?
  {
    KeyUsed(input);
    assert input[0..] == input;
  }

  lemma {:induction false} DictFollows(input: seq<byte>, entries: seq<Entry>, open: seq<Frame>)
    ensures Follows(Place(input, [InDict(entries == [])] + open), DecodeEntries(input, entries))
    decreases |input|, 3
  {
    hide DecodeEntry, StartsKey, Onward, Blocks, Empties;
    var p := Place(input, [InDict(entries == [])] + open);
    assert p.open[1..] == open;
    if Peek(input) == LETTER_E || Blocked(p) {
      ComesToEnd(input, InDict(entries == []), open);
      if Peek(input) != LETTER_E {
        NoEntry(input);
      }
    } else {
      var entry := DecodeEntry(input);
      EntryFollows(input, entries == [], open);
      if entry.outcome.Returned? {
        DictFollows(input[entry.used..], entries + [Entry(entry.key, entry.outcome.node)], open);
        var r := DecodeEntries(input[entry.used..], entries + [Entry(entry.key, entry.outcome.node)]);
        assert ([InDict(false)] + open)[1..] == open;
        assert input[entry.used..][r.used..] == input[entry.used + r.used..];
      }
    }
  }

  // ----- The inputs

  /** The decoder repeats itself for ever if and only if the input starts a value and the reading of it
      comes to a place where it is blocked. */
  lemma StallsExactly(input: seq<byte>)
    ensures Decode(input).outcome.Stalled? <==> StartsValue(input) && Blocks(EnterValue(input, []))
    ensures Decode(input).outcome.Crashed? <==> StartsValue(input) && Empties(EnterValue(input, []))
  {
    if StartsValue(input) {
      ValueFollows(input, []);
    }
  }

  /** The place after `n` steps of the reading, if it gets so far. */
  ghost function PlaceAfter(p: Place, n: nat): (q: Option<Place>)
    decreases n
  {
    if n == 0 then Some(p)
    else if p.open == [] || Blocked(p) || AtEmptyEnd(p) then None
    else PlaceAfter(Onward(p), n - 1)
  }

  /** After `n` steps the reading is blocked. */
  ghost predicate BlockedAfter(p: Place, n: nat) {
    var q := PlaceAfter(p, n);
    q.Some? && Blocked(q.value)
  }

  /** To block is to be blocked after some number of steps. */
  lemma {:induction false} BlocksSomewhere(p: Place)
    ensures Blocks(p) <==> exists n: nat :: BlockedAfter(p, n)
    decreases |p.rest|
  {
    if p.open == [] || Blocked(p) || AtEmptyEnd(p) {
      assert BlockedAfter(p, 0) <==> Blocked(p);
      assert forall n: nat :: n > 0 ==> !BlockedAfter(p, n);
    } else {
      BlocksSomewhere(Onward(p));
      assert forall n: nat :: BlockedAfter(Onward(p), n) <==> BlockedAfter(p, n + 1);
      if n: nat :| BlockedAfter(p, n) {
        assert n > 0 && BlockedAfter(Onward(p), n - 1);
      }
    }
  }

  /** The decoder ends, unless the input starts a value in the reading of which it comes to be blocked. */
  lemma TerminatesExactly(input: seq<byte>)
    ensures (exists bound: nat :: BencodeTermination.EndsWithin(input, bound)) <==>
            !(StartsValue(input) && exists n: nat :: BlockedAfter(EnterValue(input, []), n))
  {
    BencodeTermination.TerminatesUnlessStalled(input);
    StallsExactly(input);
    if StartsValue(input) {
      BlocksSomewhere(EnterValue(input, []));
    }
  }

  /** A well-formed encoding never stalls the decoder, whatever follows it. */
  lemma EncodingsNeverStall(v: Node, rest: seq<byte>)
    requires WellFormed(v)
    ensures !Decode(Encode(v) + rest).outcome.Stalled?
  {
    RoundTrip(v, rest);
  }

  /** The shortest inputs that do. */
  lemma OpenContainerStalls()
    ensures Decode([LETTER_L]).outcome == Stalled && Decode([LETTER_D]).outcome == Stalled
  {
    assert [LETTER_L][1..] == [] && [LETTER_D][1..] == [];
  }
}
