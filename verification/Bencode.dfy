/** The decoder of bencode.c: a recursive descent with a cursor and a count of the bytes left. */
module Bencode {
  import opened Bytes
  import opened BencodeSpec

  /** How a call of the decoder ends.
      `Crashed`: it stores through the null array pointer of an empty list or dictionary.
      `Stalled`: a loop made no progress, so it repeats itself for ever. */
  datatype Outcome =
    | Returned(node: Node)
    | Crashed
    | Stalled

  datatype Decoded = Decoded(outcome: Outcome, used: nat)

  // ----- The C library's strtoll with base 10

  /** The byte under the cursor; the input is terminated by a zero byte. */
  function Peek(input: seq<byte>): byte {
    if input == [] then 0 else input[0]
  }

  predicate IsDigit(b: byte) {
    48 <= b <= 57
  }

  predicate IsSpace(b: byte) {
    b == 32 || 9 <= b <= 13
  }

  function DigitsIn(input: seq<byte>): (n: nat)
    ensures n <= |input|
    ensures forall k :: 0 <= k < n ==> IsDigit(input[k])
  {
    if input != [] && IsDigit(input[0]) then 1 + DigitsIn(input[1..]) else 0
  }

  function Number(digits: seq<byte>): (n: nat)
    requires forall k :: 0 <= k < |digits| ==> IsDigit(digits[k])
  {
    if digits == [] then 0
    else
      var last := digits[|digits| - 1];
      assert IsDigit(last);
      10 * Number(digits[..|digits| - 1]) + (last - 48) as int
  }

  function Clamp(i: int): (c: int)
    ensures FitsInt64(c)
    ensures FitsInt64(i) ==> c == i
  {
    if i < -0x8000_0000_0000_0000 then -0x8000_0000_0000_0000
    else if i >= 0x8000_0000_0000_0000 then 0x7FFF_FFFF_FFFF_FFFF
    else i
  }

  datatype Scanned = Scanned(value: int, used: nat)

  function Strtoll(input: seq<byte>): (r: Scanned)
    ensures r.used <= |input| && FitsInt64(r.value)
  {
    if input != [] && IsSpace(input[0]) then
      var r := Strtoll(input[1..]);
      if r.used == 0 then r else Scanned(r.value, 1 + r.used)
    else if Peek(input) == MINUS then
      var r := Unsigned(input[1..]);
      if r.used == 0 then Scanned(0, 0) else Scanned(Clamp(-r.value), 1 + r.used)
    else if Peek(input) == PLUS then
      var r := Unsigned(input[1..]);
      if r.used == 0 then Scanned(0, 0) else Scanned(Clamp(r.value), 1 + r.used)
    else
      var r := Unsigned(input);
      Scanned(Clamp(r.value), r.used)
  }

  function Unsigned(input: seq<byte>): (r: Scanned)
    ensures r.used <= |input| && (r.used == 0 ==> r.value == 0)
  {
    Scanned(Number(input[..DigitsIn(input)]), DigitsIn(input))
  }

  // ----- What the decoder computes

  datatype DecodedString = DecodedString(s: Option<seq<byte>>, used: nat)

  /** _be_decode_str. */
  function DecodeStr(input: seq<byte>): (r: DecodedString)
    ensures r.used <= |input|
  {
    var Scanned(length, used) := Strtoll(input);
    if length < 0 || length > |input| - used - 1 then DecodedString(None, used)
    else if input[used] == COLON then
      DecodedString(Some(input[used + 1..used + 1 + length]), used + 1 + length)
    else DecodedString(None, used)
  }

  /** The integer branch of _be_decode, after the letter. */
  function DecodeInt(input: seq<byte>): (r: Decoded)
    ensures r.used <= |input|
  {
    var Scanned(i, used) := Strtoll(input);
    if Peek(input[used..]) != LETTER_E then Decoded(Returned(Null), used)
    else Decoded(Returned(Int(i)), used + 1)
  }

  /** _be_decode. */
  function Decode(input: seq<byte>): (r: Decoded)
    ensures r.used <= |input|
    decreases |input|, 1
  {
    if input == [] then Decoded(Returned(Null), 0)
    else if input[0] == LETTER_L then
      var r := DecodeItems(input[1..], []);
      Decoded(r.outcome, 1 + r.used)
    else if input[0] == LETTER_D then
      var r := DecodeEntries(input[1..], []);
      Decoded(r.outcome, 1 + r.used)
    else if input[0] == LETTER_I then
      var r := DecodeInt(input[1..]);
      Decoded(r.outcome, 1 + r.used)
    else if IsDigit(input[0]) then
      var DecodedString(s, used) := DecodeStr(input);
      Decoded(Returned(Str(s)), used)
    else Decoded(Returned(Null), 0)
  }

  /** The list loop, after `items`. */
  function DecodeItems(input: seq<byte>, items: seq<Node>): (r: Decoded)
    ensures r.used <= |input|
    decreases |input|, 2
  {
    if Peek(input) == LETTER_E then
      Decoded(if items == [] then Crashed else Returned(List(items)), 1)
    else
      var item := Decode(input);
      if !item.outcome.Returned? then item
      else if item.used == 0 then Decoded(Stalled, 0)
      else
        var r := DecodeItems(input[item.used..], items + [item.outcome.node]);
        Decoded(r.outcome, item.used + r.used)
  }

  /** The dictionary loop, after `entries`. */
  function DecodeEntries(input: seq<byte>, entries: seq<Entry>): (r: Decoded)
    ensures r.used <= |input|
    decreases |input|, 3
  {
    if Peek(input) == LETTER_E then
      Decoded(if entries == [] then Crashed else Returned(Dict(entries)), 1)
    else
      var entry := DecodeEntry(input);
      if !entry.outcome.Returned? then Decoded(entry.outcome, entry.used)
      else if entry.used == 0 then Decoded(Stalled, 0)
      else
        var r := DecodeEntries(input[entry.used..], entries + [Entry(entry.key, entry.outcome.node)]);
        Decoded(r.outcome, entry.used + r.used)
  }

  datatype DecodedEntry = DecodedEntry(key: Option<seq<byte>>, outcome: Outcome, used: nat)

  /** One turn of the dictionary loop. */
  function DecodeEntry(input: seq<byte>): (r: DecodedEntry)
    ensures r.used <= |input|
    decreases |input|, 2
  {
    var key := DecodeStr(input);
    var val := Decode(input[key.used..]);
    DecodedEntry(key.s, val.outcome, key.used + val.used)
  }

  // ----- The decoder itself

  /** The arguments `data` and `data_len` that the functions of bencode.c advance. */
  class Decoder {
    const data: seq<byte>
    var pos: nat
    var dataLen: int

    /** Cursor offset plus bytes left is constant. */
    ghost predicate Valid()
      reads this
    {
      pos <= |data| && pos + dataLen == |data|
    }

    constructor (data: seq<byte>)
      ensures Valid() && this.data == data && pos == 0
    {
      this.data := data;
      pos := 0;
      dataLen := |data|;
    }

    function Current(): byte
      requires Valid()
      reads this
    {
      if pos < |data| then data[pos] else 0
    }

    method Advance(n: nat)
      requires Valid() && pos + n <= |data|
      modifies this
      ensures Valid() && pos == old(pos) + n
    {
      dataLen := dataLen - n;
      pos := pos + n;
    }

    /** _be_decode_int. */
    method ParseInt() returns (i: int)
      requires Valid()
      modifies this
      ensures Valid() && pos >= old(pos)
      ensures Scanned(i, pos - old(pos)) == Strtoll(data[old(pos)..])
    {
      var scanned := Strtoll(data[pos..]);
      Advance(scanned.used);
      i := scanned.value;
    }

    /** _be_decode_str. */
    method ParseStr() returns (s: Option<seq<byte>>)
      requires Valid()
      modifies this
      ensures Valid() && pos >= old(pos)
      ensures DecodedString(s, pos - old(pos)) == DecodeStr(data[old(pos)..])
    {
      ghost var input := data[pos..];
      var length := ParseInt();
      s := None;
      if length < 0 {
        return;
      }
      if length > dataLen - 1 {
        return;
      }
      if Current() == COLON {
        assert data[pos + 1..pos + 1 + length] == input[pos - old(pos) + 1..pos - old(pos) + 1 + length];
        s := Some(data[pos + 1..pos + 1 + length]);
        Advance(length + 1);
      }
    }

    /** _be_decode. */
    method Parse() returns (outcome: Outcome)
      requires Valid()
      modifies this
      ensures Valid() && pos >= old(pos)
      ensures Decoded(outcome, pos - old(pos)) == Decode(data[old(pos)..])
      decreases |data| - pos, 1
    {
      ghost var input := data[pos..];
      if dataLen == 0 {
        return Returned(Null);
      }
      if Current() == LETTER_L {
        Advance(1);
        outcome := ParseItems();
        assert data[old(pos) + 1..] == input[1..];
      } else if Current() == LETTER_D {
        Advance(1);
        outcome := ParseEntries();
        assert data[old(pos) + 1..] == input[1..];
      } else if Current() == LETTER_I {
        Advance(1);
        outcome := ParseIntNode();
        assert data[old(pos) + 1..] == input[1..];
      } else if IsDigit(Current()) {
        var s := ParseStr();
        outcome := Returned(Str(s));
      } else {
        outcome := Returned(Null);
      }
    }

    /** The integer branch of _be_decode, after the letter. */
    method ParseIntNode() returns (outcome: Outcome)
      requires Valid()
      modifies this
      ensures Valid() && pos >= old(pos)
      ensures Decoded(outcome, pos - old(pos)) == DecodeInt(data[old(pos)..])
    {
      ghost var input := data[pos..];
      var i := ParseInt();
      assert data[pos..] == input[pos - old(pos)..];
      if Current() != LETTER_E {
        return Returned(Null);
      }
      Advance(1);
      outcome := Returned(Int(i));
    }

    /** The list branch of _be_decode, after the letter. */
    method ParseItems() returns (outcome: Outcome)
      requires Valid()
      modifies this
      ensures Valid() && pos >= old(pos)
      ensures Decoded(outcome, pos - old(pos)) == DecodeItems(data[old(pos)..], [])
      decreases |data| - pos, 2
    {
      ghost var whole := DecodeItems(data[pos..], []);
      var items: seq<Node> := [];
      while Current() != LETTER_E
        invariant Valid() && pos >= old(pos)
        invariant var rest := DecodeItems(data[pos..], items);
                  whole == Decoded(rest.outcome, pos - old(pos) + rest.used)
        decreases |data| - pos
      {
        var start := pos;
        outcome := Parse();
        assert data[start..][pos - start..] == data[pos..];
        if !outcome.Returned? {
          return;
        }
        if pos == start {
          return Stalled;
        }
        items := items + [outcome.node];
      }
      Advance(1);
      outcome := if items == [] then Crashed else Returned(List(items));
    }

    /** The dictionary branch of _be_decode, after the letter. */
    method ParseEntries() returns (outcome: Outcome)
      requires Valid()
      modifies this
      ensures Valid() && pos >= old(pos)
      ensures Decoded(outcome, pos - old(pos)) == DecodeEntries(data[old(pos)..], [])
      decreases |data| - pos, 3
    {
      ghost var whole := DecodeEntries(data[pos..], []);
      var entries: seq<Entry> := [];
      while Current() != LETTER_E
        invariant Valid() && pos >= old(pos)
        invariant var rest := DecodeEntries(data[pos..], entries);
                  whole == Decoded(rest.outcome, pos - old(pos) + rest.used)
        decreases |data| - pos
      {
        var start := pos;
        var key;
        key, outcome := ParseEntry();
        assert data[start..][pos - start..] == data[pos..];
        if !outcome.Returned? {
          return;
        }
        if pos == start {
          return Stalled;
        }
        entries := entries + [Entry(key, outcome.node)];
      }
      Advance(1);
      outcome := if entries == [] then Crashed else Returned(Dict(entries));
    }

    /** One turn of the loop of the dictionary branch. */
    method ParseEntry() returns (key: Option<seq<byte>>, outcome: Outcome)
      requires Valid()
      modifies this
      ensures Valid() && pos >= old(pos)
      ensures DecodedEntry(key, outcome, pos - old(pos)) == DecodeEntry(data[old(pos)..])
      decreases |data| - pos, 2
    {
      key := ParseStr();
      assert data[old(pos)..][pos - old(pos)..] == data[pos..];
      outcome := Parse();
    }
  }

  /** be_decoden. */
  method Decoden(data: seq<byte>) returns (outcome: Outcome)
    ensures outcome == Decode(data).outcome
  {
    var decoder := new Decoder(data);
    assert data[0..] == data;
    outcome := decoder.Parse();
  }
}
