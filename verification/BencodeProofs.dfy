/** The decoder inverts the encoder of BEP 3, with any bytes following. */
module BencodeProofs {
  import opened Bytes
  import opened BencodeSpec
  import opened Bencode

  ghost predicate AllDigits(ds: seq<byte>) {
    forall k :: 0 <= k < |ds| ==> IsDigit(ds[k])
  }

  lemma {:induction false} DigitsSpellNumber(n: nat)
    ensures AllDigits(Digits(n)) && Number(Digits(n)) == n
  {
    if n < 10 {
      assert Digits(n)[..0] == [];
    } else {
      DigitsSpellNumber(n / 10);
      assert Digits(n)[..|Digits(n)| - 1] == Digits(n / 10);
    }
  }

  lemma {:induction false} DigitsEnd(ds: seq<byte>, rest: seq<byte>)
    requires AllDigits(ds) && !IsDigit(Peek(rest))
    ensures DigitsIn(ds + rest) == |ds|
  {
    if ds == [] {
      assert ds + rest == rest;
    } else {
      DigitsEnd(ds[1..], rest);
      assert (ds + rest)[1..] == ds[1..] + rest;
    }
  }

  lemma UnsignedOfDigits(n: nat, rest: seq<byte>)
    requires !IsDigit(Peek(rest))
    ensures IsDigit(Digits(n)[0])
    ensures Unsigned(Digits(n) + rest) == Scanned(n, |Digits(n)|)
  {
    DigitsSpellNumber(n);
    DigitsEnd(Digits(n), rest);
    assert (Digits(n) + rest)[..|Digits(n)|] == Digits(n);
  }

  lemma StrtollOfUnsigned(input: seq<byte>)
    requires IsDigit(Peek(input))
    ensures var r := Unsigned(input); Strtoll(input) == Scanned(Clamp(r.value), r.used)
    ensures var r := Unsigned(input); r.used > 0 ==> Strtoll([MINUS] + input) == Scanned(Clamp(-r.value), 1 + r.used)
  {
    assert ([MINUS] + input)[1..] == input;
  }

  /** strtoll reads back every printed 64-bit integer. */
  lemma StrtollOfDecimal(i: int, rest: seq<byte>)
    requires FitsInt64(i) && !IsDigit(Peek(rest))
    ensures Strtoll(Decimal(i) + rest) == Scanned(i, |Decimal(i)|)
  {
    hide Strtoll, Unsigned, Digits;
    var magnitude := if i < 0 then -i else i;
    var input := Digits(magnitude) + rest;
    UnsignedOfDigits(magnitude, rest);
    assert input[0] == Digits(magnitude)[0];
    StrtollOfUnsigned(input);
    assert i < 0 ==> Decimal(i) + rest == [MINUS] + input;
  }

  lemma StringRoundTrip(s: seq<byte>, rest: seq<byte>)
    requires FitsInt64(|s|)
    ensures DecodeStr(EncodeString(s) + rest) == DecodedString(Some(s), |EncodeString(s)|)
    ensures IsDigit(EncodeString(s)[0])
  {
    var input := EncodeString(s) + rest;
    var after := [COLON] + s + rest;
    assert input == Decimal(|s|) + after;
    StrtollOfDecimal(|s|, after);
    DigitsSpellNumber(|s|);
    var used := |Digits(|s|)|;
    assert input[used + 1..used + 1 + |s|] == s;
  }

  lemma StringNodeRoundTrip(s: seq<byte>, rest: seq<byte>)
    requires FitsInt64(|s|)
    ensures Decode(EncodeString(s) + rest) == Decoded(Returned(Str(Some(s))), |EncodeString(s)|)
  {
    StringRoundTrip(s, rest);
    assert (EncodeString(s) + rest)[0] == EncodeString(s)[0];
  }

  lemma FirstByte(v: Node)
    requires WellFormed(v)
    ensures Encode(v)[0] != LETTER_E
  {
    if v.Str? {
      StringRoundTrip(v.s.value, []);
    }
  }

  lemma IntRoundTrip(i: int, rest: seq<byte>)
    requires FitsInt64(i)
    ensures DecodeInt(Decimal(i) + ([LETTER_E] + rest)) == Decoded(Returned(Int(i)), |Decimal(i)| + 1)
  {
    StrtollOfDecimal(i, [LETTER_E] + rest);
    assert (Decimal(i) + ([LETTER_E] + rest))[|Decimal(i)|..] == [LETTER_E] + rest;
  }

  /** Decoding what was encoded gives the tree back and leaves the cursor just behind it,
      exactly when no list or dictionary of the tree is empty; otherwise the decoder crashes. */
  lemma {:induction false} RoundTrip(v: Node, rest: seq<byte>)
    requires WellFormed(v)
    ensures Populated(v) ==> Decode(Encode(v) + rest) == Decoded(Returned(v), |Encode(v)|)
    ensures !Populated(v) ==> Decode(Encode(v) + rest).outcome == Crashed
    decreases v, 1
  {
    var input := Encode(v) + rest;
    match v
    case Str(s) =>
      StringNodeRoundTrip(s.value, rest);
    case Int(i) =>
      IntRoundTrip(i, rest);
      Tagged(input, Decimal(i) + ([LETTER_E] + rest));
    case List(items) =>
      ItemsRoundTrip([], items, rest);
      assert [] + items == items;
      Tagged(input, EncodeItems(items) + ([LETTER_E] + rest));
    case Dict(entries) =>
      EntriesRoundTrip([], entries, rest);
      assert [] + entries == entries;
      Tagged(input, EncodeEntries(entries) + ([LETTER_E] + rest));
  }

  /** A letter selects the branch that reads what follows it. */
  lemma Tagged(input: seq<byte>, after: seq<byte>)
    requires input != [] && input[0] in {LETTER_I, LETTER_L, LETTER_D}
    requires |input| == 1 + |after| && forall k :: 0 <= k < |after| ==> input[k + 1] == after[k]
    ensures var r := if input[0] == LETTER_I then DecodeInt(after)
                     else if input[0] == LETTER_L then DecodeItems(after, [])
                     else DecodeEntries(after, []);
            Decode(input) == Decoded(r.outcome, 1 + r.used)
  {
    assert input[1..] == after;
  }

  lemma {:induction false} ItemsRoundTrip(done: seq<Node>, items: seq<Node>, rest: seq<byte>)
    requires WellFormedItems(items)
    ensures var r := DecodeItems(EncodeItems(items) + ([LETTER_E] + rest), done);
            if PopulatedItems(items) && done + items != []
            then r == Decoded(Returned(List(done + items)), |EncodeItems(items)| + 1)
            else r.outcome == Crashed
    decreases items, 0
  {
    var input := EncodeItems(items) + ([LETTER_E] + rest);
    if items == [] {
      assert input == [LETTER_E] + rest;
      assert done + items == done;
    } else {
      var after := EncodeItems(items[1..]) + ([LETTER_E] + rest);
      assert input == Encode(items[0]) + after;
      FirstByte(items[0]);
      RoundTrip(items[0], after);
      if Populated(items[0]) {
        ItemsRoundTrip(done + [items[0]], items[1..], rest);
        assert done + [items[0]] + items[1..] == done + items;
        ItemsOneMore(input, done, items[0], |Encode(items[0])|, after);
      }
    }
  }

  /** A turn of the list loop that found `item`. */
  lemma ItemsOneMore(input: seq<byte>, done: seq<Node>, item: Node, used: nat, after: seq<byte>)
    requires 0 < used <= |input| && input[used..] == after && Peek(input) != LETTER_E
    requires Decode(input) == Decoded(Returned(item), used)
    ensures var r := DecodeItems(after, done + [item]);
            DecodeItems(input, done) == Decoded(r.outcome, used + r.used)
  {
  }

  lemma {:induction false} EntriesRoundTrip(done: seq<Entry>, entries: seq<Entry>, rest: seq<byte>)
    requires WellFormedEntries(entries)
    ensures var r := DecodeEntries(EncodeEntries(entries) + ([LETTER_E] + rest), done);
            if PopulatedEntries(entries) && done + entries != []
            then r == Decoded(Returned(Dict(done + entries)), |EncodeEntries(entries)| + 1)
            else r.outcome == Crashed
    decreases entries, 0
  {
    var input := EncodeEntries(entries) + ([LETTER_E] + rest);
    if entries == [] {
      assert input == [LETTER_E] + rest;
      assert done + entries == done;
    } else {
      var e, others := entries[0], entries[1..];
      var after := EncodeEntries(others) + ([LETTER_E] + rest);
      assert input == EncodeEntry(e) + after;
      assert done + [e] + others == done + entries;
      EntriesRoundTrip(done + [e], others, rest);
      EntryRoundTrip(e, after);
      EntriesStep(done, e, EncodeEntry(e), after);
    }
  }

  /** A turn of the dictionary loop on the encoding of `e`. */
  lemma EntriesStep(done: seq<Entry>, e: Entry, encoded: seq<byte>, after: seq<byte>)
    requires encoded != [] && encoded[0] != LETTER_E
    requires var d := DecodeEntry(encoded + after);
             d.outcome == Crashed || d == DecodedEntry(e.key, Returned(e.val), |encoded|)
    ensures var d := DecodeEntry(encoded + after);
            if d.outcome == Crashed then DecodeEntries(encoded + after, done).outcome == Crashed
            else var r := DecodeEntries(after, done + [e]);
                 DecodeEntries(encoded + after, done) == Decoded(r.outcome, |encoded| + r.used)
  {
    assert (encoded + after)[|encoded|..] == after;
  }

  lemma {:induction false} EntryRoundTrip(e: Entry, rest: seq<byte>)
    requires WellFormedEntry(e)
    ensures var input := EncodeEntry(e) + rest;
            && EncodeEntry(e)[0] != LETTER_E
            && (PopulatedEntry(e) ==> DecodeEntry(input) == DecodedEntry(e.key, Returned(e.val), |EncodeEntry(e)|))
            && (!PopulatedEntry(e) ==> DecodeEntry(input).outcome == Crashed)
    decreases e, 0
  {
    var input := EncodeEntry(e) + rest;
    assert input == EncodeString(e.key.value) + (Encode(e.val) + rest);
    StringRoundTrip(e.key.value, Encode(e.val) + rest);
    assert input[|EncodeString(e.key.value)|..] == Encode(e.val) + rest;
    RoundTrip(e.val, rest);
  }

  /** No encoding is a prefix of another one, and none stands for two trees. */
  lemma PrefixFree(v: Node, after: seq<byte>, w: Node, after': seq<byte>)
    requires WellFormed(v) && Populated(v) && WellFormed(w) && Populated(w)
    requires Encode(v) + after == Encode(w) + after'
    ensures v == w && after == after'
  {
    var input := Encode(v) + after;
    RoundTrip(v, after);
    RoundTrip(w, after');
    assert after == input[|Encode(v)|..] && after' == input[|Encode(w)|..];
  }
}
