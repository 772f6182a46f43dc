/** The language that bencode.c reads, in characters: its letters, its numerals, what every kind of input is
    decoded to, and worked examples. */
module BencodeText {
  import opened Bytes
  import opened BencodeSpec
  import opened Bencode
  import opened BencodeProofs

  /** The octets of an ASCII text. */
  function Text(s: string): (bs: seq<byte>)
    requires forall c <- s :: c as int < 128
    ensures |bs| == |s| && forall k :: 0 <= k < |s| ==> bs[k] as int == s[k] as int
  {
    seq(|s|, k requires 0 <= k < |s| => assert s[k] in s; s[k] as int as byte)
  }

  predicate Starts(input: seq<byte>, c: char) {
    input != [] && input[0] as int == c as int
  }

  /** The characters that the decoder distinguishes. */
  lemma Characters(b: byte)
    ensures [LETTER_I, LETTER_L, LETTER_D, LETTER_E, COLON, PLUS, MINUS] == Text("ilde:+-")
    ensures IsDigit(b) <==> b in Text("0123456789")
    ensures IsSpace(b) <==> b in Text(" \t\n\r") || b == 11 || b == 12
  {
    var ds := Text("0123456789");
    assert IsDigit(b) ==> b == ds[b as int - 48];
    var s := Text(" \t\n\r");
    assert s == [32, 9, 10, 13];
  }

  // ----- Numerals

  /** The number of a numeral whose digits before the last one are `n`. */
  lemma NumberOneMore(ds: seq<byte>, n: nat, d: byte)
    requires AllDigits(ds) && Number(ds) == n && IsDigit(d)
    ensures AllDigits(ds + [d]) && Number(ds + [d]) == 10 * n + (d as int - '0' as int)
  {
    assert (ds + [d])[..|ds|] == ds;
  }

  lemma Numerals()
    ensures AllDigits(Text("90210")) && Number(Text("90210")) == 90210
  {
    assert Text("90210") == [] + [57] + [48] + [50] + [49] + [48];
    NumberOneMore([], 0, 57);
    NumberOneMore([] + [57], 9, 48);
    NumberOneMore([] + [57] + [48], 90, 50);
    NumberOneMore([] + [57] + [48] + [50], 902, 49);
    NumberOneMore([] + [57] + [48] + [50] + [49], 9021, 48);
  }

  lemma NumeralsWritten()
    ensures Digits(90210) == Text("90210") && Decimal(-7) == Text("-7") && Decimal(0) == Text("0")
  {
    assert Digits(90) == Digits(9) + [48];
    assert Digits(902) == Digits(90) + [50];
    assert Digits(9021) == Digits(902) + [49];
    assert Digits(90210) == Digits(9021) + [48];
  }

  /** Numbers that do not fit in 64 bits become the nearest ones that do. */
  lemma ClampIsNearest(i: int, x: int)
    ensures FitsInt64(x) <==> -9223372036854775808 <= x <= 9223372036854775807
    ensures FitsInt64(x) ==> (if Clamp(i) < i then i - Clamp(i) else Clamp(i) - i) <= if x < i then i - x else x - i
  {
  }

  lemma LeadingDigits(input: seq<byte>) returns (ds: seq<byte>, rest: seq<byte>)
    ensures input == ds + rest && AllDigits(ds) && !IsDigit(Peek(rest))
    ensures Unsigned(input) == Scanned(Number(ds), |ds|)
  {
    ds, rest := input[..DigitsIn(input)], input[DigitsIn(input)..];
    EndOfDigits(input);
  }

  lemma {:induction false} EndOfDigits(input: seq<byte>)
    ensures !IsDigit(Peek(input[DigitsIn(input)..]))
  {
    if input != [] && IsDigit(input[0]) {
      EndOfDigits(input[1..]);
      assert input[1..][DigitsIn(input[1..])..] == input[DigitsIn(input)..];
    } else {
      assert input[0..] == input;
    }
  }

  /** An input cut into spaces, a sign, digits and a rest. */
  datatype Numeral = Numeral(spaces: seq<byte>, sign: seq<byte>, digits: seq<byte>, rest: seq<byte>)

  function Whole(n: Numeral): (input: seq<byte>) {
    n.spaces + (n.sign + (n.digits + n.rest))
  }

  /** Each part is as long as it can be. */
  ghost predicate Cut(n: Numeral) {
    && (forall b <- n.spaces :: IsSpace(b)) && n.sign in {[], Text("+"), Text("-")} && AllDigits(n.digits)
    && !IsDigit(Peek(n.rest))
    && (n.sign + n.digits == [] ==> !IsSpace(Peek(n.rest)) && !Starts(n.rest, '+') && !Starts(n.rest, '-'))
  }

  /** strtoll on an input so cut: only with digits is anything read. */
  ghost function Meaning(n: Numeral): (r: Scanned)
    requires Cut(n)
  {
    if n.digits == [] then Scanned(0, 0)
    else
      Scanned(Clamp(if n.sign == Text("-") then 0 - Number(n.digits) else Number(n.digits)),
              |n.spaces| + |n.sign| + |n.digits|)
  }

  lemma Signs()
    ensures Text("+") == [PLUS] && Text("-") == [MINUS]
  {
  }

  lemma WithoutSpaces(input: seq<byte>) returns (n: Numeral)
    requires !IsSpace(Peek(input))
    ensures input == Whole(n) && Cut(n) && n.spaces == [] && Strtoll(input) == Meaning(n)
  {
    Signs();
    hide Text, Unsigned, DigitsIn, Clamp;
    var ds, rest;
    if Peek(input) in {MINUS, PLUS} {
      ds, rest := LeadingDigits(input[1..]);
      n := Numeral([], [input[0]], ds, rest);
    } else {
      ds, rest := LeadingDigits(input);
      n := Numeral([], [], ds, rest);
    }
  }

  /** Every input can be cut so, and strtoll gives what the parts mean. */
  lemma {:induction false} StrtollExactly(input: seq<byte>) returns (n: Numeral)
    ensures input == Whole(n) && Cut(n) && Strtoll(input) == Meaning(n)
  {
    if input != [] && IsSpace(input[0]) {
      var after := StrtollExactly(input[1..]);
      n := after.(spaces := [input[0]] + after.spaces);
      assert input == [input[0]] + input[1..];
    } else {
      n := WithoutSpaces(input);
    }
  }

  // ----- Strings, integers and everything else

  /** An integer ends with an e; otherwise there is no node, and the cursor is behind the numeral. */
  lemma IntegerExactly(input: seq<byte>)
    ensures var n := Strtoll(input);
            Decode(Text("i") + input) ==
            if Starts(input[n.used..], 'e') then Decoded(Returned(Int(n.value)), 1 + n.used + 1)
            else Decoded(Returned(Null), 1 + n.used)
  {
    assert (Text("i") + input)[1..] == input;
  }

  /** A string has a colon and at least as many octets as its length says; otherwise there is none,
      and the cursor is behind the numeral. */
  lemma StringExactly(input: seq<byte>)
    ensures var n := Strtoll(input);
            var rest := input[n.used..];
            DecodeStr(input) ==
            if n.value >= 0 && Starts(rest, ':') && n.value + 1 <= |rest|
            then DecodedString(Some(rest[1..n.value + 1]), n.used + 1 + n.value)
            else DecodedString(None, n.used)
  {
    hide Strtoll;
    var n := Strtoll(input);
    var rest := input[n.used..];
    assert n.value >= 0 && n.value + 1 <= |rest| ==>
             rest[0] == input[n.used] && rest[1..n.value + 1] == input[n.used + 1..n.used + 1 + n.value];
  }

  lemma StringNode(input: seq<byte>)
    requires input != [] && input[0] in Text("0123456789")
    ensures var r := DecodeStr(input); Decode(input) == Decoded(Returned(Str(r.s)), r.used)
  {
    Characters(input[0]);
  }

  lemma NothingElse(input: seq<byte>)
    requires input == [] || input[0] !in Text("0123456789ild")
    ensures Decode(input) == Decoded(Returned(Null), 0)
  {
    if input != [] {
      Characters(input[0]);
      var cs := Text("0123456789ild");
      assert cs == Text("0123456789") + Text("ild");
      assert cs[10] in cs && cs[11] in cs && cs[12] in cs;
    }
  }

  // ----- Lists and dictionaries

  /** `nodes` are decoded one after the other, each from a part that is not empty, and then comes an e. */
  ghost predicate ReadsItems(input: seq<byte>, nodes: seq<Node>, used: nat) {
    if nodes == [] then Starts(input, 'e') && used == 1
    else
      var d := Decode(input);
      && !Starts(input, 'e') && d.outcome == Returned(nodes[0]) && 0 < d.used <= used
      && ReadsItems(input[d.used..], nodes[1..], used - d.used)
  }

  lemma {:induction false} ItemsExactly(input: seq<byte>, before: seq<Node>, nodes: seq<Node>, used: nat)
    requires before + nodes != []
    ensures DecodeItems(input, before) == Decoded(Returned(List(before + nodes)), used)
            <==> ReadsItems(input, nodes, used)
    decreases |input|
  {
    var d := Decode(input);
    if Starts(input, 'e') {
      assert before + nodes == before <==> nodes == [];
    } else if d.outcome.Returned? && d.used > 0 {
      var after := before + [d.outcome.node];
      DecodedItems(input[d.used..], after);
      if nodes != [] && nodes[0] == d.outcome.node && d.used <= used {
        ItemsExactly(input[d.used..], after, nodes[1..], used - d.used);
        assert after + nodes[1..] == before + nodes;
      } else {
        assert nodes != [] ==> (before + nodes)[|before|] == nodes[0];
      }
    }
  }

  /** What is decoded starts with what was there. */
  lemma {:induction false} DecodedItems(input: seq<byte>, before: seq<Node>)
    ensures var r := DecodeItems(input, before);
            r.outcome.Returned? ==> r.outcome.node.List? && before <= r.outcome.node.items
    decreases |input|
  {
    var d := Decode(input);
    if Peek(input) != LETTER_E && d.outcome.Returned? && d.used > 0 {
      DecodedItems(input[d.used..], before + [d.outcome.node]);
    }
  }

  /** A list is decoded to its elements, in order, also to those that are malformed. */
  lemma ListExactly(input: seq<byte>, nodes: seq<Node>, used: nat)
    requires nodes != []
    ensures Decode(Text("l") + input) == Decoded(Returned(List(nodes)), 1 + used) <==> ReadsItems(input, nodes, used)
  {
    assert (Text("l") + input)[1..] == input && [] + nodes == nodes;
    ItemsExactly(input, [], nodes, used);
  }

  /** `entries` are read one after the other, each as a key and a value from a part that is not empty, and then an e. */
  ghost predicate ReadsEntries(input: seq<byte>, entries: seq<Entry>, used: nat) {
    if entries == [] then Starts(input, 'e') && used == 1
    else
      var key := DecodeStr(input);
      var val := Decode(input[key.used..]);
      && !Starts(input, 'e') && key.s == entries[0].key && val.outcome == Returned(entries[0].val)
      && 0 < key.used + val.used <= used
      && ReadsEntries(input[key.used + val.used..], entries[1..], used - key.used - val.used)
  }

  lemma ReadsOneEntry(input: seq<byte>, entries: seq<Entry>, used: nat)
    requires !Starts(input, 'e')
    ensures var d := DecodeEntry(input);
            ReadsEntries(input, entries, used) <==>
            && entries != [] && d.outcome.Returned? && entries[0] == Entry(d.key, d.outcome.node) && 0 < d.used <= used
            && ReadsEntries(input[d.used..], entries[1..], used - d.used)
  {
    hide DecodeStr, Decode;
  }

  lemma EntriesEnd(input: seq<byte>, before: seq<Entry>, entries: seq<Entry>, used: nat)
    requires before + entries != [] && Starts(input, 'e')
    ensures DecodeEntries(input, before) == Decoded(Returned(Dict(before + entries)), used)
            <==> ReadsEntries(input, entries, used)
  {
    assert before + entries == before <==> entries == [];
  }

  lemma EntriesTurn(input: seq<byte>, before: seq<Entry>, found: Entry)
    requires !Starts(input, 'e')
    ensures var d := DecodeEntry(input);
            var r := DecodeEntries(input, before);
            if d.outcome.Returned? && d.used > 0 && found == Entry(d.key, d.outcome.node) then
              var after := DecodeEntries(input[d.used..], before + [found]);
              r == Decoded(after.outcome, d.used + after.used)
            else (d.outcome.Returned? && d.used > 0) || !r.outcome.Returned?
  {
    hide DecodeEntry;
  }

  lemma {:induction false} EntriesExactly(input: seq<byte>, before: seq<Entry>, entries: seq<Entry>, used: nat)
    requires before + entries != []
    ensures DecodeEntries(input, before) == Decoded(Returned(Dict(before + entries)), used)
            <==> ReadsEntries(input, entries, used)
    decreases |input|
  {
    if Starts(input, 'e') {
      EntriesEnd(input, before, entries, used);
    } else {
      hide DecodeEntries, DecodeEntry, ReadsEntries;
      var d := DecodeEntry(input);
      var found := if d.outcome.Returned? then Entry(d.key, d.outcome.node) else Entry(None, Null);
      ReadsOneEntry(input, entries, used);
      EntriesTurn(input, before, found);
      if d.outcome.Returned? && d.used > 0 {
        var after := DecodeEntries(input[d.used..], before + [found]);
        DecodedEntries(input[d.used..], before + [found]);
        if after.outcome.Returned? {
          SameAfter(before, found, entries, after.outcome.node.entries);
        }
        if entries != [] && d.used <= used {
          EntriesExactly(input[d.used..], before + [found], entries[1..], used - d.used);
        }
      }
    }
  }

  lemma SameAfter(before: seq<Entry>, found: Entry, entries: seq<Entry>, result: seq<Entry>)
    requires before + [found] <= result
    ensures result == before + entries
            <==> entries != [] && entries[0] == found && result == before + [found] + entries[1..]
  {
    assert entries != [] && entries[0] == found ==> before + [found] + entries[1..] == before + entries;
    assert result[|before|] == found;
    assert entries != [] ==> (before + entries)[|before|] == entries[0];
  }

  lemma {:induction false} DecodedEntries(input: seq<byte>, before: seq<Entry>)
    ensures var r := DecodeEntries(input, before);
            r.outcome.Returned? ==> r.outcome.node.Dict? && before <= r.outcome.node.entries
    decreases |input|
  {
    hide DecodeEntry;
    var d := DecodeEntry(input);
    if Peek(input) != LETTER_E && d.outcome.Returned? && d.used > 0 {
      DecodedEntries(input[d.used..], before + [Entry(d.key, d.outcome.node)]);
    }
  }

  /** A dictionary is decoded to its keys and values, in order, also to those that are malformed. */
  lemma DictExactly(input: seq<byte>, entries: seq<Entry>, used: nat)
    requires entries != []
    ensures Decode(Text("d") + input) == Decoded(Returned(Dict(entries)), 1 + used)
            <==> ReadsEntries(input, entries, used)
  {
    assert (Text("d") + input)[1..] == input && [] + entries == entries;
    EntriesExactly(input, [], entries, used);
  }

  // ----- Examples

  /** A tree with every kind of node. */
  function Herd(): Node {
    Dict([Entry(Some(Text("cow")), List([Int(-42), Str(Some(Text("spam"))), Str(Some([]))]))])
  }

  lemma OneItemMore(v: Node, items: seq<Node>)
    requires WellFormed(v) && Populated(v) && WellFormedItems(items) && PopulatedItems(items)
    ensures WellFormedItems([v] + items) && PopulatedItems([v] + items)
    ensures EncodeItems([v] + items) == Encode(v) + EncodeItems(items)
  {
    hide WellFormed, Populated, Encode;
    assert ([v] + items)[1..] == items;
  }

  lemma ItemsInText()
    ensures var items := [Int(-42), Str(Some(Text("spam"))), Str(Some([]))];
            && WellFormedItems(items) && PopulatedItems(items)
            && EncodeItems(items) == Text("i-42e") + Text("4:spam") + Text("0:")
  {
    var spam, empty := Str(Some(Text("spam"))), Str(Some([]));
    var items := [Int(-42), spam, empty];
    ItemInText();
    OneItemMore(empty, []);
    OneItemMore(spam, [empty]);
    OneItemMore(Int(-42), [spam, empty]);
    hide Encode, WellFormed, Populated, Text;
    assert [empty] + [] == [empty] && [spam] + [empty] == [spam, empty] && [Int(-42)] + [spam, empty] == items;
  }

  lemma ItemInText()
    ensures Encode(Int(-42)) == Text("i-42e")
    ensures Encode(Str(Some(Text("spam")))) == Text("4:spam")
    ensures Encode(Str(Some([]))) == Text("0:")
  {
    assert Digits(42) == [52, 50] && Digits(4) == [52] && Digits(0) == [48];
  }

  lemma ListInText()
    ensures var list := Herd().entries[0].val;
            WellFormed(list) && Populated(list) && Encode(list) == Text("li-42e4:spam0:e")
  {
    ItemsInText();
    hide EncodeItems, WellFormedItems, PopulatedItems;
  }

  lemma EntryInText()
    ensures var e := Herd().entries[0];
            WellFormedEntry(e) && PopulatedEntry(e) && EncodeEntry(e) == Text("3:cow") + Text("li-42e4:spam0:e")
  {
    ListInText();
    hide Text, Encode, WellFormed, Populated;
    KeyInText();
  }

  lemma KeyInText()
    ensures EncodeString(Text("cow")) == Text("3:cow")
  {
    assert Digits(3) == [51];
  }

  lemma HerdInText()
    ensures WellFormed(Herd()) && Populated(Herd()) && Encode(Herd()) == Text("d3:cowli-42e4:spam0:ee")
  {
    EntryInText();
    var e := Herd().entries[0];
    hide EncodeEntry, WellFormedEntry, PopulatedEntry, Text;
    assert [e][1..] == [] && Herd() == Dict([e]);
    OneEntry(e);
    HerdJoined();
  }

  lemma OneEntry(e: Entry)
    requires WellFormedEntry(e) && PopulatedEntry(e)
    ensures WellFormed(Dict([e])) && Populated(Dict([e]))
    ensures Encode(Dict([e])) == [LETTER_D] + EncodeEntry(e) + [LETTER_E]
  {
    hide WellFormedEntry, PopulatedEntry, EncodeEntry;
    assert [e][1..] == [];
    assert WellFormedEntries([e]) && PopulatedEntries([e]);
    assert EncodeEntries([e]) == EncodeEntry(e);
  }

  lemma HerdJoined()
    ensures [LETTER_D] + (Text("3:cow") + Text("li-42e4:spam0:e")) + [LETTER_E] == Text("d3:cowli-42e4:spam0:ee")
  {
  }

  lemma TextOfHerd()
    ensures Decode(Text("d3:cowli-42e4:spam0:ee")) == Decoded(Returned(Herd()), 22)
  {
    hide Encode, Decode;
    HerdInText();
    RoundTrip(Herd(), []);
    assert Encode(Herd()) + [] == Encode(Herd());
  }

  lemma IntegersInText()
    ensures Decode(Text("i42e")).outcome == Returned(Int(42))
    ensures Decode(Text("ie")).outcome == Returned(Int(0))
    ensures Decode(Text("i4")).outcome == Returned(Null)
  {
    var s: seq<byte> := [52, 50, 101];
    assert Text("i42e") == Text("i") + s && Text("ie") == Text("i") + [101] && Text("i4") == Text("i") + [52];
    NumeralsRead();
    IntegerExactly(s);
    IntegerExactly([101]);
    IntegerExactly([52]);
    assert s[2..] == [101] && [101][0..] == [101] && [52][1..] == [];
    hide Text, Strtoll, Decode;
  }

  lemma NumeralsRead()
    ensures Strtoll([52, 50, 101]) == Scanned(42, 2)
    ensures Strtoll([101]) == Scanned(0, 0)
    ensures Strtoll([52]) == Scanned(4, 1)
  {
    assert Decimal(42) == [52, 50];
    StrtollOfDecimal(42, [101]);
    assert [52, 50] + [101] == [52, 50, 101];
    assert [52][..1] == [52];
  }

  /** An empty container crashes the decoder, and one that does not end stalls it. */
  lemma EmptyInText()
    ensures Decode(Text("le")).outcome == Decode(Text("de")).outcome == Crashed
    ensures Decode(Text("lx")).outcome == Stalled
  {
    assert Text("le") == [108, 101] && Text("de") == [100, 101] && Text("lx") == [108, 120];
    hide Text, DecodeInt, DecodeStr;
    assert [108, 101][1..] == [101] && [100, 101][1..] == [101] && [108, 120][1..] == [120];
    assert Decode([120]) == Decoded(Returned(Null), 0);
  }

  /** A length with too few octets behind it leaves a string node without a string. */
  lemma NoStringInList()
    ensures Decode(Text("l3e")).outcome == Returned(List([Str(None)]))
  {
    var s: seq<byte> := [51, 101];
    assert Text("l3e") == Text("l") + s && [51] == s[..1];
    assert Strtoll(s) == Scanned(3, 1);
    StringExactly(s);
    assert s[1..] == [101];
    hide Strtoll, DecodeStr, DecodeItems, DecodeEntries, DecodeInt;
    assert Decode(s) == Decoded(Returned(Str(None)), 1);
    hide Decode;
    assert [Str(None)][1..] == [];
    ListExactly(s, [Str(None)], 2);
  }

  /** An integer without its e leaves a null pointer in the list. */
  lemma NullInList()
    ensures Decode(Text("li4i5ee")).outcome == Returned(List([Null, Int(5)]))
  {
    var s: seq<byte> := [105, 52, 105, 53, 101, 101];
    var nodes := [Null, Int(5)];
    assert Text("li4i5ee") == Text("l") + s;
    hide Decode, Text;
    PartsOfNullInList();
    assert s[2..] == [105, 53, 101, 101] && s[2..][3..] == [101] && nodes[1..] == [Int(5)] && nodes[1..][1..] == [];
    assert ReadsItems([101], [], 1);
    assert ReadsItems(s[2..], nodes[1..], 4);
    assert ReadsItems(s, nodes, 6);
    ListExactly(s, nodes, 6);
  }

  lemma PartsOfNullInList()
    ensures Decode([105, 52, 105, 53, 101, 101]) == Decoded(Returned(Null), 2)
    ensures Decode([105, 53, 101, 101]) == Decoded(Returned(Int(5)), 3)
  {
    var s: seq<byte> := [52, 105, 53, 101, 101];
    var t: seq<byte> := [53, 101, 101];
    hide DecodeItems, DecodeEntries, DecodeStr;
    assert s[..1] == [52] && t[..1] == [53];
    assert [105, 52, 105, 53, 101, 101][1..] == s && [105, 53, 101, 101][1..] == t;
    assert Strtoll(s) == Scanned(4, 1);
    assert Strtoll(t) == Scanned(5, 1);
    hide Strtoll;
    assert DecodeInt(s) == Decoded(Returned(Null), 1);
    assert DecodeInt(t) == Decoded(Returned(Int(5)), 2);
  }
}
