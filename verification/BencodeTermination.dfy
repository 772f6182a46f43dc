/** What `Stalled` means: the decoder of bencode.c runs without stall detection, for a bounded
    number of nested calls and loop turns, and the outcome `Stalled` is the absence of any sufficient bound. */
module BencodeTermination {
  import opened Bytes
  import opened BencodeSpec
  import opened Bencode

  /** _be_decode, given up after `bound` nested calls and loop turns. */
  function Run(input: seq<byte>, bound: nat): (r: Option<Decoded>)
    ensures r.Some? ==> r.value.used <= |input|
    decreases bound, 1
  {
    if input == [] then Some(Decode(input))
    else if input[0] == LETTER_L then
      if bound == 0 then None else After(1, RunItems(input[1..], [], bound - 1))
    else if input[0] == LETTER_D then
      if bound == 0 then None else After(1, RunEntries(input[1..], [], bound - 1))
    else if input[0] == LETTER_I then After(1, Some(DecodeInt(input[1..])))
    else if IsDigit(input[0]) then
      var s := DecodeStr(input);
      Some(Decoded(Returned(Str(s.s)), s.used))
    else Some(Decoded(Returned(Null), 0))
  }

  function After(used: nat, r: Option<Decoded>): Option<Decoded> {
    if r.None? then None else Some(Decoded(r.value.outcome, used + r.value.used))
  }

  function RunItems(input: seq<byte>, items: seq<Node>, bound: nat): (r: Option<Decoded>)
    ensures r.Some? ==> r.value.used <= |input|
    decreases bound, 2
  {
    if Peek(input) == LETTER_E then
      Some(Decoded(if items == [] then Crashed else Returned(List(items)), 1))
    else if bound == 0 then None
    else
      var item := Run(input, bound - 1);
      if item.None? || !item.value.outcome.Returned? then item
      else After(item.value.used, RunItems(input[item.value.used..], items + [item.value.outcome.node], bound - 1))
  }

  function RunEntries(input: seq<byte>, entries: seq<Entry>, bound: nat): (r: Option<Decoded>)
    ensures r.Some? ==> r.value.used <= |input|
    decreases bound, 3
  {
    if Peek(input) == LETTER_E then
      Some(Decoded(if entries == [] then Crashed else Returned(Dict(entries)), 1))
    else if bound == 0 then None
    else
      var entry := RunEntry(input, bound - 1);
      if entry.None? then None
      else if !entry.value.outcome.Returned? then Some(Decoded(entry.value.outcome, entry.value.used))
      else After(entry.value.used,
                 RunEntries(input[entry.value.used..],
                            entries + [Entry(entry.value.key, entry.value.outcome.node)], bound - 1))
  }

  function RunEntry(input: seq<byte>, bound: nat): (r: Option<DecodedEntry>)
    ensures r.Some? ==> r.value.used <= |input|
    decreases bound, 2
  {
    var key := DecodeStr(input);
    var val := Run(input[key.used..], bound);
    if val.None? then None else Some(DecodedEntry(key.s, val.value.outcome, key.used + val.value.used))
  }

  /** `r` is what a terminating run gives, and `d` what the model says. */
  ghost predicate Agrees(r: Option<Decoded>, d: Decoded, enough: bool) {
    && (r.Some? ==> r.value == d && !d.outcome.Stalled?)
    && (enough && !d.outcome.Stalled? ==> r.Some?)
  }

  /** A run that ends, ends as `Decode` says; and it ends within twice the input length
      unless `Decode` says it stalls, in which case no bound is enough. */
  lemma {:induction false} RunIsDecode(input: seq<byte>, bound: nat)
    ensures Agrees(Run(input, bound), Decode(input), bound >= 2 * |input|)
    decreases bound, 1
  {
    if bound > 0 && input != [] {
      if input[0] == LETTER_L {
        RunItemsIsDecodeItems(input[1..], [], bound - 1);
      } else if input[0] == LETTER_D {
        RunEntriesIsDecodeEntries(input[1..], [], bound - 1);
      }
    }
  }

  lemma {:induction false} RunItemsIsDecodeItems(input: seq<byte>, items: seq<Node>, bound: nat)
    ensures Agrees(RunItems(input, items, bound), DecodeItems(input, items), bound >= 2 * |input| + 1)
    decreases bound, 2
  {
    if Peek(input) != LETTER_E && bound > 0 {
      RunIsDecode(input, bound - 1);
      var item := Decode(input);
      if Run(input, bound - 1).Some? && item.outcome.Returned? {
        RunItemsIsDecodeItems(input[item.used..], items + [item.outcome.node], bound - 1);
        if item.used == 0 {
          assert input[0..] == input;
        }
      }
    }
  }

  lemma {:induction false} RunEntriesIsDecodeEntries(input: seq<byte>, entries: seq<Entry>, bound: nat)
    ensures Agrees(RunEntries(input, entries, bound), DecodeEntries(input, entries), bound >= 2 * |input| + 1)
    decreases bound, 2
  {
    if Peek(input) != LETTER_E && bound > 0 {
      RunEntryIsDecodeEntry(input, bound - 1);
      var entry := DecodeEntry(input);
      if RunEntry(input, bound - 1).Some? && entry.outcome.Returned? {
        RunEntriesIsDecodeEntries(input[entry.used..], entries + [Entry(entry.key, entry.outcome.node)], bound - 1);
        if entry.used == 0 {
          assert input[0..] == input;
        }
      }
    }
  }

  lemma {:induction false} RunEntryIsDecodeEntry(input: seq<byte>, bound: nat)
    ensures var r := RunEntry(input, bound);
            var d := DecodeEntry(input);
            && (r.Some? ==> r.value == d && !d.outcome.Stalled?)
            && (bound >= 2 * |input| && !d.outcome.Stalled? ==> r.Some?)
    decreases bound, 2
  {
    RunIsDecode(input[DecodeStr(input).used..], bound);
  }

  ghost predicate EndsWithin(input: seq<byte>, bound: nat) {
    Run(input, bound).Some?
  }

  /** The decoder terminates on exactly the inputs that `Decode` does not call stalled. */
  lemma TerminatesUnlessStalled(input: seq<byte>)
    ensures (exists bound: nat :: EndsWithin(input, bound)) <==> !Decode(input).outcome.Stalled?
  {
    var enough: nat := 2 * |input|;
    RunIsDecode(input, enough);
    if bound: nat :| EndsWithin(input, bound) {
      RunIsDecode(input, bound);
    } else {
      assert !EndsWithin(input, enough);
    }
  }
}
