/** The trees of bencode.h and their encoding, written from the section "bencoding" of BEP 3. */
module BencodeSpec {
  import opened Bytes

  datatype Option<T> = None | Some(value: T)

  /** A be_node; `Null` is the null pointer, `Str(None)` a string node without a string. */
  datatype Node =
    | Null
    | Str(s: Option<seq<byte>>)
    | Int(i: int)
    | List(items: seq<Node>)
    | Dict(entries: seq<Entry>)

  /** A be_dict. */
  datatype Entry = Entry(key: Option<seq<byte>>, val: Node)

  const COLON: byte := 58
  const PLUS: byte := 43
  const MINUS: byte := 45
  const LETTER_D: byte := 100
  const LETTER_E: byte := 101
  const LETTER_I: byte := 105
  const LETTER_L: byte := 108

  // ----- Well-formed trees

  predicate FitsInt64(i: int) {
    -0x8000_0000_0000_0000 <= i < 0x8000_0000_0000_0000
  }

  predicate StringOk(s: Option<seq<byte>>) {
    s.Some? && FitsInt64(|s.value|)
  }

  /** What BEP 3 can write down: no null pointers, integers and lengths of 64 bits. */
  predicate WellFormed(v: Node)
    decreases v, 1
  {
    match v
    case Null => false
    case Str(s) => StringOk(s)
    case Int(i) => FitsInt64(i)
    case List(items) => WellFormedItems(items)
    case Dict(entries) => WellFormedEntries(entries)
  }

  predicate WellFormedItems(items: seq<Node>)
    decreases items, 0
  {
    items == [] || (WellFormed(items[0]) && WellFormedItems(items[1..]))
  }

  predicate WellFormedEntries(entries: seq<Entry>)
    decreases entries, 0
  {
    entries == [] || (WellFormedEntry(entries[0]) && WellFormedEntries(entries[1..]))
  }

  predicate WellFormedEntry(e: Entry)
    decreases e, 0
  {
    StringOk(e.key) && WellFormed(e.val)
  }

  /** No list or dictionary of the tree is empty. */
  predicate Populated(v: Node)
    decreases v, 1
  {
    match v
    case List(items) => items != [] && PopulatedItems(items)
    case Dict(entries) => entries != [] && PopulatedEntries(entries)
    case _ => true
  }

  predicate PopulatedItems(items: seq<Node>)
    decreases items, 0
  {
    items == [] || (Populated(items[0]) && PopulatedItems(items[1..]))
  }

  predicate PopulatedEntries(entries: seq<Entry>)
    decreases entries, 0
  {
    entries == [] || (PopulatedEntry(entries[0]) && PopulatedEntries(entries[1..]))
  }

  predicate PopulatedEntry(e: Entry)
    decreases e, 0
  {
    Populated(e.val)
  }

  // ----- Encoding

  function Digits(n: nat): (ds: seq<byte>)
    ensures |ds| > 0
  {
    if n < 10 then [(48 + n) as byte] else Digits(n / 10) + [(48 + n % 10) as byte]
  }

  function Decimal(i: int): (ds: seq<byte>)
    ensures |ds| > 0
  {
    if i < 0 then [MINUS] + Digits(-i) else Digits(i)
  }

  function EncodeString(s: seq<byte>): (bs: seq<byte>)
    ensures |bs| > 0
  {
    Digits(|s|) + [COLON] + s
  }

  function Encode(v: Node): (bs: seq<byte>)
    requires WellFormed(v)
    ensures |bs| > 0
    decreases v, 1
  {
    match v
    case Str(s) => EncodeString(s.value)
    case Int(i) => [LETTER_I] + Decimal(i) + [LETTER_E]
    case List(items) => [LETTER_L] + EncodeItems(items) + [LETTER_E]
    case Dict(entries) => [LETTER_D] + EncodeEntries(entries) + [LETTER_E]
  }

  function EncodeItems(items: seq<Node>): (bs: seq<byte>)
    requires WellFormedItems(items)
    decreases items, 0
  {
    if items == [] then [] else Encode(items[0]) + EncodeItems(items[1..])
  }

  function EncodeEntries(entries: seq<Entry>): (bs: seq<byte>)
    requires WellFormedEntries(entries)
    decreases entries, 0
  {
    if entries == [] then [] else EncodeEntry(entries[0]) + EncodeEntries(entries[1..])
  }

  function EncodeEntry(e: Entry): (bs: seq<byte>)
    requires WellFormedEntry(e)
    decreases e, 0
  {
    EncodeString(e.key.value) + Encode(e.val)
  }
}
