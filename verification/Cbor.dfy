/** CBOR items as ios/ZhtpCodec.swift handles them: what the encoders write (RFC 8949, sections 3 and
  3.1), and what the recursive decoder makes of any bytes. */
module Cbor {
  import opened Bytes

  /** `Integer` covers Swift's `UInt64` and `Int64`; texts and keys are their UTF-8 bytes; a dictionary is
    an association list, one entry per key, in the order the entries are emitted. */
  datatype Value =
    | Integer(n: int)
    | ByteString(data: bytes)
    | Text(utf8: bytes)
    | Array(items: seq<Value>)
    | Dict(entries: seq<Entry>)
    | Null
    | Bool(b: bool)
    | Double(bits: nat)

  datatype Entry = Entry(key: bytes, value: Value)

  // ---- Encoding ----

  /** How many bytes follow the initial byte of a head whose argument is `v`. */
  function Width(v: nat): nat {
    if v < 24 then 0 else if v < 0x100 then 1 else if v < 0x1_0000 then 2 else if v < TWO32 then 4 else 8
  }

  function Info(v: nat): byte {
    if v < 24 then v else if v < 0x100 then 24 else if v < 0x1_0000 then 25 else if v < TWO32 then 26 else 27
  }

  function Head(major: nat, v: nat): (h: bytes)
    requires major < 8
    ensures |h| == 1 + Width(v)
  {
    [32 * major + Info(v)] + BigEndian(v, Width(v))
  }

  function Enc(v: Value): (e: bytes)
    ensures |e| > 0
    decreases v, 0
  {
    match v
    case Integer(n) => if n >= 0 then Head(0, n) else Head(1, -1 - n)
    case ByteString(data) => Head(2, |data|) + data
    case Text(utf8) => Head(3, |utf8|) + utf8
    case Array(items) => Head(4, |items|) + EncItems(items)
    case Dict(entries) => Head(5, |entries|) + EncEntries(entries)
    case Null => [0xf6]
    case Bool(b) => if b then [0xf5] else [0xf4]
    case Double(bits) => [0xfb] + BigEndian(bits, 8)
  }

  function EncItems(items: seq<Value>): bytes
    decreases items, 1
  {
    if items == [] then [] else Enc(items[0]) + EncItems(items[1..])
  }

  function EncEntries(entries: seq<Entry>): bytes
    decreases entries, 1
  {
    if entries == [] then []
    else EncText(entries[0].key) + Enc(entries[0].value) + EncEntries(entries[1..])
  }

  function EncText(utf8: bytes): bytes {
    Head(3, |utf8|) + utf8
  }

  // ---- UTF-8 (RFC 3629) ----

  predicate Continuation(b: byte) {
    0x80 <= b < 0xc0
  }

  /** The length of the well-formed sequence `s` starts with, or 0. */
  function Utf8Length(s: bytes): (n: nat)
    ensures n <= |s| && n <= 4
  {
    if |s| >= 1 && s[0] < 0x80 then 1
    else if |s| >= 2 && 0xc2 <= s[0] < 0xe0 && Continuation(s[1]) then 2
    else if |s| >= 3 && 0xe0 <= s[0] < 0xf0 && Continuation(s[1]) && Continuation(s[2])
            && (s[0] == 0xe0 ==> s[1] >= 0xa0) && (s[0] == 0xed ==> s[1] < 0xa0) then 3
    else if |s| >= 4 && 0xf0 <= s[0] < 0xf5 && Continuation(s[1]) && Continuation(s[2]) && Continuation(s[3])
            && (s[0] == 0xf0 ==> s[1] >= 0x90) && (s[0] == 0xf4 ==> s[1] < 0x90) then 4
    else 0
  }

  predicate ValidUtf8(s: bytes) {
    s == [] || (Utf8Length(s) > 0 && ValidUtf8(s[Utf8Length(s)..]))
  }

  // ---- Decoding ----

  datatype Decoded = Decoded(value: Value, next: nat)
  datatype Argument = Argument(value: nat, next: nat)

  /** `decodeCborUInt`: the argument of a head whose initial byte has been read. */
  function DecodeUInt(info: byte, d: bytes, o: nat): (r: Result<Argument>)
    ensures r.Ok? ==> o <= r.value.next && (o <= |d| ==> r.value.next <= |d|)
    ensures r.Ok? ==> r.value.value < TWO64
  {
    PowersOf256();
    var width := if info == 24 then 1 else if info == 25 then 2 else if info == 26 then 4 else 8;
    if info < 24 then Ok(Argument(info, o))
    else if info <= 27 && o + width <= |d| then Ok(Argument(FromBigEndian(d[o..o + width]), o + width))
    else Thrown
  }

  /** Major type 7, in the decoder's own numbering; additional information other than 20, 21, 22 and 27
    reads as null without consuming an argument. */
  function DecodeSimple(info: byte, d: bytes, o: nat): (r: Result<Decoded>)
    requires o <= |d|
    ensures r.Ok? ==> o <= r.value.next <= |d|
  {
    if info == 21 then Ok(Decoded(Bool(false), o))
    else if info == 22 then Ok(Decoded(Bool(true), o))
    else if info == 27 then
      if o + 8 <= |d| then Ok(Decoded(Double(FromBigEndian(d[o..o + 8])), o + 8)) else Thrown
    else Ok(Decoded(Null, o))
  }

  /** Writing a key of a Swift dictionary: the last value written under a key is the one it has. */
  function Put(entries: seq<Entry>, key: bytes, value: Value): seq<Entry> {
    if entries == [] then [Entry(key, value)]
    else if entries[0].key == key then [Entry(key, value)] + entries[1..]
    else [entries[0]] + Put(entries[1..], key, value)
  }

  /** `decodeCborAt`, on any bytes: a value and the offset after it, a thrown error, or a trap where
    `Int(_:)`, `Int64(_:)` or an offset sum overflows. */
  function Decode(d: bytes, o: nat): (r: Result<Decoded>)
    requires o <= |d|
    ensures r.Ok? ==> o < r.value.next <= |d|
    decreases |d| - o, 0
  {
    if o == |d| then Thrown
    else
      var major, info := d[o] / 32, d[o] % 32;
      if major == 7 then DecodeSimple(info, d, o + 1)
      else if major == 6 then Thrown
      else
        match DecodeUInt(info, d, o + 1)
        case Thrown => Thrown
        case Trap => Trap
        case Ok(Argument(n, p)) => DecodeBody(major, n, d, p)
  }

  /** The rest of an item whose head, up to offset `p`, has this major type and argument. */
  function DecodeBody(major: nat, n: nat, d: bytes, p: nat): (r: Result<Decoded>)
    requires p <= |d|
    ensures r.Ok? ==> p <= r.value.next <= |d|
    decreases |d| - p, 2
  {
    if major == 0 then Ok(Decoded(Integer(n), p))
    else if n > INT_MAX then Trap
    else if major == 1 then Ok(Decoded(Integer(-1 - n), p))
    else if major <= 3 then DecodeString(major, n, d, p)
    else if major == 4 then DecodeItems(d, p, n, [])
    else DecodePairs(d, p, n, [])
  }

  /** The body of a byte string or a text; text that is not UTF-8 reads as the empty string. */
  function DecodeString(major: nat, n: nat, d: bytes, p: nat): (r: Result<Decoded>)
    requires p <= |d|
    ensures r.Ok? ==> p <= r.value.next <= |d|
  {
    if p + n > INT_MAX then Trap
    else if p + n > |d| then Thrown
    else
      var body := d[p..p + n];
      Ok(Decoded(if major == 2 then ByteString(body) else Text(if ValidUtf8(body) then body else []), p + n))
  }

  function DecodeItems(d: bytes, o: nat, n: nat, acc: seq<Value>): (r: Result<Decoded>)
    requires o <= |d|
    ensures r.Ok? ==> o <= r.value.next <= |d|
    decreases |d| - o, 1
  {
    if n == 0 then Ok(Decoded(Array(acc), o))
    else
      match Decode(d, o)
      case Thrown => Thrown
      case Trap => Trap
      case Ok(Decoded(v, p)) => DecodeItems(d, p, n - 1, acc + [v])
  }

  /** A pair whose key is not a text is read and dropped. */
  function DecodePairs(d: bytes, o: nat, n: nat, acc: seq<Entry>): (r: Result<Decoded>)
    requires o <= |d|
    ensures r.Ok? ==> o <= r.value.next <= |d|
    decreases |d| - o, 1
  {
    if n == 0 then Ok(Decoded(Dict(acc), o))
    else
      match Decode(d, o)
      case Thrown => Thrown
      case Trap => Trap
      case Ok(Decoded(key, p)) =>
        match Decode(d, p)
        case Thrown => Thrown
        case Trap => Trap
        case Ok(Decoded(value, q)) =>
          DecodePairs(d, q, n - 1, if key.Text? then Put(acc, key.utf8, value) else acc)
  }

  // ---- Which trees Swift can hold, and what the decoder turns them into ----

  predicate DistinctKeys(entries: seq<Entry>) {
    forall i, j :: 0 <= i < j < |entries| ==> entries[i].key != entries[j].key
  }

  /** The trees whose integers, counts and strings fit the Swift types that hold them. */
  predicate Fits(v: Value) {
    match v
    case Integer(n) => -INT_MAX - 1 <= n < TWO64
    case ByteString(data) => |data| <= INT_MAX
    case Text(utf8) => |utf8| <= INT_MAX && ValidUtf8(utf8)
    case Array(items) => |items| <= INT_MAX && forall i :: 0 <= i < |items| ==> Fits(items[i])
    case Dict(entries) =>
      && |entries| <= INT_MAX && DistinctKeys(entries)
      && forall i :: 0 <= i < |entries| ==>
           |entries[i].key| <= INT_MAX && ValidUtf8(entries[i].key) && Fits(entries[i].value)
    case Double(bits) => bits < TWO64
    case _ => true
  }

  /** No null, true or false anywhere in the tree. */
  predicate NoSimple(v: Value) {
    match v
    case Array(items) => forall i :: 0 <= i < |items| ==> NoSimple(items[i])
    case Dict(entries) => forall i :: 0 <= i < |entries| ==> NoSimple(entries[i].value)
    case Null => false
    case Bool(_) => false
    case _ => true
  }

  /** The tree with its simple values moved on by one: the decoder reads 20, 21 and 22 as null, false and
    true, where section 3.3 of RFC 8949 and the encoder have false, true and null. */
  function Rotated(v: Value): Value {
    match v
    case Array(items) => Array(seq(|items|, i requires 0 <= i < |items| => Rotated(items[i])))
    case Dict(entries) => Dict(seq(|entries|, i requires 0 <= i < |entries| => Entry(entries[i].key, Rotated(entries[i].value))))
    case Null => Bool(true)
    case Bool(b) => if b then Bool(false) else Null
    case _ => v
  }

  /** The number of items a decoded value was built from, keys included. */
  function Nodes(v: Value): nat
    decreases v, 0
  {
    match v
    case Array(items) => 1 + NodesOfItems(items)
    case Dict(entries) => 1 + NodesOfEntries(entries)
    case _ => 1
  }

  function NodesOfItems(items: seq<Value>): nat
    decreases items, 1
  {
    if items == [] then 0 else NodesOfItems(items[..|items| - 1]) + Nodes(items[|items| - 1])
  }

  function NodesOfEntries(entries: seq<Entry>): nat
    decreases entries, 1
  {
    if entries == [] then 0 else 1 + Nodes(entries[0].value) + NodesOfEntries(entries[1..])
  }
}
