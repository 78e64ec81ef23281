/** The encoders and the decoder of ios/ZhtpCodec.swift, in the source's own form: an `inout Data` is a
  parameter and a result, the decoder's `inout offset` comes back with its value. */
module ZhtpCodec {
  import opened Bytes
  import opened Cbor

  // ---- Encoding helpers ----

  method AppendCborUInt(data: bytes, value: nat, majorType: nat) returns (out: bytes)
    requires value < TWO64 && majorType < 8
    ensures out == data + Head(majorType, value)
  {
    var mt := 32 * majorType;
    if value < 24 {
      out := data + [mt + value];
      assert BigEndian(value, 0) == [];
    } else if value < 0x100 {
      out := data + [mt + 24];
      out := out + [value % 0x100];
      assert BigEndian(value, 1) == BigEndian(value / 256, 0) + [value % 256];
    } else if value < 0x1_0000 {
      BigEndian2(value);
      out := data + [mt + 25];
      out := out + [value / 0x100 % 0x100];
      out := out + [value % 0x100];
    } else if value < 0x1_0000_0000 {
      BigEndian4(value);
      out := data + [mt + 26];
      out := out + [value / 0x100_0000 % 0x100];
      out := out + [value / 0x1_0000 % 0x100];
      out := out + [value / 0x100 % 0x100];
      out := out + [value % 0x100];
    } else {
      BigEndianSplit4(value, 4);
      var high := value / TWO32;
      BigEndian4(high);
      BigEndian4(value);
      assert high / 0x100_0000 == value / 0x100_0000_0000_0000 && high / 0x1_0000 == value / 0x1_0000_0000_0000;
      assert high / 0x100 == value / 0x100_0000_0000;
      out := data + [mt + 27];
      out := out + [value / 0x100_0000_0000_0000 % 0x100];
      out := out + [value / 0x1_0000_0000_0000 % 0x100];
      out := out + [value / 0x100_0000_0000 % 0x100];
      out := out + [value / 0x1_0000_0000 % 0x100];
      assert out == data + [mt + 27] + BigEndian(high, 4);
      out := out + [value / 0x100_0000 % 0x100];
      out := out + [value / 0x1_0000 % 0x100];
      out := out + [value / 0x100 % 0x100];
      out := out + [value % 0x100];
    }
  }

  method AppendCborInteger(data: bytes, value: int) returns (out: bytes)
    requires -INT_MAX - 1 <= value <= INT_MAX
    ensures out == data + Enc(Integer(value))
  {
    if value >= 0 {
      out := AppendCborUInt(data, value, 0);
    } else {
      out := AppendCborUInt(data, -1 - value, 1);
    }
  }

  /** A number as it lies in memory: least significant byte first. */
  function InMemory(v: nat, width: nat): (m: bytes)
    ensures |m| == width
  {
    if width == 0 then [] else [v % 256] + InMemory(v / 256, width - 1)
  }

  lemma {:induction false} ReversedInMemory(v: nat, width: nat, k: nat)
    requires k < width
    ensures InMemory(v, width)[width - 1 - k] == BigEndian(v, width)[k]
  {
    if k < width - 1 {
      ReversedInMemory(v / 256, width - 1, k);
    }
  }

  /** The bytes of the double in memory, backwards. */
  method AppendCborFloat(data: bytes, bits: nat) returns (out: bytes)
    requires bits < TWO64
    ensures out == data + Enc(Double(bits))
  {
    out := data + [0xfb];
    var buffer := InMemory(bits, 8);
    ghost var expected := BigEndian(bits, 8);
    for i := 0 to 8
      invariant out == data + [0xfb] + expected[..i]
    {
      ReversedInMemory(bits, 8, i);
      assert expected[..i + 1] == expected[..i] + [expected[i]];
      out := out + [buffer[7 - i]];
    }
    assert expected[..8] == expected;
  }

  method AppendCborString(data: bytes, utf8: bytes) returns (out: bytes)
    requires |utf8| <= INT_MAX
    ensures out == data + EncText(utf8)
  {
    out := AppendCborUInt(data, |utf8|, 3);
    out := out + utf8;
  }

  method AppendCborBytes(data: bytes, body: bytes) returns (out: bytes)
    requires |body| <= INT_MAX
    ensures out == data + Enc(ByteString(body))
  {
    out := AppendCborUInt(data, |body|, 2);
    out := out + body;
  }

  /** An array of small integers, one per byte. */
  function ByteItems(body: bytes): seq<Value> {
    seq(|body|, i requires 0 <= i < |body| => Integer(body[i]))
  }

  method AppendCborByteArray(data: bytes, body: bytes) returns (out: bytes)
    requires |body| <= INT_MAX
    ensures out == data + Enc(Array(ByteItems(body)))
  {
    out := AppendCborUInt(data, |body|, 4);
    for i := 0 to |body|
      invariant out + EncItems(ByteItems(body[i..])) == data + Enc(Array(ByteItems(body)))
    {
      ghost var before := out;
      assert ByteItems(body[i..])[1..] == ByteItems(body[i + 1..]);
      out := AppendCborUInt(out, body[i], 0);
      assert before + (Enc(Integer(body[i])) + EncItems(ByteItems(body[i + 1..])))
          == out + EncItems(ByteItems(body[i + 1..]));
    }
    assert out + [] == out;
  }

  // ---- Trees ----

  /** Somewhere in the tree there are bytes, for which the encoder has no case. */
  predicate HasData(v: Value) {
    match v
    case ByteString(_) => true
    case Array(items) => exists i :: 0 <= i < |items| && HasData(items[i])
    case Dict(entries) => exists i :: 0 <= i < |entries| && HasData(entries[i].value)
    case _ => false
  }

  /** The tree that is written: a number past `Int64` goes out as the double nearest to it. */
  function Written(v: Value, nearest: nat -> nat): Value {
    match v
    case Integer(n) => if n > INT_MAX then Double(nearest(n)) else v
    case Array(items) => Array(WrittenItems(items, nearest))
    case Dict(entries) => Dict(WrittenEntries(entries, nearest))
    case _ => v
  }

  function WrittenItems(items: seq<Value>, nearest: nat -> nat): seq<Value>
    decreases items, 1
  {
    seq(|items|, i requires 0 <= i < |items| => Written(items[i], nearest))
  }

  function WrittenEntries(entries: seq<Entry>, nearest: nat -> nat): seq<Entry>
    decreases entries, 1
  {
    seq(|entries|, i requires 0 <= i < |entries| => Entry(entries[i].key, Written(entries[i].value, nearest)))
  }

  predicate NoneLarge(v: Value) {
    match v
    case Integer(n) => n <= INT_MAX
    case Array(items) => forall i :: 0 <= i < |items| ==> NoneLarge(items[i])
    case Dict(entries) => forall i :: 0 <= i < |entries| ==> NoneLarge(entries[i].value)
    case _ => true
  }

  /** The tree itself is written exactly where it holds no number past `Int64`. */
  lemma {:induction false} WrittenExactly(v: Value, nearest: nat -> nat)
    ensures Written(v, nearest) == v <==> NoneLarge(v)
    decreases v
  {
    match v
    case Array(items) =>
      forall i | 0 <= i < |items| ensures Written(items[i], nearest) == items[i] <==> NoneLarge(items[i]) {
        WrittenExactly(items[i], nearest);
      }
      assert WrittenItems(items, nearest) == items <==> forall i :: 0 <= i < |items| ==> Written(items[i], nearest) == items[i];
    case Dict(entries) =>
      forall i | 0 <= i < |entries|
        ensures Written(entries[i].value, nearest) == entries[i].value <==> NoneLarge(entries[i].value)
      {
        WrittenExactly(entries[i].value, nearest);
      }
      assert WrittenEntries(entries, nearest) == entries <==>
             forall i :: 0 <= i < |entries| ==> Entry(entries[i].key, Written(entries[i].value, nearest)) == entries[i];
    case _ =>
  }

  /** The recursive encoder. */
  method EncodeCborValue(value: Value, nearest: nat -> nat) returns (r: Result<bytes>)
    requires Fits(value) && forall n :: nearest(n) < TWO64
    ensures r == if HasData(value) then Thrown else Ok(Enc(Written(value, nearest)))
    decreases value, 0
  {
    var data: bytes;
    match value {
      case Null => data := [0xf6];
      case Bool(b) => data := [if b then 0xf5 else 0xf4];
      case Integer(n) =>
        if n <= INT_MAX { data := AppendCborInteger([], n); } else { data := AppendCborFloat([], nearest(n)); }
      case Double(bits) => data := AppendCborFloat([], bits);
      case Text(utf8) => data := AppendCborString([], utf8);
      case ByteString(_) => return Thrown;
      case Array(items) =>
        assert Enc(Written(value, nearest)) == [] + Head(4, |items|) + EncItems(WrittenItems(items, nearest));
        r := AppendCborArray([], items, nearest);
        return;
      case Dict(entries) =>
        assert Enc(Written(value, nearest)) == [] + Head(5, |entries|) + EncEntries(WrittenEntries(entries, nearest));
        r := AppendCborMap([], entries, nearest);
        return;
    }
    assert [] + Enc(Written(value, nearest)) == Enc(Written(value, nearest));
    r := Ok(data);
  }

  lemma {:induction false} ItemsSnoc(items: seq<Value>, i: nat)
    requires i < |items|
    ensures EncItems(items[..i + 1]) == EncItems(items[..i]) + Enc(items[i])
    decreases i
  {
    if i > 0 {
      ItemsSnoc(items[1..], i - 1);
      assert items[..i + 1][1..] == items[1..][..i] && items[..i][1..] == items[1..][..i - 1];
      assert items[..i + 1][0] == items[..i][0] && items[1..][i - 1] == items[i];
    } else {
      assert items[..1][1..] == [] && items[..0] == [];
    }
  }

  lemma {:induction false} EntriesSnoc(entries: seq<Entry>, i: nat)
    requires i < |entries|
    ensures EncEntries(entries[..i + 1]) == EncEntries(entries[..i]) + (EncText(entries[i].key) + Enc(entries[i].value))
    decreases i
  {
    if i > 0 {
      EntriesSnoc(entries[1..], i - 1);
      assert entries[..i + 1][1..] == entries[1..][..i] && entries[..i][1..] == entries[1..][..i - 1];
      assert entries[..i + 1][0] == entries[..i][0] && entries[1..][i - 1] == entries[i];
    } else {
      assert entries[..1][1..] == [] && entries[..0] == [];
    }
  }

  lemma Appended(data: bytes, head: bytes, old': bytes, more: bytes, new': bytes)
    requires data == head + old' && new' == old' + more
    ensures data + more == head + new'
  {
  }

  method AppendCborArray(data: bytes, items: seq<Value>, nearest: nat -> nat) returns (r: Result<bytes>)
    requires |items| <= INT_MAX && forall i :: 0 <= i < |items| ==> Fits(items[i])
    requires forall n :: nearest(n) < TWO64
    ensures r == if HasData(Array(items)) then Thrown
                 else Ok(data + Head(4, |items|) + EncItems(WrittenItems(items, nearest)))
    decreases items, 1
  {
    var out := AppendCborUInt(data, |items|, 4);
    ghost var head, written := out, WrittenItems(items, nearest);
    for i := 0 to |items|
      invariant out == head + EncItems(written[..i])
      invariant forall k :: 0 <= k < i ==> !HasData(items[k])
    {
      var item := EncodeCborValue(items[i], nearest);
      if !item.Ok? { return Thrown; }
      ItemsSnoc(written, i);
      Appended(out, head, EncItems(written[..i]), item.value, EncItems(written[..i + 1]));
      out := out + item.value;
    }
    assert written[..|items|] == written;
    r := Ok(out);
  }

  method EncodePair(entry: Entry, nearest: nat -> nat) returns (r: Result<bytes>)
    requires |entry.key| <= INT_MAX && Fits(entry.value) && forall n :: nearest(n) < TWO64
    ensures r == if HasData(entry.value) then Thrown else Ok(EncText(entry.key) + Enc(Written(entry.value, nearest)))
    decreases entry, 1
  {
    var key := AppendCborString([], entry.key);
    var item := EncodeCborValue(entry.value, nearest);
    if !item.Ok? { return Thrown; }
    assert key == EncText(entry.key);
    r := Ok(key + item.value);
  }

  /** The entries come in the order the dictionary was sorted into. */
  method AppendCborMap(data: bytes, entries: seq<Entry>, nearest: nat -> nat) returns (r: Result<bytes>)
    requires |entries| <= INT_MAX
    requires forall i :: 0 <= i < |entries| ==> |entries[i].key| <= INT_MAX && Fits(entries[i].value)
    requires forall n :: nearest(n) < TWO64
    ensures r == if HasData(Dict(entries)) then Thrown
                 else Ok(data + Head(5, |entries|) + EncEntries(WrittenEntries(entries, nearest)))
    decreases entries, 1
  {
    var out := AppendCborUInt(data, |entries|, 5);
    ghost var head, written := out, WrittenEntries(entries, nearest);
    for i := 0 to |entries|
      invariant out == head + EncEntries(written[..i])
      invariant forall k :: 0 <= k < i ==> !HasData(entries[k].value)
    {
      var pair := EncodePair(entries[i], nearest);
      if !pair.Ok? { return Thrown; }
      EntriesSnoc(written, i);
      Appended(out, head, EncEntries(written[..i]), pair.value, EncEntries(written[..i + 1]));
      out := out + pair.value;
    }
    assert written[..|entries|] == written;
    r := Ok(out);
  }

  // ---- Decoding ----

  method DecodeCborUInt(additionalInfo: byte, data: bytes, offset: nat) returns (r: Result<Argument>)
    requires additionalInfo < 32
    ensures r == DecodeUInt(additionalInfo, data, offset)
  {
    if additionalInfo < 24 {
      r := Ok(Argument(additionalInfo, offset));
    } else if additionalInfo == 24 {
      if offset >= |data| { return Thrown; }
      FromBigEndianUnrolled(data[offset..offset + 1]);
      r := Ok(Argument(data[offset], offset + 1));
    } else if additionalInfo == 25 {
      if offset + 1 >= |data| { return Thrown; }
      FromBigEndianUnrolled(data[offset..offset + 2]);
      r := Ok(Argument(0x100 * (data[offset] as int) + data[offset + 1], offset + 2));
    } else if additionalInfo == 26 {
      if offset + 3 >= |data| { return Thrown; }
      FromBigEndianUnrolled(data[offset..offset + 4]);
      r := Ok(Argument(0x100_0000 * (data[offset] as int) + 0x1_0000 * (data[offset + 1] as int)
                       + 0x100 * (data[offset + 2] as int) + data[offset + 3], offset + 4));
    } else if additionalInfo == 27 {
      if offset + 7 >= |data| { return Thrown; }
      var value: nat := 0;
      for i := 0 to 8
        invariant value == FromBigEndian(data[offset..offset + i])
      {
        assert data[offset..offset + i + 1][..i] == data[offset..offset + i];
        value := 0x100 * value + data[offset + i];
      }
      r := Ok(Argument(value, offset + 8));
    } else {
      r := Thrown;
    }
  }

  /** `decodeCborAt`: recursion over loops, on any bytes. */
  method DecodeCborAt(data: bytes, start: nat) returns (r: Result<Decoded>)
    requires start <= |data|
    ensures r == Decode(data, start)
    decreases |data| - start, 0
  {
    var offset := start;
    if offset >= |data| {
      return Thrown;
    }
    var majorType, additionalInfo := data[offset] / 32, data[offset] % 32;
    offset := offset + 1;

    if majorType == 7 {
      r := DecodeSimple(additionalInfo, data, offset);
      return;
    } else if majorType == 6 {
      return Thrown;
    }
    var argument := DecodeCborUInt(additionalInfo, data, offset);
    if !argument.Ok? {
      return Thrown;
    }
    var n := argument.value.value;
    offset := argument.value.next;
    if majorType == 0 {
      return Ok(Decoded(Integer(n), offset));
    }
    if n > INT_MAX {
      return Trap;
    }
    if majorType == 1 {
      return Ok(Decoded(Integer(-1 - n), offset));
    } else if majorType <= 3 {
      r := DecodeString(majorType, n, data, offset);
    } else if majorType == 4 {
      r := DecodeArray(data, offset, n);
    } else {
      r := DecodeMap(data, offset, n);
    }
  }

  method DecodeArray(data: bytes, start: nat, n: nat) returns (r: Result<Decoded>)
    requires start <= |data|
    ensures r == DecodeItems(data, start, n, [])
    decreases |data| - start, 1
  {
    var offset := start;
    var decodedItems: seq<Value> := [];
    ghost var all := DecodeItems(data, start, n, []);
    for i := 0 to n
      invariant start <= offset <= |data|
      invariant all == DecodeItems(data, offset, n - i, decodedItems)
    {
      var item := DecodeCborAt(data, offset);
      if !item.Ok? {
        return item;
      }
      decodedItems := decodedItems + [item.value.value];
      offset := item.value.next;
    }
    r := Ok(Decoded(Array(decodedItems), offset));
  }

  method DecodeMap(data: bytes, start: nat, n: nat) returns (r: Result<Decoded>)
    requires start <= |data|
    ensures r == DecodePairs(data, start, n, [])
    decreases |data| - start, 1
  {
    var offset := start;
    var dict: seq<Entry> := [];
    ghost var all := DecodePairs(data, start, n, []);
    for i := 0 to n
      invariant start <= offset <= |data|
      invariant all == DecodePairs(data, offset, n - i, dict)
    {
      var key := DecodeCborAt(data, offset);
      if !key.Ok? {
        return key;
      }
      var value := DecodeCborAt(data, key.value.next);
      if !value.Ok? {
        return value;
      }
      if key.value.value.Text? {
        dict := Put(dict, key.value.value.utf8, value.value.value);
      }
      offset := value.value.next;
    }
    r := Ok(Decoded(Dict(dict), offset));
  }
}
