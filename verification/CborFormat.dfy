/** The format in literal bytes: what RFC 8949 (sections 3 to 3.3) and the code write and read, initial byte by initial byte. */
module CborFormat {
  import opened Bytes
  import opened Cbor

  /** The argument follows the initial byte in 0, 1, 2, 4 or 8 bytes, the fewest that hold it. */
  lemma HeadBytes(major: nat, v: nat)
    requires major < 8 && v < TWO64
    ensures v < 24 ==> Head(major, v) == [32 * major + v]
    ensures 24 <= v < 0x100 ==> Head(major, v) == [32 * major + 24, v]
    ensures 0x100 <= v < 0x1_0000 ==> Head(major, v) == [32 * major + 25, v / 0x100, v % 0x100]
    ensures 0x1_0000 <= v < 0x1_0000_0000 ==>
              Head(major, v) == [32 * major + 26, v / 0x100_0000, v / 0x1_0000 % 0x100, v / 0x100 % 0x100, v % 0x100]
    ensures 0x1_0000_0000 <= v ==>
              |Head(major, v)| == 9 && Head(major, v)[0] == 32 * major + 27 && FromBigEndian(Head(major, v)[1..]) == v
  {
    PowersOf256();
    if v < 24 {
    } else if v < 0x100 {
      assert BigEndian(v, 1) == BigEndian(v / 256, 0) + [v % 256];
    } else if v < 0x1_0000 {
      BigEndian2(v);
    } else if v < 0x1_0000_0000 {
      BigEndian4(v);
    } else {
      BigEndianRoundTrip(v, 8);
    }
  }

  /** Unsigned integers are major type 0, negative ones 1, byte strings 2, texts 3, arrays 4 and maps 5; null is 0xf6, true
    0xf5, false 0xf4, and a double 0xfb with its bits. */
  lemma ItemBytes(v: Value)
    ensures v.Integer? && v.n >= 0 ==> Enc(v) == Head(0, v.n)
    ensures v.Integer? && v.n < 0 ==> Enc(v) == Head(1, -1 - v.n)
    ensures v.ByteString? ==> Enc(v) == Head(2, |v.data|) + v.data
    ensures v.Text? ==> Enc(v) == Head(3, |v.utf8|) + v.utf8
    ensures v == Array([]) ==> Enc(v) == [0x80]
    ensures v == Dict([]) ==> Enc(v) == [0xa0]
    ensures v.Null? ==> Enc(v) == [0xf6]
    ensures v.Bool? ==> Enc(v) == [if v.b then 0xf5 else 0xf4]
    ensures v.Double? ==> |Enc(v)| == 9 && Enc(v)[0] == 0xfb && (v.bits < TWO64 ==> FromBigEndian(Enc(v)[1..]) == v.bits)
  {
    HeadBytes(4, 0);
    HeadBytes(5, 0);
    PowersOf256();
    if v.Double? && v.bits < TWO64 {
      BigEndianRoundTrip(v.bits, 8);
    }
  }

  /** The additional information 24 to 27 announces 1, 2, 4 or 8 bytes of argument, 28 to 31 are errors, and so is a
    truncated argument. */
  lemma ArgumentRead(info: byte, d: bytes, o: nat)
    requires info < 32
    ensures info < 24 ==> DecodeUInt(info, d, o) == Ok(Argument(info, o))
    ensures info == 24 ==> DecodeUInt(info, d, o) == if o + 1 <= |d| then Ok(Argument(d[o], o + 1)) else Thrown
    ensures info == 25 ==>
              DecodeUInt(info, d, o)
              == if o + 2 <= |d| then Ok(Argument(0x100 * (d[o] as int) + d[o + 1], o + 2)) else Thrown
    ensures info == 26 ==>
              DecodeUInt(info, d, o)
              == if o + 4 <= |d|
                 then Ok(Argument(0x100_0000 * (d[o] as int) + 0x1_0000 * (d[o + 1] as int) + 0x100 * (d[o + 2] as int) + d[o + 3],
                                  o + 4))
                 else Thrown
    ensures info == 27 ==>
              DecodeUInt(info, d, o) == if o + 8 <= |d| then Ok(Argument(FromBigEndian(d[o..o + 8]), o + 8)) else Thrown
    ensures info >= 28 ==> DecodeUInt(info, d, o) == Thrown
  {
    var width := if info == 24 then 1 else if info == 25 then 2 else 4;
    if 24 <= info <= 26 && o + width <= |d| {
      FromBigEndianUnrolled(d[o..o + width]);
    }
  }

  /** Numbers: `0x00` to `0x3f`. A negative number past `Int64` traps. */
  lemma NumberRead(d: bytes, o: nat)
    requires o < |d| && d[o] < 0x40
    ensures var argument := DecodeUInt(d[o] % 32, d, o + 1);
            Decode(d, o) == match argument
                            case Ok(Argument(n, p)) =>
                              if d[o] < 0x20 then Ok(Decoded(Integer(n), p))
                              else if n >= 0x8000_0000_0000_0000 then Trap
                              else Ok(Decoded(Integer(-1 - n), p))
                            case _ => Thrown
  {
    if DecodeUInt(d[o] % 32, d, o + 1).Ok? {
      var Argument(n, p) := DecodeUInt(d[o] % 32, d, o + 1).value;
      assert Decode(d, o) == DecodeBody(d[o] / 32, n, d, p);
    }
  }

  /** Tags and the end of the data are errors. The other initial bytes above `0xdf` are read in the decoder's own numbering:
    `0xf4` is null, `0xf5` false, `0xf6` true, `0xfb` a double, and everything else is null and nothing more is read. */
  lemma OtherRead(d: bytes, o: nat)
    requires o <= |d|
    ensures o == |d| ==> Decode(d, o) == Thrown
    ensures o < |d| && 0xc0 <= d[o] < 0xe0 ==> Decode(d, o) == Thrown
    ensures o < |d| && d[o] == 0xf4 ==> Decode(d, o) == Ok(Decoded(Null, o + 1))
    ensures o < |d| && d[o] == 0xf5 ==> Decode(d, o) == Ok(Decoded(Bool(false), o + 1))
    ensures o < |d| && d[o] == 0xf6 ==> Decode(d, o) == Ok(Decoded(Bool(true), o + 1))
    ensures o < |d| && d[o] == 0xfb ==>
              Decode(d, o)
              == if o + 9 <= |d| then Ok(Decoded(Double(FromBigEndian(d[o + 1..o + 9])), o + 9)) else Thrown
    ensures o < |d| && d[o] >= 0xe0 && d[o] !in {0xf4, 0xf5, 0xf6, 0xfb} ==> Decode(d, o) == Ok(Decoded(Null, o + 1))
  {
    if o < |d| && d[o] >= 0xe0 {
      assert d[o] / 32 == 7 && d[o] % 32 == d[o] as int - 0xe0;
      assert Decode(d, o) == DecodeSimple(d[o] % 32, d, o + 1);
    }
  }

  /** Byte strings and texts: a length past `Int`, or past the end of `Int` from here, traps; one past the data is an error. */
  lemma StringRead(d: bytes, o: nat)
    requires o < |d| && 0x40 <= d[o] < 0x80
    ensures var argument := DecodeUInt(d[o] % 32, d, o + 1);
            match argument
            case Ok(Argument(n, p)) =>
              && (p + n >= 0x8000_0000_0000_0000 ==> Decode(d, o) == Trap)
              && (|d| < p + n < 0x8000_0000_0000_0000 ==> Decode(d, o) == Thrown)
              && (p + n <= |d| && p + n < 0x8000_0000_0000_0000 ==>
                    Decode(d, o).Ok? && Decode(d, o).value.next == p + n
                    && (d[o] < 0x60 ==> Decode(d, o).value.value == ByteString(d[p..p + n])))
            case _ => Decode(d, o) == Thrown
  {
    if DecodeUInt(d[o] % 32, d, o + 1).Ok? {
      var Argument(n, p) := DecodeUInt(d[o] % 32, d, o + 1).value;
      assert Decode(d, o) == DecodeBody(d[o] / 32, n, d, p);
    }
  }

  // ---- Dictionaries ----

  function Lookup(entries: seq<Entry>, key: bytes): Option<Value> {
    if entries == [] then None
    else if entries[0].key == key then Some(entries[0].value)
    else Lookup(entries[1..], key)
  }

  /** Writing a key changes what is found under that key and nothing else, and makes no second entry for it. */
  lemma {:induction false} PutLookup(entries: seq<Entry>, key: bytes, value: Value, other: bytes)
    ensures Lookup(Put(entries, key, value), other) == if other == key then Some(value) else Lookup(entries, other)
    ensures |Put(entries, key, value)| == |entries| + if Lookup(entries, key).Some? then 0 else 1
  {
    if entries != [] && entries[0].key != key {
      PutLookup(entries[1..], key, value, other);
      assert Put(entries, key, value)[1..] == Put(entries[1..], key, value);
    } else if entries != [] {
      assert Put(entries, key, value)[1..] == entries[1..];
    }
  }

  /** What the pairs of a map leave under a key: the value of the last pair with that text as its key. */
  function LastUnder(d: bytes, o: nat, n: nat, key: bytes, before: Option<Value>): Option<Value>
    requires o <= |d|
    decreases n
  {
    if n == 0 || !Decode(d, o).Ok? || !Decode(d, Decode(d, o).value.next).Ok? then before
    else
      var Decoded(k, p) := Decode(d, o).value;
      var Decoded(v, q) := Decode(d, p).value;
      LastUnder(d, q, n - 1, key, if k == Text(key) then Some(v) else before)
  }

  /** A decoded map has, under every key, the value of its last pair with that key; pairs whose key is no text leave nothing. */
  lemma {:induction false} MapHolds(d: bytes, o: nat, n: nat, acc: seq<Entry>, key: bytes)
    requires o <= |d| && DecodePairs(d, o, n, acc).Ok?
    ensures DecodePairs(d, o, n, acc).value.value.Dict?
    ensures Lookup(DecodePairs(d, o, n, acc).value.value.entries, key) == LastUnder(d, o, n, key, Lookup(acc, key))
    decreases n
  {
    if n > 0 {
      var Decoded(k, p) := Decode(d, o).value;
      var Decoded(v, q) := Decode(d, p).value;
      if k.Text? {
        PutLookup(acc, k.utf8, v, key);
        MapHolds(d, q, n - 1, Put(acc, k.utf8, v), key);
      } else {
        MapHolds(d, q, n - 1, acc, key);
      }
    }
  }
}
