/** The decoder inverts the encoder, up to the three simple values; and what both promise on all input. */
module CborProofs {
  import opened Bytes
  import opened Cbor

  // ---- Heads ----

  lemma HeadDecodes(major: nat, v: nat, d: bytes, o: nat)
    requires major < 8 && v < TWO64 && Has(d, o, Head(major, v))
    ensures d[o] / 32 == major
    ensures DecodeUInt(d[o] % 32, d, o + 1) == Ok(Argument(v, o + |Head(major, v)|))
  {
    var first, argument := 32 * major + Info(v), BigEndian(v, Width(v));
    HasSplit(d, o, [first], argument);
    assert d[o] == first by { assert d[o..o + 1][0] == d[o]; }
    assert d[o] / 32 == major && d[o] % 32 == Info(v);
    ArgumentDecodes(v, d, o + 1);
  }

  lemma ArgumentDecodes(v: nat, d: bytes, p: nat)
    requires v < TWO64 && Has(d, p, BigEndian(v, Width(v)))
    ensures DecodeUInt(Info(v), d, p) == Ok(Argument(v, p + Width(v)))
  {
    PowersOf256();
    if v >= 24 {
      BigEndianRoundTrip(v, Width(v));
    }
  }

  /** Section 4.1: no bytes the decoder reads as the same major type and argument are shorter. */
  lemma HeadIsShortest(major: nat, v: nat, h: bytes)
    requires major < 8 && v < TWO64
    requires h != [] && h[0] / 32 == major && DecodeUInt(h[0] % 32, h, 1) == Ok(Argument(v, |h|))
    ensures |Head(major, v)| <= |h|
  {
    PowersOf256();
  }

  /** No head is a proper prefix of another head. */
  lemma HeadIsPrefixFree(m1: nat, v1: nat, m2: nat, v2: nat)
    requires m1 < 8 && m2 < 8 && v1 < TWO64 && v2 < TWO64 && Head(m1, v1) <= Head(m2, v2)
    ensures m1 == m2 && v1 == v2
  {
    var h := Head(m2, v2);
    assert Has(h, 0, Head(m1, v1)) && Has(h, 0, h);
    HeadReads(m1, v1, h);
    HeadReads(m2, v2, h);
  }

  lemma HeadReads(major: nat, v: nat, h: bytes)
    requires major < 8 && v < TWO64 && Has(h, 0, Head(major, v))
    ensures h[0] / 32 == major && DecodeUInt(h[0] % 32, h, 1).Ok? && DecodeUInt(h[0] % 32, h, 1).value.value == v
  {
    HeadDecodes(major, v, h, 0);
  }

  // ---- Round trip ----

  lemma PutFresh(entries: seq<Entry>, key: bytes, value: Value)
    requires forall i :: 0 <= i < |entries| ==> entries[i].key != key
    ensures Put(entries, key, value) == entries + [Entry(key, value)]
  {
  }

  function RotatedItems(items: seq<Value>): seq<Value> {
    seq(|items|, i requires 0 <= i < |items| => Rotated(items[i]))
  }

  function RotatedEntries(entries: seq<Entry>): seq<Entry> {
    seq(|entries|, i requires 0 <= i < |entries| => Entry(entries[i].key, Rotated(entries[i].value)))
  }

  lemma HeadDispatches(major: nat, n: nat, body: bytes, d: bytes, o: nat) returns (p: nat)
    requires major < 6 && n < TWO64 && Has(d, o, Head(major, n) + body)
    ensures p == o + |Head(major, n)| && Has(d, p, body)
    ensures Decode(d, o) == DecodeBody(major, n, d, p)
  {
    p := o + |Head(major, n)|;
    HasSplit(d, o, Head(major, n), body);
    HeadDecodes(major, n, d, o);
  }

  lemma BodyDecodes(major: nat, body: bytes, d: bytes, p: nat)
    requires 2 <= major <= 3 && |body| <= INT_MAX && |d| <= INT_MAX && Has(d, p, body)
    ensures DecodeBody(major, |body|, d, p) ==
            Ok(Decoded(if major == 2 then ByteString(body) else Text(if ValidUtf8(body) then body else []), p + |body|))
  {
  }

  lemma TextDecodes(utf8: bytes, d: bytes, o: nat)
    requires |utf8| <= INT_MAX && ValidUtf8(utf8) && |d| <= INT_MAX && Has(d, o, EncText(utf8))
    ensures Decode(d, o) == Ok(Decoded(Text(utf8), o + |EncText(utf8)|))
  {
    var p := HeadDispatches(3, |utf8|, utf8, d, o);
    BodyDecodes(3, utf8, d, p);
  }

  lemma BytesDecode(data: bytes, d: bytes, o: nat)
    requires |data| <= INT_MAX && |d| <= INT_MAX && Has(d, o, Enc(ByteString(data)))
    ensures Decode(d, o) == Ok(Decoded(ByteString(data), o + |Enc(ByteString(data))|))
  {
    var p := HeadDispatches(2, |data|, data, d, o);
    BodyDecodes(2, data, d, p);
  }

  lemma IntegerDecodes(n: int, d: bytes, o: nat)
    requires Fits(Integer(n)) && Has(d, o, Enc(Integer(n)))
    ensures Decode(d, o) == Ok(Decoded(Integer(n), o + |Enc(Integer(n))|))
  {
    var major, arg := if n >= 0 then 0 else 1, if n >= 0 then n else -1 - n;
    assert Head(major, arg) + [] == Head(major, arg);
    var p := HeadDispatches(major, arg, [], d, o);
  }

  lemma DoubleDecodes(bits: nat, d: bytes, o: nat)
    requires bits < TWO64 && Has(d, o, Enc(Double(bits)))
    ensures Decode(d, o) == Ok(Decoded(Double(bits), o + 9))
  {
    HasSplit(d, o, [0xfb], BigEndian(bits, 8));
    SimpleDecodes(0xfb, d, o);
    PowersOf256();
    BigEndianRoundTrip(bits, 8);
  }

  lemma NullDecodes(v: Value, d: bytes, o: nat)
    requires (v.Null? || v.Bool?) && Has(d, o, Enc(v))
    ensures Decode(d, o) == Ok(Decoded(Rotated(v), o + 1)) && |Enc(v)| == 1
  {
    SimpleDecodes(if v.Null? then 0xf6 else if v.b then 0xf5 else 0xf4, d, o);
  }

  lemma StringValueDecodes(v: Value, d: bytes, o: nat)
    requires (v.ByteString? || v.Text?) && Fits(v) && |d| <= INT_MAX && Has(d, o, Enc(v))
    ensures Decode(d, o) == Ok(Decoded(v, o + |Enc(v)|))
  {
    if v.Text? { TextDecodes(v.utf8, d, o); } else { BytesDecode(v.data, d, o); }
  }

  lemma ScalarDecodes(v: Value, d: bytes, o: nat)
    requires !v.Array? && !v.Dict? && Fits(v) && |d| <= INT_MAX && Has(d, o, Enc(v))
    ensures Decode(d, o) == Ok(Decoded(Rotated(v), o + |Enc(v)|))
  {
    if
    case v.Integer? => IntegerDecodes(v.n, d, o);
    case v.ByteString? || v.Text? => StringValueDecodes(v, d, o);
    case v.Null? || v.Bool? => NullDecodes(v, d, o);
    case v.Double? => DoubleDecodes(v.bits, d, o);
  }

  lemma {:induction false} DecodesAt(v: Value, d: bytes, o: nat)
    requires Fits(v) && |d| <= INT_MAX && Has(d, o, Enc(v))
    ensures Decode(d, o) == Ok(Decoded(Rotated(v), o + |Enc(v)|))
    decreases v, 2
  {
    match v
    case Array(items) => ArrayDecodesAt(v, items, d, o);
    case Dict(entries) => DictDecodesAt(v, entries, d, o);
    case _ => ScalarDecodes(v, d, o);
  }

  lemma {:induction false} ArrayDecodesAt(v: Value, items: seq<Value>, d: bytes, o: nat)
    requires v == Array(items) && Fits(v) && |d| <= INT_MAX && Has(d, o, Enc(v))
    ensures Decode(d, o) == Ok(Decoded(Rotated(v), o + |Enc(v)|))
    decreases v, 1
  {
    var p := HeadDispatches(4, |items|, EncItems(items), d, o);
    ItemsDecodeAt(items, d, p, []);
    assert [] + RotatedItems(items) == RotatedItems(items);
  }

  lemma {:induction false} DictDecodesAt(v: Value, entries: seq<Entry>, d: bytes, o: nat)
    requires v == Dict(entries) && Fits(v) && |d| <= INT_MAX && Has(d, o, Enc(v))
    ensures Decode(d, o) == Ok(Decoded(Rotated(v), o + |Enc(v)|))
    decreases v, 1
  {
    var p := HeadDispatches(5, |entries|, EncEntries(entries), d, o);
    EntriesDecodeAt(entries, d, p, []);
    assert [] + RotatedEntries(entries) == RotatedEntries(entries);
  }

  lemma SimpleDecodes(b: byte, d: bytes, o: nat)
    requires 0xe0 <= b && Has(d, o, [b])
    ensures Decode(d, o) == DecodeSimple(b % 32, d, o + 1)
  {
    assert d[o..o + 1][0] == d[o];
  }

  lemma {:induction false} ItemsDecodeAt(items: seq<Value>, d: bytes, o: nat, acc: seq<Value>)
    requires (forall i :: 0 <= i < |items| ==> Fits(items[i])) && |d| <= INT_MAX && Has(d, o, EncItems(items))
    ensures DecodeItems(d, o, |items|, acc) == Ok(Decoded(Array(acc + RotatedItems(items)), o + |EncItems(items)|))
    decreases items, 3
  {
    if items == [] {
      assert acc + RotatedItems(items) == acc;
    } else {
      HasSplit(d, o, Enc(items[0]), EncItems(items[1..]));
      DecodesAt(items[0], d, o);
      ItemsDecodeAt(items[1..], d, o + |Enc(items[0])|, acc + [Rotated(items[0])]);
      assert acc + RotatedItems(items) == acc + [Rotated(items[0])] + RotatedItems(items[1..]);
    }
  }

  ghost predicate KeyFits(key: bytes) {
    |key| <= INT_MAX && ValidUtf8(key)
  }

  lemma PairDecodes(d: bytes, o: nat, n: nat, acc: seq<Entry>, key: bytes, value: Value, p: nat, q: nat)
    requires o <= |d| && n > 0 && p <= |d|
    requires Decode(d, o) == Ok(Decoded(Text(key), p)) && Decode(d, p) == Ok(Decoded(value, q))
    requires forall i :: 0 <= i < |acc| ==> acc[i].key != key
    ensures DecodePairs(d, o, n, acc) == DecodePairs(d, q, n - 1, acc + [Entry(key, value)])
  {
    PutFresh(acc, key, value);
  }

  lemma PairSplits(key: bytes, value: bytes, tail: bytes, d: bytes, o: nat)
    requires Has(d, o, key + value + tail)
    ensures Has(d, o, key) && Has(d, o + |key|, value) && Has(d, o + |key| + |value|, tail)
  {
    HasSplit(d, o, key + value, tail);
    HasSplit(d, o, key, value);
  }

  lemma {:induction false} EntryDecodesAt(key: bytes, value: Value, tail: bytes, d: bytes, o: nat)
    returns (p: nat, q: nat)
    requires KeyFits(key) && Fits(value) && |d| <= INT_MAX && Has(d, o, EncText(key) + Enc(value) + tail)
    ensures p == o + |EncText(key)| && q == p + |Enc(value)| && Has(d, q, tail)
    ensures Decode(d, o) == Ok(Decoded(Text(key), p)) && Decode(d, p) == Ok(Decoded(Rotated(value), q))
    decreases value, 3
  {
    var k, v := EncText(key), Enc(value);
    PairSplits(k, v, tail, d, o);
    p := o + |k|;
    q := p + |v|;
    DecodesAt(value, d, p);
    TextDecodes(key, d, o);
  }

  lemma {:induction false} EntriesDecodeAt(entries: seq<Entry>, d: bytes, o: nat, acc: seq<Entry>)
    requires DistinctKeys(acc + entries) && |d| <= INT_MAX && Has(d, o, EncEntries(entries))
    requires forall i :: 0 <= i < |entries| ==> KeyFits(entries[i].key) && Fits(entries[i].value)
    ensures DecodePairs(d, o, |entries|, acc) ==
            Ok(Decoded(Dict(acc + RotatedEntries(entries)), o + |EncEntries(entries)|))
    decreases entries, 4
  {
    if entries == [] {
      assert acc + RotatedEntries(entries) == acc;
    } else {
      var e, rest := entries[0], entries[1..];
      var p, q := EntryDecodesAt(e.key, e.value, EncEntries(rest), d, o);
      FreshKey(acc, entries);
      PairDecodes(d, o, |entries|, acc, e.key, Rotated(e.value), p, q);
      EntriesDecodeAt(rest, d, q, acc + [Entry(e.key, Rotated(e.value))]);
      RotatedCons(acc, entries);
    }
  }

  lemma RotatedCons(acc: seq<Entry>, entries: seq<Entry>)
    requires entries != []
    ensures acc + RotatedEntries(entries) ==
            acc + [Entry(entries[0].key, Rotated(entries[0].value))] + RotatedEntries(entries[1..])
  {
  }

  lemma FreshKey(acc: seq<Entry>, entries: seq<Entry>)
    requires entries != [] && DistinctKeys(acc + entries)
    ensures forall i :: 0 <= i < |acc| ==> acc[i].key != entries[0].key
    ensures DistinctKeys(acc + [Entry(entries[0].key, Rotated(entries[0].value))] + entries[1..])
  {
    var all := acc + entries;
    var grown := acc + [Entry(entries[0].key, Rotated(entries[0].value))] + entries[1..];
    assert all[|acc|] == entries[0];
    forall i | 0 <= i < |acc| ensures acc[i].key != entries[0].key {
      assert all[i] == acc[i];
    }
    assert forall i :: 0 <= i < |grown| ==> grown[i].key == all[i].key;
  }

  /** What decoding an encoded tree gives, whatever bytes follow it: the tree with its simple values moved
    on by one, and the offset just after its encoding. */
  lemma RoundTrip(v: Value, rest: bytes)
    requires Fits(v) && |Enc(v) + rest| <= INT_MAX
    ensures Decode(Enc(v) + rest, 0) == Ok(Decoded(Rotated(v), |Enc(v)|))
  {
    assert (Enc(v) + rest)[0..|Enc(v)|] == Enc(v);
    DecodesAt(v, Enc(v) + rest, 0);
  }

  lemma {:induction false} RotatedFixpoint(v: Value)
    ensures Rotated(v) == v <==> NoSimple(v)
    decreases v
  {
    match v
    case Array(items) =>
      forall i | 0 <= i < |items| ensures Rotated(items[i]) == items[i] <==> NoSimple(items[i]) {
        RotatedFixpoint(items[i]);
      }
      if NoSimple(v) {
        assert RotatedItems(items) == items;
      } else {
        var i :| 0 <= i < |items| && !NoSimple(items[i]);
        assert Rotated(v).items[i] != items[i];
      }
    case Dict(entries) =>
      forall i | 0 <= i < |entries| ensures Rotated(entries[i].value) == entries[i].value <==> NoSimple(entries[i].value) {
        RotatedFixpoint(entries[i].value);
      }
      if NoSimple(v) {
        assert RotatedEntries(entries) == entries;
      } else {
        var i :| 0 <= i < |entries| && !NoSimple(entries[i].value);
        assert Rotated(v).entries[i] != entries[i];
      }
    case _ =>
  }

  /** The round trip holds exactly for the trees without null, true or false. */
  lemma RoundTripExactly(v: Value, rest: bytes)
    requires Fits(v) && |Enc(v) + rest| <= INT_MAX
    ensures Decode(Enc(v) + rest, 0) == Ok(Decoded(v, |Enc(v)|)) <==> NoSimple(v)
  {
    RoundTrip(v, rest);
    RotatedFixpoint(v);
  }

  /** The deviation, on the three one-byte encodings. */
  lemma SimpleValuesChange()
    ensures Decode(Enc(Bool(false)), 0) == Ok(Decoded(Null, 1))
    ensures Decode(Enc(Bool(true)), 0) == Ok(Decoded(Bool(false), 1))
    ensures Decode(Enc(Null), 0) == Ok(Decoded(Bool(true), 1))
  {
  }

  lemma {:induction false} RotatedInjective(v: Value, u: Value)
    requires Rotated(v) == Rotated(u)
    ensures v == u
    decreases v
  {
    match v
    case Array(items) =>
      assert u.Array? && |u.items| == |items|;
      forall i | 0 <= i < |items| ensures items[i] == u.items[i] {
        assert Rotated(v).items[i] == Rotated(u).items[i];
        RotatedInjective(items[i], u.items[i]);
      }
    case Dict(entries) =>
      assert u.Dict? && |u.entries| == |entries|;
      forall i | 0 <= i < |entries| ensures entries[i] == u.entries[i] {
        assert Rotated(v).entries[i] == Rotated(u).entries[i];
        RotatedInjective(entries[i].value, u.entries[i].value);
      }
    case _ =>
  }

  /** No encoding of a tree is a prefix of the encoding of another tree. */
  lemma EncodingIsPrefixFree(v: Value, u: Value)
    requires Fits(v) && Fits(u) && |Enc(u)| <= INT_MAX && Enc(v) <= Enc(u)
    ensures v == u
  {
    DecodesAt(v, Enc(u), 0);
    DecodesAt(u, Enc(u), 0);
    RotatedInjective(v, u);
  }

  // ---- Any bytes ----

  lemma {:induction false} PutNodes(entries: seq<Entry>, key: bytes, value: Value)
    ensures NodesOfEntries(Put(entries, key, value)) <= NodesOfEntries(entries) + 1 + Nodes(value)
  {
    if entries != [] {
      if entries[0].key != key {
        PutNodes(entries[1..], key, value);
        assert ([entries[0]] + Put(entries[1..], key, value))[1..] == Put(entries[1..], key, value);
      } else {
        assert ([Entry(key, value)] + entries[1..])[1..] == entries[1..];
      }
    }
  }

  /** The value decoded from any bytes has at most one item per byte consumed. */
  lemma {:induction false} NodesBounded(d: bytes, o: nat)
    requires o <= |d| && Decode(d, o).Ok?
    ensures Nodes(Decode(d, o).value.value) <= Decode(d, o).value.next - o
    decreases |d| - o, 0
  {
    var major, info := d[o] / 32, d[o] % 32;
    if major == 4 {
      var arg := DecodeUInt(info, d, o + 1).value;
      NodesBoundedItems(d, arg.next, arg.value, []);
    } else if major == 5 {
      var arg := DecodeUInt(info, d, o + 1).value;
      NodesBoundedPairs(d, arg.next, arg.value, []);
    }
  }

  lemma {:induction false} NodesBoundedItems(d: bytes, o: nat, n: nat, acc: seq<Value>)
    requires o <= |d| && DecodeItems(d, o, n, acc).Ok?
    ensures Nodes(DecodeItems(d, o, n, acc).value.value) <= 1 + NodesOfItems(acc) + DecodeItems(d, o, n, acc).value.next - o
    decreases |d| - o, 1
  {
    if n > 0 {
      NodesBounded(d, o);
      var first := Decode(d, o).value;
      assert (acc + [first.value])[..|acc|] == acc;
      NodesBoundedItems(d, first.next, n - 1, acc + [first.value]);
    }
  }

  lemma {:induction false} NodesBoundedPairs(d: bytes, o: nat, n: nat, acc: seq<Entry>)
    requires o <= |d| && DecodePairs(d, o, n, acc).Ok?
    ensures Nodes(DecodePairs(d, o, n, acc).value.value) <= 1 + NodesOfEntries(acc) + DecodePairs(d, o, n, acc).value.next - o
    decreases |d| - o, 1
  {
    if n > 0 {
      NodesBounded(d, o);
      var key := Decode(d, o).value;
      NodesBounded(d, key.next);
      var value := Decode(d, key.next).value;
      if key.value.Text? {
        PutNodes(acc, key.value.utf8, value.value);
      }
      NodesBoundedPairs(d, value.next, n - 1, if key.value.Text? then Put(acc, key.value.utf8, value.value) else acc);
    }
  }
}
