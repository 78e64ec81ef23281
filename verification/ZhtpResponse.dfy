/** How ios/ZhtpCodec.swift finds the CBOR payload in a response: the ZHTP header, a 4-byte length
  prefix, or nothing in front of it. */
module ZhtpResponse {
  import opened Bytes
  import opened Cbor
  import opened CborProofs
  import opened ZhtpCodec
  import opened ZhtpWireFraming

  predicate HasMagic(d: bytes) {
    |d| >= 9 && d[..4] == MAGIC
  }

  /** The first four bytes are exactly the number of bytes that follow them, and some do. */
  predicate HasPrefix(d: bytes) {
    |d| > 4 && FromBigEndian(d[..4]) == |d| - 4
  }

  /** The payload that `zhtp_decode_response` hands to the CBOR decoder. */
  function Unwrap(d: bytes): Result<bytes> {
    if HasMagic(d) then
      var length := FromBigEndian(d[5..9]);
      if 9 + length <= |d| then Ok(d[9..9 + length]) else Thrown
    else if HasPrefix(d) then Ok(d[4..])
    else Ok(d)
  }

  /** The payload that `zhtp_decode_response_cbor` hands to it: no header form here. */
  function UnwrapFrame(d: bytes): bytes {
    if HasPrefix(d) then d[4..] else d
  }

  lemma MagicBytes(d: bytes)
    ensures |d| >= 4 ==> (d[..4] == MAGIC <==> d[0] == 0x5a && d[1] == 0x48 && d[2] == 0x54 && d[3] == 0x50)
  {
    if |d| >= 4 {
      assert d[..4] == [d[0], d[1], d[2], d[3]];
    }
  }

  /** What is unwrapped, on any bytes. "ZHTP" at the front of at least nine bytes makes a header form: its payload begins at 9, has
    the length in bytes 5 to 8, and may be followed by more; one that reaches past the end is an error, and nothing else is.
    Otherwise a length in the first four bytes that is exactly, and not zero, that of the rest is taken off. */
  lemma UnwrapExactly(d: bytes)
    ensures var header := |d| >= 9 && d[0] == 0x5a && d[1] == 0x48 && d[2] == 0x54 && d[3] == 0x50;
            var prefixed := |d| > 4 && FromBigEndian(d[..4]) == |d| - 4;
            && (Unwrap(d) == Thrown <==> header && 9 + FromBigEndian(d[5..9]) > |d|)
            && (header && 9 + FromBigEndian(d[5..9]) <= |d| ==> Unwrap(d) == Ok(d[9..9 + FromBigEndian(d[5..9])]))
            && (!header && prefixed ==> Unwrap(d) == Ok(d[4..]))
            && (!header && !prefixed ==> Unwrap(d) == Ok(d))
            && UnwrapFrame(d) == (if prefixed then d[4..] else d)
  {
    MagicBytes(d);
  }

  method DecodeResponse(d: bytes) returns (r: Result<Decoded>)
    ensures r == match Unwrap(d) case Ok(p) => Decode(p, 0) case _ => Thrown
  {
    MagicBytes(d);
    var actual := d;
    if |d| >= 9 && d[0] == 0x5a && d[1] == 0x48 && d[2] == 0x54 && d[3] == 0x50 {
      var length := FromBigEndian(d[5..9]);
      if 9 + length <= |d| {
        actual := d[9..9 + length];
      } else {
        return Thrown;
      }
    } else {
      if |d| > 4 {
        var potentialLength := FromBigEndian(d[..4]);
        if potentialLength == |d| - 4 && potentialLength > 0 {
          actual := d[4..];
        }
      }
    }
    r := DecodeCborAt(actual, 0);
  }

  method DecodeResponseCbor(d: bytes) returns (r: Result<Decoded>)
    ensures r == Decode(UnwrapFrame(d), 0)
  {
    var actual := d;
    if |d| > 4 {
      var potentialLength := FromBigEndian(d[..4]);
      if potentialLength == |d| - 4 && potentialLength > 0 {
        actual := d[4..];
      }
    }
    r := DecodeCborAt(actual, 0);
  }

  // ---- No form is mistaken for another ----

  datatype Form = Header | Prefixed | Bare

  function Wrap(form: Form, p: bytes): bytes {
    match form
    case Header => WireForm(p)
    case Prefixed => FrameForm(p)
    case Bare => p
  }

  /** A payload that begins with a CBOR map byte and fits a message. */
  predicate MapPayload(p: bytes) {
    1 <= |p| <= MAX_MESSAGE_SIZE && 0xa0 <= p[0] <= 0xbf
  }

  lemma LengthPrefix(n: nat)
    requires n < TWO32
    ensures FromBigEndian(BigEndian(n, 4)) == n && BigEndian(n, 4)[0] == n / 0x100_0000
  {
    PowersOf256();
    BigEndianRoundTrip(n, 4);
    BigEndian4(n);
  }

  lemma FirstFour(d: bytes)
    requires |d| >= 4
    ensures FromBigEndian(d[..4]) >= 0x100_0000 * (d[0] as int)
  {
    FromBigEndianUnrolled(d[..4]);
  }

  lemma UnwrapsHeader(p: bytes)
    requires |p| < TWO32
    ensures Unwrap(WireForm(p)) == Ok(p)
  {
    var d := WireForm(p);
    LengthPrefix(|p|);
    assert d[..4] == MAGIC && d[5..9] == BigEndian(|p|, 4) && d[9..9 + |p|] == p;
  }

  lemma PrefixIsNotMagic(p: bytes)
    requires |p| <= MAX_MESSAGE_SIZE
    ensures !HasMagic(FrameForm(p)) && (p != [] ==> HasPrefix(FrameForm(p))) && FrameForm(p)[4..] == p
  {
    var d := FrameForm(p);
    LengthPrefix(|p|);
    assert d[..4] == BigEndian(|p|, 4);
    assert d[0] == BigEndian(|p|, 4)[0];
  }

  lemma BareIsNeither(p: bytes)
    requires MapPayload(p)
    ensures !HasMagic(p) && !HasPrefix(p)
  {
    MagicBytes(p);
    if |p| > 4 {
      FirstFour(p);
    }
  }

  /** Unwrapping inverts all three forms. */
  lemma UnwrapInverts(form: Form, p: bytes)
    requires MapPayload(p)
    ensures Unwrap(Wrap(form, p)) == Ok(p)
    ensures form != Header ==> UnwrapFrame(Wrap(form, p)) == p
  {
    match form
    case Header => UnwrapsHeader(p);
    case Prefixed => PrefixIsNotMagic(p);
    case Bare => BareIsNeither(p);
  }

  /** Two wrapped payloads are the same bytes only if form and payload are the same. */
  lemma FormsAreDistinct(f: Form, p: bytes, g: Form, q: bytes)
    requires MapPayload(p) && MapPayload(q) && Wrap(f, p) == Wrap(g, q)
    ensures f == g && p == q
  {
    UnwrapInverts(f, p);
    UnwrapInverts(g, q);
  }

  /** Outside the map payloads: a bare payload is taken as it is exactly when it does not look like one
    of the other two forms. */
  lemma BareExactly(p: bytes)
    ensures Unwrap(p) == Ok(p) <==> !HasMagic(p) && !HasPrefix(p)
  {
    if HasMagic(p) && 9 + FromBigEndian(p[5..9]) <= |p| {
      assert |p[9..9 + FromBigEndian(p[5..9])]| < |p|;
    } else if !HasMagic(p) && HasPrefix(p) {
      assert |p[4..]| < |p|;
    }
  }

  /** End to end: a dictionary sent in any of the forms comes back, simple values moved on. */
  lemma ResponseRoundTrip(form: Form, v: Value)
    requires v.Dict? && Fits(v) && |Enc(v)| <= MAX_MESSAGE_SIZE && |v.entries| < TWO32
    ensures Unwrap(Wrap(form, Enc(v))) == Ok(Enc(v))
    ensures Decode(Unwrap(Wrap(form, Enc(v))).value, 0) == Ok(Decoded(Rotated(v), |Enc(v)|))
  {
    assert Enc(v)[0] == 32 * 5 + Info(|v.entries|);
    UnwrapInverts(form, Enc(v));
    RoundTrip(v, []);
    assert Enc(v) + [] == Enc(v);
  }

  // ---- Byte arrays ----

  /** `decodeRequestId`, base64 text being the library's business: a byte string is its bytes, an array
    the low bytes of its numbers, in order. `other` is the bridging of doubles to a byte. */
  function DecodeRequestId(v: Value, base64: bytes -> Option<bytes>, other: nat -> byte): Option<bytes> {
    match v
    case ByteString(data) => Some(data)
    case Array(items) => Some(LowBytes(items, other))
    case Text(utf8) => base64(utf8)
    case _ => None
  }

  /** The byte an item of an id stands for, if it is a number. */
  function LowByte(item: Value, other: nat -> byte): bytes {
    match item
    case Integer(n) => [n % 256]
    case Bool(b) => [if b then 1 else 0]
    case Double(bits) => [other(bits)]
    case _ => []
  }

  function LowBytes(items: seq<Value>, other: nat -> byte): bytes {
    if items == [] then [] else LowByte(items[0], other) + LowBytes(items[1..], other)
  }

  /** What a request id is read from: a byte string as it is, an array item by item, a text as base64, and nothing else. */
  lemma RequestIdCases(v: Value, base64: bytes -> Option<bytes>, other: nat -> byte)
    ensures v.ByteString? ==> DecodeRequestId(v, base64, other) == Some(v.data)
    ensures v.Text? ==> DecodeRequestId(v, base64, other) == base64(v.utf8)
    ensures v.Array? ==> DecodeRequestId(v, base64, other) == Some(LowBytes(v.items, other))
    ensures v.Integer? || v.Dict? || v.Null? || v.Bool? || v.Double? ==> DecodeRequestId(v, base64, other) == None
  {
  }

  /** An integer gives its low byte, a truth value 1 or 0, any other number what Foundation makes of it, and everything else no byte. */
  lemma LowByteCases(item: Value, other: nat -> byte)
    ensures item.Integer? ==> |LowByte(item, other)| == 1 && (item.n - LowByte(item, other)[0] as int) % 256 == 0
    ensures item.Bool? ==> LowByte(item, other) == [if item.b then 1 else 0]
    ensures item.Double? ==> LowByte(item, other) == [other(item.bits)]
    ensures item.Null? || item.Text? || item.ByteString? || item.Array? || item.Dict? ==> LowByte(item, other) == []
  {
  }

  lemma {:induction false} LowBytesInOrder(items: seq<Value>, more: seq<Value>, other: nat -> byte)
    ensures LowBytes(items + more, other) == LowBytes(items, other) + LowBytes(more, other)
    decreases |items|
  {
    if items == [] {
      assert items + more == more;
    } else {
      assert (items + more)[1..] == items[1..] + more;
      LowBytesInOrder(items[1..], more, other);
    }
  }

  lemma {:induction false} LowBytesInvert(data: bytes, other: nat -> byte)
    ensures LowBytes(ByteItems(data), other) == data
  {
    if data != [] {
      assert ByteItems(data)[1..] == ByteItems(data[1..]);
      LowBytesInvert(data[1..], other);
      assert [data[0]] + data[1..] == data;
    }
  }

  /** An id sent by `appendCborByteArray` is read back by `decodeRequestId`, byte for byte. */
  lemma RequestIdRoundTrip(id: bytes, rest: bytes, base64: bytes -> Option<bytes>, other: nat -> byte)
    requires |Enc(Array(ByteItems(id))) + rest| <= INT_MAX && |id| <= INT_MAX
    ensures var r := Decode(Enc(Array(ByteItems(id))) + rest, 0);
            r.Ok? && DecodeRequestId(r.value.value, base64, other) == Some(id)
  {
    RoundTrip(Array(ByteItems(id)), rest);
    RotatedFixpoint(Array(ByteItems(id)));
    LowBytesInvert(id, other);
  }
}
