/** ios/ZhtpWireFraming.swift: length-prefixed frames and the ZHTP header form. */
module ZhtpWireFraming {
  import opened Bytes

  const MAX_MESSAGE_SIZE: int := 16 * 1024 * 1024
  const MAGIC: bytes := [0x5a, 0x48, 0x54, 0x50]

  function FrameForm(p: bytes): bytes {
    BigEndian(|p|, 4) + p
  }

  function WireForm(p: bytes): bytes {
    MAGIC + [0x01] + BigEndian(|p|, 4) + p
  }

  method FrameEncode(payload: bytes) returns (r: Result<bytes>)
    ensures r == if |payload| <= 16_777_216 then Ok(FrameForm(payload)) else Thrown
  {
    if |payload| > MAX_MESSAGE_SIZE {
      return Thrown;
    }
    var framed := BigEndian(|payload|, 4);
    framed := framed + payload;
    r := Ok(framed);
  }

  method WireEncode(payload: bytes) returns (r: Result<bytes>)
    ensures r == if |payload| <= 16_777_216 then Ok(WireForm(payload)) else Thrown
  {
    if |payload| > MAX_MESSAGE_SIZE {
      return Thrown;
    }
    var wire := MAGIC;
    wire := wire + [0x01];
    wire := wire + BigEndian(|payload|, 4);
    wire := wire + payload;
    r := Ok(wire);
  }

  /** Both forms byte by byte: the length most significant byte first, and before it, in the header form, "ZHTP" and version 1. */
  lemma FormsByPosition(p: bytes)
    requires |p| <= 16_777_216
    ensures var f, n := FrameForm(p), |p|;
            f[0] == 0 + n / 0x100_0000 && f[1] == n / 0x1_0000 % 0x100 && f[2] == n / 0x100 % 0x100 && f[3] == n % 0x100
            && f[4..] == p
    ensures var w, f := WireForm(p), FrameForm(p);
            w[0] == 0x5a && w[1] == 0x48 && w[2] == 0x54 && w[3] == 0x50 && w[4] == 0x01 && w[5..] == f
  {
    BigEndian4(|p|);
    assert WireForm(p) == (MAGIC + [0x01]) + FrameForm(p);
    assert |MAGIC + [0x01]| == 5;
  }

  // ---- Decoding ----

  /** How the four length bytes are combined: in `UInt8`, as the code does, or in 32 bits, as meant. */
  datatype Arithmetic = Bits8 | Bits32

  /** Swift's `<<` on `UInt8`: bits shifted past the eighth are lost. */
  function ShiftLeft8(x: byte, k: nat): (r: byte)
    decreases k
  {
    if k >= 8 then 0 else if k == 0 then x else ShiftLeft8(2 * (x as int) % 256, k - 1)
  }

  /** The `|` of four bytes, of which at most the last is not zero. */
  function HeaderLength(h: bytes, a: Arithmetic): nat
    requires |h| == 4
  {
    match a
    case Bits8 => (ShiftLeft8(h[0], 24) as int) + ShiftLeft8(h[1], 16) + ShiftLeft8(h[2], 8) + h[3]
    case Bits32 => FromBigEndian(h)
  }

  datatype Split = Split(payload: bytes, leftover: bytes)

  function DecodeHeader(d: bytes, a: Arithmetic): Result<(nat, bytes)> {
    if |d| < 4 then Thrown
    else
      var length := HeaderLength(d[..4], a);
      if length == 0 || length > MAX_MESSAGE_SIZE then Thrown else Ok((length, d[4..]))
  }

  function DecodeMessage(d: bytes, a: Arithmetic): (r: Result<Split>)
    ensures r.Ok? ==> |r.value.leftover| < |d|
  {
    match DecodeHeader(d, a)
    case Ok((length, remainder)) =>
      if |remainder| < length then Thrown else Ok(Split(remainder[..length], remainder[length..]))
    case _ => Thrown
  }

  lemma ShiftedOut(x: byte, k: nat)
    requires k >= 8
    ensures ShiftLeft8(x, k) == 0
  {
  }

  /** On any bytes the code finds a message exactly where there are four header bytes of which the last is not zero, and after them
    as many bytes as that one says; the first three count for nothing. */
  lemma DecodesExactly(d: bytes)
    ensures DecodeMessage(d, Bits8)
            == if |d| >= 4 && d[3] != 0 && |d| >= 4 + d[3] as int
               then Ok(Split(d[4..4 + d[3] as int], d[4 + d[3] as int..]))
               else Thrown
  {
    if |d| >= 4 {
      ShiftedOut(d[0], 24);
      ShiftedOut(d[1], 16);
      ShiftedOut(d[2], 8);
      assert d[..4][3] == d[3];
      var n: int := d[3] as int;
      if |d| >= 4 + n {
        assert d[4..][..n] == d[4..4 + n] && d[4..][n..] == d[4 + n..];
      }
    }
  }

  lemma FrameHeader(p: bytes, rest: bytes)
    requires |p| <= MAX_MESSAGE_SIZE
    ensures (FrameForm(p) + rest)[..4] == BigEndian(|p|, 4) && (FrameForm(p) + rest)[4..] == p + rest
    ensures HeaderLength(BigEndian(|p|, 4), Bits32) == |p| && HeaderLength(BigEndian(|p|, 4), Bits8) == |p| % 256
  {
    HeaderLengths(|p|);
    Slices(BigEndian(|p|, 4), p, rest);
  }

  lemma Slices(h: bytes, p: bytes, rest: bytes)
    ensures (h + p + rest)[..|h|] == h && (h + p + rest)[|h|..] == p + rest
  {
  }

  lemma HeaderLengths(n: nat)
    requires n <= MAX_MESSAGE_SIZE
    ensures HeaderLength(BigEndian(n, 4), Bits32) == n && HeaderLength(BigEndian(n, 4), Bits8) == n % 256
  {
    PowersOf256();
    BigEndianRoundTrip(n, 4);
    BigEndian4(n);
  }

  /** What the code makes of a frame, for every payload the encoder accepts: the header it reads is the
    length modulo 256. */
  lemma FrameDecodes(p: bytes, rest: bytes)
    requires |p| <= MAX_MESSAGE_SIZE
    ensures var k := |p| % 256;
            DecodeMessage(FrameForm(p) + rest, Bits8) == if k == 0 then Thrown else Ok(Split(p[..k], p[k..] + rest))
  {
    FrameHeader(p, rest);
    var k := |p| % 256;
    assert (p + rest)[..k] == p[..k] && (p + rest)[k..] == p[k..] + rest;
  }

  /** The code inverts its own framing for payloads of 1 to 255 bytes and no others. */
  lemma FrameRoundTripExactly(p: bytes, rest: bytes)
    requires |p| <= MAX_MESSAGE_SIZE
    ensures DecodeMessage(FrameForm(p) + rest, Bits8) == Ok(Split(p, rest)) <==> 1 <= |p| <= 255
  {
    FrameDecodes(p, rest);
    var k := |p| % 256;
    if 1 <= |p| <= 255 {
      assert k == |p| && p[..k] == p && p[k..] + rest == rest;
    } else if k != 0 {
      assert |p[..k]| < |p|;
    }
  }

  /** With the length combined in 32 bits it would for every payload but the empty one. */
  lemma IntendedRoundTripExactly(p: bytes, rest: bytes)
    requires |p| <= MAX_MESSAGE_SIZE
    ensures DecodeMessage(FrameForm(p) + rest, Bits32) == Ok(Split(p, rest)) <==> 1 <= |p|
  {
    FrameHeader(p, rest);
    assert (p + rest)[..|p|] == p && (p + rest)[|p|..] == rest;
  }

  // ---- Streams of frames ----

  predicate Framable(p: bytes, a: Arithmetic) {
    1 <= |p| <= (if a.Bits8? then 255 else MAX_MESSAGE_SIZE)
  }

  function Stream(payloads: seq<bytes>, leftover: bytes): bytes {
    if payloads == [] then leftover else FrameForm(payloads[0]) + Stream(payloads[1..], leftover)
  }

  /** Taking messages off a buffer for as long as one is complete. */
  function AllMessages(d: bytes, a: Arithmetic): (seq<bytes>, bytes)
    decreases |d|
  {
    match DecodeMessage(d, a)
    case Ok(Split(payload, leftover)) =>
      var (payloads, rest) := AllMessages(leftover, a);
      ([payload] + payloads, rest)
    case _ => ([], d)
  }

  /** Splitting a concatenation of frames gives back the payloads and what follows them. */
  lemma {:induction false} StreamSplits(payloads: seq<bytes>, leftover: bytes, a: Arithmetic)
    requires forall i :: 0 <= i < |payloads| ==> Framable(payloads[i], a)
    requires !DecodeMessage(leftover, a).Ok?
    ensures AllMessages(Stream(payloads, leftover), a) == (payloads, leftover)
  {
    if payloads != [] {
      var rest := Stream(payloads[1..], leftover);
      if a.Bits8? { FrameRoundTripExactly(payloads[0], rest); } else { IntendedRoundTripExactly(payloads[0], rest); }
      StreamSplits(payloads[1..], leftover, a);
      assert [payloads[0]] + payloads[1..] == payloads;
    }
  }
}
