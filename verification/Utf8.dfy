/** UTF-8 (RFC 3629, section 3) from the other side: the bytes of a sequence of Unicode scalar values. */
module Utf8 {
  import opened Bytes
  import opened Cbor
  import CborProofs

  predicate IsScalar(c: int) {
    0 <= c < 0xd800 || 0xe000 <= c < 0x11_0000
  }

  type Scalar = c: int | 0 <= c < 0xd800 || 0xe000 <= c < 0x11_0000

  function ScalarBytes(c: Scalar): (s: bytes)
    ensures 1 <= |s| <= 4
  {
    assert 0 <= c < 0x11_0000;
    if c < 0x80 then [c]
    else if c < 0x800 then [0xc0 + c / 0x40, 0x80 + c % 0x40]
    else if c < 0x1_0000 then [0xe0 + c / 0x1000, 0x80 + c / 0x40 % 0x40, 0x80 + c % 0x40]
    else [0xf0 + c / 0x4_0000, 0x80 + c / 0x1000 % 0x40, 0x80 + c / 0x40 % 0x40, 0x80 + c % 0x40]
  }

  function TextBytes(cs: seq<Scalar>): bytes {
    if cs == [] then [] else ScalarBytes(cs[0]) + TextBytes(cs[1..])
  }

  /** The scalar value the bytes at the front of `s` stand for. */
  function FirstScalar(s: bytes): int
    requires |s| >= Utf8Length(s) > 0
  {
    match Utf8Length(s)
    case 1 => s[0]
    case 2 => 0x40 * (s[0] as int - 0xc0) + (s[1] as int - 0x80)
    case 3 => 0x1000 * (s[0] as int - 0xe0) + 0x40 * (s[1] as int - 0x80) + (s[2] as int - 0x80)
    case _ =>
      0x4_0000 * (s[0] as int - 0xf0) + 0x1000 * (s[1] as int - 0x80) + 0x40 * (s[2] as int - 0x80) + (s[3] as int - 0x80)
  }

  /** A scalar value's bytes are recognised, whatever follows them, and read as that value. */
  lemma ScalarRecognised(c: Scalar, rest: bytes)
    ensures Utf8Length(ScalarBytes(c) + rest) == |ScalarBytes(c)|
    ensures FirstScalar(ScalarBytes(c) + rest) == c
  {
    assert 0 <= c < 0x11_0000;
    var s := ScalarBytes(c) + rest;
    if c < 0x80 {
      assert s[0] == c;
    } else if c < 0x800 {
      assert s[0] == 0xc0 + c / 0x40 && s[1] == 0x80 + c % 0x40;
    } else if c < 0x1_0000 {
      assert s[0] == 0xe0 + c / 0x1000 && s[1] == 0x80 + c / 0x40 % 0x40 && s[2] == 0x80 + c % 0x40;
      Recognised3(c, s);
    } else {
      assert s[0] == 0xf0 + c / 0x4_0000 && s[1] == 0x80 + c / 0x1000 % 0x40;
      assert s[2] == 0x80 + c / 0x40 % 0x40 && s[3] == 0x80 + c % 0x40;
      Recognised4(c, s);
    }
  }

  lemma Recognised3(c: Scalar, s: bytes)
    requires 0x800 <= c < 0x1_0000 && |s| >= 3
    requires s[0] == 0xe0 + c / 0x1000 && s[1] == 0x80 + c / 0x40 % 0x40 && s[2] == 0x80 + c % 0x40
    ensures Utf8Length(s) == 3 && FirstScalar(s) == c
  {
    var q := c / 0x40;
    assert c == 0x40 * q + c % 0x40 && q == 0x40 * (q / 0x40) + q % 0x40 && q / 0x40 == c / 0x1000;
  }

  lemma Recognised4(c: Scalar, s: bytes)
    requires 0x1_0000 <= c < 0x11_0000 && |s| >= 4
    requires s[0] == 0xf0 + c / 0x4_0000 && s[1] == 0x80 + c / 0x1000 % 0x40
    requires s[2] == 0x80 + c / 0x40 % 0x40 && s[3] == 0x80 + c % 0x40
    ensures Utf8Length(s) == 4 && FirstScalar(s) == c
  {
    var q, p := c / 0x40, c / 0x1000;
    assert c == 0x40 * q + c % 0x40;
    assert q == 0x40 * p + q % 0x40 && p == 0x40 * (p / 0x40) + p % 0x40 && p / 0x40 == c / 0x4_0000;
  }

  /** What is recognised is the bytes of one scalar value. */
  lemma RecognisedIsScalar(s: bytes)
    requires Utf8Length(s) > 0
    ensures IsScalar(FirstScalar(s)) && ScalarBytes(FirstScalar(s)) == s[..Utf8Length(s)]
  {
    match Utf8Length(s)
    case 1 =>
    case 2 => SixBits(s[0] as int - 0xc0, s[1] as int - 0x80);
    case 3 => ThreeBytes(s);
    case _ => FourBytes(s);
  }

  lemma SixBits(high: nat, low: nat)
    requires low < 0x40
    ensures (0x40 * high + low) / 0x40 == high && (0x40 * high + low) % 0x40 == low
  {
  }

  lemma ThreeBytes(s: bytes)
    requires Utf8Length(s) == 3
    ensures IsScalar(FirstScalar(s)) && ScalarBytes(FirstScalar(s)) == s[..3]
  {
    var x, y, z: int := s[0] as int - 0xe0, s[1] as int - 0x80, s[2] as int - 0x80;
    var c := FirstScalar(s);
    var q := 0x40 * x + y;
    assert c == 0x40 * q + z;
    SixBits(q, z);
    SixBits(x, y);
    assert c / 0x1000 == q / 0x40;
  }

  lemma FourBytes(s: bytes)
    requires Utf8Length(s) == 4
    ensures IsScalar(FirstScalar(s)) && ScalarBytes(FirstScalar(s)) == s[..4]
  {
    var w, x, y, z: int := s[0] as int - 0xf0, s[1] as int - 0x80, s[2] as int - 0x80, s[3] as int - 0x80;
    var c := FirstScalar(s);
    FourParts(w, x, y, z, c);
    assert 0x1_0000 <= c < 0x11_0000;
  }

  lemma FourParts(w: nat, x: nat, y: nat, z: nat, c: nat)
    requires x < 0x40 && y < 0x40 && z < 0x40 && c == 0x4_0000 * w + 0x1000 * x + 0x40 * y + z
    ensures c / 0x4_0000 == w && c / 0x1000 % 0x40 == x && c / 0x40 % 0x40 == y && c % 0x40 == z
  {
    var p := 0x40 * w + x;
    var q := 0x40 * p + y;
    assert c == 0x40 * q + z;
    SixBits(q, z);
    SixBits(p, y);
    SixBits(w, x);
    assert c / 0x1000 == p && c / 0x4_0000 == w;
  }

  lemma {:induction false} TextIsValid(cs: seq<Scalar>)
    ensures ValidUtf8(TextBytes(cs))
    decreases |cs|
  {
    if cs != [] {
      var first, rest := ScalarBytes(cs[0]), TextBytes(cs[1..]);
      ScalarRecognised(cs[0], rest);
      assert (first + rest)[|first|..] == rest;
      TextIsValid(cs[1..]);
    }
  }

  lemma {:induction false} ValidIsText(s: bytes) returns (cs: seq<Scalar>)
    requires ValidUtf8(s)
    ensures TextBytes(cs) == s
    decreases |s|
  {
    if s == [] {
      cs := [];
    } else {
      var n := Utf8Length(s);
      RecognisedIsScalar(s);
      var first: Scalar := FirstScalar(s);
      var rest := ValidIsText(s[n..]);
      cs := [first] + rest;
      assert cs[1..] == rest && s == s[..n] + s[n..];
    }
  }

  ghost predicate IsText(s: bytes) {
    exists cs :: TextBytes(cs) == s
  }

  /** The bytes the decoder takes for text are exactly those of the sequences of scalar values. */
  lemma ValidExactly(s: bytes)
    ensures ValidUtf8(s) <==> IsText(s)
  {
    if ValidUtf8(s) {
      var cs := ValidIsText(s);
    }
    forall cs | TextBytes(cs) == s ensures ValidUtf8(s) { TextIsValid(cs); }
  }

  /** Different texts have different bytes. */
  lemma {:induction false} TextInjective(a: seq<Scalar>, b: seq<Scalar>)
    requires TextBytes(a) == TextBytes(b)
    ensures a == b
    decreases |a|
  {
    TextNotEmpty(a);
    TextNotEmpty(b);
    if a != [] && b != [] {
      var x, y := ScalarBytes(a[0]), ScalarBytes(b[0]);
      var s, t := TextBytes(a[1..]), TextBytes(b[1..]);
      ScalarRecognised(a[0], s);
      ScalarRecognised(b[0], t);
      assert x + s == y + t;
      assert x == (x + s)[..|x|] && y == (y + t)[..|x|] && s == (x + s)[|x|..] && t == (y + t)[|x|..];
      assert a[0] == b[0];
      TextInjective(a[1..], b[1..]);
      assert a == [a[0]] + a[1..] && b == [b[0]] + b[1..];
    }
  }

  lemma TextNotEmpty(cs: seq<Scalar>)
    ensures cs != [] ==> |TextBytes(cs)| > 0
  {
  }

  // ---- Texts in CBOR ----

  /** Every text is read back, whatever follows it. */
  lemma TextRoundTrip(cs: seq<Scalar>, rest: bytes)
    requires |EncText(TextBytes(cs)) + rest| <= INT_MAX
    ensures Decode(EncText(TextBytes(cs)) + rest, 0) == Ok(Decoded(Text(TextBytes(cs)), |EncText(TextBytes(cs))|))
  {
    var s := TextBytes(cs);
    var d := EncText(s) + rest;
    TextIsValid(cs);
    assert d[..|EncText(s)|] == EncText(s);
    CborProofs.TextDecodes(s, d, 0);
  }

  /** A body that is no text is read as the empty string. */
  lemma OtherBodiesAreEmpty(body: bytes, rest: bytes)
    requires !IsText(body) && |EncText(body) + rest| <= INT_MAX
    ensures Decode(EncText(body) + rest, 0) == Ok(Decoded(Text([]), |EncText(body)|))
  {
    var d := EncText(body) + rest;
    ValidExactly(body);
    assert d[..|EncText(body)|] == EncText(body);
    var p := CborProofs.HeadDispatches(3, |body|, body, d, 0);
    CborProofs.BodyDecodes(3, body, d, p);
  }
}
