/** Octets, big-endian integers and the small vocabulary every other module uses. */
module Bytes {

  type byte = b: int | 0 <= b < 256
  type bytes = seq<byte>

  /** The largest value of Swift's 64-bit `Int`; arithmetic that passes it traps. */
  const INT_MAX: int := 0x7fff_ffff_ffff_ffff
  const TWO32: int := 0x1_0000_0000
  const TWO64: int := 0x1_0000_0000_0000_0000

  datatype Option<+T> = None | Some(value: T)

  /** An operation that can throw an error its caller handles, or trap and end the process. */
  datatype Result<+T> = Ok(value: T) | Thrown | Trap

  function Pow256(n: nat): (p: nat)
    ensures p > 0
  {
    if n == 0 then 1 else 256 * Pow256(n - 1)
  }

  lemma PowersOf256()
    ensures Pow256(0) == 1 && Pow256(1) == 0x100 && Pow256(2) == 0x1_0000
    ensures Pow256(4) == TWO32 && Pow256(8) == TWO64 && INT_MAX == TWO64 / 2 - 1
  {
    assert Pow256(3) == 0x100_0000;
    assert Pow256(5) == 0x100 * Pow256(4);
    assert Pow256(7) == 0x1_0000 * Pow256(5);
  }

  /** The low `width` bytes of `v`, most significant first. */
  function BigEndian(v: nat, width: nat): (s: bytes)
    ensures |s| == width
  {
    if width == 0 then [] else BigEndian(v / 256, width - 1) + [v % 256]
  }

  function FromBigEndian(s: bytes): (v: nat)
    ensures v < Pow256(|s|)
  {
    if s == [] then 0 else FromBigEndian(s[..|s| - 1]) * 256 + s[|s| - 1]
  }

  lemma {:induction false} BigEndianRoundTrip(v: nat, width: nat)
    requires v < Pow256(width)
    ensures FromBigEndian(BigEndian(v, width)) == v
  {
    if width > 0 {
      BigEndianRoundTrip(v / 256, width - 1);
      assert BigEndian(v, width)[..width - 1] == BigEndian(v / 256, width - 1);
    }
  }

  lemma {:induction false} FromBigEndianRoundTrip(s: bytes)
    ensures BigEndian(FromBigEndian(s), |s|) == s
  {
    if s != [] {
      FromBigEndianRoundTrip(s[..|s| - 1]);
      assert s == s[..|s| - 1] + [s[|s| - 1]];
    }
  }

  lemma BigEndian2(v: nat)
    ensures BigEndian(v, 2) == [v / 0x100 % 0x100, v % 0x100]
  {
    assert BigEndian(v / 256, 1) == BigEndian(v / 256 / 256, 0) + [v / 256 % 256];
  }

  lemma BigEndianSplit2(v: nat, a: nat)
    ensures BigEndian(v, a + 2) == BigEndian(v / 0x1_0000, a) + BigEndian(v, 2)
  {
    BigEndian2(v);
    assert BigEndian(v, a + 2) == BigEndian(v / 256, a + 1) + [v % 256];
    assert BigEndian(v / 256, a + 1) == BigEndian(v / 256 / 256, a) + [v / 256 % 256];
    assert v / 256 / 256 == v / 0x1_0000;
  }

  lemma BigEndianSplit4(v: nat, a: nat)
    ensures BigEndian(v, a + 4) == BigEndian(v / TWO32, a) + BigEndian(v, 4)
  {
    var high := v / 0x1_0000;
    assert high / 0x1_0000 == v / TWO32;
    BigEndianSplit2(v, a + 2);
    BigEndianSplit2(v, 2);
    BigEndianSplit2(high, a);
    var x, y, z := BigEndian(v / TWO32, a), BigEndian(high, 2), BigEndian(v, 2);
    assert (x + y) + z == x + (y + z);
  }

  /** The bytes a chain of right shifts produces, as the encoders write them. */
  lemma BigEndian4(v: nat)
    ensures BigEndian(v, 4) == [v / 0x100_0000 % 0x100, v / 0x1_0000 % 0x100, v / 0x100 % 0x100, v % 0x100]
  {
    var high := v / 0x1_0000;
    assert high / 0x100 == v / 0x100_0000;
    BigEndianSplit2(v, 2);
    BigEndian2(v);
    BigEndian2(high);
  }

  lemma FromBigEndianUnrolled(s: bytes)
    ensures |s| == 1 ==> FromBigEndian(s) == s[0]
    ensures |s| == 2 ==> FromBigEndian(s) == 0x100 * (s[0] as int) + s[1]
    ensures |s| == 4 ==>
              FromBigEndian(s) == 0x100_0000 * (s[0] as int) + 0x1_0000 * (s[1] as int) + 0x100 * (s[2] as int) + s[3]
  {
    if |s| == 4 {
      assert s[..3][..2] == s[..2] && s[..2][..1] == s[..1] && s[..1][..0] == [];
    } else if |s| == 2 {
      assert s[..1][..0] == [];
    }
  }

  /** The number in two pieces: bytes further left weigh 256 times more each. */
  lemma {:induction false} FromBigEndianAppend(a: bytes, b: bytes)
    ensures FromBigEndian(a + b) == FromBigEndian(a) * Pow256(|b|) + FromBigEndian(b)
    decreases |b|
  {
    if b == [] {
      assert a + b == a;
    } else {
      var last := |b| - 1;
      assert (a + b)[..|a + b| - 1] == a + b[..last];
      FromBigEndianAppend(a, b[..last]);
      Distributed(FromBigEndian(a), Pow256(last), FromBigEndian(b[..last]));
    }
  }

  lemma Distributed(x: nat, p: nat, y: nat)
    ensures (x * p + y) * 256 == x * (256 * p) + y * 256
  {
  }

  /** The UTF-8 bytes of an ASCII literal. */
  function Ascii(s: string): (b: bytes)
    requires forall i :: 0 <= i < |s| ==> s[i] < 128 as char
    ensures |b| == |s| && forall i :: 0 <= i < |s| ==> b[i] == s[i] as int
  {
    seq(|s|, i requires 0 <= i < |s| => s[i] as int)
  }

  /** `d` has `e` at offset `o`. */
  ghost predicate Has(d: bytes, o: nat, e: bytes) {
    o + |e| <= |d| && d[o..o + |e|] == e
  }

  lemma HasSplit(d: bytes, o: nat, a: bytes, b: bytes)
    requires Has(d, o, a + b)
    ensures Has(d, o, a) && Has(d, o + |a|, b)
  {
    var e := d[o..o + |a + b|];
    assert e[..|a|] == a && e[|a|..] == b;
    assert d[o..o + |a|] == e[..|a|];
    assert d[o + |a|..o + |a| + |b|] == e[|a|..];
  }

  lemma Reassociate(a: bytes, b: bytes, c: bytes)
    ensures a + b + c == a + (b + c)
  {
  }
}
