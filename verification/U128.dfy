/** `parseU128Halves` of ios/ZhtpClient.swift: a decimal string to the two 64-bit halves of a u128. */
module U128 {
  import opened Bytes

  datatype Halves = Halves(lo: nat, hi: nat)

  predicate IsDigit(d: Option<int>) {
    d.Some? && 0 <= d.value <= 9
  }

  predicate AllDigits<C>(s: seq<C>, wholeNumberValue: C -> Option<int>) {
    forall i :: 0 <= i < |s| ==> IsDigit(wholeNumberValue(s[i]))
  }

  /** The number a string of digits denotes, most significant digit first. */
  function Decimal<C>(s: seq<C>, wholeNumberValue: C -> Option<int>): nat
    requires AllDigits(s, wholeNumberValue)
  {
    if s == [] then 0 else 10 * Decimal(s[..|s| - 1], wholeNumberValue) + wholeNumberValue(s[|s| - 1]).value
  }

  /** More digits never make the number smaller: an overflow seen early stays one. */
  lemma {:induction false} DecimalGrows<C>(s: seq<C>, wholeNumberValue: C -> Option<int>, k: nat)
    requires k <= |s| && AllDigits(s, wholeNumberValue)
    ensures Decimal(s[..k], wholeNumberValue) <= Decimal(s, wholeNumberValue)
    decreases |s|
  {
    if k < |s| {
      DecimalGrows(s[..|s| - 1], wholeNumberValue, k);
      assert s[..|s| - 1][..k] == s[..k];
    } else {
      assert s[..k] == s;
    }
  }

  /** The strings that have a value below 2^128. */
  predicate Representable<C>(s: seq<C>, wholeNumberValue: C -> Option<int>) {
    s != [] && AllDigits(s, wholeNumberValue) && Decimal(s, wholeNumberValue) < TWO64 * TWO64
  }

  /** Swift's `multipliedFullWidth(by: 10)`. */
  function TimesTen(x: nat): (r: (nat, nat))
    requires x < TWO64
    ensures r.0 * TWO64 + r.1 == 10 * x && r.1 < TWO64 && r.0 < 10
  {
    (10 * x / TWO64, 10 * x % TWO64)
  }

  /** Swift's `addingReportingOverflow`. */
  function AddReporting(x: nat, y: nat): (r: (nat, bool))
    requires x < TWO64 && y < TWO64
    ensures r.0 < TWO64 && x + y == r.0 + (if r.1 then TWO64 else 0)
  {
    ((x + y) % TWO64, x + y >= TWO64)
  }

  /** The result is there exactly for the non-empty digit strings whose value is below 2^128, and it is that
    value. `wholeNumberValue` is Swift's property of a character; it has a value for more than ASCII digits. */
  method ParseU128Halves<C(!new)>(s: seq<C>, wholeNumberValue: C -> Option<int>) returns (r: Option<Halves>)
    ensures r.Some? <==> Representable(s, wholeNumberValue)
    ensures r.Some? ==> s != [] && forall i :: 0 <= i < |s| ==>
              wholeNumberValue(s[i]).Some? && 0 <= wholeNumberValue(s[i]).value <= 9
    ensures r.Some? ==> r.value.lo < TWO64 && r.value.hi < TWO64
                        && r.value.hi * TWO64 + r.value.lo == Decimal(s, wholeNumberValue)
  {
    if s == [] { return None; }
    var hi: nat, lo: nat := 0, 0;
    for i := 0 to |s|
      invariant hi < TWO64 && lo < TWO64 && AllDigits(s[..i], wholeNumberValue)
      invariant hi * TWO64 + lo == Decimal(s[..i], wholeNumberValue)
    {
      var d := wholeNumberValue(s[i]);
      if !IsDigit(d) { return None; }
      assert s[..i + 1][..i] == s[..i];
      ghost var next := Decimal(s[..i + 1], wholeNumberValue);
      if AllDigits(s, wholeNumberValue) {
        DecimalGrows(s, wholeNumberValue, i + 1);
      }
      var (loMulHi, loMulLo) := TimesTen(lo);
      var (addedLo, addOv) := AddReporting(loMulLo, d.value);
      var carryFromAdd := if addOv then 1 else 0;
      var (hiMulHi, hiMulLo) := TimesTen(hi);
      ghost var high := hiMulHi * TWO64 + hiMulLo + loMulHi + carryFromAdd;
      assert next == high * TWO64 + addedLo;
      if hiMulHi != 0 { return None; }
      var (hiSum1, hiOv1) := AddReporting(hiMulLo, loMulHi);
      if hiOv1 { return None; }
      var (hiSum2, hiOv2) := AddReporting(hiSum1, carryFromAdd);
      if hiOv2 { return None; }
      lo := addedLo;
      hi := hiSum2;
    }
    assert s[..|s|] == s;
    r := Some(Halves(lo, hi));
  }

  /** The comment in the source promises nil for input that is not digits; what counts is the property, so any other
    character it gives 0 to 9 is taken for a digit. */
  lemma OtherDigitsAccepted(c: char, wholeNumberValue: char -> Option<int>)
    requires !('0' <= c <= '9') && IsDigit(wholeNumberValue(c))
    ensures Representable([c], wholeNumberValue) && Decimal([c], wholeNumberValue) == wholeNumberValue(c).value
  {
    assert [c][..0] == [];
  }

  /** A number in decimal digits, without leading zeros. */
  function Digits(v: nat): (ds: seq<nat>)
    ensures ds != []
  {
    if v < 10 then [v] else Digits(v / 10) + [v % 10]
  }

  ghost predicate Spells<C(!new)>(s: seq<C>, wholeNumberValue: C -> Option<int>, ds: seq<nat>) {
    |s| == |ds| && forall i :: 0 <= i < |s| ==> wholeNumberValue(s[i]) == Some(ds[i])
  }

  lemma {:induction false} DigitsRead<C(!new)>(v: nat, s: seq<C>, wholeNumberValue: C -> Option<int>)
    requires Spells(s, wholeNumberValue, Digits(v))
    ensures AllDigits(s, wholeNumberValue) && Decimal(s, wholeNumberValue) == v
    decreases v
  {
    if v < 10 {
      assert s[..0] == [];
    } else {
      var last := |s| - 1;
      assert Digits(v)[..last] == Digits(v / 10);
      assert forall i :: 0 <= i < last ==> Digits(v)[i] == Digits(v / 10)[i];
      DigitsRead(v / 10, s[..last], wholeNumberValue);
      assert wholeNumberValue(s[last]) == Some(v % 10);
    }
  }

  /** A number written in decimal digits is parsed, and as that number, if and only if it is below 2^128. */
  lemma WrittenNumbersParse<C(!new)>(v: nat, s: seq<C>, wholeNumberValue: C -> Option<int>)
    requires Spells(s, wholeNumberValue, Digits(v))
    ensures Representable(s, wholeNumberValue) <==> v < 0x1_0000_0000_0000_0000_0000_0000_0000_0000
    ensures AllDigits(s, wholeNumberValue) && Decimal(s, wholeNumberValue) == v
  {
    DigitsRead(v, s, wholeNumberValue);
  }

  /** A string with anything in it that has no value from 0 to 9 is not parsed. */
  lemma OthersAreRefused<C(!new)>(s: seq<C>, wholeNumberValue: C -> Option<int>, i: nat)
    requires i < |s|
    requires wholeNumberValue(s[i]).None? || wholeNumberValue(s[i]).value < 0 || wholeNumberValue(s[i]).value > 9
    ensures !Representable(s, wholeNumberValue)
  {
    assert !IsDigit(wholeNumberValue(s[i]));
  }
}
