/** When the decoder of ios/ZhtpCodec.swift ends the process: `Int(_:)`, `Int64(_:)` and the sum of an offset and a
  length trap where they overflow. */
module CborTraps {
  import opened Bytes
  import opened Cbor

  /** The head at `q` announces an argument of 2^63 or more, or a string that would end past the largest `Int`. */
  predicate Huge(d: bytes, q: nat) {
    && q < |d| && 1 <= d[q] / 32 <= 5
    && var argument := DecodeUInt(d[q] % 32, d, q + 1);
    && argument.Ok?
    && (argument.value.value > INT_MAX
        || (2 <= d[q] / 32 <= 3 && argument.value.next + argument.value.value > INT_MAX))
  }

  /** Decoding the item at `o` comes to the head at `q`. */
  predicate Visits(d: bytes, o: nat, q: nat)
    decreases |d| - o, 1
  {
    q == o || (o < |d| && VisitsInside(d, o, q))
  }

  /** ... inside the array or map at `o`; a map is twice as many items as it has pairs. */
  predicate VisitsInside(d: bytes, o: nat, q: nat)
    requires o < |d|
    decreases |d| - o, 0
  {
    && 4 <= d[o] / 32 <= 5
    && var argument := DecodeUInt(d[o] % 32, d, o + 1);
    && argument.Ok? && argument.value.value <= INT_MAX
    && VisitsAmong(d, argument.value.next, (if d[o] / 32 == 4 then 1 else 2) * argument.value.value, q)
  }

  predicate VisitsAmong(d: bytes, o: nat, n: nat, q: nat)
    decreases |d| - o, 2, n
  {
    && n > 0 && o <= |d|
    && (Visits(d, o, q) || (Decode(d, o).Ok? && VisitsAmong(d, Decode(d, o).value.next, n - 1, q)))
  }

  ghost predicate MeetsHuge(d: bytes, o: nat) {
    exists q: nat :: Visits(d, o, q) && Huge(d, q)
  }

  ghost predicate MeetsHugeAmong(d: bytes, o: nat, n: nat) {
    exists q: nat :: VisitsAmong(d, o, n, q) && Huge(d, q)
  }

  lemma AmongStep(d: bytes, o: nat, n: nat)
    requires o <= |d| && n > 0
    ensures MeetsHugeAmong(d, o, n) <==>
            MeetsHuge(d, o) || (Decode(d, o).Ok? && MeetsHugeAmong(d, Decode(d, o).value.next, n - 1))
  {
    if MeetsHuge(d, o) {
      var q: nat :| Visits(d, o, q) && Huge(d, q);
      assert VisitsAmong(d, o, n, q);
    }
    if Decode(d, o).Ok? && MeetsHugeAmong(d, Decode(d, o).value.next, n - 1) {
      var q: nat :| VisitsAmong(d, Decode(d, o).value.next, n - 1, q) && Huge(d, q);
      assert VisitsAmong(d, o, n, q);
    }
  }

  /** The decoder traps if and only if it comes to such a head. */
  lemma {:induction false} TrapsExactly(d: bytes, o: nat)
    requires o <= |d|
    ensures Decode(d, o) == Trap <==> MeetsHuge(d, o)
    decreases |d| - o, 0
  {
    if o < |d| && 4 <= d[o] / 32 <= 5 && DecodeUInt(d[o] % 32, d, o + 1).Ok? {
      ContainerTraps(d, o);
    } else {
      LeafTraps(d, o);
    }
  }

  lemma LeafTraps(d: bytes, o: nat)
    requires o <= |d| && !(o < |d| && 4 <= d[o] / 32 <= 5 && DecodeUInt(d[o] % 32, d, o + 1).Ok?)
    ensures Decode(d, o) == Trap <==> MeetsHuge(d, o)
  {
    assert Visits(d, o, o);
    assert forall q: nat :: Visits(d, o, q) ==> q == o;
    if o < |d| && d[o] / 32 <= 3 && DecodeUInt(d[o] % 32, d, o + 1).Ok? {
      var Argument(n, p) := DecodeUInt(d[o] % 32, d, o + 1).value;
      assert Decode(d, o) == DecodeBody(d[o] / 32, n, d, p);
      BodyTraps(d[o] / 32, n, d, p);
    } else {
      HeadFails(d, o);
    }
  }

  lemma BodyTraps(major: nat, n: nat, d: bytes, p: nat)
    requires p <= |d| && major <= 3
    ensures DecodeBody(major, n, d, p) == Trap <==> major >= 1 && (n > INT_MAX || (major >= 2 && p + n > INT_MAX))
  {
  }

  lemma HeadFails(d: bytes, o: nat)
    requires o <= |d| && (o < |d| && d[o] / 32 <= 5 ==> !DecodeUInt(d[o] % 32, d, o + 1).Ok?)
    ensures Decode(d, o) != Trap && !Huge(d, o)
  {
  }

  lemma {:induction false} ContainerTraps(d: bytes, o: nat)
    requires o < |d| && 4 <= d[o] / 32 <= 5 && DecodeUInt(d[o] % 32, d, o + 1).Ok?
    ensures Decode(d, o) == Trap <==> MeetsHuge(d, o)
    decreases |d| - o - 1, 4
  {
    var Argument(n, p) := DecodeUInt(d[o] % 32, d, o + 1).value;
    InsideMeets(d, o, n, p);
    if n <= INT_MAX {
      if d[o] / 32 == 4 { ItemsTrap(d, p, n, []); } else { PairsTrap(d, p, n, []); }
    }
  }

  lemma InsideMeets(d: bytes, o: nat, n: nat, p: nat)
    requires o < |d| && 4 <= d[o] / 32 <= 5 && DecodeUInt(d[o] % 32, d, o + 1) == Ok(Argument(n, p))
    ensures MeetsHuge(d, o) <==>
            n > INT_MAX || MeetsHugeAmong(d, p, (if d[o] / 32 == 4 then 1 else 2) * n)
  {
    assert Visits(d, o, o) && (Huge(d, o) <==> n > INT_MAX);
    if MeetsHuge(d, o) && !Huge(d, o) {
      var q: nat :| Visits(d, o, q) && Huge(d, q);
      assert VisitsInside(d, o, q);
      assert VisitsAmong(d, p, (if d[o] / 32 == 4 then 1 else 2) * n, q);
    }
    if n <= INT_MAX && MeetsHugeAmong(d, p, (if d[o] / 32 == 4 then 1 else 2) * n) {
      var q: nat :| VisitsAmong(d, p, (if d[o] / 32 == 4 then 1 else 2) * n, q) && Huge(d, q);
      assert Visits(d, o, q);
    }
  }

  lemma {:induction false} ItemsTrap(d: bytes, o: nat, n: nat, acc: seq<Value>)
    requires o <= |d|
    ensures DecodeItems(d, o, n, acc) == Trap <==> MeetsHugeAmong(d, o, n)
    decreases |d| - o, 3
  {
    if n > 0 {
      AmongStep(d, o, n);
      TrapsExactly(d, o);
      if Decode(d, o).Ok? {
        ItemsTrap(d, Decode(d, o).value.next, n - 1, acc + [Decode(d, o).value.value]);
      }
    }
  }

  lemma {:induction false} PairsTrap(d: bytes, o: nat, n: nat, acc: seq<Entry>)
    requires o <= |d|
    ensures DecodePairs(d, o, n, acc) == Trap <==> MeetsHugeAmong(d, o, 2 * n)
    decreases |d| - o, 3
  {
    if n > 0 {
      AmongStep(d, o, 2 * n);
      TrapsExactly(d, o);
      if Decode(d, o).Ok? {
        var Decoded(key, p) := Decode(d, o).value;
        AmongStep(d, p, 2 * n - 1);
        TrapsExactly(d, p);
        if Decode(d, p).Ok? {
          var Decoded(value, q) := Decode(d, p).value;
          PairsTrap(d, q, n - 1, if key.Text? then Put(acc, key.utf8, value) else acc);
        }
      }
    }
  }
}
