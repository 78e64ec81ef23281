/** The properties of trees that the codec is stated with, read off the items a tree holds at any depth. */
module CborTrees {
  import opened Bytes
  import opened Cbor
  import opened ZhtpCodec

  /** The item a path of indices leads to. */
  function At(v: Value, path: seq<nat>): Option<Value>
    decreases |path|
  {
    if path == [] then Some(v)
    else
      match v
      case Array(items) => if path[0] < |items| then At(items[path[0]], path[1..]) else None
      case Dict(entries) => if path[0] < |entries| then At(entries[path[0]].value, path[1..]) else None
      case _ => None
  }

  function Children(v: Value): seq<Value> {
    match v
    case Array(items) => items
    case Dict(entries) => seq(|entries|, i requires 0 <= i < |entries| => entries[i].value)
    case _ => []
  }

  lemma AtChild(v: Value, i: nat, path: seq<nat>)
    requires i < |Children(v)|
    ensures At(v, [i] + path) == At(Children(v)[i], path) && Children(v)[i] < v
  {
    assert ([i] + path)[1..] == path;
  }

  lemma AtParts(v: Value, path: seq<nat>)
    requires path != [] && At(v, path).Some?
    ensures path[0] < |Children(v)| && At(v, path) == At(Children(v)[path[0]], path[1..]) && Children(v)[path[0]] < v
  {
  }

  ghost predicate Somewhere(v: Value, holds: Value -> bool) {
    exists path :: At(v, path).Some? && holds(At(v, path).value)
  }

  lemma SomewhereSteps(v: Value, holds: Value -> bool)
    ensures Somewhere(v, holds) <==> holds(v) || exists i :: 0 <= i < |Children(v)| && Somewhere(Children(v)[i], holds)
  {
    if holds(v) {
      assert At(v, []) == Some(v);
    }
    forall i | 0 <= i < |Children(v)| && Somewhere(Children(v)[i], holds) ensures Somewhere(v, holds) {
      var path :| At(Children(v)[i], path).Some? && holds(At(Children(v)[i], path).value);
      AtChild(v, i, path);
    }
    if Somewhere(v, holds) && !holds(v) {
      var path :| At(v, path).Some? && holds(At(v, path).value);
      AtParts(v, path);
      assert Somewhere(Children(v)[path[0]], holds);
    }
  }

  predicate IsBytes(u: Value) { u.ByteString? }

  predicate IsSimple(u: Value) { u.Null? || u.Bool? }

  predicate IsLarge(u: Value) { u.Integer? && u.n >= 0x8000_0000_0000_0000 }

  lemma HasDataSteps(v: Value)
    ensures HasData(v) <==> IsBytes(v) || exists i :: 0 <= i < |Children(v)| && HasData(Children(v)[i])
  {
    match v
    case Array(items) =>
      assert Children(v) == items;
      assert HasData(v) <==> exists i :: 0 <= i < |items| && HasData(items[i]);
      if HasData(v) {
        var i :| 0 <= i < |items| && HasData(items[i]);
        assert HasData(Children(v)[i]);
      }
    case Dict(entries) =>
      assert HasData(v) <==> exists i :: 0 <= i < |entries| && HasData(entries[i].value);
      forall i | 0 <= i < |entries| ensures HasData(Children(v)[i]) == HasData(entries[i].value) {}
      if HasData(v) {
        var i :| 0 <= i < |entries| && HasData(entries[i].value);
        assert HasData(Children(v)[i]);
      }
    case _ =>
  }

  /** The encoder meets bytes exactly where some item of the tree is a byte string. */
  lemma {:induction false} HasDataExactly(v: Value)
    ensures HasData(v) <==> Somewhere(v, IsBytes)
    decreases v
  {
    SomewhereSteps(v, IsBytes);
    forall i | 0 <= i < |Children(v)| ensures HasData(Children(v)[i]) <==> Somewhere(Children(v)[i], IsBytes) {
      AtChild(v, i, []);
      HasDataExactly(Children(v)[i]);
    }
    HasDataSteps(v);
  }

  lemma NoSimpleSteps(v: Value)
    ensures NoSimple(v) <==> !IsSimple(v) && forall i :: 0 <= i < |Children(v)| ==> NoSimple(Children(v)[i])
  {
    match v
    case Array(items) =>
      assert Children(v) == items;
      forall i | 0 <= i < |items| && NoSimple(v) ensures NoSimple(Children(v)[i]) { assert NoSimple(items[i]); }
      forall i | 0 <= i < |items| && NoSimple(Children(v)[i]) ensures NoSimple(items[i]) {}
    case Dict(entries) =>
      forall i | 0 <= i < |entries| && NoSimple(v) ensures NoSimple(Children(v)[i]) { assert NoSimple(entries[i].value); }
      forall i | 0 <= i < |entries| && NoSimple(Children(v)[i]) ensures NoSimple(entries[i].value) {}
    case _ =>
  }

  /** A tree is free of simple values exactly where no item of it is null, true or false. */
  lemma {:induction false} NoSimpleExactly(v: Value)
    ensures NoSimple(v) <==> !Somewhere(v, IsSimple)
    decreases v
  {
    SomewhereSteps(v, IsSimple);
    forall i | 0 <= i < |Children(v)| ensures NoSimple(Children(v)[i]) <==> !Somewhere(Children(v)[i], IsSimple) {
      AtChild(v, i, []);
      NoSimpleExactly(Children(v)[i]);
    }
    NoSimpleSteps(v);
  }

  lemma NoneLargeSteps(v: Value)
    ensures NoneLarge(v) <==> !IsLarge(v) && forall i :: 0 <= i < |Children(v)| ==> NoneLarge(Children(v)[i])
  {
    match v
    case Array(items) =>
      assert Children(v) == items;
      forall i | 0 <= i < |items| && NoneLarge(v) ensures NoneLarge(Children(v)[i]) { assert NoneLarge(items[i]); }
      forall i | 0 <= i < |items| && NoneLarge(Children(v)[i]) ensures NoneLarge(items[i]) {}
    case Dict(entries) =>
      forall i | 0 <= i < |entries| && NoneLarge(v) ensures NoneLarge(Children(v)[i]) { assert NoneLarge(entries[i].value); }
      forall i | 0 <= i < |entries| && NoneLarge(Children(v)[i]) ensures NoneLarge(entries[i].value) {}
    case _ =>
  }

  /** ... and of large numbers where none is an integer of 2^63 or more. */
  lemma {:induction false} NoneLargeExactly(v: Value)
    ensures NoneLarge(v) <==> !Somewhere(v, IsLarge)
    decreases v
  {
    SomewhereSteps(v, IsLarge);
    forall i | 0 <= i < |Children(v)|
      ensures NoneLarge(Children(v)[i])
              <==> !Somewhere(Children(v)[i], IsLarge)
    {
      AtChild(v, i, []);
      NoneLargeExactly(Children(v)[i]);
    }
    NoneLargeSteps(v);
  }

  /** What one item of a tree can be for Swift to hold it: a 64-bit integer, signed or not; counts and lengths an `Int` can hold;
    texts and keys that are UTF-8; keys that differ. */
  predicate Holdable(u: Value) {
    match u
    case Integer(n) => -0x8000_0000_0000_0000 <= n < 0x1_0000_0000_0000_0000
    case ByteString(data) => |data| < 0x8000_0000_0000_0000
    case Text(utf8) => |utf8| < 0x8000_0000_0000_0000 && ValidUtf8(utf8)
    case Array(items) => |items| < 0x8000_0000_0000_0000
    case Dict(entries) =>
      && |entries| < 0x8000_0000_0000_0000
      && (forall i, j :: 0 <= i < j < |entries| ==> entries[i].key != entries[j].key)
      && forall i :: 0 <= i < |entries| ==> |entries[i].key| < 0x8000_0000_0000_0000 && ValidUtf8(entries[i].key)
    case Double(bits) => bits < 0x1_0000_0000_0000_0000
    case _ => true
  }

  predicate Unholdable(u: Value) { !Holdable(u) }

  lemma FitsSteps(v: Value)
    ensures Fits(v) <==> !Unholdable(v) && forall i :: 0 <= i < |Children(v)| ==> Fits(Children(v)[i])
  {
    match v
    case Array(items) =>
      assert Children(v) == items;
      forall i | 0 <= i < |items| && Fits(v) ensures Fits(Children(v)[i]) { assert Fits(items[i]); }
      forall i | 0 <= i < |items| && Fits(Children(v)[i]) ensures Fits(items[i]) {}
    case Dict(entries) =>
      forall i | 0 <= i < |entries| && Fits(v) ensures Fits(Children(v)[i]) { assert Fits(entries[i].value); }
      forall i | 0 <= i < |entries| && Fits(Children(v)[i]) ensures Fits(entries[i].value) {}
    case _ =>
  }

  /** The trees of the round trip are all the trees whose items Swift can hold. */
  lemma {:induction false} FitsExactly(v: Value)
    ensures Fits(v) <==> !Somewhere(v, Unholdable)
    decreases v
  {
    SomewhereSteps(v, Unholdable);
    forall i | 0 <= i < |Children(v)| ensures Fits(Children(v)[i]) <==> !Somewhere(Children(v)[i], Unholdable) {
      AtChild(v, i, []);
      FitsExactly(Children(v)[i]);
    }
    FitsSteps(v);
  }

  /** An item as it comes back from the decoder: null, false and true come back as true, null and false. */
  function Back(u: Value): Value {
    match u
    case Null => Bool(true)
    case Bool(b) => if b then Bool(false) else Null
    case _ => u
  }

  predicate Leaf(u: Value) {
    !u.Array? && !u.Dict?
  }

  /** The tree that comes back has the same shape and keys, and each of its leaves is the one that was sent, so changed. */
  lemma {:induction false} RotatedAt(v: Value, path: seq<nat>)
    ensures At(v, path).None? <==> At(Rotated(v), path).None?
    ensures At(v, path).Some? && Leaf(At(v, path).value) ==> At(Rotated(v), path) == Some(Back(At(v, path).value))
    ensures At(v, path).Some? ==> SameShape(At(v, path).value, At(Rotated(v), path).value)
    decreases |path|
  {
    if path != [] {
      match v
      case Array(items) => if path[0] < |items| { RotatedAt(items[path[0]], path[1..]); }
      case Dict(entries) => if path[0] < |entries| { RotatedAt(entries[path[0]].value, path[1..]); }
      case _ =>
    }
  }

  predicate SameShape(u: Value, t: Value) {
    && (u.Array? <==> t.Array?) && (u.Dict? <==> t.Dict?)
    && (u.Array? && t.Array? ==> |u.items| == |t.items|)
    && (u.Dict? && t.Dict? ==> |u.entries| == |t.entries| && forall i :: 0 <= i < |u.entries| ==> u.entries[i].key == t.entries[i].key)
  }

  /** The tree that is written has the same shape and keys, and each of its leaves is the one given, or for an integer of 2^63
    or more the double nearest to it. */
  lemma {:induction false} WrittenAt(v: Value, nearest: nat -> nat, path: seq<nat>)
    ensures At(v, path).None? <==> At(Written(v, nearest), path).None?
    ensures At(v, path).Some? && Leaf(At(v, path).value) ==>
              var u := At(v, path).value;
              At(Written(v, nearest), path)
              == Some(if u.Integer? && u.n >= 0x8000_0000_0000_0000 then Double(nearest(u.n)) else u)
    ensures At(v, path).Some? ==> SameShape(At(v, path).value, At(Written(v, nearest), path).value)
    decreases |path|
  {
    if path != [] {
      match v
      case Array(items) => if path[0] < |items| { WrittenAt(items[path[0]], nearest, path[1..]); }
      case Dict(entries) => if path[0] < |entries| { WrittenAt(entries[path[0]].value, nearest, path[1..]); }
      case _ =>
    }
  }
}
