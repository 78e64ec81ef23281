/** What every interleaving of start, finish and cancel calls keeps. */
module LobbyAuthProofs {
  import opened Bytes
  import opened LobbyAuth

  /** The places a handle can be at. */
  datatype Place = InStore(key: Key) | HeldBy(call: nat) | PassedAs(index: nat)

  ghost predicate At(s: System, h: Handle, p: Place) {
    match p
    case InStore(key) => key in s.store && s.store[key] == h
    case HeldBy(c) => c < |s.calls| && s.calls[c].phase == Holding(h)
    case PassedAs(i) => i < |s.passed| && s.passed[i].handle == h
  }

  ghost predicate SomewhereOnce(s: System) {
    && (forall h :: h in s.made ==> exists p :: At(s, h, p))
    && (forall h, p :: At(s, h, p) ==> h in s.made)
    && (forall h, p, q :: At(s, h, p) && At(s, h, q) ==> p == q)
  }

  /** Where the handle at `p` is after the action. */
  function Follow(s: System, a: Action, p: Place): Place
    requires Enabled(s, a)
  {
    match a
    case Add(c, id) => if p == HeldBy(c) then InStore(Key(s.calls[c].kind, id)) else p
    case Take(c) => if p == InStore(s.calls[c].key) then HeldBy(c) else p
    case Pass(c) => if p == HeldBy(c) then PassedAs(|s.passed|) else p
    case _ => p
  }

  ghost predicate KeysOk(s: System) {
    && (forall key :: key in s.store ==> key in s.issued)
    && (forall key :: key in s.store ==> s.store[key] in s.made && s.made[s.store[key]] == key.kind)
    && (forall c :: 0 <= c < |s.calls| ==> CallOk(s, s.calls[c]))
  }

  ghost predicate CallOk(s: System, call: Call) {
    && (call.phase.Holding? ==>
          var h := call.phase.handle;
          h in s.made && s.made[h] == if call.Starting? then call.kind else call.key.kind)
    && (call.Using? && Took(call) ==> call.key in s.issued && call.key !in s.store)
  }

  predicate Took(call: Call) {
    call.phase.Holding? || (call.phase.Over? && call.phase.got.Some?)
  }

  ghost predicate OneTaker(s: System) {
    forall c, d :: 0 <= c < d < |s.calls| && s.calls[c].Using? && s.calls[d].Using? && Took(s.calls[c]) && Took(s.calls[d])
      ==> s.calls[c].key != s.calls[d].key
  }

  /** The log agrees with the calls: one entry a call that took and passed on its handle. */
  ghost predicate LogOk(s: System) {
    && (forall i :: 0 <= i < |s.passed| ==>
          var p := s.passed[i];
          && p.call < |s.calls| && s.calls[p.call].Using?
          && s.calls[p.call].use == p.use && s.calls[p.call].key.kind == p.kind
          && s.calls[p.call].phase == Over(Some(p.handle))
          && p.handle in s.made && s.made[p.handle] == p.kind)
    && (forall i, j :: 0 <= i < j < |s.passed| ==> s.passed[i].call != s.passed[j].call)
  }

  lemma FollowAt(s: System, a: Action, h: Handle, p: Place)
    requires Enabled(s, a) && KeysOk(s) && At(s, h, p)
    ensures At(Next(s, a), h, Follow(s, a, p))
  {
  }

  /** Nothing is at a place after the action but what came from one before, or was just allocated. */
  lemma CameFrom(s: System, a: Action, h: Handle, q: Place) returns (p: Place)
    requires Enabled(s, a) && KeysOk(s) && At(Next(s, a), h, q)
    ensures (At(s, h, p) && Follow(s, a, p) == q) || (a.Start? && a.h == h && q == HeldBy(|s.calls|))
  {
    p := q;
    if a.Add? && q == InStore(Key(s.calls[a.c].kind, a.id)) {
      p := HeldBy(a.c);
    } else if a.Take? && q == HeldBy(a.c) {
      p := InStore(s.calls[a.c].key);
    } else if a.Pass? && q == PassedAs(|s.passed|) {
      p := HeldBy(a.c);
    }
  }

  lemma PlacesStep(s: System, a: Action)
    requires Enabled(s, a) && KeysOk(s) && SomewhereOnce(s)
    ensures SomewhereOnce(Next(s, a))
  {
    var t := Next(s, a);
    forall h | h in t.made ensures exists p :: At(t, h, p) {
      if h in s.made {
        var p :| At(s, h, p);
        FollowAt(s, a, h, p);
      } else {
        assert At(t, h, HeldBy(|s.calls|));
      }
    }
    forall h, p | At(t, h, p) ensures h in t.made {
      var b := CameFrom(s, a, h, p);
    }
    forall h, p, q | At(t, h, p) && At(t, h, q) ensures p == q {
      var b := CameFrom(s, a, h, p);
      var c := CameFrom(s, a, h, q);
    }
  }

  lemma KeysStep(s: System, a: Action)
    requires Enabled(s, a) && KeysOk(s)
    ensures KeysOk(Next(s, a))
  {
    var t := Next(s, a);
    forall c | 0 <= c < |t.calls| ensures CallOk(t, t.calls[c]) {
      if c < |s.calls| {
        assert CallOk(s, s.calls[c]);
      }
    }
    forall key | key in t.store ensures key in t.issued && t.store[key] in t.made && t.made[t.store[key]] == key.kind {
      if a.Add? {
        assert CallOk(s, s.calls[a.c]);
      }
    }
  }

  lemma TakersStep(s: System, a: Action)
    requires Enabled(s, a) && KeysOk(s) && OneTaker(s)
    ensures OneTaker(Next(s, a))
  {
    var t := Next(s, a);
    forall c, d | 0 <= c < d < |t.calls| && t.calls[c].Using? && t.calls[d].Using? && Took(t.calls[c]) && Took(t.calls[d])
      ensures t.calls[c].key != t.calls[d].key
    {
      assert CallOk(s, s.calls[c]) && CallOk(s, s.calls[d]);
    }
  }

  lemma LogStep(s: System, a: Action)
    requires Enabled(s, a) && KeysOk(s) && LogOk(s)
    ensures LogOk(Next(s, a))
  {
    if a.Pass? {
      assert CallOk(s, s.calls[a.c]);
    }
  }

  lemma {:induction false} Reachable(acts: seq<Action>)
    requires Exec(acts).Some?
    ensures SomewhereOnce(Exec(acts).value) && KeysOk(Exec(acts).value)
    ensures OneTaker(Exec(acts).value) && LogOk(Exec(acts).value)
  {
    if acts != [] {
      var a := acts[|acts| - 1];
      Reachable(acts[..|acts| - 1]);
      var s := Exec(acts[..|acts| - 1]).value;
      PlacesStep(s, a);
      KeysStep(s, a);
      TakersStep(s, a);
      LogStep(s, a);
    }
  }

  /** In every run each allocated handle is at exactly one place: stored under one key, held by one call, or passed
    once to the FFI. */
  lemma HandlesConserved(acts: seq<Action>, h: Handle)
    requires Exec(acts).Some? && h in Exec(acts).value.made
    ensures exists p :: At(Exec(acts).value, h, p) && forall q :: At(Exec(acts).value, h, q) ==> q == p
  {
    Reachable(acts);
    var p :| At(Exec(acts).value, h, p);
  }

  /** No handle reaches the FFI twice, be it to finish or to free; each arrives through the one call that took it, at
    the function of the kind it was allocated by. */
  lemma PassedAtMostOnce(acts: seq<Action>, i: nat, j: nat)
    requires Exec(acts).Some? && i < |Exec(acts).value.passed| && j < |Exec(acts).value.passed|
    requires Exec(acts).value.passed[i].handle == Exec(acts).value.passed[j].handle
    ensures i == j
    ensures var s := Exec(acts).value;
            var p := s.passed[i];
            && p.handle in s.made && s.made[p.handle] == p.kind
            && p.call < |s.calls| && s.calls[p.call].phase == Over(Some(p.handle))
            && s.calls[p.call].Using? && p.use == s.calls[p.call].use && p.kind == s.calls[p.call].key.kind
  {
    Reachable(acts);
    var s := Exec(acts).value;
    assert At(s, s.passed[i].handle, PassedAs(i)) && At(s, s.passed[i].handle, PassedAs(j));
  }

  /** However many finish and cancel calls race on one id, at most one of them gets a handle. */
  lemma RaceHasOneWinner(acts: seq<Action>, c: nat, d: nat)
    requires Exec(acts).Some? && c < |Exec(acts).value.calls| && d < |Exec(acts).value.calls|
    requires var s := Exec(acts).value;
             && s.calls[c].Using? && s.calls[d].Using? && s.calls[c].key == s.calls[d].key
             && Took(s.calls[c]) && Took(s.calls[d])
    ensures c == d
  {
    Reachable(acts);
  }

  /** A call that has returned got a handle if and only if it passed that handle on: none is lost on the way. */
  lemma {:induction false} ReturnedExactly(acts: seq<Action>, c: nat, h: Handle)
    requires Exec(acts).Some? && c < |Exec(acts).value.calls| && Exec(acts).value.calls[c].Using?
    ensures var s := Exec(acts).value;
            s.calls[c].phase == Over(Some(h))
            <==> exists i :: 0 <= i < |s.passed| && s.passed[i].call == c && s.passed[i].handle == h
  {
    var s := Exec(acts).value;
    Reachable(acts);
    if s.calls[c].phase == Over(Some(h)) {
      var before, a := acts[..|acts| - 1], acts[|acts| - 1];
      var was := Exec(before).value;
      if a == Pass(c) {
        assert s.passed[|was.passed|].call == c;
      } else {
        ReturnedExactly(before, c, h);
        var i :| 0 <= i < |was.passed| && was.passed[i].call == c && was.passed[i].handle == h;
        assert s.passed[i] == was.passed[i];
      }
    }
  }

  /** A call that takes while its id is stored gets that handle, and the id is gone; otherwise it gets none and nothing changes. */
  lemma TakeGets(s: System, c: nat)
    requires Enabled(s, Take(c))
    ensures var key := s.calls[c].key;
            var t := Next(s, Take(c));
            && (key in s.store ==> t.calls[c].phase == Holding(s.store[key]) && t.store == s.store - {key})
            && (key !in s.store ==> t.calls[c].phase == Over(None) && t.store == s.store)
  {
  }

  ghost predicate Taker(s: System, key: Key, c: nat) {
    c < |s.calls| && s.calls[c].Using? && s.calls[c].key == key && Took(s.calls[c])
  }

  lemma TakerStep(s: System, a: Action, key: Key)
    requires Enabled(s, a) && (key in s.issued ==> key in s.store || exists c: nat :: Taker(s, key, c))
    ensures key in Next(s, a).issued ==> key in Next(s, a).store || exists c: nat :: Taker(Next(s, a), key, c)
  {
    var t := Next(s, a);
    if key in t.issued && key !in t.store {
      if exists c: nat :: Taker(s, key, c) {
        var c: nat :| Taker(s, key, c);
        assert Taker(t, key, c);
      } else {
        assert key in s.store && a.Take?;
        assert Taker(t, key, a.c);
      }
    }
  }

  /** In every run a handle stored under an id is still there, or one call, and only one, has taken it. */
  lemma {:induction false} StoredOrTaken(acts: seq<Action>, key: Key)
    requires Exec(acts).Some? && key in Exec(acts).value.issued
    ensures var s := Exec(acts).value;
            key in s.store <==> !exists c: nat :: Taker(s, key, c)
  {
    Reachable(acts);
    IssuedKept(acts, key);
    var s := Exec(acts).value;
    forall c: nat | Taker(s, key, c) ensures key !in s.store {
      assert CallOk(s, s.calls[c]);
    }
  }

  lemma {:induction false} IssuedKept(acts: seq<Action>, key: Key)
    requires Exec(acts).Some?
    ensures var s := Exec(acts).value;
            key in s.issued ==> key in s.store || exists c: nat :: Taker(s, key, c)
  {
    if acts != [] {
      var before := acts[..|acts| - 1];
      IssuedKept(before, key);
      TakerStep(Exec(before).value, acts[|acts| - 1], key);
    }
  }
}
