/** Ownership of the OPAQUE state handles in ios/LobbyAuth.swift. A start call stores a handle under a fresh id; finish
  and cancel calls take it out again, and hand it to the FFI, which consumes or frees it. */
module LobbyAuth {
  import opened Bytes

  datatype Kind = Registration | Login

  /** A handle stands for one allocation of the FFI: an address used again after a free is a new handle. */
  type Handle = nat

  /** An id within the store of its kind. */
  datatype Key = Key(kind: Kind, id: string)

  datatype Use = Finish | Cancel

  datatype Error = UnknownStateId | InvalidArgs | Deserialize | OpaqueFinishFailed | WrongPassword

  /** How a finish call reports the status of the FFI: `None` is success. */
  function FinishError(kind: Kind, rc: int): Option<Error> {
    if rc == 0 then None
    else if rc == -1 then Some(InvalidArgs)
    else if rc == -2 then Some(Deserialize)
    else if kind.Registration? then Some(OpaqueFinishFailed)
    else Some(WrongPassword)
  }

  /** The error for each status: 0 is success, -1 and -2 are the same for both kinds, and any other status is a wrong password at
    login and a failed finish at registration. */
  lemma FinishErrors(rc: int)
    ensures FinishError(Registration, 0) == None && FinishError(Login, 0) == None
    ensures FinishError(Registration, -1) == Some(InvalidArgs) && FinishError(Login, -1) == Some(InvalidArgs)
    ensures FinishError(Registration, -2) == Some(Deserialize) && FinishError(Login, -2) == Some(Deserialize)
    ensures FinishError(Registration, -3) == Some(OpaqueFinishFailed) && FinishError(Login, -3) == Some(WrongPassword)
    ensures rc !in {0, -1, -2, -3} ==>
              FinishError(Registration, rc) == Some(OpaqueFinishFailed) && FinishError(Login, rc) == Some(WrongPassword)
  {
  }

  // ---- The two critical sections of a store ----

  function Added<K>(store: map<K, Handle>, key: K, h: Handle): map<K, Handle> {
    store[key := h]
  }

  function Taken<K>(store: map<K, Handle>, key: K): (map<K, Handle>, Option<Handle>) {
    (store - {key}, if key in store then Some(store[key]) else None)
  }

  // ---- Interleaved calls ----

  datatype Phase =
    | Asked                        // about to take the handle
    | Holding(handle: Handle)      // owns the handle
    | Over(got: Option<Handle>)    // returned; None: the id was unknown

  datatype Call =
    | Starting(kind: Kind, phase: Phase)
    | Using(use: Use, key: Key, phase: Phase)

  /** A handle passed to the finish or the free function of the FFI of a kind, by a call. */
  datatype Passed = Passed(call: nat, use: Use, kind: Kind, handle: Handle)

  datatype System = System(
    store: map<Key, Handle>,
    calls: seq<Call>,
    made: map<Handle, Kind>,
    issued: set<Key>,
    passed: seq<Passed>)

  const INITIAL := System(map[], [], map[], {}, [])

  datatype Action =
    | Start(kind: Kind, h: Handle)
    | Add(c: nat, id: string)
    | Ask(use: Use, key: Key)
    | Take(c: nat)
    | Pass(c: nat)

  /** Ids are UUIDs: an id is never issued twice. A caller may ask for any id. */
  predicate Enabled(s: System, a: Action) {
    match a
    case Start(_, h) => h !in s.made
    case Add(c, id) =>
      c < |s.calls| && s.calls[c].Starting? && s.calls[c].phase.Holding? && Key(s.calls[c].kind, id) !in s.issued
    case Ask(_, _) => true
    case Take(c) => c < |s.calls| && s.calls[c].Using? && s.calls[c].phase.Asked?
    case Pass(c) => c < |s.calls| && s.calls[c].Using? && s.calls[c].phase.Holding?
  }

  function Goto(s: System, c: nat, phase: Phase): System
    requires c < |s.calls|
  {
    s.(calls := s.calls[c := s.calls[c].(phase := phase)])
  }

  function Next(s: System, a: Action): System
    requires Enabled(s, a)
  {
    match a
    case Start(kind, h) =>
      s.(calls := s.calls + [Starting(kind, Holding(h))], made := s.made[h := kind])
    case Add(c, id) =>
      var key := Key(s.calls[c].kind, id);
      Goto(s, c, Over(None)).(store := Added(s.store, key, s.calls[c].phase.handle), issued := s.issued + {key})
    case Ask(use, key) => s.(calls := s.calls + [Using(use, key, Asked)])
    case Take(c) =>
      var (store, got) := Taken(s.store, s.calls[c].key);
      Goto(s, c, if got.Some? then Holding(got.value) else Over(None)).(store := store)
    case Pass(c) =>
      var h := s.calls[c].phase.handle;
      Goto(s, c, Over(Some(h))).(passed := s.passed + [Passed(c, s.calls[c].use, s.calls[c].key.kind, h)])
  }

  /** The state an interleaving leads to; `None` when some action was not enabled. */
  function Exec(acts: seq<Action>): Option<System> {
    if acts == [] then Some(INITIAL)
    else
      var before := Exec(acts[..|acts| - 1]);
      var a := acts[|acts| - 1];
      if before.Some? && Enabled(before.value, a) then Some(Next(before.value, a)) else None
  }

  // ---- One call at a time ----

  /** A handle store, with the FFI calls made over what is taken from it. */
  class OpaqueStateStore {
    const kind: Kind
    var handles: map<string, Handle>
    var finished: seq<Handle>
    var freed: seq<Handle>

    constructor (kind: Kind)
      ensures this.kind == kind && handles == map[] && finished == [] && freed == []
    {
      this.kind, handles, finished, freed := kind, map[], [], [];
    }

    /** The id is a fresh UUID. */
    method Add(handle: Handle, id: string)
      requires id !in handles
      modifies this`handles
      ensures handles == Added(old(handles), id, handle) == old(handles)[id := handle]
    {
      handles := handles[id := handle];
    }

    method Take(id: string) returns (r: Option<Handle>)
      modifies this`handles
      ensures (handles, r) == Taken(old(handles), id)
      ensures id !in handles && handles == old(handles) - {id} && (r.Some? <==> id in old(handles))
      ensures r.Some? ==> r.value == old(handles)[id]
    {
      r := if id in handles then Some(handles[id]) else None;
      handles := handles - {id};
    }

    /** The handle is consumed whatever the FFI answers; an unknown id reaches no FFI call. An empty response whose
      buffer has no base address traps between the two. */
    method Finish(id: string, serverResponse: bytes, baseAddress: bool, rc: int) returns (r: Result<Option<Error>>)
      requires serverResponse != [] ==> baseAddress
      modifies this`handles, this`finished
      ensures handles == old(handles) - {id}
      ensures r == if id !in old(handles) then Ok(Some(UnknownStateId))
                   else if !baseAddress then Trap
                   else Ok(FinishError(kind, rc))
      ensures finished == if id in old(handles) && baseAddress then old(finished) + [old(handles)[id]] else old(finished)
    {
      var handle := Take(id);
      if handle.None? { return Ok(Some(UnknownStateId)); }
      if serverResponse == [] && !baseAddress { return Trap; }
      finished := finished + [handle.value];
      if rc == 0 {
        r := Ok(None);
      } else if rc == -1 {
        r := Ok(Some(InvalidArgs));
      } else if rc == -2 {
        r := Ok(Some(Deserialize));
      } else {
        r := Ok(Some(if kind.Registration? then OpaqueFinishFailed else WrongPassword));
      }
    }

    method Cancel(id: string)
      modifies this`handles, this`freed
      ensures handles == old(handles) - {id}
      ensures freed == old(freed) + (if id in old(handles) then [old(handles)[id]] else [])
    {
      var handle := Take(id);
      if handle.Some? {
        freed := freed + [handle.value];
      }
    }
  }
}
