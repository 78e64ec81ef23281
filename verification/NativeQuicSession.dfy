/** Inbound streams of ios/NativeQuicSession.swift: one reader thread per stream, and callers that open streams,
  cancel them, and close whole sessions, interleaved at every step another thread can observe. */
module NativeQuicSession {
  import opened Bytes
  import opened QuicSession

  type SessionId = string
  type ReaderId = nat

  datatype ReaderPhase =
    | Looping      // at the head of the loop
    | Reading      // inside the blocking read of the FFI
    | Leaving      // about to close its stream
    | Closed       // about to signal
    | Signalled    // about to leave the store
    | Gone
  {
    predicate Exited() { Signalled? || Gone? }
    predicate PastClose() { Closed? || Exited() }
  }

  /** A runner and its thread. `stream` is the field the close sets to nil, `handle` what it held at first. */
  datatype Reader = Reader(
    session: SessionId,
    handle: Handle,
    stream: Option<Handle>,
    phase: ReaderPhase,
    cancelled: bool,
    exits: nat)   // the count of the exit semaphore

  /** A call of `openInbound` past its session lookup. */
  datatype Opener = Holding(session: SessionId) | Opening(session: SessionId, handle: Handle) | Returned

  datatype CloserPhase =
    | Asked
    | Cancelling(ids: seq<ReaderId>, k: nat)   // snapshot taken, the first k cancelled
    | Waiting(ids: seq<ReaderId>, k: nat)      // the first k waited for
    | Dropped(ids: seq<ReaderId>)              // session removed from its store

  /** A call of `closeSession`, with the readers whose wait timed out, and whether some `openInbound` of the
    session was under way at the snapshot or began after it. */
  datatype Closer = Closer(session: SessionId, phase: CloserPhase, timedOut: set<ReaderId>, overlapped: bool)

  datatype System = System(
    sessions: set<SessionId>,
    everOpened: set<SessionId>,
    openers: seq<Opener>,
    readers: seq<Reader>,
    streams: map<ReaderId, SessionId>,   // QuicInboundStore
    closers: seq<Closer>,
    handles: set<Handle>,                // every stream handle the FFI returned
    closed: seq<Handle>)                 // calls to the close function of the FFI

  const INITIAL := System({}, {}, [], [], map[], [], {}, [])

  datatype Action =
    | OpenSession(id: SessionId)
    | GetSession(id: SessionId)
    | OpenStream(o: nat, h: Handle)
    | OpenFails(o: nat)
    | Register(o: nat)
    | Check(r: ReaderId)
    | ReadReturns(r: ReaderId, outcome: ReadOutcome)
    | CloseStream(r: ReaderId)
    | Signal(r: ReaderId)
    | Unregister(r: ReaderId)
    | CloseInbound(r: ReaderId)
    | CloseSession(id: SessionId)
    | Snapshot(c: nat, snapshot: seq<ReaderId>)
    | CancelNext(c: nat)
    | WaitNext(c: nat)
    | TimeoutNext(c: nat)
    | DropSession(c: nat)

  /** `allForSession`: every stored runner of the session, once, in some order. */
  ghost predicate AllFor(streams: map<ReaderId, SessionId>, id: SessionId, ids: seq<ReaderId>) {
    && (forall i, j :: 0 <= i < j < |ids| ==> ids[i] != ids[j])
    && (forall r :: r in ids <==> r in streams && streams[r] == id)
  }

  /** Session ids are fresh UUIDs: never opened before, and never named by a caller before. */
  ghost predicate Enabled(s: System, a: Action) {
    match a
    case OpenSession(id) => id !in s.everOpened && forall c :: 0 <= c < |s.closers| ==> s.closers[c].session != id
    case GetSession(id) => id in s.sessions
    case OpenStream(o, h) => o < |s.openers| && s.openers[o].Holding? && h !in s.handles
    case OpenFails(o) => o < |s.openers| && s.openers[o].Holding?
    case Register(o) => o < |s.openers| && s.openers[o].Opening?
    case Check(r) => r < |s.readers| && s.readers[r].phase.Looping?
    case ReadReturns(r, _) => r < |s.readers| && s.readers[r].phase.Reading?
    case CloseStream(r) => r < |s.readers| && s.readers[r].phase.Leaving?
    case Signal(r) => r < |s.readers| && s.readers[r].phase.Closed?
    case Unregister(r) => r < |s.readers| && s.readers[r].phase.Signalled?
    case CloseInbound(r) => r in s.streams && r < |s.readers|
    case CloseSession(_) => true
    case Snapshot(c, ids) => c < |s.closers| && s.closers[c].phase.Asked? && AllFor(s.streams, s.closers[c].session, ids)
    case CancelNext(c) => c < |s.closers| && s.closers[c].phase.Cancelling?
    case WaitNext(c) =>
      && c < |s.closers| && s.closers[c].phase.Waiting? && s.closers[c].phase.k < |s.closers[c].phase.ids|
      && var r := s.closers[c].phase.ids[s.closers[c].phase.k]; r < |s.readers| && s.readers[r].exits > 0
    case TimeoutNext(c) =>
      c < |s.closers| && s.closers[c].phase.Waiting? && s.closers[c].phase.k < |s.closers[c].phase.ids|
    case DropSession(c) =>
      c < |s.closers| && s.closers[c].phase.Waiting? && s.closers[c].phase.k == |s.closers[c].phase.ids|
  }

  function Added(streams: map<ReaderId, SessionId>, id: ReaderId, session: SessionId): map<ReaderId, SessionId> {
    streams[id := session]
  }

  function Removed(streams: map<ReaderId, SessionId>, id: ReaderId): map<ReaderId, SessionId> {
    streams - {id}
  }

  predicate Pending(s: System, id: SessionId) {
    exists o :: 0 <= o < |s.openers| && !s.openers[o].Returned? && s.openers[o].session == id
  }

  function Overlapping(closers: seq<Closer>, id: SessionId): seq<Closer> {
    seq(|closers|, c requires 0 <= c < |closers| =>
      if closers[c].session == id && !closers[c].phase.Asked? then closers[c].(overlapped := true) else closers[c])
  }

  function WithReader(s: System, r: ReaderId, x: Reader): System
    requires r < |s.readers|
  {
    s.(readers := s.readers[r := x])
  }

  function Moved(s: System, r: ReaderId, phase: ReaderPhase): System
    requires r < |s.readers|
  {
    WithReader(s, r, s.readers[r].(phase := phase))
  }

  function Cancelled(s: System, r: ReaderId): System {
    if r < |s.readers| then WithReader(s, r, s.readers[r].(cancelled := true)) else s
  }

  function WithCloser(s: System, c: nat, x: Closer): System
    requires c < |s.closers|
  {
    s.(closers := s.closers[c := x])
  }

  ghost function Next(s: System, a: Action): System
    requires Enabled(s, a)
  {
    match a
    case OpenSession(id) => s.(sessions := s.sessions + {id}, everOpened := s.everOpened + {id})
    case GetSession(id) => s.(openers := s.openers + [Holding(id)], closers := Overlapping(s.closers, id))
    case OpenStream(o, h) =>
      s.(openers := s.openers[o := Opening(s.openers[o].session, h)], handles := s.handles + {h})
    case OpenFails(o) => s.(openers := s.openers[o := Returned])
    case Register(o) =>
      var id, h := s.openers[o].session, s.openers[o].handle;
      s.(openers := s.openers[o := Returned],
         readers := s.readers + [Reader(id, h, Some(h), Looping, false, 0)],
         streams := Added(s.streams, |s.readers|, id))
    case Check(r) => Moved(s, r, if s.readers[r].cancelled then Leaving else Reading)
    case ReadReturns(r, outcome) =>
      Moved(s, r, if GoesOn(outcome, s.readers[r].cancelled) then Looping else Leaving)
    case CloseStream(r) =>
      var x := s.readers[r];
      WithReader(s, r, x.(phase := Closed, stream := None)).(
        closed := if x.stream.Some? then s.closed + [x.stream.value] else s.closed)
    case Signal(r) => WithReader(s, r, s.readers[r].(phase := Signalled, exits := s.readers[r].exits + 1))
    case Unregister(r) => Moved(s, r, Gone).(streams := Removed(s.streams, r))
    case CloseInbound(r) => Cancelled(s, r)
    case CloseSession(id) => s.(closers := s.closers + [Closer(id, Asked, {}, false)])
    case Snapshot(c, ids) =>
      WithCloser(s, c, s.closers[c].(phase := Cancelling(ids, 0), overlapped := Pending(s, s.closers[c].session)))
    case CancelNext(c) =>
      var Cancelling(ids, k) := s.closers[c].phase;
      if k < |ids| then Cancelled(WithCloser(s, c, s.closers[c].(phase := Cancelling(ids, k + 1))), ids[k])
      else WithCloser(s, c, s.closers[c].(phase := Waiting(ids, 0)))
    case WaitNext(c) =>
      var Waiting(ids, k) := s.closers[c].phase;
      var x := s.readers[ids[k]];
      WithReader(WithCloser(s, c, s.closers[c].(phase := Waiting(ids, k + 1))), ids[k], x.(exits := x.exits - 1))
    case TimeoutNext(c) =>
      var Waiting(ids, k) := s.closers[c].phase;
      WithCloser(s, c, s.closers[c].(phase := Waiting(ids, k + 1), timedOut := s.closers[c].timedOut + {ids[k]}))
    case DropSession(c) =>
      WithCloser(s, c, s.closers[c].(phase := Dropped(s.closers[c].phase.ids))).(
        sessions := s.sessions - {s.closers[c].session})
  }

  /** The state an interleaving leads to; `None` when some action was not enabled. */
  ghost function Exec(acts: seq<Action>): Option<System> {
    if acts == [] then Some(INITIAL)
    else
      var before := Exec(acts[..|acts| - 1]);
      var a := acts[|acts| - 1];
      if before.Some? && Enabled(before.value, a) then Some(Next(before.value, a)) else None
  }

  /** `QuicInboundStore`, under its barrier queue. */
  class QuicInboundStore {
    var streams: map<ReaderId, SessionId>

    constructor ()
      ensures streams == map[]
    {
      streams := map[];
    }

    /** The id is a fresh UUID. */
    method Add(id: ReaderId, session: SessionId)
      requires id !in streams
      modifies this
      ensures streams == Added(old(streams), id, session)
    {
      streams := streams[id := session];
    }

    method Remove(id: ReaderId) returns (r: Option<SessionId>)
      modifies this
      ensures streams == Removed(old(streams), id)
      ensures r == if id in old(streams) then Some(old(streams)[id]) else None
    {
      r := if id in streams then Some(streams[id]) else None;
      streams := streams - {id};
    }

    method AllForSession(sessionId: SessionId) returns (ids: seq<ReaderId>)
      ensures AllFor(streams, sessionId, ids)
    {
      ids := [];
      var left := streams.Keys;
      while left != {}
        invariant left <= streams.Keys
        invariant forall i, j :: 0 <= i < j < |ids| ==> ids[i] != ids[j]
        invariant forall i :: 0 <= i < |ids| ==> ids[i] !in left
        invariant forall r :: r in ids <==> r in streams && r !in left && streams[r] == sessionId
        decreases |left|
      {
        var r :| r in left;
        left := left - {r};
        if streams[r] == sessionId {
          ids := ids + [r];
        }
      }
    }
  }
}
