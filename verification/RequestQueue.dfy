/** The per-identity request queue of ios/NativeQuicModule.swift.

  Callers append under `connectionLock`; the first caller for an identity starts a worker thread,
  which shakes hands, drains the queue over its own QUIC handle and exits. Two resets (`cancelAll`,
  `setActiveValidator`) may clear the shared state at any moment, leaving old workers alive.

  Each critical section is one function on the locked state, and one action of the system below. */
module RequestQueue {
  import opened Bytes

  type Identity = string
  type Handle = nat
  type WorkerId = nat

  /** A queued promise, named by its place in the order of enqueue critical sections. */
  type Request = nat
  datatype Outcome = Resolved | Rejected
  datatype Settlement = Settlement(request: Request, outcome: Outcome)

  /** The two fields guarded by the lock. */
  datatype Shared = Shared(queue: map<Identity, seq<Request>>, inProgress: set<Identity>)

  function QueueOf(s: Shared, id: Identity): seq<Request> {
    if id in s.queue then s.queue[id] else []
  }

  function Enqueued(s: Shared, id: Identity, r: Request): Shared {
    Shared(s.queue[id := QueueOf(s, id) + [r]], s.inProgress + {id})
  }

  function StartsWorker(s: Shared, id: Identity): bool {
    id !in s.inProgress
  }

  /** The drain loop's critical section: the head of the queue, or the exit of the worker. */
  function Taken(s: Shared, id: Identity): (Shared, Option<Request>) {
    var queue := QueueOf(s, id);
    if queue == [] then (Shared(s.queue - {id}, s.inProgress - {id}), None)
    else if |queue| == 1 then (s.(queue := s.queue - {id}), Some(queue[0]))
    else (s.(queue := s.queue[id := queue[1..]]), Some(queue[0]))
  }

  /** The failure path's critical section: the whole queue, and the exit of the worker. */
  function Abandoned(s: Shared, id: Identity): (Shared, seq<Request>) {
    (Shared(s.queue - {id}, s.inProgress - {id}), QueueOf(s, id))
  }

  const CLEARED := Shared(map[], {})

  /** Where a worker thread stands between two atomic steps. */
  datatype Phase =
    | Handshaking
    | Connected(handle: Handle)                   // handshake done, MAC key not yet derived
    | Failed                                      // about to enter the failure critical section
    | Rejecting(pending: seq<Request>)            // past it, rejecting outside the lock
    | Draining(handle: Handle)                    // about to enter the drain critical section
    | Sending(handle: Handle, request: Request)   // request taken, not yet settled
    | Closing(handle: Handle)                     // found the queue empty, handle still open
    | Done
  {
    /** The worker has not yet passed the critical section in which it exits. */
    predicate Live() {
      Handshaking? || Connected? || Failed? || Draining? || Sending?
    }

    function Holds(): seq<Request> {
      match this
      case Rejecting(pending) => pending
      case Sending(_, request) => [request]
      case _ => []
    }

    function HandleHeld(): Option<Handle> {
      if Connected? || Draining? || Sending? || Closing? then Some(handle) else None
    }
  }

  datatype Worker = Worker(identity: Identity, phase: Phase)

  /** Where a request has got to. */
  datatype Place = Queued | Held(worker: WorkerId) | SettledAt(index: nat) | Dropped

  /** The module with its worker threads, and the history of what happened to requests and handles. */
  datatype System = System(
    shared: Shared,
    workers: seq<Worker>,
    issued: seq<Identity>,      // the identity of each request, by request number
    place: map<Request, Place>, // where each request is
    settled: seq<Settlement>,
    dropped: set<Request>,
    everOpened: set<Handle>,
    closed: seq<Handle>)

  const INITIAL := System(CLEARED, [], [], map[], [], {}, {}, [])

  datatype Action =
    | Enqueue(identity: Identity)
    | HandshakeOk(w: WorkerId, handle: Handle)
    | MacKeyOk(w: WorkerId)
    | MacKeyFails(w: WorkerId)
    | FailQueue(w: WorkerId)
    | RejectNext(w: WorkerId)
    | Take(w: WorkerId)
    | Reply(w: WorkerId, outcome: Outcome)
    | CloseHandle(w: WorkerId)
    | Reset                                       // cancelAll, or setActiveValidator

  predicate Enabled(s: System, a: Action) {
    match a
    case Enqueue(_) => true
    case Reset => true
    case HandshakeOk(w, h) => w < |s.workers| && s.workers[w].phase.Handshaking? && h !in s.everOpened
    case MacKeyOk(w) => w < |s.workers| && s.workers[w].phase.Connected?
    case MacKeyFails(w) => w < |s.workers| && s.workers[w].phase.Connected?
    case FailQueue(w) => w < |s.workers| && (s.workers[w].phase.Handshaking? || s.workers[w].phase.Failed?)
    case RejectNext(w) => w < |s.workers| && s.workers[w].phase.Rejecting?
    case Take(w) => w < |s.workers| && s.workers[w].phase.Draining?
    case Reply(w, _) => w < |s.workers| && s.workers[w].phase.Sending?
    case CloseHandle(w) => w < |s.workers| && s.workers[w].phase.Closing?
  }

  function Goto(s: System, w: WorkerId, phase: Phase): System
    requires w < |s.workers|
  {
    s.(workers := s.workers[w := s.workers[w].(phase := phase)])
  }

  function Settle(s: System, r: Request, outcome: Outcome): System {
    s.(settled := s.settled + [Settlement(r, outcome)], place := s.place[r := SettledAt(|s.settled|)])
  }

  /** The history after moving all of `rs` to one place. */
  function Moved(place: map<Request, Place>, rs: seq<Request>, p: Place): map<Request, Place> {
    map r | r in place :: if r in rs then p else place[r]
  }

  /** Every request in some queue. */
  function AllQueued(s: Shared): set<Request> {
    set id, r | id in s.queue && r in s.queue[id] :: r
  }

  function Swept(place: map<Request, Place>, gone: set<Request>): map<Request, Place> {
    map r | r in place :: if r in gone then Dropped else place[r]
  }

  function Next(s: System, a: Action): System
    requires Enabled(s, a)
  {
    match a
    case Enqueue(id) =>
      var r := |s.issued|;
      s.(shared := Enqueued(s.shared, id, r),
         workers := if StartsWorker(s.shared, id) then s.workers + [Worker(id, Handshaking)] else s.workers,
         issued := s.issued + [id],
         place := s.place[r := Queued])
    case HandshakeOk(w, h) =>
      Goto(s, w, Connected(h)).(everOpened := s.everOpened + {h})
    case MacKeyOk(w) =>
      Goto(s, w, Draining(s.workers[w].phase.handle))
    case MacKeyFails(w) =>
      Goto(s, w, Failed).(closed := s.closed + [s.workers[w].phase.handle])
    case FailQueue(w) =>
      var (shared, pending) := Abandoned(s.shared, s.workers[w].identity);
      Goto(s, w, Rejecting(pending)).(shared := shared, place := Moved(s.place, pending, Held(w)))
    case RejectNext(w) =>
      var pending := s.workers[w].phase.pending;
      if pending == [] then Goto(s, w, Done)
      else Settle(Goto(s, w, Rejecting(pending[1..])), pending[0], Rejected)
    case Take(w) =>
      var h := s.workers[w].phase.handle;
      var (shared, next) := Taken(s.shared, s.workers[w].identity);
      if next.None? then Goto(s, w, Closing(h)).(shared := shared)
      else Goto(s, w, Sending(h, next.value)).(shared := shared, place := s.place[next.value := Held(w)])
    case Reply(w, outcome) =>
      var phase := s.workers[w].phase;
      Settle(Goto(s, w, Draining(phase.handle)), phase.request, outcome)
    case CloseHandle(w) =>
      Goto(s, w, Done).(closed := s.closed + [s.workers[w].phase.handle])
    case Reset =>
      s.(shared := CLEARED,
         dropped := s.dropped + AllQueued(s.shared),
         place := Swept(s.place, AllQueued(s.shared)))
  }

  /** The state an interleaving leads to; `None` when some action was not enabled. */
  function Exec(acts: seq<Action>): Option<System> {
    if acts == [] then Some(INITIAL)
    else
      var before := Exec(acts[..|acts| - 1]);
      var a := acts[|acts| - 1];
      if before.Some? && Enabled(before.value, a) then Some(Next(before.value, a)) else None
  }
}
