/** The lock-protected fields of `NativeQuic` and the methods that update them in place.

  Every critical section is proved equal to the function the interleaving model in RequestQueue uses;
  the two loops outside the lock are proved for a worker that no other thread interrupts. */
module NativeQuicModule {
  import opened Bytes
  import opened RequestQueue

  /** The callbacks that settling `rs` in order makes. */
  function Settlements(rs: seq<Request>, reply: Request -> Outcome): seq<Settlement> {
    seq(|rs|, i requires 0 <= i < |rs| => Settlement(rs[i], reply(rs[i])))
  }

  lemma SettlementsSplit(rs: seq<Request>, k: nat, reply: Request -> Outcome)
    requires k < |rs|
    ensures Settlements(rs[..k + 1], reply) == Settlements(rs[..k], reply) + [Settlement(rs[k], reply(rs[k]))]
  {
  }

  /** Settling `rs` in order appends one callback for each, in order, with its reply. */
  lemma SettlementsAppended(before: seq<Settlement>, rs: seq<Request>, reply: Request -> Outcome)
    ensures var after := before + Settlements(rs, reply);
            && |after| == |before| + |rs| && after[..|before|] == before
            && forall i :: 0 <= i < |rs| ==> after[|before| + i] == Settlement(rs[i], reply(rs[i]))
  {
  }

  datatype Target = Target(host: string, port: int, serverName: string, expectedDid: string)

  class NativeQuic {
    var quinnRequestQueue: map<Identity, seq<Request>>
    var quinnHandshakeInProgress: set<Identity>
    var quinnSessionIdPrefixByIdentity: map<Identity, string>
    var target: Target
    var settlements: seq<Settlement>   // promise callbacks made, in order
    var closedHandles: seq<Handle>     // calls to uhp_quic_close, in order

    function State(): Shared
      reads this
    {
      Shared(quinnRequestQueue, quinnHandshakeInProgress)
    }

    constructor (target: Target)
      ensures State() == CLEARED && this.target == target && settlements == [] && closedHandles == []
      ensures quinnSessionIdPrefixByIdentity == map[]
    {
      this.target := target;
      quinnSessionIdPrefixByIdentity := map[];
      quinnRequestQueue, quinnHandshakeInProgress := map[], {};
      settlements, closedHandles := [], [];
    }

    /** The part of `enqueueQuinnRequest` under the lock; the caller starts a worker when told to. */
    method Enqueue(identityId: Identity, request: Request) returns (shouldStart: bool)
      modifies this`quinnRequestQueue, this`quinnHandshakeInProgress
      ensures State() == Enqueued(old(State()), identityId, request)
      ensures shouldStart == StartsWorker(old(State()), identityId)
    {
      shouldStart := false;
      var queue := if identityId in quinnRequestQueue then quinnRequestQueue[identityId] else [];
      quinnRequestQueue := quinnRequestQueue[identityId := queue + [request]];
      if identityId !in quinnHandshakeInProgress {
        quinnHandshakeInProgress := quinnHandshakeInProgress + {identityId};
        shouldStart := true;
      }
    }

    /** The critical section at the head of the drain loop. */
    method TakeNext(identityId: Identity) returns (next: Option<Request>)
      modifies this`quinnRequestQueue, this`quinnHandshakeInProgress
      ensures (State(), next) == Taken(old(State()), identityId)
    {
      if identityId !in quinnRequestQueue || quinnRequestQueue[identityId] == [] {
        quinnRequestQueue := quinnRequestQueue - {identityId};
        quinnHandshakeInProgress := quinnHandshakeInProgress - {identityId};
        return None;
      }
      var queue := quinnRequestQueue[identityId];
      next := Some(queue[0]);
      queue := queue[1..];
      if queue == [] {
        quinnRequestQueue := quinnRequestQueue - {identityId};
      } else {
        quinnRequestQueue := quinnRequestQueue[identityId := queue];
      }
    }

    /** `drainQuinnQueue` run without interruption: it settles the whole queue in order, each request
      by its own reply, leaves the identity unmarked, and closes its handle once, at the end. */
    method DrainQuinnQueue(identityId: Identity, quinnHandle: Handle, reply: Request -> Outcome)
      modifies this`quinnRequestQueue, this`quinnHandshakeInProgress, this`settlements, this`closedHandles
      ensures State() == Abandoned(old(State()), identityId).0
      ensures settlements == old(settlements) + Settlements(QueueOf(old(State()), identityId), reply)
      ensures closedHandles == old(closedHandles) + [quinnHandle]
    {
      ghost var queue := QueueOf(State(), identityId);
      ghost var done := 0;
      while true
        invariant done <= |queue| && QueueOf(State(), identityId) == queue[done..]
        invariant quinnRequestQueue - {identityId} == old(quinnRequestQueue) - {identityId}
        invariant quinnHandshakeInProgress == old(quinnHandshakeInProgress)
        invariant settlements == old(settlements) + Settlements(queue[..done], reply)
        invariant closedHandles == old(closedHandles)
        decreases |queue| - done
      {
        var next := TakeNext(identityId);
        if next.None? {
          closedHandles := closedHandles + [quinnHandle];
          assert queue[..done] == queue;
          return;
        }
        settlements := settlements + [Settlement(next.value, reply(next.value))];
        SettlementsSplit(queue, done, reply);
        done := done + 1;
      }
    }

    /** `failQuinnQueue` run without interruption: everything queued is rejected in order. */
    method FailQuinnQueue(identityId: Identity)
      modifies this`quinnRequestQueue, this`quinnHandshakeInProgress, this`settlements
      ensures State() == Abandoned(old(State()), identityId).0
      ensures settlements == old(settlements) + Settlements(Abandoned(old(State()), identityId).1, _ => Rejected)
    {
      var queued := if identityId in quinnRequestQueue then quinnRequestQueue[identityId] else [];
      quinnRequestQueue := quinnRequestQueue - {identityId};
      quinnHandshakeInProgress := quinnHandshakeInProgress - {identityId};
      ghost var rejected: Request -> Outcome := _ => Rejected;
      for i := 0 to |queued|
        invariant State() == Abandoned(old(State()), identityId).0
        invariant settlements == old(settlements) + Settlements(queued[..i], rejected)
      {
        SettlementsSplit(queued, i, rejected);
        settlements := settlements + [Settlement(queued[i], Rejected)];
      }
      assert queued[..|queued|] == queued;
      assert Settlements(queued, rejected) == Settlements(queued, _ => Rejected);
    }

    method CancelAll()
      modifies this`quinnRequestQueue, this`quinnHandshakeInProgress
      ensures State() == CLEARED
    {
      quinnRequestQueue := map[];
      quinnHandshakeInProgress := {};
    }

    /** Bad parameters change nothing; otherwise the target moves and both guarded fields are cleared. */
    method SetActiveValidator(host: string, port: int, expectedDid: string, sni: string) returns (accepted: bool)
      modifies this`quinnRequestQueue, this`quinnHandshakeInProgress, this`quinnSessionIdPrefixByIdentity, this`target
      ensures accepted <==> host != "" && 0 < port < 65536 && expectedDid != ""
      ensures accepted ==> State() == CLEARED && target == Target(host, port, if sni == "" then host else sni, expectedDid)
      ensures quinnSessionIdPrefixByIdentity == if accepted then map[] else old(quinnSessionIdPrefixByIdentity)
      ensures !accepted ==> State() == old(State()) && target == old(target)
    {
      if host == "" || port <= 0 || port >= 65536 || expectedDid == "" {
        return false;
      }
      target := Target(host, port, if sni == "" then host else sni, expectedDid);
      CancelAll();
      quinnSessionIdPrefixByIdentity := map[];
      accepted := true;
    }
  }
}
