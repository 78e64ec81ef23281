/** What every interleaving of the request queue keeps. */
module RequestQueueProofs {
  import opened Bytes
  import opened RequestQueue

  ghost predicate Increasing(rs: seq<Request>) {
    forall i, j :: 0 <= i < j < |rs| ==> rs[i] < rs[j]
  }

  ghost predicate Numbered(s: System) {
    forall r: Request :: r in s.place <==> r < |s.issued|
  }

  /** `rs` is a list of requests of one identity, in enqueue order, all recorded at `p`. */
  ghost predicate Listed(s: System, rs: seq<Request>, id: Identity, p: Place) {
    && Increasing(rs)
    && forall i :: 0 <= i < |rs| ==>
         rs[i] < |s.issued| && s.issued[rs[i]] == id && rs[i] in s.place && s.place[rs[i]] == p
  }

  ghost predicate QueuesPlaced(s: System) {
    && (forall id :: id in s.shared.queue ==> s.shared.queue[id] != [])
    && (forall id :: Listed(s, QueueOf(s.shared, id), id, Queued))
    && (forall r: Request :: r < |s.issued| && r in s.place && s.place[r].Queued? ==>
          r in QueueOf(s.shared, s.issued[r]))
  }

  ghost predicate HeldPlaced(s: System) {
    && (forall w :: 0 <= w < |s.workers| ==>
          Listed(s, s.workers[w].phase.Holds(), s.workers[w].identity, Held(w)))
    && (forall r: Request :: r in s.place && s.place[r].Held? ==>
          s.place[r].worker < |s.workers| && r in s.workers[s.place[r].worker].phase.Holds())
  }

  ghost predicate SettledPlaced(s: System) {
    && (forall i :: 0 <= i < |s.settled| ==>
          s.settled[i].request in s.place && s.place[s.settled[i].request] == SettledAt(i))
    && (forall r: Request :: r in s.place && s.place[r].SettledAt? ==>
          s.place[r].index < |s.settled| && s.settled[s.place[r].index].request == r)
    && (forall r: Request :: r in s.dropped <==> r in s.place && s.place[r].Dropped?)
  }

  /** Whatever has left its queue was enqueued before everything still in it. */
  ghost predicate Fifo(s: System) {
    forall r, q: Request ::
      (r in s.place && q in s.place && r < |s.issued| && q < |s.issued| && s.issued[r] == s.issued[q]
       && !s.place[r].Queued? && s.place[q].Queued?) ==> r < q
  }

  ghost predicate LiveFor(s: System, w: WorkerId, id: Identity) {
    w < |s.workers| && s.workers[w].identity == id && s.workers[w].phase.Live()
  }

  ghost predicate Served(s: System) {
    && (forall id :: id in s.shared.queue ==> id in s.shared.inProgress)
    && (forall id :: id in s.shared.inProgress ==> exists w: WorkerId :: LiveFor(s, w, id))
  }

  ghost predicate HandlesOwned(s: System) {
    && (forall i, j :: 0 <= i < j < |s.closed| ==> s.closed[i] != s.closed[j])
    && (forall i :: 0 <= i < |s.closed| ==> s.closed[i] in s.everOpened)
    && (forall w :: 0 <= w < |s.workers| && s.workers[w].phase.HandleHeld().Some? ==>
          var h := s.workers[w].phase.HandleHeld().value; h in s.everOpened && h !in s.closed)
    && (forall w, v :: 0 <= w < v < |s.workers| && s.workers[w].phase.HandleHeld().Some? ==>
          s.workers[w].phase.HandleHeld() != s.workers[v].phase.HandleHeld())
    && (forall h :: h in s.everOpened && h !in s.closed ==> exists w: WorkerId :: Holder(s, w, h))
  }

  ghost predicate Holder(s: System, w: WorkerId, h: Handle) {
    w < |s.workers| && s.workers[w].phase.HandleHeld() == Some(h)
  }

  ghost predicate Inv(s: System) {
    Numbered(s) && QueuesPlaced(s) && HeldPlaced(s) && SettledPlaced(s) && Fifo(s)
  }

  /** Steps that touch neither a queue nor a held request. */
  lemma QuietStep(s: System, t: System)
    requires Inv(s)
    requires t.issued == s.issued && t.place == s.place && t.settled == s.settled && t.dropped == s.dropped
    requires t.shared.queue == s.shared.queue && |t.workers| == |s.workers|
    requires forall w :: 0 <= w < |s.workers| ==>
      t.workers[w].identity == s.workers[w].identity && t.workers[w].phase.Holds() == s.workers[w].phase.Holds()
    ensures Inv(t)
  {
    forall k ensures Listed(t, QueueOf(t.shared, k), k, Queued) {
      assert Listed(s, QueueOf(s.shared, k), k, Queued);
    }
  }

  lemma ListedTail(s: System, rs: seq<Request>, id: Identity, p: Place)
    requires rs != [] && Listed(s, rs, id, p)
    ensures Listed(s, rs[1..], id, p)
    ensures forall i :: 0 <= i < |rs[1..]| ==> rs[0] < rs[1..][i]
    ensures forall r :: r in rs ==> r == rs[0] || r in rs[1..]
  {
  }

  lemma EnqueueStep(s: System, id: Identity)
    requires Inv(s)
    ensures Inv(Next(s, Enqueue(id)))
  {
    EnqueueQueues(s, id);
    EnqueueHeld(s, id);
  }

  lemma EnqueueQueues(s: System, id: Identity)
    requires Numbered(s) && QueuesPlaced(s)
    ensures QueuesPlaced(Next(s, Enqueue(id)))
  {
    var t := Next(s, Enqueue(id));
    var r := |s.issued|;
    forall k ensures Listed(t, QueueOf(t.shared, k), k, Queued) {
      assert Listed(s, QueueOf(s.shared, k), k, Queued);
    }
    forall q: Request | q < |t.issued| && q in t.place && t.place[q].Queued?
      ensures q in QueueOf(t.shared, t.issued[q])
    {
      if q == r {
        assert QueueOf(t.shared, id)[|QueueOf(s.shared, id)|] == q;
      } else {
        assert q in QueueOf(s.shared, s.issued[q]);
      }
    }
  }

  lemma EnqueueHeld(s: System, id: Identity)
    requires Numbered(s) && HeldPlaced(s)
    ensures HeldPlaced(Next(s, Enqueue(id)))
  {
    var t := Next(s, Enqueue(id));
    forall w | 0 <= w < |t.workers|
      ensures Listed(t, t.workers[w].phase.Holds(), t.workers[w].identity, Held(w))
    {
      if w < |s.workers| {
        assert Listed(s, s.workers[w].phase.Holds(), s.workers[w].identity, Held(w));
      }
    }
  }

  lemma ResetStep(s: System)
    requires Inv(s)
    ensures Inv(Next(s, Reset))
  {
    var t := Next(s, Reset);
    forall r | r in s.place && s.place[r].Queued? ensures r in AllQueued(s.shared) {
      assert r in QueueOf(s.shared, s.issued[r]);
    }
    forall r | r in AllQueued(s.shared) ensures r in s.place && s.place[r].Queued? {
      var id :| id in s.shared.queue && r in s.shared.queue[id];
      assert Listed(s, QueueOf(s.shared, id), id, Queued);
    }
  }

  lemma ListedUntouched(s: System, t: System, rs: seq<Request>, id: Identity, p: Place, r: Request, q: Place)
    requires Listed(s, rs, id, p) && t.issued == s.issued && t.place == s.place[r := q]
    requires r in s.place && s.place[r] != p
    ensures Listed(t, rs, id, p)
  {
  }

  /** One request changes hands: it leaves the front of what worker `w` holds, or it is all that `w` now holds. */
  ghost predicate OneMoves(s: System, t: System, w: WorkerId, r: Request, p: Place) {
    && w < |s.workers| && |t.workers| == |s.workers| && t.workers[w].identity == s.workers[w].identity
    && (forall v :: 0 <= v < |s.workers| && v != w ==> t.workers[v] == s.workers[v])
    && r < |s.issued| && s.issued[r] == s.workers[w].identity && r in s.place && s.place[r] != p
    && t.issued == s.issued && t.place == s.place[r := p]
  }

  lemma OthersHold(s: System, t: System, w: WorkerId, r: Request, p: Place, v: WorkerId)
    requires HeldPlaced(s) && OneMoves(s, t, w, r, p) && v < |s.workers| && v != w && s.place[r] != Held(v)
    ensures Listed(t, t.workers[v].phase.Holds(), t.workers[v].identity, Held(v))
  {
    assert Listed(s, s.workers[v].phase.Holds(), s.workers[v].identity, Held(v));
    ListedUntouched(s, t, s.workers[v].phase.Holds(), s.workers[v].identity, Held(v), r, p);
  }

  lemma SettleStep(s: System, w: WorkerId, phase: Phase, o: Outcome)
    requires Inv(s) && w < |s.workers| && s.workers[w].phase.Holds() != []
    requires phase.Holds() == s.workers[w].phase.Holds()[1..]
    ensures Inv(Settle(Goto(s, w, phase), s.workers[w].phase.Holds()[0], o))
  {
    var r := s.workers[w].phase.Holds()[0];
    var t := Settle(Goto(s, w, phase), r, o);
    assert Listed(s, s.workers[w].phase.Holds(), s.workers[w].identity, Held(w));
    SettledHeld(s, t, w, r, SettledAt(|s.settled|));
    SettledQueues(s, t, r, SettledAt(|s.settled|));
    SettledRecorded(s, t, r, o);
  }

  lemma SettledHeld(s: System, t: System, w: WorkerId, r: Request, p: Place)
    requires HeldPlaced(s) && OneMoves(s, t, w, r, p) && s.place[r] == Held(w) && !p.Held?
    requires s.workers[w].phase.Holds() != [] && s.workers[w].phase.Holds()[0] == r
    requires t.workers[w].phase.Holds() == s.workers[w].phase.Holds()[1..]
    ensures HeldPlaced(t)
  {
    forall v | 0 <= v < |t.workers| ensures Listed(t, t.workers[v].phase.Holds(), t.workers[v].identity, Held(v)) {
      if v == w {
        assert Listed(s, s.workers[w].phase.Holds(), s.workers[w].identity, Held(w));
        RestListed(s, t, s.workers[w].phase.Holds(), s.workers[w].identity, Held(w), p);
      } else {
        OthersHold(s, t, w, r, p, v);
      }
    }
  }

  lemma RestListed(s: System, t: System, rs: seq<Request>, id: Identity, p: Place, q: Place)
    requires rs != [] && Listed(s, rs, id, p) && t.issued == s.issued && t.place == s.place[rs[0] := q]
    ensures Listed(t, rs[1..], id, p)
  {
    ListedTail(s, rs, id, p);
    var rest := rs[1..];
    forall i | 0 <= i < |rest| ensures rest[i] in t.place && t.place[rest[i]] == p {
      assert rs[0] < rest[i];
    }
  }

  lemma SettledQueues(s: System, t: System, r: Request, p: Place)
    requires QueuesPlaced(s) && Fifo(s) && t.shared == s.shared && t.issued == s.issued
    requires r in s.place && !s.place[r].Queued? && !p.Queued? && t.place == s.place[r := p]
    ensures QueuesPlaced(t) && Fifo(t)
  {
    forall id ensures Listed(t, QueueOf(t.shared, id), id, Queued) {
      assert Listed(s, QueueOf(s.shared, id), id, Queued);
      ListedUntouched(s, t, QueueOf(s.shared, id), id, Queued, r, p);
    }
  }

  lemma SettledRecorded(s: System, t: System, r: Request, o: Outcome)
    requires Numbered(s) && SettledPlaced(s) && r in s.place && s.place[r].Held?
    requires t.issued == s.issued && t.dropped == s.dropped && t.settled == s.settled + [Settlement(r, o)]
    requires t.place == s.place[r := SettledAt(|s.settled|)]
    ensures Numbered(t) && SettledPlaced(t)
  {
  }

  lemma FailQueueStep(s: System, w: WorkerId)
    requires Inv(s) && Enabled(s, FailQueue(w))
    ensures Inv(Next(s, FailQueue(w)))
  {
    FailQueueHeld(s, w);
    FailQueueQueues(s, w);
  }

  lemma FailQueueHeld(s: System, w: WorkerId)
    requires QueuesPlaced(s) && HeldPlaced(s) && Enabled(s, FailQueue(w))
    ensures HeldPlaced(Next(s, FailQueue(w)))
  {
    assert Listed(s, QueueOf(s.shared, s.workers[w].identity), s.workers[w].identity, Queued);
  }

  lemma FailQueueQueues(s: System, w: WorkerId)
    requires QueuesPlaced(s) && Enabled(s, FailQueue(w))
    ensures QueuesPlaced(Next(s, FailQueue(w)))
  {
    var t := Next(s, FailQueue(w));
    forall k ensures Listed(t, QueueOf(t.shared, k), k, Queued) {
      assert Listed(s, QueueOf(s.shared, k), k, Queued);
    }
  }

  /** What taking the head of a non-empty queue does, field by field. */
  ghost predicate HeadTaken(s: System, t: System, queue: seq<Request>, id: Identity, p: Place) {
    && queue != [] && queue == QueueOf(s.shared, id)
    && t.issued == s.issued && t.place == s.place[queue[0] := p]
    && (forall k :: QueueOf(t.shared, k) == if k == id then queue[1..] else QueueOf(s.shared, k))
    && (forall k :: k in t.shared.queue ==> t.shared.queue[k] != [])
  }

  lemma TakeFacts(s: System, w: WorkerId)
    requires Enabled(s, Take(w)) && QueueOf(s.shared, s.workers[w].identity) != []
    requires forall k :: k in s.shared.queue ==> s.shared.queue[k] != []
    ensures HeadTaken(s, Next(s, Take(w)), QueueOf(s.shared, s.workers[w].identity), s.workers[w].identity, Held(w))
  {
  }

  lemma TakeStep(s: System, w: WorkerId)
    requires Inv(s) && Enabled(s, Take(w)) && QueueOf(s.shared, s.workers[w].identity) != []
    ensures Inv(Next(s, Take(w)))
  {
    TakeHeld(s, w);
    TakeFacts(s, w);
    TakeQueues(s, Next(s, Take(w)), QueueOf(s.shared, s.workers[w].identity), s.workers[w].identity, w);
    TakeFifo(s, w);
    TakeSettled(s, w);
  }

  lemma TakeHeld(s: System, w: WorkerId)
    requires QueuesPlaced(s) && HeldPlaced(s) && Enabled(s, Take(w)) && QueueOf(s.shared, s.workers[w].identity) != []
    ensures HeldPlaced(Next(s, Take(w)))
  {
    var queue := QueueOf(s.shared, s.workers[w].identity);
    assert Listed(s, queue, s.workers[w].identity, Queued);
    TakenHeld(s, Next(s, Take(w)), w, queue[0]);
  }

  lemma TakenHeld(s: System, t: System, w: WorkerId, r: Request)
    requires HeldPlaced(s) && OneMoves(s, t, w, r, Held(w)) && s.place[r] == Queued
    requires s.workers[w].phase.Holds() == [] && t.workers[w].phase.Holds() == [r]
    ensures HeldPlaced(t)
  {
    forall v | 0 <= v < |t.workers| ensures Listed(t, t.workers[v].phase.Holds(), t.workers[v].identity, Held(v)) {
      if v != w {
        OthersHold(s, t, w, r, Held(w), v);
      }
    }
  }

  lemma TakeQueues(s: System, t: System, queue: seq<Request>, id: Identity, w: WorkerId)
    requires QueuesPlaced(s) && HeadTaken(s, t, queue, id, Held(w))
    ensures QueuesPlaced(t)
  {
    assert Listed(s, QueueOf(s.shared, id), id, Queued);
    forall k ensures Listed(t, QueueOf(t.shared, k), k, Queued) {
      assert Listed(s, QueueOf(s.shared, k), k, Queued);
      TakeListed(s, t, queue, id, QueueOf(s.shared, k), k, Held(w));
    }
    forall q: Request | q < |t.issued| && q in t.place && t.place[q].Queued?
      ensures q in QueueOf(t.shared, t.issued[q])
    {
      ListedTail(s, queue, id, Queued);
      assert q in QueueOf(s.shared, s.issued[q]);
    }
  }

  lemma TakeListed(s: System, t: System, queue: seq<Request>, id: Identity, rs: seq<Request>, k: Identity, p: Place)
    requires queue != [] && Listed(s, queue, id, Queued) && Listed(s, rs, k, Queued)
    requires t.issued == s.issued && t.place == s.place[queue[0] := p]
    requires k == id ==> rs == queue
    ensures Listed(t, if k == id then queue[1..] else rs, k, Queued)
  {
    if k == id {
      ListedTail(s, queue, id, Queued);
      ListedElsewhere(s, t, queue[1..], id);
    } else {
      ListedElsewhere(s, t, rs, k);
    }
  }

  lemma ListedElsewhere(s: System, t: System, rs: seq<Request>, id: Identity)
    requires Listed(s, rs, id, Queued) && t.issued == s.issued
    requires forall i :: 0 <= i < |rs| ==> rs[i] in t.place && t.place[rs[i]] == s.place[rs[i]]
    ensures Listed(t, rs, id, Queued)
  {
  }

  lemma TakeFifo(s: System, w: WorkerId)
    requires QueuesPlaced(s) && Fifo(s) && Enabled(s, Take(w)) && QueueOf(s.shared, s.workers[w].identity) != []
    ensures Fifo(Next(s, Take(w)))
  {
    ListedTail(s, QueueOf(s.shared, s.workers[w].identity), s.workers[w].identity, Queued);
  }

  lemma TakeSettled(s: System, w: WorkerId)
    requires Numbered(s) && QueuesPlaced(s) && SettledPlaced(s)
    requires Enabled(s, Take(w)) && QueueOf(s.shared, s.workers[w].identity) != []
    ensures SettledPlaced(Next(s, Take(w))) && Numbered(Next(s, Take(w)))
  {
    assert Listed(s, QueueOf(s.shared, s.workers[w].identity), s.workers[w].identity, Queued);
  }

  lemma QuietActions(s: System, a: Action)
    requires Inv(s) && Enabled(s, a)
    requires a.HandshakeOk? || a.MacKeyOk? || a.MacKeyFails? || a.CloseHandle?
             || (a.RejectNext? && s.workers[a.w].phase.pending == [])
             || (a.Take? && QueueOf(s.shared, s.workers[a.w].identity) == [])
    ensures Inv(Next(s, a))
  {
    QuietStep(s, Next(s, a));
  }

  lemma InvStep(s: System, a: Action)
    requires Inv(s) && Enabled(s, a)
    ensures Inv(Next(s, a))
  {
    if
    case a.Enqueue? => EnqueueStep(s, a.identity);
    case a.Take? && QueueOf(s.shared, s.workers[a.w].identity) != [] => TakeStep(s, a.w);
    case a.FailQueue? => FailQueueStep(s, a.w);
    case a.RejectNext? && s.workers[a.w].phase.pending != [] =>
      SettleStep(s, a.w, Rejecting(s.workers[a.w].phase.pending[1..]), Rejected);
    case a.Reply? => SettleStep(s, a.w, Draining(s.workers[a.w].phase.handle), a.outcome);
    case a.Reset? => ResetStep(s);
    case a.HandshakeOk? || a.MacKeyOk? || a.MacKeyFails? || a.CloseHandle? => QuietActions(s, a);
    case a.RejectNext? && s.workers[a.w].phase.pending == [] => QuietActions(s, a);
    case a.Take? && QueueOf(s.shared, s.workers[a.w].identity) == [] => QuietActions(s, a);
  }

  lemma ServedStep(s: System, a: Action)
    requires Served(s) && Enabled(s, a)
    ensures Served(Next(s, a))
  {
    var t := Next(s, a);
    forall id | id in t.shared.inProgress
      ensures exists w: WorkerId :: LiveFor(t, w, id)
    {
      if id in s.shared.inProgress {
        var w: WorkerId :| LiveFor(s, w, id);
        assert LiveFor(t, w, id);
      } else {
        assert LiveFor(t, |s.workers|, id);
      }
    }
  }

  lemma HandlesStep(s: System, a: Action)
    requires HandlesOwned(s) && Enabled(s, a)
    ensures HandlesOwned(Next(s, a))
  {
    if
    case a.HandshakeOk? => OpenStep(s, a.w, a.handle);
    case a.MacKeyFails? => CloseStep(s, a.w, Failed);
    case a.CloseHandle? => CloseStep(s, a.w, Done);
    case !a.HandshakeOk? && !a.MacKeyFails? && !a.CloseHandle? => KeepStep(s, Next(s, a));
  }

  lemma OpenStep(s: System, w: WorkerId, h: Handle)
    requires HandlesOwned(s) && Enabled(s, HandshakeOk(w, h))
    ensures HandlesOwned(Next(s, HandshakeOk(w, h)))
  {
    var t := Next(s, HandshakeOk(w, h));
    forall g | g in t.everOpened && g !in t.closed
      ensures exists v: WorkerId :: Holder(t, v, g)
    {
      if g == h {
        assert Holder(t, w, g);
      } else {
        var v: WorkerId :| Holder(s, v, g);
        assert Holder(t, v, g);
      }
    }
  }

  /** The only two places that close a handle: both belong to the worker that holds it. */
  lemma CloseStep(s: System, w: WorkerId, phase: Phase)
    requires HandlesOwned(s) && w < |s.workers| && s.workers[w].phase.HandleHeld().Some? && phase.HandleHeld().None?
    ensures HandlesOwned(Goto(s, w, phase).(closed := s.closed + [s.workers[w].phase.HandleHeld().value]))
  {
    var h := s.workers[w].phase.HandleHeld().value;
    var t := Goto(s, w, phase).(closed := s.closed + [h]);
    forall g | g in t.everOpened && g !in t.closed
      ensures exists v: WorkerId :: Holder(t, v, g)
    {
      assert g != h by { assert t.closed[|s.closed|] == h; }
      var v: WorkerId :| Holder(s, v, g);
      assert Holder(t, v, g);
    }
  }

  lemma KeepStep(s: System, t: System)
    requires HandlesOwned(s) && t.closed == s.closed && t.everOpened == s.everOpened
    requires |s.workers| <= |t.workers|
    requires forall w :: 0 <= w < |t.workers| ==>
      t.workers[w].phase.HandleHeld() == if w < |s.workers| then s.workers[w].phase.HandleHeld() else None
    ensures HandlesOwned(t)
  {
    forall g | g in t.everOpened && g !in t.closed
      ensures exists v: WorkerId :: Holder(t, v, g)
    {
      var v: WorkerId :| Holder(s, v, g);
      assert Holder(t, v, g);
    }
  }

  // ---- Every reachable state ----

  lemma {:induction false} Reachable(acts: seq<Action>)
    requires Exec(acts).Some?
    ensures Inv(Exec(acts).value) && Served(Exec(acts).value) && HandlesOwned(Exec(acts).value)
  {
    if acts != [] {
      var a := acts[|acts| - 1];
      Reachable(acts[..|acts| - 1]);
      var s := Exec(acts[..|acts| - 1]).value;
      InvStep(s, a);
      ServedStep(s, a);
      HandlesStep(s, a);
    }
  }

  /** The request is at this place, read off the queues, the workers and the settlement log. */
  ghost predicate At(s: System, r: Request, p: Place) {
    match p
    case Queued => r < |s.issued| && r in QueueOf(s.shared, s.issued[r])
    case Held(w) => w < |s.workers| && r in s.workers[w].phase.Holds()
    case SettledAt(i) => i < |s.settled| && s.settled[i].request == r
    case Dropped => r in s.dropped
  }

  ghost predicate Distinct(rs: seq<Request>) {
    forall i, j :: 0 <= i < j < |rs| ==> rs[i] != rs[j]
  }

  lemma PlaceIsRecorded(s: System, r: Request, p: Place)
    requires Inv(s) && r < |s.issued| && At(s, r, p)
    ensures p == s.place[r]
  {
    match p
    case Queued =>
      assert Listed(s, QueueOf(s.shared, s.issued[r]), s.issued[r], Queued);
    case Held(w) =>
      assert Listed(s, s.workers[w].phase.Holds(), s.workers[w].identity, Held(w));
    case SettledAt(i) =>
    case Dropped =>
  }

  lemma RecordedPlaceHolds(s: System, r: Request)
    requires Inv(s) && r < |s.issued|
    ensures At(s, r, s.place[r])
  {
  }

  /** Conservation: a request that was issued is in exactly one place and, as places in the settlement
    log are distinct, settles at most once. */
  lemma Conservation(acts: seq<Action>, r: Request)
    requires Exec(acts).Some? && r < |Exec(acts).value.issued|
    ensures exists p :: At(Exec(acts).value, r, p)
    ensures forall p, q :: At(Exec(acts).value, r, p) && At(Exec(acts).value, r, q) ==> p == q
  {
    Reachable(acts);
    var s := Exec(acts).value;
    RecordedPlaceHolds(s, r);
    forall p | At(s, r, p) ensures p == s.place[r] {
      PlaceIsRecorded(s, r, p);
    }
  }

  /** No queue and no worker holds a request twice. */
  lemma NoDuplicates(acts: seq<Action>, id: Identity, w: WorkerId)
    requires Exec(acts).Some? && w < |Exec(acts).value.workers|
    ensures Distinct(QueueOf(Exec(acts).value.shared, id))
    ensures Distinct(Exec(acts).value.workers[w].phase.Holds())
  {
    Reachable(acts);
    var s := Exec(acts).value;
    assert Listed(s, QueueOf(s.shared, id), id, Queued);
    assert Listed(s, s.workers[w].phase.Holds(), s.workers[w].identity, Held(w));
  }

  /** A settlement is never taken back. */
  lemma SettledForever(s: System, a: Action)
    requires Enabled(s, a)
    ensures s.settled <= Next(s, a).settled && s.dropped <= Next(s, a).dropped
  {
  }

  /** No request is stranded: a waiting request has a live worker, whatever resets went before. */
  lemma NoStrandedRequest(acts: seq<Action>, id: Identity)
    requires Exec(acts).Some?
    ensures var s := Exec(acts).value;
            && (QueueOf(s.shared, id) != [] ==> id in s.shared.inProgress)
            && (id in s.shared.inProgress ==> exists w: WorkerId :: LiveFor(s, w, id))
  {
    Reachable(acts);
  }

  /** Requests leave their queue in the order they entered it. */
  lemma LeavesInOrder(acts: seq<Action>, r: Request, q: Request)
    requires Exec(acts).Some?
    requires var s := Exec(acts).value; r < |s.issued| && q < |s.issued| && s.issued[r] == s.issued[q]
    requires var s := Exec(acts).value; At(s, q, Queued) && !At(s, r, Queued)
    ensures r < q
  {
    Reachable(acts);
    var s := Exec(acts).value;
    assert Listed(s, QueueOf(s.shared, s.issued[q]), s.issued[q], Queued);
  }

  /** Each handle a worker received is closed at most once, by the worker that holds it, and a worker
    about to send holds one that is still open. */
  lemma HandlesClosedOnce(acts: seq<Action>)
    requires Exec(acts).Some?
    ensures var s := Exec(acts).value;
            && (forall i, j :: 0 <= i < j < |s.closed| ==> s.closed[i] != s.closed[j])
            && (forall h :: h in s.closed ==> h in s.everOpened)
            && (forall h :: h in s.everOpened && h !in s.closed ==> exists w: WorkerId :: Holder(s, w, h))
            && (forall w, v, h :: Holder(s, w, h) && Holder(s, v, h) ==> w == v && h !in s.closed)
  {
    Reachable(acts);
    forall w, v, h | Holder(Exec(acts).value, w, h) && Holder(Exec(acts).value, v, h)
      ensures w == v && h !in Exec(acts).value.closed
    {
      SoleHolder(Exec(acts).value, w, v, h);
    }
  }

  lemma SoleHolder(s: System, w: WorkerId, v: WorkerId, h: Handle)
    requires HandlesOwned(s) && Holder(s, w, h) && Holder(s, v, h)
    ensures w == v && h !in s.closed
  {
  }

  // ---- Outcomes ----

  /** The action with index `k` settles `r` this way: the reply to `r` itself, or the rejection of a queue that held it. */
  ghost predicate SettledBy(acts: seq<Action>, k: nat, r: Request, o: Outcome) {
    && k < |acts| && Exec(acts[..k]).Some? && Enabled(Exec(acts[..k]).value, acts[k])
    && SettlesNow(Exec(acts[..k]).value, acts[k], r, o)
  }

  ghost predicate SettlesNow(s: System, a: Action, r: Request, o: Outcome) {
    match a
    case Reply(w, outcome) => w < |s.workers| && s.workers[w].phase.Sending? && s.workers[w].phase.request == r && outcome == o
    case RejectNext(w) =>
      && o == Rejected && w < |s.workers| && s.workers[w].phase.Rejecting?
      && s.workers[w].phase.pending != [] && s.workers[w].phase.pending[0] == r
    case _ => false
  }

  lemma SettlementStep(s: System, a: Action, r: Request, o: Outcome)
    requires Enabled(s, a)
    ensures Settlement(r, o) in Next(s, a).settled <==> Settlement(r, o) in s.settled || SettlesNow(s, a, r, o)
  {
  }

  lemma SettledByBefore(acts: seq<Action>, k: nat, r: Request, o: Outcome)
    requires acts != [] && k < |acts| - 1
    ensures SettledBy(acts, k, r, o) <==> SettledBy(acts[..|acts| - 1], k, r, o)
  {
    assert acts[..|acts| - 1][..k] == acts[..k];
  }

  /** In every run a request settles with an outcome if and only if its own reply carried that outcome, or it was in the queue a
    failed worker rejected and the outcome is Rejected. */
  lemma {:induction false} OutcomesExactly(acts: seq<Action>, r: Request, o: Outcome)
    requires Exec(acts).Some?
    ensures Settlement(r, o) in Exec(acts).value.settled <==> exists k: nat :: SettledBy(acts, k, r, o)
    decreases |acts|
  {
    if acts != [] {
      var last := |acts| - 1;
      var before := acts[..last];
      OutcomesExactly(before, r, o);
      SettlementStep(Exec(before).value, acts[last], r, o);
      forall k: nat | k < last ensures SettledBy(acts, k, r, o) <==> SettledBy(before, k, r, o) {
        SettledByBefore(acts, k, r, o);
      }
      assert SettledBy(acts, last, r, o) <==> SettlesNow(Exec(before).value, acts[last], r, o);
      if exists k: nat :: SettledBy(before, k, r, o) {
        var k: nat :| SettledBy(before, k, r, o);
        assert SettledBy(acts, k, r, o);
      }
      if exists k: nat :: SettledBy(acts, k, r, o) {
        var k: nat :| SettledBy(acts, k, r, o);
        assert k == last || SettledBy(before, k, r, o);
      }
    }
  }

  /** A request settles Resolved if and only if its own reply was Resolved. */
  lemma ResolvedExactly(acts: seq<Action>, r: Request)
    requires Exec(acts).Some?
    ensures Settlement(r, Resolved) in Exec(acts).value.settled <==>
            exists k: nat :: SettledBy(acts, k, r, Resolved) && acts[k].Reply? && acts[k].outcome == Resolved
  {
    OutcomesExactly(acts, r, Resolved);
    if Settlement(r, Resolved) in Exec(acts).value.settled {
      var k: nat :| SettledBy(acts, k, r, Resolved);
      assert acts[k].Reply?;
    }
  }
}
