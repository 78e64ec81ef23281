/** The workers finish: between two calls from outside only finitely many worker steps are possible, and
  where none is left every request has settled or was dropped by a reset. */
module RequestQueueCompletion {
  import opened Bytes
  import opened RequestQueue
  import opened RequestQueueProofs
  import RequestQueueOrder

  predicate WorkerAction(a: Action) {
    !a.Enqueue? && !a.Reset?
  }

  function Rank(phase: Phase): nat {
    match phase
    case Handshaking => 4
    case Connected(_) => 3
    case Sending(_, _) => 3
    case Failed => 2
    case Draining(_) => 2
    case Closing(_) => 1
    case Rejecting(pending) => 1 + |pending|
    case Done => 0
  }

  function Ranks(workers: seq<Worker>): nat {
    if workers == [] then 0 else Ranks(workers[..|workers| - 1]) + Rank(workers[|workers| - 1].phase)
  }

  function Waiting(s: System): set<Request> {
    set r | r in s.place && s.place[r].Queued?
  }

  /** A bound on the worker steps still possible. */
  function Work(s: System): nat {
    Ranks(s.workers) + 2 * |Waiting(s)|
  }

  lemma {:induction false} RanksUpdate(workers: seq<Worker>, w: WorkerId, x: Worker)
    requires w < |workers|
    ensures Ranks(workers[w := x]) + Rank(workers[w].phase) == Ranks(workers) + Rank(x.phase)
  {
    var last := |workers| - 1;
    if w == last {
      assert workers[w := x][..last] == workers[..last];
    } else {
      assert workers[w := x][..last] == workers[..last][w := x];
      RanksUpdate(workers[..last], w, x);
    }
  }

  function Members(rs: seq<Request>): set<Request> {
    set r | r in rs
  }

  lemma {:induction false} IncreasingSize(rs: seq<Request>)
    requires Increasing(rs)
    ensures |Members(rs)| == |rs|
  {
    if rs != [] {
      var last := |rs| - 1;
      IncreasingSize(rs[..last]);
      assert rs[last] !in rs[..last];
      assert Members(rs) == Members(rs[..last]) + {rs[last]};
    }
  }

  lemma LeavesWaiting(s: System, t: System, r: Request, p: Place)
    requires r in s.place && s.place[r].Queued? && t.place == s.place[r := p] && !p.Queued?
    ensures |Waiting(t)| < |Waiting(s)|
  {
    assert Waiting(t) == Waiting(s) - {r};
  }

  lemma TakeShrinks(s: System, w: WorkerId)
    requires Inv(s) && Enabled(s, Take(w)) && QueueOf(s.shared, s.workers[w].identity) != []
    ensures |Waiting(Next(s, Take(w)))| < |Waiting(s)|
  {
    var t := Next(s, Take(w));
    var queue := QueueOf(s.shared, s.workers[w].identity);
    assert Listed(s, queue, s.workers[w].identity, Queued);
    TakeFacts(s, w);
    HeadLeaves(s, t, queue, s.workers[w].identity, Held(w));
  }

  lemma HeadLeaves(s: System, t: System, queue: seq<Request>, id: Identity, p: Place)
    requires queue != [] && Listed(s, queue, id, Queued) && t.place == s.place[queue[0] := p] && !p.Queued?
    ensures |Waiting(t)| < |Waiting(s)|
  {
    LeavesWaiting(s, t, queue[0], p);
  }

  lemma FailShrinks(s: System, w: WorkerId)
    requires Inv(s) && Enabled(s, FailQueue(w))
    ensures |Waiting(Next(s, FailQueue(w)))| + |QueueOf(s.shared, s.workers[w].identity)| == |Waiting(s)|
  {
    var queue := QueueOf(s.shared, s.workers[w].identity);
    assert Listed(s, queue, s.workers[w].identity, Queued);
    MovedWaiting(s, Next(s, FailQueue(w)), queue, s.workers[w].identity, Held(w));
    IncreasingSize(queue);
  }

  lemma MovedWaiting(s: System, t: System, rs: seq<Request>, id: Identity, p: Place)
    requires Listed(s, rs, id, Queued)
    requires t.place == Moved(s.place, rs, p) && !p.Queued?
    ensures |Waiting(t)| + |Members(rs)| == |Waiting(s)|
  {
    assert Members(rs) <= Waiting(s);
    assert Waiting(t) == Waiting(s) - Members(rs);
  }

  lemma NoneJoins(s: System, t: System)
    requires forall r :: r in t.place && t.place[r].Queued? ==> r in s.place && s.place[r].Queued?
    ensures Waiting(t) <= Waiting(s) && |Waiting(t)| <= |Waiting(s)|
  {
    assert Waiting(s) == Waiting(t) + (Waiting(s) - Waiting(t));
  }

  /** Apart from the two critical sections that empty a queue, a worker only moves on in its own life. */
  lemma OwnStepShrinks(s: System, a: Action)
    requires Enabled(s, a) && WorkerAction(a) && !a.FailQueue?
    requires a.Take? ==> QueueOf(s.shared, s.workers[a.w].identity) == []
    ensures a.w < |Next(s, a).workers| && Rank(Next(s, a).workers[a.w].phase) < Rank(s.workers[a.w].phase)
    ensures |Waiting(Next(s, a))| <= |Waiting(s)|
  {
    NoneJoins(s, Next(s, a));
  }

  lemma RanksMove(s: System, a: Action)
    requires Enabled(s, a) && WorkerAction(a)
    ensures |Next(s, a).workers| == |s.workers|
    ensures Ranks(Next(s, a).workers) + Rank(s.workers[a.w].phase) ==
            Ranks(s.workers) + Rank(Next(s, a).workers[a.w].phase)
  {
    assert Next(s, a).workers == s.workers[a.w := Next(s, a).workers[a.w]];
    RanksUpdate(s.workers, a.w, Next(s, a).workers[a.w]);
  }

  /** What one worker step does to the measure, the other workers aside. */
  ghost predicate Shrinks(s: System, t: System, w: WorkerId) {
    && w < |s.workers| && w < |t.workers|
    && Rank(t.workers[w].phase) + 2 * |Waiting(t)| < Rank(s.workers[w].phase) + 2 * |Waiting(s)|
  }

  lemma FailStepShrinks(s: System, w: WorkerId)
    requires Inv(s) && Enabled(s, FailQueue(w))
    ensures Shrinks(s, Next(s, FailQueue(w)), w)
  {
    FailShrinks(s, w);
    FailLower(s, Next(s, FailQueue(w)), w, QueueOf(s.shared, s.workers[w].identity));
  }

  lemma FailLower(s: System, t: System, w: WorkerId, queue: seq<Request>)
    requires w < |s.workers| && w < |t.workers| && |Waiting(t)| + |queue| == |Waiting(s)|
    requires Rank(s.workers[w].phase) >= 2 && t.workers[w].phase == Rejecting(queue)
    ensures Shrinks(s, t, w)
  {
  }

  lemma TakeStepShrinks(s: System, w: WorkerId)
    requires Inv(s) && Enabled(s, Take(w)) && QueueOf(s.shared, s.workers[w].identity) != []
    ensures Shrinks(s, Next(s, Take(w)), w)
  {
    TakeShrinks(s, w);
    TakerSends(s, w);
    Lower(s, Next(s, Take(w)), w);
  }

  lemma TakerSends(s: System, w: WorkerId)
    requires Enabled(s, Take(w)) && QueueOf(s.shared, s.workers[w].identity) != []
    ensures w < |Next(s, Take(w)).workers| && Rank(Next(s, Take(w)).workers[w].phase) == Rank(s.workers[w].phase) + 1
  {
  }

  /** The measure of a worker may rise by one where a request stops waiting. */
  lemma Lower(s: System, t: System, w: WorkerId)
    requires w < |s.workers| && w < |t.workers| && |Waiting(t)| < |Waiting(s)|
    requires Rank(t.workers[w].phase) <= Rank(s.workers[w].phase) + 1
    ensures Shrinks(s, t, w)
  {
  }

  lemma StepShrinks(s: System, a: Action)
    requires Inv(s) && Enabled(s, a) && WorkerAction(a)
    ensures Shrinks(s, Next(s, a), a.w)
  {
    if
    case a.FailQueue? => FailStepShrinks(s, a.w);
    case a.Take? && QueueOf(s.shared, s.workers[a.w].identity) != [] => TakeStepShrinks(s, a.w);
    case !a.FailQueue? && (a.Take? ==> QueueOf(s.shared, s.workers[a.w].identity) == []) =>
      OwnStepShrinks(s, a);
  }

  lemma WorkShrinks(s: System, a: Action)
    requires Inv(s) && Enabled(s, a) && WorkerAction(a)
    ensures Work(Next(s, a)) < Work(s)
  {
    RanksMove(s, a);
    StepShrinks(s, a);
  }

  /** However the workers are scheduled, they take at most `Work` steps before the next outside call. */
  lemma {:induction false} WorkersFinish(acts: seq<Action>, more: seq<Action>)
    requires Exec(acts + more).Some? && forall a :: a in more ==> WorkerAction(a)
    ensures Exec(acts).Some? && Work(Exec(acts + more).value) + |more| <= Work(Exec(acts).value)
  {
    if more == [] {
      assert acts + more == acts;
    } else {
      var last := |more| - 1;
      var before := acts + more[..last];
      assert (acts + more)[..|acts + more| - 1] == before && (acts + more)[|acts + more| - 1] == more[last];
      WorkersFinish(acts, more[..last]);
      assert more[last] in more;
      LastShrinks(before, acts + more, more[last]);
    }
  }

  lemma LastShrinks(before: seq<Action>, acts: seq<Action>, a: Action)
    requires acts != [] && acts[..|acts| - 1] == before && acts[|acts| - 1] == a
    requires Exec(acts).Some? && WorkerAction(a)
    ensures Exec(before).Some? && Work(Exec(acts).value) < Work(Exec(before).value)
  {
    Reachable(before);
    WorkShrinks(Exec(before).value, a);
  }

  ghost predicate Quiet(s: System) {
    forall a :: WorkerAction(a) ==> !Enabled(s, a)
  }

  lemma QuietWorker(s: System, w: WorkerId)
    requires Quiet(s) && w < |s.workers|
    ensures s.workers[w].phase.Done?
  {
    assert !Enabled(s, FailQueue(w)) && !Enabled(s, MacKeyOk(w)) && !Enabled(s, RejectNext(w));
    assert !Enabled(s, Take(w)) && !Enabled(s, Reply(w, Resolved)) && !Enabled(s, CloseHandle(w));
  }

  lemma QuietQueue(s: System, id: Identity)
    requires Served(s) && Quiet(s)
    ensures QueueOf(s.shared, id) == []
  {
    if id in s.shared.queue {
      var w: WorkerId :| LiveFor(s, w, id);
      QuietWorker(s, w);
    }
  }

  lemma QuietPlace(s: System, r: Request)
    requires Served(s) && Quiet(s) && r < |s.issued| && r in s.place && At(s, r, s.place[r])
    ensures s.place[r].SettledAt? || s.place[r].Dropped?
  {
    QuietQueue(s, s.issued[r]);
    if s.place[r].Held? {
      QuietWorker(s, s.place[r].worker);
    }
  }

  /** Where the workers have no step left, every handle that was opened has been closed, once. */
  lemma QuietMeansClosed(acts: seq<Action>, h: Handle)
    requires Exec(acts).Some? && Quiet(Exec(acts).value) && h in Exec(acts).value.everOpened
    ensures var s := Exec(acts).value;
            exists i :: 0 <= i < |s.closed| && s.closed[i] == h && forall j :: 0 <= j < |s.closed| && s.closed[j] == h ==> j == i
  {
    Reachable(acts);
    var s := Exec(acts).value;
    if h !in s.closed {
      var w: WorkerId :| Holder(s, w, h);
      QuietWorker(s, w);
    }
    var i :| 0 <= i < |s.closed| && s.closed[i] == h;
  }

  /** Where the workers have no step left, every issued request has settled or was dropped by a reset. */
  lemma QuietMeansSettled(acts: seq<Action>, r: Request)
    requires Exec(acts).Some? && Quiet(Exec(acts).value) && r < |Exec(acts).value.issued|
    ensures RequestQueueOrder.HasSettled(Exec(acts).value, r) || r in Exec(acts).value.dropped
    ensures RequestQueueOrder.NoReset(acts) ==> RequestQueueOrder.HasSettled(Exec(acts).value, r)
  {
    Reachable(acts);
    var s := Exec(acts).value;
    RecordedPlaceHolds(s, r);
    QuietPlace(s, r);
    RequestQueueOrder.SettledIsRecorded(s, r);
    if RequestQueueOrder.NoReset(acts) {
      RequestQueueOrder.ReachableWithoutReset(acts);
    }
  }
}
