/** Runs without a reset: one worker per identity, and when requests settle in enqueue order. */
module RequestQueueOrder {
  import opened Bytes
  import opened RequestQueue
  import opened RequestQueueProofs

  predicate NoReset(acts: seq<Action>) {
    Reset !in acts
  }

  /** At most one worker of an identity has not passed its exit, and it is marked in progress. */
  ghost predicate SoleWorker(s: System) {
    && (forall w: WorkerId, v: WorkerId, id :: LiveFor(s, w, id) && LiveFor(s, v, id) ==> w == v)
    && (forall w: WorkerId, id :: LiveFor(s, w, id) ==> id in s.shared.inProgress)
  }

  /** What a failed worker still has to reject is older than anything taken after it left. */
  ghost predicate FailedFirst(s: System) {
    forall w: WorkerId, v: WorkerId, i :: Leftover(s, w, v, i) ==> s.workers[w].phase.pending[i] < s.workers[v].phase.request
  }

  ghost predicate Leftover(s: System, w: WorkerId, v: WorkerId, i: int) {
    && w < |s.workers| && v < |s.workers| && s.workers[w].identity == s.workers[v].identity
    && s.workers[w].phase.Rejecting? && s.workers[v].phase.Sending? && 0 <= i < |s.workers[w].phase.pending|
  }

  lemma SoleWorkerStep(s: System, a: Action)
    requires SoleWorker(s) && Enabled(s, a) && !a.Reset?
    ensures SoleWorker(Next(s, a))
  {
    var t := Next(s, a);
    assert a.FailQueue? || a.Take? ==> LiveFor(s, a.w, s.workers[a.w].identity);
    forall w: WorkerId, id | LiveFor(t, w, id)
      ensures id in t.shared.inProgress
    {
      assert w < |s.workers| ==> LiveFor(s, w, id);
    }
    forall w: WorkerId, v: WorkerId, id | LiveFor(t, w, id) && LiveFor(t, v, id)
      ensures w == v
    {
      assert w < |s.workers| ==> LiveFor(s, w, id);
      assert v < |s.workers| ==> LiveFor(s, v, id);
    }
  }

  lemma FailedFirstStep(s: System, a: Action)
    requires Inv(s) && SoleWorker(s) && FailedFirst(s) && Enabled(s, a) && !a.Reset?
    ensures FailedFirst(Next(s, a))
  {
    var t := Next(s, a);
    forall w: WorkerId, v: WorkerId, i | Leftover(t, w, v, i)
      ensures t.workers[w].phase.pending[i] < t.workers[v].phase.request
    {
      LeftoverStep(s, a, w, v, i);
    }
  }

  lemma LeftoverStep(s: System, a: Action, w: WorkerId, v: WorkerId, i: int)
    requires Inv(s) && SoleWorker(s) && FailedFirst(s) && Enabled(s, a) && !a.Reset?
    requires Leftover(Next(s, a), w, v, i)
    ensures Next(s, a).workers[w].phase.pending[i] < Next(s, a).workers[v].phase.request
  {
    if a.Take? && v == a.w {
      FailedBeforeTake(s, v, w, i);
    } else if a.FailQueue? && w == a.w {
      FailsAlone(s, w, v);
    } else if a.RejectNext? && w == a.w {
      RejectKeeps(s, w, v, i);
    } else {
      StepSpares(s, a, w, v);
      assert Leftover(s, w, v, i);
    }
  }

  lemma RejectKeeps(s: System, w: WorkerId, v: WorkerId, i: int)
    requires FailedFirst(s) && Enabled(s, RejectNext(w)) && Leftover(Next(s, RejectNext(w)), w, v, i)
    ensures Next(s, RejectNext(w)).workers[w].phase.pending[i] < Next(s, RejectNext(w)).workers[v].phase.request
  {
    assert Leftover(s, w, v, i + 1);
  }

  /** A worker enters rejecting or sending only by its own critical sections. */
  lemma StepSpares(s: System, a: Action, w: WorkerId, v: WorkerId)
    requires Enabled(s, a) && w < |Next(s, a).workers| && v < |Next(s, a).workers|
    requires Next(s, a).workers[w].phase.Rejecting? && Next(s, a).workers[v].phase.Sending?
    requires !(a.Take? && v == a.w) && !(a.FailQueue? && w == a.w) && !(a.RejectNext? && w == a.w)
    ensures w < |s.workers| && Next(s, a).workers[w] == s.workers[w]
    ensures v < |s.workers| && Next(s, a).workers[v] == s.workers[v]
  {
  }

  /** While a worker has not failed yet, no other worker of its identity is sending. */
  lemma FailsAlone(s: System, w: WorkerId, v: WorkerId)
    requires SoleWorker(s) && Enabled(s, FailQueue(w)) && v < |s.workers| && v != w
    requires s.workers[v].identity == s.workers[w].identity
    ensures !s.workers[v].phase.Sending?
  {
    var id := s.workers[w].identity;
    assert LiveFor(s, w, id);
    assert s.workers[v].phase.Sending? ==> LiveFor(s, v, id);
  }

  lemma FailedBeforeTake(s: System, v: WorkerId, w: WorkerId, i: int)
    requires Inv(s) && Enabled(s, Take(v)) && Leftover(Next(s, Take(v)), w, v, i)
    ensures s.workers[w].phase.pending[i] < Next(s, Take(v)).workers[v].phase.request
  {
    var id := s.workers[v].identity;
    var r := Next(s, Take(v)).workers[v].phase.request;
    assert r == QueueOf(s.shared, id)[0];
    assert Listed(s, QueueOf(s.shared, id), id, Queued);
    assert Listed(s, s.workers[w].phase.Holds(), id, Held(w));
  }

  lemma {:induction false} ReachableWithoutReset(acts: seq<Action>)
    requires Exec(acts).Some? && NoReset(acts)
    ensures var s := Exec(acts).value; SoleWorker(s) && FailedFirst(s) && s.dropped == {}
  {
    if acts != [] {
      var before := acts[..|acts| - 1];
      ReachableWithoutReset(before);
      Reachable(before);
      SoleWorkerStep(Exec(before).value, acts[|acts| - 1]);
      FailedFirstStep(Exec(before).value, acts[|acts| - 1]);
    }
  }

  /** Without a reset an identity never has two workers before their exits. */
  lemma OneWorkerPerIdentity(acts: seq<Action>, w: WorkerId, v: WorkerId, id: Identity)
    requires Exec(acts).Some? && NoReset(acts)
    requires LiveFor(Exec(acts).value, w, id) && LiveFor(Exec(acts).value, v, id)
    ensures w == v
  {
    ReachableWithoutReset(acts);
  }

  // ---- Settlement order ----

  /** The request an action settles, if any. */
  function Settles(s: System, a: Action): Option<Request>
    requires Enabled(s, a)
  {
    match a
    case Reply(w, _) => Some(s.workers[w].phase.request)
    case RejectNext(w) => if s.workers[w].phase.pending == [] then None else Some(s.workers[w].phase.pending[0])
    case _ => None
  }

  ghost predicate HasSettled(s: System, r: Request) {
    exists i :: 0 <= i < |s.settled| && s.settled[i].request == r
  }

  /** Every earlier request of the identity of `r` has settled already. */
  ghost predicate InTurn(s: System, r: Request) {
    r < |s.issued| && forall q: Request :: q < r && s.issued[q] == s.issued[r] ==> HasSettled(s, q)
  }

  /** Another worker, whose handshake failed, is still rejecting a request older than `r`. */
  ghost predicate Overtakes(s: System, w: WorkerId, r: Request) {
    exists v: WorkerId, q :: RejectsLate(s, w, v, r, q)
  }

  ghost predicate RejectsLate(s: System, w: WorkerId, v: WorkerId, r: Request, q: Request) {
    && w < |s.workers| && v < |s.workers| && v != w && s.workers[v].identity == s.workers[w].identity
    && s.workers[v].phase.Rejecting? && q in s.workers[v].phase.pending && q < r
  }

  lemma SettlerHolds(s: System, a: Action)
    requires Inv(s) && Enabled(s, a) && Settles(s, a).Some?
    ensures var r := Settles(s, a).value;
            r < |s.issued| && r in s.place && s.place[r] == Held(a.w) && s.issued[r] == s.workers[a.w].identity
    ensures forall q :: q in s.workers[a.w].phase.Holds() ==> Settles(s, a).value <= q
  {
    assert Listed(s, s.workers[a.w].phase.Holds(), s.workers[a.w].identity, Held(a.w));
    assert Settles(s, a).value == s.workers[a.w].phase.Holds()[0];
  }

  lemma SettledIsRecorded(s: System, r: Request)
    requires Inv(s) && r < |s.issued|
    ensures HasSettled(s, r) <==> s.place[r].SettledAt?
  {
  }

  lemma LateMeansOutOfTurn(s: System, a: Action, v: WorkerId, q: Request)
    requires Inv(s) && Enabled(s, a) && Settles(s, a).Some? && RejectsLate(s, a.w, v, Settles(s, a).value, q)
    ensures !InTurn(s, Settles(s, a).value)
  {
    SettlerHolds(s, a);
    assert Listed(s, s.workers[v].phase.Holds(), s.workers[v].identity, Held(v));
    SettledIsRecorded(s, q);
  }

  lemma SenderIsLater(s: System, a: Action, v: WorkerId)
    requires SoleWorker(s) && FailedFirst(s) && Enabled(s, a) && Settles(s, a).Some?
    requires v < |s.workers| && v != a.w && s.workers[v].identity == s.workers[a.w].identity && s.workers[v].phase.Sending?
    ensures Settles(s, a).value < s.workers[v].phase.request
  {
    var id := s.workers[v].identity;
    var bothLive := LiveFor(s, v, id) && LiveFor(s, a.w, id);
    if a.RejectNext? {
      assert Leftover(s, a.w, v, 0);
    } else {
      assert false;
    }
  }

  lemma OnTimeMeansInTurn(s: System, a: Action, q: Request)
    requires Inv(s) && SoleWorker(s) && FailedFirst(s) && s.dropped == {}
    requires Enabled(s, a) && Settles(s, a).Some? && !Overtakes(s, a.w, Settles(s, a).value)
    requires q < Settles(s, a).value < |s.issued| && s.issued[q] == s.issued[Settles(s, a).value]
    ensures HasSettled(s, q)
  {
    var r := Settles(s, a).value;
    SettlerHolds(s, a);
    SettledIsRecorded(s, q);
    if s.place[q].Held? {
      var v := s.place[q].worker;
      assert Listed(s, s.workers[v].phase.Holds(), s.workers[v].identity, Held(v));
      if v != a.w && s.workers[v].phase.Rejecting? {
        assert RejectsLate(s, a.w, v, r, q);
      } else if v != a.w {
        SenderIsLater(s, a, v);
      }
    }
  }

  /** The exact condition for a request to settle in turn: enqueue order fails when, and only when, it
    overtakes a worker whose handshake failed and whose reject loop, outside the lock, is not through. */
  lemma SettlesInTurnExactly(acts: seq<Action>, a: Action)
    requires Exec(acts).Some? && NoReset(acts)
    requires Enabled(Exec(acts).value, a) && Settles(Exec(acts).value, a).Some?
    ensures var s := Exec(acts).value; var r := Settles(s, a).value;
            InTurn(s, r) <==> !Overtakes(s, a.w, r)
  {
    Reachable(acts);
    ReachableWithoutReset(acts);
    var s := Exec(acts).value;
    var r := Settles(s, a).value;
    SettlerHolds(s, a);
    if Overtakes(s, a.w, r) {
      var v: WorkerId, q :| RejectsLate(s, a.w, v, r, q);
      LateMeansOutOfTurn(s, a, v, q);
    } else {
      forall q: Request | q < r && s.issued[q] == s.issued[r] ensures HasSettled(s, q) {
        OnTimeMeansInTurn(s, a, q);
      }
    }
  }

  /** Within an identity the settlement log is in enqueue order, and what is settled precedes what is not. */
  ghost predicate SettledInOrder(s: System) {
    && (forall i, j :: 0 <= i < j < |s.settled| && SameIdentity(s, s.settled[i].request, s.settled[j].request) ==>
          s.settled[i].request < s.settled[j].request)
    && (forall i, r: Request :: 0 <= i < |s.settled| && SameIdentity(s, s.settled[i].request, r) && !HasSettled(s, r) ==>
          s.settled[i].request < r)
  }

  ghost predicate SameIdentity(s: System, r: Request, q: Request) {
    r < |s.issued| && q < |s.issued| && s.issued[r] == s.issued[q]
  }

  ghost predicate NoneRejecting(s: System) {
    forall w :: 0 <= w < |s.workers| ==> !s.workers[w].phase.Rejecting?
  }

  lemma SettleInOrderStep(s: System, t: System, r: Request, o: Outcome)
    requires SettledInOrder(s) && InTurn(s, r) && !HasSettled(s, r)
    requires t.issued == s.issued && t.settled == s.settled + [Settlement(r, o)]
    ensures SettledInOrder(t)
  {
    forall q: Request ensures HasSettled(t, q) <==> HasSettled(s, q) || q == r {
      if HasSettled(s, q) {
        var i :| 0 <= i < |s.settled| && s.settled[i].request == q;
        assert t.settled[i].request == q;
      }
      assert t.settled[|s.settled|].request == r;
    }
  }

  lemma EnqueueInOrderStep(s: System, t: System)
    requires Inv(s) && SettledInOrder(s) && s.issued <= t.issued && t.settled == s.settled
    ensures SettledInOrder(t)
  {
    forall i, r: Request | 0 <= i < |t.settled| && SameIdentity(t, t.settled[i].request, r) && !HasSettled(t, r)
      ensures t.settled[i].request < r
    {
      assert !HasSettled(s, r);
      assert r < |s.issued| ==> SameIdentity(s, s.settled[i].request, r);
    }
    forall i, j | 0 <= i < j < |t.settled| && SameIdentity(t, t.settled[i].request, t.settled[j].request)
      ensures t.settled[i].request < t.settled[j].request
    {
      assert SameIdentity(s, s.settled[i].request, s.settled[j].request);
    }
  }

  lemma InOrderStep(before: seq<Action>, a: Action)
    requires Exec(before).Some? && NoReset(before) && Enabled(Exec(before).value, a) && !a.FailQueue?
    requires SettledInOrder(Exec(before).value) && NoneRejecting(Exec(before).value)
    ensures SettledInOrder(Next(Exec(before).value, a))
  {
    var s := Exec(before).value;
    Reachable(before);
    if a.Reply? {
      SettlesInTurnExactly(before, a);
      SettlerHolds(s, a);
      SettledIsRecorded(s, Settles(s, a).value);
      SettleInOrderStep(s, Next(s, a), Settles(s, a).value, a.outcome);
    } else {
      assert !a.RejectNext?;
      EnqueueInOrderStep(s, Next(s, a));
    }
  }

  /** Where no handshake fails and nothing resets, each identity's requests settle in enqueue order. */
  lemma {:induction false} SettlesInEnqueueOrder(acts: seq<Action>)
    requires Exec(acts).Some? && NoReset(acts) && forall a :: a in acts ==> !a.FailQueue?
    ensures SettledInOrder(Exec(acts).value) && NoneRejecting(Exec(acts).value)
  {
    if acts != [] {
      var before := acts[..|acts| - 1];
      SettlesInEnqueueOrder(before);
      assert acts[|acts| - 1] in acts;
      InOrderStep(before, acts[|acts| - 1]);
    }
  }

  const OVERTAKING := [Enqueue("id"), FailQueue(0), Enqueue("id"), HandshakeOk(1, 7), MacKeyOk(1), Take(1),
                       Reply(1, Resolved), RejectNext(0)]

  lemma ExecStep(s: System, n: nat) returns (t: System)
    requires n < |OVERTAKING| && Exec(OVERTAKING[..n]) == Some(s) && Enabled(s, OVERTAKING[n])
    ensures t == Next(s, OVERTAKING[n]) && Exec(OVERTAKING[..n + 1]) == Some(t)
  {
    assert OVERTAKING[..n + 1][..n] == OVERTAKING[..n];
    t := Next(s, OVERTAKING[n]);
  }

  /** Enqueue order is not kept in general: request 1 resolves before request 0 is rejected. */
  lemma OvertakingHappens()
    ensures NoReset(OVERTAKING) && Exec(OVERTAKING).Some?
    ensures Exec(OVERTAKING).value.settled == [Settlement(1, Resolved), Settlement(0, Rejected)]
    ensures Exec(OVERTAKING).value.issued == ["id", "id"]
  {
    var s := OvertakingReplies();
    s := ExecStep(s, 7);
    assert OVERTAKING[..8] == OVERTAKING;
  }

  lemma OvertakingReplies() returns (s: System)
    ensures Exec(OVERTAKING[..7]) == Some(s) && s.settled == [Settlement(1, Resolved)] && s.issued == ["id", "id"]
    ensures |s.workers| == 2 && s.workers[0] == Worker("id", Rejecting([0]))
  {
    s := OvertakingStarts();
    s := ExecStep(s, 5);
    assert s.workers[1] == Worker("id", Sending(7, 1));
    s := ExecStep(s, 6);
  }

  lemma OvertakingStarts() returns (s: System)
    ensures Exec(OVERTAKING[..5]) == Some(s) && s.settled == [] && s.issued == ["id", "id"]
    ensures s.workers == [Worker("id", Rejecting([0])), Worker("id", Draining(7))]
    ensures s.shared == Shared(map["id" := [1]], {"id"})
  {
    s := OvertakingFails();
    s := ExecStep(s, 3);
    assert s.workers[1] == Worker("id", Connected(7));
    s := ExecStep(s, 4);
  }

  lemma FirstEnqueued(s: System)
    requires s.shared == CLEARED
    ensures Next(s, Enqueue("id")).shared == Shared(map["id" := [|s.issued|]], {"id"})
  {
    assert QueueOf(s.shared, "id") + [|s.issued|] == [|s.issued|];
  }

  lemma OvertakingFails() returns (s: System)
    ensures Exec(OVERTAKING[..3]) == Some(s) && s.settled == [] && s.issued == ["id", "id"]
    ensures s.workers == [Worker("id", Rejecting([0])), Worker("id", Handshaking)] && s.everOpened == {}
    ensures s.shared == Shared(map["id" := [1]], {"id"})
  {
    assert OVERTAKING[..0] == [];
    FirstEnqueued(INITIAL);
    s := ExecStep(INITIAL, 0);
    s := ExecStep(s, 1);
    assert s.shared == CLEARED;
    FirstEnqueued(s);
    s := ExecStep(s, 2);
  }

  // ---- Resets ----

  /** A reset empties both guarded fields and drops what was queued; workers, what they hold, settlements and handles stay. */
  lemma ResetExactly(s: System)
    ensures var t := Next(s, Reset);
            && t.shared.queue == map[] && t.shared.inProgress == {}
            && t.workers == s.workers && t.settled == s.settled && t.issued == s.issued
            && t.everOpened == s.everOpened && t.closed == s.closed
            && (forall r :: r in t.dropped <==> r in s.dropped || exists id :: id in s.shared.queue && r in s.shared.queue[id])
  {
  }

  /** So a reset can leave two workers of one identity shaking hands at once. */
  lemma TwoWorkersAfterReset() returns (acts: seq<Action>)
    ensures Exec(acts).Some? && |Exec(acts).value.workers| == 2
    ensures LiveFor(Exec(acts).value, 0, "id") && LiveFor(Exec(acts).value, 1, "id")
    ensures Exec(acts).value.dropped == {0}
  {
    var a, b, c := [Enqueue("id")], [Enqueue("id"), Reset], [Enqueue("id"), Reset, Enqueue("id")];
    assert a[..0] == [] && b[..1] == a && c[..2] == b;
    FirstEnqueued(INITIAL);
    var s := Next(INITIAL, Enqueue("id"));
    assert Exec(a) == Some(s);
    var t := Next(s, Reset);
    assert Exec(b) == Some(t) && t.shared == CLEARED;
    assert s.shared.queue == map["id" := [0]];
    assert 0 in s.shared.queue["id"] && 0 in AllQueued(s.shared);
    assert t.dropped == {0};
    acts := c;
  }
}
