/** What every interleaving of openers, readers and closers keeps: who closes a stream handle, and what dropping a
  session can rely on. */
module NativeQuicSessionProofs {
  import opened Bytes
  import opened QuicSession
  import opened NativeQuicSession

  // ---- Readers ----

  ghost predicate ReaderOk(s: System, r: ReaderId)
    requires r < |s.readers|
  {
    var x := s.readers[r];
    && x.stream == (if x.phase.PastClose() then None else Some(x.handle))
    && x.exits <= 1 && (x.exits > 0 ==> x.phase.Exited())
    && (x.phase.Gone? ==> r !in s.streams)
    && (!x.phase.Gone? ==> r in s.streams && s.streams[r] == x.session)
  }

  ghost predicate ReadersOk(s: System) {
    && (forall r :: 0 <= r < |s.readers| ==> ReaderOk(s, r))
    && (forall r :: r in s.streams ==> r < |s.readers|)
  }

  lemma ReadersStep(s: System, a: Action)
    requires Enabled(s, a) && ReadersOk(s)
    ensures ReadersOk(Next(s, a))
  {
    var t := Next(s, a);
    forall r | 0 <= r < |t.readers| ensures ReaderOk(t, r) {
      if r < |s.readers| {
        assert ReaderOk(s, r);
        ReaderStep(s, a, r);
      }
    }
    StoreStep(s, a);
  }

  lemma StoreStep(s: System, a: Action)
    requires Enabled(s, a) && forall r :: r in s.streams ==> r < |s.readers|
    ensures forall r :: r in Next(s, a).streams ==> r < |Next(s, a).readers|
  {
  }

  lemma ReaderStep(s: System, a: Action, r: ReaderId)
    requires Enabled(s, a) && r < |s.readers| && ReaderOk(s, r)
    ensures r < |Next(s, a).readers| && ReaderOk(Next(s, a), r)
  {
    if !StepOf(a, r) {
      ReaderSpared(s, a, r);
      StoredAsBefore(s, Next(s, a), r);
    }
  }

  /** Other threads can cancel a reader and take its exit signal; the rest is its own. */
  lemma ReaderSpared(s: System, a: Action, r: ReaderId)
    requires Enabled(s, a) && r < |s.readers| && !StepOf(a, r)
    ensures r < |Next(s, a).readers|
    ensures var x, y := s.readers[r], Next(s, a).readers[r];
            y == x.(cancelled := y.cancelled, exits := y.exits) && y.exits <= x.exits
    ensures r in Next(s, a).streams <==> r in s.streams
    ensures r in s.streams ==> Next(s, a).streams[r] == s.streams[r]
  {
  }

  lemma StoredAsBefore(s: System, t: System, r: ReaderId)
    requires r < |s.readers| && r < |t.readers| && ReaderOk(s, r)
    requires var x, y := s.readers[r], t.readers[r];
             y == x.(cancelled := y.cancelled, exits := y.exits) && y.exits <= x.exits
    requires (r in t.streams <==> r in s.streams) && (r in s.streams ==> t.streams[r] == s.streams[r])
    ensures ReaderOk(t, r)
  {
  }

  // ---- Handles ----

  ghost predicate HandlesKnown(s: System) {
    && (forall r :: 0 <= r < |s.readers| ==> s.readers[r].handle in s.handles)
    && (forall o :: 0 <= o < |s.openers| && s.openers[o].Opening? ==> s.openers[o].handle in s.handles)
  }

  ghost predicate HandlesDistinct(s: System) {
    && (forall q, r :: 0 <= q < r < |s.readers| ==> s.readers[q].handle != s.readers[r].handle)
    && (forall o, r :: 0 <= o < |s.openers| && s.openers[o].Opening? && 0 <= r < |s.readers| ==>
          s.openers[o].handle != s.readers[r].handle)
    && (forall o, p :: 0 <= o < p < |s.openers| && s.openers[o].Opening? && s.openers[p].Opening? ==>
          s.openers[o].handle != s.openers[p].handle)
  }

  ghost predicate HandlesOk(s: System) {
    HandlesKnown(s) && HandlesDistinct(s)
  }

  lemma KnownStep(s: System, a: Action)
    requires Enabled(s, a) && HandlesKnown(s)
    ensures HandlesKnown(Next(s, a))
  {
  }

  lemma DistinctKeeps(s: System, t: System)
    requires HandlesDistinct(s) && |t.readers| == |s.readers| && t.openers == s.openers
    requires forall r :: 0 <= r < |s.readers| ==> t.readers[r].handle == s.readers[r].handle
    ensures HandlesDistinct(t)
  {
  }

  lemma HandlesStep(s: System, a: Action)
    requires Enabled(s, a) && HandlesOk(s)
    ensures HandlesOk(Next(s, a))
  {
    KnownStep(s, a);
    if !a.GetSession? && !a.OpenStream? && !a.OpenFails? && !a.Register? {
      DistinctKeeps(s, Next(s, a));
    }
  }

  /** The close calls made so far are those of the readers past their close, one each. */
  ghost predicate ClosesOk(s: System) {
    && (forall i, j :: 0 <= i < j < |s.closed| ==> s.closed[i] != s.closed[j])
    && (forall i :: 0 <= i < |s.closed| ==> ClosedByReader(s, s.closed[i]))
    && (forall r :: 0 <= r < |s.readers| && s.readers[r].phase.PastClose() ==> s.readers[r].handle in s.closed)
  }

  ghost predicate ClosedByReader(s: System, h: Handle) {
    exists r :: 0 <= r < |s.readers| && s.readers[r].handle == h && s.readers[r].phase.PastClose()
  }

  /** The same readers, each no earlier in its life; perhaps new ones. */
  ghost predicate Advances(s: System, t: System) {
    && |s.readers| <= |t.readers|
    && forall r :: 0 <= r < |s.readers| ==>
         && t.readers[r].session == s.readers[r].session && t.readers[r].handle == s.readers[r].handle
         && (s.readers[r].phase.PastClose() ==> t.readers[r].phase.PastClose())
         && (s.readers[r].phase.Exited() ==> t.readers[r].phase.Exited())
         && (s.readers[r].cancelled ==> t.readers[r].cancelled)
  }

  lemma StepAdvances(s: System, a: Action)
    requires Enabled(s, a)
    ensures Advances(s, Next(s, a))
  {
  }

  /** Only a reader's own close step reaches the close function of the FFI, and that reader is in no read. */
  lemma OnlyReadersClose(s: System, a: Action)
    requires Enabled(s, a) && ReadersOk(s)
    ensures Next(s, a).closed != s.closed <==> a.CloseStream?
    ensures a.CloseStream? ==> s.readers[a.r].phase.Leaving? && Next(s, a).closed == s.closed + [s.readers[a.r].handle]
  {
    if a.CloseStream? {
      assert ReaderOk(s, a.r);
    }
  }

  lemma QuietCloses(s: System, a: Action)
    requires Enabled(s, a) && ClosesOk(s) && !a.CloseStream?
    ensures ClosesOk(Next(s, a))
  {
    var t := Next(s, a);
    StepAdvances(s, a);
    assert t.closed == s.closed;
    forall i | 0 <= i < |t.closed| ensures ClosedByReader(t, t.closed[i]) {
      assert ClosedByReader(s, s.closed[i]);
      var r :| 0 <= r < |s.readers| && s.readers[r].handle == s.closed[i] && s.readers[r].phase.PastClose();
      assert t.readers[r].handle == t.closed[i];
    }
    forall r | 0 <= r < |t.readers| && t.readers[r].phase.PastClose() ensures t.readers[r].handle in t.closed {
      assert r < |s.readers| && s.readers[r].phase.PastClose();
    }
  }

  lemma CloseStreamCloses(s: System, r: ReaderId)
    requires Enabled(s, CloseStream(r)) && ReadersOk(s) && HandlesOk(s) && ClosesOk(s)
    ensures ClosesOk(Next(s, CloseStream(r)))
  {
    var t := Next(s, CloseStream(r));
    var h := s.readers[r].handle;
    assert ReaderOk(s, r);
    assert t.closed == s.closed + [h];
    assert !ClosedByReader(s, h);
    forall i | 0 <= i < |t.closed| ensures ClosedByReader(t, t.closed[i]) {
      if i < |s.closed| {
        assert ClosedByReader(s, s.closed[i]);
        var q :| 0 <= q < |s.readers| && s.readers[q].handle == s.closed[i] && s.readers[q].phase.PastClose();
        assert t.readers[q].handle == t.closed[i];
      } else {
        assert t.readers[r].handle == h;
      }
    }
  }

  // ---- Closers ----

  /** How many readers of the snapshot a closer has waited for. */
  function Waited(p: CloserPhase): nat {
    match p
    case Waiting(_, k) => k
    case Dropped(ids) => |ids|
    case _ => 0
  }

  ghost predicate WaitsOk(s: System, x: Closer) {
    !x.phase.Asked? ==>
      var ids := x.phase.ids;
      && Waited(x.phase) <= |ids| && (x.phase.Cancelling? ==> x.phase.k <= |ids|)
      && (forall i :: 0 <= i < |ids| ==> ids[i] < |s.readers| && s.readers[ids[i]].session == x.session)
      && (forall i :: 0 <= i < |ids| && (x.phase.Cancelling? ==> i < x.phase.k) ==> s.readers[ids[i]].cancelled)
      && (forall i :: 0 <= i < Waited(x.phase) ==> s.readers[ids[i]].phase.Exited() || ids[i] in x.timedOut)
  }

  /** Without an overlapping opener the snapshot misses no reader that can still read. */
  ghost predicate CoversOk(s: System, x: Closer) {
    !x.phase.Asked? && !x.overlapped ==>
      && !Pending(s, x.session)
      && forall r :: 0 <= r < |s.readers| && s.readers[r].session == x.session ==>
           r in x.phase.ids || s.readers[r].phase.Exited()
  }

  ghost predicate DropOk(s: System, x: Closer) {
    x.phase.Dropped? ==> x.session !in s.sessions
  }

  ghost predicate ClosersOk(s: System) {
    forall c :: 0 <= c < |s.closers| ==>
      WaitsOk(s, s.closers[c]) && CoversOk(s, s.closers[c]) && DropOk(s, s.closers[c])
  }

  lemma WaitsKeep(s: System, t: System, x: Closer)
    requires WaitsOk(s, x) && Advances(s, t)
    ensures WaitsOk(t, x)
  {
  }

  lemma WaitsStep(s: System, a: Action, c: nat)
    requires Enabled(s, a) && ReadersOk(s) && c < |s.closers| && WaitsOk(s, s.closers[c])
    ensures c < |Next(s, a).closers| && WaitsOk(Next(s, a), Next(s, a).closers[c])
  {
    if (a.Snapshot? || a.CancelNext? || a.WaitNext? || a.TimeoutNext? || a.DropSession?) && a.c == c {
      CloserMoves(s, a, c);
    } else {
      StepAdvances(s, a);
      WaitsKeep(s, Next(s, a), s.closers[c]);
      SameWaits(Next(s, a), s.closers[c], Next(s, a).closers[c]);
    }
  }

  lemma SameWaits(s: System, x: Closer, y: Closer)
    requires WaitsOk(s, x) && y == x.(overlapped := y.overlapped)
    ensures WaitsOk(s, y)
  {
  }

  lemma CloserMoves(s: System, a: Action, c: nat)
    requires Enabled(s, a) && ReadersOk(s) && c < |s.closers| && WaitsOk(s, s.closers[c])
    requires (a.Snapshot? || a.CancelNext? || a.WaitNext? || a.TimeoutNext? || a.DropSession?) && a.c == c
    ensures c < |Next(s, a).closers| && WaitsOk(Next(s, a), Next(s, a).closers[c])
  {
    if a.Snapshot? {
      SnapshotFinds(s, c, a.snapshot);
    } else if a.WaitNext? {
      assert ReaderOk(s, s.closers[c].phase.ids[s.closers[c].phase.k]);
    }
  }

  lemma SnapshotFinds(s: System, c: nat, ids: seq<ReaderId>)
    requires Enabled(s, Snapshot(c, ids)) && ReadersOk(s)
    ensures forall i :: 0 <= i < |ids| ==> ids[i] < |s.readers| && s.readers[ids[i]].session == s.closers[c].session
    ensures forall r :: 0 <= r < |s.readers| && s.readers[r].session == s.closers[c].session ==>
              r in ids || s.readers[r].phase.Exited()
  {
    forall i | 0 <= i < |ids| ensures ids[i] < |s.readers| && s.readers[ids[i]].session == s.closers[c].session {
      assert ids[i] in ids;
      assert ReaderOk(s, ids[i]);
    }
    forall r | 0 <= r < |s.readers| && s.readers[r].session == s.closers[c].session
      ensures r in ids || s.readers[r].phase.Exited()
    {
      assert ReaderOk(s, r);
    }
  }

  lemma PendingStep(s: System, a: Action, id: SessionId)
    requires Enabled(s, a) && Pending(Next(s, a), id)
    ensures Pending(s, id) || a == GetSession(id)
  {
    var t := Next(s, a);
    var o :| 0 <= o < |t.openers| && !t.openers[o].Returned? && t.openers[o].session == id;
    if o < |s.openers| {
      assert !s.openers[o].Returned? && s.openers[o].session == id;
    }
  }

  lemma CoversKeep(s: System, a: Action, x: Closer)
    requires Enabled(s, a) && CoversOk(s, x) && a != GetSession(x.session)
    ensures CoversOk(Next(s, a), x)
  {
    var t := Next(s, a);
    if !x.phase.Asked? && !x.overlapped {
      StepAdvances(s, a);
      if Pending(t, x.session) {
        PendingStep(s, a, x.session);
        assert false;
      }
      forall r | 0 <= r < |t.readers| && t.readers[r].session == x.session
        ensures r in x.phase.ids || t.readers[r].phase.Exited()
      {
        if r >= |s.readers| {
          assert false;
        }
      }
    }
  }

  lemma CoversStep(s: System, a: Action, c: nat)
    requires Enabled(s, a) && ReadersOk(s) && c < |s.closers| && CoversOk(s, s.closers[c])
    ensures c < |Next(s, a).closers| && CoversOk(Next(s, a), Next(s, a).closers[c])
  {
    var t := Next(s, a);
    var x, y := s.closers[c], t.closers[c];
    if a == GetSession(x.session) {
      assert y.phase.Asked? || y.overlapped;
    } else if a.Snapshot? && a.c == c {
      SnapshotFinds(s, c, a.snapshot);
      assert Pending(t, x.session) ==> Pending(s, x.session) by {
        if Pending(t, x.session) { PendingStep(s, a, x.session); }
      }
    } else {
      CoversKeep(s, a, x);
      assert y.session == x.session && y.overlapped == x.overlapped;
      assert !x.phase.Asked? ==> !y.phase.Asked? && y.phase.ids == x.phase.ids;
    }
  }

  lemma ClosersStep(s: System, a: Action)
    requires Enabled(s, a) && ReadersOk(s) && ClosersOk(s)
    ensures ClosersOk(Next(s, a))
  {
    var t := Next(s, a);
    forall c | 0 <= c < |t.closers|
      ensures WaitsOk(t, t.closers[c]) && CoversOk(t, t.closers[c]) && DropOk(t, t.closers[c])
    {
      if c < |s.closers| {
        WaitsStep(s, a, c);
        CoversStep(s, a, c);
      }
    }
  }

  // ---- Every run ----

  lemma {:induction false} Reachable(acts: seq<Action>)
    requires Exec(acts).Some?
    ensures ReadersOk(Exec(acts).value) && HandlesOk(Exec(acts).value)
    ensures ClosesOk(Exec(acts).value) && ClosersOk(Exec(acts).value)
  {
    if acts != [] {
      var a := acts[|acts| - 1];
      Reachable(acts[..|acts| - 1]);
      var s := Exec(acts[..|acts| - 1]).value;
      ReadersStep(s, a);
      HandlesStep(s, a);
      ClosersStep(s, a);
      if a.CloseStream? {
        CloseStreamCloses(s, a.r);
      } else {
        QuietCloses(s, a);
      }
    }
  }

  lemma {:induction false} CountOne<T>(xs: seq<T>, x: T)
    requires forall i, j :: 0 <= i < j < |xs| ==> xs[i] != xs[j]
    ensures multiset(xs)[x] == if x in xs then 1 else 0
  {
    if xs != [] {
      var n := |xs| - 1;
      assert xs == xs[..n] + [xs[n]];
      CountOne(xs[..n], x);
    }
  }

  /** In every run each stream handle is closed once if its reader is past its close and not at all before that;
    so a reader inside a read holds a handle nobody has closed. */
  lemma HandlesClosedOnce(acts: seq<Action>, r: ReaderId)
    requires Exec(acts).Some? && r < |Exec(acts).value.readers|
    ensures var s := Exec(acts).value;
            && multiset(s.closed)[s.readers[r].handle] == (if s.readers[r].phase.PastClose() then 1 else 0)
            && (s.readers[r].phase.Reading? ==>
                  s.readers[r].stream == Some(s.readers[r].handle) && s.readers[r].handle !in s.closed)
  {
    Reachable(acts);
    var s := Exec(acts).value;
    var h := s.readers[r].handle;
    assert ReaderOk(s, r);
    CountOne(s.closed, h);
    if h in s.closed {
      assert ClosedByReader(s, h);
    }
  }

  /** A session is dropped only after every reader of the snapshot was cancelled and has signalled its exit, or
    its wait timed out. */
  lemma DropWaitsForReaders(acts: seq<Action>, c: nat, i: nat)
    requires Exec(acts).Some? && c < |Exec(acts).value.closers| && Exec(acts).value.closers[c].phase.Dropped?
    requires i < |Exec(acts).value.closers[c].phase.ids|
    ensures var s := Exec(acts).value;
            var r := s.closers[c].phase.ids[i];
            && r < |s.readers| && s.readers[r].session == s.closers[c].session && s.readers[r].cancelled
            && (s.readers[r].phase.Exited() || r in s.closers[c].timedOut)
  {
    Reachable(acts);
    assert WaitsOk(Exec(acts).value, Exec(acts).value.closers[c]);
  }

  /** At and after the drop, any reader of the session that has not exited either was given up on by a timeout,
    or came from an opener that overlapped the close. */
  lemma ReaderLeftAfterDrop(acts: seq<Action>, c: nat, r: ReaderId)
    requires Exec(acts).Some? && c < |Exec(acts).value.closers| && Exec(acts).value.closers[c].phase.Dropped?
    requires r < |Exec(acts).value.readers|
    requires Exec(acts).value.readers[r].session == Exec(acts).value.closers[c].session
    ensures var s := Exec(acts).value;
            s.readers[r].phase.Exited() || r in s.closers[c].timedOut || s.closers[c].overlapped
  {
    Reachable(acts);
    var s := Exec(acts).value;
    var x := s.closers[c];
    assert WaitsOk(s, x) && CoversOk(s, x);
    if !x.overlapped && r in x.phase.ids {
      var i :| 0 <= i < |x.phase.ids| && x.phase.ids[i] == r;
    }
  }

  /** With no timeout and no overlapping opener, no read of the session is in flight at the drop or ever after, no
    opener can still start one, and every stream of the session has been closed. */
  lemma QuietDrop(acts: seq<Action>, c: nat)
    requires Exec(acts).Some? && c < |Exec(acts).value.closers| && Exec(acts).value.closers[c].phase.Dropped?
    requires Exec(acts).value.closers[c].timedOut == {} && !Exec(acts).value.closers[c].overlapped
    ensures var s := Exec(acts).value;
            var id := s.closers[c].session;
            && id !in s.sessions && !Pending(s, id)
            && forall r :: 0 <= r < |s.readers| && s.readers[r].session == id ==>
                 !s.readers[r].phase.Reading? && s.readers[r].handle in s.closed
  {
    Reachable(acts);
    var s := Exec(acts).value;
    assert CoversOk(s, s.closers[c]) && DropOk(s, s.closers[c]);
    forall r | 0 <= r < |s.readers| && s.readers[r].session == s.closers[c].session
      ensures s.readers[r].phase.Exited()
    {
      ReaderLeftAfterDrop(acts, c, r);
    }
  }

  /** What a closer recorded by the time of its drop stays as it is. */
  lemma DropIsFinal(s: System, a: Action, c: nat)
    requires Enabled(s, a) && ClosersOk(s) && c < |s.closers| && s.closers[c].phase.Dropped?
    ensures Next(s, a).closers[c] == s.closers[c]
  {
    assert DropOk(s, s.closers[c]);
  }

  /** Steps a cancelled reader has left at most. */
  function StepsLeft(x: Reader): nat {
    match x.phase
    case Reading => 5
    case Looping => 4
    case Leaving => 3
    case Closed => 2
    case Signalled => 1
    case Gone => 0
  }

  predicate StepOf(a: Action, r: ReaderId) {
    a == Check(r) || (a.ReadReturns? && a.r == r) || a == CloseStream(r) || a == Signal(r) || a == Unregister(r)
  }

  /** A cancelled reader stays cancelled and begins no further read: each of its own steps brings it nearer to its
    exit, and no step of another thread sets it back. */
  lemma CancelledReaderLeaves(s: System, a: Action, r: ReaderId)
    requires Enabled(s, a) && r < |s.readers| && s.readers[r].cancelled
    ensures Next(s, a).readers[r].cancelled
    ensures StepOf(a, r) ==> StepsLeft(Next(s, a).readers[r]) < StepsLeft(s.readers[r])
    ensures !StepOf(a, r) ==> StepsLeft(Next(s, a).readers[r]) == StepsLeft(s.readers[r])
  {
    var x, y := s.readers[r], Next(s, a).readers[r];
    assert !StepOf(a, r) ==> y.phase == x.phase;
  }

  /** Until a reader is gone it has a step to take, whatever the other threads do. */
  lemma ReaderCanStep(s: System, r: ReaderId)
    requires r < |s.readers|
    ensures s.readers[r].phase.Gone? <==> !exists b :: StepOf(b, r) && Enabled(s, b)
  {
    match s.readers[r].phase
    case Looping => assert StepOf(Check(r), r) && Enabled(s, Check(r));
    case Reading => assert StepOf(ReadReturns(r, TimedOut), r) && Enabled(s, ReadReturns(r, TimedOut));
    case Leaving => assert StepOf(CloseStream(r), r) && Enabled(s, CloseStream(r));
    case Closed => assert StepOf(Signal(r), r) && Enabled(s, Signal(r));
    case Signalled => assert StepOf(Unregister(r), r) && Enabled(s, Unregister(r));
    case Gone =>
  }

  // ---- Single steps ----

  /** A read that timed out, or brought a frame to a thread not cancelled, leads back to the head of the loop, where a thread
    not cancelled reads again; anything else leads out of it. */
  lemma ReaderGoesOn(s: System, r: ReaderId, outcome: ReadOutcome)
    requires r < |s.readers|
    ensures s.readers[r].phase.Reading? && outcome == TimedOut ==>
              Next(s, ReadReturns(r, outcome)).readers[r].phase == Looping
    ensures s.readers[r].phase.Reading? && outcome.Frame? ==>
              Next(s, ReadReturns(r, outcome)).readers[r].phase == if s.readers[r].cancelled then Leaving else Looping
    ensures s.readers[r].phase.Reading? && outcome in {StreamClosed, StreamError} ==>
              Next(s, ReadReturns(r, outcome)).readers[r].phase == Leaving
    ensures s.readers[r].phase.Looping? ==>
              Next(s, Check(r)).readers[r].phase == if s.readers[r].cancelled then Leaving else Reading
  {
  }

  /** `closeInbound` cancels the reader it names, wherever that is, and nothing else changes. */
  lemma CloseInboundCancels(s: System, r: ReaderId)
    requires Enabled(s, CloseInbound(r))
    ensures var t := Next(s, CloseInbound(r));
            && t.readers[r] == s.readers[r].(cancelled := true) && t == s.(readers := t.readers)
            && |t.readers| == |s.readers| && forall q :: 0 <= q < |s.readers| && q != r ==> t.readers[q] == s.readers[q]
  {
  }

  // ---- Both conditions are needed ----

  lemma Extend(acts: seq<Action>, s: System, a: Action) returns (more: seq<Action>, t: System)
    requires Exec(acts) == Some(s) && Enabled(s, a)
    ensures more == acts + [a] && t == Next(s, a) && Exec(more) == Some(t)
  {
    more, t := acts + [a], Next(s, a);
    assert more[..|more| - 1] == acts;
  }

  lemma OneReaderReads() returns (acts: seq<Action>, s: System)
    ensures Exec(acts) == Some(s) && s.closers == [] && s.sessions == {"s"} && s.streams == map[0 := "s"] && s.closed == []
    ensures s.readers == [Reader("s", 7, Some(7), Reading, false, 0)] && s.openers == [Returned]
  {
    acts, s := Extend([], INITIAL, OpenSession("s"));
    acts, s := Extend(acts, s, GetSession("s"));
    acts, s := Extend(acts, s, OpenStream(0, 7));
    acts, s := Extend(acts, s, Register(0));
    acts, s := Extend(acts, s, Check(0));
  }

  /** A timeout can drop a session under a read, with no opener overlapping. */
  lemma TimeoutDropsUnderRead() returns (acts: seq<Action>, s: System)
    ensures Exec(acts) == Some(s) && |s.closers| == 1 && |s.readers| == 1
    ensures s.closers[0].phase.Dropped? && !s.closers[0].overlapped && s.closers[0].timedOut == {0}
    ensures s.readers[0].phase.Reading? && s.readers[0].session == s.closers[0].session
  {
    acts, s := CloserWaits();
    acts, s := Extend(acts, s, TimeoutNext(0));
    acts, s := Extend(acts, s, DropSession(0));
  }

  lemma CloserWaits() returns (acts: seq<Action>, s: System)
    ensures Exec(acts) == Some(s) && s.closers == [Closer("s", Waiting([0], 0), {}, false)] && s.closed == []
    ensures s.readers == [Reader("s", 7, Some(7), Reading, true, 0)]
  {
    acts, s := CloserSnaps();
    acts, s := Extend(acts, s, CancelNext(0));
    acts, s := Extend(acts, s, CancelNext(0));
  }

  lemma CloserSnaps() returns (acts: seq<Action>, s: System)
    ensures Exec(acts) == Some(s) && s.closers == [Closer("s", Cancelling([0], 0), {}, false)] && s.closed == []
    ensures s.readers == [Reader("s", 7, Some(7), Reading, false, 0)]
  {
    acts, s := OneReaderReads();
    acts, s := Extend(acts, s, CloseSession("s"));
    assert 0 in [0];
    acts, s := Extend(acts, s, Snapshot(0, [0]));
  }

  /** An opener that got hold of the session before the snapshot can start a read under the drop, with no timeout. */
  lemma OverlapDropsUnderRead() returns (acts: seq<Action>, s: System)
    ensures Exec(acts) == Some(s) && |s.closers| == 1 && |s.readers| == 1
    ensures s.closers[0].phase.Dropped? && s.closers[0].timedOut == {} && s.closers[0].overlapped
    ensures s.readers[0].phase.Reading? && s.readers[0].session == s.closers[0].session
  {
    acts, s := SnapshotMissesOpener();
    acts, s := Extend(acts, s, OpenStream(0, 7));
    acts, s := Extend(acts, s, Register(0));
    acts, s := Extend(acts, s, Check(0));
    acts, s := Extend(acts, s, CancelNext(0));
    acts, s := Extend(acts, s, DropSession(0));
  }

  lemma SnapshotMissesOpener() returns (acts: seq<Action>, s: System)
    ensures Exec(acts) == Some(s) && s.openers == [Holding("s")] && s.readers == [] && s.handles == {}
    ensures s.closers == [Closer("s", Cancelling([], 0), {}, true)]
  {
    acts, s := OpenerHolds();
    acts, s := Extend(acts, s, CloseSession("s"));
    assert !s.openers[0].Returned?;
    acts, s := Extend(acts, s, Snapshot(0, []));
  }

  lemma OpenerHolds() returns (acts: seq<Action>, s: System)
    ensures Exec(acts) == Some(s) && s.openers == [Holding("s")] && s.readers == [] && s.handles == {}
    ensures s.streams == map[] && s.closers == []
  {
    acts, s := Extend([], INITIAL, OpenSession("s"));
    acts, s := Extend(acts, s, GetSession("s"));
  }

  // ---- A close that waits ----

  /** Signalling lets one more wait end, and a wait that ends takes one signal. */
  lemma SignalsCount(s: System, r: ReaderId, c: nat)
    requires r < |s.readers|
    ensures s.readers[r].phase.Closed? ==> Next(s, Signal(r)).readers[r].exits == s.readers[r].exits + 1
    ensures Enabled(s, WaitNext(c)) && s.closers[c].phase.ids[s.closers[c].phase.k] == r ==>
              Next(s, WaitNext(c)).readers[r].exits == s.readers[r].exits - 1
  {
  }

  /** A close that finds a reader in a read waits for it and drops the session with nothing timed out. */
  lemma QuietDropHappens() returns (acts: seq<Action>, s: System)
    ensures Exec(acts) == Some(s) && |s.closers| == 1 && |s.readers| == 1
    ensures s.closers[0].phase == Dropped([0]) && s.closers[0].timedOut == {} && !s.closers[0].overlapped
    ensures s.readers[0].session == s.closers[0].session && s.closed == [7]
  {
    acts, s := ReaderSignals();
    acts, s := Extend(acts, s, WaitNext(0));
    acts, s := Extend(acts, s, DropSession(0));
  }

  lemma ReaderSignals() returns (acts: seq<Action>, s: System)
    ensures Exec(acts) == Some(s) && s.closers == [Closer("s", Waiting([0], 0), {}, false)] && s.closed == [7]
    ensures s.readers == [Reader("s", 7, None, Signalled, true, 1)]
  {
    acts, s := CloserWaits();
    acts, s := Extend(acts, s, ReadReturns(0, TimedOut));
    acts, s := Extend(acts, s, Check(0));
    acts, s := Extend(acts, s, CloseStream(0));
    acts, s := Extend(acts, s, Signal(0));
  }
}
