/** The inbound stream of ios/QuicSession.swift and the loop its reader thread runs in ios/NativeQuicSession.swift. */
module QuicSession {
  import opened Bytes

  type Handle = nat

  datatype ReadOutcome = Frame(data: bytes) | TimedOut | StreamClosed | StreamError

  datatype Event = InboundFrame(data: bytes) | InboundClosed | InboundError

  /** What one turn of the reader loop meets: cancellation at the head of the loop, the status and payload of
    the blocking read, and cancellation by the time it has returned. */
  datatype Turn = Turn(cancelledBefore: bool, rc: int, payload: bytes, cancelledAfter: bool)

  /** After a read the loop goes on unless the stream failed, or a frame came to a cancelled thread. */
  predicate GoesOn(outcome: ReadOutcome, cancelled: bool) {
    outcome.TimedOut? || (outcome.Frame? && !cancelled)
  }

  /** The payloads of the turns that read a frame, in order. */
  function FramesOf(turns: seq<Turn>): seq<Event> {
    if turns == [] then []
    else
      var t := turns[|turns| - 1];
      FramesOf(turns[..|turns| - 1]) + (if t.rc == 0 then [InboundFrame(t.payload)] else [])
  }

  /** A turn with status 0 gives its payload and any other turn nothing, and turns give what they give in their order. */
  lemma {:induction false} FramesInOrder(turns: seq<Turn>, more: seq<Turn>)
    ensures |turns| == 1 ==> FramesOf(turns) == if turns[0].rc == 0 then [InboundFrame(turns[0].payload)] else []
    ensures FramesOf(turns + more) == FramesOf(turns) + FramesOf(more)
    decreases |more|
  {
    if more == [] {
      assert turns + more == turns;
    } else {
      var last := |more| - 1;
      assert (turns + more)[..|turns + more| - 1] == turns + more[..last];
      FramesInOrder(turns, more[..last]);
    }
  }

  /** One read a turn, unless the ending turn found the thread cancelled already. */
  function ReadsOf(turns: seq<Turn>, k: nat): nat
    requires k <= |turns|
  {
    if k < |turns| && !turns[k].cancelledBefore then k + 1 else k
  }

  function Repeated(h: Handle, n: nat): seq<Handle> {
    seq(n, _ => h)
  }

  class QuicInboundStream {
    var handle: Option<Handle>
    var readCalls: seq<Handle>    // calls to the read function of the FFI, in order
    var closes: seq<Handle>   // calls to its close function, in order

    constructor (handle: Handle)
      ensures this.handle == Some(handle) && readCalls == [] && closes == []
    {
      this.handle, readCalls, closes := Some(handle), [], [];
    }

    /** A closed stream is never handed to the FFI; it reads as closed by the peer. */
    method Read(rc: int, payload: bytes) returns (r: ReadOutcome)
      modifies this`readCalls
      ensures handle.None? ==> r == StreamClosed && readCalls == old(readCalls)
      ensures handle.Some? ==> readCalls == old(readCalls) + [handle.value]
      ensures handle.Some? && rc == 0 ==> r == Frame(payload)
      ensures handle.Some? && rc == 1 ==> r == TimedOut
      ensures handle.Some? && rc == -1 ==> r == StreamClosed
      ensures handle.Some? && rc !in {0, 1, -1} ==> r == StreamError
    {
      if handle.None? { return StreamClosed; }
      readCalls := readCalls + [handle.value];
      if rc == 0 {
        r := Frame(payload);
      } else if rc == 1 {
        r := TimedOut;
      } else if rc == -1 {
        r := StreamClosed;
      } else {
        r := StreamError;
      }
    }

    /** Safe to call again: the handle is passed to the FFI once. */
    method Close()
      modifies this`handle, this`closes
      ensures handle == None
      ensures closes == old(closes) + (if old(handle).Some? then [old(handle).value] else [])
    {
      if handle.Some? {
        closes := closes + [handle.value];
        handle := None;
      }
    }

    /** The body of the reader thread. While no turn is cancelled and each read times out (1) or brings a frame (0) the loop goes
      on, and every frame is forwarded. The first other turn, with index `k`, ends it: a cancelled one silently, a closed
      stream (-1) and any other status with a report. The thread is cancelled after the last turn. On every way out the loop
      closes the stream itself, once. */
    method ReadLoop(turns: seq<Turn>) returns (events: seq<Event>, ghost k: nat)
      requires handle.Some?
      modifies this
      ensures k <= |turns|
      ensures forall i :: 0 <= i < k ==>
                !turns[i].cancelledBefore && (turns[i].rc == 1 || (turns[i].rc == 0 && !turns[i].cancelledAfter))
      ensures k < |turns| ==>
                turns[k].cancelledBefore || turns[k].rc !in {0, 1} || (turns[k].rc == 0 && turns[k].cancelledAfter)
      ensures events == FramesOf(turns[..k])
                        + (if k == |turns| || turns[k].cancelledBefore || turns[k].rc == 0 then []
                           else if turns[k].rc == -1 then [InboundClosed] else [InboundError])
      ensures readCalls == old(readCalls) + Repeated(old(handle).value, ReadsOf(turns, k))
      ensures handle == None && closes == old(closes) + [old(handle).value]
    {
      events := [];
      var i := 0;
      while i < |turns| && !turns[i].cancelledBefore
        invariant i <= |turns| && handle == old(handle) && closes == old(closes)
        invariant forall j :: 0 <= j < i ==>
                    !turns[j].cancelledBefore && (turns[j].rc == 1 || (turns[j].rc == 0 && !turns[j].cancelledAfter))
        invariant events == FramesOf(turns[..i])
        invariant readCalls == old(readCalls) + Repeated(handle.value, i)
      {
        assert Repeated(handle.value, i + 1) == Repeated(handle.value, i) + [handle.value];
        var outcome := Read(turns[i].rc, turns[i].payload);
        if outcome.StreamClosed? {
          events := events + [InboundClosed];
          break;
        }
        if outcome.StreamError? {
          events := events + [InboundError];
          break;
        }
        if outcome.Frame? {
          if turns[i].cancelledAfter { break; }
          events := events + [InboundFrame(outcome.data)];
        }
        assert turns[..i + 1][..i] == turns[..i];
        i := i + 1;
      }
      k := i;
      Close();
    }
  }
}
