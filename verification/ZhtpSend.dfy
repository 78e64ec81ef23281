/** `sendAuthenticatedZhtpRequestViaQuinn`: the order of its steps, and a session's sends over time. The
  clock, HMAC, the QUIC exchange and the reading of the decoded tree are parameters. */
module ZhtpSend {
  import opened Bytes
  import opened Cbor
  import opened ZhtpAuth
  import opened ZhtpAuthRequest
  import ZhtpResponse
  import ZhtpWireFraming

  datatype Response = Response(requestId: bytes, status: nat, body: bytes)

  /** One send: what is sent, when validity is checked, and when the session is touched. */
  datatype Attempt = Attempt(call: Call, checkedAt: real, touchedAt: real)

  /** An expired session sends nothing and keeps its counter; otherwise the counter moves on, and only a
    send that got its authentication context counts as activity. */
  function Attempted(s: Session, a: Attempt, hmac: Hmac): (Session, Option<AuthContext>) {
    if !IsValid(s, a.checkedAt) then (s, None)
    else
      match AuthContextFor(s, a.call, hmac)
      case Ok(auth) => (Advanced(s).(lastActivity := a.touchedAt), Some(auth))
      case _ => (Advanced(s), None)
  }

  ghost predicate Mac32(hmac: Hmac) {
    forall key, message :: hmac(key, message).Some? ==> |hmac(key, message).value| == 32
  }

  /** What a send makes of the bytes that came back: a response to this request, an error, or a trap of the
    decoder. `read` takes the decoded tree for a response. */
  function Answered(reply: Option<bytes>, requestId: bytes, read: Value -> Option<Response>): Result<Response> {
    if reply.None? || reply.value == [] then Thrown
    else
      match Decode(ZhtpResponse.UnwrapFrame(reply.value), 0)
      case Ok(Decoded(tree, _)) =>
        (match read(tree)
         case Some(response) => if response.requestId == requestId then Ok(response) else Thrown
         case None => Thrown)
      case Thrown => Thrown
      case Trap => Trap
  }

  method Send(session: AuthSession, a: Attempt, e: Envelope, hmac: Hmac,
              exchange: bytes -> Option<bytes>, read: Value -> Option<Response>)
    returns (sent: Option<bytes>, r: Result<Response>)
    requires Mac32(hmac) && session.sequence < TWO64 && |session.clientDid| <= INT_MAX
    requires |e.contentType| <= INT_MAX && |e.requestId| <= INT_MAX && e.timestamp < TWO64 && e.timestampMs < TWO64
    modifies session
    ensures session.State() == Attempted(old(session.State()), a, hmac).0
    ensures var auth := Attempted(old(session.State()), a, hmac).1;
            sent == (if auth.None? || |Enc(RequestTree(a.call, e, auth.value))| > ZhtpWireFraming.MAX_MESSAGE_SIZE then None
                     else Some(ZhtpWireFraming.FrameForm(Enc(RequestTree(a.call, e, auth.value)))))
    ensures r == if sent.None? then Thrown else Answered(exchange(sent.value), e.requestId, read)
  {
    sent := None;
    if !IsValid(session.State(), a.checkedAt) {
      return sent, Thrown;
    }
    var auth := session.BuildAuthContext(a.call, hmac);
    if !auth.Ok? {
      return sent, Thrown;
    }
    session.Touch(a.touchedAt);
    var cbor := EncodeAuthenticatedRequest(a.call, e, auth.value);
    var framed := ZhtpWireFraming.FrameEncode(cbor);
    if !framed.Ok? {
      return sent, Thrown;
    }
    sent := Some(framed.value);
    var response := exchange(framed.value);
    if response.None? || response.value == [] {
      return sent, Thrown;
    }
    var decoded := ZhtpResponse.DecodeResponseCbor(response.value);
    if decoded.Trap? {
      return sent, Trap;
    }
    if decoded.Thrown? {
      return sent, Thrown;
    }
    var wire := read(decoded.value.value);
    if wire.None? || wire.value.requestId != e.requestId {
      return sent, Thrown;
    }
    r := Ok(wire.value);
  }

  /** The answer is a response only if the reply decodes to a tree that reads as one with the id of the request that was sent;
    the decoder's trap is passed on, and everything else is an error. */
  lemma AnsweredExactly(reply: Option<bytes>, requestId: bytes, read: Value -> Option<Response>, response: Response)
    ensures Answered(reply, requestId, read) == Ok(response) <==>
            && reply.Some? && |reply.value| > 0 && Decode(ZhtpResponse.UnwrapFrame(reply.value), 0).Ok?
            && read(Decode(ZhtpResponse.UnwrapFrame(reply.value), 0).value.value) == Some(response)
            && response.requestId == requestId
    ensures Answered(reply, requestId, read) == Trap <==>
            reply.Some? && |reply.value| > 0 && Decode(ZhtpResponse.UnwrapFrame(reply.value), 0) == Trap
  {
  }

  /** One send, case by case. More than 300 seconds after the last activity or 3600 after its creation the session sends nothing
    and stays as it is. Otherwise its counter moves on, modulo 2^64, and a context goes out exactly where the canonical bytes are
    defined and HMAC succeeds; only then is the activity time set. */
  lemma AttemptedExactly(s: Session, a: Attempt, hmac: Hmac)
    ensures var (after, context) := Attempted(s, a, hmac);
            var expired := a.checkedAt - s.lastActivity > 300.0 || a.checkedAt - s.createdAt > 3600.0;
            && (expired ==> after == s && context == None)
            && (!expired ==>
                  && after.sequence == (s.sequence + 1) % 0x1_0000_0000_0000_0000
                  && after == s.(sequence := after.sequence, lastActivity := after.lastActivity)
                  && after.lastActivity == (if context.Some? then a.touchedAt else s.lastActivity)
                  && (context.Some? <==>
                        MacDefined(a.call, s.sessionId) && hmac(s.macKey, MacInput(a.call, s.sequence, s.sessionId)).Some?))
            && (context.Some? ==>
                  && context.value.sessionId == s.sessionId && context.value.clientDid == s.clientDid
                  && context.value.sequence == s.sequence
                  && hmac(s.macKey, MacInput(a.call, s.sequence, s.sessionId)) == Some(context.value.requestMac))
  {
  }

  // ---- All the sends of a session ----

  /** The session after some sends, and the context each of them put on the wire, if any. */
  function Sends(s: Session, attempts: seq<Attempt>, hmac: Hmac): (r: (Session, seq<Option<AuthContext>>))
    ensures |r.1| == |attempts|
  {
    if attempts == [] then (s, [])
    else
      var last := |attempts| - 1;
      var (before, contexts) := Sends(s, attempts[..last], hmac);
      var (after, context) := Attempted(before, attempts[last], hmac);
      (after, contexts + [context])
  }

  /** One send moves the counter on by at most one, and puts the old counter on the wire if anything. */
  lemma AttemptCounts(s: Session, a: Attempt, hmac: Hmac)
    requires s.sequence < TWO64 - 1
    ensures var (after, context) := Attempted(s, a, hmac);
            && s.sequence <= after.sequence <= s.sequence + 1 && after.sessionId == s.sessionId
            && (context.Some? ==> context.value.sequence == s.sequence && after.sequence == s.sequence + 1)
  {
  }

  ghost predicate Counted(contexts: seq<Option<AuthContext>>, low: nat, high: nat) {
    && (forall i :: 0 <= i < |contexts| && contexts[i].Some? ==> low <= contexts[i].value.sequence < high)
    && (forall i, j :: 0 <= i < j < |contexts| && contexts[i].Some? && contexts[j].Some? ==>
          contexts[i].value.sequence < contexts[j].value.sequence)
  }

  lemma CountedSnoc(contexts: seq<Option<AuthContext>>, context: Option<AuthContext>, low: nat, mid: nat, high: nat)
    requires Counted(contexts, low, mid) && low <= mid <= high
    requires context.Some? ==> context.value.sequence == mid < high
    ensures Counted(contexts + [context], low, high)
  {
  }

  /** Until the counter would wrap, the contexts carry increasing counters, all below the next one. */
  lemma {:induction false} SendsIncrease(s: Session, attempts: seq<Attempt>, hmac: Hmac)
    requires s.sequence + |attempts| <= TWO64 - 1
    ensures var (after, contexts) := Sends(s, attempts, hmac);
            && s.sequence <= after.sequence <= s.sequence + |attempts| && after.sessionId == s.sessionId
            && Counted(contexts, s.sequence, after.sequence)
  {
    if attempts != [] {
      var last := |attempts| - 1;
      SendsIncrease(s, attempts[..last], hmac);
      var (before, contexts) := Sends(s, attempts[..last], hmac);
      AttemptCounts(before, attempts[last], hmac);
      var (after, context) := Attempted(before, attempts[last], hmac);
      CountedSnoc(contexts, context, s.sequence, before.sequence, after.sequence);
    }
  }

  lemma {:induction false} SentContexts(s: Session, attempts: seq<Attempt>, hmac: Hmac, i: nat)
    requires i < |attempts| && Sends(s, attempts, hmac).1[i].Some?
    ensures MacDefined(attempts[i].call, s.sessionId) && Sends(s, attempts, hmac).0.sessionId == s.sessionId
    ensures Sends(s, attempts, hmac).1[i].value.sessionId == s.sessionId
  {
    var last := |attempts| - 1;
    SessionIdKept(s, attempts, hmac);
    SessionIdKept(s, attempts[..last], hmac);
    if i < last {
      SentContexts(s, attempts[..last], hmac, i);
    }
  }

  lemma {:induction false} SessionIdKept(s: Session, attempts: seq<Attempt>, hmac: Hmac)
    ensures Sends(s, attempts, hmac).0.sessionId == s.sessionId
  {
    if attempts != [] {
      SessionIdKept(s, attempts[..|attempts| - 1], hmac);
    }
  }

  lemma {:induction false} SendsPrefix(s: Session, attempts: seq<Attempt>, hmac: Hmac, k: nat)
    requires k < |attempts|
    ensures Sends(s, attempts, hmac).1[..k] == Sends(s, attempts[..k], hmac).1
    ensures Sends(s, attempts, hmac).1[k] == Attempted(Sends(s, attempts[..k], hmac).0, attempts[k], hmac).1
  {
    var last := |attempts| - 1;
    if k < last {
      SendsPrefix(s, attempts[..last], hmac, k);
      assert attempts[..last][..k] == attempts[..k];
    }
  }

  /** In a session that starts at 1, fewer than 2^64 sends, successful or not, never put the same MAC
    input, or the same counter, on the wire twice. */
  lemma {:induction false} SendsNeverRepeat(s: Session, attempts: seq<Attempt>, hmac: Hmac, i: nat, j: nat)
    requires s.sequence == 1 && i < j < |attempts| < TWO64
    requires Sends(s, attempts, hmac).1[i].Some? && Sends(s, attempts, hmac).1[j].Some?
    ensures var contexts := Sends(s, attempts, hmac).1;
            && contexts[i].value.sequence < contexts[j].value.sequence < TWO64
            && MacDefined(attempts[i].call, s.sessionId) && MacDefined(attempts[j].call, s.sessionId)
            && MacInput(attempts[i].call, contexts[i].value.sequence, s.sessionId)
               != MacInput(attempts[j].call, contexts[j].value.sequence, s.sessionId)
  {
    var contexts := Sends(s, attempts, hmac).1;
    SendsIncrease(s, attempts[..j], hmac);
    SendsPrefix(s, attempts, hmac, j);
    assert contexts[..j][i] == contexts[i];
    SentContexts(s, attempts, hmac, i);
    SentContexts(s, attempts, hmac, j);
    if MacInput(attempts[i].call, contexts[i].value.sequence, s.sessionId)
       == MacInput(attempts[j].call, contexts[j].value.sequence, s.sessionId) {
      MacInputIsInjective(attempts[i].call, contexts[i].value.sequence, s.sessionId,
                          attempts[j].call, contexts[j].value.sequence, s.sessionId);
    }
  }

  // ---- The limits of a session ----

  /** When the session was last active before the send with index `i`: at the last of the earlier sends that put a context on the
    wire, or at the start. */
  function LastActive(s: Session, attempts: seq<Attempt>, contexts: seq<Option<AuthContext>>, i: nat): real
    requires i <= |attempts| && i <= |contexts|
  {
    if i == 0 then s.lastActivity
    else if contexts[i - 1].Some? then attempts[i - 1].touchedAt
    else LastActive(s, attempts, contexts, i - 1)
  }

  lemma {:induction false} ActivityKept(s: Session, attempts: seq<Attempt>, hmac: Hmac, contexts: seq<Option<AuthContext>>)
    requires |attempts| <= |contexts| && Sends(s, attempts, hmac).1 == contexts[..|attempts|]
    ensures var after := Sends(s, attempts, hmac).0;
            after.createdAt == s.createdAt && after.lastActivity == LastActive(s, attempts, contexts, |attempts|)
    decreases |attempts|
  {
    if attempts != [] {
      var last := |attempts| - 1;
      var (before, sent) := Sends(s, attempts[..last], hmac);
      assert Sends(s, attempts, hmac).1[..last] == sent;
      assert contexts[..|attempts|][..last] == contexts[..last];
      ActivityKept(s, attempts[..last], hmac, contexts);
      SameActivity(s, attempts[..last], attempts, contexts, last);
      AttemptedExactly(before, attempts[last], hmac);
      assert contexts[..|attempts|][last] == contexts[last];
    }
  }

  lemma {:induction false} SameActivity(s: Session, a: seq<Attempt>, b: seq<Attempt>, contexts: seq<Option<AuthContext>>, i: nat)
    requires i <= |a| && i <= |b| && i <= |contexts| && a[..i] == b[..i]
    ensures LastActive(s, a, contexts, i) == LastActive(s, b, contexts, i)
  {
    if i > 0 {
      assert a[..i][i - 1] == b[..i][i - 1];
      assert a[..i - 1] == a[..i][..i - 1] && b[..i - 1] == b[..i][..i - 1];
      SameActivity(s, a, b, contexts, i - 1);
    }
  }

  /** Over any sends, nothing goes out more than 3600 seconds after the session was made, or more than 300 seconds after it was
    last active. */
  lemma SendsWithinLimits(s: Session, attempts: seq<Attempt>, hmac: Hmac, i: nat)
    requires i < |attempts| && Sends(s, attempts, hmac).1[i].Some?
    ensures attempts[i].checkedAt - s.createdAt <= 3600.0
    ensures attempts[i].checkedAt - LastActive(s, attempts, Sends(s, attempts, hmac).1, i) <= 300.0
  {
    var contexts := Sends(s, attempts, hmac).1;
    SendsPrefix(s, attempts, hmac, i);
    ActivityKept(s, attempts[..i], hmac, contexts);
    SameActivity(s, attempts[..i], attempts, contexts, i);
    AttemptedExactly(Sends(s, attempts[..i], hmac).0, attempts[i], hmac);
  }
}
