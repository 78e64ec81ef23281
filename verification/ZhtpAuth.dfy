/** ios/ZhtpAuth.swift: the session counter and the bytes a request MAC is computed over. HMAC is a
  parameter that may fail. Paths are their UTF-8 bytes. */
module ZhtpAuth {
  import opened Bytes

  datatype ZhtpMethod = Get | Post | Put | Delete | Options | Head | Patch | Verify | Connect | Trace

  function MethodByte(m: ZhtpMethod): Option<byte> {
    match m
    case Get => Some(0)
    case Post => Some(1)
    case Put => Some(2)
    case Delete => Some(3)
    case _ => None
  }

  type Hmac = (bytes, bytes) -> Option<bytes>

  /** What a request MAC covers. */
  datatype Call = Call(verb: ZhtpMethod, path: bytes, body: bytes)

  datatype AuthContext = AuthContext(sessionId: bytes, clientDid: bytes, sequence: nat, requestMac: bytes)

  /** The session's fields, as a value. */
  datatype Session = Session(
    sessionId: bytes, macKey: bytes, sequence: nat, clientDid: bytes, createdAt: real, lastActivity: real)

  /** Idle for at most five minutes and no older than an hour. */
  predicate IsValid(s: Session, now: real) {
    now - s.lastActivity <= 300.0 && now - s.createdAt <= 3600.0
  }

  function Advanced(s: Session): Session {
    s.(sequence := (s.sequence + 1) % TWO64)
  }

  predicate MacDefined(c: Call, sessionId: bytes) {
    MethodByte(c.verb).Some? && |sessionId| == 32 && |c.path| <= 0xffff && |c.body| <= 0xffff_ffff
  }

  /** [method][path length: 2][path][body length: 4][body][counter: 8][session id: 32], big-endian. */
  function MacInput(c: Call, counter: nat, sessionId: bytes): bytes
    requires MacDefined(c, sessionId)
  {
    [MethodByte(c.verb).value] + (BigEndian(|c.path|, 2) + c.path
      + (BigEndian(|c.body|, 4) + c.body + (BigEndian(counter, 8) + sessionId)))
  }

  /** Only four methods have a MAC byte; the session id has 32 bytes; path and body lengths fit 2 and 4 bytes. */
  lemma MacDefinedExactly(c: Call, sessionId: bytes)
    ensures MacDefined(c, sessionId)
            <==> c.verb in {Get, Post, Put, Delete} && |sessionId| == 32 && |c.path| < 0x1_0000 && |c.body| < 0x1_0000_0000
  {
  }

  /** The canonical bytes, position by position. */
  lemma MacLayout(c: Call, counter: nat, sessionId: bytes)
    requires MacDefined(c, sessionId) && counter < TWO64
    ensures var x := MacInput(c, counter, sessionId);
            var p, b := |c.path|, |c.body|;
            && |x| == 47 + p + b
            && x[0] == (match c.verb case Get => 0 case Post => 1 case Put => 2 case _ => 3)
            && FromBigEndian(x[1..3]) == p && x[3..3 + p] == c.path
            && FromBigEndian(x[3 + p..7 + p]) == b && x[7 + p..7 + p + b] == c.body
            && FromBigEndian(x[7 + p + b..15 + p + b]) == counter
            && x[15 + p + b..] == sessionId
  {
    var p, b := |c.path|, |c.body|;
    LengthsRead(p, b, counter);
    SixParts([MethodByte(c.verb).value], BigEndian(p, 2), c.path, BigEndian(b, 4), c.body, BigEndian(counter, 8), sessionId);
  }

  lemma LengthsRead(p: nat, b: nat, counter: nat)
    requires p < 0x1_0000 && b < 0x1_0000_0000 && counter < TWO64
    ensures FromBigEndian(BigEndian(p, 2)) == p && FromBigEndian(BigEndian(b, 4)) == b
    ensures FromBigEndian(BigEndian(counter, 8)) == counter
  {
    PowersOf256();
    BigEndianRoundTrip(p, 2);
    BigEndianRoundTrip(b, 4);
    BigEndianRoundTrip(counter, 8);
  }

  lemma SixParts(m: bytes, q: bytes, path: bytes, k: bytes, body: bytes, n: bytes, id: bytes)
    requires |m| == 1 && |q| == 2 && |k| == 4 && |n| == 8
    ensures var x := m + (q + path + (k + body + (n + id)));
            var p, b := |path|, |body|;
            && |x| == 15 + p + b + |id| && x[0] == m[0] && x[1..3] == q && x[3..3 + p] == path
            && x[3 + p..7 + p] == k && x[7 + p..7 + p + b] == body
            && x[7 + p + b..15 + p + b] == n && x[15 + p + b..] == id
  {
    var p, b := |path|, |body|;
    var tail := n + id;
    var rest := k + body + tail;
    var x := m + (q + path + rest);
    assert x[3 + p..] == rest;
    assert x[7 + p + b..] == tail;
    assert x[3 + p..7 + p] == rest[..4] && x[7 + p..7 + p + b] == rest[4..4 + b];
    assert x[7 + p + b..15 + p + b] == tail[..8] && x[15 + p + b..] == tail[8..];
  }

  method BuildMacInput(c: Call, counter: nat, sessionId: bytes) returns (r: Option<bytes>)
    ensures r == if MacDefined(c, sessionId) then Some(MacInput(c, counter, sessionId)) else None
  {
    var methodByte := MethodByte(c.verb);
    if methodByte.None? { return None; }
    if |sessionId| != 32 { return None; }
    if |c.path| > 0xffff { return None; }
    if |c.body| > 0xffff_ffff { return None; }
    var data: bytes := [];
    data := data + [methodByte.value];
    data := data + BigEndian(|c.path|, 2);
    data := data + c.path;
    data := data + BigEndian(|c.body|, 4);
    data := data + c.body;
    data := data + BigEndian(counter, 8);
    data := data + sessionId;
    assert data == MacInput(c, counter, sessionId);
    r := Some(data);
  }

  function AuthContextFor(s: Session, c: Call, hmac: Hmac): Result<AuthContext> {
    if !MacDefined(c, s.sessionId) then Thrown
    else
      match hmac(s.macKey, MacInput(c, s.sequence, s.sessionId))
      case None => Thrown
      case Some(mac) => Ok(AuthContext(s.sessionId, s.clientDid, s.sequence, mac))
  }

  /** A context comes back exactly where the canonical bytes are defined and HMAC gives a MAC for them under the session's key; it
    carries the session's ids, the counter, and that MAC. Otherwise an error is thrown; nothing traps. */
  lemma AuthContextExactly(s: Session, c: Call, hmac: Hmac)
    ensures AuthContextFor(s, c, hmac).Ok? <==>
            MacDefined(c, s.sessionId) && hmac(s.macKey, MacInput(c, s.sequence, s.sessionId)).Some?
    ensures !AuthContextFor(s, c, hmac).Ok? ==> AuthContextFor(s, c, hmac) == Thrown
    ensures AuthContextFor(s, c, hmac).Ok? ==>
              var auth := AuthContextFor(s, c, hmac).value;
              && auth.sessionId == s.sessionId && auth.clientDid == s.clientDid && auth.sequence == s.sequence
              && hmac(s.macKey, MacInput(c, s.sequence, s.sessionId)) == Some(auth.requestMac)
  {
  }

  class AuthSession {
    const sessionId: bytes
    const macKey: bytes
    var sequence: nat
    const clientDid: bytes
    const createdAt: real
    var lastActivity: real

    function State(): Session
      reads this
    {
      Session(sessionId, macKey, sequence, clientDid, createdAt, lastActivity)
    }

    /** A session as the handshake worker makes it: the counter starts at 1. */
    constructor (sessionId: bytes, macKey: bytes, clientDid: bytes, now: real)
      ensures State() == Session(sessionId, macKey, 1, clientDid, now, now)
    {
      this.sessionId, this.macKey, this.clientDid := sessionId, macKey, clientDid;
      sequence, createdAt, lastActivity := 1, now, now;
    }

    method NextSequence() returns (current: nat)
      modifies this`sequence
      ensures current == old(sequence) && State() == Advanced(old(State()))
    {
      current := sequence;
      sequence := (sequence + 1) % TWO64;
    }

    method Touch(now: real)
      modifies this`lastActivity
      ensures State() == old(State()).(lastActivity := now)
    {
      lastActivity := now;
    }

    /** The counter is consumed first, so it is consumed even where no context comes back. */
    method BuildAuthContext(c: Call, hmac: Hmac) returns (r: Result<AuthContext>)
      modifies this`sequence
      ensures State() == Advanced(old(State()))
      ensures r == AuthContextFor(old(State()), c, hmac)
    {
      var counter := NextSequence();
      var macInput := BuildMacInput(c, counter, sessionId);
      if macInput.None? { return Thrown; }
      var requestMac := hmac(macKey, macInput.value);
      if requestMac.None? { return Thrown; }
      r := Ok(AuthContext(sessionId, clientDid, counter, requestMac.value));
    }
  }

  // ---- The canonical bytes determine the request ----

  lemma LengthPrefixed(p: bytes, r: bytes, q: bytes, s: bytes, width: nat)
    requires |p| < Pow256(width) && |q| < Pow256(width)
    requires BigEndian(|p|, width) + p + r == BigEndian(|q|, width) + q + s
    ensures p == q && r == s
  {
    var h, k := BigEndian(|p|, width), BigEndian(|q|, width);
    Reassociate(h, p, r);
    Reassociate(k, q, s);
    SameLengthHeads(h, p + r, k, q + s);
    assert |p| == |q| by {
      BigEndianRoundTrip(|p|, width);
      BigEndianRoundTrip(|q|, width);
    }
    SameLengthHeads(p, r, q, s);
  }

  lemma SameLengthHeads(a: bytes, b: bytes, c: bytes, d: bytes)
    requires |a| == |c| && a + b == c + d
    ensures a == c && b == d
  {
    assert a == (a + b)[..|a|] && c == (c + d)[..|a|];
    assert b == (a + b)[|a|..] && d == (c + d)[|a|..];
  }

  /** Equal canonical bytes mean equal method, path, body, counter and session. */
  lemma MacInputIsInjective(c: Call, i: nat, sid: bytes, d: Call, j: nat, tid: bytes)
    requires MacDefined(c, sid) && MacDefined(d, tid) && i < TWO64 && j < TWO64
    requires MacInput(c, i, sid) == MacInput(d, j, tid)
    ensures c == d && i == j && sid == tid
  {
    var x, y := MacInput(c, i, sid), MacInput(d, j, tid);
    PowersOf256();
    assert x[0] == MethodByte(c.verb).value && y[0] == MethodByte(d.verb).value;
    assert c.verb == d.verb;
    var u, v := BigEndian(i, 8) + sid, BigEndian(j, 8) + tid;
    var s, t := BigEndian(|c.body|, 4) + c.body + u, BigEndian(|d.body|, 4) + d.body + v;
    assert x[1..] == BigEndian(|c.path|, 2) + c.path + s && y[1..] == BigEndian(|d.path|, 2) + d.path + t;
    LengthPrefixed(c.path, s, d.path, t, 2);
    LengthPrefixed(c.body, u, d.body, v, 4);
    assert u[..8] == BigEndian(i, 8) && v[..8] == BigEndian(j, 8) && u[8..] == sid && v[8..] == tid;
    BigEndianRoundTrip(i, 8);
    BigEndianRoundTrip(j, 8);
  }

  // ---- The counter over a whole session ----

  /** The session after `n` calls of `BuildAuthContext`, successful or not. */
  function AfterCalls(s: Session, n: nat): Session {
    if n == 0 then s else Advanced(AfterCalls(s, n - 1))
  }

  /** The number the call with index `k` gets in a fresh session. */
  function CounterOf(s: Session, k: nat): nat {
    AfterCalls(s, k).sequence
  }

  lemma {:induction false} CounterIs(s: Session, k: nat)
    requires s.sequence == 1
    ensures CounterOf(s, k) == (1 + k) % TWO64 && AfterCalls(s, k) == s.(sequence := CounterOf(s, k))
  {
    if k > 0 {
      CounterIs(s, k - 1);
    }
  }

  /** The counters of `n` calls increase from 1 exactly while `n` is below 2^64. */
  lemma CountersIncreaseExactly(s: Session, n: nat)
    requires s.sequence == 1
    ensures (forall i: nat, j: nat :: i < j < n ==> CounterOf(s, i) < CounterOf(s, j)) <==> n < TWO64
  {
    forall k: nat ensures CounterOf(s, k) == (1 + k) % TWO64 { CounterIs(s, k); }
    if n >= TWO64 {
      var wrap: nat := TWO64 - 1;
      assert CounterOf(s, wrap) == 0 && CounterOf(s, 0) == 1 && 0 < wrap < n;
    }
  }

  /** They are distinct for one call more: the 2^64th call gets 0, the next one 1 again. */
  lemma CountersDistinctExactly(s: Session, n: nat)
    requires s.sequence == 1
    ensures (forall i: nat, j: nat :: i < j < n ==> CounterOf(s, i) != CounterOf(s, j)) <==> n <= TWO64
  {
    forall k: nat ensures CounterOf(s, k) == (1 + k) % TWO64 { CounterIs(s, k); }
    if n > TWO64 {
      assert CounterOf(s, TWO64) == CounterOf(s, 0);
    }
  }

  /** No MAC input repeats among the first 2^64 calls of a session. */
  lemma {:induction false} NoMacInputRepeats(s: Session, calls: seq<Call>, i: nat, j: nat)
    requires s.sequence == 1 && i < j < |calls| <= TWO64
    requires MacDefined(calls[i], s.sessionId) && MacDefined(calls[j], s.sessionId)
    ensures MacInput(calls[i], CounterOf(s, i), s.sessionId) != MacInput(calls[j], CounterOf(s, j), s.sessionId)
  {
    CountersDistinctExactly(s, |calls|);
    CounterIs(s, i);
    CounterIs(s, j);
    if MacInput(calls[i], CounterOf(s, i), s.sessionId) == MacInput(calls[j], CounterOf(s, j), s.sessionId) {
      MacInputIsInjective(calls[i], CounterOf(s, i), s.sessionId, calls[j], CounterOf(s, j), s.sessionId);
    }
  }
}
