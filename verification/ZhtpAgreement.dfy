/** What is on the wire is what the MAC covers: whoever decodes an authenticated request finds the method,
  path, body, counter and session its MAC was computed over, and the MAC. */
module ZhtpAgreement {
  import opened Bytes
  import opened Cbor
  import opened CborFormat
  import opened CborProofs
  import opened ZhtpAuth
  import opened ZhtpAuthRequest
  import ZhtpCodec
  import ZhtpResponse
  import ZhtpWireFraming

  // ---- The receiver ----

  function Field(v: Value, key: string): Option<Value>
    requires forall i :: 0 <= i < |key| ==> key[i] < 128 as char
  {
    if v.Dict? then Lookup(v.entries, Ascii(key)) else None
  }

  datatype Received = Received(verb: bytes, path: bytes, body: bytes, sequence: nat, sessionId: bytes, requestMac: bytes)

  /** The authenticated fields of a decoded request, wherever they stand in it. */
  function ReadRequest(v: Value): Option<Received> {
    match (Field(v, "auth_context"), Field(v, "request"))
    case (Some(auth), Some(request)) => ReadParts(auth, request)
    case _ => None
  }

  function ReadParts(auth: Value, request: Value): Option<Received> {
    match (ReadAuth(auth), Field(request, "method"), Field(request, "uri"), Field(request, "body"))
    case (Some((sessionId, n, mac)), Some(Text(verb)), Some(Text(path)), Some(ByteString(body))) =>
      Some(Received(verb, path, body, n, sessionId, mac))
    case _ => None
  }

  function ReadAuth(auth: Value): Option<(bytes, nat, bytes)> {
    match (Field(auth, "session_id"), Field(auth, "sequence"), Field(auth, "request_mac"))
    case (Some(Array(sessionId)), Some(Integer(n)), Some(Array(mac))) =>
      if n >= 0 then Some((ZhtpResponse.LowBytes(sessionId, _ => 0), n, ZhtpResponse.LowBytes(mac, _ => 0))) else None
    case _ => None
  }

  function VerbOf(name: bytes): Option<ZhtpMethod> {
    if name == Ascii("Get") then Some(Get)
    else if name == Ascii("Post") then Some(Post)
    else if name == Ascii("Put") then Some(Put)
    else if name == Ascii("Delete") then Some(Delete)
    else None
  }

  /** A verifier with the MAC key: decode, read the fields, compute the MAC again, compare. */
  predicate Accepts(d: bytes, macKey: bytes, hmac: Hmac) {
    match Decode(d, 0)
    case Ok(Decoded(v, _)) =>
      (match ReadRequest(v)
       case Some(r) => Verifies(r, macKey, hmac)
       case None => false)
    case _ => false
  }

  predicate Verifies(r: Received, macKey: bytes, hmac: Hmac) {
    match VerbOf(r.verb)
    case Some(verb) =>
      var c := Call(verb, r.path, r.body);
      MacDefined(c, r.sessionId) && hmac(macKey, MacInput(c, r.sequence, r.sessionId)) == Some(r.requestMac)
    case None => false
  }

  // ---- The trees that are sent ----

  lemma {:induction false} AsciiIsUtf8(s: bytes)
    requires forall i :: 0 <= i < |s| ==> s[i] < 128
    ensures ValidUtf8(s)
  {
    if s != [] {
      AsciiIsUtf8(s[1..]);
    }
  }

  lemma {:induction false} LookupAt(entries: seq<Entry>, k: nat)
    requires k < |entries| && DistinctKeys(entries)
    ensures Lookup(entries, entries[k].key) == Some(entries[k].value)
  {
    if k > 0 {
      LookupAt(entries[1..], k - 1);
    }
  }

  /** The keys of one map are told apart by length and first letter. */
  function Mark(key: bytes): int {
    if key == [] then 0 else 256 * |key| + key[0]
  }

  lemma KeyOk(s: string, mark: int)
    requires (forall i :: 0 <= i < |s| ==> s[i] < 128 as char) && 0 < |s| <= 100 && mark == 256 * |s| + s[0] as int
    ensures KeyFits(Ascii(s)) && Mark(Ascii(s)) == mark
  {
    AsciiIsUtf8(Ascii(s));
  }

  ghost predicate KeysFit(entries: seq<Entry>) {
    DistinctKeys(entries) && forall i :: 0 <= i < |entries| ==> KeyFits(entries[i].key)
  }

  ghost predicate Marked(e: Entry, mark: int) {
    KeyFits(e.key) && Mark(e.key) == mark
  }

  lemma FourKeys(es: seq<Entry>, m0: int, m1: int, m2: int, m3: int)
    requires |es| == 4 && Marked(es[0], m0) && Marked(es[1], m1) && Marked(es[2], m2) && Marked(es[3], m3)
    requires m0 != m1 && m0 != m2 && m0 != m3 && m1 != m2 && m1 != m3 && m2 != m3
    ensures KeysFit(es)
  {
  }

  lemma OneMoreKey(es: seq<Entry>, mark: int)
    requires es != [] && KeysFit(es[..|es| - 1]) && Marked(es[|es| - 1], mark)
    requires forall i :: 0 <= i < |es| - 1 ==> Mark(es[i].key) != mark
    ensures KeysFit(es)
  {
    assert forall i :: 0 <= i < |es| - 1 ==> es[..|es| - 1][i] == es[i];
  }

  // Each map's keys, whatever its values.

  lemma AuthKeys(es: seq<Entry>)
    requires |es| == 4 && es[0].key == Ascii("session_id") && es[1].key == Ascii("client_did")
    requires es[2].key == Ascii("sequence") && es[3].key == Ascii("request_mac")
    ensures KeysFit(es)
  {
    KeyOk("session_id", 2675); KeyOk("client_did", 2659); KeyOk("sequence", 2163); KeyOk("request_mac", 2930);
    FourKeys(es, 2675, 2659, 2163, 2930);
  }

  lemma HeaderKeys(es: seq<Entry>)
    requires |es| == 4 && es[0].key == Ascii("content_type") && es[1].key == Ascii("content_length")
    requires es[2].key == Ascii("dao_fee") && es[3].key == Ascii("total_fees")
    ensures KeysFit(es)
  {
    KeyOk("content_type", 3171); KeyOk("content_length", 3683); KeyOk("dao_fee", 1892); KeyOk("total_fees", 2676);
    FourKeys(es, 3171, 3683, 1892, 2676);
  }

  lemma RequestKeys(es: seq<Entry>)
    requires |es| == 6 && es[0].key == Ascii("method") && es[1].key == Ascii("uri") && es[2].key == Ascii("version")
    requires es[3].key == Ascii("headers") && es[4].key == Ascii("body") && es[5].key == Ascii("timestamp")
    ensures KeysFit(es)
  {
    RequestLineKeys(es[..4]);
    KeyOk("body", 1122);
    assert es[..5][..4] == es[..4];
    OneMoreKey(es[..5], 1122);
    KeyOk("timestamp", 2420);
    OneMoreKey(es, 2420);
  }

  lemma RequestLineKeys(es: seq<Entry>)
    requires |es| == 4 && es[0].key == Ascii("method") && es[1].key == Ascii("uri") && es[2].key == Ascii("version")
    requires es[3].key == Ascii("headers")
    ensures KeysFit(es) && Mark(es[0].key) == 1645 && Mark(es[1].key) == 885
    ensures Mark(es[2].key) == 1910 && Mark(es[3].key) == 1896
  {
    KeyOk("method", 1645); KeyOk("uri", 885); KeyOk("version", 1910); KeyOk("headers", 1896);
    FourKeys(es, 1645, 885, 1910, 1896);
  }

  lemma OuterKeys(es: seq<Entry>)
    requires |es| == 5 && es[0].key == Ascii("version") && es[1].key == Ascii("request_id")
    requires es[2].key == Ascii("timestamp_ms") && es[3].key == Ascii("auth_context") && es[4].key == Ascii("request")
    ensures KeysFit(es)
  {
    KeyOk("version", 1910); KeyOk("request_id", 2674); KeyOk("timestamp_ms", 3188); KeyOk("auth_context", 3169);
    FourKeys(es[..4], 1910, 2674, 3188, 3169);
    KeyOk("request", 1906);
    OneMoreKey(es, 1906);
  }

  /** Swift strings have valid UTF-8. */
  predicate TextsValid(c: Call, e: Envelope, auth: AuthContext) {
    ValidUtf8(c.path) && ValidUtf8(e.contentType) && ValidUtf8(auth.clientDid)
  }

  lemma DictFits(entries: seq<Entry>)
    requires KeysFit(entries) && |entries| <= 10
    requires forall i :: 0 <= i < |entries| ==> Fits(entries[i].value) && NoSimple(entries[i].value)
    ensures Fits(Dict(entries)) && NoSimple(Dict(entries))
  {
  }

  lemma BytesFit(b: bytes)
    requires |b| <= INT_MAX
    ensures Fits(Array(ZhtpCodec.ByteItems(b))) && NoSimple(Array(ZhtpCodec.ByteItems(b)))
  {
  }

  lemma TreeFits(c: Call, e: Envelope, auth: AuthContext)
    requires Sized(c, e, auth) && TextsValid(c, e, auth)
    ensures Fits(RequestTree(c, e, auth)) && NoSimple(RequestTree(c, e, auth))
  {
    AuthFits(auth);
    RequestFits(c, e);
    BytesFit(e.requestId);
    OuterFitsOf(OuterEntries(c, e, auth));
  }

  lemma OuterFitsOf(es: seq<Entry>)
    requires |es| == 5 && es[0].key == Ascii("version") && es[1].key == Ascii("request_id")
    requires es[2].key == Ascii("timestamp_ms") && es[3].key == Ascii("auth_context") && es[4].key == Ascii("request")
    requires forall i :: 0 <= i < 5 ==> Fits(es[i].value) && NoSimple(es[i].value)
    ensures Fits(Dict(es)) && NoSimple(Dict(es))
  {
    OuterKeys(es);
    DictFits(es);
  }

  lemma AuthFits(auth: AuthContext)
    requires |auth.sessionId| <= INT_MAX && |auth.clientDid| <= INT_MAX && |auth.requestMac| <= INT_MAX
    requires auth.sequence < TWO64 && ValidUtf8(auth.clientDid)
    ensures Fits(Dict(AuthEntries(auth))) && NoSimple(Dict(AuthEntries(auth)))
  {
    BytesFit(auth.sessionId);
    BytesFit(auth.requestMac);
    AuthFitsOf(AuthEntries(auth));
  }

  lemma AuthFitsOf(es: seq<Entry>)
    requires |es| == 4 && es[0].key == Ascii("session_id") && es[1].key == Ascii("client_did")
    requires es[2].key == Ascii("sequence") && es[3].key == Ascii("request_mac")
    requires forall i :: 0 <= i < 4 ==> Fits(es[i].value) && NoSimple(es[i].value)
    ensures Fits(Dict(es)) && NoSimple(Dict(es))
  {
    AuthKeys(es);
    DictFits(es);
  }

  lemma RequestFits(c: Call, e: Envelope)
    requires |c.path| <= INT_MAX && |c.body| <= INT_MAX && |e.contentType| <= INT_MAX && e.timestamp < TWO64
    requires ValidUtf8(c.path) && ValidUtf8(e.contentType)
    ensures Fits(Dict(RequestEntries(c, e))) && NoSimple(Dict(RequestEntries(c, e)))
  {
    HeadersFit(c, e);
    AsciiIsUtf8(Ascii(MethodString(c.verb)));
    AsciiIsUtf8(Ascii("1.0"));
    assert |MethodString(c.verb)| < 10;
    RequestFitsOf(RequestEntries(c, e));
  }

  lemma HeadersFit(c: Call, e: Envelope)
    requires |c.body| <= INT_MAX && |e.contentType| <= INT_MAX && ValidUtf8(e.contentType)
    ensures Fits(Dict(HeaderEntries(c, e))) && NoSimple(Dict(HeaderEntries(c, e)))
  {
    HeadersFitOf(HeaderEntries(c, e));
  }

  lemma HeadersFitOf(es: seq<Entry>)
    requires |es| == 4 && es[0].key == Ascii("content_type") && es[1].key == Ascii("content_length")
    requires es[2].key == Ascii("dao_fee") && es[3].key == Ascii("total_fees")
    requires forall i :: 0 <= i < 4 ==> Fits(es[i].value) && NoSimple(es[i].value)
    ensures Fits(Dict(es)) && NoSimple(Dict(es))
  {
    HeaderKeys(es);
    DictFits(es);
  }

  lemma RequestFitsOf(es: seq<Entry>)
    requires |es| == 6 && es[0].key == Ascii("method") && es[1].key == Ascii("uri") && es[2].key == Ascii("version")
    requires es[3].key == Ascii("headers") && es[4].key == Ascii("body") && es[5].key == Ascii("timestamp")
    requires forall i :: 0 <= i < 6 ==> Fits(es[i].value) && NoSimple(es[i].value)
    ensures Fits(Dict(es)) && NoSimple(Dict(es))
  {
    RequestKeys(es);
    DictFits(es);
  }

  lemma AuthReads(es: seq<Entry>, sessionId: bytes, did: Value, n: nat, mac: bytes)
    requires |es| == 4 && es[0] == Entry(Ascii("session_id"), Array(ZhtpCodec.ByteItems(sessionId)))
    requires es[1] == Entry(Ascii("client_did"), did) && es[2] == Entry(Ascii("sequence"), Integer(n))
    requires es[3] == Entry(Ascii("request_mac"), Array(ZhtpCodec.ByteItems(mac)))
    ensures ReadAuth(Dict(es)) == Some((sessionId, n, mac))
  {
    AuthFields(es);
    AuthFromFields(Dict(es), sessionId, n, mac);
  }

  lemma AuthFields(es: seq<Entry>)
    requires |es| == 4 && es[0].key == Ascii("session_id") && es[1].key == Ascii("client_did")
    requires es[2].key == Ascii("sequence") && es[3].key == Ascii("request_mac")
    ensures Field(Dict(es), "session_id") == Some(es[0].value) && Field(Dict(es), "sequence") == Some(es[2].value)
    ensures Field(Dict(es), "request_mac") == Some(es[3].value)
  {
    AuthKeys(es);
    LookupAt(es, 0);
    LookupAt(es, 2);
    LookupAt(es, 3);
  }

  lemma AuthFromFields(auth: Value, sessionId: bytes, n: nat, mac: bytes)
    requires Field(auth, "session_id") == Some(Array(ZhtpCodec.ByteItems(sessionId)))
    requires Field(auth, "sequence") == Some(Integer(n))
    requires Field(auth, "request_mac") == Some(Array(ZhtpCodec.ByteItems(mac)))
    ensures ReadAuth(auth) == Some((sessionId, n, mac))
  {
    ZhtpResponse.LowBytesInvert(sessionId, _ => 0);
    ZhtpResponse.LowBytesInvert(mac, _ => 0);
  }

  lemma RequestReads(es: seq<Entry>)
    requires |es| == 6 && es[0].key == Ascii("method") && es[1].key == Ascii("uri") && es[2].key == Ascii("version")
    requires es[3].key == Ascii("headers") && es[4].key == Ascii("body") && es[5].key == Ascii("timestamp")
    ensures Field(Dict(es), "method") == Some(es[0].value) && Field(Dict(es), "uri") == Some(es[1].value)
    ensures Field(Dict(es), "body") == Some(es[4].value)
  {
    RequestKeys(es);
    LookupAt(es, 0);
    LookupAt(es, 1);
    LookupAt(es, 4);
  }

  lemma OuterReads(es: seq<Entry>)
    requires |es| == 5 && es[0].key == Ascii("version") && es[1].key == Ascii("request_id")
    requires es[2].key == Ascii("timestamp_ms") && es[3].key == Ascii("auth_context") && es[4].key == Ascii("request")
    ensures ReadRequest(Dict(es)) == ReadParts(es[3].value, es[4].value)
  {
    OuterKeys(es);
    LookupAt(es, 3);
    LookupAt(es, 4);
  }

  lemma PartsRead(c: Call, e: Envelope, auth: AuthContext)
    ensures ReadParts(Dict(AuthEntries(auth)), Dict(RequestEntries(c, e))) ==
            Some(Received(Ascii(MethodString(c.verb)), c.path, c.body, auth.sequence, auth.sessionId, auth.requestMac))
  {
    AuthReads(AuthEntries(auth), auth.sessionId, Text(auth.clientDid), auth.sequence, auth.requestMac);
    RequestReads(RequestEntries(c, e));
  }

  lemma TreeReads(c: Call, e: Envelope, auth: AuthContext)
    ensures ReadRequest(RequestTree(c, e, auth)) ==
            Some(Received(Ascii(MethodString(c.verb)), c.path, c.body, auth.sequence, auth.sessionId, auth.requestMac))
  {
    OuterReads(OuterEntries(c, e, auth));
    PartsRead(c, e, auth);
  }

  /** Decoding the bytes of an authenticated request gives back everything the MAC covers, and the MAC,
    whatever follows them. */
  lemma WireAgreement(c: Call, e: Envelope, auth: AuthContext, rest: bytes)
    requires Sized(c, e, auth) && TextsValid(c, e, auth)
    requires |Enc(RequestTree(c, e, auth)) + rest| <= INT_MAX
    ensures var r := Decode(Enc(RequestTree(c, e, auth)) + rest, 0);
            && r == Ok(Decoded(RequestTree(c, e, auth), |Enc(RequestTree(c, e, auth))|))
            && ReadRequest(r.value.value) ==
               Some(Received(Ascii(MethodString(c.verb)), c.path, c.body, auth.sequence, auth.sessionId, auth.requestMac))
  {
    TreeFits(c, e, auth);
    RoundTripExactly(RequestTree(c, e, auth), rest);
    TreeReads(c, e, auth);
  }

  lemma VerbRoundTrip(c: Call)
    requires MethodByte(c.verb).Some?
    ensures VerbOf(Ascii(MethodString(c.verb))) == Some(c.verb)
  {
    KeyOk("Get", 839); KeyOk("Post", 1104); KeyOk("Put", 848); KeyOk("Delete", 1604);
  }

  /** Every request a session authenticates is accepted by a verifier with the same key. */
  lemma SentRequestsVerify(s: Session, c: Call, e: Envelope, hmac: Hmac)
    requires AuthContextFor(s, c, hmac).Ok?
    requires Sized(c, e, AuthContextFor(s, c, hmac).value) && TextsValid(c, e, AuthContextFor(s, c, hmac).value)
    requires |Enc(RequestTree(c, e, AuthContextFor(s, c, hmac).value))| <= INT_MAX
    ensures Accepts(Enc(RequestTree(c, e, AuthContextFor(s, c, hmac).value)), s.macKey, hmac)
  {
    var auth := AuthContextFor(s, c, hmac).value;
    var d := Enc(RequestTree(c, e, auth));
    assert d + [] == d;
    WireAgreement(c, e, auth, []);
    VerbRoundTrip(c);
  }

  // ---- The rest of the envelope ----

  lemma OuterFound(es: seq<Entry>)
    requires |es| == 5 && es[0].key == Ascii("version") && es[1].key == Ascii("request_id")
    requires es[2].key == Ascii("timestamp_ms") && es[3].key == Ascii("auth_context") && es[4].key == Ascii("request")
    ensures Field(Dict(es), "version") == Some(es[0].value) && Field(Dict(es), "request_id") == Some(es[1].value)
    ensures Field(Dict(es), "timestamp_ms") == Some(es[2].value) && Field(Dict(es), "auth_context") == Some(es[3].value)
    ensures Field(Dict(es), "request") == Some(es[4].value)
  {
    OuterKeys(es);
    LookupAt(es, 0);
    LookupAt(es, 1);
    LookupAt(es, 2);
    LookupAt(es, 3);
    LookupAt(es, 4);
  }

  lemma DidFound(es: seq<Entry>)
    requires |es| == 4 && es[0].key == Ascii("session_id") && es[1].key == Ascii("client_did")
    requires es[2].key == Ascii("sequence") && es[3].key == Ascii("request_mac")
    ensures Field(Dict(es), "client_did") == Some(es[1].value)
  {
    AuthKeys(es);
    LookupAt(es, 1);
  }

  lemma RequestFound(es: seq<Entry>)
    requires |es| == 6 && es[0].key == Ascii("method") && es[1].key == Ascii("uri") && es[2].key == Ascii("version")
    requires es[3].key == Ascii("headers") && es[4].key == Ascii("body") && es[5].key == Ascii("timestamp")
    ensures Field(Dict(es), "version") == Some(es[2].value) && Field(Dict(es), "headers") == Some(es[3].value)
    ensures Field(Dict(es), "timestamp") == Some(es[5].value)
  {
    RequestKeys(es);
    LookupAt(es, 2);
    LookupAt(es, 3);
    LookupAt(es, 5);
  }

  lemma HeadersFound(es: seq<Entry>)
    requires |es| == 4 && es[0].key == Ascii("content_type") && es[1].key == Ascii("content_length")
    requires es[2].key == Ascii("dao_fee") && es[3].key == Ascii("total_fees")
    ensures Field(Dict(es), "content_type") == Some(es[0].value) && Field(Dict(es), "content_length") == Some(es[1].value)
    ensures Field(Dict(es), "dao_fee") == Some(es[2].value) && Field(Dict(es), "total_fees") == Some(es[3].value)
  {
    HeaderKeys(es);
    LookupAt(es, 0);
    LookupAt(es, 1);
    LookupAt(es, 2);
    LookupAt(es, 3);
  }

  ghost predicate OuterHas(v: Value, e: Envelope) {
    && Field(v, "version") == Some(Integer(1)) && Field(v, "timestamp_ms") == Some(Integer(e.timestampMs))
    && Field(v, "request_id").Some? && Field(v, "request_id").value.Array?
    && ZhtpResponse.LowBytes(Field(v, "request_id").value.items, _ => 0) == e.requestId
  }

  ghost predicate RequestHas(v: Value, e: Envelope) {
    Field(v, "version") == Some(Text(Ascii("1.0"))) && Field(v, "timestamp") == Some(Integer(e.timestamp))
  }

  ghost predicate HeadersHave(v: Value, c: Call, e: Envelope) {
    && Field(v, "content_type") == Some(Text(e.contentType)) && Field(v, "content_length") == Some(Integer(|c.body|))
    && Field(v, "dao_fee") == Some(Integer(0)) && Field(v, "total_fees") == Some(Integer(0))
  }

  /** Everything else that is sent is found where the receiver looks for it: the wire version 1, the request id, both times, the
    client's DID, the request version 1.0, the content type, the length of the body, and no fees. */
  lemma EnvelopeAgreement(c: Call, e: Envelope, auth: AuthContext)
    ensures var v := RequestTree(c, e, auth);
            && OuterHas(v, e) && Field(v, "auth_context").Some? && Field(v, "request").Some?
            && Field(Field(v, "auth_context").value, "client_did") == Some(Text(auth.clientDid))
            && RequestHas(Field(v, "request").value, e) && Field(Field(v, "request").value, "headers").Some?
            && HeadersHave(Field(Field(v, "request").value, "headers").value, c, e)
  {
    OuterParts(c, e, auth);
    DidFound(AuthEntries(auth));
    RequestFound(RequestEntries(c, e));
    HeadersFound(HeaderEntries(c, e));
  }

  lemma OuterParts(c: Call, e: Envelope, auth: AuthContext)
    ensures var v := RequestTree(c, e, auth);
            && OuterHas(v, e) && Field(v, "auth_context") == Some(Dict(AuthEntries(auth)))
            && Field(v, "request") == Some(Dict(RequestEntries(c, e)))
  {
    OuterFound(OuterEntries(c, e, auth));
    ZhtpResponse.LowBytesInvert(e.requestId, _ => 0);
  }
}
