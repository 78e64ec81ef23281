/** ios/ZhtpAuthRequest.swift: its own CBOR encoder, the authenticated request it writes, and the order of
  steps of a send. */
module ZhtpAuthRequest {
  import opened Bytes
  import opened Cbor
  import opened ZhtpAuth
  import ZhtpCodec
  import ZhtpWireFraming

  // ---- The second encoder ----

  method AppendCborMapHeader(data: bytes, count: int) returns (r: Result<bytes>)
    ensures r == if 0 <= count < 24 then Ok(data + Cbor.Head(5, count)) else Thrown
  {
    if !(0 <= count < 24) {
      return Thrown;
    }
    assert Cbor.Head(5, count) == [0xa0 + count];
    r := Ok(data + [0xa0 + count]);
  }

  method AppendCborUInt(data: bytes, value: nat) returns (out: bytes)
    requires value < TWO64
    ensures out == data + Cbor.Head(0, value)
  {
    if value <= 23 {
      out := data + [value];
      assert BigEndian(value, 0) == [];
    } else if value <= 0xff {
      out := data + [0x18];
      out := out + [value];
      assert BigEndian(value, 1) == BigEndian(value / 256, 0) + [value % 256];
    } else if value <= 0xffff {
      out := data + [0x19];
      out := out + BigEndian(value, 2);
    } else if value <= 0xffff_ffff {
      out := data + [0x1a];
      out := out + BigEndian(value, 4);
    } else {
      out := data + [0x1b];
      out := out + BigEndian(value, 8);
    }
  }

  method AppendCborLength(data: bytes, majorType: nat, length: int) returns (r: Result<bytes>)
    requires majorType < 8 && length <= INT_MAX
    ensures r == if length >= 0 then Ok(data + Cbor.Head(majorType, length)) else Thrown
  {
    if length < 0 {
      return Thrown;
    }
    var out: bytes;
    if length < 24 {
      out := data + [32 * majorType + length];
      assert BigEndian(length, 0) == [];
    } else if length <= 0xff {
      out := data + [32 * majorType + 24];
      out := out + [length];
      assert BigEndian(length, 1) == BigEndian(length / 256, 0) + [length % 256];
    } else if length <= 0xffff {
      out := data + [32 * majorType + 25];
      out := out + BigEndian(length, 2);
    } else if length <= 0xffff_ffff {
      out := data + [32 * majorType + 26];
      out := out + BigEndian(length, 4);
    } else {
      out := data + [32 * majorType + 27];
      out := out + BigEndian(length, 8);
    }
    assert out == data + Cbor.Head(majorType, length);
    r := Ok(out);
  }

  method AppendCborString(data: bytes, utf8: bytes) returns (out: bytes)
    requires |utf8| <= INT_MAX
    ensures out == data + EncText(utf8)
  {
    var header := AppendCborLength(data, 3, |utf8|);
    out := header.value + utf8;
  }

  method AppendCborBytes(data: bytes, body: bytes) returns (out: bytes)
    requires |body| <= INT_MAX
    ensures out == data + Enc(ByteString(body))
  {
    var header := AppendCborLength(data, 2, |body|);
    out := header.value + body;
  }

  lemma ItemsStep(out: bytes, items: seq<Value>, i: nat)
    requires i < |items|
    ensures out + EncItems(items[i..]) == out + Enc(items[i]) + EncItems(items[i + 1..])
  {
    assert items[i..][1..] == items[i + 1..];
  }

  method AppendCborByteArray(data: bytes, body: bytes) returns (out: bytes)
    requires |body| <= INT_MAX
    ensures out == data + Enc(Array(ZhtpCodec.ByteItems(body)))
  {
    var header := AppendCborLength(data, 4, |body|);
    out := header.value;
    ghost var items := ZhtpCodec.ByteItems(body);
    ghost var head := data + Cbor.Head(4, |body|);
    for i := 0 to |body|
      invariant out + EncItems(items[i..]) == head + EncItems(items)
    {
      ItemsStep(out, items, i);
      out := AppendCborUInt(out, body[i]);
    }
    assert out + [] == out;
  }

  // ---- The request ----

  function MethodString(m: ZhtpMethod): (s: string)
    ensures forall i :: 0 <= i < |s| ==> s[i] < 128 as char
  {
    match m
    case Get => "Get"
    case Post => "Post"
    case Put => "Put"
    case Delete => "Delete"
    case Options => "Options"
    case Head => "Head"
    case Patch => "Patch"
    case Verify => "Verify"
    case Connect => "Connect"
    case Trace => "Trace"
  }

  lemma MethodNames()
    ensures MethodString(Get) == "Get" && MethodString(Post) == "Post" && MethodString(Put) == "Put"
    ensures MethodString(Delete) == "Delete" && MethodString(Options) == "Options" && MethodString(ZhtpMethod.Head) == "Head"
    ensures MethodString(Patch) == "Patch" && MethodString(Verify) == "Verify" && MethodString(Connect) == "Connect"
    ensures MethodString(Trace) == "Trace"
  {
  }

  /** What goes into a request besides the call and its authentication. */
  datatype Envelope = Envelope(contentType: bytes, timestamp: nat, timestampMs: nat, requestId: bytes)

  function AuthEntries(auth: AuthContext): seq<Entry> {
    [Entry(Ascii("session_id"), Array(ZhtpCodec.ByteItems(auth.sessionId))),
     Entry(Ascii("client_did"), Text(auth.clientDid)),
     Entry(Ascii("sequence"), Integer(auth.sequence)),
     Entry(Ascii("request_mac"), Array(ZhtpCodec.ByteItems(auth.requestMac)))]
  }

  function HeaderEntries(c: Call, e: Envelope): seq<Entry> {
    [Entry(Ascii("content_type"), Text(e.contentType)),
     Entry(Ascii("content_length"), Integer(|c.body|)),
     Entry(Ascii("dao_fee"), Integer(0)),
     Entry(Ascii("total_fees"), Integer(0))]
  }

  function RequestEntries(c: Call, e: Envelope): seq<Entry> {
    [Entry(Ascii("method"), Text(Ascii(MethodString(c.verb)))),
     Entry(Ascii("uri"), Text(c.path)),
     Entry(Ascii("version"), Text(Ascii("1.0"))),
     Entry(Ascii("headers"), Dict(HeaderEntries(c, e))),
     Entry(Ascii("body"), ByteString(c.body)),
     Entry(Ascii("timestamp"), Integer(e.timestamp))]
  }

  function OuterEntries(c: Call, e: Envelope, auth: AuthContext): seq<Entry> {
    [Entry(Ascii("version"), Integer(1)),
     Entry(Ascii("request_id"), Array(ZhtpCodec.ByteItems(e.requestId))),
     Entry(Ascii("timestamp_ms"), Integer(e.timestampMs)),
     Entry(Ascii("auth_context"), Dict(AuthEntries(auth))),
     Entry(Ascii("request"), Dict(RequestEntries(c, e)))]
  }

  function RequestTree(c: Call, e: Envelope, auth: AuthContext): Value {
    Dict(OuterEntries(c, e, auth))
  }

  /** The sizes Swift's types guarantee. */
  predicate Sized(c: Call, e: Envelope, auth: AuthContext) {
    && |c.path| <= INT_MAX && |c.body| <= INT_MAX && |e.contentType| <= INT_MAX && |e.requestId| <= INT_MAX
    && |auth.sessionId| <= INT_MAX && |auth.clientDid| <= INT_MAX && |auth.requestMac| <= INT_MAX
    && e.timestamp < TWO64 && e.timestampMs < TWO64 && auth.sequence < TWO64
  }

  lemma {:induction false} EntriesSnoc(es: seq<Entry>, key: bytes, value: Value)
    ensures EncEntries(es + [Entry(key, value)]) == EncEntries(es) + EncText(key) + Enc(value)
  {
    if es == [] {
      assert [Entry(key, value)][1..] == [] && es + [Entry(key, value)] == [Entry(key, value)];
    } else {
      assert (es + [Entry(key, value)])[1..] == es[1..] + [Entry(key, value)];
      EntriesSnoc(es[1..], key, value);
    }
  }

  /** The pair with index `k` goes after the pairs before it. */
  lemma PairWritten(before: bytes, head: bytes, es: seq<Entry>, k: nat)
    requires k < |es| && before == head + EncEntries(es[..k])
    ensures before + EncText(es[k].key) + Enc(es[k].value) == head + EncEntries(es[..k + 1])
  {
    EntriesSnoc(es[..k], es[k].key, es[k].value);
    assert es[..k] + [Entry(es[k].key, es[k].value)] == es[..k + 1];
  }

  /** A map is complete when as many pairs are written as its header announced. */
  lemma MapWritten(data: bytes, es: seq<Entry>)
    ensures data + Cbor.Head(5, |es|) == data + Cbor.Head(5, |es|) + EncEntries(es[..0])
    ensures data + Cbor.Head(5, |es|) + EncEntries(es[..|es|]) == data + Enc(Dict(es))
  {
    assert es[..|es|] == es;
  }

  // One key with its value: two of the source's consecutive appends. `es` are all the pairs of the map,
  // `k` is the index of this one, and `head` is everything up to the map's header.

  method AppendTextPair(data: bytes, key: bytes, value: bytes, ghost head: bytes, ghost es: seq<Entry>, ghost k: nat)
    returns (out: bytes)
    requires k < |es| && es[k] == Entry(key, Text(value)) && |key| <= INT_MAX && |value| <= INT_MAX
    requires data == head + EncEntries(es[..k])
    ensures out == head + EncEntries(es[..k + 1])
  {
    PairWritten(data, head, es, k);
    out := AppendCborString(data, key);
    out := AppendCborString(out, value);
  }

  method AppendUIntPair(data: bytes, key: bytes, value: nat, ghost head: bytes, ghost es: seq<Entry>, ghost k: nat)
    returns (out: bytes)
    requires k < |es| && es[k] == Entry(key, Integer(value)) && |key| <= INT_MAX && value < TWO64
    requires data == head + EncEntries(es[..k])
    ensures out == head + EncEntries(es[..k + 1])
  {
    PairWritten(data, head, es, k);
    out := AppendCborString(data, key);
    out := AppendCborUInt(out, value);
  }

  method AppendByteArrayPair(data: bytes, key: bytes, value: bytes, ghost head: bytes, ghost es: seq<Entry>, ghost k: nat)
    returns (out: bytes)
    requires k < |es| && es[k] == Entry(key, Array(ZhtpCodec.ByteItems(value))) && |key| <= INT_MAX && |value| <= INT_MAX
    requires data == head + EncEntries(es[..k])
    ensures out == head + EncEntries(es[..k + 1])
  {
    PairWritten(data, head, es, k);
    out := AppendCborString(data, key);
    out := AppendCborByteArray(out, value);
  }

  method AppendBytesPair(data: bytes, key: bytes, value: bytes, ghost head: bytes, ghost es: seq<Entry>, ghost k: nat)
    returns (out: bytes)
    requires k < |es| && es[k] == Entry(key, ByteString(value)) && |key| <= INT_MAX && |value| <= INT_MAX
    requires data == head + EncEntries(es[..k])
    ensures out == head + EncEntries(es[..k + 1])
  {
    PairWritten(data, head, es, k);
    out := AppendCborString(data, key);
    out := AppendCborBytes(out, value);
  }

  method AppendAuthContext(data: bytes, auth: AuthContext) returns (out: bytes)
    requires |auth.sessionId| <= INT_MAX && |auth.clientDid| <= INT_MAX && |auth.requestMac| <= INT_MAX
    requires auth.sequence < TWO64
    ensures out == data + Enc(Dict(AuthEntries(auth)))
  {
    ghost var head, es := data + Cbor.Head(5, 4), AuthEntries(auth);
    MapWritten(data, es);
    var header := AppendCborMapHeader(data, 4);
    out := AppendByteArrayPair(header.value, Ascii("session_id"), auth.sessionId, head, es, 0);
    out := AppendTextPair(out, Ascii("client_did"), auth.clientDid, head, es, 1);
    out := AppendUIntPair(out, Ascii("sequence"), auth.sequence, head, es, 2);
    out := AppendByteArrayPair(out, Ascii("request_mac"), auth.requestMac, head, es, 3);
  }

  method AppendAuthContextPair(data: bytes, auth: AuthContext, ghost head: bytes, ghost es: seq<Entry>, ghost k: nat)
    returns (out: bytes)
    requires |auth.sessionId| <= INT_MAX && |auth.clientDid| <= INT_MAX && |auth.requestMac| <= INT_MAX
    requires auth.sequence < TWO64
    requires k < |es| && es[k] == Entry(Ascii("auth_context"), Dict(AuthEntries(auth)))
    requires data == head + EncEntries(es[..k])
    ensures out == head + EncEntries(es[..k + 1])
  {
    PairWritten(data, head, es, k);
    out := AppendCborString(data, Ascii("auth_context"));
    out := AppendAuthContext(out, auth);
  }

  method AppendHeaders(data: bytes, c: Call, e: Envelope) returns (out: bytes)
    requires |c.body| <= INT_MAX && |e.contentType| <= INT_MAX
    ensures out == data + Enc(Dict(HeaderEntries(c, e)))
  {
    ghost var head, es := data + Cbor.Head(5, 4), HeaderEntries(c, e);
    MapWritten(data, es);
    var header := AppendCborMapHeader(data, 4);
    out := AppendTextPair(header.value, Ascii("content_type"), e.contentType, head, es, 0);
    out := AppendUIntPair(out, Ascii("content_length"), |c.body|, head, es, 1);
    out := AppendUIntPair(out, Ascii("dao_fee"), 0, head, es, 2);
    out := AppendUIntPair(out, Ascii("total_fees"), 0, head, es, 3);
  }

  method AppendHeadersPair(data: bytes, c: Call, e: Envelope, ghost head: bytes, ghost es: seq<Entry>, ghost k: nat)
    returns (out: bytes)
    requires |c.body| <= INT_MAX && |e.contentType| <= INT_MAX
    requires k < |es| && es[k] == Entry(Ascii("headers"), Dict(HeaderEntries(c, e)))
    requires data == head + EncEntries(es[..k])
    ensures out == head + EncEntries(es[..k + 1])
  {
    PairWritten(data, head, es, k);
    out := AppendCborString(data, Ascii("headers"));
    out := AppendHeaders(out, c, e);
  }

  method AppendRequest(data: bytes, c: Call, e: Envelope) returns (out: bytes)
    requires |c.path| <= INT_MAX && |c.body| <= INT_MAX && |e.contentType| <= INT_MAX && e.timestamp < TWO64
    ensures out == data + Enc(Dict(RequestEntries(c, e)))
  {
    ghost var head, es := data + Cbor.Head(5, 6), RequestEntries(c, e);
    MapWritten(data, es);
    var header := AppendCborMapHeader(data, 6);
    out := AppendRequestLine(header.value, c, head, es);
    out := AppendHeadersPair(out, c, e, head, es, 3);
    out := AppendPayload(out, c, e, head, es);
  }

  method AppendPayload(data: bytes, c: Call, e: Envelope, ghost head: bytes, ghost es: seq<Entry>) returns (out: bytes)
    requires |c.body| <= INT_MAX && e.timestamp < TWO64 && |es| == 6
    requires es[4] == Entry(Ascii("body"), ByteString(c.body))
    requires es[5] == Entry(Ascii("timestamp"), Integer(e.timestamp))
    requires data == head + EncEntries(es[..4])
    ensures out == head + EncEntries(es[..6])
  {
    out := AppendBytesPair(data, Ascii("body"), c.body, head, es, 4);
    out := AppendUIntPair(out, Ascii("timestamp"), e.timestamp, head, es, 5);
  }

  method AppendRequestLine(data: bytes, c: Call, ghost head: bytes, ghost es: seq<Entry>) returns (out: bytes)
    requires |c.path| <= INT_MAX && |es| >= 3
    requires es[0] == Entry(Ascii("method"), Text(Ascii(MethodString(c.verb))))
    requires es[1] == Entry(Ascii("uri"), Text(c.path)) && es[2] == Entry(Ascii("version"), Text(Ascii("1.0")))
    requires data == head + EncEntries(es[..0])
    ensures out == head + EncEntries(es[..3])
  {
    out := AppendTextPair(data, Ascii("method"), Ascii(MethodString(c.verb)), head, es, 0);
    out := AppendTextPair(out, Ascii("uri"), c.path, head, es, 1);
    out := AppendTextPair(out, Ascii("version"), Ascii("1.0"), head, es, 2);
  }

  method AppendRequestPair(data: bytes, c: Call, e: Envelope, ghost head: bytes, ghost es: seq<Entry>, ghost k: nat)
    returns (out: bytes)
    requires |c.path| <= INT_MAX && |c.body| <= INT_MAX && |e.contentType| <= INT_MAX && e.timestamp < TWO64
    requires k < |es| && es[k] == Entry(Ascii("request"), Dict(RequestEntries(c, e)))
    requires data == head + EncEntries(es[..k])
    ensures out == head + EncEntries(es[..k + 1])
  {
    PairWritten(data, head, es, k);
    out := AppendCborString(data, Ascii("request"));
    out := AppendRequest(out, c, e);
  }

  /** `zhtp_encode_authenticated_request`: every map holds as many pairs as its header says, so the bytes
    are the encoding of one tree. */
  method EncodeAuthenticatedRequest(c: Call, e: Envelope, auth: AuthContext) returns (data: bytes)
    requires Sized(c, e, auth)
    ensures data == Enc(RequestTree(c, e, auth))
  {
    ghost var head, es := [] + Cbor.Head(5, 5), OuterEntries(c, e, auth);
    MapWritten([], es);
    assert [] + Enc(Dict(es)) == Enc(Dict(es));
    var header := AppendCborMapHeader([], 5);
    data := AppendPreamble(header.value, e, head, es);
    data := AppendAuthContextPair(data, auth, head, es, 3);
    data := AppendRequestPair(data, c, e, head, es, 4);
  }

  method AppendPreamble(data: bytes, e: Envelope, ghost head: bytes, ghost es: seq<Entry>) returns (out: bytes)
    requires |e.requestId| <= INT_MAX && e.timestampMs < TWO64 && |es| >= 3
    requires es[0] == Entry(Ascii("version"), Integer(1))
    requires es[1] == Entry(Ascii("request_id"), Array(ZhtpCodec.ByteItems(e.requestId)))
    requires es[2] == Entry(Ascii("timestamp_ms"), Integer(e.timestampMs))
    requires data == head + EncEntries(es[..0])
    ensures out == head + EncEntries(es[..3])
  {
    out := AppendUIntPair(data, Ascii("version"), 1, head, es, 0);
    out := AppendByteArrayPair(out, Ascii("request_id"), e.requestId, head, es, 1);
    out := AppendUIntPair(out, Ascii("timestamp_ms"), e.timestampMs, head, es, 2);
  }
}
