/** `zhtp_encode_sdk_request` in ios/ZhtpCodec.swift: a map with two fixed and up to five optional fields,
  behind the ZHTP header. */
module ZhtpSdkRequest {
  import opened Bytes
  import opened Cbor
  import opened CborFormat
  import CborProofs
  import ZhtpCodec
  import ZhtpAuthRequest
  import ZhtpAgreement
  import ZhtpResponse
  import opened ZhtpWireFraming

  /** `verb` is the method already in upper case. */
  datatype SdkRequest = SdkRequest(
    verb: bytes, path: bytes, sessionId: Option<bytes>, sequence: Option<nat>, timestamp: Option<nat>,
    body: Option<bytes>, requestMac: Option<bytes>)

  function TextField(key: bytes, v: Option<bytes>): seq<Entry> {
    if v.Some? then [Entry(key, Text(v.value))] else []
  }

  function NumberField(key: bytes, v: Option<nat>): seq<Entry> {
    if v.Some? then [Entry(key, Integer(v.value))] else []
  }

  function BytesField(key: bytes, v: Option<bytes>): seq<Entry> {
    if v.Some? then [Entry(key, ByteString(v.value))] else []
  }

  /** An empty body is not sent. */
  function Body(r: SdkRequest): Option<bytes> {
    if r.body == Some([]) then None else r.body
  }

  function SdkEntries(r: SdkRequest): seq<Entry> {
    [Entry(Ascii("method"), Text(r.verb))] + [Entry(Ascii("path"), Text(r.path))]
    + TextField(Ascii("sessionId"), r.sessionId) + NumberField(Ascii("sequence"), r.sequence) + NumberField(Ascii("timestamp"), r.timestamp)
    + BytesField(Ascii("body"), Body(r)) + BytesField(Ascii("requestMac"), r.requestMac)
  }

  predicate TextFits(b: bytes) {
    |b| <= INT_MAX && ValidUtf8(b)
  }

  predicate Sized(r: SdkRequest) {
    && TextFits(r.verb) && TextFits(r.path) && (r.sessionId.Some? ==> TextFits(r.sessionId.value))
    && (r.sequence.Some? ==> r.sequence.value < TWO64) && (r.timestamp.Some? ==> r.timestamp.value < TWO64)
    && (r.body.Some? ==> |r.body.value| <= INT_MAX) && (r.requestMac.Some? ==> |r.requestMac.value| <= INT_MAX)
  }

  lemma PairAdded(head: bytes, es: seq<Entry>, key: bytes, value: Value)
    ensures head + EncEntries(es) + EncText(key) + Enc(value) == head + EncEntries(es + [Entry(key, value)])
  {
    ZhtpAuthRequest.EntriesSnoc(es, key, value);
    var a, b, c := EncEntries(es), EncText(key), Enc(value);
    assert head + a + b + c == head + (a + b + c);
  }

  method AppendText(data: bytes, key: bytes, v: bytes, ghost head: bytes, ghost es: seq<Entry>) returns (out: bytes)
    requires |key| <= 100 && |v| <= INT_MAX && data == head + EncEntries(es)
    ensures out == head + EncEntries(es + TextField(key, Some(v)))
  {
    PairAdded(head, es, key, Text(v));
    out := ZhtpCodec.AppendCborString(data, key);
    out := ZhtpCodec.AppendCborString(out, v);
  }

  method AppendNumber(data: bytes, key: bytes, v: nat, ghost head: bytes, ghost es: seq<Entry>) returns (out: bytes)
    requires |key| <= 100 && v < TWO64 && data == head + EncEntries(es)
    ensures out == head + EncEntries(es + NumberField(key, Some(v)))
  {
    PairAdded(head, es, key, Integer(v));
    out := ZhtpCodec.AppendCborString(data, key);
    out := ZhtpCodec.AppendCborUInt(out, v, 0);
  }

  method AppendBytes(data: bytes, key: bytes, v: bytes, ghost head: bytes, ghost es: seq<Entry>) returns (out: bytes)
    requires |key| <= 100 && |v| <= INT_MAX && data == head + EncEntries(es)
    ensures out == head + EncEntries(es + BytesField(key, Some(v)))
  {
    PairAdded(head, es, key, ByteString(v));
    out := ZhtpCodec.AppendCborString(data, key);
    out := ZhtpCodec.AppendCborBytes(out, v);
  }

  lemma FieldCount(r: SdkRequest, n: nat)
    requires n == 2 + (if r.sessionId.Some? then 1 else 0) + (if r.sequence.Some? then 1 else 0)
                    + (if r.timestamp.Some? then 1 else 0) + (if Body(r).Some? then 1 else 0)
                    + (if r.requestMac.Some? then 1 else 0)
    ensures |SdkEntries(r)| == n && Head(5, n) == [0xa0 + n]
  {
  }

  /** The announced field count is the number of fields written, whichever of them are present, so what
    goes out is the header form of one tree; a length that does not fit 32 bits traps. */
  method EncodeSdkRequest(r: SdkRequest) returns (wire: Result<bytes>)
    requires Sized(r)
    ensures wire == (if |Enc(Dict(SdkEntries(r)))| < TWO32 then Ok(WireForm(Enc(Dict(SdkEntries(r))))) else Trap)
  {
    var fieldCount := 2;
    if r.sessionId.Some? { fieldCount := fieldCount + 1; }
    if r.sequence.Some? { fieldCount := fieldCount + 1; }
    if r.timestamp.Some? { fieldCount := fieldCount + 1; }
    if r.body.Some? && r.body.value != [] { fieldCount := fieldCount + 1; }
    if r.requestMac.Some? { fieldCount := fieldCount + 1; }
    FieldCount(r, fieldCount);

    var cbor := EncodeFields(r, [0xa0 + fieldCount]);
    if |cbor| >= TWO32 {
      return Trap;
    }
    var w := MAGIC;
    w := w + [0x01];
    w := w + BigEndian(|cbor|, 4);
    w := w + cbor;
    wire := Ok(w);
  }

  method EncodeFields(r: SdkRequest, header: bytes) returns (cbor: bytes)
    requires Sized(r)
    ensures cbor == header + EncEntries(SdkEntries(r))
  {
    assert header + EncEntries([]) == header;
    cbor := AppendText(header, Ascii("method"), r.verb, header, []);
    ghost var es := [Entry(Ascii("method"), Text(r.verb))];
    assert [] + TextField(Ascii("method"), Some(r.verb)) == es;
    cbor := AppendText(cbor, Ascii("path"), r.path, header, es);
    es := es + [Entry(Ascii("path"), Text(r.path))];
    cbor := EncodeScalars(r, cbor, header, es);
    es := es + TextField(Ascii("sessionId"), r.sessionId) + NumberField(Ascii("sequence"), r.sequence)
          + NumberField(Ascii("timestamp"), r.timestamp);
    cbor := EncodeBlobs(r, cbor, header, es);
  }

  method EncodeScalars(r: SdkRequest, data: bytes, ghost header: bytes, ghost es: seq<Entry>) returns (cbor: bytes)
    requires Sized(r) && data == header + EncEntries(es)
    ensures cbor == header + EncEntries(es + TextField(Ascii("sessionId"), r.sessionId)
                                        + NumberField(Ascii("sequence"), r.sequence)
                                        + NumberField(Ascii("timestamp"), r.timestamp))
  {
    cbor := data;
    if r.sessionId.Some? {
      cbor := AppendText(cbor, Ascii("sessionId"), r.sessionId.value, header, es);
    }
    assert es + [] == es;
    ghost var fs := es + TextField(Ascii("sessionId"), r.sessionId);
    if r.sequence.Some? {
      cbor := AppendNumber(cbor, Ascii("sequence"), r.sequence.value, header, fs);
    }
    assert fs + [] == fs;
    ghost var gs := fs + NumberField(Ascii("sequence"), r.sequence);
    if r.timestamp.Some? {
      cbor := AppendNumber(cbor, Ascii("timestamp"), r.timestamp.value, header, gs);
    }
    assert gs + [] == gs;
  }

  method EncodeBlobs(r: SdkRequest, data: bytes, ghost header: bytes, ghost es: seq<Entry>) returns (cbor: bytes)
    requires Sized(r) && data == header + EncEntries(es)
    ensures cbor == header + EncEntries(es + BytesField(Ascii("body"), Body(r)) + BytesField(Ascii("requestMac"), r.requestMac))
  {
    cbor := data;
    if r.body.Some? && r.body.value != [] {
      cbor := AppendBytes(cbor, Ascii("body"), r.body.value, header, es);
    }
    assert es + [] == es;
    ghost var fs := es + BytesField(Ascii("body"), Body(r));
    if r.requestMac.Some? {
      cbor := AppendBytes(cbor, Ascii("requestMac"), r.requestMac.value, header, fs);
    }
    assert fs + [] == fs;
  }

  // ---- What the receiver gets ----

  ghost predicate Seen(es: seq<Entry>, marks: set<int>) {
    && ZhtpAgreement.KeysFit(es)
    && forall i :: 0 <= i < |es| ==>
         ZhtpAgreement.Mark(es[i].key) in marks && Fits(es[i].value) && NoSimple(es[i].value)
  }

  /** A field that is absent, or has a key with this mark and a value that is read back as it is. */
  ghost predicate FieldOk(fs: seq<Entry>, mark: int) {
    |fs| <= 1 && forall i :: 0 <= i < |fs| ==> ZhtpAgreement.Marked(fs[i], mark) && Fits(fs[i].value) && NoSimple(fs[i].value)
  }

  lemma Extend(es: seq<Entry>, marks: set<int>, fs: seq<Entry>, mark: int)
    requires Seen(es, marks) && mark !in marks && FieldOk(fs, mark)
    ensures Seen(es + fs, marks + {mark})
  {
    var all := es + fs;
    forall i, j | 0 <= i < j < |all| ensures all[i].key != all[j].key {
      if j < |es| {
        assert es[i].key != es[j].key;
      }
    }
  }

  lemma SdkFits(r: SdkRequest)
    requires Sized(r)
    ensures Fits(Dict(SdkEntries(r))) && NoSimple(Dict(SdkEntries(r)))
  {
    var first, second := [Entry(Ascii("method"), Text(r.verb))], [Entry(Ascii("path"), Text(r.path))];
    LinesFit(r, first, second);
    ScalarsFit(r, first + second);
    SeenFits(SdkEntries(r), {1645, 1136, 2419, 2163, 2420, 1122, 2674});
  }

  lemma LinesFit(r: SdkRequest, first: seq<Entry>, second: seq<Entry>)
    requires Sized(r) && first == [Entry(Ascii("method"), Text(r.verb))] && second == [Entry(Ascii("path"), Text(r.path))]
    ensures Seen(first + second, {1645, 1136})
  {
    MethodOk(r);
    PathOk(r);
    assert [] + first == first && {} + {1645} == {1645};
    Extend([], {}, first, 1645);
    Extend(first, {1645}, second, 1136);
  }

  lemma MethodOk(r: SdkRequest)
    requires Sized(r)
    ensures FieldOk([Entry(Ascii("method"), Text(r.verb))], 1645)
  {
    ZhtpAgreement.KeyOk("method", 1645);
    TextOk(Ascii("method"), Some(r.verb), 1645);
  }

  lemma PathOk(r: SdkRequest)
    requires Sized(r)
    ensures FieldOk([Entry(Ascii("path"), Text(r.path))], 1136)
  {
    ZhtpAgreement.KeyOk("path", 1136);
    TextOk(Ascii("path"), Some(r.path), 1136);
  }

  lemma SeenFits(es: seq<Entry>, marks: set<int>)
    requires Seen(es, marks) && |es| <= 7
    ensures Fits(Dict(es)) && NoSimple(Dict(es))
  {
  }

  lemma ScalarsFit(r: SdkRequest, es: seq<Entry>)
    requires Sized(r) && Seen(es, {1645, 1136})
    ensures Seen(es + TextField(Ascii("sessionId"), r.sessionId) + NumberField(Ascii("sequence"), r.sequence)
                 + NumberField(Ascii("timestamp"), r.timestamp)
                 + BytesField(Ascii("body"), Body(r)) + BytesField(Ascii("requestMac"), r.requestMac),
                 {1645, 1136, 2419, 2163, 2420, 1122, 2674})
  {
    SessionOk(r);
    NumbersOk(r);
    BlobsOk(r);
    FiveFields(es, TextField(Ascii("sessionId"), r.sessionId), NumberField(Ascii("sequence"), r.sequence),
               NumberField(Ascii("timestamp"), r.timestamp), BytesField(Ascii("body"), Body(r)),
               BytesField(Ascii("requestMac"), r.requestMac));
  }

  lemma SessionOk(r: SdkRequest)
    requires Sized(r)
    ensures FieldOk(TextField(Ascii("sessionId"), r.sessionId), 2419)
  {
    ZhtpAgreement.KeyOk("sessionId", 2419);
    TextOk(Ascii("sessionId"), r.sessionId, 2419);
  }

  lemma NumbersOk(r: SdkRequest)
    requires Sized(r)
    ensures FieldOk(NumberField(Ascii("sequence"), r.sequence), 2163)
    ensures FieldOk(NumberField(Ascii("timestamp"), r.timestamp), 2420)
  {
    ZhtpAgreement.KeyOk("sequence", 2163);
    ZhtpAgreement.KeyOk("timestamp", 2420);
    NumberOk(Ascii("sequence"), r.sequence, 2163);
    NumberOk(Ascii("timestamp"), r.timestamp, 2420);
  }

  lemma BlobsOk(r: SdkRequest)
    requires Sized(r)
    ensures FieldOk(BytesField(Ascii("body"), Body(r)), 1122)
    ensures FieldOk(BytesField(Ascii("requestMac"), r.requestMac), 2674)
  {
    ZhtpAgreement.KeyOk("body", 1122);
    ZhtpAgreement.KeyOk("requestMac", 2674);
    BytesOk(Ascii("body"), Body(r), 1122);
    BytesOk(Ascii("requestMac"), r.requestMac, 2674);
  }

  lemma TextOk(key: bytes, v: Option<bytes>, mark: int)
    requires CborProofs.KeyFits(key) && ZhtpAgreement.Mark(key) == mark && (v.Some? ==> TextFits(v.value))
    ensures FieldOk(TextField(key, v), mark)
  {
  }

  lemma NumberOk(key: bytes, v: Option<nat>, mark: int)
    requires CborProofs.KeyFits(key) && ZhtpAgreement.Mark(key) == mark && (v.Some? ==> v.value < TWO64)
    ensures FieldOk(NumberField(key, v), mark)
  {
  }

  lemma BytesOk(key: bytes, v: Option<bytes>, mark: int)
    requires CborProofs.KeyFits(key) && ZhtpAgreement.Mark(key) == mark && (v.Some? ==> |v.value| <= INT_MAX)
    ensures FieldOk(BytesField(key, v), mark)
  {
  }

  lemma FiveFields(es: seq<Entry>, a: seq<Entry>, b: seq<Entry>, c: seq<Entry>, d: seq<Entry>, e: seq<Entry>)
    requires Seen(es, {1645, 1136}) && FieldOk(a, 2419) && FieldOk(b, 2163) && FieldOk(c, 2420)
    requires FieldOk(d, 1122) && FieldOk(e, 2674)
    ensures Seen(es + a + b + c + d + e, {1645, 1136, 2419, 2163, 2420, 1122, 2674})
  {
    Extend(es, {1645, 1136}, a, 2419);
    Extend(es + a, {1645, 1136, 2419}, b, 2163);
    Extend(es + a + b, {1645, 1136, 2419, 2163}, c, 2420);
    Extend(es + a + b + c, {1645, 1136, 2419, 2163, 2420}, d, 1122);
    Extend(es + a + b + c + d, {1645, 1136, 2419, 2163, 2420, 1122}, e, 2674);
  }

  /** Unwrapped and decoded, an SDK request is the tree of exactly the fields that were given. */
  lemma SdkRoundTrip(r: SdkRequest)
    requires Sized(r) && |Enc(Dict(SdkEntries(r)))| < TWO32
    ensures ZhtpResponse.Unwrap(WireForm(Enc(Dict(SdkEntries(r))))) == Ok(Enc(Dict(SdkEntries(r))))
    ensures Decode(Enc(Dict(SdkEntries(r))), 0) == Ok(Decoded(Dict(SdkEntries(r)), |Enc(Dict(SdkEntries(r)))|))
  {
    var v := Dict(SdkEntries(r));
    ZhtpResponse.UnwrapsHeader(Enc(v));
    SdkFits(r);
    CborProofs.RoundTripExactly(v, []);
    assert Enc(v) + [] == Enc(v);
  }

  // ---- Field by field ----

  function ValueOf(fs: seq<Entry>): Option<Value> {
    if fs == [] then None else Some(fs[0].value)
  }

  /** A field that is absent, or the one entry of its key. */
  predicate IsField(fs: seq<Entry>, key: bytes) {
    |fs| <= 1 && (fs != [] ==> fs[0].key == key)
  }

  lemma {:induction false} LookupAppend(a: seq<Entry>, b: seq<Entry>, key: bytes)
    ensures Lookup(a + b, key) == if Lookup(a, key).Some? then Lookup(a, key) else Lookup(b, key)
    decreases |a|
  {
    if a == [] {
      assert a + b == b;
    } else {
      assert (a + b)[1..] == a[1..] + b;
      LookupAppend(a[1..], b, key);
    }
  }

  /** A field whose key has another mark is passed over. */
  lemma PassedOver(es: seq<Entry>, fs: seq<Entry>, key: bytes, other: bytes)
    requires IsField(fs, other) && ZhtpAgreement.Mark(key) != ZhtpAgreement.Mark(other)
    ensures Lookup(es + fs, key) == Lookup(es, key)
  {
    LookupAppend(es, fs, key);
    assert fs != [] ==> fs[1..] == [];
  }

  lemma FoundHere(es: seq<Entry>, fs: seq<Entry>, key: bytes)
    requires IsField(fs, key) && Lookup(es, key).None?
    ensures Lookup(es + fs, key) == ValueOf(fs)
  {
    LookupAppend(es, fs, key);
    assert fs != [] ==> fs[1..] == [];
  }

  /** Seven keys told apart by their marks. */
  ghost predicate Apart(k: seq<bytes>) {
    |k| == 7 && forall i, j :: 0 <= i < j < 7 ==> ZhtpAgreement.Mark(k[i]) != ZhtpAgreement.Mark(k[j])
  }

  ghost predicate AreFields(f: seq<seq<Entry>>, k: seq<bytes>) {
    |f| == |k| && forall i :: 0 <= i < |f| ==> IsField(f[i], k[i])
  }

  function Flat(f: seq<seq<Entry>>): seq<Entry> {
    if f == [] then [] else Flat(f[..|f| - 1]) + f[|f| - 1]
  }

  lemma {:induction false} NoneFound(f: seq<seq<Entry>>, k: seq<bytes>, key: bytes)
    requires AreFields(f, k) && forall i :: 0 <= i < |k| ==> ZhtpAgreement.Mark(k[i]) != ZhtpAgreement.Mark(key)
    ensures Lookup(Flat(f), key).None?
    decreases |f|
  {
    if f != [] {
      var last := |f| - 1;
      NoneFound(f[..last], k[..last], key);
      PassedOver(Flat(f[..last]), f[last], key, k[last]);
    }
  }

  lemma {:induction false} FieldFound(f: seq<seq<Entry>>, k: seq<bytes>, i: nat)
    requires AreFields(f, k) && i < |f|
    requires forall a, b :: 0 <= a < b < |k| ==> ZhtpAgreement.Mark(k[a]) != ZhtpAgreement.Mark(k[b])
    ensures Lookup(Flat(f), k[i]) == ValueOf(f[i])
    decreases |f|
  {
    var last := |f| - 1;
    if i == last {
      NoneFound(f[..last], k[..last], k[last]);
      FoundHere(Flat(f[..last]), f[last], k[last]);
    } else {
      FieldFound(f[..last], k[..last], i);
      PassedOver(Flat(f[..last]), f[last], k[i], k[last]);
    }
  }

  function Fields(r: SdkRequest): seq<seq<Entry>> {
    [[Entry(Ascii("method"), Text(r.verb))], [Entry(Ascii("path"), Text(r.path))], TextField(Ascii("sessionId"), r.sessionId),
     NumberField(Ascii("sequence"), r.sequence), NumberField(Ascii("timestamp"), r.timestamp),
     BytesField(Ascii("body"), Body(r)), BytesField(Ascii("requestMac"), r.requestMac)]
  }

  function Keys(): seq<bytes> {
    [Ascii("method"), Ascii("path"), Ascii("sessionId"), Ascii("sequence"), Ascii("timestamp"), Ascii("body"), Ascii("requestMac")]
  }

  lemma KeysApart()
    ensures Apart(Keys())
  {
    FirstMarks();
    LastMarks();
    ApartByMarks(Keys());
  }

  lemma FirstMarks()
    ensures ZhtpAgreement.Mark(Ascii("method")) == 1645 && ZhtpAgreement.Mark(Ascii("path")) == 1136
    ensures ZhtpAgreement.Mark(Ascii("sessionId")) == 2419 && ZhtpAgreement.Mark(Ascii("sequence")) == 2163
  {
    ZhtpAgreement.KeyOk("method", 1645);
    ZhtpAgreement.KeyOk("path", 1136);
    ZhtpAgreement.KeyOk("sessionId", 2419);
    ZhtpAgreement.KeyOk("sequence", 2163);
  }

  lemma LastMarks()
    ensures ZhtpAgreement.Mark(Ascii("timestamp")) == 2420 && ZhtpAgreement.Mark(Ascii("body")) == 1122
    ensures ZhtpAgreement.Mark(Ascii("requestMac")) == 2674
  {
    ZhtpAgreement.KeyOk("timestamp", 2420);
    ZhtpAgreement.KeyOk("body", 1122);
    ZhtpAgreement.KeyOk("requestMac", 2674);
  }

  lemma ApartByMarks(k: seq<bytes>)
    requires |k| == 7 && ZhtpAgreement.Mark(k[0]) == 1645 && ZhtpAgreement.Mark(k[1]) == 1136
    requires ZhtpAgreement.Mark(k[2]) == 2419 && ZhtpAgreement.Mark(k[3]) == 2163 && ZhtpAgreement.Mark(k[4]) == 2420
    requires ZhtpAgreement.Mark(k[5]) == 1122 && ZhtpAgreement.Mark(k[6]) == 2674
    ensures Apart(k)
  {
  }

  lemma FlatFields(r: SdkRequest)
    ensures Flat(Fields(r)) == SdkEntries(r) && AreFields(Fields(r), Keys())
  {
    var f := Fields(r);
    FlatSeven(f[0], f[1], f[2], f[3], f[4], f[5], f[6]);
  }

  lemma FlatSnoc(f: seq<seq<Entry>>, x: seq<Entry>)
    ensures Flat(f + [x]) == Flat(f) + x
  {
    assert (f + [x])[..|f|] == f;
  }

  lemma FlatSeven(a: seq<Entry>, b: seq<Entry>, c: seq<Entry>, d: seq<Entry>, e: seq<Entry>, f: seq<Entry>, g: seq<Entry>)
    ensures Flat([a, b, c, d, e, f, g]) == a + b + c + d + e + f + g
  {
    FlatSnoc([], a);
    FlatSnoc([a], b);
    FlatSnoc([a, b], c);
    FlatSnoc([a, b, c], d);
    assert [] + [a] == [a] && [] + a == a && [a] + [b] == [a, b] && [a, b] + [c] == [a, b, c];
    FlatRest([a, b, c] + [d], e, f, g);
    assert [a, b, c] + [d] + [e] + [f] + [g] == [a, b, c, d, e, f, g];
  }

  lemma FlatRest(fs: seq<seq<Entry>>, e: seq<Entry>, f: seq<Entry>, g: seq<Entry>)
    ensures Flat(fs + [e] + [f] + [g]) == Flat(fs) + e + f + g
  {
    FlatSnoc(fs, e);
    FlatSnoc(fs + [e], f);
    FlatSnoc(fs + [e] + [f], g);
  }

  lemma FieldAt(r: SdkRequest, i: nat)
    requires i < 7
    ensures Lookup(SdkEntries(r), Keys()[i]) == ValueOf(Fields(r)[i])
  {
    KeysApart();
    FlatFields(r);
    FieldFound(Fields(r), Keys(), i);
  }

  /** What is found under each key: what was given; nothing under the key of what was not given; and no body where it is empty. */
  lemma SdkFieldsFound(r: SdkRequest)
    ensures Lookup(SdkEntries(r), Ascii("method")) == Some(Text(r.verb))
    ensures Lookup(SdkEntries(r), Ascii("path")) == Some(Text(r.path))
    ensures Lookup(SdkEntries(r), Ascii("sessionId")) == if r.sessionId.Some? then Some(Text(r.sessionId.value)) else None
    ensures Lookup(SdkEntries(r), Ascii("sequence")) == if r.sequence.Some? then Some(Integer(r.sequence.value)) else None
    ensures Lookup(SdkEntries(r), Ascii("timestamp")) == if r.timestamp.Some? then Some(Integer(r.timestamp.value)) else None
    ensures Lookup(SdkEntries(r), Ascii("body")) ==
            if r.body.Some? && |r.body.value| > 0 then Some(ByteString(r.body.value)) else None
    ensures Lookup(SdkEntries(r), Ascii("requestMac")) == if r.requestMac.Some? then Some(ByteString(r.requestMac.value)) else None
  {
    FieldAt(r, 0);
    FieldAt(r, 1);
    FieldAt(r, 2);
    FieldAt(r, 3);
    FieldAt(r, 4);
    FieldAt(r, 5);
    FieldAt(r, 6);
  }
}
