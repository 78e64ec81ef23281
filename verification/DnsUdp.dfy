/** The DNS-over-UDP helper at the end of ios/NativeQuicModule.swift: an A query out, A answers back
  (RFC 1035, sections 4.1.1 to 4.1.4). */
module DnsUdp {
  import opened Bytes

  datatype Ip = Ip(a: byte, b: byte, c: byte, d: byte)

  // ---- The parser, as a function of any bytes ----

  /** The offset after the name at `i`; it may lie past the end of a truncated message. */
  function SkipName(b: bytes, i: nat): (r: nat)
    ensures r >= i && (i < |b| ==> r > i)
    decreases |b| - i
  {
    if i >= |b| then i
    else if b[i] == 0 then i + 1
    else if b[i] >= 0xc0 then i + 2
    else SkipName(b, i + 1 + b[i])
  }

  function Word(b: bytes, p: nat): nat
    requires p + 2 <= |b|
  {
    0x100 * (b[p] as int) + b[p + 1]
  }

  /** The record at `i` fits into the message. */
  predicate Complete(b: bytes, i: nat) {
    var p := SkipName(b, i);
    i < |b| && p + 10 <= |b| && p + 10 + Word(b, p + 8) <= |b|
  }

  function RecordEnd(b: bytes, i: nat): (e: nat)
    requires Complete(b, i)
    ensures i < e <= |b|
  {
    SkipName(b, i) + 10 + Word(b, SkipName(b, i) + 8)
  }

  /** The address in the record at `i`, if its type is A and its data four bytes. */
  function AddressOf(b: bytes, i: nat): (ips: seq<Ip>)
    requires Complete(b, i)
    ensures |ips| <= 1
  {
    var q := SkipName(b, i) + 10;
    if Word(b, q - 10) == 1 && Word(b, q - 2) == 4 then [Ip(b[q], b[q + 1], b[q + 2], b[q + 3])] else []
  }

  function Answers(b: bytes, i: nat, n: nat): (ips: seq<Ip>)
    ensures |ips| <= n
    decreases n
  {
    if n == 0 || !Complete(b, i) then [] else AddressOf(b, i) + Answers(b, RecordEnd(b, i), n - 1)
  }

  function AnswerCount(b: bytes): nat
    requires |b| > 12
  {
    Word(b, 6)
  }

  /** What the parser returns, on any bytes: at most as many addresses as the header announces. */
  function Parsed(b: bytes): (ips: seq<Ip>)
    ensures |b| > 12 ==> |ips| <= AnswerCount(b)
  {
    if |b| <= 12 then [] else Answers(b, SkipName(b, 12) + 4, AnswerCount(b))
  }

  /** One step over a name: a zero byte ends it, a byte of 192 or more is the first of a two-byte pointer, which ends it too, and any
    other byte, 64 to 191 included, is the length of a label. Past the end there is nothing to step over. */
  lemma NameStep(b: bytes, i: nat)
    ensures i >= |b| ==> SkipName(b, i) == i
    ensures i < |b| && b[i] == 0 ==> SkipName(b, i) == i + 1
    ensures i < |b| && b[i] >= 192 ==> SkipName(b, i) == i + 2
    ensures i < |b| && 1 <= b[i] < 192 ==> SkipName(b, i) == SkipName(b, i + 1 + b[i])
  {
  }

  /** One turn of the answer loop on any bytes: type, length and data lie 0, 8 and 10 bytes after the name. */
  lemma AnswerStep(b: bytes, i: nat, n: nat)
    ensures var p := SkipName(b, i);
            if n == 0 || i >= |b| || p + 10 > |b| || p + 10 + 256 * (b[p + 8] as int) + b[p + 9] > |b| then Answers(b, i, n) == []
            else
              var e := p + 10 + 256 * (b[p + 8] as int) + b[p + 9];
              Answers(b, i, n)
              == (if b[p] == 0 && b[p + 1] == 1 && b[p + 8] == 0 && b[p + 9] == 4
                  then [Ip(b[p + 10], b[p + 11], b[p + 12], b[p + 13])] else [])
                 + Answers(b, e, n - 1)
  {
    if n > 0 && Complete(b, i) {
      AddressAt(b, i);
    }
  }

  lemma AddressAt(b: bytes, i: nat)
    requires Complete(b, i)
    ensures var p := SkipName(b, i);
            AddressOf(b, i) == if b[p] == 0 && b[p + 1] == 1 && b[p + 8] == 0 && b[p + 9] == 4
                               then [Ip(b[p + 10], b[p + 11], b[p + 12], b[p + 13])] else []
  {
    var p := SkipName(b, i);
    SmallWord(b, p, 1);
    SmallWord(b, p + 8, 4);
  }

  lemma SmallWord(b: bytes, p: nat, v: nat)
    requires p + 2 <= |b| && v < 256
    ensures Word(b, p) == v <==> b[p] == 0 && b[p + 1] == v
  {
  }

  method SkipNameFrom(b: bytes, start: nat) returns (idx: nat)
    ensures idx == SkipName(b, start)
  {
    idx := start;
    while idx < |b|
      invariant SkipName(b, idx) == SkipName(b, start)
      decreases |b| - idx
    {
      var len := b[idx];
      if len == 0 { idx := idx + 1; return; }
      if len >= 0xc0 { idx := idx + 2; return; }
      idx := idx + 1 + len;
    }
  }

  /** The body of the answer loop: one record, or the end of what can be read. */
  method ReadRecord(b: bytes, start: nat) returns (complete: bool, ips: seq<Ip>, next: nat)
    ensures complete == Complete(b, start)
    ensures complete ==> ips == AddressOf(b, start) && next == RecordEnd(b, start)
  {
    var idx: nat := start;
    if idx >= |b| { return false, [], idx; }
    if b[idx] >= 0xc0 {
      idx := idx + 2;
    } else {
      idx := SkipNameFrom(b, idx);
    }
    if idx + 10 > |b| { return false, [], idx; }
    var rtype := Word(b, idx);
    var rdlen := Word(b, idx + 8);
    idx := idx + 10;
    if idx + rdlen > |b| { return false, [], idx; }
    ips := [];
    if rtype == 1 && rdlen == 4 {
      ips := [Ip(b[idx], b[idx + 1], b[idx + 2], b[idx + 3])];
    }
    return true, ips, idx + rdlen;
  }

  /** On any bytes no index is out of range. */
  method ParseAnswers(b: bytes) returns (ips: seq<Ip>)
    ensures ips == Parsed(b)
  {
    ips := [];
    if |b| <= 12 { return; }
    var ancount := Word(b, 6);
    if ancount == 0 { return; }
    var idx := SkipNameFrom(b, 12);
    ips := CollectAnswers(b, idx + 4, ancount);
  }

  method CollectAnswers(b: bytes, start: nat, ancount: nat) returns (ips: seq<Ip>)
    ensures ips == Answers(b, start, ancount)
  {
    ips := [];
    var idx := start;
    ghost var all := Answers(b, start, ancount);
    for k := 0 to ancount
      invariant all == ips + Answers(b, idx, ancount - k)
    {
      AnswersStep(b, idx, ancount - k, ips);
      var complete, found, next := ReadRecord(b, idx);
      if !complete { return; }
      ips := ips + found;
      idx := next;
    }
  }

  lemma AnswersStep(b: bytes, i: nat, n: nat, ips: seq<Ip>)
    requires n > 0
    ensures !Complete(b, i) ==> ips + Answers(b, i, n) == ips
    ensures Complete(b, i) ==> ips + Answers(b, i, n) == ips + AddressOf(b, i) + Answers(b, RecordEnd(b, i), n - 1)
    ensures ips + [] == ips
  {
  }

  // ---- Truncation ----

  lemma {:induction false} SkipTruncated(b: bytes, k: nat, i: nat)
    requires k <= |b|
    ensures SkipName(b[..k], i) == SkipName(b, i) || (SkipName(b[..k], i) >= k && SkipName(b, i) >= k)
    decreases |b| - i
  {
    if i < k && 0 < b[i] < 0xc0 {
      SkipTruncated(b, k, i + 1 + b[i]);
    }
  }

  lemma RecordTruncated(b: bytes, k: nat, i: nat)
    requires k <= |b| && Complete(b[..k], i)
    ensures Complete(b, i) && RecordEnd(b, i) == RecordEnd(b[..k], i) && AddressOf(b, i) == AddressOf(b[..k], i)
  {
    SkipTruncated(b, k, i);
  }

  lemma {:induction false} AnswersTruncated(b: bytes, k: nat, i: nat, n: nat)
    requires k <= |b|
    ensures Answers(b[..k], i, n) <= Answers(b, i, n)
    decreases n
  {
    if n > 0 && Complete(b[..k], i) {
      RecordTruncated(b, k, i);
      AnswersTruncated(b, k, RecordEnd(b, i), n - 1);
    }
  }

  lemma AnswersFrom(b: bytes, k: nat, i: nat, j: nat, n: nat)
    requires k <= |b| && (i == j || i >= k)
    ensures Answers(b[..k], i, n) <= Answers(b, j, n)
  {
    if i == j {
      AnswersTruncated(b, k, i, n);
    }
  }

  /** Cutting any message short anywhere only cuts the list of addresses short. */
  lemma TruncationIsPrefix(b: bytes, k: nat)
    requires k <= |b|
    ensures Parsed(b[..k]) <= Parsed(b)
  {
    if k > 12 {
      SkipTruncated(b, k, 12);
      assert AnswerCount(b[..k]) == AnswerCount(b);
      AnswersFrom(b, k, SkipName(b[..k], 12) + 4, SkipName(b, 12) + 4, AnswerCount(b));
    }
  }

  // ---- Well-formed messages ----

  /** Labels, closed by the root or by a pointer. */
  datatype Name = Name(labels: seq<bytes>, pointer: Option<nat>)

  datatype Record = Record(name: Name, rtype: nat, rclass: nat, ttl: nat, rdata: bytes)

  datatype Message = Message(
    id: nat, flags: nat, nscount: nat, arcount: nat, qname: Name, qtype: nat, qclass: nat, records: seq<Record>)

  predicate ValidName(n: Name) {
    && (forall i :: 0 <= i < |n.labels| ==> 1 <= |n.labels[i]| <= 63)
    && (n.pointer.Some? ==> n.pointer.value < 0x4000)
  }

  predicate ValidRecord(r: Record) {
    ValidName(r.name) && r.rtype < 0x1_0000 && |r.rdata| < 0x1_0000
  }

  predicate ValidMessage(m: Message) {
    ValidName(m.qname) && |m.records| < 0x1_0000 && forall i :: 0 <= i < |m.records| ==> ValidRecord(m.records[i])
  }

  function LabelBytes(labels: seq<bytes>): bytes
    requires forall i :: 0 <= i < |labels| ==> |labels[i]| <= 63
  {
    if labels == [] then [] else [|labels[0]|] + labels[0] + LabelBytes(labels[1..])
  }

  function NameBytes(n: Name): bytes
    requires ValidName(n)
  {
    LabelBytes(n.labels) + (if n.pointer.None? then [0] else BigEndian(0xc000 + n.pointer.value, 2))
  }

  function RecordBytes(r: Record): bytes
    requires ValidRecord(r)
  {
    NameBytes(r.name) + Fixed(r)
  }

  function RecordsBytes(rs: seq<Record>): bytes
    requires forall i :: 0 <= i < |rs| ==> ValidRecord(rs[i])
  {
    if rs == [] then [] else RecordBytes(rs[0]) + RecordsBytes(rs[1..])
  }

  function Header(id: nat, flags: nat, ancount: nat, nscount: nat, arcount: nat): (h: bytes)
    ensures |h| == 12 && h[6..8] == BigEndian(ancount, 2)
  {
    BigEndian(id, 2) + BigEndian(flags, 2) + BigEndian(1, 2)
    + BigEndian(ancount, 2) + BigEndian(nscount, 2) + BigEndian(arcount, 2)
  }

  function Question(n: Name, qtype: nat, qclass: nat): bytes
    requires ValidName(n)
  {
    NameBytes(n) + (BigEndian(qtype, 2) + BigEndian(qclass, 2))
  }

  function MessageBytes(m: Message): bytes
    requires ValidMessage(m)
  {
    Header(m.id, m.flags, |m.records|, m.nscount, m.arcount)
    + (Question(m.qname, m.qtype, m.qclass) + RecordsBytes(m.records))
  }

  /** The addresses of the records that are A records of four bytes, in order. */
  function Addresses(rs: seq<Record>): seq<Ip> {
    if rs == [] then [] else Address(rs[0]) + Addresses(rs[1..])
  }

  lemma LabelSkipped(l: bytes, b: bytes, i: nat)
    requires 1 <= |l| <= 63 && Has(b, i, [|l|] + l)
    ensures SkipName(b, i) == SkipName(b, i + 1 + |l|)
  {
    assert b[i..i + 1 + |l|][0] == b[i];
  }

  lemma EndSkipped(end: bytes, b: bytes, i: nat)
    requires Has(b, i, end) && end != [] && (end[0] == 0 || end[0] >= 0xc0)
    ensures SkipName(b, i) == i + (if end[0] == 0 then 1 else 2)
  {
    assert b[i..i + |end|][0] == b[i];
  }

  lemma {:induction false} LabelsSkipped(labels: seq<bytes>, end: bytes, b: bytes, i: nat)
    requires forall k :: 0 <= k < |labels| ==> 1 <= |labels[k]| <= 63
    requires Has(b, i, LabelBytes(labels) + end) && end != [] && (end[0] == 0 || end[0] >= 0xc0)
    ensures SkipName(b, i) == i + |LabelBytes(labels)| + (if end[0] == 0 then 1 else 2)
  {
    if labels == [] {
      assert LabelBytes(labels) + end == end;
      EndSkipped(end, b, i);
    } else {
      var first, rest := [|labels[0]|] + labels[0], LabelBytes(labels[1..]) + end;
      assert LabelBytes(labels) + end == first + rest;
      HasSplit(b, i, first, rest);
      LabelSkipped(labels[0], b, i);
      LabelsSkipped(labels[1..], end, b, i + |first|);
    }
  }

  lemma NameSkipped(n: Name, b: bytes, i: nat)
    requires ValidName(n) && Has(b, i, NameBytes(n))
    ensures SkipName(b, i) == i + |NameBytes(n)|
  {
    var end: bytes := if n.pointer.None? then [0] else BigEndian(0xc000 + n.pointer.value, 2);
    if n.pointer.Some? {
      BigEndian2(0xc000 + n.pointer.value);
    }
    LabelsSkipped(n.labels, end, b, i);
  }

  function Fixed(r: Record): bytes
    requires ValidRecord(r)
  {
    BigEndian(r.rtype, 2) + BigEndian(r.rclass, 2) + BigEndian(r.ttl, 4) + BigEndian(|r.rdata|, 2) + r.rdata
  }

  lemma FixedFields(r: Record, b: bytes, p: nat)
    requires ValidRecord(r) && Has(b, p, Fixed(r))
    ensures Has(b, p + 10, r.rdata) && p + 10 <= |b|
    ensures Word(b, p) == r.rtype && Word(b, p + 8) == |r.rdata|
  {
    var ty, cl, tt, le := BigEndian(r.rtype, 2), BigEndian(r.rclass, 2), BigEndian(r.ttl, 4), BigEndian(|r.rdata|, 2);
    HasSplit(b, p, ty + cl + tt + le, r.rdata);
    HasSplit(b, p, ty + cl + tt, le);
    HasSplit(b, p, ty + cl, tt);
    HasSplit(b, p, ty, cl);
    TwoBytes(r.rtype, b, p);
    TwoBytes(|r.rdata|, b, p + 8);
  }

  lemma TwoBytes(v: nat, b: bytes, p: nat)
    requires v < 0x1_0000 && Has(b, p, BigEndian(v, 2))
    ensures Word(b, p) == v
  {
    PowersOf256();
    BigEndianRoundTrip(v, 2);
    FromBigEndianUnrolled(b[p..p + 2]);
  }

  function Address(r: Record): seq<Ip> {
    if r.rtype == 1 && |r.rdata| == 4 then [Ip(r.rdata[0], r.rdata[1], r.rdata[2], r.rdata[3])] else []
  }

  /** One record: the parser steps over it and keeps its address, if it has one. */
  lemma RecordExtracted(r: Record, b: bytes, i: nat)
    requires ValidRecord(r) && Has(b, i, RecordBytes(r))
    ensures Complete(b, i) && RecordEnd(b, i) == i + |RecordBytes(r)| && AddressOf(b, i) == Address(r)
  {
    var p := i + |NameBytes(r.name)|;
    HasSplit(b, i, NameBytes(r.name), Fixed(r));
    NameSkipped(r.name, b, i);
    FieldsRead(r, b, i, p);
  }

  lemma FieldsRead(r: Record, b: bytes, i: nat, p: nat)
    requires ValidRecord(r) && Has(b, p, Fixed(r)) && i < |b| && SkipName(b, i) == p
    ensures Complete(b, i) && RecordEnd(b, i) == p + |Fixed(r)| && AddressOf(b, i) == Address(r)
  {
    FixedFields(r, b, p);
    AddressRead(r.rdata, b, p + 10);
  }

  lemma AddressRead(rdata: bytes, b: bytes, q: nat)
    requires Has(b, q, rdata)
    ensures |rdata| == 4 ==> b[q] == rdata[0] && b[q + 1] == rdata[1] && b[q + 2] == rdata[2] && b[q + 3] == rdata[3]
  {
    if |rdata| == 4 {
      var d := b[q..q + 4];
      assert d[0] == b[q] && d[1] == b[q + 1] && d[2] == b[q + 2] && d[3] == b[q + 3];
    }
  }

  lemma AnswersCons(b: bytes, i: nat, n: nat, e: nat, ips: seq<Ip>)
    requires n > 0 && Complete(b, i) && RecordEnd(b, i) == e && AddressOf(b, i) == ips
    ensures Answers(b, i, n) == ips + Answers(b, e, n - 1)
  {
  }

  lemma FirstExtracted(r: Record, rest: bytes, b: bytes, i: nat, n: nat) returns (e: nat)
    requires ValidRecord(r) && Has(b, i, RecordBytes(r) + rest) && n > 0
    ensures e == i + |RecordBytes(r)| && Has(b, e, rest)
    ensures Answers(b, i, n) == Address(r) + Answers(b, e, n - 1)
  {
    var first := RecordBytes(r);
    e := i + |first|;
    HasSplit(b, i, first, rest);
    RecordExtracted(r, b, i);
    AnswersCons(b, i, n, e, Address(r));
  }

  lemma {:induction false} RecordsExtracted(rs: seq<Record>, b: bytes, i: nat)
    requires (forall k :: 0 <= k < |rs| ==> ValidRecord(rs[k])) && Has(b, i, RecordsBytes(rs))
    ensures Answers(b, i, |rs|) == Addresses(rs)
    decreases |rs|
  {
    if rs != [] {
      var rest := rs[1..];
      var e := FirstExtracted(rs[0], RecordsBytes(rest), b, i, |rs|);
      RecordsExtracted(rest, b, e);
    }
  }

  lemma Layout(b: bytes, h: bytes, name: bytes, fields: bytes, records: bytes, rest: bytes)
    requires b == h + (name + fields + records) + rest && |h| == 12
    ensures Has(b, 12, name) && Has(b, 12 + |name + fields|, records) && b[6..8] == h[6..8]
  {
    var message := h + (name + fields + records);
    assert b[..|message|] == message;
    HasSplit(b, 0, h, name + fields + records);
    HasSplit(b, 12, name + fields, records);
    HasSplit(b, 12, name, fields);
  }

  lemma ParsedFrom(b: bytes, i: nat, n: nat)
    requires |b| > 12 && SkipName(b, 12) + 4 == i && Word(b, 6) == n
    ensures Parsed(b) == Answers(b, i, n)
  {
  }

  /** From a well-formed message, whatever sections follow, the parser returns exactly its addresses. */
  lemma {:induction false} AnswersExtracted(m: Message, rest: bytes)
    requires ValidMessage(m)
    ensures Parsed(MessageBytes(m) + rest) == Addresses(m.records)
  {
    var b := MessageBytes(m) + rest;
    var h := Header(m.id, m.flags, |m.records|, m.nscount, m.arcount);
    var name, fields := NameBytes(m.qname), BigEndian(m.qtype, 2) + BigEndian(m.qclass, 2);
    Layout(b, h, name, fields, RecordsBytes(m.records), rest);
    CountRead(b, h, |m.records|);
    NameSkipped(m.qname, b, 12);
    var i := 12 + |name + fields|;
    RecordsExtracted(m.records, b, i);
    ParsedFrom(b, i, |m.records|);
  }

  lemma CountRead(b: bytes, h: bytes, n: nat)
    requires |b| >= 12 && |h| == 12 && b[6..8] == h[6..8] == BigEndian(n, 2) && n < 0x1_0000
    ensures Word(b, 6) == n
  {
    TwoBytes(n, b, 6);
  }

  /** A truncated well-formed message yields a prefix of its addresses. */
  lemma TruncatedMessage(m: Message, rest: bytes, k: nat)
    requires ValidMessage(m) && k <= |MessageBytes(m) + rest|
    ensures Parsed((MessageBytes(m) + rest)[..k]) <= Addresses(m.records)
  {
    AnswersExtracted(m, rest);
    TruncationIsPrefix(MessageBytes(m) + rest, k);
  }

  // ---- Queries ----

  /** Splitting at dots, empty pieces omitted. */
  function Labels(name: bytes): (labels: seq<bytes>)
    ensures forall i :: 0 <= i < |labels| ==> labels[i] != [] && '.' as int !in labels[i]
  {
    LabelsAfter([], name)
  }

  function LabelsAfter(piece: bytes, name: bytes): (labels: seq<bytes>)
    requires '.' as int !in piece
    ensures forall i :: 0 <= i < |labels| ==> labels[i] != [] && '.' as int !in labels[i]
    decreases |name|
  {
    var done := if piece == [] then [] else [piece];
    if name == [] then done
    else if name[0] == '.' as int then done + LabelsAfter([], name[1..])
    else LabelsAfter(piece + [name[0]], name[1..])
  }

  function Joined(labels: seq<bytes>): bytes {
    if labels == [] then []
    else if |labels| == 1 then labels[0]
    else labels[0] + ['.' as int] + Joined(labels[1..])
  }

  /** The name without its empty pieces: a dot stays where a piece ends before it and there is more to come. */
  function Tidy(name: bytes, pieceBefore: bool): bytes {
    if name == [] then []
    else if name[0] != '.' as int then [name[0]] + Tidy(name[1..], true)
    else if pieceBefore && exists i :: 1 <= i < |name| && name[i] != '.' as int then ['.' as int] + Tidy(name[1..], false)
    else Tidy(name[1..], false)
  }

  lemma {:induction false} NoLabels(piece: bytes, name: bytes)
    requires '.' as int !in piece
    ensures LabelsAfter(piece, name) == [] <==> piece == [] && forall i :: 0 <= i < |name| ==> name[i] == '.' as int
    decreases |name|
  {
    if name != [] {
      if name[0] == '.' as int {
        NoLabels([], name[1..]);
        assert forall i :: 1 <= i < |name| ==> name[i] == name[1..][i - 1];
      } else {
        NoLabels(piece + [name[0]], name[1..]);
      }
    }
  }

  lemma {:induction false} JoinedAfter(piece: bytes, name: bytes)
    requires '.' as int !in piece
    ensures Joined(LabelsAfter(piece, name)) == piece + Tidy(name, piece != [])
    decreases |name|
  {
    if name == [] {
    } else if name[0] == '.' as int {
      var rest := LabelsAfter([], name[1..]);
      JoinedAfter([], name[1..]);
      NoLabels([], name[1..]);
      assert forall i :: 1 <= i < |name| ==> name[i] == name[1..][i - 1];
      if piece != [] {
        assert LabelsAfter(piece, name) == [piece] + rest && ([piece] + rest)[1..] == rest;
        JoinedCons(piece, rest);
      } else {
        assert [] + rest == rest;
      }
    } else {
      JoinedAfter(piece + [name[0]], name[1..]);
      assert piece + [name[0]] + Tidy(name[1..], true) == piece + ([name[0]] + Tidy(name[1..], true));
    }
  }

  lemma JoinedCons(piece: bytes, rest: seq<bytes>)
    ensures Joined([piece] + rest) == if rest == [] then piece else piece + (['.' as int] + Joined(rest))
  {
    assert ([piece] + rest)[1..] == rest;
    assert piece + ['.' as int] + Joined(rest) == piece + (['.' as int] + Joined(rest));
  }

  /** The labels, joined with dots, are the name without its empty pieces. */
  lemma LabelsExactly(name: bytes)
    ensures Joined(Labels(name)) == Tidy(name, false)
    ensures forall i :: 0 <= i < |Labels(name)| ==> Labels(name)[i] != [] && '.' as int !in Labels(name)[i]
  {
    JoinedAfter([], name);
  }

  predicate Encodable(name: bytes) {
    forall i :: 0 <= i < |Labels(name)| ==> |Labels(name)[i]| <= 63
  }

  lemma {:induction false} LabelBytesSnoc(labels: seq<bytes>, l: bytes)
    requires (forall i :: 0 <= i < |labels| ==> |labels[i]| <= 63) && |l| <= 63
    ensures LabelBytes(labels + [l]) == LabelBytes(labels) + [|l|] + l
  {
    if labels == [] {
      assert labels + [l] == [l] && [l][1..] == [];
    } else {
      assert (labels + [l])[1..] == labels[1..] + [l];
      LabelBytesSnoc(labels[1..], l);
    }
  }

  method AppendLabels(data: bytes, labels: seq<bytes>) returns (r: Option<bytes>)
    ensures r.Some? <==> forall i :: 0 <= i < |labels| ==> |labels[i]| <= 63
    ensures r.Some? ==> r.value == data + LabelBytes(labels)
  {
    var out := data;
    for i := 0 to |labels|
      invariant forall k :: 0 <= k < i ==> |labels[k]| <= 63
      invariant out == data + LabelBytes(labels[..i])
    {
      if |labels[i]| > 63 { return None; }
      LabelBytesSnoc(labels[..i], labels[i]);
      assert labels[..i] + [labels[i]] == labels[..i + 1];
      out := out + [|labels[i]|];
      out := out + labels[i];
    }
    assert labels[..|labels|] == labels;
    r := Some(out);
  }

  /** The query for `name`: none if a label is too long, otherwise recursion desired and one A question. */
  method BuildQuery(id: nat, name: bytes) returns (r: Option<bytes>)
    ensures r.Some? <==> Encodable(name)
    ensures r.Some? ==> r.value == Header(id, 0x100, 0, 0, 0) + Question(Name(Labels(name), None), 1, 1)
  {
    var data := BigEndian(id, 2);
    data := data + [0x01, 0x00];
    data := data + [0x00, 0x01];
    data := data + [0x00, 0x00, 0x00, 0x00, 0x00, 0x00];
    assert data == Header(id, 0x100, 0, 0, 0) by { QueryHeader(id); }
    var named := AppendLabels(data, Labels(name));
    if named.None? { return None; }
    QueryQuestion(data, Labels(name));
    data := named.value;
    data := data + [0x00];
    data := data + [0x00, 0x01];
    data := data + [0x00, 0x01];
    r := Some(data);
  }

  lemma QueryQuestion(h: bytes, labels: seq<bytes>)
    requires ValidName(Name(labels, None))
    ensures h + LabelBytes(labels) + [0x00] + [0x00, 0x01] + [0x00, 0x01] == h + Question(Name(labels, None), 1, 1)
  {
    BigEndian2(1);
  }

  lemma QueryHeader(id: nat)
    ensures BigEndian(id, 2) + [0x01, 0x00] + [0x00, 0x01] + [0x00, 0x00, 0x00, 0x00, 0x00, 0x00] == Header(id, 0x100, 0, 0, 0)
  {
    BigEndian2(0x100);
    BigEndian2(1);
    BigEndian2(0);
  }

  /** A reply that repeats the question of a query and answers it is parsed completely. */
  lemma {:induction false} ReplyToQuery(id: nat, name: bytes, query: bytes, flags: nat, nscount: nat, arcount: nat, rs: seq<Record>, rest: bytes)
    requires Encodable(name) && query == Header(id, 0x100, 0, 0, 0) + Question(Name(Labels(name), None), 1, 1)
    requires |rs| < 0x1_0000 && forall i :: 0 <= i < |rs| ==> ValidRecord(rs[i])
    ensures Parsed(Header(id, flags, |rs|, nscount, arcount) + query[12..] + RecordsBytes(rs) + rest) == Addresses(rs)
  {
    var qname := Name(Labels(name), None);
    var m := Message(id, flags, nscount, arcount, qname, 1, 1, rs);
    AfterHeader(Header(id, 0x100, 0, 0, 0), Question(qname, 1, 1));
    Reassociate(Header(id, flags, |rs|, nscount, arcount), Question(qname, 1, 1), RecordsBytes(rs));
    AnswersExtracted(m, rest);
  }

  lemma AfterHeader(h: bytes, q: bytes)
    requires |h| == 12
    ensures (h + q)[12..] == q
  {
  }
}
