/** The challenge-token parser of ios/RCTPoUW.swift: base 128 varints, the protobuf field loop, and the
  recursion through nested encodings. JSON, base64 and hex decoding are parameters. */
module ChallengeToken {
  import opened Bytes

  function Pow128(k: nat): (p: nat)
    ensures p > 0
  {
    if k == 0 then 1 else 128 * Pow128(k - 1)
  }

  datatype Read = Read(value: nat, next: nat)

  // ---- Varints ----

  /** The varint at `i`, of which `k` bytes worth `acc` have been read. Each byte is shifted into bits that
    are still clear, so `|=` adds; from the tenth byte only one bit fits 64 bits. */
  function Varint(b: bytes, i: nat, k: nat, acc: nat): (r: Option<Read>)
    ensures r.Some? ==> i < r.value.next <= |b| && r.value.next + k <= i + 10
    decreases |b| - i
  {
    if i >= |b| || k > 9 then None
    else
      var next := acc + (b[i] % 128) * Pow128(k) % TWO64;
      if b[i] < 128 then Some(Read(next, i + 1)) else Varint(b, i + 1, k + 1, next)
  }

  lemma {:induction false} VarintFits(b: bytes, i: nat, k: nat, acc: nat)
    requires acc < Pow128(k) && k <= 9 && Varint(b, i, k, acc).Some?
    ensures Varint(b, i, k, acc).value.value < TWO64
    decreases |b| - i
  {
    PowersOf128();
    var d := b[i] % 128;
    if k < 9 {
      DigitFits(d, Pow128(k), acc);
      PowGrows(k + 1, 9);
      if b[i] >= 128 {
        VarintFits(b, i + 1, k + 1, acc + d * Pow128(k) % TWO64);
      }
    } else {
      LastDigitFits(d);
    }
  }

  lemma DigitFits(d: nat, p: nat, acc: nat)
    requires d < 128 && acc < p
    ensures acc + d * p % TWO64 < 128 * p
  {
    assert d * p <= 127 * p;
    AtMost(d * p);
  }

  lemma AtMost(x: nat)
    ensures x % TWO64 <= x
  {
  }

  /** Of the tenth byte one bit is left. */
  lemma LastDigitFits(d: nat)
    ensures d * 0x8000_0000_0000_0000 % TWO64 <= 0x8000_0000_0000_0000
  {
    assert d * 0x8000_0000_0000_0000 == d / 2 * TWO64 + d % 2 * 0x8000_0000_0000_0000;
  }

  lemma PowersOf128()
    ensures Pow128(9) == 0x8000_0000_0000_0000 && Pow128(10) == 64 * TWO64
  {
    assert Pow128(3) == 0x20_0000;
    assert Pow128(6) == 0x20_0000 * Pow128(3);
    assert Pow128(9) == 0x20_0000 * Pow128(6);
  }

  lemma {:induction false} PowGrows(k: nat, n: nat)
    requires k <= n
    ensures Pow128(k) <= Pow128(n)
    decreases n - k
  {
    if k < n { PowGrows(k + 1, n); }
  }

  method ReadVarint(data: bytes, start: nat) returns (r: Option<Read>)
    ensures r == Varint(data, start, 0, 0)
    ensures r.Some? ==> r.value.value < TWO64 && start < r.value.next <= start + 10
  {
    var value: nat, shift: nat, index := 0, 0, start;
    var weight: nat := 1;   // 2 to the power of `shift`
    while index < |data| && shift <= 63
      invariant shift % 7 == 0 && weight == Pow128(shift / 7)
      invariant Varint(data, start, 0, 0) == Varint(data, index, shift / 7, value)
      decreases |data| - index
    {
      var byte := data[index];
      index := index + 1;
      value := value + (byte % 128) * weight % TWO64;
      if byte < 128 {
        VarintFits(data, start, 0, 0);
        return Some(Read(value, index));
      }
      shift := shift + 7;
      weight := 128 * weight;
    }
    r := None;
  }

  /** The canonical varint: seven bits a byte, least significant first. */
  function VarintBytes(v: nat): (s: bytes)
    ensures s != []
  {
    if v < 128 then [v] else [128 + v % 128] + VarintBytes(v / 128)
  }

  lemma {:induction false} VarintLength(v: nat, n: nat)
    requires n > 0 && v < Pow128(n)
    ensures |VarintBytes(v)| <= n
  {
    if v >= 128 {
      assert Pow128(n) == 128 * Pow128(n - 1);
      VarintLength(v / 128, n - 1);
    }
  }

  lemma {:induction false} VarintReadFrom(v: nat, b: bytes, i: nat, k: nat, acc: nat)
    requires Has(b, i, VarintBytes(v)) && k + |VarintBytes(v)| <= 10 && acc + v * Pow128(k) < TWO64
    ensures Varint(b, i, k, acc) == Some(Read(acc + v * Pow128(k), i + |VarintBytes(v)|))
    decreases v
  {
    assert b[i..i + |VarintBytes(v)|][0] == b[i];
    var p, d := Pow128(k), v % 128;
    Digits(v, p);
    SmallDigit(d * p);
    if v >= 128 {
      HasSplit(b, i, [128 + d], VarintBytes(v / 128));
      VarintContinues(d, b, i, k, acc);
      assert Pow128(k + 1) == 128 * p;
      assert acc + d * p + (v / 128) * Pow128(k + 1) == acc + v * p;
      VarintReadFrom(v / 128, b, i + 1, k + 1, acc + d * p);
    } else {
      VarintEnds(v, b, i, k, acc);
    }
  }

  lemma VarintContinues(d: nat, b: bytes, i: nat, k: nat, acc: nat)
    requires d < 128 && i < |b| && b[i] == 128 + d && k <= 9 && d * Pow128(k) % TWO64 == d * Pow128(k)
    ensures Varint(b, i, k, acc) == Varint(b, i + 1, k + 1, acc + d * Pow128(k))
  {
  }

  lemma VarintEnds(v: nat, b: bytes, i: nat, k: nat, acc: nat)
    requires v < 128 && i < |b| && b[i] == v && k <= 9 && v * Pow128(k) % TWO64 == v * Pow128(k)
    ensures Varint(b, i, k, acc) == Some(Read(acc + v * Pow128(k), i + 1))
  {
  }

  lemma SmallDigit(x: nat)
    requires x < TWO64
    ensures x % TWO64 == x
  {
  }

  lemma Digits(v: nat, p: nat)
    ensures v * p == (v % 128) * p + (v / 128) * (128 * p)
    ensures (v % 128) * p <= v * p
  {
    assert v == v % 128 + 128 * (v / 128);
    assert (v % 128 + 128 * (v / 128)) * p == (v % 128) * p + (128 * (v / 128)) * p;
  }

  /** Reading inverts writing for every 64-bit number, whatever follows. */
  lemma VarintRoundTrip(v: nat, b: bytes, i: nat)
    requires v < TWO64 && Has(b, i, VarintBytes(v))
    ensures Varint(b, i, 0, 0) == Some(Read(v, i + |VarintBytes(v)|)) && |VarintBytes(v)| <= 10
  {
    PowersOf128();
    VarintLength(v, 10);
    VarintReadFrom(v, b, i, 0, 0);
  }

  /** The number in `n` groups of seven bits, the least significant first. */
  function Groups(b: bytes, i: nat, n: nat): nat
    requires i + n <= |b|
    decreases n
  {
    if n == 0 then 0 else b[i] % 128 + 128 * Groups(b, i + 1, n - 1)
  }

  /** The varint at `i` has `n` bytes: the others have the top bit set, the last has not. */
  predicate Ends(b: bytes, i: nat, n: nat) {
    n > 0 && i + n <= |b| && b[i + n - 1] < 128 && forall j :: i <= j < i + n - 1 ==> b[j] >= 128
  }

  lemma {:induction false} VarintGroups(b: bytes, i: nat, k: nat, acc: nat, n: nat)
    requires Ends(b, i, n) && k + n <= 10
    ensures Varint(b, i, k, acc).Some? && Varint(b, i, k, acc).value.next == i + n
    ensures Varint(b, i, k, acc).value.value % TWO64 == (acc + Groups(b, i, n) * Pow128(k)) % TWO64
    decreases n
  {
    var d := b[i] % 128;
    var next := acc + d * Pow128(k) % TWO64;
    if n > 1 {
      VarintGroups(b, i + 1, k + 1, next, n - 1);
      GroupsStep(d, Pow128(k), Groups(b, i + 1, n - 1), acc);
    } else {
      assert Groups(b, i, 1) == d + 128 * Groups(b, i + 1, 0);
      GroupsStep(d, Pow128(k), 0, acc);
    }
  }

  lemma GroupsStep(d: nat, p: nat, g: nat, acc: nat)
    ensures (acc + d * p % TWO64 + g * (128 * p)) % TWO64 == (acc + (d + 128 * g) * p) % TWO64
  {
    assert (d + 128 * g) * p == d * p + g * (128 * p);
    Wraps(acc + g * (128 * p), d * p);
  }

  lemma Wraps(x: nat, y: nat)
    ensures (x + y % TWO64) % TWO64 == (x + y) % TWO64
  {
    var q := y / TWO64;
    assert y == q * TWO64 + y % TWO64;
    assert (x + y % TWO64 + q * TWO64) % TWO64 == (x + y % TWO64) % TWO64;
  }

  lemma {:induction false} VarintNone(b: bytes, i: nat, k: nat, acc: nat)
    requires forall n :: 1 <= n <= 10 - k ==> !Ends(b, i, n)
    ensures Varint(b, i, k, acc) == None
    decreases |b| - i
  {
    if i < |b| && k <= 9 {
      assert !Ends(b, i, 1);
      var next := i + 1;
      forall n | 1 <= n <= 9 - k ensures !Ends(b, next, n) {
        assert !Ends(b, i, n + 1);
      }
      VarintNone(b, i + 1, k + 1, acc + (b[i] % 128) * Pow128(k) % TWO64);
    }
  }

  /** What is read on any bytes: a varint of at most ten bytes, canonical or not, as its groups modulo 2^64, and nothing where
    none ends within ten bytes. */
  lemma VarintExactly(b: bytes, i: nat, n: nat)
    ensures 1 <= n <= 10 && Ends(b, i, n) ==>
              Varint(b, i, 0, 0) == Some(Read(Groups(b, i, n) % TWO64, i + n))
    ensures (forall m :: 1 <= m <= 10 ==> !Ends(b, i, m)) ==> Varint(b, i, 0, 0) == None
  {
    if 1 <= n <= 10 && Ends(b, i, n) {
      VarintGroups(b, i, 0, 0, n);
      VarintFits(b, i, 0, 0);
      assert Groups(b, i, n) * Pow128(0) == Groups(b, i, n);
    }
    if forall m :: 1 <= m <= 10 ==> !Ends(b, i, m) {
      VarintNone(b, i, 0, 0);
    }
  }

  // ---- The field loop ----

  datatype Found = Found(task: Option<bytes>, nonce: Option<bytes>)

  function Noted(f: Found, num: nat, data: bytes): Found {
    if num == 3 then f.(task := Some(data)) else if num == 4 then f.(nonce := Some(data)) else f
  }

  /** The body of the field with this wire type at `i`: what is noted, and where it ends. `Thrown` is the
    parser's nil; a length past 63 bits traps. */
  function Body(b: bytes, num: nat, wire: nat, i: nat, f: Found): (r: Result<(Found, nat)>)
    requires i <= |b|
    ensures r.Ok? ==> i <= r.value.1 <= |b|
  {
    if wire == 0 then
      match Varint(b, i, 0, 0) case None => Thrown case Some(v) => Ok((f, v.next))
    else if wire == 1 then if i + 8 <= |b| then Ok((f, i + 8)) else Thrown
    else if wire == 2 then
      match Varint(b, i, 0, 0)
      case None => Thrown
      case Some(n) =>
        if n.value > INT_MAX || n.next + n.value > INT_MAX then Trap
        else if n.next + n.value > |b| then Thrown
        else Ok((Noted(f, num, b[n.next..n.next + n.value]), n.next + n.value))
    else if wire == 5 then if i + 4 <= |b| then Ok((f, i + 4)) else Thrown
    else Thrown
  }

  function Fields(b: bytes, i: nat, f: Found): Result<Found>
    decreases |b| - i
  {
    if i >= |b| then Ok(f)
    else
      match Varint(b, i, 0, 0)
      case None => Thrown
      case Some(key) =>
        match Body(b, key.value / 8, key.value % 8, key.next, f)
        case Ok((g, next)) => Fields(b, next, g)
        case Thrown => Thrown
        case Trap => Trap
  }

  datatype Token = Token(taskId: string, challengeNonce: string)

  function HexDigit(n: nat): char
    requires n < 16
  {
    "0123456789abcdef"[n]
  }

  function ToHex(data: bytes): string {
    if data == [] then "" else [HexDigit(data[0] / 16), HexDigit(data[0] % 16)] + ToHex(data[1..])
  }

  /** Both fields must be there and not empty. */
  function TokenOf(f: Found): Result<Token> {
    if f.task.Some? && f.nonce.Some? && f.task.value != [] && f.nonce.value != []
    then Ok(Token(ToHex(f.task.value), ToHex(f.nonce.value))) else Thrown
  }

  /** What the field loop returns: a token, nil (`Thrown`), or the end of the process (`Trap`). */
  function Protobuf(data: bytes): Result<Token> {
    match Fields(data, 0, Found(None, None))
    case Ok(f) => TokenOf(f)
    case Thrown => Thrown
    case Trap => Trap
  }

  method ParseChallengeTokenProtobuf(data: bytes) returns (r: Result<Token>)
    ensures r == Protobuf(data)
  {
    var index := 0;
    var found := Found(None, None);
    ghost var all := Fields(data, 0, found);
    while index < |data|
      invariant all == Fields(data, index, found)
      decreases |data| - index
    {
      var key := ReadVarint(data, index);
      if key.None? { return Thrown; }
      var fieldNumber, wireType := key.value.value / 8, key.value.value % 8;
      var step := ReadBody(data, fieldNumber, wireType, key.value.next, found);
      if step.Trap? { return Trap; }
      if step.Thrown? { return Thrown; }
      found, index := step.value.0, step.value.1;
    }
    r := TokenOf(found);
  }

  /** The switch over the wire type. */
  method ReadBody(data: bytes, fieldNumber: nat, wireType: nat, start: nat, found: Found)
    returns (r: Result<(Found, nat)>)
    requires start <= |data|
    ensures r == Body(data, fieldNumber, wireType, start, found)
  {
    var index := start;
    match wireType {
      case 0 =>
        var skipped := ReadVarint(data, index);
        if skipped.None? { return Thrown; }
        r := Ok((found, skipped.value.next));
      case 1 =>
        if index + 8 > |data| { return Thrown; }
        r := Ok((found, index + 8));
      case 2 =>
        var length := ReadVarint(data, index);
        if length.None? { return Thrown; }
        index := length.value.next;
        var len := length.value.value;
        if len > INT_MAX || index + len > INT_MAX { return Trap; }
        if index + len > |data| { return Thrown; }
        var value := data[index..index + len];
        index := index + len;
        r := Ok((Noted(found, fieldNumber, value), index));
      case 5 =>
        if index + 4 > |data| { return Thrown; }
        r := Ok((found, index + 4));
      case _ => return Thrown;
    }
  }

  // ---- Well-formed messages ----

  datatype Field =
    | Number(num: nat, v: nat)
    | Fixed64(num: nat, data: bytes)
    | Delimited(num: nat, data: bytes)
    | Fixed32(num: nat, data: bytes)

  predicate ValidField(f: Field) {
    && f.num < TWO64 / 8
    && match f
       case Number(_, v) => v < TWO64
       case Fixed64(_, data) => |data| == 8
       case Delimited(_, data) => |data| <= INT_MAX
       case Fixed32(_, data) => |data| == 4
  }

  function WireType(f: Field): nat {
    match f case Number(_, _) => 0 case Fixed64(_, _) => 1 case Delimited(_, _) => 2 case Fixed32(_, _) => 5
  }

  function Payload(f: Field): bytes {
    match f
    case Number(_, v) => VarintBytes(v)
    case Delimited(_, data) => VarintBytes(|data|) + data
    case _ => f.data
  }

  function FieldBytes(f: Field): bytes {
    VarintBytes(8 * f.num + WireType(f)) + Payload(f)
  }

  function MessageBytes(fs: seq<Field>): bytes {
    if fs == [] then [] else FieldBytes(fs[0]) + MessageBytes(fs[1..])
  }

  /** The data of the last length-delimited field with this number. */
  function Last(fs: seq<Field>, num: nat): Option<bytes> {
    if fs == [] then None
    else
      var f := fs[|fs| - 1];
      if f.Delimited? && f.num == num then Some(f.data) else Last(fs[..|fs| - 1], num)
  }

  lemma BodyReads(f: Field, b: bytes, i: nat, found: Found)
    requires ValidField(f) && Has(b, i, Payload(f)) && |b| <= INT_MAX
    ensures Body(b, f.num, WireType(f), i, found) ==
            Ok((After(f, found), i + |Payload(f)|))
  {
    match f
    case Number(_, v) => VarintRoundTrip(v, b, i);
    case Delimited(_, data) =>
      HasSplit(b, i, VarintBytes(|data|), data);
      VarintRoundTrip(|data|, b, i);
    case _ =>
  }

  function After(f: Field, found: Found): Found {
    if f.Delimited? then Noted(found, f.num, f.data) else found
  }

  lemma FieldsStep(b: bytes, i: nat, key: Read, found: Found, g: Found, next: nat)
    requires i < |b| && Varint(b, i, 0, 0) == Some(key)
    requires Body(b, key.value / 8, key.value % 8, key.next, found) == Ok((g, next))
    ensures Fields(b, i, found) == Fields(b, next, g)
  {
  }

  lemma KeyInRange(f: Field)
    requires ValidField(f)
    ensures 8 * f.num + WireType(f) < TWO64
  {
  }

  lemma KeySplits(f: Field)
    requires ValidField(f)
    ensures (8 * f.num + WireType(f)) / 8 == f.num && (8 * f.num + WireType(f)) % 8 == WireType(f)
  {
  }

  lemma KeyReads(f: Field, b: bytes, i: nat)
    requires ValidField(f) && Has(b, i, FieldBytes(f))
    ensures var p := i + |VarintBytes(8 * f.num + WireType(f))|;
            && Varint(b, i, 0, 0) == Some(Read(8 * f.num + WireType(f), p))
            && Has(b, p, Payload(f)) && p + |Payload(f)| == i + |FieldBytes(f)|
  {
    KeyInRange(f);
    VarintThen(8 * f.num + WireType(f), Payload(f), b, i);
  }

  lemma VarintThen(v: nat, rest: bytes, b: bytes, i: nat)
    requires v < TWO64 && Has(b, i, VarintBytes(v) + rest)
    ensures Varint(b, i, 0, 0) == Some(Read(v, i + |VarintBytes(v)|)) && Has(b, i + |VarintBytes(v)|, rest)
  {
    HasSplit(b, i, VarintBytes(v), rest);
    VarintRoundTrip(v, b, i);
  }

  lemma FieldReads(f: Field, b: bytes, i: nat, found: Found)
    requires ValidField(f) && Has(b, i, FieldBytes(f)) && |b| <= INT_MAX
    ensures Fields(b, i, found) == Fields(b, i + |FieldBytes(f)|, After(f, found))
  {
    KeyReads(f, b, i);
    KeySplits(f);
    var key := Varint(b, i, 0, 0).value;
    BodyReads(f, b, key.next, found);
    FieldsStep(b, i, key, found, After(f, found), i + |FieldBytes(f)|);
  }

  function OrElse(a: Option<bytes>, b: Option<bytes>): Option<bytes> {
    if a.Some? then a else b
  }

  lemma {:induction false} LastCons(fs: seq<Field>, num: nat)
    requires fs != []
    ensures Last(fs, num) == OrElse(Last(fs[1..], num),
                                    if fs[0].Delimited? && fs[0].num == num then Some(fs[0].data) else None)
  {
    var last := |fs| - 1;
    if last > 0 {
      LastCons(fs[..last], num);
      assert fs[1..][..last - 1] == fs[..last][1..];
    }
  }

  /** What is found in the end, given what was found before. */
  function FoundAfter(fs: seq<Field>, found: Found): Found {
    Found(OrElse(Last(fs, 3), found.task), OrElse(Last(fs, 4), found.nonce))
  }

  lemma FoundAfterCons(fs: seq<Field>, found: Found)
    requires fs != []
    ensures FoundAfter(fs, found) == FoundAfter(fs[1..], After(fs[0], found))
  {
    LastCons(fs, 3);
    LastCons(fs, 4);
  }

  lemma FieldThen(f: Field, rest: bytes, b: bytes, i: nat, found: Found) returns (e: nat)
    requires ValidField(f) && Has(b, i, FieldBytes(f) + rest) && |b| <= INT_MAX
    ensures e == i + |FieldBytes(f)| && Has(b, e, rest)
    ensures Fields(b, i, found) == Fields(b, e, After(f, found))
  {
    var first := FieldBytes(f);
    e := i + |first|;
    HasSplit(b, i, first, rest);
    FieldReads(f, b, i, found);
  }

  lemma {:induction false} FieldsRead(fs: seq<Field>, b: bytes, i: nat, found: Found)
    requires (forall k :: 0 <= k < |fs| ==> ValidField(fs[k])) && |b| <= INT_MAX
    requires Has(b, i, MessageBytes(fs)) && i + |MessageBytes(fs)| == |b|
    ensures Fields(b, i, found) == Ok(FoundAfter(fs, found))
    decreases |fs|
  {
    if fs != [] {
      var rest := fs[1..];
      var e := FieldThen(fs[0], MessageBytes(rest), b, i, found);
      FieldsRead(rest, b, e, After(fs[0], found));
      FoundAfterCons(fs, found);
    }
  }

  /** From any sequence of fields the parser takes the last task id and the last nonce, provided that both
    are there and neither is empty. */
  lemma {:induction false} TokenParses(fs: seq<Field>)
    requires (forall k :: 0 <= k < |fs| ==> ValidField(fs[k])) && |MessageBytes(fs)| <= INT_MAX
    ensures Fields(MessageBytes(fs), 0, Found(None, None)) == Ok(Found(Last(fs, 3), Last(fs, 4)))
  {
    FieldsRead(fs, MessageBytes(fs), 0, Found(None, None));
  }

  // ---- The token ----

  /** The value of a hexadecimal digit in lower case. */
  function HexValue(c: char): Option<nat> {
    if '0' <= c <= '9' then Some(c as int - '0' as int)
    else if 'a' <= c <= 'f' then Some(c as int - 'a' as int + 10)
    else None
  }

  /** Bytes from pairs of hexadecimal digits. */
  function FromHex(s: string): Option<bytes> {
    if s == "" then Some([])
    else if |s| == 1 || HexValue(s[0]).None? || HexValue(s[1]).None? || FromHex(s[2..]).None? then None
    else
      assert HexValue(s[0]).value < 16 && HexValue(s[1]).value < 16;
      Some([16 * HexValue(s[0]).value + HexValue(s[1]).value] + FromHex(s[2..]).value)
  }

  lemma DigitRead(n: nat)
    requires n < 16
    ensures HexValue(HexDigit(n)) == Some(n)
  {
  }

  /** Two lower-case digits a byte, which read back as the bytes. */
  lemma {:induction false} HexReadBack(data: bytes)
    ensures |ToHex(data)| == 2 * |data| && FromHex(ToHex(data)) == Some(data)
    decreases |data|
  {
    if data != [] {
      var s := ToHex(data);
      HexReadBack(data[1..]);
      DigitRead(data[0] / 16);
      DigitRead(data[0] % 16);
      assert s[2..] == ToHex(data[1..]) && [data[0]] + data[1..] == data;
    }
  }

  /** Different ids have different hex. */
  lemma HexInjective(a: bytes, b: bytes)
    requires ToHex(a) == ToHex(b)
    ensures a == b
  {
    HexReadBack(a);
    HexReadBack(b);
  }

  /** From any sequence of fields the parser makes a token exactly where the last length-delimited field 3 and the last
    length-delimited field 4 are there and not empty, and its two strings are their hex; otherwise nil. */
  lemma {:induction false} MessageParses(fs: seq<Field>)
    requires (forall k :: 0 <= k < |fs| ==> ValidField(fs[k])) && |MessageBytes(fs)| <= INT_MAX
    ensures var task, nonce := Last(fs, 3), Last(fs, 4);
            match Protobuf(MessageBytes(fs))
            case Ok(token) =>
              && task.Some? && nonce.Some? && task.value != [] && nonce.value != []
              && FromHex(token.taskId) == task && FromHex(token.challengeNonce) == nonce
            case Thrown => task.None? || nonce.None? || task == Some([]) || nonce == Some([])
            case Trap => false
  {
    TokenParses(fs);
    if Last(fs, 3).Some? { HexReadBack(Last(fs, 3).value); }
    if Last(fs, 4).Some? { HexReadBack(Last(fs, 4).value); }
  }

  // ---- Nested encodings ----

  /** What a payload holds as JSON, and what it decodes to as base64 or as hex text. */
  datatype Decoders = Decoders(json: bytes -> Option<Token>, base64: bytes -> Option<bytes>, hex: bytes -> Option<bytes>)

  const MAX_DEPTH: nat := 2

  /** A payload read without decoding it any further: JSON first, then protobuf, which may trap. */
  function Direct(payload: bytes, d: Decoders): Result<Token> {
    match d.json(payload)
    case Some(token) => Ok(token)
    case None => Protobuf(payload)
  }

  /** JSON is asked first, whatever the bytes are as protobuf. */
  lemma JsonFirst(payload: bytes, d: Decoders)
    ensures d.json(payload).Some? ==> Direct(payload, d) == Ok(d.json(payload).value)
    ensures d.json(payload).None? ==> Direct(payload, d) == Protobuf(payload)
  {
  }

  /** No layers come before some; base64 before hex; and under one layer the same order again. */
  lemma OrderTried(a: seq<Encoding>, b: seq<Encoding>, e: Encoding)
    ensures !Before(a, []) && (a != [] ==> Before([], a))
    ensures Before([Base64] + a, [Hex] + b) && !Before([Hex] + a, [Base64] + b)
    ensures Before([e] + a, [e] + b) <==> Before(a, b)
  {
    assert ([e] + a)[1..] == a && ([e] + b)[1..] == b;
  }

  /** What is tried under layers is what the outer layer decodes to, tried under the others. */
  lemma AttemptSteps(payload: bytes, rest: seq<Encoding>, d: Decoders)
    ensures Attempt(payload, [], d) == Direct(payload, d)
    ensures Attempt(payload, [Base64] + rest, d)
            == if d.base64(payload).Some? then Attempt(d.base64(payload).value, rest, d) else Thrown
    ensures Attempt(payload, [Hex] + rest, d)
            == if d.hex(payload).Some? then Attempt(d.hex(payload).value, rest, d) else Thrown
  {
    assert ([Base64] + rest)[1..] == rest && ([Hex] + rest)[1..] == rest;
  }

  function ParseDecoded(payload: bytes, depth: nat, d: Decoders): Result<Token>
    decreases MAX_DEPTH - depth
  {
    if Direct(payload, d) != Thrown || depth >= MAX_DEPTH then Direct(payload, d)
    else
      var inner := Inner(d.base64(payload), depth, d);
      if inner != Thrown then inner else Inner(d.hex(payload), depth, d)
  }

  function Inner(decoded: Option<bytes>, depth: nat, d: Decoders): Result<Token>
    requires depth < MAX_DEPTH
    decreases MAX_DEPTH - depth, 0
  {
    if decoded.Some? then ParseDecoded(decoded.value, depth + 1, d) else Thrown
  }

  datatype Encoding = Base64 | Hex

  function DecodedAs(payload: bytes, e: Encoding, d: Decoders): Option<bytes> {
    if e.Base64? then d.base64(payload) else d.hex(payload)
  }

  /** What is left after peeling off encodings one after the other, read directly; nil where one does not apply. */
  function Attempt(payload: bytes, layers: seq<Encoding>, d: Decoders): Result<Token>
    decreases |layers|
  {
    if layers == [] then Direct(payload, d)
    else
      var decoded := DecodedAs(payload, layers[0], d);
      if decoded.Some? then Attempt(decoded.value, layers[1..], d) else Thrown
  }

  /** The order in which layers are tried: fewer before more, base64 before hex. */
  predicate Before(a: seq<Encoding>, b: seq<Encoding>) {
    b != [] && (a == [] || (a[0].Base64? && b[0].Hex?) || (a[0] == b[0] && Before(a[1..], b[1..])))
  }

  lemma {:induction false} BeforeIsTotal(a: seq<Encoding>, b: seq<Encoding>)
    ensures a == b || Before(a, b) || Before(b, a)
    decreases |a|
  {
    if a != [] && b != [] && a[0] == b[0] {
      BeforeIsTotal(a[1..], b[1..]);
      assert a == [a[0]] + a[1..] && b == [b[0]] + b[1..];
    }
  }

  /** Nothing tried before these layers has a result. */
  ghost predicate FirstTried(payload: bytes, layers: seq<Encoding>, limit: nat, d: Decoders) {
    && |layers| <= limit
    && forall e: seq<Encoding> :: |e| <= limit && Before(e, layers) ==> Attempt(payload, e, d) == Thrown
  }

  lemma {:induction false} NilEverywhere(payload: bytes, depth: nat, d: Decoders, layers: seq<Encoding>)
    requires depth + |layers| <= MAX_DEPTH && ParseDecoded(payload, depth, d) == Thrown
    ensures Attempt(payload, layers, d) == Thrown
    decreases |layers|
  {
    if layers != [] && DecodedAs(payload, layers[0], d).Some? {
      NilEverywhere(DecodedAs(payload, layers[0], d).value, depth + 1, d, layers[1..]);
    }
  }

  lemma {:induction false} NilBehind(decoded: Option<bytes>, depth: nat, d: Decoders, layers: seq<Encoding>)
    requires depth < MAX_DEPTH && depth + 1 + |layers| <= MAX_DEPTH && Inner(decoded, depth, d) == Thrown
    ensures decoded.Some? ==> Attempt(decoded.value, layers, d) == Thrown
  {
    if decoded.Some? {
      NilEverywhere(decoded.value, depth + 1, d, layers);
    }
  }

  /** Any result but nil is that of the layers tried first among those with a result. */
  lemma {:induction false} FoundFirst(payload: bytes, depth: nat, d: Decoders) returns (layers: seq<Encoding>)
    requires depth <= MAX_DEPTH && ParseDecoded(payload, depth, d) != Thrown
    ensures FirstTried(payload, layers, MAX_DEPTH - depth, d)
    ensures Attempt(payload, layers, d) == ParseDecoded(payload, depth, d)
    decreases MAX_DEPTH - depth
  {
    if Direct(payload, d) != Thrown {
      layers := [];
    } else {
      var e := if Inner(d.base64(payload), depth, d) != Thrown then Base64 else Hex;
      var rest := FoundFirst(DecodedAs(payload, e, d).value, depth + 1, d);
      layers := [e] + rest;
      FoundBehind(payload, depth, d, e, rest);
    }
  }

  lemma {:induction false} FoundBehind(payload: bytes, depth: nat, d: Decoders, e: Encoding, rest: seq<Encoding>)
    requires depth < MAX_DEPTH && Direct(payload, d) == Thrown && DecodedAs(payload, e, d).Some?
    requires FirstTried(DecodedAs(payload, e, d).value, rest, MAX_DEPTH - depth - 1, d)
    requires e.Hex? ==> Inner(d.base64(payload), depth, d) == Thrown
    ensures FirstTried(payload, [e] + rest, MAX_DEPTH - depth, d)
    ensures Attempt(payload, [e] + rest, d) == Attempt(DecodedAs(payload, e, d).value, rest, d)
  {
    var layers := [e] + rest;
    assert layers[1..] == rest;
    forall a: seq<Encoding> | |a| <= MAX_DEPTH - depth && Before(a, layers) ensures Attempt(payload, a, d) == Thrown {
      if a != [] && a[0] != e {
        NilBehind(d.base64(payload), depth, d, a[1..]);
      }
    }
  }

  /** What the recursion returns, exactly. It is nil where nothing within two layers has a result; otherwise a token or
    a trap, that of the layers tried first among those with a result. */
  lemma NestedExactly(payload: bytes, d: Decoders, r: Result<Token>)
    ensures ParseDecoded(payload, 0, d) == Thrown <==>
            forall layers: seq<Encoding> :: |layers| <= 2 ==> Attempt(payload, layers, d) == Thrown
    ensures r != Thrown ==>
              (ParseDecoded(payload, 0, d) == r <==>
               exists layers: seq<Encoding> :: FirstTried(payload, layers, 2, d) && Attempt(payload, layers, d) == r)
  {
    if ParseDecoded(payload, 0, d) == Thrown {
      forall layers: seq<Encoding> | |layers| <= MAX_DEPTH ensures Attempt(payload, layers, d) == Thrown {
        NilEverywhere(payload, 0, d, layers);
      }
    } else {
      var found := FoundFirst(payload, 0, d);
      assert FirstTried(payload, found, MAX_DEPTH, d);
      forall layers: seq<Encoding> | FirstTried(payload, layers, MAX_DEPTH, d) && Attempt(payload, layers, d) != Thrown
        ensures layers == found
      {
        BeforeIsTotal(layers, found);
      }
    }
  }

  /** A token hidden by at most two layers is found if and only if no layers tried before it make the parser trap. */
  lemma TokenFoundExactly(payload: bytes, d: Decoders)
    ensures ParseDecoded(payload, 0, d).Ok? <==>
            exists layers: seq<Encoding> ::
              && |layers| <= 2 && Attempt(payload, layers, d).Ok?
              && forall e: seq<Encoding> :: |e| <= 2 && Before(e, layers) ==> Attempt(payload, e, d) != Trap
  {
    if ParseDecoded(payload, 0, d) == Thrown {
      NestedExactly(payload, d, Thrown);
    } else {
      var found := FoundFirst(payload, 0, d);
      assert FirstTried(payload, found, MAX_DEPTH, d);
      forall layers: seq<Encoding> | |layers| <= MAX_DEPTH && Attempt(payload, layers, d).Ok?
        ensures layers == found || Before(found, layers)
      {
        BeforeIsTotal(layers, found);
      }
    }
  }

  // ---- When the parser traps ----

  /** The offset after the field at `i`, where the loop gets past it. */
  function FieldEnd(b: bytes, i: nat): (e: Option<nat>)
    requires i < |b|
    ensures e.Some? ==> i < e.value <= |b|
  {
    match Varint(b, i, 0, 0)
    case None => None
    case Some(key) =>
      match Body(b, key.value / 8, key.value % 8, key.next, Found(None, None))
      case Ok((_, next)) => Some(next)
      case _ => None
  }

  /** The field loop that starts at `i` comes to `j`. */
  predicate Reached(b: bytes, i: nat, j: nat)
    decreases |b| - i
  {
    i == j || (i < |b| && FieldEnd(b, i).Some? && Reached(b, FieldEnd(b, i).value, j))
  }

  /** At `j` a length-delimited field begins whose length does not fit `Int`, or takes the index past it. */
  predicate TooLong(b: bytes, j: nat) {
    && j < |b| && Varint(b, j, 0, 0).Some?
    && var key := Varint(b, j, 0, 0).value;
    && key.value % 8 == 2 && Varint(b, key.next, 0, 0).Some?
    && var length := Varint(b, key.next, 0, 0).value;
    length.next + length.value > INT_MAX
  }

  lemma BodyCases(b: bytes, num: nat, wire: nat, i: nat, f: Found)
    requires i <= |b|
    ensures Body(b, num, wire, i, f) == Trap <==>
            wire == 2 && Varint(b, i, 0, 0).Some?
            && Varint(b, i, 0, 0).value.next + Varint(b, i, 0, 0).value.value > INT_MAX
    ensures Body(b, num, wire, i, f).Ok? <==> Body(b, num, wire, i, Found(None, None)).Ok?
    ensures Body(b, num, wire, i, f).Ok? ==>
              Body(b, num, wire, i, f).value.1 == Body(b, num, wire, i, Found(None, None)).value.1
  {
  }

  lemma TooLongTraps(b: bytes, i: nat, f: Found)
    requires i < |b| && Varint(b, i, 0, 0).Some?
    ensures var key := Varint(b, i, 0, 0).value;
            var body := Body(b, key.value / 8, key.value % 8, key.next, f);
            && (body == Trap <==> TooLong(b, i))
            && FieldEnd(b, i) == (if body.Ok? then Some(body.value.1) else None)
  {
    var key := Varint(b, i, 0, 0).value;
    BodyCases(b, key.value / 8, key.value % 8, key.next, f);
  }

  lemma {:induction false} FieldsTrapExactly(b: bytes, i: nat, f: Found)
    ensures Fields(b, i, f) == Trap <==> exists j: nat :: Reached(b, i, j) && TooLong(b, j)
    decreases |b| - i
  {
    if i < |b| && Varint(b, i, 0, 0).Some? {
      var key := Varint(b, i, 0, 0).value;
      TooLongTraps(b, i, f);
      var body := Body(b, key.value / 8, key.value % 8, key.next, f);
      if body.Ok? {
        FieldsTrapExactly(b, body.value.1, body.value.0);
        assert forall j: nat :: Reached(b, i, j) <==> j == i || Reached(b, body.value.1, j);
      } else {
        assert Reached(b, i, i);
      }
    }
  }

  /** The parser ends the process if and only if the field loop comes to a field that is too long. */
  lemma TrapsExactly(data: bytes)
    ensures Protobuf(data) == Trap <==> exists j: nat :: Reached(data, 0, j) && TooLong(data, j)
  {
    FieldsTrapExactly(data, 0, Found(None, None));
  }

  /** At `j` the field loop gives up: the key, or a number or a length, is no varint; the wire type is none of 0, 1, 2 and 5; or
    the data ends within the field. */
  predicate Broken(b: bytes, j: nat) {
    && j < |b|
    && match Varint(b, j, 0, 0)
       case None => true
       case Some(Read(key, p)) =>
         || key % 8 in {3, 4, 6, 7}
         || (key % 8 == 1 && p + 8 > |b|)
         || (key % 8 == 5 && p + 4 > |b|)
         || (key % 8 in {0, 2} && Varint(b, p, 0, 0).None?)
         || (key % 8 == 2 && Varint(b, p, 0, 0).Some?
             && |b| < Varint(b, p, 0, 0).value.next + Varint(b, p, 0, 0).value.value < 0x8000_0000_0000_0000)
  }

  lemma BrokenIsThrown(b: bytes, num: nat, wire: nat, p: nat, f: Found)
    requires p <= |b| <= INT_MAX && wire < 8
    ensures Body(b, num, wire, p, f) == Thrown <==>
            || wire in {3, 4, 6, 7} || (wire == 1 && p + 8 > |b|) || (wire == 5 && p + 4 > |b|)
            || (wire in {0, 2} && Varint(b, p, 0, 0).None?)
            || (wire == 2 && Varint(b, p, 0, 0).Some?
                && |b| < Varint(b, p, 0, 0).value.next + Varint(b, p, 0, 0).value.value < 0x8000_0000_0000_0000)
  {
  }

  lemma OnlyReached(b: bytes, i: nat)
    requires i < |b| ==> FieldEnd(b, i).None?
    ensures forall j: nat :: Reached(b, i, j) <==> j == i
  {
  }

  lemma {:induction false} FieldsNilExactly(b: bytes, i: nat, f: Found)
    requires |b| <= INT_MAX
    ensures Fields(b, i, f) == Thrown <==> exists j: nat :: Reached(b, i, j) && Broken(b, j)
    decreases |b| - i
  {
    if i < |b| && Varint(b, i, 0, 0).Some? {
      var key := Varint(b, i, 0, 0).value;
      TooLongTraps(b, i, f);
      BrokenIsThrown(b, key.value / 8, key.value % 8, key.next, f);
      var body := Body(b, key.value / 8, key.value % 8, key.next, f);
      assert Broken(b, i) <==> body == Thrown;
      if body.Ok? {
        FieldsNilExactly(b, body.value.1, body.value.0);
        assert forall j: nat :: Reached(b, i, j) <==> j == i || Reached(b, body.value.1, j);
      } else {
        OnlyReached(b, i);
        assert Reached(b, i, i);
      }
    } else {
      OnlyReached(b, i);
      assert Reached(b, i, i);
      assert Fields(b, i, f) == Thrown <==> i < |b|;
      assert Broken(b, i) <==> i < |b|;
    }
  }

  /** On any bytes the parser returns nil if and only if the loop comes to a broken field, or ends without one of the two ids. */
  lemma NilExactly(data: bytes)
    requires |data| <= INT_MAX
    ensures Protobuf(data) == Thrown <==>
            || (exists j: nat :: Reached(data, 0, j) && Broken(data, j))
            || (Fields(data, 0, Found(None, None)).Ok?
                && var f := Fields(data, 0, Found(None, None)).value;
                f.task.None? || f.nonce.None? || f.task == Some([]) || f.nonce == Some([]))
  {
    FieldsNilExactly(data, 0, Found(None, None));
  }

  // ---- A token that is never found ----

  const TEXT: string := "aA06062566eC86f6f61a0141220142"
  const AS_BASE64: bytes := [104, 13, 58, 211, 173, 185, 235, 167, 130, 243, 167, 250, 127, 173, 90, 211, 94, 53, 219, 109, 53, 227]
  const AS_HEX: bytes := [170, 6, 6, 37, 102, 236, 134, 246, 246, 26, 1, 65, 34, 1, 66]

  lemma SmallVarint(b: bytes, i: nat)
    requires i < |b| && b[i] < 128
    ensures Varint(b, i, 0, 0) == Some(Read(b[i], i + 1))
  {
  }

  lemma TextIsNil()
    ensures Protobuf(Ascii(TEXT)) == Thrown
  {
    var b := Ascii(TEXT);
    assert b[0] == 97 && b[9] == 54;
    SkippedThenNil(b);
  }

  lemma SkippedThenNil(b: bytes)
    requires |b| == 30 && b[0] == 97 && b[9] == 54
    ensures Protobuf(b) == Thrown
  {
    SmallVarint(b, 0);
    SmallVarint(b, 9);
    assert Fields(b, 0, Found(None, None)) == Fields(b, 9, Found(None, None));
  }

  /** Nine continued bytes and an odd tenth one make a varint past 63 bits. */
  lemma {:induction false} TenByteVarint(b: bytes, i: nat, k: nat, acc: nat)
    requires k <= 9 && i + 10 - k <= |b| && b[i + 9 - k] < 128 && b[i + 9 - k] % 2 == 1
    requires forall j :: i <= j < i + 9 - k ==> b[j] >= 128
    ensures Varint(b, i, k, acc).Some? && Varint(b, i, k, acc).value.value > INT_MAX
    decreases 9 - k
  {
    if k < 9 {
      TenByteVarint(b, i + 1, k + 1, acc + (b[i] % 128) * Pow128(k) % TWO64);
    } else {
      PowersOf128();
      OddTenth(b[i]);
    }
  }

  lemma OddTenth(d: nat)
    requires d < 128 && d % 2 == 1
    ensures (d % 128) * 0x8000_0000_0000_0000 % TWO64 == 0x8000_0000_0000_0000
  {
    assert d * 0x8000_0000_0000_0000 == d / 2 * TWO64 + 0x8000_0000_0000_0000;
  }

  lemma Base64Traps(b: bytes)
    requires |b| >= 13 && b[0] == 104 && b[1] == 13 && b[2] == 58 && b[12] == 127
    requires forall j :: 3 <= j < 12 ==> b[j] >= 128
    ensures Protobuf(b) == Trap
  {
    SmallVarint(b, 0);
    SmallVarint(b, 1);
    SmallVarint(b, 2);
    TenByteVarint(b, 3, 0, 0);
    assert Reached(b, 2, 2) && TooLong(b, 2);
    assert FieldEnd(b, 0) == Some(2);
    assert Reached(b, 0, 2);
    TrapsExactly(b);
  }

  lemma LongKey(b: bytes)
    requires |b| >= 3 && b[0] == 170 && b[1] == 6
    ensures Varint(b, 0, 0, 0) == Some(Read(810, 2))
  {
    assert Pow128(1) == 128;
    assert Varint(b, 0, 0, 0) == Varint(b, 1, 1, 42);
  }

  lemma HexHoldsToken(b: bytes)
    requires |b| == 15 && b[0] == 170 && b[1] == 6 && b[2] == 6
    requires b[9..] == [26, 1, 65, 34, 1, 66]
    ensures Protobuf(b) == Ok(Token("41", "42"))
  {
    assert b[9] == b[9..][0] && b[10] == b[9..][1] && b[12] == b[9..][3] && b[13] == b[9..][4];
    assert b[11..12] == b[9..][2..3] == [65] && b[14..15] == b[9..][5..6] == [66];
    var none, task, both := Found(None, None), Found(Some([65]), None), Found(Some([65]), Some([66]));
    LongKey(b);
    SmallVarint(b, 2);
    FieldsStep(b, 0, Read(810, 2), none, none, 9);
    SmallVarint(b, 9);
    SmallVarint(b, 10);
    FieldsStep(b, 9, Read(26, 10), none, task, 12);
    SmallVarint(b, 12);
    SmallVarint(b, 13);
    FieldsStep(b, 12, Read(34, 13), task, both, 15);
    HexOfToken();
  }

  lemma HexOfToken()
    ensures TokenOf(Found(Some([65]), Some([66]))) == Ok(Token("41", "42"))
  {
    assert ToHex([65]) == "41" && ToHex([66]) == "42";
  }

  /** This text holds a token as hex, and its bytes as base64 make the parser trap before the hex is tried. */
  lemma TrapHidesToken(d: Decoders)
    requires d.base64(Ascii(TEXT)) == Some(AS_BASE64) && d.hex(Ascii(TEXT)) == Some(AS_HEX)
    requires d.json(Ascii(TEXT)) == None && d.json(AS_BASE64) == None && d.json(AS_HEX) == None
    ensures Attempt(Ascii(TEXT), [Hex], d) == Ok(Token("41", "42"))
    ensures ParseDecoded(Ascii(TEXT), 0, d) == Trap
  {
    TextIsNil();
    Base64Traps(AS_BASE64);
    HexHoldsToken(AS_HEX);
    assert [Hex][1..] == [];
  }
}
