/** The wire format of RFC 1350 and RFC 2347: decoding, encoding and their round trips. */
module Packets {
  import opened Basics
  import opened Options
  import Utf8

  datatype ErrorCode =
    | NotDefined
    | FileNotFound
    | AccessViolation
    | DiskFull
    | IllegalOperation
    | UnknownTid
    | FileExists
    | NoSuchUser
    | OptionNegotiation

  datatype Packet =
    | Rrq(filename: bytes, mode: Mode, options: seq<OptionValue>)
    | Wrq(filename: bytes, mode: Mode, options: seq<OptionValue>)
    | Data(block: u16, data: bytes)
    | Ack(block: u16)
    | ErrorPacket(code: ErrorCode, msg: bytes)
    | Oack(options: seq<OptionValue>)

  const RRQ: u16 := 1
  const WRQ: u16 := 2
  const DATA: u16 := 3
  const ACK: u16 := 4
  const ERROR: u16 := 5
  const OACK: u16 := 6

  function CodeNumber(code: ErrorCode): u16 {
    match code
    case NotDefined => 0
    case FileNotFound => 1
    case AccessViolation => 2
    case DiskFull => 3
    case IllegalOperation => 4
    case UnknownTid => 5
    case FileExists => 6
    case NoSuchUser => 7
    case OptionNegotiation => 8
  }

  function CodeOf(number: u16): ErrorCode {
    match number
    case 1 => FileNotFound
    case 2 => AccessViolation
    case 3 => DiskFull
    case 4 => IllegalOperation
    case 5 => UnknownTid
    case 6 => FileExists
    case 7 => NoSuchUser
    case 8 => OptionNegotiation
    case _ => NotDefined
  }

  function PutU16(n: u16): bytes {
    [n / 256, n % 256]
  }

  function GetU16(hi: byte, lo: byte): u16 {
    hi * 256 + lo
  }

  // ---------- NUL-terminated strings ----------

  function Cstr(s: bytes): bytes {
    s + [0]
  }

  function NulIndex(s: bytes): (i: nat)
    ensures i <= |s|
    ensures i < |s| ==> s[i] == 0
    ensures forall j :: 0 <= j < i ==> s[j] != 0
  {
    if s == [] || s[0] == 0 then 0 else 1 + NulIndex(s[1..])
  }

  /** A string and what follows its terminator. */
  datatype Taken = Taken(text: bytes, rest: bytes)

  function TakeCstr(cursor: bytes): (r: Result<Taken, Error>)
    ensures r.Ok? ==> |r.value.rest| < |cursor| && cursor == Cstr(r.value.text) + r.value.rest && Text(r.value.text)
  {
    var nul := NulIndex(cursor);
    if nul == |cursor| then Err(MissingNul)
    else if !Utf8.Valid(cursor[..nul]) then Err(InvalidUtf8)
    else Ok(Taken(cursor[..nul], cursor[nul + 1..]))
  }

  /** What a string field can carry: valid UTF-8 without NUL. */
  predicate Text(s: bytes) {
    Utf8.Valid(s) && 0 !in s
  }

  lemma {:induction false} NulIndexFound(s: bytes, rest: bytes)
    requires 0 !in s
    ensures NulIndex(Cstr(s) + rest) == |s|
  {
    var all := Cstr(s) + rest;
    assert all[|s|] == 0;
    assert all[..|s|] == s;
  }

  lemma TakePut(s: bytes, rest: bytes)
    requires Text(s)
    ensures TakeCstr(Cstr(s) + rest) == Ok(Taken(s, rest))
  {
    NulIndexFound(s, rest);
    assert (Cstr(s) + rest)[..|s|] == s;
    assert (Cstr(s) + rest)[|s| + 1..] == rest;
  }

  lemma AsciiText(s: bytes)
    requires forall i :: 0 <= i < |s| ==> 0 < s[i] <= 0x7F
    ensures Text(s)
  {
    Utf8.AsciiValid(s);
  }

  lemma DigitsText(s: bytes)
    requires forall b :: b in s ==> IsDigit(b)
    ensures Text(s)
  {
    forall i | 0 <= i < |s| ensures 0 < s[i] <= 0x7F {
      assert IsDigit(s[i]);
    }
    AsciiText(s);
  }

  lemma OptionTexts(o: OptionValue)
    ensures Text(Name(o)) && Text(ValueString(o))
  {
    NameText(o);
    DigitsRoundTrip(Number(o));
    DigitsText(ValueString(o));
  }

  lemma NameText(o: OptionValue)
    ensures Text(Name(o))
  {
    match o
    case BlockSize(_) => AsciiText(BLKSIZE);
    case Timeout(_) => AsciiText(TIMEOUT);
    case TransferSize(_) => AsciiText(TSIZE);
    case WindowSize(_) => AsciiText(WINDOWSIZE);
  }

  lemma ModeText(m: Mode)
    ensures Text(ModeName(m)) && ParseMode(ModeName(m)) == Ok(m)
  {
    AsciiText(ModeName(m));
    ModeParses(m);
  }

  lemma ModeParses(m: Mode)
    ensures ParseMode(ModeName(m)) == Ok(m)
  {
    assert SameText(NETASCII, NETASCII) && SameText(OCTET, OCTET);
    assert |NETASCII| == 8 && |OCTET| == 5;
  }

  // ---------- option lists ----------

  function PutPairs(pairs: seq<Pair>): bytes {
    if pairs == [] then [] else Cstr(pairs[0].0) + (Cstr(pairs[0].1) + PutPairs(pairs[1..]))
  }

  function TakePairs(cursor: bytes): (r: Result<seq<Pair>, Error>)
    decreases |cursor|
  {
    if cursor == [] then Ok([])
    else
      match TakeCstr(cursor)
      case Err(e) => Err(e)
      case Ok(name) =>
        match TakeCstr(name.rest)
        case Err(e) => Err(e)
        case Ok(value) =>
          match TakePairs(value.rest)
          case Err(e) => Err(e)
          case Ok(pairs) => Ok([(name.text, value.text)] + pairs)
  }

  lemma {:induction false} TakePutPairs(pairs: seq<Pair>)
    requires forall p: Pair :: p in pairs ==> Text(p.0) && Text(p.1)
    ensures TakePairs(PutPairs(pairs)) == Ok(pairs)
  {
    if pairs != [] {
      var rest := PutPairs(pairs[1..]);
      TakePutPairs(pairs[1..]);
      TakePut(pairs[0].0, Cstr(pairs[0].1) + rest);
      TakePut(pairs[0].1, rest);
      assert pairs == [(pairs[0].0, pairs[0].1)] + pairs[1..];
    }
  }

  lemma OptionsOnWire(items: seq<OptionValue>)
    requires Distinct(items)
    ensures TakePairs(PutPairs(ToPairs(items))) == Ok(ToPairs(items))
    ensures FromPairs(ToPairs(items)) == Acceptable(items)
  {
    forall p | p in ToPairs(items) ensures Text(p.0) && Text(p.1) {
      var i :| 0 <= i < |items| && ToPairs(items)[i] == p;
      OptionTexts(items[i]);
    }
    TakePutPairs(ToPairs(items));
    OptionsRoundTrip(items);
  }

  // ---------- packets ----------

  function EncodeRequest(opcode: u16, filename: bytes, mode: Mode, options: seq<OptionValue>): bytes {
    PutU16(opcode) + (Cstr(filename) + (Cstr(ModeName(mode)) + PutPairs(ToPairs(options))))
  }

  function Encode(p: Packet): bytes {
    match p
    case Rrq(filename, mode, options) => EncodeRequest(RRQ, filename, mode, options)
    case Wrq(filename, mode, options) => EncodeRequest(WRQ, filename, mode, options)
    case Data(block, data) => PutU16(DATA) + (PutU16(block) + data)
    case Ack(block) => PutU16(ACK) + PutU16(block)
    case ErrorPacket(code, msg) => PutU16(ERROR) + (PutU16(CodeNumber(code)) + Cstr(msg))
    case Oack(options) => PutU16(OACK) + PutPairs(ToPairs(options))
  }

  datatype Request = Request(filename: bytes, mode: Mode, options: seq<OptionValue>)

  function DecodeRequest(body: bytes): Result<Request, Error> {
    match TakeCstr(body)
    case Err(e) => Err(e)
    case Ok(filename) =>
      match TakeCstr(filename.rest)
      case Err(e) => Err(e)
      case Ok(mode) =>
        match ParseMode(mode.text)
        case Err(e) => Err(e)
        case Ok(m) =>
          match TakePairs(mode.rest)
          case Err(e) => Err(e)
          case Ok(pairs) => Ok(Request(filename.text, m, FromPairs(pairs)))
  }

  function DecodeData(body: bytes): Result<Packet, Error> {
    if |body| < 2 then Err(Malformed) else Ok(Data(GetU16(body[0], body[1]), body[2..]))
  }

  function DecodeAck(body: bytes): Result<Packet, Error> {
    if |body| < 2 then Err(Malformed) else Ok(Ack(GetU16(body[0], body[1])))
  }

  function DecodeError(body: bytes): Result<Packet, Error> {
    if |body| < 3 then Err(Malformed)
    else
      match TakeCstr(body[2..])
      case Err(e) => Err(e)
      case Ok(msg) => Ok(ErrorPacket(CodeOf(GetU16(body[0], body[1])), msg.text))
  }

  function DecodeOack(body: bytes): Result<Packet, Error> {
    match TakePairs(body)
    case Err(e) => Err(e)
    case Ok(pairs) => Ok(Oack(FromPairs(pairs)))
  }

  function DecodeBody(opcode: u16, body: bytes): Result<Packet, Error> {
    if opcode == RRQ || opcode == WRQ then
      match DecodeRequest(body)
      case Err(e) => Err(e)
      case Ok(q) =>
        if opcode == RRQ then Ok(Rrq(q.filename, q.mode, q.options))
        else Ok(Wrq(q.filename, q.mode, q.options))
    else if opcode == DATA then DecodeData(body)
    else if opcode == ACK then DecodeAck(body)
    else if opcode == ERROR then DecodeError(body)
    else if opcode == OACK then DecodeOack(body)
    else Err(UnknownOpcode(opcode))
  }

  function Decode(buf: bytes): Result<Packet, Error> {
    if |buf| < 2 then Err(Malformed) else DecodeBody(GetU16(buf[0], buf[1]), buf[2..])
  }

  /** The kinds of datagram that matter during a transfer. */
  predicate IsError(buf: bytes) {
    Decode(buf).Ok? && Decode(buf).value.ErrorPacket?
  }

  predicate IsAck(buf: bytes) {
    Decode(buf).Ok? && Decode(buf).value.Ack?
  }

  predicate IsData(buf: bytes) {
    Decode(buf).Ok? && Decode(buf).value.Data?
  }

  // ---------- round trips ----------

  ghost predicate WellFormedOptions(options: seq<OptionValue>) {
    Distinct(options) && forall o :: o in options ==> InRange(o)
  }

  ghost predicate WellFormed(p: Packet) {
    match p
    case Rrq(filename, _, options) => Text(filename) && WellFormedOptions(options)
    case Wrq(filename, _, options) => Text(filename) && WellFormedOptions(options)
    case Data(_, _) => true
    case Ack(_) => true
    case ErrorPacket(_, msg) => Text(msg)
    case Oack(options) => WellFormedOptions(options)
  }

  lemma U16RoundTrip(n: u16, rest: bytes)
    ensures var b := PutU16(n) + rest; |b| >= 2 && GetU16(b[0], b[1]) == n && b[2..] == rest
  {
  }

  lemma OpcodeRoundTrip(opcode: u16, body: bytes)
    ensures Decode(PutU16(opcode) + body) == DecodeBody(opcode, body)
  {
    U16RoundTrip(opcode, body);
  }

  lemma BodyByOpcode(body: bytes)
    ensures DecodeBody(DATA, body) == DecodeData(body)
    ensures DecodeBody(ACK, body) == DecodeAck(body)
    ensures DecodeBody(ERROR, body) == DecodeError(body)
    ensures DecodeBody(OACK, body) == DecodeOack(body)
  {
  }

  lemma AckBody(block: u16)
    ensures DecodeAck(PutU16(block)) == Ok(Ack(block))
  {
    U16RoundTrip(block, []);
    assert PutU16(block) + [] == PutU16(block);
  }

  lemma DecodePlain(p: Packet)
    requires p.Data? || p.Ack? || (p.ErrorPacket? && Text(p.msg))
    ensures Decode(Encode(p)) == Ok(p)
  {
    match p
    case Data(block, data) =>
      OpcodeRoundTrip(DATA, PutU16(block) + data);
      BodyByOpcode(PutU16(block) + data);
      U16RoundTrip(block, data);
    case Ack(block) =>
      OpcodeRoundTrip(ACK, PutU16(block));
      BodyByOpcode(PutU16(block));
      AckBody(block);
    case ErrorPacket(code, msg) =>
      OpcodeRoundTrip(ERROR, PutU16(CodeNumber(code)) + Cstr(msg));
      BodyByOpcode(PutU16(CodeNumber(code)) + Cstr(msg));
      ErrorBody(code, msg);
  }

  lemma ErrorBody(code: ErrorCode, msg: bytes)
    requires Text(msg)
    ensures DecodeError(PutU16(CodeNumber(code)) + Cstr(msg)) == Ok(ErrorPacket(code, msg))
  {
    U16RoundTrip(CodeNumber(code), Cstr(msg));
    TakePut(msg, []);
    assert Cstr(msg) + [] == Cstr(msg);
    assert CodeOf(CodeNumber(code)) == code;
  }

  /** An ERROR packet is never mistaken for another kind, even if its text does not survive. */
  lemma ErrorStaysError(code: ErrorCode, msg: bytes)
    ensures Decode(Encode(ErrorPacket(code, msg))).Err? || Decode(Encode(ErrorPacket(code, msg))).value.ErrorPacket?
  {
    ErrorKind(Encode(ErrorPacket(code, msg)), PutU16(CodeNumber(code)) + Cstr(msg));
  }

  lemma ErrorKind(wire: bytes, body: bytes)
    requires wire == PutU16(ERROR) + body
    ensures Decode(wire).Err? || Decode(wire).value.ErrorPacket?
  {
    OpcodeRoundTrip(ERROR, body);
    BodyByOpcode(body);
  }

  /** A request whose options repeat no name arrives with exactly the options in range. */
  lemma RequestOnWire(filename: bytes, mode: Mode, options: seq<OptionValue>)
    requires Text(filename) && Distinct(options)
    ensures DecodeRequest(Cstr(filename) + (Cstr(ModeName(mode)) + PutPairs(ToPairs(options))))
            == Ok(Request(filename, mode, Acceptable(options)))
  {
    var tail := PutPairs(ToPairs(options));
    ModeText(mode);
    OptionsOnWire(options);
    TakePut(filename, Cstr(ModeName(mode)) + tail);
    TakePut(ModeName(mode), tail);
  }

  lemma RequestBody(body: bytes, q: Request)
    requires DecodeRequest(body) == Ok(q)
    ensures Decode(PutU16(RRQ) + body) == Ok(Rrq(q.filename, q.mode, q.options))
    ensures Decode(PutU16(WRQ) + body) == Ok(Wrq(q.filename, q.mode, q.options))
  {
    OpcodeRoundTrip(RRQ, body);
    OpcodeRoundTrip(WRQ, body);
  }

  /** What the server reads when a client asks for options of distinct kinds, in range or not. */
  lemma RequestRoundTrip(filename: bytes, mode: Mode, options: seq<OptionValue>)
    requires Text(filename) && Distinct(options)
    ensures Decode(Encode(Rrq(filename, mode, options))) == Ok(Rrq(filename, mode, Acceptable(options)))
    ensures Decode(Encode(Wrq(filename, mode, options))) == Ok(Wrq(filename, mode, Acceptable(options)))
  {
    RequestOnWire(filename, mode, options);
    RequestBody(Cstr(filename) + (Cstr(ModeName(mode)) + PutPairs(ToPairs(options))), Request(filename, mode, Acceptable(options)));
  }

  lemma OackBody(body: bytes, pairs: seq<Pair>)
    requires TakePairs(body) == Ok(pairs)
    ensures Decode(PutU16(OACK) + body) == Ok(Oack(FromPairs(pairs)))
  {
    OpcodeRoundTrip(OACK, body);
    BodyByOpcode(body);
  }

  lemma OackRoundTrip(options: seq<OptionValue>)
    requires Distinct(options)
    ensures Decode(Encode(Oack(options))) == Ok(Oack(Acceptable(options)))
  {
    OackHeardAs(options, Encode(Oack(options)), PutPairs(ToPairs(options)), ToPairs(options), Acceptable(options));
  }

  lemma OackHeardAs(options: seq<OptionValue>, wire: bytes, body: bytes, pairs: seq<Pair>, kept: seq<OptionValue>)
    requires Distinct(options) && pairs == ToPairs(options) && body == PutPairs(pairs) && kept == Acceptable(options)
    requires wire == PutU16(OACK) + body
    ensures Decode(wire) == Ok(Oack(kept))
  {
    OptionsOnWire(options);
    OackBody(body, pairs);
  }

  lemma RequestWellFormed(body: bytes)
    requires DecodeRequest(body).Ok?
    ensures Text(DecodeRequest(body).value.filename) && WellFormedOptions(DecodeRequest(body).value.options)
  {
    var mode := TakeCstr(TakeCstr(body).value.rest).value;
    FromPairsMeaning(TakePairs(mode.rest).value);
  }

  /** Every packet the decoder accepts is well formed, whatever the bytes were. */
  lemma DecodedIsWellFormed(buf: bytes)
    ensures Decode(buf).Ok? ==> WellFormed(Decode(buf).value)
  {
    if Decode(buf).Ok? {
      BodyWellFormed(GetU16(buf[0], buf[1]), buf[2..]);
    }
  }

  lemma BodyWellFormed(opcode: u16, body: bytes)
    requires DecodeBody(opcode, body).Ok?
    ensures WellFormed(DecodeBody(opcode, body).value)
  {
    if opcode == RRQ || opcode == WRQ {
      RequestWellFormed(body);
    } else if opcode == OACK {
      FromPairsMeaning(TakePairs(body).value);
    }
  }

  /** A packet survives the wire if and only if it is well formed. */
  lemma RoundTripIff(p: Packet)
    ensures Decode(Encode(p)) == Ok(p) <==> WellFormed(p)
  {
    if !WellFormed(p) {
      DecodedIsWellFormed(Encode(p));
    } else if p.Rrq? || p.Wrq? {
      AcceptableAll(p.options);
      RequestRoundTrip(p.filename, p.mode, p.options);
    } else if p.Oack? {
      AcceptableAll(p.options);
      OackRoundTrip(p.options);
    } else {
      DecodePlain(p);
    }
  }

  /** Decoding is stable: for arbitrary bytes that decode, re-encoding and decoding again gives
      the same packet, despite unknown options, odd cases, duplicates and trailing bytes. */
  lemma DecodeStable(buf: bytes)
    requires Decode(buf).Ok?
    ensures Decode(Encode(Decode(buf).value)) == Decode(buf)
  {
    DecodedIsWellFormed(buf);
    RoundTripIff(Decode(buf).value);
  }

  // ---------- the bytes on the wire ----------

  /** What every datagram is taken for, by its bytes: two bytes of opcode, high byte first, then
      the block number of a DATA or ACK, or the code of an ERROR. */
  lemma DatagramKinds(buf: bytes)
    ensures |buf| < 2 ==> Decode(buf) == Err(Malformed)
    ensures |buf| >= 2 ==>
              var opcode := 256 * (buf[0] as int) + (buf[1] as int);
              && (opcode == 0 || opcode > 6 ==> Decode(buf) == Err(UnknownOpcode(opcode)))
              && (opcode == 3 ==> Decode(buf) == if |buf| < 4 then Err(Malformed) else Ok(Data(256 * (buf[2] as int) + (buf[3] as int), buf[4..])))
              && (opcode == 5 && |buf| < 5 ==> Decode(buf) == Err(Malformed))
              && (opcode == 4 ==> Decode(buf) == if |buf| < 4 then Err(Malformed) else Ok(Ack(256 * (buf[2] as int) + (buf[3] as int))))
    ensures Decode(buf).Ok? ==>
              && |buf| >= 2 && buf[0] == 0
              && var p := Decode(buf).value;
                 && (p.Rrq? <==> buf[1] == 1) && (p.Wrq? <==> buf[1] == 2) && (p.Data? <==> buf[1] == 3)
                 && (p.Ack? <==> buf[1] == 4) && (p.ErrorPacket? <==> buf[1] == 5) && (p.Oack? <==> buf[1] == 6)
  {
    if |buf| >= 4 {
      assert buf[2..][0] == buf[2] && buf[2..][1] == buf[3] && buf[2..][2..] == buf[4..];
    }
  }

  /** The packets of a transfer, byte by byte. */
  lemma TransferBytes(block: u16, data: bytes)
    ensures Encode(Data(block, data)) == [0, 3, block / 256, block % 256] + data
    ensures Encode(Ack(block)) == [0, 4, block / 256, block % 256]
  {
  }

  /** The error codes in the order of their numbers. */
  const CODES := [NotDefined, FileNotFound, AccessViolation, DiskFull, IllegalOperation, UnknownTid, FileExists,
                  NoSuchUser, OptionNegotiation]

  /** An ERROR carries its code and its text. */
  lemma ErrorBytes(k: nat, msg: bytes)
    requires k < 9
    ensures Encode(ErrorPacket(CODES[k], msg)) == [0, 5, 0, k] + msg + [0]
  {
    ErrorParts(CODES[k], k, msg);
  }

  lemma ErrorParts(code: ErrorCode, k: byte, msg: bytes)
    requires CodeNumber(code) == k <= 8
    ensures Encode(ErrorPacket(code, msg)) == [0, 5, 0, k] + msg + [0]
  {
  }

  /** The packets of a negotiation: opcode, file name, mode, then the options in order, each as a
      name and a decimal number, every string followed by NUL. */
  lemma NegotiationBytes(filename: bytes, options: seq<OptionValue>)
    ensures Encode(Rrq(filename, Octet, options)) == [0, 1] + filename + [0] + Ascii("octet") + [0] + OptionBytes(options)
    ensures Encode(Rrq(filename, NetAscii, options)) == [0, 1] + filename + [0] + Ascii("netascii") + [0] + OptionBytes(options)
    ensures Encode(Wrq(filename, Octet, options)) == [0, 2] + filename + [0] + Ascii("octet") + [0] + OptionBytes(options)
    ensures Encode(Wrq(filename, NetAscii, options)) == [0, 2] + filename + [0] + Ascii("netascii") + [0] + OptionBytes(options)
    ensures Encode(Oack(options)) == [0, 6] + OptionBytes(options)
  {
    Literals();
    PairBytes(options);
    RequestParts(RRQ, 1, filename, Octet, Ascii("octet"), options);
    RequestParts(RRQ, 1, filename, NetAscii, Ascii("netascii"), options);
    RequestParts(WRQ, 2, filename, Octet, Ascii("octet"), options);
    RequestParts(WRQ, 2, filename, NetAscii, Ascii("netascii"), options);
  }

  /** The options of a request or OACK, spelled out. */
  function OptionBytes(options: seq<OptionValue>): bytes {
    if options == [] then []
    else
      var o := options[0];
      var name := match o
        case BlockSize(_) => Ascii("blksize")
        case Timeout(_) => Ascii("timeout")
        case TransferSize(_) => Ascii("tsize")
        case WindowSize(_) => Ascii("windowsize");
      name + [0] + Digits(Number(o)) + [0] + OptionBytes(options[1..])
  }

  lemma {:induction false} PairBytes(options: seq<OptionValue>)
    ensures PutPairs(ToPairs(options)) == OptionBytes(options)
  {
    if options != [] {
      Literals();
      PairBytes(options[1..]);
      assert ToPairs(options)[1..] == ToPairs(options[1..]);
      OnePair(Name(options[0]), Digits(Number(options[0])), OptionBytes(options[1..]));
    }
  }

  lemma OnePair(name: bytes, value: bytes, rest: bytes)
    ensures Cstr(name) + (Cstr(value) + rest) == name + [0] + value + [0] + rest
  {
  }

  lemma RequestParts(opcode: u16, k: byte, filename: bytes, mode: Mode, name: bytes, options: seq<OptionValue>)
    requires opcode == k && name == ModeName(mode)
    ensures EncodeRequest(opcode, filename, mode, options) == [0, k] + filename + [0] + name + [0] + PutPairs(ToPairs(options))
  {
    OnePair(filename, name, PutPairs(ToPairs(options)));
    Joined([0, k], filename, name, PutPairs(ToPairs(options)));
  }

  lemma Joined(a: bytes, b: bytes, c: bytes, d: bytes)
    ensures a + (b + [0] + c + [0] + d) == a + b + [0] + c + [0] + d
  {
  }

  /** Decimal digits, most significant first. */
  lemma DigitsSample()
    ensures Digits(0) == Ascii("0") && Digits(7) == Ascii("7") && Digits(1428) == Ascii("1428") && Digits(65464) == Ascii("65464")
  {
    assert Digits(14) == [49, 52] && Digits(142) == [49, 52, 50];
    assert Digits(65) == [54, 53] && Digits(654) == [54, 53, 52] && Digits(6546) == [54, 53, 52, 54];
  }

  // ---------- every accepted datagram, from its bytes ----------

  lemma TakeCstrIff(cursor: bytes, text: bytes, rest: bytes)
    ensures TakeCstr(cursor) == Ok(Taken(text, rest)) <==> Text(text) && cursor == text + [0] + rest
  {
    if Text(text) && cursor == text + [0] + rest {
      TakePut(text, rest);
    }
  }

  /** Why a string is refused: it has no end, or it is not UTF-8. */
  lemma TakeCstrRefused(cursor: bytes)
    ensures TakeCstr(cursor) == Err(MissingNul) <==> 0 !in cursor
    ensures forall text: bytes, rest: bytes :: 0 !in text && cursor == text + [0] + rest ==>
              (Utf8.Valid(text) ==> TakeCstr(cursor) == Ok(Taken(text, rest))) && (!Utf8.Valid(text) ==> TakeCstr(cursor) == Err(InvalidUtf8))
  {
    forall text: bytes, rest: bytes | 0 !in text && cursor == text + [0] + rest
      ensures NulIndex(cursor) == |text| && cursor[..|text|] == text && cursor[|text| + 1..] == rest
    {
      NulIndexFound(text, rest);
    }
  }

  /** Why a request is refused, whatever follows: its file name or its mode has no end, or the mode
      is unknown. */
  lemma RequestRefused(filename: bytes, modeText: bytes, rest: bytes, opcode: byte)
    requires Text(filename) && (opcode == 1 || opcode == 2)
    ensures 0 !in rest ==> Decode([0, opcode] + rest) == Err(MissingNul)
    ensures 0 !in rest ==> Decode([0, opcode] + (filename + [0] + rest)) == Err(MissingNul)
    ensures Text(modeText) && ParseMode(modeText).Err? ==>
              Decode([0, opcode] + (filename + [0] + (modeText + [0] + rest))) == Err(InvalidMode(modeText))
  {
    RefusedBody([0, opcode] + rest, rest);
    RefusedBody([0, opcode] + (filename + [0] + rest), filename + [0] + rest);
    RefusedBody([0, opcode] + (filename + [0] + (modeText + [0] + rest)), filename + [0] + (modeText + [0] + rest));
    TakeCstrRefused(rest);
    TakeCstrIff(filename + [0] + rest, filename, rest);
    TakeCstrIff(filename + [0] + (modeText + [0] + rest), filename, modeText + [0] + rest);
    TakeCstrIff(modeText + [0] + rest, modeText, rest);
    ParseModeIff(modeText);
  }

  lemma RefusedBody(buf: bytes, body: bytes)
    requires |buf| >= 2 && buf[0] == 0 && (buf[1] == 1 || buf[1] == 2) && buf[2..] == body
    ensures DecodeRequest(body).Err? ==> Decode(buf) == Err(DecodeRequest(body).error)
  {
  }

  ghost predicate PairTexts(pairs: seq<Pair>) {
    forall p: Pair :: p in pairs ==> Text(p.0) && Text(p.1)
  }

  lemma {:induction false} TakePairsIff(cursor: bytes, pairs: seq<Pair>)
    ensures TakePairs(cursor) == Ok(pairs) <==> PairTexts(pairs) && cursor == PutPairs(pairs)
    decreases |cursor|
  {
    if TakePairs(cursor) == Ok(pairs) && cursor != [] {
      var name := TakeCstr(cursor).value;
      var value := TakeCstr(name.rest).value;
      TakePairsIff(value.rest, pairs[1..]);
      assert pairs == [(name.text, value.text)] + pairs[1..];
    }
    if PairTexts(pairs) && cursor == PutPairs(pairs) {
      TakePutPairs(pairs);
    }
  }

  /** The strings of a request, and what is read from them. */
  ghost predicate RequestStrings(body: bytes, q: Request, modeText: bytes, pairs: seq<Pair>) {
    && Text(q.filename) && Text(modeText) && PairTexts(pairs)
    && body == q.filename + [0] + (modeText + [0] + PutPairs(pairs))
    && ParseMode(modeText) == Ok(q.mode) && q.options == FromPairs(pairs)
  }

  lemma RequestRead(body: bytes, q: Request, modeText: bytes, pairs: seq<Pair>)
    requires RequestStrings(body, q, modeText, pairs)
    ensures DecodeRequest(body) == Ok(q)
  {
    TakeCstrIff(body, q.filename, modeText + [0] + PutPairs(pairs));
    TakeCstrIff(modeText + [0] + PutPairs(pairs), modeText, PutPairs(pairs));
    TakePairsIff(PutPairs(pairs), pairs);
  }

  lemma RequestReadFrom(body: bytes, q: Request) returns (modeText: bytes, pairs: seq<Pair>)
    requires DecodeRequest(body) == Ok(q)
    ensures RequestStrings(body, q, modeText, pairs)
  {
    var filename := TakeCstr(body).value;
    var mode := TakeCstr(filename.rest).value;
    modeText, pairs := mode.text, TakePairs(mode.rest).value;
    TakeCstrIff(body, filename.text, filename.rest);
    TakeCstrIff(filename.rest, mode.text, mode.rest);
    TakePairsIff(mode.rest, pairs);
  }

  /** Exactly which bytes are a request, and for what: a file name, the name of a mode in any case,
      and name and value strings, each followed by NUL. */
  lemma RequestIff(buf: bytes, q: Request)
    ensures Decode(buf) == Ok(Rrq(q.filename, q.mode, q.options)) <==>
            |buf| >= 2 && buf[..2] == [0, 1] && exists modeText: bytes, pairs: seq<Pair> :: RequestStrings(buf[2..], q, modeText, pairs)
    ensures Decode(buf) == Ok(Wrq(q.filename, q.mode, q.options)) <==>
            |buf| >= 2 && buf[..2] == [0, 2] && exists modeText: bytes, pairs: seq<Pair> :: RequestStrings(buf[2..], q, modeText, pairs)
  {
    if |buf| >= 2 {
      if DecodeRequest(buf[2..]) == Ok(q) {
        var modeText, pairs := RequestReadFrom(buf[2..], q);
      }
      if modeText: bytes, pairs: seq<Pair> :| RequestStrings(buf[2..], q, modeText, pairs) {
        RequestRead(buf[2..], q, modeText, pairs);
      }
      RequestByOpcode(buf, q);
    }
  }

  lemma RequestByOpcode(buf: bytes, q: Request)
    requires |buf| >= 2
    ensures Decode(buf) == Ok(Rrq(q.filename, q.mode, q.options)) <==> buf[..2] == [0, 1] && DecodeRequest(buf[2..]) == Ok(q)
    ensures Decode(buf) == Ok(Wrq(q.filename, q.mode, q.options)) <==> buf[..2] == [0, 2] && DecodeRequest(buf[2..]) == Ok(q)
  {
    DatagramKinds(buf);
    assert buf[..2] == [buf[0], buf[1]];
  }

  /** Exactly which bytes are an OACK. */
  lemma OackIff(buf: bytes, options: seq<OptionValue>)
    ensures Decode(buf) == Ok(Oack(options)) <==>
            |buf| >= 2 && buf[..2] == [0, 6] && exists pairs: seq<Pair> ::
              PairTexts(pairs) && buf[2..] == PutPairs(pairs) && options == FromPairs(pairs)
  {
    if |buf| >= 2 {
      DatagramKinds(buf);
      assert buf[..2] == [buf[0], buf[1]];
      if TakePairs(buf[2..]).Ok? {
        TakePairsIff(buf[2..], TakePairs(buf[2..]).value);
      }
      if pairs: seq<Pair> :| PairTexts(pairs) && buf[2..] == PutPairs(pairs) && options == FromPairs(pairs) {
        TakePairsIff(buf[2..], pairs);
      }
    }
  }

  /** Exactly which bytes are an ERROR: a code of which only 1 to 8 are known, a text, and NUL;
      what follows is ignored. */
  lemma ErrorIff(buf: bytes, code: ErrorCode, msg: bytes)
    ensures Decode(buf) == Ok(ErrorPacket(code, msg)) <==>
            && |buf| >= 5 && buf[..2] == [0, 5]
            && code == (if buf[2] == 0 && buf[3] <= 8 then CODES[buf[3]] else NotDefined)
            && Text(msg) && exists rest: bytes :: buf[4..] == msg + [0] + rest
  {
    if |buf| >= 5 {
      DatagramKinds(buf);
      assert buf[..2] == [buf[0], buf[1]];
      assert buf[2..][2..] == buf[4..] && buf[2..][0] == buf[2] && buf[2..][1] == buf[3];
      if TakeCstr(buf[4..]).Ok? {
        TakeCstrIff(buf[4..], TakeCstr(buf[4..]).value.text, TakeCstr(buf[4..]).value.rest);
      }
      if rest: bytes :| buf[4..] == msg + [0] + rest {
        TakeCstrIff(buf[4..], msg, rest);
      }
      CodesKnown(buf[2], buf[3]);
    }
  }

  lemma CodesKnown(hi: byte, lo: byte)
    ensures CodeOf(GetU16(hi, lo)) == if hi == 0 && lo <= 8 then CODES[lo] else NotDefined
  {
  }
}
