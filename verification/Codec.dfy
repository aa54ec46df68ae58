/** The packet encoder and decoder as they run: an append-only output buffer, a cursor that moves
    past one string at a time, and a loop that collects option pairs. */
module Codec {
  import opened Basics
  import opened Options
  import opened Packets
  import Utf8

  class BytesMut {
    var data: bytes

    constructor ()
      ensures data == []
    {
      data := [];
    }

    method PutBe16(n: u16)
      modifies this
      ensures data == old(data) + PutU16(n)
    {
      data := data + PutU16(n);
    }

    method PutSlice(s: bytes)
      modifies this
      ensures data == old(data) + s
    {
      data := data + s;
    }

    method PutCstr(s: bytes)
      modifies this
      ensures data == old(data) + Cstr(s)
    {
      PutSlice(s);
      PutSlice([0]);
      assert data == old(data) + Cstr(s);
    }
  }

  lemma PutPairsAt(pairs: seq<Pair>, i: nat, data: bytes)
    requires i < |pairs|
    ensures data + PutPairs(pairs[i..]) == ((data + Cstr(pairs[i].0)) + Cstr(pairs[i].1)) + PutPairs(pairs[i + 1..])
  {
    assert pairs[i..][1..] == pairs[i + 1..];
    Assoc(data, Cstr(pairs[i].0), Cstr(pairs[i].1), PutPairs(pairs[i + 1..]));
  }

  method PutOptions(options: seq<OptionValue>, out: BytesMut)
    modifies out
    ensures out.data == old(out.data) + PutPairs(ToPairs(options))
  {
    ghost var pairs := ToPairs(options);
    for i := 0 to |options|
      invariant out.data + PutPairs(pairs[i..]) == old(out.data) + PutPairs(pairs)
    {
      PutPairsAt(pairs, i, out.data);
      out.PutCstr(Name(options[i]));
      out.PutCstr(ValueString(options[i]));
    }
    assert pairs[|options|..] == [];
  }

  method PutRequest(opcode: u16, filename: bytes, mode: Mode, options: seq<OptionValue>, out: BytesMut)
    modifies out
    ensures out.data == old(out.data) + EncodeRequest(opcode, filename, mode, options)
  {
    FiveParts(out.data, PutU16(opcode), Cstr(filename), Cstr(ModeName(mode)), PutPairs(ToPairs(options)));
    out.PutBe16(opcode);
    out.PutCstr(filename);
    out.PutCstr(ModeName(mode));
    PutOptions(options, out);
  }

  /** Appends a packet to `out`. */
  method EncodeInto(p: Packet, out: BytesMut)
    modifies out
    ensures out.data == old(out.data) + Encode(p)
  {
    match p
    case Rrq(filename, mode, options) => PutRequest(RRQ, filename, mode, options, out);
    case Wrq(filename, mode, options) => PutRequest(WRQ, filename, mode, options, out);
    case Data(block, data) =>
      Assoc(out.data, PutU16(DATA), PutU16(block), data);
      out.PutBe16(DATA);
      out.PutBe16(block);
      out.PutSlice(data);
    case Ack(block) =>
      Assoc(out.data, PutU16(ACK), PutU16(block), []);
      out.PutBe16(ACK);
      out.PutBe16(block);
    case ErrorPacket(code, msg) =>
      Assoc(out.data, PutU16(ERROR), PutU16(CodeNumber(code)), Cstr(msg));
      out.PutBe16(ERROR);
      out.PutBe16(CodeNumber(code));
      out.PutCstr(msg);
    case Oack(options) =>
      Assoc(out.data, PutU16(OACK), PutPairs(ToPairs(options)), []);
      out.PutBe16(OACK);
      PutOptions(options, out);
  }

  lemma Assoc(a: bytes, b: bytes, c: bytes, d: bytes)
    ensures ((a + b) + c) + d == a + (b + (c + d))
    ensures (a + b) + c == a + (b + c)
  {
  }

  lemma FiveParts(a: bytes, b: bytes, c: bytes, d: bytes, e: bytes)
    ensures (((a + b) + c) + d) + e == a + (b + (c + (d + e)))
  {
    Assoc(a + b, c, d, e);
    Assoc(a, b, c, d + e);
  }

  /** The bytes of one packet in a fresh buffer. */
  method EncodeFresh(p: Packet) returns (datagram: bytes)
    ensures datagram == Encode(p)
  {
    var out := new BytesMut();
    EncodeInto(p, out);
    datagram := out.data;
  }

  /** Reads one NUL-terminated string; the cursor moves only when that succeeds. */
  method TakeString(cursor: bytes) returns (r: Result<bytes, Error>, rest: bytes)
    ensures match TakeCstr(cursor)
            case Ok(taken) => r == Ok(taken.text) && rest == taken.rest
            case Err(e) => r == Err(e) && rest == cursor
  {
    var nul := 0;
    while nul < |cursor| && cursor[nul] != 0
      invariant 0 <= nul <= |cursor|
      invariant forall j :: 0 <= j < nul ==> cursor[j] != 0
    {
      nul := nul + 1;
    }
    rest := cursor;
    assert NulIndex(cursor) == nul;
    if nul == |cursor| {
      return Err(MissingNul), rest;
    }
    if !Utf8.Valid(cursor[..nul]) {
      return Err(InvalidUtf8), rest;
    }
    rest := cursor[nul + 1..];
    r := Ok(cursor[..nul]);
  }

  /** The decoder's loop over name and value strings. */
  method TakeAllPairs(body: bytes) returns (r: Result<seq<Pair>, Error>)
    ensures r == TakePairs(body)
  {
    var cursor := body;
    var pairs: seq<Pair> := [];
    PrefixedNone(TakePairs(cursor));
    while cursor != []
      invariant TakePairs(body) == Prefixed(pairs, TakePairs(cursor))
      decreases |cursor|
    {
      var name, value, afterName;
      ghost var before := cursor;
      name, afterName := TakeString(cursor);
      if name.Err? {
        return Err(name.error);
      }
      value, cursor := TakeString(afterName);
      if value.Err? {
        return Err(value.error);
      }
      TakePairsStep(before, Taken(name.value, afterName), Taken(value.value, cursor));
      PrefixedTwice(pairs, [(name.value, value.value)], TakePairs(cursor));
      pairs := pairs + [(name.value, value.value)];
    }
    r := Ok(pairs);
    assert pairs + [] == pairs;
  }

  lemma PrefixedNone(r: Result<seq<Pair>, Error>)
    ensures Prefixed([], r) == r
  {
    if r.Ok? {
      assert [] + r.value == r.value;
    }
  }

  lemma TakePairsStep(cursor: bytes, name: Taken, value: Taken)
    requires cursor != [] && TakeCstr(cursor) == Ok(name) && TakeCstr(name.rest) == Ok(value)
    ensures TakePairs(cursor) == Prefixed([(name.text, value.text)], TakePairs(value.rest))
  {
  }

  ghost function Prefixed(pairs: seq<Pair>, r: Result<seq<Pair>, Error>): Result<seq<Pair>, Error> {
    if r.Ok? then Ok(pairs + r.value) else r
  }

  lemma PrefixedTwice(a: seq<Pair>, b: seq<Pair>, r: Result<seq<Pair>, Error>)
    ensures Prefixed(a, Prefixed(b, r)) == Prefixed(a + b, r)
  {
    if r.Ok? {
      assert a + (b + r.value) == (a + b) + r.value;
    }
  }

  method TakeRequest(body: bytes) returns (r: Result<Request, Error>)
    ensures r == DecodeRequest(body)
  {
    var filename, modeText, cursor;
    filename, cursor := TakeString(body);
    if filename.Err? {
      return Err(filename.error);
    }
    modeText, cursor := TakeString(cursor);
    if modeText.Err? {
      return Err(modeText.error);
    }
    var mode := ParseMode(modeText.value);
    if mode.Err? {
      return Err(mode.error);
    }
    var pairs := TakeAllPairs(cursor);
    if pairs.Err? {
      return Err(pairs.error);
    }
    var options := new OptionSet.OfPairs(pairs.value);
    r := Ok(Request(filename.value, mode.value, options.items));
  }

  /** Decodes one datagram. */
  method DecodeDatagram(buf: bytes) returns (r: Result<Packet, Error>)
    ensures r == Decode(buf)
  {
    if |buf| < 2 {
      return Err(Malformed);
    }
    var opcode := GetU16(buf[0], buf[1]);
    var body := buf[2..];
    if opcode == RRQ || opcode == WRQ {
      var q := TakeRequest(body);
      if q.Err? {
        return Err(q.error);
      }
      var v := q.value;
      r := Ok(if opcode == RRQ then Rrq(v.filename, v.mode, v.options) else Wrq(v.filename, v.mode, v.options));
    } else if opcode == DATA {
      r := DecodeData(body);
    } else if opcode == ACK {
      r := DecodeAck(body);
    } else if opcode == ERROR {
      r := DecodeError(body);
    } else if opcode == OACK {
      var pairs := TakeAllPairs(body);
      if pairs.Err? {
        return Err(pairs.error);
      }
      var options := new OptionSet.OfPairs(pairs.value);
      r := Ok(Oack(options.items));
    } else {
      r := Err(UnknownOpcode(opcode));
    }
  }
}
