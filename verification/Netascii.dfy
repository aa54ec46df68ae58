/** Streaming netascii translation: LF travels as CR LF, CR as CR NUL, and the decoder carries
    one bit of state across the cuts between blocks. */
module Netascii {
  import opened Basics

  const LF: byte := 10
  const CR: byte := 13
  const NUL: byte := 0

  // ---------- disk to wire ----------

  function EncodeByte(b: byte): bytes {
    if b == LF then [CR, LF] else if b == CR then [CR, NUL] else [b]
  }

  function Encode(source: bytes): bytes {
    if source == [] then [] else Encode(source[..|source| - 1]) + EncodeByte(source[|source| - 1])
  }

  /** `ToWire::translate`: appends the wire form of `input` to `buffer`. */
  method ToWire(input: bytes, buffer: bytes) returns (out: bytes, consumed: nat)
    ensures out == buffer + Encode(input)
    ensures consumed == |input|
  {
    out := buffer;
    for i := 0 to |input|
      invariant out == buffer + Encode(input[..i])
    {
      var b := input[i];
      EncodeNext(buffer, input, i);
      if b == LF {
        TwoBytes(out, CR, LF);
        out := out + [CR];
        out := out + [LF];
      } else if b == CR {
        TwoBytes(out, CR, NUL);
        out := out + [CR];
        out := out + [NUL];
      } else {
        out := out + [b];
      }
    }
    assert input[..|input|] == input;
    consumed := |input|;
  }

  lemma TwoBytes(a: bytes, x: byte, y: byte)
    ensures (a + [x]) + [y] == a + [x, y]
  {
  }

  lemma EncodeNext(buffer: bytes, input: bytes, i: nat)
    requires i < |input|
    ensures buffer + Encode(input[..i + 1]) == (buffer + Encode(input[..i])) + EncodeByte(input[i])
  {
    assert input[..i + 1] == input[..i] + [input[i]];
    EncodeSnoc(input[..i], input[i]);
    Assoc(buffer, Encode(input[..i]), EncodeByte(input[i]));
  }

  lemma {:induction false} EncodeConcat(a: bytes, b: bytes)
    ensures Encode(a + b) == Encode(a) + Encode(b)
  {
    if b == [] {
      assert a + b == a;
    } else {
      var init, last := b[..|b| - 1], b[|b| - 1];
      EncodeConcat(a, init);
      assert (a + b)[..|a + b| - 1] == a + init;
      assert Encode(a + b) == Encode(a + init) + EncodeByte(last);
      assert Encode(b) == Encode(init) + EncodeByte(last);
      Assoc(Encode(a), Encode(init), EncodeByte(last));
    }
  }

  lemma Assoc(a: bytes, b: bytes, c: bytes)
    ensures (a + b) + c == a + (b + c)
  {
  }

  lemma EncodeSnoc(source: bytes, b: byte)
    ensures Encode(source + [b]) == Encode(source) + EncodeByte(b)
  {
    assert (source + [b])[..|source|] == source;
  }

  /** Every CR and every LF of the source costs exactly one extra byte on the wire. */
  lemma {:induction false} EncodedLength(source: bytes)
    ensures |Encode(source)| == |source| + multiset(source)[CR] + multiset(source)[LF]
  {
    if source != [] {
      var init, last := source[..|source| - 1], source[|source| - 1];
      EncodedLength(init);
      assert source == init + [last];
      LengthSnoc(init, last);
    }
  }

  lemma LengthSnoc(init: bytes, last: byte)
    requires |Encode(init)| == |init| + multiset(init)[CR] + multiset(init)[LF]
    ensures |Encode(init + [last])| == |init + [last]| + multiset(init + [last])[CR] + multiset(init + [last])[LF]
  {
    EncodeSnoc(init, last);
    CountSnoc(init, last, CR);
    CountSnoc(init, last, LF);
  }

  lemma CountSnoc(init: bytes, last: byte, b: byte)
    ensures multiset(init + [last])[b] == multiset(init)[b] + if last == b then 1 else 0
  {
  }

  lemma {:induction false} EncodeAtMostDoubles(source: bytes)
    ensures |source| <= |Encode(source)| <= 2 * |source|
  {
    if source != [] {
      EncodeAtMostDoubles(source[..|source| - 1]);
    }
  }

  // ---------- wire to disk ----------

  /** What the decoder has produced so far, and whether it still holds back a CR. */
  datatype Decoder = Decoder(out: bytes, pendingCr: bool)

  const START := Decoder([], false)

  function DecodeByte(d: Decoder, b: byte): Decoder {
    if d.pendingCr then
      if b == LF then Decoder(d.out + [LF], false)
      else if b == NUL then Decoder(d.out + [CR], false)
      else Decoder(d.out + [CR, b], false)
    else if b == CR then Decoder(d.out, true)
    else Decoder(d.out + [b], false)
  }

  function Decode(d: Decoder, wire: bytes): Decoder {
    if wire == [] then d else DecodeByte(Decode(d, wire[..|wire| - 1]), wire[|wire| - 1])
  }

  function Finish(d: Decoder): bytes {
    if d.pendingCr then d.out + [CR] else d.out
  }

  /** `FromWire`: the decoder object, whose only state is the carried CR. */
  class FromWire {
    var pendingCr: bool

    constructor ()
      ensures pendingCr == false
    {
      pendingCr := false;
    }

    method Translate(input: bytes, buffer: bytes) returns (out: bytes)
      modifies this
      ensures Decoder(out, pendingCr) == Decode(Decoder(buffer, old(pendingCr)), input)
    {
      out := buffer;
      for i := 0 to |input|
        invariant Decoder(out, pendingCr) == Decode(Decoder(buffer, old(pendingCr)), input[..i])
      {
        var b := input[i];
        assert input[..i + 1][..i] == input[..i];
        if pendingCr {
          pendingCr := false;
          if b == LF {
            out := out + [LF];
          } else if b == NUL {
            out := out + [CR];
          } else {
            out := out + [CR, b];
          }
        } else if b == CR {
          pendingCr := true;
        } else {
          out := out + [b];
        }
      }
      assert input[..|input|] == input;
    }

    method FinishInto(buffer: bytes) returns (out: bytes)
      modifies this
      ensures out == Finish(Decoder(buffer, old(pendingCr)))
      ensures !pendingCr
    {
      out := buffer;
      if pendingCr {
        pendingCr := false;
        out := out + [CR];
      }
    }
  }

  /** Streaming: decoding in two pieces is decoding the concatenation. */
  lemma {:induction false} DecodeConcat(d: Decoder, a: bytes, b: bytes)
    ensures Decode(d, a + b) == Decode(Decode(d, a), b)
  {
    if b == [] {
      assert a + b == a;
    } else {
      var b' := b[..|b| - 1];
      DecodeConcat(d, a, b');
      assert (a + b)[..|a + b| - 1] == a + b';
    }
  }

  /** Output already written never influences what is written next. */
  lemma {:induction false} DecodeAppends(d: Decoder, wire: bytes)
    ensures Decode(d, wire) ==
            Decoder(d.out + Decode(Decoder([], d.pendingCr), wire).out,
                    Decode(Decoder([], d.pendingCr), wire).pendingCr)
  {
    if wire == [] {
      assert d.out + [] == d.out;
    } else {
      DecodeAppends(d, wire[..|wire| - 1]);
    }
  }

  /** The decoder fed with the blocks of a transfer one after the other. */
  function DecodeBlocks(d: Decoder, blocks: seq<bytes>): Decoder {
    if blocks == [] then d else Decode(DecodeBlocks(d, blocks[..|blocks| - 1]), blocks[|blocks| - 1])
  }

  lemma DecodeOne(d: Decoder, b: byte)
    ensures Decode(d, [b]) == DecodeByte(d, b)
  {
    assert [b][..0] == [];
    assert Decode(d, [b]) == DecodeByte(Decode(d, [b][..0]), b);
  }

  lemma DecodeTwo(d: Decoder, a: byte, b: byte)
    ensures Decode(d, [a, b]) == DecodeByte(DecodeByte(d, a), b)
  {
    DecodeOne(d, a);
    assert [a, b][..1] == [a];
  }

  lemma DecodeEncodedByte(source: bytes, b: byte)
    ensures Decode(Decoder(source, false), EncodeByte(b)) == Decoder(source + [b], false)
  {
    var d := Decoder(source, false);
    if b == LF {
      DecodeTwo(d, CR, LF);
    } else if b == CR {
      DecodeTwo(d, CR, NUL);
    } else {
      DecodeOne(d, b);
    }
  }

  lemma {:induction false} RoundTripWhole(source: bytes)
    ensures Decode(START, Encode(source)) == Decoder(source, false)
  {
    if source != [] {
      var init, last := source[..|source| - 1], source[|source| - 1];
      RoundTripWhole(init);
      assert source == init + [last];
      RoundTripSnoc(init, last);
    }
  }

  lemma RoundTripSnoc(init: bytes, last: byte)
    requires Decode(START, Encode(init)) == Decoder(init, false)
    ensures Decode(START, Encode(init + [last])) == Decoder(init + [last], false)
  {
    EncodeSnoc(init, last);
    DecodeConcat(START, Encode(init), EncodeByte(last));
    DecodeEncodedByte(init, last);
  }

  // ---------- what the decoder makes of any wire string ----------

  /** The text a wire string stands for, read from the front: CR LF is a line end, CR NUL a CR, a
      CR before anything else and a CR at the very end stand for themselves. */
  function Reading(wire: bytes): bytes {
    if wire == [] then []
    else if wire[0] != 13 then [wire[0]] + Reading(wire[1..])
    else if |wire| == 1 then [13]
    else if wire[1] == 10 then [10] + Reading(wire[2..])
    else if wire[1] == 0 then [13] + Reading(wire[2..])
    else [13, wire[1]] + Reading(wire[2..])
  }

  /** Decoding what follows a completed piece. */
  lemma DecodeAfter(head: bytes, text: bytes, rest: bytes)
    requires Decode(START, head) == Decoder(text, false)
    ensures Finish(Decode(START, head + rest)) == text + Finish(Decode(START, rest))
  {
    DecodeConcat(START, head, rest);
    DecodeAppends(Decoder(text, false), rest);
    var tail := Decode(START, rest);
    assert (text + tail.out) + [CR] == text + (tail.out + [CR]);
  }

  /** The streaming decoder reads every string that way, canonical or not. */
  lemma {:induction false} DecodeIsReading(wire: bytes)
    ensures Finish(Decode(START, wire)) == Reading(wire)
  {
    if wire == [] {
    } else if wire[0] != 13 || |wire| == 1 {
      DecodeOne(START, wire[0]);
      assert wire == [wire[0]] + wire[1..];
      if wire[0] != 13 {
        DecodeIsReading(wire[1..]);
        DecodeAfter([wire[0]], [wire[0]], wire[1..]);
      }
    } else {
      var text := if wire[1] == 10 then [10] else if wire[1] == 0 then [13] else [13, wire[1]];
      DecodeTwo(START, wire[0], wire[1]);
      DecodeIsReading(wire[2..]);
      DecodeAfter([wire[0], wire[1]], text, wire[2..]);
      assert wire == [wire[0], wire[1]] + wire[2..];
    }
  }

  // ---------- which wire strings are encodings ----------

  /** Every CR is followed by LF or NUL and every LF is preceded by CR; a CR in last position is
      let through, because the next block may complete it. */
  ghost predicate CanonicalSoFar(wire: bytes) {
    forall i {:trigger wire[i]} :: 0 <= i < |wire| ==>
      && (wire[i] == CR && i + 1 < |wire| ==> wire[i + 1] == LF || wire[i + 1] == NUL)
      && (wire[i] == LF ==> i > 0 && wire[i - 1] == CR)
  }

  ghost predicate Canonical(wire: bytes) {
    CanonicalSoFar(wire) && (wire != [] ==> wire[|wire| - 1] != CR)
  }

  lemma {:induction false} EncodeIsCanonical(source: bytes)
    ensures Canonical(Encode(source))
  {
    if source != [] {
      EncodeIsCanonical(source[..|source| - 1]);
    }
  }

  lemma CanonicalInit(wire: bytes)
    requires CanonicalSoFar(wire) && wire != []
    ensures CanonicalSoFar(wire[..|wire| - 1])
  {
    var init := wire[..|wire| - 1];
    forall i {:trigger init[i]} | 0 <= i < |init|
      ensures init[i] == CR && i + 1 < |init| ==> init[i + 1] == LF || init[i + 1] == NUL
      ensures init[i] == LF ==> i > 0 && init[i - 1] == CR
    {
      assert init[i] == wire[i];
    }
  }

  /** `wire` is what `d` decodes, a held-back CR included. */
  ghost predicate Accounts(d: Decoder, wire: bytes) {
    wire == if d.pendingCr then Encode(d.out) + [CR] else Encode(d.out)
  }

  lemma {:induction false} ReencodeCanonical(wire: bytes)
    requires CanonicalSoFar(wire)
    ensures Accounts(Decode(START, wire), wire)
    ensures Decode(START, wire).pendingCr <==> wire != [] && wire[|wire| - 1] == CR
  {
    if wire != [] {
      var init, b := wire[..|wire| - 1], wire[|wire| - 1];
      CanonicalInit(wire);
      ReencodeCanonical(init);
      assert wire == init + [b];
      var d := Decode(START, init);
      if d.pendingCr {
        assert wire[|init| - 1] == CR;
        ReencodeAfterCr(d, init, b);
      } else {
        ReencodePlain(d, init, b);
      }
    }
  }

  lemma ReencodeAfterCr(d: Decoder, init: bytes, b: byte)
    requires d.pendingCr && Accounts(d, init) && (b == LF || b == NUL)
    ensures Accounts(DecodeByte(d, b), init + [b]) && !DecodeByte(d, b).pendingCr
  {
    var c := if b == NUL then CR else LF;
    EncodeSnoc(d.out, c);
    Assoc(Encode(d.out), [CR], [b]);
    assert [CR] + [b] == EncodeByte(c);
  }

  lemma ReencodePlain(d: Decoder, init: bytes, b: byte)
    requires !d.pendingCr && Accounts(d, init) && b != LF
    ensures Accounts(DecodeByte(d, b), init + [b]) && (DecodeByte(d, b).pendingCr <==> b == CR)
  {
    EncodeSnoc(d.out, b);
  }

  /** Decoding loses nothing exactly on canonical wire strings: re-encoding what was decoded
      gives the wire string back if and only if that string is canonical. */
  lemma ReencodeIffCanonical(wire: bytes)
    ensures Encode(Finish(Decode(START, wire))) == wire <==> Canonical(wire)
  {
    EncodeIsCanonical(Finish(Decode(START, wire)));
    if Canonical(wire) {
      ReencodeCanonical(wire);
    }
  }
}
