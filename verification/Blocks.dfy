/** Cutting a byte string into TFTP blocks: full blocks, then one strictly shorter, possibly
    empty, block that marks the end. */
module Blocks {
  import opened Basics
  import Netascii

  function Flatten(blocks: seq<bytes>): bytes {
    if blocks == [] then [] else Flatten(blocks[..|blocks| - 1]) + blocks[|blocks| - 1]
  }

  function Split(wire: bytes, size: nat): seq<bytes>
    requires size > 0
  {
    if |wire| < size then [wire] else [wire[..size]] + Split(wire[size..], size)
  }

  /** What a receiver relies on: only the last block is short. */
  ghost predicate Shaped(blocks: seq<bytes>, size: nat) {
    && |blocks| > 0
    && (forall i :: 0 <= i < |blocks| - 1 ==> |blocks[i]| == size)
    && |blocks[|blocks| - 1]| < size
  }

  lemma {:induction false} FlattenConcat(a: seq<bytes>, b: seq<bytes>)
    ensures Flatten(a + b) == Flatten(a) + Flatten(b)
  {
    if b == [] {
      assert a + b == a;
    } else {
      var b' := b[..|b| - 1];
      FlattenConcat(a, b');
      assert (a + b)[..|a + b| - 1] == a + b';
    }
  }

  lemma FlattenNext(blocks: seq<bytes>, k: nat)
    requires k < |blocks|
    ensures Flatten(blocks[..k + 1]) == Flatten(blocks[..k]) + blocks[k]
  {
    assert blocks[..k + 1][..k] == blocks[..k];
  }

  lemma FlattenOne(block: bytes)
    ensures Flatten([block]) == block
  {
    assert [block][..0] == [];
  }

  lemma FlattenCons(head: bytes, tail: seq<bytes>)
    ensures Flatten([head] + tail) == head + Flatten(tail)
  {
    FlattenConcat([head], tail);
    FlattenOne(head);
  }

  /** The blocks carry the wire string and nothing else, there are `|wire| / size + 1` of them, and
      only the last is short. */
  lemma {:induction false} SplitShape(wire: bytes, size: nat)
    requires size > 0
    ensures Shaped(Split(wire, size), size)
    ensures Flatten(Split(wire, size)) == wire
    ensures |Split(wire, size)| == |wire| / size + 1
  {
    if |wire| < size {
      FlattenOne(wire);
      DivSmall(|wire|, size);
    } else {
      var rest := wire[size..];
      var tail := Split(rest, size);
      SplitShape(rest, size);
      DivStep(|wire|, size);
      ShapedCons(wire[..size], tail, size);
      assert wire == wire[..size] + rest;
      assert Flatten([wire[..size]] + tail) == wire by {
        FlattenCons(wire[..size], tail);
      }
    }
  }

  lemma ShapedCons(head: bytes, tail: seq<bytes>, size: nat)
    requires |head| == size && Shaped(tail, size)
    ensures Shaped([head] + tail, size)
  {
    var blocks := [head] + tail;
    forall i | 0 <= i < |blocks| - 1
      ensures |blocks[i]| == size
    {
      if i > 0 {
        assert blocks[i] == tail[i - 1];
      }
    }
  }

  lemma DivSmall(n: nat, d: nat)
    requires n < d
    ensures n / d == 0
  {
  }

  lemma DivStep(n: nat, d: nat)
    requires 0 < d <= n
    ensures n / d == (n - d) / d + 1
  {
    var q, r := n / d, n % d;
    assert n - d == (q - 1) * d + r;
    DivUnique(n - d, d, q - 1, r);
  }

  lemma DivUnique(n: int, d: int, q: int, r: int)
    requires d > 0 && n == q * d + r && 0 <= r < d
    ensures n / d == q
  {
    var k := n / d - q;
    assert n == (n / d) * d + n % d;
    assert k * d == r - n % d;
    MulBound(k, d);
  }

  lemma MulBound(k: int, d: int)
    requires d > 0
    ensures k >= 1 ==> k * d >= d
    ensures k <= -1 ==> k * d <= -d
  {
  }

  /** There is only one way to cut: block boundaries do not depend on how the file was read. */
  lemma {:induction false} SplitUnique(blocks: seq<bytes>, size: nat)
    requires size > 0
    requires Shaped(blocks, size)
    ensures blocks == Split(Flatten(blocks), size)
  {
    var tail := blocks[1..];
    assert blocks == [blocks[0]] + tail;
    FlattenCons(blocks[0], tail);
    if tail == [] {
      assert Flatten(blocks) == blocks[0];
    } else {
      assert Shaped(tail, size);
      SplitUnique(tail, size);
      assert Flatten(blocks)[size..] == Flatten(tail);
      assert Flatten(blocks)[..size] == blocks[0];
    }
  }

  // ---------- cutting while reading ----------

  /** `produced` blocks are cut; `rest` is what is still to come, unless the last one is out. */
  ghost predicate Remaining(blocks: seq<bytes>, size: nat, produced: nat, finished: bool, rest: bytes) {
    size > 0 &&
    if finished then produced == |blocks|
    else produced < |blocks| && Split(rest, size) == blocks[produced..]
  }

  lemma TakeFull(blocks: seq<bytes>, size: nat, produced: nat, pending: bytes, unread: bytes)
    requires Remaining(blocks, size, produced, false, pending + unread)
    requires |pending| >= size
    ensures pending[..size] == blocks[produced]
    ensures Remaining(blocks, size, produced + 1, false, pending[size..] + unread)
  {
    var rest := pending + unread;
    assert rest[..size] == pending[..size];
    assert rest[size..] == pending[size..] + unread;
    assert Split(rest, size) == [rest[..size]] + Split(rest[size..], size);
    assert blocks[produced..][0] == blocks[produced];
    assert blocks[produced..][1..] == blocks[produced + 1..];
    assert Split(rest[size..], size) == blocks[produced + 1..];
  }

  lemma TakeLast(blocks: seq<bytes>, size: nat, produced: nat, rest: bytes)
    requires Remaining(blocks, size, produced, false, rest)
    requires |rest| < size
    ensures rest == blocks[produced] && produced + 1 == |blocks|
  {
    assert blocks[produced..] == [rest];
    assert blocks[produced..][0] == blocks[produced];
  }

  /** Feeding blocks to the streaming decoder is decoding their concatenation, wherever the
      cuts fall, inside a CR LF pair included. */
  lemma {:induction false} DecodeBlocksIsDecode(d: Netascii.Decoder, blocks: seq<bytes>)
    ensures Netascii.DecodeBlocks(d, blocks) == Netascii.Decode(d, Flatten(blocks))
  {
    if blocks != [] {
      var init := blocks[..|blocks| - 1];
      DecodeBlocksIsDecode(d, init);
      Netascii.DecodeConcat(d, Flatten(init), blocks[|blocks| - 1]);
    }
  }

  /** The blocks of a transfer, well formed or not, are read as one string. */
  lemma BlocksAreRead(blocks: seq<bytes>)
    ensures Netascii.Finish(Netascii.DecodeBlocks(Netascii.START, blocks)) == Netascii.Reading(Flatten(blocks))
  {
    DecodeBlocksIsDecode(Netascii.START, blocks);
    Netascii.DecodeIsReading(Flatten(blocks));
  }

  /** Streaming netascii round trip over every partition of the wire form, cut anywhere. */
  lemma NetasciiRoundTrip(source: bytes, blocks: seq<bytes>)
    requires Flatten(blocks) == Netascii.Encode(source)
    ensures Netascii.DecodeBlocks(Netascii.START, blocks) == Netascii.Decoder(source, false)
    ensures Netascii.Finish(Netascii.DecodeBlocks(Netascii.START, blocks)) == source
  {
    DecodeBlocksIsDecode(Netascii.START, blocks);
    Netascii.RoundTripWhole(source);
  }
}
