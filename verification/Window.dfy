/** Cumulative acknowledgement over 16-bit block numbers that wrap. */
module Window {
  import opened Basics

  type Queue = seq<(u16, bytes)>

  /** Wire number of the block with zero-based position `i`. */
  function BlockNumber(i: nat): u16 {
    (i + 1) % 0x1_0000
  }

  /** Wire number of the acknowledgement a receiver sends after accepting `count` blocks. */
  function AckNumber(count: nat): u16 {
    count % 0x1_0000
  }

  /** How many blocks leave a consecutive queue of length `len` whose front lies `diff` behind the
      acknowledged number. */
  function Popped(diff: u16, len: nat, window: u16): (k: nat)
    ensures k <= len
  {
    if diff == 0 then Min(1, len) else if diff < window then Min(diff + 1, len) else 0
  }

  ghost predicate Consecutive(q: Queue) {
    forall i :: 0 <= i < |q| ==> q[i].0 == (q[0].0 + i) % 0x1_0000
  }

  /** `bn` lies strictly between `ack - window` and `ack` on the circle of block numbers. */
  predicate LeInWindow(bn: u16, ack: u16, window: u16) {
    var diff := WrapSub(ack, bn);
    diff > 0 && diff < window
  }

  function PoppedFrom(q: Queue, ack: u16, window: u16): nat {
    if q == [] then 0 else Popped(WrapSub(ack, q[0].0), |q|, window)
  }

  lemma PoppedStep(q: Queue, ack: u16, window: u16)
    requires q != [] && Consecutive(q)
    ensures Consecutive(q[1..])
    ensures LeInWindow(q[0].0, ack, window) ==> PoppedFrom(q, ack, window) == 1 + PoppedFrom(q[1..], ack, window)
  {
    var rest := q[1..];
    forall i | 0 <= i < |rest|
      ensures rest[i].0 == (rest[0].0 + i) % 0x1_0000
    {
      assert rest[i] == q[i + 1] && rest[0] == q[1];
    }
    if rest != [] {
      assert rest[0].0 == WrapAdd(q[0].0, 1);
      assert WrapSub(ack, rest[0].0) == WrapSub(WrapSub(ack, q[0].0), 1);
    }
  }

  /** The queue loop of the client: pops in closed form, and reports whether it popped. */
  method ConsumeAck(inFlight: Queue, ack: u16, window: u16) returns (rest: Queue, advanced: bool)
    requires Consecutive(inFlight)
    ensures rest == inFlight[PoppedFrom(inFlight, ack, window)..]
    ensures advanced <==> PoppedFrom(inFlight, ack, window) > 0
  {
    rest := inFlight;
    advanced := false;
    ghost var k := 0;
    while rest != []
      invariant 0 <= k <= |inFlight| && rest == inFlight[k..]
      invariant Consecutive(rest)
      invariant advanced <==> k > 0
      invariant k + PoppedFrom(rest, ack, window) == PoppedFrom(inFlight, ack, window)
      decreases |rest|
    {
      var bn := rest[0].0;
      if bn == ack {
        rest := rest[1..];
        advanced := true;
        return;
      }
      var diff := WrapSub(ack, bn);
      if diff > 0 && diff < window {
        PoppedStep(rest, ack, window);
        rest := rest[1..];
        advanced := true;
        k := k + 1;
      } else {
        break;
      }
    }
  }

  /** The server's version of the same loop. */
  method PopAcknowledged(inFlight: Queue, ack: u16, window: u16) returns (rest: Queue, advanced: bool)
    requires Consecutive(inFlight)
    ensures rest == inFlight[PoppedFrom(inFlight, ack, window)..]
    ensures advanced <==> PoppedFrom(inFlight, ack, window) > 0
  {
    rest := inFlight;
    advanced := false;
    ghost var k := 0;
    while rest != []
      invariant 0 <= k <= |inFlight| && rest == inFlight[k..]
      invariant Consecutive(rest)
      invariant advanced <==> k > 0
      invariant k + PoppedFrom(rest, ack, window) == PoppedFrom(inFlight, ack, window)
      decreases |rest|
    {
      if rest[0].0 == ack {
        rest := rest[1..];
        advanced := true;
        return;
      }
      if LeInWindow(rest[0].0, ack, window) {
        PoppedStep(rest, ack, window);
        rest := rest[1..];
        advanced := true;
        k := k + 1;
      } else {
        break;
      }
    }
  }

  /** A number inside the window pops exactly the blocks it covers. */
  lemma FreshAckPopsExactly(base: nat, sent: nat, count: nat, window: u16)
    requires base < count <= sent <= base + window
    ensures Popped(WrapSub(AckNumber(count), BlockNumber(base)), sent - base, window) == count - base
  {
    assert WrapSub(AckNumber(count), BlockNumber(base)) == count - base - 1;
  }

  /** A stale acknowledgement, fewer than 65536 blocks old, is recognised as stale if and only if it
      is at most 65536 - window blocks behind the front of the queue. */
  lemma StaleAckIgnoredIff(base: nat, sent: nat, count: nat, window: u16)
    requires count <= base < sent && base - count < 0x1_0000
    requires window > 0
    ensures Popped(WrapSub(AckNumber(count), BlockNumber(base)), sent - base, window) == 0
            <==> base + 1 - count <= 0x1_0000 - window
  {
    assert WrapSub(AckNumber(count), BlockNumber(base)) == (count - base - 1) % 0x1_0000;
  }

  /** A stale block, at most 65536 positions old, is taken for the expected one if and only if it is
      exactly 65536 positions old. */
  lemma StaleBlockAcceptedIff(index: nat, got: nat)
    requires index < got <= index + 0x1_0000
    ensures BlockNumber(index) == BlockNumber(got) <==> got == index + 0x1_0000
  {
  }

  /** Within a window no two blocks share a number. */
  lemma NumbersDistinct(base: nat, i: nat, j: nat, window: u16)
    requires base <= i < base + window && base <= j < base + window
    ensures BlockNumber(i) == BlockNumber(j) <==> i == j
  {
  }

  /** Positions less than 65536 apart have the same number only if they are the same. */
  lemma SameNumberIff(i: nat, j: nat)
    requires i < j + 0x1_0000 && j < i + 0x1_0000
    ensures BlockNumber(i) == BlockNumber(j) <==> i == j
  {
  }
}
