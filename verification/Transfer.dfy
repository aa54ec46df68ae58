/** The two ends of a data transfer as step functions on what they hear: one datagram or one
    timeout. `base`, `sent` and `got` are absolute counts; everything the peers compare on the wire
    is a 16-bit number. */
module Transfer {
  import opened Basics
  import Blocks
  import Netascii
  import opened Window

  /** The agreed parameters of a transfer and the blocks the sender will produce. */
  datatype Setup = Setup(
    blocks: seq<bytes>,
    size: nat,
    window: u16,
    netascii: bool,
    sendRetries: nat,
    recvRetries: nat)

  ghost predicate Usable(c: Setup) {
    && c.size > 0
    && c.window > 0
    && Blocks.Shaped(c.blocks, c.size)
  }

  /** What one end reads from its socket, after decoding. */
  datatype Input =
    | Timeout
    | GotAck(number: u16)
    | GotData(number: u16, payload: bytes)
    | GotError
    | GotOther

  datatype Status = Running | Done | TimedOut | Failed

  // ---------- sender ----------

  /** `base` blocks are acknowledged, blocks `base .. sent` are in flight. */
  datatype SenderState = SenderState(base: nat, sent: nat, attempt: nat, status: Status)

  function SenderStart(c: Setup): SenderState {
    SenderState(0, Min(c.window, |c.blocks|), 0, Running)
  }

  function SenderOnAck(c: Setup, s: SenderState, number: u16): SenderState
    requires s.base <= s.sent
  {
    var k := Popped(WrapSub(number, BlockNumber(s.base)), s.sent - s.base, c.window);
    if k == 0 then s
    else
      var base := s.base + k;
      var sent := Min(base + c.window, |c.blocks|);
      SenderState(base, Max(base, sent), 0, if sent <= base then Done else Running)
  }

  function SenderStep(c: Setup, s: SenderState, input: Input): (s': SenderState)
    requires s.base <= s.sent
    ensures s'.base <= s'.sent
  {
    if s.status != Running then s
    else
      match input
      case Timeout =>
        if s.attempt >= c.sendRetries then s.(status := TimedOut) else s.(attempt := s.attempt + 1)
      case GotAck(number) => SenderOnAck(c, s, number)
      case GotError => s.(status := Failed)
      case _ => s
  }

  ghost predicate SenderOk(c: Setup, s: SenderState) {
    && s.base <= s.sent == Min(s.base + c.window, |c.blocks|)
    && (s.status == Done <==> s.base == |c.blocks|)
    && s.attempt <= c.sendRetries
  }

  // ---------- receiver ----------

  /** `got` blocks were accepted; `disk` holds the bytes written and the decoder's carry. */
  datatype ReceiverState = ReceiverState(
    got: nat,
    next: u16,
    inWindow: nat,
    lastAcked: u16,
    attempt: nat,
    disk: Netascii.Decoder,
    status: Status)

  /** The state after a step and the acknowledgements it sent. */
  datatype Reply = Reply(state: ReceiverState, acks: seq<u16>)

  function ReceiverStart(): ReceiverState {
    ReceiverState(0, 1, 0, 0, 0, Netascii.START, Running)
  }

  function Write(c: Setup, disk: Netascii.Decoder, payload: bytes): Netascii.Decoder {
    if c.netascii then Netascii.Decode(disk, payload)
    else Netascii.Decoder(disk.out + payload, disk.pendingCr)
  }

  function Close(disk: Netascii.Decoder): Netascii.Decoder {
    Netascii.Decoder(Netascii.Finish(disk), false)
  }

  /** The expected block is written and counted. */
  function Accepted(c: Setup, r: ReceiverState, number: u16, payload: bytes): ReceiverState {
    r.(got := r.got + 1, next := WrapAdd(r.next, 1), lastAcked := number, attempt := 0,
       inWindow := r.inWindow + 1, disk := Write(c, r.disk, payload))
  }

  function ReceiverOnData(c: Setup, r: ReceiverState, number: u16, payload: bytes): Reply {
    if number == r.next then
      var accepted := Accepted(c, r, number, payload);
      if |payload| < c.size then
        Reply(accepted.(disk := Close(accepted.disk), status := Done), [number])
      else if r.inWindow + 1 >= c.window then
        Reply(accepted.(inWindow := 0), [number])
      else
        Reply(accepted, [])
    else
      Reply(r.(attempt := 0, inWindow := 0), [r.lastAcked])
  }

  function ReceiverStep(c: Setup, r: ReceiverState, input: Input): Reply {
    if r.status != Running then Reply(r, [])
    else
      match input
      case Timeout =>
        if r.attempt >= c.recvRetries then Reply(r.(status := TimedOut), [])
        else Reply(r.(attempt := r.attempt + 1), [r.lastAcked])
      case GotData(number, payload) => ReceiverOnData(c, r, number, payload)
      case GotError => Reply(r.(status := Failed), [])
      case _ => Reply(r, [])
  }

  /** Holds after every sequence of inputs, whatever they are: the expected number follows the
      acknowledged one, and the window counter stays below the window (so it cannot overflow). */
  ghost predicate Consistent(c: Setup, r: ReceiverState) {
    && r.next == BlockNumber(r.got)
    && r.lastAcked == AckNumber(r.got)
    && r.inWindow <= c.window
    && (r.status == Running ==> r.inWindow < c.window)
    && r.inWindow <= r.got
    && r.attempt <= c.recvRetries
    && (!c.netascii ==> !r.disk.pendingCr)
  }

  lemma ConsistentStep(c: Setup, r: ReceiverState, input: Input)
    requires c.window > 0 && Consistent(c, r)
    ensures Consistent(c, ReceiverStep(c, r, input).state)
    ensures forall a :: a in ReceiverStep(c, r, input).acks ==>
              a == AckNumber(ReceiverStep(c, r, input).state.got)
  {
    if r.status == Running && input.GotData? && input.number == r.next {
      AcceptedConsistent(c, r, input.number, input.payload);
    }
  }

  lemma AcceptedConsistent(c: Setup, r: ReceiverState, number: u16, payload: bytes)
    requires c.window > 0 && Consistent(c, r) && r.status == Running && number == r.next
    ensures Consistent(c, Accepted(c, r, number, payload).(status := Done))
    ensures number == AckNumber(r.got + 1)
  {
  }

  // ---------- what the disk holds ----------

  /** The bytes and carry that result from exactly the first `count` blocks of the source. */
  function Written(c: Setup, count: nat): Netascii.Decoder
    requires count <= |c.blocks|
  {
    if c.netascii then Netascii.DecodeBlocks(Netascii.START, c.blocks[..count])
    else Netascii.Decoder(Blocks.Flatten(c.blocks[..count]), false)
  }

  lemma WrittenNext(c: Setup, count: nat)
    requires count < |c.blocks|
    ensures Written(c, count + 1) == Write(c, Written(c, count), c.blocks[count])
  {
    assert c.blocks[..count + 1][..count] == c.blocks[..count];
  }

  /** After a complete transfer the disk holds the file, in octet and in netascii mode. */
  lemma WrittenAll(c: Setup, file: bytes)
    requires Blocks.Flatten(c.blocks) == if c.netascii then Netascii.Encode(file) else file
    ensures Close(Written(c, |c.blocks|)).out == file
  {
    assert c.blocks[..|c.blocks|] == c.blocks;
    if c.netascii {
      Blocks.NetasciiRoundTrip(file, c.blocks);
    }
  }
}
