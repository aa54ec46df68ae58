/** The server's two transfer loops as they run, proved against the step functions. */
module Server {
  import opened Basics
  import opened Window
  import opened Transfer
  import opened Endpoints
  import opened Environment
  import Blocks
  import Codec
  import Netascii
  import opened Negotiation
  import Options
  import Packets

  method SendDatagram(sock: Socket<Event>, p: Packets.Packet)
    modifies sock
    ensures sock.outbox == old(sock.outbox) + [Packets.Encode(p)] && sock.inbox == old(sock.inbox)
  {
    var datagram := Codec.EncodeFresh(p);
    sock.Send(datagram);
  }

  lemma WireConcat(netascii: bool, chunk: bytes, left: bytes)
    ensures WireOf(netascii, chunk + left) == WireOf(netascii, chunk) + WireOf(netascii, left)
    ensures |WireOf(netascii, chunk)| <= 2 * |chunk|
  {
    Netascii.EncodeConcat(chunk, left);
    Netascii.EncodeAtMostDoubles(chunk);
  }

  /** Appends a chunk of the source to the bytes waiting to be cut, translated if need be. */
  method AppendChunk(netascii: bool, chunk: bytes, pending: bytes) returns (out: bytes)
    ensures out == pending + WireOf(netascii, chunk)
  {
    if netascii {
      var consumed;
      out, consumed := Netascii.ToWire(chunk, pending);
    } else {
      out := pending + chunk;
    }
  }

  /** The sending side of a read request. */
  class RrqSender {
    const sock: Socket<Event>
    const file: Source
    const netascii: bool
    const retries: nat
    const blksize: nat
    const windowsize: u16
    var pending: bytes
    var eof: bool
    var inFlight: Queue
    var nextBlock: u16
    var lastSentShort: bool

    ghost const setup: Setup
    ghost var base: nat
    ghost var produced: nat

    constructor (sock: Socket<Event>, file: Source, ghost setup: Setup, netascii: bool, retries: nat, blksize: nat, windowsize: u16)
      requires Usable(setup) && file.pos == 0
      requires setup.blocks == Blocks.Split(WireOf(netascii, file.content), setup.size)
      requires setup.netascii == netascii && setup.sendRetries == retries
      requires setup.size == blksize && setup.window == windowsize
      ensures Valid() && base == 0 && inFlight == []
      ensures this.sock == sock && this.file == file && this.setup == setup
    {
      this.sock, this.file, this.setup := sock, file, setup;
      this.netascii, this.retries, this.blksize, this.windowsize := netascii, retries, blksize, windowsize;
      pending, eof, inFlight, nextBlock, lastSentShort := [], false, [], 1, false;
      base, produced := 0, 0;
      new;
      assert file.content[0..] == file.content;
      assert [] + WireOf(netascii, file.content) == WireOf(netascii, file.content);
    }

    ghost function Unread(): bytes
      reads file
      requires file.pos <= |file.content|
    {
      WireOf(netascii, file.content[file.pos..])
    }

    /** The chunker: `pending` and the unread part of the file are the blocks still to be cut. */
    ghost predicate Cutting()
      reads this, file
    {
      && Usable(setup) && setup.netascii == netascii && setup.sendRetries == retries
      && setup.size == blksize && setup.window == windowsize
      && file.pos <= |file.content|
      && |pending| < 2 * blksize
      && (eof ==> file.pos == |file.content|)
      && Blocks.Remaining(setup.blocks, blksize, produced, lastSentShort, pending + Unread())
    }

    ghost predicate Valid()
      reads this, file
    {
      && Cutting()
      && produced == base + |inFlight|
      && produced <= |setup.blocks|
      && inFlight == QueueOf(setup, base, produced)
      && |inFlight| <= windowsize
      && nextBlock == BlockNumber(produced)
    }

    /** Repeats the OACK until ACK(0) arrives. */
    method SendOackAndWaitAck0(oack: seq<Options.OptionValue>) returns (result: Await)
      modifies sock
      ensures var end := AwaitRun(retries, 0, old(sock.inbox));
              && result == end.result && sock.inbox == end.rest
              && sock.outbox == old(sock.outbox) + Repeated(Packets.Encode(Packets.Oack(oack)), end.sends)
    {
      result := Waiting(0);
      ghost var datagram := Packets.Encode(Packets.Oack(oack));
      ghost var sent, oacks := 0, Repeated(datagram, 0);
      ghost var end := AwaitRun(retries, 0, sock.inbox);
      while result.Waiting?
        invariant result.Waiting? ==> end == LaterBy(AwaitRun(retries, result.attempt, sock.inbox), sent)
        invariant !result.Waiting? ==> end == Awaited(result, sent, sock.inbox)
        invariant oacks == Repeated(datagram, sent) && sock.outbox == old(sock.outbox) + oacks
        decreases |sock.inbox|, result.Waiting?
      {
        RepeatedMore(datagram, sent);
        var next := SendOackOnce(oack, result.attempt, end, sent);
        sent, oacks := sent + 1, oacks + [datagram];
        if next == None {
          return;
        }
        result := next.value;
      }
    }

    /** One attempt: send the OACK, wait once; `None` if there is nothing left to hear. */
    method SendOackOnce(oack: seq<Options.OptionValue>, attempt: nat, ghost end: Awaited, ghost sent: nat) returns (next: Option<Await>)
      requires end == LaterBy(AwaitRun(retries, attempt, sock.inbox), sent)
      modifies sock
      ensures sock.outbox == old(sock.outbox) + [Packets.Encode(Packets.Oack(oack))]
      ensures next == None ==> end == Awaited(Waiting(attempt), sent + 1, sock.inbox)
      ensures next.Some? ==>
                && |sock.inbox| < |old(sock.inbox)|
                && end == if next.value.Waiting? then LaterBy(AwaitRun(retries, next.value.attempt, sock.inbox), sent + 1)
                          else Awaited(next.value, sent + 1, sock.inbox)
    {
      AwaitUnfolds(retries, attempt, sock.inbox, sent);
      SendDatagram(sock, Packets.Oack(oack));
      var e := sock.Receive();
      if e == None {
        return None;
      }
      var input := Interpret(e.value);
      next := Some(AwaitHears(retries, attempt, input));
    }

    /** Reads, however little at a time, until a block is full or the file ends. */
    method FillPending()
      requires Cutting() && !lastSentShort
      modifies this`pending, this`eof, file
      ensures file.pos <= |file.content| && pending + Unread() == old(pending + Unread())
      ensures |pending| < 3 * blksize && (eof ==> file.pos == |file.content|)
      ensures |pending| >= blksize || eof
    {
      while |pending| < blksize && !eof
        invariant file.pos <= |file.content|
        invariant pending + Unread() == old(pending + Unread())
        invariant |pending| < 3 * blksize
        invariant eof ==> file.pos == |file.content|
        decreases |file.content| - file.pos, !eof
      {
        ghost var before, unread := pending, file.content[file.pos..];
        var chunk := file.Read(blksize);
        if chunk == [] {
          eof := true;
          break;
        }
        ghost var left := file.content[file.pos..];
        assert unread == chunk + left;
        WireConcat(netascii, chunk, left);
        Netascii.Assoc(before, WireOf(netascii, chunk), WireOf(netascii, left));
        pending := AppendChunk(netascii, chunk, pending);
      }
    }

    /** Cuts one block: the next one of the unique division of the encoded file, however short the
        reads were. */
    method ReadOneBlock() returns (block: Option<bytes>)
      requires Cutting()
      modifies this`pending, this`eof, this`lastSentShort, this`produced, file
      ensures Cutting()
      ensures old(lastSentShort) ==> block == None && produced == old(produced)
      ensures !old(lastSentShort) ==> block == Some(setup.blocks[old(produced)]) && produced == old(produced) + 1
    {
      if lastSentShort {
        return None;
      }
      FillPending();
      if |pending| < blksize {
        assert pending + Unread() == pending;
        Blocks.TakeLast(setup.blocks, blksize, produced, pending);
      } else {
        Blocks.TakeFull(setup.blocks, blksize, produced, pending, Unread());
      }
      produced := produced + 1;
      if pending == [] && eof {
        lastSentShort := true;
        return Some([]);
      }
      var take := Min(|pending|, blksize);
      var cut := pending[..take];
      pending := pending[take..];
      if |cut| < blksize {
        lastSentShort := true;
      }
      block := Some(cut);
    }

    /** Queues the next block, if there is one. */
    method QueueNext() returns (more: bool)
      requires Valid() && |inFlight| < windowsize
      modifies this, file
      ensures Valid() && base == old(base)
      ensures more <==> old(produced) < |setup.blocks|
      ensures produced == if more then old(produced) + 1 else old(produced)
    {
      ghost var at := produced;
      var block := ReadOneBlock();
      if block == None {
        return false;
      }
      QueuePush(setup, base, at);
      inFlight := inFlight + [(nextBlock, block.value)];
      nextBlock := WrapAdd(nextBlock, 1);
      more := true;
    }

    /** Tops the queue up to the window, or to the end of the file. */
    method FillWindow()
      requires Valid()
      modifies this, file
      ensures Valid() && base == old(base)
      ensures produced == Max(old(produced), Min(base + windowsize, |setup.blocks|))
    {
      while |inFlight| < windowsize
        invariant Valid() && base == old(base)
        invariant produced >= old(produced)
        decreases windowsize - |inFlight|
      {
        var more := QueueNext();
        if !more {
          break;
        }
      }
    }

    method SendWindow()
      modifies sock
      ensures sock.outbox == old(sock.outbox) + WindowDatagrams(inFlight) && sock.inbox == old(sock.inbox)
    {
      for i := 0 to |inFlight|
        invariant sock.outbox == old(sock.outbox) + WindowDatagrams(inFlight)[..i]
        invariant sock.inbox == old(sock.inbox)
      {
        SendDatagram(sock, Packets.Data(inFlight[i].0, inFlight[i].1));
      }
    }

    /** Drops what a cumulative acknowledgement covers. */
    method ConsumeAck(ack: u16) returns (advanced: bool)
      requires Valid()
      modifies this`inFlight, this`base
      ensures Valid()
      ensures inFlight == old(inFlight)[PoppedFrom(old(inFlight), ack, windowsize)..]
      ensures base == old(base) + PoppedFrom(old(inFlight), ack, windowsize)
      ensures advanced <==> PoppedFrom(old(inFlight), ack, windowsize) > 0
    {
      ghost var k := PoppedFrom(inFlight, ack, windowsize);
      QueueAfterAck(setup, base, produced, inFlight, k, ack);
      inFlight, advanced := PopAcknowledged(inFlight, ack, windowsize);
      base := base + k;
    }

    /** An acknowledgement changes the queue as it changes the sender of the step function. */
    method OnAck(ack: u16, ghost attempt: nat) returns (advanced: bool)
      requires Valid() && base < produced == Min(base + windowsize, |setup.blocks|)
      modifies this`inFlight, this`base
      ensures Valid()
      ensures var s := SenderState(old(base), produced, attempt, Running);
              SenderStep(setup, s, GotAck(ack)) == if advanced then RoundStart(setup, base) else s
      ensures if advanced then base > old(base) else base == old(base)
    {
      AckConsumes(setup, base, produced, attempt, ack);
      advanced := ConsumeAck(ack);
    }

    /** Handles what one wait returned. */
    method React(input: Input, attempt: nat) returns (turn: Turn)
      requires Valid() && base < produced == Min(base + windowsize, |setup.blocks|)
      modifies this`inFlight, this`base, sock
      ensures Valid() && produced == old(produced) && sock.inbox == old(sock.inbox)
      ensures var s := SenderStep(setup, SenderState(old(base), produced, attempt, Running), input);
              && base == s.base
              && sock.outbox == old(sock.outbox) + Farewell(true, s.status)
              && match turn
                 case Stay(a) => s == SenderState(old(base), produced, a, Running)
                 case Advanced => s == RoundStart(setup, base) && base > old(base)
                 case Stop(status) => status == s.status && s.sent == produced && (status == TimedOut || status == Failed)
    {
      assert sock.outbox + [] == sock.outbox;
      match input {
        case Timeout =>
          if attempt >= retries {
            SendDatagram(sock, Packets.ErrorPacket(Packets.NotDefined, TIMED_OUT_TEXT));
            return Stop(TimedOut);
          }
          return Stay(attempt + 1);
        case GotAck(block) =>
          var advanced := OnAck(block, attempt);
          return if advanced then Advanced else Stay(attempt);
        case GotError =>
          return Stop(Failed);
        case _ =>
          return Stay(attempt);
      }
    }

    /** One turn of the inner loop: send the window, wait once, handle what came. */
    method Exchange(attempt: nat, ghost s: SenderState) returns (turn: Turn)
      requires Valid() && s == SenderState(base, produced, attempt, Running)
      requires base < produced == Min(base + windowsize, |setup.blocks|)
      modifies this`inFlight, this`base, sock
      ensures Valid() && produced == old(produced)
      ensures old(sock.inbox) == [] ==>
                turn == Stop(Running) && base == old(base) && sock.inbox == []
                && sock.outbox == old(sock.outbox) + WindowDatagrams(QueueOf(setup, s.base, s.sent))
      ensures old(sock.inbox) != [] ==>
                var s' := SenderStep(setup, s, Hear(old(sock.inbox)[0]));
                && sock.inbox == old(sock.inbox)[1..]
                && base == s'.base
                && sock.outbox == old(sock.outbox) + WindowDatagrams(QueueOf(setup, s.base, s.sent)) + Farewell(true, s'.status)
                && match turn
                   case Stay(a) => s' == SenderState(old(base), produced, a, Running)
                   case Advanced => s' == RoundStart(setup, base) && base > old(base)
                   case Stop(status) => status == s'.status && s'.sent == produced && (status == TimedOut || status == Failed)
    {
      SendWindow();
      var e := sock.Receive();
      if e == None {
        return Stop(Running);
      }
      var input := Interpret(e.value);
      turn := React(input, attempt);
    }

    /** The inner loop: repeats the window until an acknowledgement advances it or it gives up. */
    method SendUntilAdvanced(ghost first: SenderState) returns (turn: Turn)
      requires Valid() && first == SenderState(base, produced, 0, Running)
      requires base < produced == Min(base + windowsize, |setup.blocks|)
      modifies this`inFlight, this`base, sock
      ensures Valid() && produced == old(produced)
      ensures match turn
              case Stay(_) => false
              case Stop(status) =>
                && SenderRun(setup, first, old(sock.inbox)).status == status
                && SenderRun(setup, first, old(sock.inbox)).base == base
                && SenderRun(setup, first, old(sock.inbox)).sent == produced
                && sock.outbox == old(sock.outbox) + SenderSends(setup, true, first, old(sock.inbox))
              case Advanced =>
                && base > old(base) && |sock.inbox| < |old(sock.inbox)|
                && SenderRun(setup, first, old(sock.inbox)) == SenderRun(setup, RoundStart(setup, base), sock.inbox)
                && old(sock.outbox) + SenderSends(setup, true, first, old(sock.inbox))
                   == sock.outbox + SenderSends(setup, true, RoundStart(setup, base), sock.inbox)
    {
      ghost var s := first;
      ghost var end := SenderRun(setup, s, sock.inbox);
      ghost var allSent := sock.outbox + SenderSends(setup, true, s, sock.inbox);
      turn := Stay(0);
      while true
        invariant Valid() && produced == old(produced) && base == old(base) && turn.Stay?
        invariant s == SenderState(base, produced, turn.attempt, Running) && |sock.inbox| <= |old(sock.inbox)|
        invariant SenderRun(setup, s, sock.inbox) == end
        invariant sock.outbox + SenderSends(setup, true, s, sock.inbox) == allSent
        decreases |sock.inbox|
      {
        ghost var inbox, sent := sock.inbox, sock.outbox + WindowDatagrams(QueueOf(setup, s.base, s.sent));
        SenderUnfolds(setup, true, s, inbox, sock.outbox, sent);
        turn := Exchange(turn.attempt, s);
        if turn == Stop(Running) {
          return;
        }
        s := SenderStep(setup, s, Hear(inbox[0]));
        if turn.Stop? {
          SenderStopped(setup, true, s, sock.inbox);
          return;
        }
        assert Farewell(true, s.status) == [] && sent + [] == sent;
        if turn == Advanced {
          return;
        }
      }
    }

    /** One turn of the outer loop: refill, then repeat the window until it advances. */
    method SendRound(ghost s: SenderState) returns (status: Option<Status>)
      requires Valid() && s == RoundStart(setup, base) && produced <= s.sent
      modifies this, sock, file
      ensures Valid()
      ensures match status
              case Some(st) =>
                var end := SenderRun(setup, s, old(sock.inbox));
                && end.status == st && end.base == base && end.sent == produced
                && sock.outbox == old(sock.outbox) + SenderSends(setup, true, s, old(sock.inbox))
              case None =>
                && |sock.inbox| < |old(sock.inbox)|
                && SenderRun(setup, s, old(sock.inbox)) == SenderRun(setup, RoundStart(setup, base), sock.inbox)
                && old(sock.outbox) + SenderSends(setup, true, s, old(sock.inbox))
                   == sock.outbox + SenderSends(setup, true, RoundStart(setup, base), sock.inbox)
    {
      FillWindow();
      if inFlight == [] {
        SenderStopped(setup, true, s, sock.inbox);
        assert sock.outbox + [] == sock.outbox;
        return Some(Done);
      }
      var turn := SendUntilAdvanced(s);
      status := if turn.Stop? then Some(turn.status) else None;
    }

    /** The whole sending loop: ends in the state, and has sent the datagrams, that the step
        function prescribes for the given events. `Running` means that it is still waiting. */
    method Run() returns (status: Status)
      requires Valid() && base == 0 && inFlight == []
      modifies this, sock, file
      ensures Valid()
      ensures var end := SenderRun(setup, SenderStart(setup), old(sock.inbox));
              status == end.status && base == end.base && produced == end.sent
      ensures sock.outbox == old(sock.outbox) + SenderSends(setup, true, SenderStart(setup), old(sock.inbox))
    {
      ghost var s := RoundStart(setup, 0);
      assert s == SenderStart(setup);
      ghost var end := SenderRun(setup, s, sock.inbox);
      ghost var allSent := sock.outbox + SenderSends(setup, true, s, sock.inbox);
      while true
        invariant Valid() && s == RoundStart(setup, base)
        invariant SenderRun(setup, s, sock.inbox) == end
        invariant sock.outbox + SenderSends(setup, true, s, sock.inbox) == allSent
        decreases |sock.inbox|
      {
        assert produced <= s.sent;
        var ending := SendRound(s);
        if ending.Some? {
          return ending.value;
        }
        s := RoundStart(setup, base);
      }
    }
  }

  /** How one turn of the inner loop ends. */
  datatype Turn = Stay(attempt: nat) | Advanced | Stop(status: Status)

  /** The receiving side of a write request. */
  class WrqReceiver {
    const sock: Socket<Event>
    const file: Disk
    const decoder: Netascii.FromWire?
    const retries: nat
    const blksize: nat
    const windowsize: u16
    var nextBlock: u16
    var blocksInWindow: u16
    var lastAcked: u16
    var finished: bool

    ghost const setup: Setup
    ghost var got: nat

    constructor (sock: Socket<Event>, file: Disk, decoder: Netascii.FromWire?, ghost setup: Setup, retries: nat, blksize: nat, windowsize: u16)
      requires setup.netascii == (decoder != null) && (decoder != null ==> !decoder.pendingCr)
      requires setup.size == blksize && setup.window == windowsize > 0 && setup.recvRetries == retries
      requires file.data == []
      ensures Valid() && !finished && State(0, Running) == ReceiverStart()
      ensures this.sock == sock && this.file == file && this.setup == setup && this.decoder == decoder
    {
      this.sock, this.file, this.decoder, this.setup := sock, file, decoder, setup;
      this.retries, this.blksize, this.windowsize := retries, blksize, windowsize;
      nextBlock, blocksInWindow, lastAcked, finished := 1, 0, 0, false;
      got := 0;
    }

    ghost function Written(): Netascii.Decoder
      reads file, decoder
    {
      Netascii.Decoder(file.data, decoder != null && decoder.pendingCr)
    }

    ghost function State(attempt: nat, status: Status): ReceiverState
      reads this, file, decoder
    {
      ReceiverState(got, nextBlock, blocksInWindow, lastAcked, attempt, Written(), status)
    }

    ghost predicate Valid()
      reads this, file, decoder
    {
      && setup.netascii == (decoder != null)
      && setup.size == blksize && setup.window == windowsize > 0 && setup.recvRetries == retries
      && Consistent(setup, State(0, if finished then Done else Running))
    }

    method WriteBlock(data: bytes)
      requires setup.netascii == (decoder != null)
      modifies file, decoder
      ensures Written() == Write(setup, old(Written()), data)
    {
      if decoder != null {
        Netascii.DecodeAppends(Written(), data);
        var out := decoder.Translate(data, []);
        file.WriteAll(out);
      } else {
        file.WriteAll(data);
      }
    }

    method Finish()
      modifies file, decoder
      ensures Written() == Close(old(Written()))
    {
      if decoder != null {
        var tail := decoder.FinishInto([]);
        if tail != [] {
          file.WriteAll(tail);
        }
      }
    }

    method SendAck(number: u16)
      modifies sock
      ensures sock.outbox == old(sock.outbox) + AckDatagrams([number]) && sock.inbox == old(sock.inbox)
    {
      OneAck(number);
      SendDatagram(sock, Packets.Ack(number));
    }

    /** The expected block is written and counted. */
    method Accept(block: u16, data: bytes)
      requires setup.netascii == (decoder != null) && blocksInWindow < 0xFFFF
      modifies this`nextBlock, this`blocksInWindow, this`lastAcked, this`got, file, decoder
      ensures forall status :: State(0, status) == Accepted(setup, old(State(0, status)), block, data)
    {
      WriteBlock(data);
      lastAcked := block;
      nextBlock := WrapAdd(nextBlock, 1);
      blocksInWindow := blocksInWindow + 1;
      got := got + 1;
    }

    /** A DATA datagram: write and count it if it is the expected one, acknowledge when a window
        is full, when the file is complete, and whenever the number is not the expected one. */
    method OnData(block: u16, data: bytes)
      requires Valid() && !finished
      modifies this, sock, file, decoder
      ensures Valid() && sock.inbox == old(sock.inbox)
      ensures var reply := ReceiverOnData(setup, old(State(0, Running)), block, data);
              && State(0, if finished then Done else Running) == reply.state
              && sock.outbox == old(sock.outbox) + AckDatagrams(reply.acks)
    {
      ghost var before := State(0, Running);
      ConsistentStep(setup, before, GotData(block, data));
      OneAck(block);
      if block == nextBlock {
        var isFinal := |data| < blksize;
        Accept(block, data);
        if isFinal {
          Finish();
          SendAck(block);
          finished := true;
        } else if blocksInWindow >= windowsize {
          SendAck(block);
          blocksInWindow := 0;
        }
      } else {
        SendAck(lastAcked);
        blocksInWindow := 0;
      }
    }

    /** Handles what one wait returned; `stop` if the loop is left with an error. */
    method OnInput(input: Input, attempt: nat) returns (next: nat, stop: Option<Status>)
      requires Valid() && !finished
      modifies this, sock, file, decoder
      ensures Valid() && sock.inbox == old(sock.inbox)
      ensures var reply := ReceiverStep(setup, old(State(attempt, Running)), input);
              && (stop == None ==> State(next, if finished then Done else Running) == reply.state
                                   && sock.outbox == old(sock.outbox) + AckDatagrams(reply.acks))
              && (stop.Some? ==> !finished && State(next, stop.value) == reply.state && stop.value != Running && reply.acks == []
                                 && sock.outbox == old(sock.outbox) + Farewell(true, stop.value))
    {
      next, stop := attempt, None;
      OneAck(lastAcked);
      match input {
        case Timeout =>
          if attempt >= retries {
            SendDatagram(sock, Packets.ErrorPacket(Packets.NotDefined, TIMED_OUT_TEXT));
            stop := Some(TimedOut);
          } else {
            next := attempt + 1;
            SendAck(lastAcked);
          }
        case GotData(block, data) =>
          next := 0;
          OnData(block, data);
        case GotError =>
          stop := Some(Failed);
        case _ =>
          assert sock.outbox + [] == sock.outbox;
      }
    }

    /** The whole receiving loop: ends in the state, and has sent the datagrams, that the step
        function prescribes for the given events. `Running` means that it is still waiting. */
    method Run(ghost start: ReceiverState) returns (status: Status)
      requires Valid() && !finished && State(0, Running) == start
      modifies this, sock, file, decoder
      ensures var end := ReceiverHears(setup, start, old(sock.inbox));
              status == end.status && State(end.attempt, status) == end
      ensures sock.outbox == old(sock.outbox) + ReceiverSends(setup, true, start, old(sock.inbox))
    {
      var attempt := 0;
      ghost var r := start;
      ghost var end := ReceiverHears(setup, r, sock.inbox);
      ghost var allSent := sock.outbox + ReceiverSends(setup, true, r, sock.inbox);
      while !finished
        invariant Valid() && r == State(attempt, if finished then Done else Running)
        invariant ReceiverHears(setup, r, sock.inbox) == end
        invariant sock.outbox + ReceiverSends(setup, true, r, sock.inbox) == allSent
        decreases |sock.inbox|, !finished
      {
        ReceiverUnfolds(setup, true, r, sock.inbox, sock.outbox);
        var e := sock.Receive();
        if e == None {
          return Running;
        }
        var input := Interpret(e.value);
        r := ReceiverStep(setup, r, input).state;
        var stop;
        attempt, stop := OnInput(input, attempt);
        if stop.Some? {
          ReceiverStopped(setup, true, r, sock.inbox);
          return stop.value;
        }
      }
      ReceiverStopped(setup, true, r, sock.inbox);
      status := Done;
    }
  }

  lemma {:induction false} RepeatedMore(datagram: bytes, n: nat)
    ensures Repeated(datagram, n) + [datagram] == Repeated(datagram, n + 1)
  {
    if n > 0 {
      RepeatedMore(datagram, n - 1);
      assert Repeated(datagram, n) + [datagram] == [datagram] + (Repeated(datagram, n - 1) + [datagram]);
    }
  }

  /** How a request was served, and the datagrams that took. */
  datatype Served = Served(status: Status, datagrams: seq<bytes>)

  /** The whole life of the task for a read request on the given events: the options it grants, the
      wait for ACK(0) exactly if there are any, then the transfer with the granted parameters. */
  function ReadServed(cfg: ServerConfig, retries: nat, mode: Options.Mode, options: seq<Options.OptionValue>,
                      content: bytes, size: u64, events: seq<Event>): Served
    requires CanGrant(cfg, options)
  {
    var g := Granted(cfg, options, Some(size));
    var c := SetupFor(mode, content, g.neg, retries, 0);
    if g.oack == [] then
      Served(SenderRun(c, SenderStart(c), events).status, SenderSends(c, true, SenderStart(c), events))
    else Confirmed(c, retries, g.oack, events)
  }

  /** The part of `ReadServed` that starts with an OACK. */
  function Confirmed(c: Setup, retries: nat, oack: seq<Options.OptionValue>, events: seq<Event>): Served {
    ConfirmedAfter(c, oack, AwaitRun(retries, 0, events))
  }

  function ConfirmedAfter(c: Setup, oack: seq<Options.OptionValue>, wait: Awaited): Served {
    var oacks := Repeated(Packets.Encode(Packets.Oack(oack)), wait.sends);
    match wait.result
    case Waiting(_) => Served(Running, oacks)
    case Lost(status) => Served(status, oacks)
    case Acked => Served(SenderRun(c, SenderStart(c), wait.rest).status, oacks + SenderSends(c, true, SenderStart(c), wait.rest))
  }

  method ServeRrq(sock: Socket<Event>, file: Source, cfg: ServerConfig, retries: nat,
                  mode: Options.Mode, options: seq<Options.OptionValue>, size: u64)
    returns (status: Status)
    requires CanGrant(cfg, options) && file.pos == 0
    modifies sock, file
    ensures var served := ReadServed(cfg, retries, mode, options, file.content, size, old(sock.inbox));
            status == served.status && sock.outbox == old(sock.outbox) + served.datagrams
  {
    SetupUsable(mode, file.content, Granted(cfg, options, Some(size)).neg, retries, 0);
    var oack, neg := Negotiate(cfg, options, Some(size));
    ghost var c := SetupFor(mode, file.content, neg, retries, 0);
    var sender := new RrqSender(sock, file, c, mode == Options.NetAscii, retries, neg.blksize, neg.windowsize);
    if oack == [] {
      status := sender.Run();
    } else {
      status := ConfirmThenRun(sender, oack, AwaitRun(retries, 0, sock.inbox));
    }
  }

  /** The OACK path of a read request. */
  method ConfirmThenRun(sender: RrqSender, oack: seq<Options.OptionValue>, ghost wait: Awaited) returns (status: Status)
    requires sender.Valid() && sender.base == 0 && sender.inFlight == []
    requires wait == AwaitRun(sender.retries, 0, sender.sock.inbox)
    modifies sender, sender.sock, sender.file
    ensures var served := ConfirmedAfter(sender.setup, oack, wait);
            status == served.status && sender.sock.outbox == old(sender.sock.outbox) + served.datagrams
  {
    ghost var c, sent0 := sender.setup, sender.sock.outbox;
    ghost var oacks := Repeated(Packets.Encode(Packets.Oack(oack)), wait.sends);
    var result := sender.SendOackAndWaitAck0(oack);
    if result != Acked {
      status := if result.Lost? then result.status else Running;
      return;
    }
    Regroup(sent0, oacks, SenderSends(c, true, SenderStart(c), wait.rest));
    status := sender.Run();
  }

  /** A write request: negotiate, answer with the OACK or with ACK(0), receive the file. */
  method ServeWrq(sock: Socket<Event>, file: Disk, cfg: ServerConfig, retries: nat,
                  mode: Options.Mode, options: seq<Options.OptionValue>)
    returns (status: Status)
    requires CanGrant(cfg, options) && file.data == []
    modifies sock, file
    ensures var g := Granted(cfg, options, None);
            var c := Setup([], g.neg.blksize, g.neg.windowsize, mode == Options.NetAscii, 0, retries);
            var end := ReceiverHears(c, ReceiverStart(), old(sock.inbox));
            && status == end.status && file.data == end.disk.out
            && sock.outbox == old(sock.outbox)
                              + [if g.oack == [] then AckDatagram(0) else Packets.Encode(Packets.Oack(g.oack))]
                              + ReceiverSends(c, true, ReceiverStart(), old(sock.inbox))
  {
    var oack, neg := Negotiate(cfg, options, None);
    ghost var c := Setup([], neg.blksize, neg.windowsize, mode == Options.NetAscii, 0, retries);
    var decoder: Netascii.FromWire? := null;
    if mode == Options.NetAscii {
      decoder := new Netascii.FromWire();
    }
    var receiver := new WrqReceiver(sock, file, decoder, c, retries, neg.blksize, neg.windowsize);
    if oack != [] {
      SendDatagram(sock, Packets.Oack(oack));
    } else {
      SendDatagram(sock, Packets.Ack(0));
    }
    status := receiver.Run(ReceiverStart());
  }

  /** Decodes what a wait on the socket returned. */
  method Interpret(e: Event) returns (input: Input)
    ensures input == Hear(e)
  {
    match e {
      case Silence =>
        input := Timeout;
      case Datagram(payload) =>
        var packet := Codec.DecodeDatagram(payload);
        match packet {
          case Ok(Ack(block)) => input := GotAck(block);
          case Ok(Data(block, data)) => input := GotData(block, data);
          case Ok(ErrorPacket(_, _)) => input := GotError;
          case _ => input := GotOther;
        }
    }
  }
}
