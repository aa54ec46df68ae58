/** The client's transfer loops as they run, proved against the step functions. */
module Client {
  import opened Basics
  import opened Window
  import opened Transfer
  import opened Endpoints
  import opened Environment
  import opened Server
  import Blocks
  import Codec
  import Handshake
  import Negotiation
  import Netascii
  import Options
  import Packets

  // ---------- sending ----------

  /** The client's chunker over a file or a byte slice. */
  class Sender {
    const source: Source
    const netascii: bool
    var pending: bytes
    var blksize: nat
    var eof: bool
    var finalEmitted: bool

    ghost var setup: Setup
    ghost var produced: nat

    constructor (source: Source, netascii: bool)
      ensures Fresh() && this.source == source && this.netascii == netascii
    {
      this.source, this.netascii := source, netascii;
      pending, blksize, eof, finalEmitted := [], 0, false, false;
      setup, produced := Setup([], 0, 0, netascii, 0, 0), 0;
    }

    ghost predicate Fresh()
      reads this
    {
      pending == [] && !eof && !finalEmitted && produced == 0
    }

    /** The block size is known only once the server has answered. */
    method SetBlksize(blksize: nat, ghost setup: Setup)
      requires Fresh() && source.pos == 0
      requires Usable(setup) && setup.size == blksize && setup.netascii == netascii
      requires setup.blocks == Blocks.Split(WireOf(netascii, source.content), blksize)
      modifies this`blksize, this`setup
      ensures Cutting() && this.setup == setup
    {
      this.blksize, this.setup := blksize, setup;
      assert source.content[0..] == source.content;
      assert [] + WireOf(netascii, source.content) == WireOf(netascii, source.content);
    }

    ghost function Unread(): bytes
      reads source
      requires source.pos <= |source.content|
    {
      WireOf(netascii, source.content[source.pos..])
    }

    ghost predicate Cutting()
      reads this, source
    {
      && Usable(setup) && setup.netascii == netascii && setup.size == blksize
      && source.pos <= |source.content|
      && |pending| < 2 * blksize
      && (eof ==> source.pos == |source.content|)
      && Blocks.Remaining(setup.blocks, blksize, produced, finalEmitted, pending + Unread())
    }

    method FillPending()
      requires Cutting() && !finalEmitted
      modifies this`pending, this`eof, source
      ensures source.pos <= |source.content| && pending + Unread() == old(pending + Unread())
      ensures |pending| < 3 * blksize && (eof ==> source.pos == |source.content|)
      ensures |pending| >= blksize || eof
    {
      while |pending| < blksize && !eof
        invariant source.pos <= |source.content|
        invariant pending + Unread() == old(pending + Unread())
        invariant |pending| < 3 * blksize
        invariant eof ==> source.pos == |source.content|
        decreases |source.content| - source.pos, !eof
      {
        ghost var before, unread := pending, source.content[source.pos..];
        var chunk := source.Read(blksize);
        if chunk == [] {
          eof := true;
          break;
        }
        ghost var left := source.content[source.pos..];
        assert unread == chunk + left;
        WireConcat(netascii, chunk, left);
        Netascii.Assoc(before, WireOf(netascii, chunk), WireOf(netascii, left));
        pending := AppendChunk(netascii, chunk, pending);
      }
    }

    /** The next block of the unique division of the encoded source; `None` after the last. */
    method NextBlock() returns (block: Option<bytes>)
      requires Cutting()
      modifies this`pending, this`eof, this`finalEmitted, this`produced, source
      ensures Cutting()
      ensures old(finalEmitted) ==> block == None && produced == old(produced)
      ensures !old(finalEmitted) ==> block == Some(setup.blocks[old(produced)]) && produced == old(produced) + 1
    {
      if finalEmitted {
        return None;
      }
      FillPending();
      if |pending| < blksize {
        assert pending + Unread() == pending;
        Blocks.TakeLast(setup.blocks, blksize, produced, pending);
      } else {
        Blocks.TakeFull(setup.blocks, blksize, produced, pending, Unread());
      }
      produced := produced + 1;
      if pending == [] && eof {
        finalEmitted := true;
        return Some([]);
      }
      var take := Min(|pending|, blksize);
      var cut := pending[..take];
      pending := pending[take..];
      if |cut| < blksize {
        finalEmitted := true;
      }
      block := Some(cut);
    }
  }

  /** The queue of the sending loop, which lives in local variables. */
  datatype Flight = Flight(queue: Queue, nextBlock: u16, lastSentShort: bool, total: nat)

  ghost predicate FlightOk(c: Setup, f: Flight, base: nat, sent: nat) {
    && base <= sent <= |c.blocks|
    && f.queue == QueueOf(c, base, sent)
    && |f.queue| <= c.window
    && f.nextBlock == BlockNumber(sent)
    && (f.lastSentShort <==> sent == |c.blocks|)
    && f.total == |Blocks.Flatten(c.blocks[..sent])|
  }

  /** The queue with one more block. */
  function Queued(f: Flight, block: bytes, blksize: nat): Flight {
    Flight(f.queue + [(f.nextBlock, block)], WrapAdd(f.nextBlock, 1), f.lastSentShort || |block| < blksize, f.total + |block|)
  }

  lemma FlightPush(c: Setup, f: Flight, base: nat, sent: nat)
    requires Usable(c) && FlightOk(c, f, base, sent) && sent < |c.blocks| && |f.queue| < c.window
    ensures FlightOk(c, Queued(f, c.blocks[sent], c.size), base, sent + 1)
  {
    QueuePush(c, base, sent);
    Blocks.FlattenNext(c.blocks, sent);
  }

  /** A queue is full, or holds the last block, exactly when the window is. */
  lemma FlightFull(c: Setup, f: Flight, base: nat, sent: nat, before: nat)
    requires FlightOk(c, f, base, sent) && before <= sent
    requires sent == before || sent <= Min(base + c.window, |c.blocks|)
    requires |f.queue| == c.window || f.lastSentShort
    ensures sent == Max(before, Min(base + c.window, |c.blocks|))
  {
  }

  method QueueNext(sender: Sender, flight: Flight, ghost base: nat) returns (more: bool, out: Flight)
    requires sender.Cutting() && FlightOk(sender.setup, flight, base, sender.produced)
    requires !flight.lastSentShort && |flight.queue| < sender.setup.window
    modifies sender`pending, sender`eof, sender`finalEmitted, sender`produced, sender.source
    ensures more && sender.Cutting() && sender.setup == old(sender.setup)
    ensures FlightOk(sender.setup, out, base, sender.produced)
    ensures sender.produced == old(sender.produced) + 1
  {
    assert !sender.finalEmitted;
    FlightPush(sender.setup, flight, base, sender.produced);
    var block := sender.NextBlock();
    if block == None {
      return false, flight;
    }
    more, out := true, Queued(flight, block.value, sender.blksize);
  }

  method FillQueue(sender: Sender, flight: Flight, windowsize: u16, ghost base: nat) returns (out: Flight)
    requires sender.Cutting() && sender.setup.window == windowsize
    requires FlightOk(sender.setup, flight, base, sender.produced)
    modifies sender`pending, sender`eof, sender`finalEmitted, sender`produced, sender.source
    ensures sender.Cutting() && sender.setup == old(sender.setup)
    ensures FlightOk(sender.setup, out, base, sender.produced)
    ensures sender.produced == Max(old(sender.produced), Min(base + windowsize, |sender.setup.blocks|))
  {
    out := flight;
    ghost var c, before := sender.setup, sender.produced;
    while |out.queue| < windowsize && !out.lastSentShort
      invariant sender.Cutting() && sender.setup == c && FlightOk(c, out, base, sender.produced)
      invariant sender.produced >= before
      decreases windowsize - |out.queue|
    {
      var more;
      more, out := QueueNext(sender, out, base);
      if !more {
        break;
      }
    }
    FlightFull(c, out, base, sender.produced, before);
  }

  method SendQueue(sock: Socket<Event>, queue: Queue)
    modifies sock
    ensures sock.outbox == old(sock.outbox) + WindowDatagrams(queue) && sock.inbox == old(sock.inbox)
  {
    for i := 0 to |queue|
      invariant sock.outbox == old(sock.outbox) + WindowDatagrams(queue)[..i]
      invariant sock.inbox == old(sock.inbox)
    {
      SendDatagram(sock, Packets.Data(queue[i].0, queue[i].1));
    }
  }

  /** An acknowledgement changes the queue as it changes the sender of the step function. */
  method TakeAck(flight: Flight, ack: u16, windowsize: u16, ghost c: Setup, ghost base: nat, ghost sent: nat, ghost attempt: nat)
    returns (advanced: bool, out: Flight, ghost base': nat)
    requires FlightOk(c, flight, base, sent) && base < sent == Min(base + c.window, |c.blocks|) && c.window == windowsize
    ensures FlightOk(c, out, base', sent)
    ensures var s := SenderState(base, sent, attempt, Running);
            SenderStep(c, s, GotAck(ack)) == if advanced then RoundStart(c, base') else s
    ensures if advanced then base' > base else base' == base && out == flight
  {
    ghost var k := PoppedFrom(flight.queue, ack, windowsize);
    AckConsumes(c, base, sent, attempt, ack);
    QueueAfterAck(c, base, sent, flight.queue, k, ack);
    var rest;
    rest, advanced := ConsumeAck(flight.queue, ack, windowsize);
    out, base' := flight.(queue := rest), base + k;
  }

  /** One turn of the inner loop: send the window, wait once, handle what came. */
  method Exchange(sock: Socket<Event>, flight: Flight, windowsize: u16, retries: nat, attempt: nat,
                  ghost c: Setup, ghost base: nat, ghost sent: nat)
    returns (turn: Turn, out: Flight, ghost base': nat)
    requires FlightOk(c, flight, base, sent) && base < sent == Min(base + c.window, |c.blocks|)
    requires c.window == windowsize && c.sendRetries == retries
    modifies sock
    ensures FlightOk(c, out, base', sent)
    ensures sock.outbox == old(sock.outbox) + WindowDatagrams(QueueOf(c, base, sent))
    ensures old(sock.inbox) == [] ==> turn == Stop(Running) && base' == base && out == flight && sock.inbox == []
    ensures old(sock.inbox) != [] ==>
              var s := SenderStep(c, SenderState(base, sent, attempt, Running), Hear(old(sock.inbox)[0]));
              && sock.inbox == old(sock.inbox)[1..] && base' == s.base
              && match turn
                 case Stay(a) => s == SenderState(base, sent, a, Running) && out == flight
                 case Advanced => s == RoundStart(c, base') && base' > base
                 case Stop(status) => status == s.status && s.sent == sent && (status == TimedOut || status == Failed)
  {
    out, base' := flight, base;
    SendQueue(sock, flight.queue);
    var e := sock.Receive();
    if e == None {
      return Stop(Running), out, base';
    }
    var input := Interpret(e.value);
    match input {
      case Timeout =>
        turn := if attempt >= retries then Stop(TimedOut) else Stay(attempt + 1);
      case GotAck(block) =>
        var advanced;
        advanced, out, base' := TakeAck(flight, block, windowsize, c, base, sent, attempt);
        turn := if advanced then Advanced else Stay(attempt);
      case GotError =>
        turn := Stop(Failed);
      case _ =>
        turn := Stay(attempt);
    }
  }

  /** The inner loop: repeats the window until an acknowledgement advances it or it gives up. */
  method SendUntilAdvanced(sock: Socket<Event>, flight: Flight, windowsize: u16, retries: nat,
                           ghost c: Setup, ghost base: nat, ghost sent: nat)
    returns (turn: Turn, out: Flight, ghost base': nat)
    requires FlightOk(c, flight, base, sent) && base < sent == Min(base + c.window, |c.blocks|)
    requires c.window == windowsize && c.sendRetries == retries
    modifies sock
    ensures FlightOk(c, out, base', sent)
    ensures var s := SenderState(base, sent, 0, Running);
            match turn
            case Stay(_) => false
            case Stop(status) =>
              && SenderRun(c, s, old(sock.inbox)).status == status
              && SenderRun(c, s, old(sock.inbox)).base == base'
              && SenderRun(c, s, old(sock.inbox)).sent == sent
              && sock.outbox == old(sock.outbox) + SenderSends(c, false, s, old(sock.inbox))
            case Advanced =>
              && base' > base && |sock.inbox| < |old(sock.inbox)|
              && SenderRun(c, s, old(sock.inbox)) == SenderRun(c, RoundStart(c, base'), sock.inbox)
              && old(sock.outbox) + SenderSends(c, false, s, old(sock.inbox))
                 == sock.outbox + SenderSends(c, false, RoundStart(c, base'), sock.inbox)
  {
    ghost var s := SenderState(base, sent, 0, Running);
    ghost var end := SenderRun(c, s, sock.inbox);
    ghost var allSent := sock.outbox + SenderSends(c, false, s, sock.inbox);
    turn, out, base' := Stay(0), flight, base;
    while true
      invariant out == flight && base' == base && turn.Stay?
      invariant s == SenderState(base, sent, turn.attempt, Running) && |sock.inbox| <= |old(sock.inbox)|
      invariant SenderRun(c, s, sock.inbox) == end
      invariant sock.outbox + SenderSends(c, false, s, sock.inbox) == allSent
      decreases |sock.inbox|
    {
      ghost var inbox, outbox := sock.inbox, sock.outbox + WindowDatagrams(QueueOf(c, base, sent));
      SenderUnfolds(c, false, s, inbox, sock.outbox, outbox);
      turn, out, base' := Exchange(sock, flight, windowsize, retries, turn.attempt, c, base, sent);
      if turn == Stop(Running) {
        return;
      }
      s := SenderStep(c, s, Hear(inbox[0]));
      if turn.Stop? {
        SenderStopped(c, false, s, sock.inbox);
        assert outbox + [] == outbox;
        return;
      }
      if turn == Advanced {
        return;
      }
    }
  }

  /** One turn of the outer loop: refill, then repeat the window until it advances. */
  method SendRound(sock: Socket<Event>, sender: Sender, flight: Flight, windowsize: u16, retries: nat,
                   ghost c: Setup, ghost base: nat, ghost s: SenderState)
    returns (status: Option<Status>, out: Flight, ghost base': nat)
    requires sender.Cutting() && sender.setup == c && c.window == windowsize && c.sendRetries == retries
    requires FlightOk(c, flight, base, sender.produced) && s == RoundStart(c, base)
    requires sender.produced <= s.sent
    modifies sock, sender`pending, sender`eof, sender`finalEmitted, sender`produced, sender.source
    ensures sender.Cutting() && sender.setup == c
    ensures FlightOk(c, out, base', sender.produced)
    ensures match status
            case Some(st) =>
              var end := SenderRun(c, s, old(sock.inbox));
              && end.status == st && end.sent == sender.produced
              && sock.outbox == old(sock.outbox) + SenderSends(c, false, s, old(sock.inbox))
            case None =>
              && |sock.inbox| < |old(sock.inbox)|
              && SenderRun(c, s, old(sock.inbox)) == SenderRun(c, RoundStart(c, base'), sock.inbox)
              && old(sock.outbox) + SenderSends(c, false, s, old(sock.inbox))
                 == sock.outbox + SenderSends(c, false, RoundStart(c, base'), sock.inbox)
  {
    base' := base;
    out := FillQueue(sender, flight, windowsize, base);
    RoundOpens(c, out, base, sender.produced, s);
    if out.queue == [] {
      FinishedRound(c, s, sock.inbox, sock.outbox);
      return Some(Done), out, base';
    }
    status, out, base' := RepeatWindow(sock, out, windowsize, retries, c, s);
  }

  /** A window never reaches past the next refilling. */
  lemma WithinWindow(c: Setup, f: Flight, base: nat, sent: nat)
    requires FlightOk(c, f, base, sent)
    ensures sent <= RoundStart(c, base).sent
  {
  }

  /** The part of a round that follows the refilling, for a queue that is not empty. */
  method RepeatWindow(sock: Socket<Event>, flight: Flight, windowsize: u16, retries: nat,
                      ghost c: Setup, ghost s: SenderState)
    returns (status: Option<Status>, out: Flight, ghost base': nat)
    requires FlightOk(c, flight, s.base, s.sent) && s.base < s.sent == Min(s.base + c.window, |c.blocks|)
    requires s.attempt == 0 && s.status == Running && c.window == windowsize && c.sendRetries == retries
    modifies sock
    ensures FlightOk(c, out, base', s.sent)
    ensures match status
            case Some(st) =>
              var end := SenderRun(c, s, old(sock.inbox));
              && end.status == st && end.sent == s.sent
              && sock.outbox == old(sock.outbox) + SenderSends(c, false, s, old(sock.inbox))
            case None =>
              && |sock.inbox| < |old(sock.inbox)|
              && SenderRun(c, s, old(sock.inbox)) == SenderRun(c, RoundStart(c, base'), sock.inbox)
              && old(sock.outbox) + SenderSends(c, false, s, old(sock.inbox))
                 == sock.outbox + SenderSends(c, false, RoundStart(c, base'), sock.inbox)
  {
    var turn;
    turn, out, base' := SendUntilAdvanced(sock, flight, windowsize, retries, c, s.base, s.sent);
    if turn.Stop? {
      return Some(turn.status), out, base';
    }
    if out.queue == [] && out.lastSentShort {
      FinishedRound(c, RoundStart(c, base'), sock.inbox, sock.outbox);
      return Some(Done), out, base';
    }
    status := None;
  }

  /** After refilling, the queue is empty exactly when the file is through; otherwise it is the
      window the step function starts a round with. */
  lemma RoundOpens(c: Setup, f: Flight, base: nat, sent: nat, s: SenderState)
    requires Usable(c) && FlightOk(c, f, base, sent) && sent == Max(base, Min(base + c.window, |c.blocks|))
    requires s == RoundStart(c, base)
    ensures s.base == base && s.sent == sent && s.attempt == 0
    ensures f.queue == [] ==> s.status == Done
    ensures f.queue != [] ==> s.status == Running && base < sent == Min(base + c.window, |c.blocks|)
  {
  }

  /** The data phase of an upload: ends in the state, and has sent the datagrams, that the step
      function prescribes for the given events; the reported size counts every wire byte once,
      however often it was retransmitted. */
  method SendFile(sock: Socket<Event>, sender: Sender, windowsize: u16, retries: nat)
    returns (status: Status, total: nat)
    requires sender.Cutting() && sender.produced == 0
    requires sender.setup.window == windowsize && sender.setup.sendRetries == retries
    modifies sock, sender, sender.source
    ensures var c := old(sender.setup);
            var end := SenderRun(c, SenderStart(c), old(sock.inbox));
            && status == end.status
            && end.sent <= |c.blocks| && total == |Blocks.Flatten(c.blocks[..end.sent])|
            && sock.outbox == old(sock.outbox) + SenderSends(c, false, SenderStart(c), old(sock.inbox))
  {
    ghost var c := sender.setup;
    ghost var end := SenderRun(c, SenderStart(c), sock.inbox);
    ghost var allSent := sock.outbox + SenderSends(c, false, SenderStart(c), sock.inbox);
    var flight := Flight([], 1, false, 0);
    ghost var base: nat := 0;
    assert c.blocks[..0] == [];
    assert RoundStart(c, 0) == SenderStart(c);
    while true
      invariant sender.Cutting() && sender.setup == c && FlightOk(c, flight, base, sender.produced)
      invariant SenderRun(c, RoundStart(c, base), sock.inbox) == end
      invariant sock.outbox + SenderSends(c, false, RoundStart(c, base), sock.inbox) == allSent
      decreases |sock.inbox|
    {
      WithinWindow(c, flight, base, sender.produced);
      var ending;
      ending, flight, base := SendRound(sock, sender, flight, windowsize, retries, c, base, RoundStart(c, base));
      if ending.Some? {
        return ending.value, flight.total;
      }
    }
  }

  lemma FinishedRound(c: Setup, s: SenderState, inbox: seq<Event>, outbox: seq<bytes>)
    requires s.status != Running && s.base <= s.sent
    ensures SenderRun(c, s, inbox) == s
    ensures outbox + SenderSends(c, false, s, inbox) == outbox
  {
    SenderStopped(c, false, s, inbox);
    assert outbox + [] == outbox;
  }

  // ---------- receiving ----------

  /** Where a download goes; counts what it writes. */
  class Receiver {
    const sink: Disk
    const decoder: Netascii.FromWire?
    var written: nat

    constructor (sink: Disk, decoder: Netascii.FromWire?)
      requires sink.data == [] && (decoder != null ==> !decoder.pendingCr)
      ensures Valid() && Written() == Netascii.START
      ensures this.sink == sink && this.decoder == decoder
    {
      this.sink, this.decoder, written := sink, decoder, 0;
    }

    ghost function Written(): Netascii.Decoder
      reads sink, decoder
    {
      Netascii.Decoder(sink.data, decoder != null && decoder.pendingCr)
    }

    /** The reported size is the size of the sink. */
    ghost predicate Valid()
      reads this, sink
    {
      written == |sink.data|
    }

    method WriteRaw(buf: bytes)
      requires Valid()
      modifies this, sink
      ensures Valid() && sink.data == old(sink.data) + buf
    {
      sink.WriteAll(buf);
      written := written + |buf|;
    }

    method WriteBlock(ghost c: Setup, data: bytes)
      requires Valid() && c.netascii == (decoder != null)
      modifies this, sink, decoder
      ensures Valid() && Written() == Write(c, old(Written()), data)
    {
      if decoder != null {
        Netascii.DecodeAppends(Written(), data);
        var out := decoder.Translate(data, []);
        WriteRaw(out);
      } else {
        WriteRaw(data);
      }
    }

    method Finish()
      requires Valid()
      modifies this, sink, decoder
      ensures Valid() && Written() == Close(old(Written()))
    {
      if decoder != null {
        var tail := decoder.FinishInto([]);
        if tail != [] {
          WriteRaw(tail);
        }
      }
    }
  }

  /** The variables of the receiving loop. */
  datatype Progress = Progress(nextBlock: u16, blocksInWindow: u16, lastAcked: u16, attempt: nat, finished: bool)

  ghost function StateOf(p: Progress, got: nat, disk: Netascii.Decoder, status: Status): ReceiverState {
    ReceiverState(got, p.nextBlock, p.blocksInWindow, p.lastAcked, p.attempt, disk, status)
  }

  method SendAck(sock: Socket<Event>, number: u16)
    modifies sock
    ensures sock.outbox == old(sock.outbox) + AckDatagrams([number]) && sock.inbox == old(sock.inbox)
  {
    OneAck(number);
    SendDatagram(sock, Packets.Ack(number));
  }

  /** A DATA datagram of the main loop. */
  method OnData(sock: Socket<Event>, receiver: Receiver, p: Progress, block: u16, data: bytes,
                blksize: nat, windowsize: u16, ghost c: Setup, ghost got: nat)
    returns (out: Progress, ghost got': nat)
    requires receiver.Valid() && !p.finished && c.netascii == (receiver.decoder != null)
    requires c.size == blksize && c.window == windowsize > 0
    requires Consistent(c, StateOf(p, got, receiver.Written(), Running))
    modifies sock, receiver, receiver.sink, receiver.decoder
    ensures receiver.Valid() && sock.inbox == old(sock.inbox)
    ensures var reply := ReceiverOnData(c, StateOf(p, got, old(receiver.Written()), Running), block, data);
            && StateOf(out, got', receiver.Written(), if out.finished then Done else Running) == reply.state
            && sock.outbox == old(sock.outbox) + AckDatagrams(reply.acks)
  {
    out, got' := p.(attempt := 0), got;
    OneAck(block);
    if block == p.nextBlock {
      receiver.WriteBlock(c, data);
      got' := got + 1;
      out := out.(lastAcked := block, nextBlock := WrapAdd(p.nextBlock, 1), blocksInWindow := p.blocksInWindow + 1);
      if |data| < blksize {
        SendAck(sock, block);
        receiver.Finish();
        out := out.(finished := true);
      } else if out.blocksInWindow >= windowsize {
        SendAck(sock, block);
        out := out.(blocksInWindow := 0);
      }
    } else {
      SendAck(sock, p.lastAcked);
      out := out.(blocksInWindow := 0);
    }
  }

  /** The state a download starts from: fresh, or as if the main loop had already taken the DATA
      datagram that ended the handshake. */
  function Opening(c: Setup, first: Option<(u16, bytes)>): Reply {
    if first == None then Reply(ReceiverStart(), [])
    else ReceiverStep(c, ReceiverStart(), GotData(first.value.0, first.value.1))
  }

  /** The separate code for a first DATA datagram: it refuses anything but block 1, and for
      block 1 it does exactly what one turn of the main loop would have done. */
  method TakeFirst(sock: Socket<Event>, receiver: Receiver, block: u16, data: bytes,
                   blksize: nat, windowsize: u16, ghost c: Setup)
    returns (accepted: bool, out: Progress)
    requires receiver.Valid() && receiver.Written() == Netascii.START && c.netascii == (receiver.decoder != null)
    requires c.size == blksize && c.window == windowsize > 0
    modifies sock, receiver, receiver.sink, receiver.decoder
    ensures receiver.Valid() && sock.inbox == old(sock.inbox)
    ensures accepted <==> block == 1
    ensures accepted ==>
              var reply := Opening(c, Some((block, data)));
              && StateOf(out, 1, receiver.Written(), if out.finished then Done else Running) == reply.state
              && sock.outbox == old(sock.outbox) + AckDatagrams(reply.acks)
    ensures !accepted ==> sock.outbox == old(sock.outbox) && receiver.Written() == Netascii.START
  {
    out := Progress(1, 0, 0, 0, false);
    if block != 1 {
      return false, out;
    }
    accepted := true;
    OneAck(1);
    receiver.WriteBlock(c, data);
    out := Progress(2, 1, 1, 0, false);
    if |data| < blksize {
      SendAck(sock, 1);
      receiver.Finish();
      out := out.(finished := true);
    } else if out.blocksInWindow >= windowsize {
      SendAck(sock, 1);
      out := out.(blocksInWindow := 0);
    }
  }

  /** How a download ends. */
  datatype GetResult = Ended(status: Status, written: nat) | UnexpectedPacket

  /** One turn of the main loop of a download. */
  method ReceiveOnce(sock: Socket<Event>, receiver: Receiver, p: Progress, input: Input,
                     blksize: nat, windowsize: u16, retries: nat, ghost c: Setup, ghost got: nat)
    returns (out: Progress, stop: Option<Status>, ghost got': nat)
    requires receiver.Valid() && !p.finished && c.netascii == (receiver.decoder != null)
    requires c.size == blksize && c.window == windowsize > 0 && c.recvRetries == retries
    requires Consistent(c, StateOf(p, got, receiver.Written(), Running))
    modifies sock, receiver, receiver.sink, receiver.decoder
    ensures receiver.Valid() && sock.inbox == old(sock.inbox)
    ensures var reply := ReceiverStep(c, StateOf(p, got, old(receiver.Written()), Running), input);
            && sock.outbox == old(sock.outbox) + AckDatagrams(reply.acks)
            && (stop == None ==> StateOf(out, got', receiver.Written(), if out.finished then Done else Running) == reply.state)
            && (stop.Some? ==> stop.value != Running && !out.finished
                               && StateOf(out, got', receiver.Written(), stop.value) == reply.state)
  {
    out, stop, got' := p, None, got;
    OneAck(p.lastAcked);
    match input {
      case Timeout =>
        if p.attempt >= retries {
          stop := Some(TimedOut);
        } else {
          out := p.(attempt := p.attempt + 1);
          SendAck(sock, p.lastAcked);
        }
      case GotData(block, data) =>
        out, got' := OnData(sock, receiver, p, block, data, blksize, windowsize, c, got);
      case GotError =>
        stop := Some(Failed);
      case _ =>
    }
  }

  /** The data phase of a download: ends in the state, and has sent the acknowledgements, that the
      step function prescribes, and reports the size of what it wrote. */
  method ReceiveFile(sock: Socket<Event>, receiver: Receiver, first: Option<(u16, bytes)>,
                     blksize: nat, windowsize: u16, retries: nat, ghost c: Setup)
    returns (result: GetResult)
    requires receiver.Valid() && receiver.Written() == Netascii.START && c.netascii == (receiver.decoder != null)
    requires c.size == blksize && c.window == windowsize > 0 && c.recvRetries == retries
    modifies sock, receiver, receiver.sink, receiver.decoder
    ensures result.UnexpectedPacket? <==> first.Some? && first.value.0 != 1
    ensures result.UnexpectedPacket? ==> sock.outbox == old(sock.outbox)
    ensures result.Ended? ==>
              var opening := Opening(c, first);
              var end := ReceiverHears(c, opening.state, old(sock.inbox));
              && result.status == end.status
              && receiver.Written() == end.disk && result.written == |end.disk.out|
              && sock.outbox == old(sock.outbox) + AckDatagrams(opening.acks) + ReceiverSends(c, false, opening.state, old(sock.inbox))
  {
    var p := Progress(1, 0, 0, 0, false);
    ghost var got: nat := 0;
    ghost var opening := Opening(c, first);
    if first.Some? {
      var accepted;
      accepted, p := TakeFirst(sock, receiver, first.value.0, first.value.1, blksize, windowsize, c);
      if !accepted {
        return UnexpectedPacket;
      }
      got := 1;
      ConsistentStep(c, ReceiverStart(), GotData(first.value.0, first.value.1));
    } else {
      assert sock.outbox + [] == sock.outbox;
    }
    result := ReceiveRest(sock, receiver, p, blksize, windowsize, retries, c, got, opening.state);
  }

  /** The main loop of a download, from the state it is entered in. */
  method ReceiveRest(sock: Socket<Event>, receiver: Receiver, entry: Progress,
                     blksize: nat, windowsize: u16, retries: nat, ghost c: Setup, ghost got0: nat, ghost start: ReceiverState)
    returns (result: GetResult)
    requires receiver.Valid() && c.netascii == (receiver.decoder != null)
    requires c.size == blksize && c.window == windowsize > 0 && c.recvRetries == retries && Consistent(c, start)
    requires start == StateOf(entry, got0, receiver.Written(), if entry.finished then Done else Running)
    modifies sock, receiver, receiver.sink, receiver.decoder
    ensures var end := ReceiverHears(c, start, old(sock.inbox));
            && result == Ended(end.status, |end.disk.out|) && receiver.Written() == end.disk
            && sock.outbox == old(sock.outbox) + ReceiverSends(c, false, start, old(sock.inbox))
  {
    var p := entry;
    ghost var got, r := got0, start;
    ghost var end := ReceiverHears(c, r, sock.inbox);
    ghost var allSent := sock.outbox + ReceiverSends(c, false, r, sock.inbox);
    while !p.finished
      invariant receiver.Valid() && Consistent(c, r)
      invariant r == StateOf(p, got, receiver.Written(), if p.finished then Done else Running)
      invariant ReceiverHears(c, r, sock.inbox) == end
      invariant sock.outbox + ReceiverSends(c, false, r, sock.inbox) == allSent
      decreases |sock.inbox|, !p.finished
    {
      ReceiverUnfolds(c, false, r, sock.inbox, sock.outbox);
      var e := sock.Receive();
      if e == None {
        return Ended(Running, receiver.written);
      }
      var input := Interpret(e.value);
      ConsistentStep(c, r, input);
      r := ReceiverStep(c, r, input).state;
      var stop;
      p, stop, got := ReceiveOnce(sock, receiver, p, input, blksize, windowsize, retries, c, got);
      if stop.Some? {
        NothingMore(c, r, sock.inbox, sock.outbox);
        return Ended(stop.value, receiver.written);
      }
    }
    NothingMore(c, r, sock.inbox, sock.outbox);
    result := Ended(Done, receiver.written);
  }

  lemma NothingMore(c: Setup, r: ReceiverState, inbox: seq<Event>, outbox: seq<bytes>)
    requires r.status != Running
    ensures ReceiverHears(c, r, inbox) == r
    ensures outbox + ReceiverSends(c, false, r, inbox) == outbox
  {
    ReceiverStopped(c, false, r, inbox);
    assert outbox + [] == outbox;
  }

  // ---------- the handshakes ----------

  /** Before it has a peer the client listens to everyone. */
  datatype Answer = NoAnswer | From(source: nat, payload: bytes)

  datatype Direction = Download | Upload

  /** An uploading client settles on an OACK, or on ACK(0), which it takes for "no options". */
  function PutHears(wantOack: bool, retries: nat, attempt: nat, source: nat, payload: bytes): Handshake.Asking {
    match Packets.Decode(payload)
    case Err(_) => Handshake.GaveUp
    case Ok(Oack(options)) =>
      if wantOack then Handshake.Settled(source, Negotiation.MergeOack(Negotiation.DEFAULTS, options), None)
      else Handshake.NextAttempt(retries, attempt)
    case Ok(Ack(block)) =>
      if block == 0 then Handshake.Settled(source, Negotiation.DEFAULTS, None) else Handshake.NextAttempt(retries, attempt)
    case Ok(ErrorPacket(_, _)) => Handshake.GaveUp
    case _ => Handshake.NextAttempt(retries, attempt)
  }

  function AskStep(d: Direction, wantOack: bool, retries: nat, attempt: nat, a: Answer): Handshake.Asking {
    match a
    case NoAnswer => Handshake.NextAttempt(retries, attempt)
    case From(source, payload) =>
      if d == Download then Handshake.AskHears(wantOack, retries, attempt, source, payload)
      else PutHears(wantOack, retries, attempt, source, payload)
  }

  /** What phase one ends with, and how often the request went out. */
  datatype Asked = Asked(result: Handshake.Asking, sends: nat)

  function AskRun(d: Direction, wantOack: bool, retries: nat, attempt: nat, inbox: seq<Answer>): Asked
    decreases |inbox|
  {
    if inbox == [] then Asked(Handshake.Unanswered(attempt), 1)
    else
      match AskStep(d, wantOack, retries, attempt, inbox[0])
      case Unanswered(next) =>
        var later := AskRun(d, wantOack, retries, next, inbox[1..]);
        later.(sends := later.sends + 1)
      case result => Asked(result, 1)
  }

  /** The answers that end phase one with a peer: a download takes DATA, an upload ACK(0), and either
      takes an OACK if it asked for options. */
  ghost predicate Conclusive(d: Direction, wantOack: bool, a: Answer) {
    a.From? && var p := Packets.Decode(a.payload);
      p.Ok? && ((p.value.Oack? && wantOack) || (d == Download && p.value.Data?) || (d == Upload && p.value == Packets.Ack(0)))
  }

  /** The answers that end it without one. */
  ghost predicate Fatal(a: Answer) {
    a.From? && (Packets.Decode(a.payload).Err? || Packets.IsError(a.payload))
  }

  /** What a conclusive answer settles: its sender, the parameters of the OACK or else the defaults,
      and a first block if it was DATA. */
  ghost predicate SettledBy(a: Answer, asked: Handshake.Asking)
    requires a.From? && Packets.Decode(a.payload).Ok?
  {
    && asked.Settled? && asked.peer == a.source
    && match Packets.Decode(a.payload).value
       case Oack(options) => asked.neg == Negotiation.MergeOack(Negotiation.Negotiated(512, 5, 1), options) && asked.first == None
       case Data(block, data) => asked.neg == Negotiation.Negotiated(512, 5, 1) && asked.first == Some((block, data))
       case _ => asked.neg == Negotiation.Negotiated(512, 5, 1) && asked.first == None
  }

  lemma OneAnswer(d: Direction, wantOack: bool, retries: nat, attempt: nat, a: Answer)
    ensures var next := AskStep(d, wantOack, retries, attempt, a);
            && (Conclusive(d, wantOack, a) ==> SettledBy(a, next))
            && (Fatal(a) ==> next == Handshake.GaveUp)
            && (!Conclusive(d, wantOack, a) && !Fatal(a) ==>
                  next == if attempt < retries then Handshake.Unanswered(attempt + 1) else Handshake.GaveUp)
  {
  }

  ghost predicate AnsweredAt(d: Direction, wantOack: bool, inbox: seq<Answer>, i: nat)
    requires i < |inbox|
  {
    Conclusive(d, wantOack, inbox[i]) && forall j :: 0 <= j < i ==> !Conclusive(d, wantOack, inbox[j]) && !Fatal(inbox[j])
  }

  lemma AnsweredLater(d: Direction, wantOack: bool, inbox: seq<Answer>, i: nat)
    requires i < |inbox| && !Conclusive(d, wantOack, inbox[0]) && !Fatal(inbox[0])
    ensures AnsweredAt(d, wantOack, inbox, i) <==> i > 0 && AnsweredAt(d, wantOack, inbox[1..], i - 1)
  {
    if i > 0 && AnsweredAt(d, wantOack, inbox[1..], i - 1) {
      forall j | 0 <= j < i ensures !Conclusive(d, wantOack, inbox[j]) && !Fatal(inbox[j]) {
        if j > 0 {
          assert inbox[1..][j - 1] == inbox[j];
        }
      }
    }
  }

  /** Phase one ends with a peer if and only if one of the answers to its retries + 1 requests is
      conclusive and none before it was fatal; and that answer settles it. Every silence and every
      other answer costs one attempt. */
  lemma {:induction false} AnsweredIff(d: Direction, wantOack: bool, retries: nat, attempt: nat, inbox: seq<Answer>)
    requires attempt <= retries
    ensures AskRun(d, wantOack, retries, attempt, inbox).result.Settled?
            <==> exists i: nat :: i < |inbox| && i <= retries - attempt && AnsweredAt(d, wantOack, inbox, i)
    ensures forall i: nat :: i < |inbox| && i <= retries - attempt && AnsweredAt(d, wantOack, inbox, i) ==>
              var end := AskRun(d, wantOack, retries, attempt, inbox);
              SettledBy(inbox[i], end.result) && end.sends == i + 1
    decreases |inbox|
  {
    if inbox != [] {
      OneAnswer(d, wantOack, retries, attempt, inbox[0]);
      var rest := inbox[1..];
      if Conclusive(d, wantOack, inbox[0]) {
        assert AnsweredAt(d, wantOack, inbox, 0);
      } else if !Fatal(inbox[0]) {
        forall i: nat | i < |inbox|
          ensures AnsweredAt(d, wantOack, inbox, i) <==> i > 0 && AnsweredAt(d, wantOack, rest, i - 1)
        {
          AnsweredLater(d, wantOack, inbox, i);
        }
        if attempt < retries {
          AnsweredIff(d, wantOack, retries, attempt + 1, rest);
          if i: nat :| i < |rest| && i <= retries - (attempt + 1) && AnsweredAt(d, wantOack, rest, i) {
            assert AnsweredAt(d, wantOack, inbox, i + 1);
          }
        }
      }
    }
  }

  /** Whatever was asked and granted: if anything was acknowledged, the encoded OACK is conclusive,
      and it settles exactly the parameters the server will use. */
  lemma OackSettles(cfg: Negotiation.ServerConfig, requested: seq<Options.OptionValue>, fileSize: Option<u64>,
                    d: Direction, retries: nat, source: nat)
    requires Negotiation.CanGrant(cfg, requested) && Packets.WellFormedOptions(requested)
    ensures var g := Negotiation.Granted(cfg, requested, fileSize);
            AskRun(d, true, retries, 0, [From(source, Packets.Encode(Packets.Oack(g.oack)))])
            == Asked(Handshake.Settled(source, g.neg, None), 1)
  {
    var g := Negotiation.Granted(cfg, requested, fileSize);
    Negotiation.GrantHeard(cfg, requested, fileSize, g);
    var inbox := [From(source, Packets.Encode(Packets.Oack(g.oack)))];
    AnsweredIff(d, true, retries, 0, inbox);
    assert AnsweredAt(d, true, inbox, 0);
  }

  function NoAnswers(n: nat): seq<Answer> {
    if n == 0 then [] else [NoAnswer] + NoAnswers(n - 1)
  }

  /** With no answer the request goes out retries + 1 times, not more and not less. */
  lemma {:induction false} AskPatience(d: Direction, wantOack: bool, retries: nat, attempt: nat, k: nat)
    requires attempt <= retries
    ensures var end := AskRun(d, wantOack, retries, attempt, NoAnswers(k));
            && end.result == (if attempt + k <= retries then Handshake.Unanswered(attempt + k) else Handshake.GaveUp)
            && end.sends == Min(k, retries - attempt) + 1
    decreases k
  {
    if k > 0 {
      assert NoAnswers(k)[1..] == NoAnswers(k - 1);
      if attempt < retries {
        AskPatience(d, wantOack, retries, attempt + 1, k - 1);
      }
    }
  }

  /** The request goes out at most retries + 1 times. */
  lemma {:induction false} AskBounded(d: Direction, wantOack: bool, retries: nat, attempt: nat, inbox: seq<Answer>)
    requires attempt <= retries
    ensures AskRun(d, wantOack, retries, attempt, inbox).sends <= retries + 1 - attempt
    decreases |inbox|
  {
    if inbox != [] && attempt < retries {
      AskBounded(d, wantOack, retries, attempt + 1, inbox[1..]);
    }
  }

  /** Decodes one answer and decides. */
  method HearAnswer(d: Direction, wantOack: bool, retries: nat, attempt: nat, source: nat, payload: bytes)
    returns (result: Handshake.Asking)
    ensures result == AskStep(d, wantOack, retries, attempt, From(source, payload))
  {
    result := Handshake.NextAttempt(retries, attempt);
    var packet := Codec.DecodeDatagram(payload);
    match packet {
      case Err(_) =>
        result := Handshake.GaveUp;
      case Ok(Oack(options)) =>
        if wantOack {
          result := Handshake.Settled(source, Negotiation.MergeOack(Negotiation.DEFAULTS, options), None);
        }
      case Ok(Data(block, data)) =>
        if d == Download {
          result := Handshake.Settled(source, Negotiation.DEFAULTS, Some((block, data)));
        }
      case Ok(Ack(block)) =>
        if d == Upload && block == 0 {
          result := Handshake.Settled(source, Negotiation.DEFAULTS, None);
        }
      case Ok(ErrorPacket(_, _)) =>
        result := Handshake.GaveUp;
      case _ =>
    }
  }

  /** The loop of phase one: repeats the request until somebody answers it. */
  method Ask(sock: Socket<Answer>, request: bytes, d: Direction, wantOack: bool, retries: nat)
    returns (result: Handshake.Asking)
    modifies sock
    ensures var end := AskRun(d, wantOack, retries, 0, old(sock.inbox));
            result == end.result && sock.outbox == old(sock.outbox) + Repeated(request, end.sends)
  {
    result := Handshake.Unanswered(0);
    ghost var end, sends := AskRun(d, wantOack, retries, 0, sock.inbox), 0;
    while result.Unanswered?
      invariant result.Unanswered? ==> AskRun(d, wantOack, retries, result.attempt, sock.inbox).result == end.result
      invariant result.Unanswered? ==> sends + AskRun(d, wantOack, retries, result.attempt, sock.inbox).sends == end.sends
      invariant !result.Unanswered? ==> Asked(result, sends) == end
      invariant sock.outbox == old(sock.outbox) + Repeated(request, sends)
      decreases |sock.inbox|, result.Unanswered?
    {
      sock.Send(request);
      RepeatedMore(request, sends);
      sends := sends + 1;
      var e := sock.Receive();
      if e == None {
        return;
      }
      match e.value {
        case NoAnswer =>
          result := Handshake.NextAttempt(retries, result.attempt);
        case From(source, payload) =>
          result := HearAnswer(d, wantOack, retries, result.attempt, source, payload);
      }
    }
  }

  /** The first phase of a download: an OACK, and nothing else, is confirmed with ACK(0). */
  method AskToRead(sock: Socket<Answer>, opts: Negotiation.ClientOptions, filename: bytes, retries: nat)
    returns (result: Handshake.Asking)
    modifies sock
    ensures var wanted := Negotiation.RequestOptions(opts, None);
            var end := AskRun(Download, wanted != [], retries, 0, old(sock.inbox));
            && result == end.result
            && sock.outbox == old(sock.outbox)
                              + Repeated(Packets.Encode(Packets.Rrq(filename, opts.mode, wanted)), end.sends)
                              + (if result.Settled? && result.first == None then [AckDatagram(0)] else [])
  {
    var wanted := Negotiation.BuildRequestOptions(opts, None);
    var request := Codec.EncodeFresh(Packets.Rrq(filename, opts.mode, wanted));
    result := Ask(sock, request, Download, wanted != [], retries);
    if result.Settled? && result.first == None {
      var ack0 := Codec.EncodeFresh(Packets.Ack(0));
      sock.Send(ack0);
    }
  }

  /** The first phase of an upload; the size of the file travels with the request. */
  method AskToWrite(sock: Socket<Answer>, opts: Negotiation.ClientOptions, filename: bytes, size: Option<u64>, retries: nat)
    returns (result: Handshake.Asking)
    modifies sock
    ensures var wanted := Negotiation.RequestOptions(opts, size);
            var end := AskRun(Upload, wanted != [], retries, 0, old(sock.inbox));
            && result == end.result
            && sock.outbox == old(sock.outbox)
                              + Repeated(Packets.Encode(Packets.Wrq(filename, opts.mode, wanted)), end.sends)
  {
    var wanted := Negotiation.BuildRequestOptions(opts, size);
    var request := Codec.EncodeFresh(Packets.Wrq(filename, opts.mode, wanted));
    result := Ask(sock, request, Upload, wanted != [], retries);
  }

  // ---------- whole transfers ----------

  /** A decoded OACK never makes the client adopt an unusable block size or window. */
  lemma MergedUsable(payload: bytes)
    requires Packets.Decode(payload).Ok? && Packets.Decode(payload).value.Oack?
    ensures var neg := Negotiation.MergeOack(Negotiation.DEFAULTS, Packets.Decode(payload).value.options);
            neg.blksize >= Options.MIN_BLOCK_SIZE && neg.windowsize > 0
  {
    Packets.DecodedIsWellFormed(payload);
    var options := Packets.Decode(payload).value.options;
    Options.AccessorsMeaning(options);
    var b, w := Options.BlockSizeOf(options), Options.WindowSizeOf(options);
    assert b.Some? ==> Options.BlockSize(b.value) in options;
    assert w.Some? ==> Options.WindowSize(w.value) in options;
  }

  lemma {:induction false} SettledUsable(d: Direction, wantOack: bool, retries: nat, attempt: nat, inbox: seq<Answer>)
    ensures var result := AskRun(d, wantOack, retries, attempt, inbox).result;
            result.Settled? ==> result.neg.blksize >= Options.MIN_BLOCK_SIZE && result.neg.windowsize > 0
    decreases |inbox|
  {
    if inbox != [] {
      var step := AskStep(d, wantOack, retries, attempt, inbox[0]);
      if step.Unanswered? {
        SettledUsable(d, wantOack, retries, step.attempt, inbox[1..]);
      } else if step.Settled? {
        var payload := inbox[0].payload;
        if Packets.Decode(payload).value.Oack? {
          MergedUsable(payload);
        }
      }
    }
  }

  /** Phase one ended with a DATA datagram that is not block 1. */
  predicate Refused(asked: Handshake.Asking) {
    asked.Settled? && asked.first.Some? && asked.first.value.0 != 1
  }

  /** A download: the data phase runs with exactly the parameters and the first block that phase
      one ended with. */
  method DoGet(ask: Socket<Answer>, sock: Socket<Event>, opts: Negotiation.ClientOptions, filename: bytes,
               retries: nat, sink: Disk)
    returns (result: Option<GetResult>)
    requires sink.data == []
    modifies ask, sock, sink
    ensures var wanted := Negotiation.RequestOptions(opts, None);
            var phase1 := AskRun(Download, wanted != [], retries, 0, old(ask.inbox));
            var asked := phase1.result;
            && ask.outbox == old(ask.outbox)
                             + Repeated(Packets.Encode(Packets.Rrq(filename, opts.mode, wanted)), phase1.sends)
                             + (if asked.Settled? && asked.first == None then [AckDatagram(0)] else [])
            && (result == None <==> !asked.Settled?)
            && (result == Some(UnexpectedPacket) <==> Refused(asked))
            && (!asked.Settled? || Refused(asked) ==> sock.outbox == old(sock.outbox))
            && (result.Some? && result.value.Ended? ==>
                  var c := Setup([], asked.neg.blksize, asked.neg.windowsize, opts.mode == Options.NetAscii, 0, retries);
                  var opening := Opening(c, asked.first);
                  var end := ReceiverHears(c, opening.state, old(sock.inbox));
                  && result.value.status == end.status
                  && sink.data == end.disk.out && result.value.written == |sink.data|
                  && sock.outbox == old(sock.outbox) + AckDatagrams(opening.acks)
                                    + ReceiverSends(c, false, opening.state, old(sock.inbox)))
  {
    var wanted := Negotiation.BuildRequestOptions(opts, None);
    SettledUsable(Download, wanted != [], retries, 0, ask.inbox);
    var asked := AskToRead(ask, opts, filename, retries);
    if !asked.Settled? {
      return None;
    }
    var decoder: Netascii.FromWire? := null;
    if opts.mode == Options.NetAscii {
      decoder := new Netascii.FromWire();
    }
    ghost var c := Setup([], asked.neg.blksize, asked.neg.windowsize, opts.mode == Options.NetAscii, 0, retries);
    var receiver := new Receiver(sink, decoder);
    var ended := ReceiveFile(sock, receiver, asked.first, asked.neg.blksize, asked.neg.windowsize, retries, c);
    result := Some(ended);
  }

  /** An upload: the source is cut and sent with exactly the parameters phase one ended with. */
  method DoPut(ask: Socket<Answer>, sock: Socket<Event>, opts: Negotiation.ClientOptions, filename: bytes,
               retries: nat, source: Source, size: Option<u64>)
    returns (result: Option<(Status, nat)>)
    requires source.pos == 0
    modifies ask, sock, source
    ensures var wanted := Negotiation.RequestOptions(opts, size);
            var phase1 := AskRun(Upload, wanted != [], retries, 0, old(ask.inbox));
            var asked := phase1.result;
            && ask.outbox == old(ask.outbox)
                             + Repeated(Packets.Encode(Packets.Wrq(filename, opts.mode, wanted)), phase1.sends)
            && (result == None <==> !asked.Settled?)
            && (!asked.Settled? ==> sock.outbox == old(sock.outbox))
            && (asked.Settled? ==>
                  asked.neg.blksize > 0 &&
                  var c := SetupFor(opts.mode, source.content, asked.neg, retries, 0);
                  var end := SenderRun(c, SenderStart(c), old(sock.inbox));
                  && end.sent <= |c.blocks|
                  && result == Some((end.status, |Blocks.Flatten(c.blocks[..end.sent])|))
                  && sock.outbox == old(sock.outbox) + SenderSends(c, false, SenderStart(c), old(sock.inbox)))
  {
    var wanted := Negotiation.BuildRequestOptions(opts, size);
    SettledUsable(Upload, wanted != [], retries, 0, ask.inbox);
    var asked := AskToWrite(ask, opts, filename, size, retries);
    if !asked.Settled? {
      return None;
    }
    ghost var c := SetupFor(opts.mode, source.content, asked.neg, retries, 0);
    SetupUsable(opts.mode, source.content, asked.neg, retries, 0);
    var sender := new Sender(source, opts.mode == Options.NetAscii);
    sender.SetBlksize(asked.neg.blksize, c);
    var status, total := SendFile(sock, sender, asked.neg.windowsize, retries);
    result := Some((status, total));
  }
}
