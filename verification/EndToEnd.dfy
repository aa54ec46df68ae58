/** The layers together: the file that arrives is the file that was sent. */
module EndToEnd {
  import opened Basics
  import opened Transfer
  import opened Endpoints
  import Blocks
  import Client
  import F = Fifo
  import Handshake
  import Limits
  import Liveness
  import Negotiation
  import Netascii
  import Options
  import Packets
  import opened Programs
  import Server
  import U = Unordered

  /** A transfer of `file`. */
  ghost predicate Carries(c: Setup, file: bytes) {
    Usable(c) && Blocks.Flatten(c.blocks) == WireOf(c.netascii, file)
  }

  // ---------- what the disk can hold ----------

  /** The blocks accepted so far decode to a prefix of the file. */
  lemma WrittenPrefix(c: Setup, file: bytes, got: nat)
    requires Carries(c, file) && got <= |c.blocks|
    ensures Written(c, got).out <= file
  {
    var done, rest := c.blocks[..got], c.blocks[got..];
    assert c.blocks == done + rest;
    Blocks.FlattenConcat(done, rest);
    if c.netascii {
      Blocks.DecodeBlocksIsDecode(Netascii.START, done);
      Netascii.RoundTripWhole(file);
      Netascii.DecodeConcat(Netascii.START, Blocks.Flatten(done), Blocks.Flatten(rest));
      Netascii.DecodeAppends(Netascii.Decode(Netascii.START, Blocks.Flatten(done)), Blocks.Flatten(rest));
    }
  }

  lemma LinkedDelivers(c: Setup, file: bytes, s: SenderState, r: ReceiverState)
    requires Carries(c, file) && U.Linked(c, s, r)
    ensures r.disk.out <= file
    ensures r.status == Done ==> r.disk.out == file
    ensures s.status == Done ==> r.status == Done
  {
    WrittenPrefix(c, file, r.got);
    if r.status == Done {
      WrittenAll(c, file);
    }
  }

  // ---------- over every run ----------

  /** Success means delivery, over order-preserving channels that lose and duplicate: at every
      moment the sink holds a prefix of the file; a finished receiver holds the file; a sender that
      reports success has a finished receiver. Octet and netascii, any block size, any window. */
  lemma DeliveryInOrder(c: Setup, file: bytes, init: F.State, steps: seq<F.Step>)
    requires Carries(c, file) && F.Init(c, init) && F.Legal(c, init, steps)
    ensures var st := F.Exec(c, init, steps);
            && st.rcv.disk.out <= file
            && (st.rcv.status == Done ==> st.rcv.disk.out == file)
            && (st.snd.status == Done ==> st.rcv.status == Done)
  {
    F.InitInv(c, init);
    F.InvRun(c, init, steps);
    var st := F.Exec(c, init, steps);
    LinkedDelivers(c, file, st.snd, st.rcv);
  }

  /** The same over a network that also reorders, within the age bounds. */
  lemma DeliveryReordered(c: Setup, file: bytes, init: U.State, steps: seq<U.Step>)
    requires Carries(c, file) && U.Init(c, init) && U.Legal(c, init, steps)
    ensures var st := U.Exec(c, init, steps);
            && st.rcv.disk.out <= file
            && (st.rcv.status == Done ==> st.rcv.disk.out == file)
            && (st.snd.status == Done ==> st.rcv.status == Done)
  {
    U.InitInv(c, init);
    U.InvRun(c, init, steps);
    var st := U.Exec(c, init, steps);
    LinkedDelivers(c, file, st.snd, st.rcv);
  }

  // ---------- the programs at the two ends ----------

  /** Put the sending and the receiving program at the two ends of lossy, duplicating,
      order-preserving channels and stop at any moment: the channels were given, in order, exactly
      what the programs sent, parting errors apart; and if the sending program has returned
      success, the receiving program has returned and its sink is the file. */
  lemma ProgramsDeliver(c: Setup, file: bytes, download: bool, init: F.State, steps: seq<F.Step>)
    requires Carries(c, file) && F.Init(c, init) && F.Legal(c, init, steps)
    ensures var heard, answers := SenderEvents(c, init, steps), ReceiverEvents(c, init, steps);
            var s := SenderRun(c, SenderStart(c), heard);
            var r := ReceiverHears(c, ReceiverStart(), answers);
            && r.disk.out <= file
            && (s.status == Done ==> r.status == Done && r.disk.out == file)
            && SenderSends(c, download, SenderStart(c), heard)
               == OnWire(init.data) + OnWire(DataPut(c, init, steps)) + Farewell(download, s.status)
            && ReceiverSends(c, !download, ReceiverStart(), answers)
               == AcksOnWire(AcksPut(c, init, steps)) + Farewell(!download, r.status)
  {
    SenderProjects(c, download, init, steps);
    ReceiverProjects(c, !download, init, steps);
    DeliveryInOrder(c, file, init, steps);
  }

  // ---------- the server's tasks inside the network ----------

  /** The task for a read request, from negotiation to the last block: if it reports success after
      waiting through `waiting` and then taking part in a run of the network, the client that used
      the granted parameters has finished and holds the file. */
  lemma ServedReadDelivers(cfg: Negotiation.ServerConfig, retries: nat, clientRetries: nat, mode: Options.Mode,
                           options: seq<Options.OptionValue>, file: bytes, size: u64, g: Negotiation.Grant,
                           c: Setup, init: F.State, steps: seq<F.Step>, waiting: seq<Event>)
    requires Negotiation.CanGrant(cfg, options) && g == Negotiation.Granted(cfg, options, Some(size))
    requires c == SetupFor(mode, file, g.neg, retries, clientRetries)
    requires Usable(c) && F.Init(c, init) && F.Legal(c, init, steps)
    requires var events := SenderEvents(c, init, steps);
             if g.oack == [] then waiting == []
             else AwaitRun(retries, 0, waiting + events).result == Acked && AwaitRun(retries, 0, waiting + events).rest == events
    ensures var served := Server.ReadServed(cfg, retries, mode, options, file, size, waiting + SenderEvents(c, init, steps));
            var r := ReceiverHears(c, ReceiverStart(), ReceiverEvents(c, init, steps));
            && r.disk.out <= file
            && (served.status == Done ==> r.status == Done && r.disk.out == file)
  {
    SetupUsable(mode, file, g.neg, retries, clientRetries);
    ServedAs(cfg, retries, clientRetries, mode, options, file, size, g, c, waiting, SenderEvents(c, init, steps));
    ProgramsDeliver(c, file, true, init, steps);
  }

  /** The task's status is that of its transfer, once the wait is over. */
  lemma ServedAs(cfg: Negotiation.ServerConfig, retries: nat, clientRetries: nat, mode: Options.Mode,
                 options: seq<Options.OptionValue>, file: bytes, size: u64, g: Negotiation.Grant, c: Setup,
                 waiting: seq<Event>, events: seq<Event>)
    requires Negotiation.CanGrant(cfg, options) && g == Negotiation.Granted(cfg, options, Some(size))
    requires g.neg.blksize > 0 && c == SetupFor(mode, file, g.neg, retries, clientRetries)
    requires if g.oack == [] then waiting == []
             else AwaitRun(retries, 0, waiting + events).result == Acked && AwaitRun(retries, 0, waiting + events).rest == events
    ensures Server.ReadServed(cfg, retries, mode, options, file, size, waiting + events).status
            == SenderRun(c, SenderStart(c), events).status
  {
    assert [] + events == events;
    var own := SetupFor(mode, file, g.neg, retries, 0);
    SenderIndependent(c, own, SenderStart(c), events);
    assert SenderStart(own) == SenderStart(c);
  }

  // ---------- an upload, from the request on ----------

  /** Whatever the client hears before it has a peer is a server's reply to the request, or an
      ERROR, or does not decode. */
  ghost predicate OnlyReplies(g: Negotiation.Grant, answers: seq<Client.Answer>) {
    forall a :: a in answers && a.From? ==>
      || Limits.WriteReply(g, a.payload)
      || Packets.Decode(a.payload).Err? || Packets.Decode(a.payload).value.ErrorPacket?
  }

  /** The client heard no ACK(0), or the server uses the defaults anyway. */
  ghost predicate NotMisled(g: Negotiation.Grant, answers: seq<Client.Answer>) {
    g.neg == Negotiation.DEFAULTS || forall a :: a in answers && a.From? ==> a.payload != AckDatagram(0)
  }

  /** Then the parameters it settles on are the server's. */
  lemma {:induction false} UploadSettles(cfg: Negotiation.ServerConfig, requested: seq<Options.OptionValue>, g: Negotiation.Grant,
                                         wantOack: bool, retries: nat, attempt: nat, answers: seq<Client.Answer>)
    requires Negotiation.CanGrant(cfg, requested) && Packets.WellFormedOptions(requested)
    requires g == Negotiation.Granted(cfg, requested, None) && (g.oack != [] ==> wantOack)
    requires OnlyReplies(g, answers) && NotMisled(g, answers)
    ensures var asked := Client.AskRun(Client.Upload, wantOack, retries, attempt, answers).result;
            asked.Settled? ==> asked.neg == g.neg
    decreases |answers|
  {
    if answers != [] {
      if answers[0].From? && Limits.WriteReply(g, answers[0].payload) {
        Limits.WriteAgreesIff(cfg, requested, wantOack, retries, attempt, answers[0].source, answers[0].payload);
      }
      var step := Client.AskStep(Client.Upload, wantOack, retries, attempt, answers[0]);
      if step.Unanswered? {
        UploadSettles(cfg, requested, g, wantOack, retries, step.attempt, answers[1..]);
      }
    }
  }

  lemma NothingAsked(cfg: Negotiation.ServerConfig, requested: seq<Options.OptionValue>)
    requires requested == []
    ensures Negotiation.CanGrant(cfg, requested) && Negotiation.Granted(cfg, requested, None).oack == []
  {
  }

  /** An upload from its request on: the server hears the client's wishes as `kept` and grants
      `g`; the client settles on what it hears, cuts the file with that and sends it. If it never
      heard ACK(0), or the grant is the defaults, and then reports success, the server's task has
      finished and its file holds the source. The condition cannot be dropped
      (`Limits.WriteDisagrees`). */
  lemma UploadDelivers(cfg: Negotiation.ServerConfig, opts: Negotiation.ClientOptions, filename: bytes, size: Option<u64>,
                       retries: nat, serverRetries: nat, file: bytes, answers: seq<Client.Answer>,
                       g: Negotiation.Grant, asked: Handshake.Asking, c: Setup, init: F.State, steps: seq<F.Step>)
    requires var wanted := Negotiation.RequestOptions(opts, size);
             var kept := Options.Acceptable(wanted);
             && Packets.Text(filename)
             && Negotiation.CanGrant(cfg, kept) && g == Negotiation.Granted(cfg, kept, None)
             && asked == Client.AskRun(Client.Upload, wanted != [], retries, 0, answers).result
    requires OnlyReplies(g, answers) && NotMisled(g, answers)
    requires asked.Settled? && asked.neg.blksize > 0 && c == SetupFor(opts.mode, file, asked.neg, retries, serverRetries)
    requires Usable(c) && F.Init(c, init) && F.Legal(c, init, steps)
    ensures var wanted := Negotiation.RequestOptions(opts, size);
            Packets.Decode(Packets.Encode(Packets.Wrq(filename, opts.mode, wanted)))
            == Ok(Packets.Wrq(filename, opts.mode, Options.Acceptable(wanted)))
    ensures var own := SetupFor(opts.mode, file, asked.neg, retries, 0);
            var task := Setup([], g.neg.blksize, g.neg.windowsize, opts.mode == Options.NetAscii, 0, serverRetries);
            var s := SenderRun(own, SenderStart(own), SenderEvents(c, init, steps));
            var r := ReceiverHears(task, ReceiverStart(), ReceiverEvents(c, init, steps));
            && r.disk.out <= file
            && (s.status == Done ==> r.status == Done && r.disk.out == file)
  {
    var wanted := Negotiation.RequestOptions(opts, size);
    var kept := Options.Acceptable(wanted);
    Negotiation.RequestHeard(opts, filename, size, kept);
    if wanted == [] {
      NothingAsked(cfg, kept);
    }
    UploadSettles(cfg, kept, g, wanted != [], retries, 0, answers);
    SetupUsable(opts.mode, file, asked.neg, retries, serverRetries);
    var own := SetupFor(opts.mode, file, asked.neg, retries, 0);
    assert SenderStart(own) == SenderStart(c);
    SenderIndependent(c, own, SenderStart(c), SenderEvents(c, init, steps));
    ServedWriteDelivers(c, file, init, steps);
  }

  /** An upload whose two ends agree on the parameters: if the client reports success, the server's
      task has finished and its file holds the source. */
  lemma ServedWriteDelivers(c: Setup, file: bytes, init: F.State, steps: seq<F.Step>)
    requires Carries(c, file) && F.Init(c, init) && F.Legal(c, init, steps)
    ensures var s := SenderRun(c, SenderStart(c), SenderEvents(c, init, steps));
            var task := Setup([], c.size, c.window, c.netascii, 0, c.recvRetries);
            var r := ReceiverHears(task, ReceiverStart(), ReceiverEvents(c, init, steps));
            && r.disk.out <= file
            && (s.status == Done ==> r.status == Done && r.disk.out == file)
  {
    ProgramsDeliver(c, file, false, init, steps);
    ReceiverIndependent(c, Setup([], c.size, c.window, c.netascii, 0, c.recvRetries), ReceiverStart(), ReceiverEvents(c, init, steps));
  }

  // ---------- what an upload reports ----------

  lemma {:induction false} SenderRunOk(c: Setup, s: SenderState, inbox: seq<Event>)
    requires Usable(c) && SenderOk(c, s)
    ensures SenderOk(c, SenderRun(c, s, inbox))
    decreases |inbox|
  {
    if s.status == Running && inbox != [] {
      U.SenderStaysOk(c, s, Hear(inbox[0]));
      SenderRunOk(c, SenderStep(c, s, Hear(inbox[0])), inbox[1..]);
    }
  }

  /** A successful upload reports the size of the encoded source, whatever was retransmitted: the
      blocks counted by then are all blocks, once each. */
  lemma UploadTotal(c: Setup, file: bytes, inbox: seq<Event>)
    requires Carries(c, file)
    ensures var end := SenderRun(c, SenderStart(c), inbox);
            && end.sent <= |c.blocks|
            && (end.status == Done ==> |Blocks.Flatten(c.blocks[..end.sent])| == |WireOf(c.netascii, file)|)
  {
    SenderRunOk(c, SenderStart(c), inbox);
    assert c.blocks[..|c.blocks|] == c.blocks;
  }

  // ---------- handshake, then transfer ----------

  /** A download from the first request on: after any handshake that settles, whatever the network
      did and however many tasks it started, every run of the data phase with the chosen task
      under the client's own parameters delivers that task's file. */
  lemma DownloadDelivers(sc: Handshake.Scenario, start: Handshake.World, asking: seq<Handshake.Step>,
                         init: F.State, steps: seq<F.Step>)
    requires Handshake.Reasonable(sc) && Handshake.Init(sc, start) && Handshake.Legal(sc, start, asking)
    requires Handshake.Exec(sc, start, asking).client.Settled?
    requires var w := Handshake.Exec(sc, start, asking);
             && w.client.peer < |w.tasks|
             && var c := w.tasks[w.client.peer].setup;
                Usable(c) && F.Init(c, init) && F.Legal(c, init, steps)
    ensures var w := Handshake.Exec(sc, start, asking);
            var t := w.tasks[w.client.peer];
            var st := F.Exec(t.setup, init, steps);
            && t.setup.size == w.client.neg.blksize && t.setup.window == w.client.neg.windowsize
            && (w.client.first.Some? ==>
                  var opening := Client.Opening(OwnView(sc, w.client.neg), w.client.first);
                  && opening.state == F.Apply(t.setup, init, F.DeliverData).rcv
                  && AckDatagrams(opening.acks) == AcksOnWire(AcksAppended(t.setup, init, F.DeliverData)))
            && st.rcv.disk.out <= t.file
            && (st.snd.status == Done ==> st.rcv.status == Done && st.rcv.disk.out == t.file)
  {
    Handshake.InvRun(sc, start, asking);
    var w := Handshake.Exec(sc, start, asking);
    var t := w.tasks[w.client.peer];
    assert Handshake.Faithful(t);
    FirstDataIsDelivery(t.setup, init);
    OpeningIndependent(t.setup, OwnView(sc, w.client.neg), w.client.first);
    DeliveryInOrder(t.setup, t.file, init, steps);
  }

  /** The same when the data phase inherits what the handshake left in the network: a copy of
      ACK(0) and every copy of the first window stay deliverable to the end, in any order the age
      bounds allow. */
  lemma DownloadDeliversReordered(sc: Handshake.Scenario, start: Handshake.World, asking: seq<Handshake.Step>,
                                  init: U.State, steps: seq<U.Step>)
    requires Handshake.Reasonable(sc) && Handshake.Init(sc, start) && Handshake.Legal(sc, start, asking)
    requires Handshake.Exec(sc, start, asking).client.Settled?
    requires var w := Handshake.Exec(sc, start, asking);
             && w.client.peer < |w.tasks|
             && var c := w.tasks[w.client.peer].setup;
                Usable(c) && U.Init(c, init) && U.Legal(c, init, steps)
    ensures var w := Handshake.Exec(sc, start, asking);
            var t := w.tasks[w.client.peer];
            var st := U.Exec(t.setup, init, steps);
            && t.setup.size == w.client.neg.blksize && t.setup.window == w.client.neg.windowsize
            && (w.client.first.Some? ==>
                  var opening := Client.Opening(OwnView(sc, w.client.neg), w.client.first);
                  && U.Msg(t.setup, 0) in init.data
                  && var next := U.Apply(t.setup, init, U.ReceiverGets(U.Msg(t.setup, 0)));
                     opening.state == next.rcv && next.acks == init.acks + (set n | n in opening.acks :: U.AckMsg(1, n)))
            && st.rcv.disk.out <= t.file
            && (st.snd.status == Done ==> st.rcv.status == Done && st.rcv.disk.out == t.file)
  {
    Handshake.InvRun(sc, start, asking);
    var w := Handshake.Exec(sc, start, asking);
    var t := w.tasks[w.client.peer];
    assert Handshake.Faithful(t);
    FirstDataReordered(t.setup, init);
    OpeningIndependent(t.setup, OwnView(sc, w.client.neg), w.client.first);
    DeliveryReordered(t.setup, t.file, init, steps);
  }

  lemma FirstDataReordered(c: Setup, init: U.State)
    requires Usable(c) && U.Init(c, init)
    ensures U.Msg(c, 0) in init.data
    ensures var opening := Client.Opening(c, Some((1, c.blocks[0])));
            var next := U.Apply(c, init, U.ReceiverGets(U.Msg(c, 0)));
            && opening.state == next.rcv
            && next.acks == init.acks + (set n | n in opening.acks :: U.AckMsg(1, n))
  {
    var opening := Client.Opening(c, Some((1, c.blocks[0])));
    var put := U.AckMsgs(1, opening.acks);
    forall n | n in opening.acks ensures U.AckMsg(1, n) in put {
      var k :| 0 <= k < |opening.acks| && opening.acks[k] == n;
      assert put[k] == U.AckMsg(1, n);
    }
  }

  /** What opens a download does not depend on the blocks still to come. */
  lemma OpeningIndependent(c: Setup, d: Setup, first: Option<(u16, bytes)>)
    requires d.size == c.size && d.window == c.window && d.netascii == c.netascii
    ensures Client.Opening(d, first) == Client.Opening(c, first)
  {
  }

  /** The client's own view of the transfer, as its data phase runs it. */
  function OwnView(sc: Handshake.Scenario, neg: Negotiation.Negotiated): Setup {
    Setup([], neg.blksize, neg.windowsize, sc.opts.mode == Options.NetAscii, 0, sc.clientRetries)
  }

  /** A client that settled on the first block stands where the network's first delivery of a
      block would have put it, and has sent what that delivery would have made it send: ACK(1) if the
      block was short or the window is 1, and otherwise nothing. */
  lemma FirstDataIsDelivery(c: Setup, init: F.State)
    requires Usable(c) && F.Init(c, init)
    ensures init.data != []
    ensures var opening := Client.Opening(c, Some((1, c.blocks[0])));
            && opening.state == F.Apply(c, init, F.DeliverData).rcv
            && AckDatagrams(opening.acks) == AcksOnWire(AcksAppended(c, init, F.DeliverData))
            && opening.acks == if |c.blocks[0]| < c.size || c.window == 1 then [1] else []
  {
    assert init.data[0] == U.Msg(c, 0);
    OpeningAcks(c, c.blocks[0]);
    FirstEffect(c, init, c.blocks[0], Client.Opening(c, Some((1, c.blocks[0]))));
  }

  lemma FirstEffect(c: Setup, st: F.State, block: bytes, opening: Reply)
    requires Usable(c) && SenderOk(c, st.snd) && st.rcv == ReceiverStart()
    requires st.data != [] && st.data[0].number == 1 && st.data[0].payload == block
    requires opening == ReceiverStep(c, ReceiverStart(), GotData(1, block))
    ensures opening.state == F.Apply(c, st, F.DeliverData).rcv
    ensures AckDatagrams(opening.acks) == AcksOnWire(AcksAppended(c, st, F.DeliverData))
  {
    HeardAsSent(1, block);
    ReceiverStepOnEvent(c, st, F.DeliverData);
    AcksAppendedAre(c, st, F.DeliverData);
  }

  lemma OpeningAcks(c: Setup, block: bytes)
    requires c.window > 0
    ensures Client.Opening(c, Some((1, block))) == ReceiverStep(c, ReceiverStart(), GotData(1, block))
    ensures Client.Opening(c, Some((1, block))).acks == if |block| < c.size || c.window == 1 then [1] else []
  {
  }

  // ---------- transfers that succeed ----------

  /** A transfer about to start, with nothing left over from the handshake. */
  ghost function FreshTransfer(c: Setup): F.State
    requires Usable(c)
  {
    F.State(SenderStart(c), ReceiverStart(), U.Burst(c, SenderStart(c)), [])
  }

  /** A loss-free run of a transfer, with what the two programs hear and where they end. */
  lemma LossFreeTransfer(c: Setup, file: bytes) returns (deliveries: seq<F.Step>)
    requires Carries(c, file)
    ensures F.Legal(c, FreshTransfer(c), deliveries) && Liveness.OnlyDeliveries(deliveries)
    ensures SenderRun(c, SenderStart(c), SenderEvents(c, FreshTransfer(c), deliveries)).status == Done
    ensures var r := ReceiverHears(c, ReceiverStart(), ReceiverEvents(c, FreshTransfer(c), deliveries));
            r.status == Done && r.disk.out == file
    ensures deliveries != [] && deliveries[0] == F.DeliverData
  {
    var init := FreshTransfer(c);
    deliveries := Liveness.LossFreeRunExists(c, init);
    SenderStates(c, init, deliveries);
    ProgramsDeliver(c, file, true, init, deliveries);
  }

  /** The first event of such a run is DATA(1). */
  lemma FirstEvent(c: Setup, init: F.State, deliveries: seq<F.Step>) returns (rest: seq<Event>)
    requires Usable(c) && F.Init(c, init) && F.Legal(c, init, deliveries)
    requires deliveries != [] && deliveries[0] == F.DeliverData
    ensures ReceiverEvents(c, init, deliveries) == [Datagram(DataDatagram(1, c.blocks[0]))] + rest
  {
    var m := FirstMessage(c, init);
    rest := ReceiverEvents(c, F.Apply(c, init, F.DeliverData), deliveries[1..]);
  }

  lemma FirstMessage(c: Setup, init: F.State) returns (m: U.DataMsg)
    requires Usable(c) && F.Init(c, init)
    ensures init.data != [] && m == init.data[0] && m.number == 1 && m.payload == c.blocks[0]
    ensures ReceiverEvent(init, F.DeliverData) == [Datagram(DataDatagram(1, c.blocks[0]))]
  {
    m := init.data[0];
    assert m == U.Msg(c, 0);
  }

  /** A receiver that opened with a first block has heard its DATA. */
  lemma OpenedByData(c: Setup, block: bytes, rest: seq<Event>)
    ensures ReceiverHears(c, ReceiverStart(), [Datagram(DataDatagram(1, block))] + rest)
            == ReceiverHears(c, Client.Opening(c, Some((1, block))).state, rest)
  {
    HeardAsSent(1, block);
    ReceiverHearsCons(c, ReceiverStart(), Datagram(DataDatagram(1, block)), rest);
  }

  /** Every download can succeed: in every scenario, for every file, there is a handshake and a
      loss-free transfer after which the downloading program has returned success with the file in
      its sink, using what the server granted to its request, and the serving program has returned
      success as well. */
  lemma DownloadSucceeds(sc: Handshake.Scenario, start: Handshake.World, file: bytes, size: u64, g: Negotiation.Grant, c: Setup)
    returns (asking: seq<Handshake.Step>, deliveries: seq<F.Step>, heard: seq<Event>)
    requires Handshake.Reasonable(sc) && Handshake.Init(sc, start)
    requires g == Negotiation.Granted(sc.cfg, Options.Acceptable(Negotiation.RequestOptions(sc.opts, None)), Some(size))
    requires g.neg.blksize > 0 && c == SetupFor(sc.opts.mode, file, g.neg, sc.serverRetries, sc.clientRetries)
    ensures Usable(c)
    ensures Handshake.Legal(sc, start, asking)
    ensures F.Legal(c, FreshTransfer(c), deliveries) && Liveness.OnlyDeliveries(deliveries)
    ensures var wanted := Negotiation.RequestOptions(sc.opts, None);
            var asked := Client.AskRun(Client.Download, wanted != [], sc.clientRetries, 0, ClientAnswers(sc, start, asking)).result;
            && asked == Handshake.Settled(0, g.neg, if g.oack == [] then Some((1, c.blocks[0])) else None)
            && ReceiverEvents(c, FreshTransfer(c), deliveries)
               == (if g.oack == [] then [Datagram(DataDatagram(1, c.blocks[0]))] else []) + heard
            && var own := OwnView(sc, asked.neg);
               var end := ReceiverHears(own, Client.Opening(own, asked.first).state, heard);
               end.status == Done && end.disk.out == file
    ensures var confirmation := if g.oack == [] then [] else [Datagram(AckDatagram(0))];
            Server.ReadServed(sc.cfg, sc.serverRetries, sc.opts.mode,
                              Options.Acceptable(Negotiation.RequestOptions(sc.opts, None)), file, size,
                              confirmation + SenderEvents(c, FreshTransfer(c), deliveries)).status == Done
  {
    var kept := Options.Acceptable(Negotiation.RequestOptions(sc.opts, None));
    Handshake.GrantUsable(sc.cfg, kept, size);
    SetupUsable(sc.opts.mode, file, g.neg, sc.serverRetries, sc.clientRetries);
    asking := Handshake.HandshakeSucceeds(sc, start, file, size);
    ClientProjects(sc, start, asking);
    deliveries := LossFreeTransfer(c, file);
    var first := if g.oack == [] then Some((1, c.blocks[0])) else None;
    heard := ClientReceives(c, OwnView(sc, g.neg), first, deliveries);
    ServerConfirmed(sc.cfg, sc.serverRetries, sc.clientRetries, sc.opts.mode, kept, file, size, g, c,
                    SenderEvents(c, FreshTransfer(c), deliveries));
  }

  /** The client's half of the data phase, from where its handshake left it. */
  lemma ClientReceives(c: Setup, own: Setup, first: Option<(u16, bytes)>, deliveries: seq<F.Step>) returns (heard: seq<Event>)
    requires Usable(c) && F.Legal(c, FreshTransfer(c), deliveries)
    requires deliveries != [] && deliveries[0] == F.DeliverData
    requires first == None || first == Some((1, c.blocks[0]))
    requires own.size == c.size && own.window == c.window && own.netascii == c.netascii && own.recvRetries == c.recvRetries
    ensures ReceiverEvents(c, FreshTransfer(c), deliveries)
            == (if first == None then [] else [Datagram(DataDatagram(1, c.blocks[0]))]) + heard
    ensures ReceiverHears(own, Client.Opening(own, first).state, heard)
            == ReceiverHears(c, ReceiverStart(), ReceiverEvents(c, FreshTransfer(c), deliveries))
  {
    var events := ReceiverEvents(c, FreshTransfer(c), deliveries);
    ReceiverIndependent(c, own, ReceiverStart(), events);
    if first == None {
      heard := events;
      assert [] + heard == heard;
    } else {
      heard := FirstEvent(c, FreshTransfer(c), deliveries);
      OpenedByData(own, c.blocks[0], heard);
    }
  }

  /** The server's half: ACK(0) if it has something to confirm, then the transfer. */
  lemma ServerConfirmed(cfg: Negotiation.ServerConfig, retries: nat, clientRetries: nat, mode: Options.Mode,
                        options: seq<Options.OptionValue>, file: bytes, size: u64, g: Negotiation.Grant, c: Setup, events: seq<Event>)
    requires Negotiation.CanGrant(cfg, options) && g == Negotiation.Granted(cfg, options, Some(size))
    requires g.neg.blksize > 0 && c == SetupFor(mode, file, g.neg, retries, clientRetries)
    ensures Server.ReadServed(cfg, retries, mode, options, file, size,
                              (if g.oack == [] then [] else [Datagram(AckDatagram(0))]) + events).status
            == SenderRun(c, SenderStart(c), events).status
  {
    if g.oack == [] {
      ServedAs(cfg, retries, clientRetries, mode, options, file, size, g, c, [], events);
    } else {
      var confirmation := [Datagram(AckDatagram(0))];
      HeardAsSent(0, []);
      assert ConfirmedAt(confirmation + events, 0);
      AwaitedIff(retries, 0, confirmation + events);
      assert (confirmation + events)[1..] == events;
      ServedAs(cfg, retries, clientRetries, mode, options, file, size, g, c, confirmation, events);
    }
  }

  /** Every upload can succeed: the client hears the server's first reply, settles on what the
      server granted, and there is a loss-free transfer after which both programs have returned
      success and the server's file is the source. */
  lemma UploadSucceeds(cfg: Negotiation.ServerConfig, opts: Negotiation.ClientOptions, filename: bytes, size: Option<u64>,
                       retries: nat, serverRetries: nat, file: bytes, source: nat, g: Negotiation.Grant, c: Setup)
    returns (deliveries: seq<F.Step>)
    requires Packets.Text(filename) && Negotiation.CanGrant(cfg, Options.Acceptable(Negotiation.RequestOptions(opts, size)))
    requires g == Negotiation.Granted(cfg, Options.Acceptable(Negotiation.RequestOptions(opts, size)), None)
    requires g.neg.blksize > 0 && c == SetupFor(opts.mode, file, g.neg, retries, serverRetries)
    ensures Usable(c) && F.Legal(c, FreshTransfer(c), deliveries) && Liveness.OnlyDeliveries(deliveries)
    ensures var wanted := Negotiation.RequestOptions(opts, size);
            var reply := if g.oack == [] then AckDatagram(0) else Packets.Encode(Packets.Oack(g.oack));
            Client.AskRun(Client.Upload, wanted != [], retries, 0, [Client.From(source, reply)]).result
            == Handshake.Settled(source, g.neg, None)
    ensures var own := SetupFor(opts.mode, file, g.neg, retries, 0);
            var end := SenderRun(own, SenderStart(own), SenderEvents(c, FreshTransfer(c), deliveries));
            end.status == Done && end.sent == |own.blocks|
    ensures var task := Setup([], g.neg.blksize, g.neg.windowsize, opts.mode == Options.NetAscii, 0, serverRetries);
            var r := ReceiverHears(task, ReceiverStart(), ReceiverEvents(c, FreshTransfer(c), deliveries));
            r.status == Done && r.disk.out == file
  {
    var kept := Options.Acceptable(Negotiation.RequestOptions(opts, size));
    Negotiation.RequestHeard(opts, filename, size, kept);
    ReplySettles(cfg, opts, kept, size, retries, source, g);
    Negotiation.GrantBounded(cfg, kept, None);
    SetupUsable(opts.mode, file, g.neg, retries, serverRetries);
    deliveries := LossFreeTransfer(c, file);
    var events := SenderEvents(c, FreshTransfer(c), deliveries);
    var own := SetupFor(opts.mode, file, g.neg, retries, 0);
    assert SenderStart(own) == SenderStart(c);
    SenderIndependent(c, own, SenderStart(c), events);
    SenderRunOk(c, SenderStart(c), events);
    ReceiverIndependent(c, Setup([], c.size, c.window, c.netascii, 0, c.recvRetries), ReceiverStart(),
                        ReceiverEvents(c, FreshTransfer(c), deliveries));
  }

  lemma ReplySettles(cfg: Negotiation.ServerConfig, opts: Negotiation.ClientOptions, kept: seq<Options.OptionValue>, size: Option<u64>,
                     retries: nat, source: nat, g: Negotiation.Grant)
    requires kept == Options.Acceptable(Negotiation.RequestOptions(opts, size)) && Packets.WellFormedOptions(kept)
    requires Negotiation.CanGrant(cfg, kept) && g == Negotiation.Granted(cfg, kept, None)
    ensures var wanted := Negotiation.RequestOptions(opts, size);
            var reply := if g.oack == [] then AckDatagram(0) else Packets.Encode(Packets.Oack(g.oack));
            Client.AskRun(Client.Upload, wanted != [], retries, 0, [Client.From(source, reply)]).result
            == Handshake.Settled(source, g.neg, None)
  {
    var wanted := Negotiation.RequestOptions(opts, size);
    if wanted == [] {
      NothingAsked(cfg, kept);
    }
    if g.oack == [] {
      Negotiation.MergeAgrees(cfg, kept, None);
      Packets.DecodePlain(Packets.Ack(0));
      var inbox := [Client.From(source, AckDatagram(0))];
      assert Client.AnsweredAt(Client.Upload, wanted != [], inbox, 0);
      Client.AnsweredIff(Client.Upload, wanted != [], retries, 0, inbox);
    } else {
      Client.OackSettles(cfg, kept, None, Client.Upload, retries, source);
    }
  }
}
