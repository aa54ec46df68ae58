/** The programs inside the networks: what an end of a network run receives, what it becomes and what
    it sends is what the program receives, becomes and sends. */
module Programs {
  import opened Basics
  import opened Transfer
  import opened Endpoints
  import Client
  import F = Fifo
  import H = Handshake
  import Negotiation
  import Options
  import Packets
  import Server
  import U = Unordered

  // ---------- the programs inside the transfer ----------

  /** What the sender's socket returns in a step of the network, if it takes part in it. */
  ghost function SenderEvent(st: F.State, step: F.Step): seq<Event> {
    match step
    case SenderTick => [Silence]
    case SenderNoise(payload) => [Datagram(payload)]
    case SenderAbort(payload) => [Datagram(payload)]
    case DeliverAck => if st.acks == [] then [] else [Datagram(AckDatagram(st.acks[0].number))]
    case _ => []
  }

  ghost function ReceiverEvent(st: F.State, step: F.Step): seq<Event> {
    match step
    case ReceiverTick => [Silence]
    case ReceiverNoise(payload) => [Datagram(payload)]
    case ReceiverAbort(payload) => [Datagram(payload)]
    case DeliverData => if st.data == [] then [] else [Datagram(DataDatagram(st.data[0].number, st.data[0].payload))]
    case _ => []
  }

  ghost function SenderEvents(c: Setup, st: F.State, steps: seq<F.Step>): seq<Event>
    requires Usable(c) && SenderOk(c, st.snd) && F.Legal(c, st, steps)
    decreases |steps|
  {
    if steps == [] then [] else SenderEvent(st, steps[0]) + SenderEvents(c, F.Apply(c, st, steps[0]), steps[1..])
  }

  ghost function ReceiverEvents(c: Setup, st: F.State, steps: seq<F.Step>): seq<Event>
    requires Usable(c) && SenderOk(c, st.snd) && F.Legal(c, st, steps)
    decreases |steps|
  {
    if steps == [] then [] else ReceiverEvent(st, steps[0]) + ReceiverEvents(c, F.Apply(c, st, steps[0]), steps[1..])
  }

  /** The network's abstract noise and abort steps are what any such datagram does. */
  lemma NoiseHeard(c: Setup, s: SenderState, r: ReceiverState, payload: bytes)
    requires s.base <= s.sent
    ensures Packets.IsError(payload) ==> Hear(Datagram(payload)) == GotError
    ensures !Packets.IsError(payload) && !Packets.IsAck(payload) ==>
              SenderStep(c, s, Hear(Datagram(payload))) == SenderStep(c, s, GotOther)
    ensures !Packets.IsError(payload) && !Packets.IsData(payload) ==>
              ReceiverStep(c, r, Hear(Datagram(payload))) == ReceiverStep(c, r, GotOther)
  {
    HeardExactly(payload);
    if !Packets.IsError(payload) {
      StrayIgnored(c, s, r, payload);
    }
  }

  lemma SenderStepOnEvent(c: Setup, st: F.State, step: F.Step)
    requires Usable(c) && SenderOk(c, st.snd) && F.Enabled(st, step)
    ensures var e := SenderEvent(st, step);
            F.Apply(c, st, step).snd == if e == [] then st.snd else SenderStep(c, st.snd, Hear(e[0]))
  {
    if step.DeliverAck? {
      HeardAsSent(st.acks[0].number, []);
    } else if step.SenderNoise? || step.SenderAbort? {
      NoiseHeard(c, st.snd, st.rcv, step.payload);
    }
  }

  lemma ReceiverStepOnEvent(c: Setup, st: F.State, step: F.Step)
    requires Usable(c) && SenderOk(c, st.snd) && F.Enabled(st, step)
    ensures var e := ReceiverEvent(st, step);
            F.Apply(c, st, step).rcv == if e == [] then st.rcv else ReceiverStep(c, st.rcv, Hear(e[0])).state
  {
    if step.DeliverData? {
      HeardAsSent(st.data[0].number, st.data[0].payload);
    } else if step.ReceiverNoise? || step.ReceiverAbort? {
      NoiseHeard(c, st.snd, st.rcv, step.payload);
    }
  }

  lemma {:induction false} SenderRunCons(c: Setup, s: SenderState, e: Event, rest: seq<Event>)
    requires s.base <= s.sent
    ensures SenderRun(c, s, [e] + rest) == SenderRun(c, SenderStep(c, s, Hear(e)), rest)
  {
    assert ([e] + rest)[1..] == rest;
  }

  lemma {:induction false} ReceiverHearsCons(c: Setup, r: ReceiverState, e: Event, rest: seq<Event>)
    ensures ReceiverHears(c, r, [e] + rest) == ReceiverHears(c, ReceiverStep(c, r, Hear(e)).state, rest)
  {
    assert ([e] + rest)[1..] == rest;
  }

  lemma {:induction false} SenderStates(c: Setup, st: F.State, steps: seq<F.Step>)
    requires Usable(c) && SenderOk(c, st.snd) && F.Legal(c, st, steps)
    ensures F.Exec(c, st, steps).snd == SenderRun(c, st.snd, SenderEvents(c, st, steps))
    decreases |steps|
  {
    if steps != [] {
      var next := F.Apply(c, st, steps[0]);
      var rest := SenderEvents(c, next, steps[1..]);
      SenderStates(c, next, steps[1..]);
      SenderStepOnEvent(c, st, steps[0]);
      var e := SenderEvent(st, steps[0]);
      if e == [] {
        assert e + rest == rest;
      } else {
        SenderRunCons(c, st.snd, e[0], rest);
        assert e == [e[0]];
      }
    }
  }

  lemma {:induction false} ReceiverStates(c: Setup, st: F.State, steps: seq<F.Step>)
    requires Usable(c) && SenderOk(c, st.snd) && F.Legal(c, st, steps)
    ensures F.Exec(c, st, steps).rcv == ReceiverHears(c, st.rcv, ReceiverEvents(c, st, steps))
    decreases |steps|
  {
    if steps != [] {
      var next := F.Apply(c, st, steps[0]);
      var rest := ReceiverEvents(c, next, steps[1..]);
      ReceiverStates(c, next, steps[1..]);
      ReceiverStepOnEvent(c, st, steps[0]);
      var e := ReceiverEvent(st, steps[0]);
      if e == [] {
        assert e + rest == rest;
      } else {
        ReceiverHearsCons(c, st.rcv, e[0], rest);
        assert e == [e[0]];
      }
    }
  }

  // ---------- what the programs send is what the channels carry ----------

  function OnWire(data: seq<U.DataMsg>): seq<bytes> {
    seq(|data|, k requires 0 <= k < |data| => DataDatagram(data[k].number, data[k].payload))
  }

  function AcksOnWire(acks: seq<U.AckMsg>): seq<bytes> {
    seq(|acks|, k requires 0 <= k < |acks| => AckDatagram(acks[k].number))
  }

  /** What a step in which the sender takes part appends to the DATA channel. */
  ghost function DataAppended(c: Setup, st: F.State, step: F.Step): seq<U.DataMsg>
    requires Usable(c) && SenderOk(c, st.snd) && F.Enabled(st, step)
  {
    var next := F.Apply(c, st, step);
    if SenderEvent(st, step) == [] || |next.data| < |st.data| then [] else next.data[|st.data|..]
  }

  ghost function AcksAppended(c: Setup, st: F.State, step: F.Step): seq<U.AckMsg>
    requires Usable(c) && SenderOk(c, st.snd) && F.Enabled(st, step)
  {
    var next := F.Apply(c, st, step);
    if ReceiverEvent(st, step) == [] || |next.acks| < |st.acks| then [] else next.acks[|st.acks|..]
  }

  /** Everything appended to the DATA channel along a run. */
  ghost function DataPut(c: Setup, st: F.State, steps: seq<F.Step>): seq<U.DataMsg>
    requires Usable(c) && SenderOk(c, st.snd) && F.Legal(c, st, steps)
    decreases |steps|
  {
    if steps == [] then []
    else DataAppended(c, st, steps[0]) + DataPut(c, F.Apply(c, st, steps[0]), steps[1..])
  }

  ghost function AcksPut(c: Setup, st: F.State, steps: seq<F.Step>): seq<U.AckMsg>
    requires Usable(c) && SenderOk(c, st.snd) && F.Legal(c, st, steps)
    decreases |steps|
  {
    if steps == [] then []
    else AcksAppended(c, st, steps[0]) + AcksPut(c, F.Apply(c, st, steps[0]), steps[1..])
  }

  /** A channel grows at its end only, by what is counted as put on it: every other step drops or
      doubles what was there. */
  lemma ChannelsGrow(c: Setup, st: F.State, step: F.Step)
    requires Usable(c) && SenderOk(c, st.snd) && F.Enabled(st, step)
    ensures var next := F.Apply(c, st, step);
            && (SenderEvent(st, step) != [] ==> next.data == st.data + DataAppended(c, st, step))
            && (SenderEvent(st, step) == [] ==> DataAppended(c, st, step) == []
                                                && forall m :: m in next.data ==> m in st.data)
            && (ReceiverEvent(st, step) != [] ==> next.acks == st.acks + AcksAppended(c, st, step))
            && (ReceiverEvent(st, step) == [] ==> AcksAppended(c, st, step) == []
                                                  && forall a :: a in next.acks ==> a in st.acks)
  {
  }

  /** A step appends the window of the sender it leaves, if that is still running. */
  lemma BurstAppended(c: Setup, st: F.State, step: F.Step)
    requires Usable(c) && SenderOk(c, st.snd) && F.Enabled(st, step)
    ensures DataAppended(c, st, step)
            == if SenderEvent(st, step) == [] || st.snd.status != Running then [] else U.Burst(c, F.Apply(c, st, step).snd)
  {
  }

  lemma WindowOnWire(c: Setup, s: SenderState)
    requires SenderOk(c, s) && s.status == Running
    ensures OnWire(U.Burst(c, s)) == WindowDatagrams(QueueOf(c, s.base, s.sent))
  {
  }

  lemma OnWireConcat(a: seq<U.DataMsg>, b: seq<U.DataMsg>)
    ensures OnWire(a + b) == OnWire(a) + OnWire(b)
  {
  }

  /** One event of a running sender: its window goes out, then what the next state sends. */
  lemma RunningOutput(c: Setup, isServer: bool, s: SenderState, e: Event, rest: seq<Event>, w: seq<bytes>,
                      more: seq<bytes>, farewell: seq<bytes>)
    requires Usable(c) && SenderOk(c, s) && s.status == Running && w == OnWire(U.Burst(c, s))
    requires SenderSends(c, isServer, SenderStep(c, s, Hear(e)), rest) == more + farewell
    ensures SenderSends(c, isServer, s, [e] + rest) == w + more + farewell
  {
    assert ([e] + rest)[1..] == rest;
    WindowOnWire(c, s);
    Regroup(w, more, farewell);
  }

  lemma StoppedOutput(c: Setup, isServer: bool, s: SenderState, e: Event, rest: seq<Event>)
    requires SenderOk(c, s) && s.status != Running
    ensures SenderSends(c, isServer, s, [e] + rest) == SenderSends(c, isServer, s, rest)
    ensures SenderStep(c, s, Hear(e)) == s && OnWire(U.Burst(c, s)) == []
  {
  }

  /** The first window, the appended windows, and the parting error. */
  lemma {:induction false} SenderOutput(c: Setup, isServer: bool, st: F.State, steps: seq<F.Step>)
    requires Usable(c) && SenderOk(c, st.snd) && F.Legal(c, st, steps)
    ensures SenderSends(c, isServer, st.snd, SenderEvents(c, st, steps))
            == OnWire(U.Burst(c, st.snd)) + OnWire(DataPut(c, st, steps)) + Farewell(isServer, F.Exec(c, st, steps).snd.status)
    decreases |steps|
  {
    if steps == [] {
      if st.snd.status == Running {
        WindowOnWire(c, st.snd);
      }
    } else {
      var next := F.Apply(c, st, steps[0]);
      SenderOutput(c, isServer, next, steps[1..]);
      SenderOutputFrom(c, isServer, st, steps[0], next, SenderEvents(c, next, steps[1..]), DataPut(c, next, steps[1..]),
                       Farewell(isServer, F.Exec(c, st, steps).snd.status));
    }
  }

  lemma SenderOutputFrom(c: Setup, isServer: bool, st: F.State, step: F.Step, next: F.State, rest: seq<Event>,
                         put: seq<U.DataMsg>, farewell: seq<bytes>)
    requires Usable(c) && SenderOk(c, st.snd) && F.Enabled(st, step) && next == F.Apply(c, st, step)
    requires SenderSends(c, isServer, next.snd, rest) == OnWire(U.Burst(c, next.snd)) + OnWire(put) + farewell
    ensures SenderSends(c, isServer, st.snd, SenderEvent(st, step) + rest)
            == OnWire(U.Burst(c, st.snd)) + OnWire(DataAppended(c, st, step) + put) + farewell
  {
    BurstAppended(c, st, step);
    SenderStepOnEvent(c, st, step);
    SenderOutputEvent(c, isServer, st.snd, next.snd, SenderEvent(st, step), rest, DataAppended(c, st, step), put, farewell);
  }

  lemma SenderOutputEvent(c: Setup, isServer: bool, s: SenderState, s': SenderState, e: seq<Event>, rest: seq<Event>,
                          here: seq<U.DataMsg>, put: seq<U.DataMsg>, farewell: seq<bytes>)
    requires Usable(c) && SenderOk(c, s) && SenderOk(c, s') && |e| <= 1
    requires s' == if e == [] then s else SenderStep(c, s, Hear(e[0]))
    requires here == if e == [] || s.status != Running then [] else U.Burst(c, s')
    requires SenderSends(c, isServer, s', rest) == OnWire(U.Burst(c, s')) + OnWire(put) + farewell
    ensures SenderSends(c, isServer, s, e + rest) == OnWire(U.Burst(c, s)) + OnWire(here + put) + farewell
  {
    if e == [] {
      assert e + rest == rest && here + put == put;
    } else {
      assert e == [e[0]];
      if s.status == Running {
        OnWireConcat(here, put);
        RunningOutput(c, isServer, s, e[0], rest, OnWire(U.Burst(c, s)), OnWire(here + put), farewell);
      } else {
        assert here + put == put;
        StoppedOutput(c, isServer, s, e[0], rest);
      }
    }
  }

  lemma AcksAppendedAre(c: Setup, st: F.State, step: F.Step)
    requires Usable(c) && SenderOk(c, st.snd) && F.Enabled(st, step)
    ensures var e := ReceiverEvent(st, step);
            AcksOnWire(AcksAppended(c, st, step)) == if e == [] then [] else AckDatagrams(ReceiverStep(c, st.rcv, Hear(e[0])).acks)
  {
    if step.DeliverData? {
      HeardAsSent(st.data[0].number, st.data[0].payload);
    } else if step.ReceiverNoise? || step.ReceiverAbort? {
      NoiseHeard(c, st.snd, st.rcv, step.payload);
    }
    var e := ReceiverEvent(st, step);
    if e != [] {
      var reply := ReceiverStep(c, st.rcv, Hear(e[0]));
      assert F.Apply(c, st, step).acks == st.acks + U.AckMsgs(reply.state.got, reply.acks);
    }
  }

  lemma AcksOnWireConcat(a: seq<U.AckMsg>, b: seq<U.AckMsg>)
    ensures AcksOnWire(a + b) == AcksOnWire(a) + AcksOnWire(b)
  {
  }

  lemma ReceiverSendsCons(c: Setup, isServer: bool, r: ReceiverState, e: Event, rest: seq<Event>)
    ensures var reply := ReceiverStep(c, r, Hear(e));
            ReceiverSends(c, isServer, r, [e] + rest) == AckDatagrams(reply.acks) + ReceiverSends(c, isServer, reply.state, rest)
  {
    assert ([e] + rest)[1..] == rest;
  }

  lemma {:induction false} ReceiverOutput(c: Setup, isServer: bool, st: F.State, steps: seq<F.Step>)
    requires Usable(c) && SenderOk(c, st.snd) && F.Legal(c, st, steps)
    ensures ReceiverSends(c, isServer, st.rcv, ReceiverEvents(c, st, steps))
            == AcksOnWire(AcksPut(c, st, steps)) + Farewell(isServer, F.Exec(c, st, steps).rcv.status)
    decreases |steps|
  {
    if steps != [] {
      var next := F.Apply(c, st, steps[0]);
      ReceiverOutput(c, isServer, next, steps[1..]);
      ReceiverOutputFrom(c, isServer, st, steps[0], next, ReceiverEvents(c, next, steps[1..]), AcksPut(c, next, steps[1..]),
                         Farewell(isServer, F.Exec(c, st, steps).rcv.status));
    }
  }

  lemma ReceiverOutputFrom(c: Setup, isServer: bool, st: F.State, step: F.Step, next: F.State, rest: seq<Event>,
                           put: seq<U.AckMsg>, farewell: seq<bytes>)
    requires Usable(c) && SenderOk(c, st.snd) && F.Enabled(st, step) && next == F.Apply(c, st, step)
    requires ReceiverSends(c, isServer, next.rcv, rest) == AcksOnWire(put) + farewell
    ensures ReceiverSends(c, isServer, st.rcv, ReceiverEvent(st, step) + rest)
            == AcksOnWire(AcksAppended(c, st, step) + put) + farewell
  {
    AcksAppendedAre(c, st, step);
    ReceiverStepOnEvent(c, st, step);
    ReceiverOutputEvent(c, isServer, st.rcv, next.rcv, ReceiverEvent(st, step), rest, AcksAppended(c, st, step), put, farewell);
  }

  lemma ReceiverOutputEvent(c: Setup, isServer: bool, r: ReceiverState, r': ReceiverState, e: seq<Event>, rest: seq<Event>,
                            here: seq<U.AckMsg>, put: seq<U.AckMsg>, farewell: seq<bytes>)
    requires |e| <= 1
    requires r' == if e == [] then r else ReceiverStep(c, r, Hear(e[0])).state
    requires AcksOnWire(here) == if e == [] then [] else AckDatagrams(ReceiverStep(c, r, Hear(e[0])).acks)
    requires ReceiverSends(c, isServer, r', rest) == AcksOnWire(put) + farewell
    ensures ReceiverSends(c, isServer, r, e + rest) == AcksOnWire(here + put) + farewell
  {
    AcksOnWireConcat(here, put);
    if e == [] {
      assert e + rest == rest;
    } else {
      assert e == [e[0]];
      ReceiverSendsCons(c, isServer, r, e[0], rest);
      Regroup(AcksOnWire(here), AcksOnWire(put), farewell);
    }
  }

  /** The sender of a network run is the sending program run on what its socket returned, and what
      the program sends is its first window, then exactly what the run puts on the DATA channel,
      then, if it is a server that gives up, its parting error. */
  lemma SenderProjects(c: Setup, isServer: bool, st: F.State, steps: seq<F.Step>)
    requires Usable(c) && SenderOk(c, st.snd) && F.Legal(c, st, steps)
    ensures var events, end := SenderEvents(c, st, steps), F.Exec(c, st, steps).snd;
            && end == SenderRun(c, st.snd, events)
            && SenderSends(c, isServer, st.snd, events)
               == OnWire(U.Burst(c, st.snd)) + OnWire(DataPut(c, st, steps)) + Farewell(isServer, end.status)
  {
    SenderStates(c, st, steps);
    SenderOutput(c, isServer, st, steps);
  }

  /** The receiver of a network run is the receiving program run on what its socket returned, and
      what the program sends is exactly what the run puts on the ACK channel, then, if it is a
      server that gives up, its parting error. */
  lemma ReceiverProjects(c: Setup, isServer: bool, st: F.State, steps: seq<F.Step>)
    requires Usable(c) && SenderOk(c, st.snd) && F.Legal(c, st, steps)
    ensures var events, end := ReceiverEvents(c, st, steps), F.Exec(c, st, steps).rcv;
            && end == ReceiverHears(c, st.rcv, events)
            && ReceiverSends(c, isServer, st.rcv, events) == AcksOnWire(AcksPut(c, st, steps)) + Farewell(isServer, end.status)
  {
    ReceiverStates(c, st, steps);
    ReceiverOutput(c, isServer, st, steps);
  }

  // ---------- parameters an end does not use ----------

  /** A sender never looks at the receiver's parameters, nor a receiver at the blocks. */
  lemma {:induction false} SenderIndependent(c: Setup, d: Setup, s: SenderState, inbox: seq<Event>)
    requires s.base <= s.sent
    requires d.blocks == c.blocks && d.window == c.window && d.sendRetries == c.sendRetries
    ensures SenderRun(c, s, inbox) == SenderRun(d, s, inbox)
    ensures SenderSends(c, true, s, inbox) == SenderSends(d, true, s, inbox)
    decreases |inbox|
  {
    if s.status == Running && inbox != [] {
      var next := SenderStep(c, s, Hear(inbox[0]));
      assert SenderStep(d, s, Hear(inbox[0])) == next;
      SenderIndependent(c, d, next, inbox[1..]);
    }
  }

  lemma {:induction false} ReceiverIndependent(c: Setup, d: Setup, r: ReceiverState, inbox: seq<Event>)
    requires d.size == c.size && d.window == c.window && d.netascii == c.netascii && d.recvRetries == c.recvRetries
    ensures ReceiverHears(c, r, inbox) == ReceiverHears(d, r, inbox)
    decreases |inbox|
  {
    if r.status == Running && inbox != [] {
      ReceiverIndependent(c, d, ReceiverStep(c, r, Hear(inbox[0])).state, inbox[1..]);
    }
  }

  // ---------- the programs inside the handshake ----------

  /** What the waiting client's socket returns in a step of the handshake. */
  ghost function ClientAnswer(step: H.Step): seq<Client.Answer> {
    match step
    case ClientTimesOut => [Client.NoAnswer]
    case ClientHears(env) => if env.source.Server? then [Client.From(env.source.task, env.payload)] else []
    case _ => []
  }

  ghost function ClientAnswers(sc: H.Scenario, w: H.World, steps: seq<H.Step>): seq<Client.Answer>
    requires H.Reasonable(sc) && H.Legal(sc, w, steps)
    decreases |steps|
  {
    if steps == [] then [] else ClientAnswer(steps[0]) + ClientAnswers(sc, H.Apply(sc, w, steps[0]), steps[1..])
  }

  /** What task `i` gets from its socket. */
  ghost function TaskEvent(i: nat, step: H.Step): seq<Event> {
    match step
    case TaskTimesOut(task) => if task == i then [Silence] else []
    case TaskGets(task, env) => if task == i then [Datagram(env.payload)] else []
    case _ => []
  }

  ghost function TaskEvents(sc: H.Scenario, w: H.World, i: nat, steps: seq<H.Step>): seq<Event>
    requires H.Reasonable(sc) && H.Legal(sc, w, steps)
    decreases |steps|
  {
    if steps == [] then [] else TaskEvent(i, steps[0]) + TaskEvents(sc, H.Apply(sc, w, steps[0]), i, steps[1..])
  }

  lemma AskRunCons(retries: nat, wantOack: bool, attempt: nat, a: Client.Answer, rest: seq<Client.Answer>)
    ensures var step := Client.AskStep(Client.Download, wantOack, retries, attempt, a);
            Client.AskRun(Client.Download, wantOack, retries, attempt, [a] + rest).result
            == if step.Unanswered? then Client.AskRun(Client.Download, wantOack, retries, step.attempt, rest).result else step
  {
    assert ([a] + rest)[1..] == rest;
  }

  /** The client takes its decision once. */
  lemma {:induction false} DecidedStays(sc: H.Scenario, w: H.World, steps: seq<H.Step>)
    requires H.Reasonable(sc) && H.Legal(sc, w, steps) && !w.client.Unanswered?
    ensures H.Exec(sc, w, steps).client == w.client && ClientAnswers(sc, w, steps) == []
    decreases |steps|
  {
    if steps != [] {
      DecidedStays(sc, H.Apply(sc, w, steps[0]), steps[1..]);
    }
  }

  lemma ClientStepOnAnswer(sc: H.Scenario, w: H.World, step: H.Step)
    requires H.Reasonable(sc) && H.Enabled(sc, w, step) && w.client.Unanswered?
    ensures var a := ClientAnswer(step);
            H.Apply(sc, w, step).client
            == if a == [] then w.client
               else Client.AskStep(Client.Download, H.WantOack(sc), sc.clientRetries, w.client.attempt, a[0])
  {
  }

  lemma {:induction false} ClientStates(sc: H.Scenario, w: H.World, steps: seq<H.Step>)
    requires H.Reasonable(sc) && H.Legal(sc, w, steps) && w.client.Unanswered?
    ensures Client.AskRun(Client.Download, H.WantOack(sc), sc.clientRetries, w.client.attempt, ClientAnswers(sc, w, steps)).result
            == H.Exec(sc, w, steps).client
    decreases |steps|
  {
    if steps != [] {
      var next := H.Apply(sc, w, steps[0]);
      ClientStepOnAnswer(sc, w, steps[0]);
      var a, rest := ClientAnswer(steps[0]), ClientAnswers(sc, next, steps[1..]);
      if next.client.Unanswered? {
        ClientStates(sc, next, steps[1..]);
      } else {
        DecidedStays(sc, next, steps[1..]);
      }
      if a == [] {
        assert a + rest == rest;
      } else {
        assert a == [a[0]];
        AskRunCons(sc.clientRetries, H.WantOack(sc), w.client.attempt, a[0], rest);
      }
    }
  }

  /** One task through everything it hears. */
  function TaskRun(sc: H.Scenario, t: H.Task, events: seq<Event>): H.Task
    decreases |events|
  {
    if events == [] then t else TaskRun(sc, H.TaskHears(sc, t, events[0]), events[1..])
  }

  lemma TaskRunCons(sc: H.Scenario, t: H.Task, e: Event, rest: seq<Event>)
    ensures TaskRun(sc, t, [e] + rest) == TaskRun(sc, H.TaskHears(sc, t, e), rest)
  {
    assert ([e] + rest)[1..] == rest;
  }

  lemma TaskStepOnEvent(sc: H.Scenario, w: H.World, i: nat, step: H.Step)
    requires H.Reasonable(sc) && H.Enabled(sc, w, step) && i < |w.tasks|
    ensures var e, tasks := TaskEvent(i, step), H.Apply(sc, w, step).tasks;
            i < |tasks| && tasks[i] == if e == [] then w.tasks[i] else H.TaskHears(sc, w.tasks[i], e[0])
  {
  }

  lemma {:induction false} TaskStates(sc: H.Scenario, w: H.World, i: nat, steps: seq<H.Step>)
    requires H.Reasonable(sc) && H.Legal(sc, w, steps) && i < |w.tasks|
    ensures i < |H.Exec(sc, w, steps).tasks|
    ensures H.Exec(sc, w, steps).tasks[i] == TaskRun(sc, w.tasks[i], TaskEvents(sc, w, i, steps))
    decreases |steps|
  {
    if steps != [] {
      var next := H.Apply(sc, w, steps[0]);
      TaskStepOnEvent(sc, w, i, steps[0]);
      TaskStates(sc, next, i, steps[1..]);
      var e, rest := TaskEvent(i, steps[0]), TaskEvents(sc, next, i, steps[1..]);
      if e == [] {
        assert e + rest == rest;
      } else {
        assert e == [e[0]];
        TaskRunCons(sc, w.tasks[i], e[0], rest);
      }
    }
  }

  lemma {:induction false} SendingTask(sc: H.Scenario, t: H.Task, s: SenderState, events: seq<Event>)
    requires t.phase == H.Sending(s) && s.base <= s.sent
    ensures TaskRun(sc, t, events) == t.(phase := H.Sending(SenderRun(t.setup, s, events)))
    decreases |events|
  {
    if events != [] {
      var s' := SenderStep(t.setup, s, Hear(events[0]));
      SendingTask(sc, t.(phase := H.Sending(s')), s', events[1..]);
      if s.status != Running {
        assert s' == s;
      }
    }
  }

  lemma {:induction false} EndedTask(sc: H.Scenario, t: H.Task, events: seq<Event>)
    requires t.phase == H.Ended
    ensures TaskRun(sc, t, events) == t
    decreases |events|
  {
    if events != [] {
      EndedTask(sc, t, events[1..]);
    }
  }

  /** How the phases of a task follow from its wait for ACK(0) and its transfer. */
  function PhaseAfter(c: Setup, wait: Awaited): H.Phase {
    match wait.result
    case Waiting(attempt) => H.AwaitAck0(attempt)
    case Acked => H.Sending(SenderRun(c, SenderStart(c), wait.rest))
    case Lost(_) => H.Ended
  }

  lemma {:induction false} WaitingTask(sc: H.Scenario, t: H.Task, attempt: nat, events: seq<Event>)
    requires t.phase == H.AwaitAck0(attempt)
    ensures TaskRun(sc, t, events) == t.(phase := PhaseAfter(t.setup, AwaitRun(sc.serverRetries, attempt, events)))
    decreases |events|
  {
    if events != [] {
      var t' := H.TaskHears(sc, t, events[0]);
      match t'.phase
      case AwaitAck0(next) => WaitingTask(sc, t', next, events[1..]);
      case Sending(s) => SendingTask(sc, t', s, events[1..]);
      case Ended => EndedTask(sc, t', events[1..]);
    }
  }

  /** A task's phase and the program's status say the same. */
  predicate Matches(phase: H.Phase, status: Status) {
    match phase
    case AwaitAck0(_) => status == Running
    case Sending(s) => status == s.status
    case Ended => status == TimedOut || status == Failed
  }

  lemma {:induction false} LostHow(retries: nat, attempt: nat, inbox: seq<Event>)
    ensures var result := AwaitRun(retries, attempt, inbox).result;
            result.Lost? ==> result.status == TimedOut || result.status == Failed
    decreases |inbox|
  {
    if inbox != [] {
      LostHow(retries, attempt + 1, inbox[1..]);
    }
  }

  // ---------- what a task sends is what the network holds from it ----------

  function TaskSends(sc: H.Scenario, t: H.Task, events: seq<Event>): seq<bytes>
    decreases |events|
  {
    if events == [] then []
    else
      var next := H.TaskHears(sc, t, events[0]);
      H.Uttered(next) + TaskSends(sc, next, events[1..])
  }

  lemma TaskSendsCons(sc: H.Scenario, t: H.Task, e: Event, rest: seq<Event>)
    ensures var next := H.TaskHears(sc, t, e);
            TaskSends(sc, t, [e] + rest) == H.Uttered(next) + TaskSends(sc, next, rest)
  {
    assert ([e] + rest)[1..] == rest;
  }

  /** The datagrams of task `i` in the network. */
  ghost predicate Holds(w: H.World, i: nat, d: bytes) {
    H.Envelope(H.Server(i), H.Client, d) in w.net
  }

  lemma HoldsAfter(sc: H.Scenario, w: H.World, i: nat, step: H.Step, d: bytes)
    requires H.Reasonable(sc) && H.Enabled(sc, w, step) && i < |w.tasks|
    ensures var e, next := TaskEvent(i, step), H.Apply(sc, w, step);
            Holds(next, i, d) <==> Holds(w, i, d) || (e != [] && d in H.Uttered(H.TaskHears(sc, w.tasks[i], e[0])))
  {
  }

  lemma {:induction false} NetworkHolds(sc: H.Scenario, w: H.World, i: nat, steps: seq<H.Step>, d: bytes)
    requires H.Reasonable(sc) && H.Legal(sc, w, steps) && i < |w.tasks|
    ensures Holds(H.Exec(sc, w, steps), i, d)
            <==> Holds(w, i, d) || d in TaskSends(sc, w.tasks[i], TaskEvents(sc, w, i, steps))
    decreases |steps|
  {
    if steps != [] {
      var next := H.Apply(sc, w, steps[0]);
      TaskStepOnEvent(sc, w, i, steps[0]);
      HoldsAfter(sc, w, i, steps[0], d);
      NetworkHolds(sc, next, i, steps[1..], d);
      var e, rest := TaskEvent(i, steps[0]), TaskEvents(sc, next, i, steps[1..]);
      if e == [] {
        assert e + rest == rest;
      } else {
        assert e == [e[0]];
        TaskSendsCons(sc, w.tasks[i], e[0], rest);
      }
    }
  }

  lemma {:induction false} SendingTaskSends(sc: H.Scenario, t: H.Task, s: SenderState, events: seq<Event>, d: bytes)
    requires t.phase == H.Sending(s) && Usable(t.setup) && SenderOk(t.setup, s)
    ensures d in H.Uttered(t) || d in TaskSends(sc, t, events) <==> d in SenderSends(t.setup, true, s, events)
    decreases |events|
  {
    if events != [] {
      var s' := SenderStep(t.setup, s, Hear(events[0]));
      U.SenderStaysOk(t.setup, s, Hear(events[0]));
      SendingTaskSends(sc, t.(phase := H.Sending(s')), s', events[1..], d);
      if s.status != Running {
        SenderStopped(t.setup, true, s, events[1..]);
      }
    }
  }

  lemma {:induction false} EndedTaskSends(sc: H.Scenario, t: H.Task, events: seq<Event>)
    requires t.phase == H.Ended
    ensures TaskSends(sc, t, events) == []
    decreases |events|
  {
    if events != [] {
      EndedTaskSends(sc, t, events[1..]);
    }
  }

  lemma {:induction false} WaitingTaskSends(sc: H.Scenario, t: H.Task, attempt: nat, events: seq<Event>, d: bytes)
    requires t.phase == H.AwaitAck0(attempt) && Usable(t.setup)
    ensures var wait := AwaitRun(sc.serverRetries, attempt, events);
            d in H.Uttered(t) || d in TaskSends(sc, t, events)
            <==> || d == Packets.Encode(Packets.Oack(t.grant.oack))
                 || (wait.result == Acked && d in SenderSends(t.setup, true, SenderStart(t.setup), wait.rest))
    decreases |events|
  {
    if events != [] {
      var t' := H.TaskHears(sc, t, events[0]);
      match t'.phase
      case AwaitAck0(next) => WaitingTaskSends(sc, t', next, events[1..], d);
      case Sending(s) => SendingTaskSends(sc, t', s, events[1..], d);
      case Ended => EndedTaskSends(sc, t', events[1..]);
    }
  }

  lemma {:induction false} InRepeated(datagram: bytes, n: nat, d: bytes)
    ensures d in Repeated(datagram, n) <==> n > 0 && d == datagram
  {
    if n > 0 {
      InRepeated(datagram, n - 1, d);
    }
  }

  lemma AwaitSends(retries: nat, attempt: nat, inbox: seq<Event>)
    ensures AwaitRun(retries, attempt, inbox).sends > 0
  {
  }

  /** A task started by a request, through whatever it hears, is the serving program run on those
      events: same outcome, same datagrams. */
  lemma SpawnedServes(sc: H.Scenario, t: H.Task, mode: Options.Mode, options: seq<Options.OptionValue>, file: bytes, size: u64,
                      events: seq<Event>, served: Server.Served, d: bytes)
    requires Negotiation.CanGrant(sc.cfg, options)
    requires t == H.Spawn(sc, mode, options, file, size)
    requires served == Server.ReadServed(sc.cfg, sc.serverRetries, mode, options, file, size, events)
    ensures Matches(TaskRun(sc, t, events).phase, served.status)
    ensures d in H.Uttered(t) || d in TaskSends(sc, t, events) <==> d in served.datagrams
  {
    H.SpawnShape(sc, mode, options, file, size);
    var own := SetupFor(mode, file, t.grant.neg, sc.serverRetries, 0);
    assert SenderStart(own) == SenderStart(t.setup);
    if t.grant.oack == [] {
      StartedServes(sc, t, own, SenderStart(own), events, d);
    } else {
      AwaitingServes(sc, t, own, events, d);
    }
  }

  /** A task without options to acknowledge. */
  lemma StartedServes(sc: H.Scenario, t: H.Task, own: Setup, s: SenderState, events: seq<Event>, d: bytes)
    requires t.phase == H.Sending(s) && Usable(t.setup) && SenderOk(t.setup, s)
    requires own.blocks == t.setup.blocks && own.window == t.setup.window && own.sendRetries == t.setup.sendRetries
    ensures Matches(TaskRun(sc, t, events).phase, SenderRun(own, s, events).status)
    ensures d in H.Uttered(t) || d in TaskSends(sc, t, events) <==> d in SenderSends(own, true, s, events)
  {
    SendingTask(sc, t, s, events);
    SendingTaskSends(sc, t, s, events, d);
    SenderIndependent(t.setup, own, s, events);
  }

  /** A task that waits for ACK(0) first. */
  lemma AwaitingServes(sc: H.Scenario, t: H.Task, own: Setup, events: seq<Event>, d: bytes)
    requires t.phase == H.AwaitAck0(0) && Usable(t.setup)
    requires own.blocks == t.setup.blocks && own.window == t.setup.window && own.sendRetries == t.setup.sendRetries
    ensures var served := Server.Confirmed(own, sc.serverRetries, t.grant.oack, events);
            && Matches(TaskRun(sc, t, events).phase, served.status)
            && (d in H.Uttered(t) || d in TaskSends(sc, t, events) <==> d in served.datagrams)
  {
    var wait, s := AwaitRun(sc.serverRetries, 0, events), SenderStart(own);
    WaitingTask(sc, t, 0, events);
    WaitingTaskSends(sc, t, 0, events, d);
    LostHow(sc.serverRetries, 0, events);
    AwaitSends(sc.serverRetries, 0, events);
    InRepeated(Packets.Encode(Packets.Oack(t.grant.oack)), wait.sends, d);
    SenderIndependent(t.setup, own, s, wait.rest);
  }

  ghost predicate SourcesKnown(w: H.World) {
    forall e :: e in w.net && e.source.Server? ==> e.source.task < |w.tasks|
  }

  lemma {:induction false} SourcesStayKnown(sc: H.Scenario, w: H.World, steps: seq<H.Step>)
    requires H.Reasonable(sc) && H.Legal(sc, w, steps) && SourcesKnown(w)
    ensures SourcesKnown(H.Exec(sc, w, steps))
    decreases |steps|
  {
    if steps != [] {
      SourcesStayKnown(sc, H.Apply(sc, w, steps[0]), steps[1..]);
    }
  }

  /** Every task of a handshake run that was started by a request is the serving program from that
      request on: on the events that reached the task the program has the task's outcome, and the
      network holds from the task exactly the datagrams the program sends. */
  lemma TaskProjects(sc: H.Scenario, init: H.World, past: seq<H.Step>, env: H.Envelope, file: bytes, size: u64, steps: seq<H.Step>)
    requires H.Reasonable(sc) && H.Init(sc, init) && H.Legal(sc, init, past)
    requires H.Enabled(sc, H.Exec(sc, init, past), H.ListenerHears(env, file, size))
    requires H.Legal(sc, H.Apply(sc, H.Exec(sc, init, past), H.ListenerHears(env, file, size)), steps)
    ensures var request := Packets.Decode(env.payload).value;
            var i := |H.Exec(sc, init, past).tasks|;
            var started := H.Apply(sc, H.Exec(sc, init, past), H.ListenerHears(env, file, size));
            var end := H.Exec(sc, started, steps);
            var served := Server.ReadServed(sc.cfg, sc.serverRetries, request.mode, request.options, file, size,
                                            TaskEvents(sc, started, i, steps));
            && i < |end.tasks| && Matches(end.tasks[i].phase, served.status)
            && forall d :: Holds(end, i, d) <==> d in served.datagrams
  {
    var request := Packets.Decode(env.payload).value;
    var w := H.Exec(sc, init, past);
    SourcesStayKnown(sc, init, past);
    var i := |w.tasks|;
    var started := H.Apply(sc, w, H.ListenerHears(env, file, size));
    var t := H.Spawned(sc, env.payload, file, size);
    TaskStates(sc, started, i, steps);
    var events := TaskEvents(sc, started, i, steps);
    var served := Server.ReadServed(sc.cfg, sc.serverRetries, request.mode, request.options, file, size, events);
    SpawnedServes(sc, t, request.mode, request.options, file, size, events, served, []);
    forall d
      ensures Holds(H.Exec(sc, started, steps), i, d) <==> d in served.datagrams
    {
      NetworkHolds(sc, started, i, steps, d);
      SpawnedServes(sc, t, request.mode, request.options, file, size, events, served, d);
      JustStarted(sc, w, env, file, size, t, d);
    }
  }

  lemma JustStarted(sc: H.Scenario, w: H.World, env: H.Envelope, file: bytes, size: u64, t: H.Task, d: bytes)
    requires H.Reasonable(sc) && H.Enabled(sc, w, H.ListenerHears(env, file, size)) && SourcesKnown(w)
    requires t == H.Spawned(sc, env.payload, file, size)
    ensures Holds(H.Apply(sc, w, H.ListenerHears(env, file, size)), |w.tasks|, d) <==> d in H.Uttered(t)
  {
    H.SpawnShape(sc, Packets.Decode(env.payload).value.mode, Packets.Decode(env.payload).value.options, file, size);
  }

  // ---------- the download's first phase ----------

  lemma {:induction false} NetworkGrows(sc: H.Scenario, w: H.World, steps: seq<H.Step>)
    requires H.Reasonable(sc) && H.Legal(sc, w, steps)
    ensures w.net <= H.Exec(sc, w, steps).net
    decreases |steps|
  {
    if steps != [] {
      NetworkGrows(sc, H.Apply(sc, w, steps[0]), steps[1..]);
    }
  }

  /** A client that settles on an OACK has its confirmation in the network. */
  lemma {:induction false} Confirmed(sc: H.Scenario, w: H.World, steps: seq<H.Step>)
    requires H.Reasonable(sc) && H.Legal(sc, w, steps) && w.client.Unanswered?
    ensures var end := H.Exec(sc, w, steps);
            end.client.Settled? && end.client.first == None ==>
              H.Envelope(H.Client, H.Server(end.client.peer), AckDatagram(0)) in end.net
    decreases |steps|
  {
    if steps != [] {
      var next := H.Apply(sc, w, steps[0]);
      if next.client.Unanswered? {
        Confirmed(sc, next, steps[1..]);
      } else {
        DecidedStays(sc, next, steps[1..]);
        NetworkGrows(sc, next, steps[1..]);
      }
    }
  }

  /** The client of a handshake run is phase one of the downloading program on the answers that
      reached it, and the network holds what that program sends. */
  lemma ClientProjects(sc: H.Scenario, init: H.World, steps: seq<H.Step>)
    requires H.Reasonable(sc) && H.Init(sc, init) && H.Legal(sc, init, steps)
    ensures var end := H.Exec(sc, init, steps);
            var wanted := Negotiation.RequestOptions(sc.opts, None);
            var asked := Client.AskRun(Client.Download, wanted != [], sc.clientRetries, 0, ClientAnswers(sc, init, steps)).result;
            && asked == end.client
            && H.Envelope(H.Client, H.Listener, Packets.Encode(Packets.Rrq(sc.filename, sc.opts.mode, wanted))) in end.net
            && (asked.Settled? && asked.first == None ==>
                  H.Envelope(H.Client, H.Server(asked.peer), AckDatagram(0)) in end.net)
  {
    ClientStates(sc, init, steps);
    Confirmed(sc, init, steps);
    NetworkGrows(sc, init, steps);
  }

  /** A download that only meets tasks of its own server is never refused its first block: the
      program's error exit for a first DATA other than block 1 is not reached. */
  lemma GetNeverRefused(sc: H.Scenario, init: H.World, steps: seq<H.Step>)
    requires H.Reasonable(sc) && H.Init(sc, init) && H.Legal(sc, init, steps)
    ensures var wanted := Negotiation.RequestOptions(sc.opts, None);
            var asked := Client.AskRun(Client.Download, wanted != [], sc.clientRetries, 0, ClientAnswers(sc, init, steps)).result;
            !Client.Refused(asked)
  {
    ClientProjects(sc, init, steps);
    H.Agreement(sc, init, steps);
  }
}
