/** The read handshake: one client that keeps asking, a listener that spawns a task for every copy
    of the request it hears, and a network that loses, duplicates and reorders at will. */
module Handshake {
  import opened Basics
  import opened Window
  import opened Transfer
  import opened Negotiation
  import opened Endpoints
  import opened Packets
  import opened Options
  import Blocks

  // ---------- the client before it has a peer ----------

  datatype Asking =
    | Unanswered(attempt: nat)
    | Settled(peer: nat, neg: Negotiated, first: Option<(u16, bytes)>)
    | GaveUp

  /** One attempt that ends without an answer. */
  function NextAttempt(retries: nat, attempt: nat): Asking {
    if attempt >= retries then GaveUp else Unanswered(attempt + 1)
  }

  /** The client hears `payload` from the transfer identified by `source`. */
  function AskHears(wantOack: bool, retries: nat, attempt: nat, source: nat, payload: bytes): Asking {
    match Decode(payload)
    case Err(_) => GaveUp
    case Ok(Oack(options)) =>
      if wantOack then Settled(source, MergeOack(DEFAULTS, options), None) else NextAttempt(retries, attempt)
    case Ok(Data(block, data)) => Settled(source, DEFAULTS, Some((block, data)))
    case Ok(ErrorPacket(_, _)) => GaveUp
    case _ => NextAttempt(retries, attempt)
  }

  // ---------- the server's tasks ----------

  datatype Phase = AwaitAck0(attempt: nat) | Sending(snd: SenderState) | Ended

  /** A task serving one copy of the request, with the file as it was when the task opened it. */
  datatype Task = Task(file: bytes, grant: Grant, setup: Setup, phase: Phase)

  datatype Endpoint = Client | Listener | Server(task: nat)

  datatype Envelope = Envelope(source: Endpoint, target: Endpoint, payload: bytes)

  datatype World = World(client: Asking, tasks: seq<Task>, net: set<Envelope>)

  datatype Scenario = Scenario(
    cfg: ServerConfig,
    opts: ClientOptions,
    filename: bytes,
    clientRetries: nat,
    serverRetries: nat)

  ghost predicate Reasonable(sc: Scenario) {
    CanGrant(sc.cfg, Acceptable(RequestOptions(sc.opts, None))) && Text(sc.filename)
  }

  function RequestDatagram(sc: Scenario): bytes {
    Encode(Rrq(sc.filename, sc.opts.mode, RequestOptions(sc.opts, None)))
  }

  predicate WantOack(sc: Scenario) {
    RequestOptions(sc.opts, None) != []
  }

  /** The task a request starts: it waits for ACK(0) exactly if it has something to acknowledge. */
  function Spawn(sc: Scenario, mode: Mode, options: seq<OptionValue>, file: bytes, size: u64): Task
    requires CanGrant(sc.cfg, options)
  {
    var grant := Granted(sc.cfg, options, Some(size));
    GrantUsable(sc.cfg, options, size);
    var setup := SetupFor(mode, file, grant.neg, sc.serverRetries, sc.clientRetries);
    Task(file, grant, setup, if grant.oack == [] then Sending(SenderStart(setup)) else AwaitAck0(0))
  }

  /** `handle_initial` on a read request. */
  function Spawned(sc: Scenario, payload: bytes, file: bytes, size: u64): Task
    requires Decode(payload).Ok? && Decode(payload).value.Rrq? && CanGrant(sc.cfg, Decode(payload).value.options)
  {
    var request := Decode(payload).value;
    Spawn(sc, request.mode, request.options, file, size)
  }

  lemma GrantUsable(cfg: ServerConfig, options: seq<OptionValue>, size: u64)
    requires CanGrant(cfg, options)
    ensures Granted(cfg, options, Some(size)).neg.blksize >= MIN_BLOCK_SIZE
    ensures Granted(cfg, options, Some(size)).neg.windowsize > 0
  {
  }

  /** What a task puts on the wire when it (re)sends. */
  function Emission(t: Task): seq<bytes> {
    match t.phase
    case AwaitAck0(_) => [Encode(Oack(t.grant.oack))]
    case Sending(s) =>
      if s.status == Running && s.base <= s.sent <= |t.setup.blocks|
      then WindowDatagrams(QueueOf(t.setup, s.base, s.sent)) else []
    case Ended => []
  }

  /** What it sends after handling an event: a task that gives up a transfer tells the client. */
  function Uttered(t: Task): seq<bytes> {
    Emission(t) + if t.phase.Sending? then Farewell(true, t.phase.snd.status) else []
  }

  function TaskHears(sc: Scenario, t: Task, e: Event): Task {
    match t.phase
    case AwaitAck0(attempt) =>
      t.(phase := match AwaitHears(sc.serverRetries, attempt, Hear(e))
                  case Waiting(next) => AwaitAck0(next)
                  case Acked => Sending(SenderStart(t.setup))
                  case Lost(_) => Ended)
    case Sending(s) =>
      if s.base <= s.sent then t.(phase := Sending(SenderStep(t.setup, s, Hear(e)))) else t
    case Ended => t
  }

  // ---------- steps ----------

  datatype Step =
    | ClientTimesOut
    | ClientHears(env: Envelope)
    | ClientSpeaks(env: Envelope)
    | ListenerHears(env: Envelope, file: bytes, size: u64)
    | ListenerRefuses(env: Envelope, code: ErrorCode, msg: bytes)
    | TaskTimesOut(task: nat)
    | TaskGets(task: nat, env: Envelope)

  ghost predicate Init(sc: Scenario, w: World) {
    && w.client == Unanswered(0)
    && w.tasks == []
    && w.net == {Envelope(Client, Listener, RequestDatagram(sc))}
  }

  /** A request whose block size cannot be clamped ends its task before it answers, so it starts
      none here. */
  ghost predicate Enabled(sc: Scenario, w: World, step: Step) {
    match step
    case ClientTimesOut => w.client.Unanswered?
    case ClientHears(env) => w.client.Unanswered? && env in w.net && env.target == Client && env.source.Server?
    case ClientSpeaks(env) => !w.client.Unanswered? && env.source == Client && env.target != Client
    case ListenerHears(env, _, _) =>
      && env in w.net && env.target == Listener && Decode(env.payload).Ok? && Decode(env.payload).value.Rrq?
      && CanGrant(sc.cfg, Decode(env.payload).value.options)
    case ListenerRefuses(env, _, _) => env in w.net && env.target == Listener
    case TaskTimesOut(i) => i < |w.tasks|
    case TaskGets(i, env) => i < |w.tasks| && env in w.net && env.target == Server(i) && env.source == Client
  }

  function FromTask(i: nat, datagrams: seq<bytes>): set<Envelope> {
    set d | d in datagrams :: Envelope(Server(i), Client, d)
  }

  function TaskMoves(sc: Scenario, w: World, i: nat, e: Event): World
    requires i < |w.tasks|
  {
    var t := TaskHears(sc, w.tasks[i], e);
    w.(tasks := w.tasks[i := t], net := w.net + FromTask(i, Uttered(t)))
  }

  /** A transfer refused with an ERROR, for instance because the file cannot be opened. */
  function Refused(sc: Scenario): Task {
    Task([], Grant([], DEFAULTS),
         Setup([[]], DEFAULT_BLOCK_SIZE, DEFAULT_WINDOW_SIZE, sc.opts.mode == NetAscii, sc.serverRetries, sc.clientRetries), Ended)
  }

  ghost function Apply(sc: Scenario, w: World, step: Step): World
    requires Reasonable(sc) && Enabled(sc, w, step)
  {
    match step
    case ClientTimesOut => w.(client := NextAttempt(sc.clientRetries, w.client.attempt))
    case ClientHears(env) =>
      var client := AskHears(WantOack(sc), sc.clientRetries, w.client.attempt, env.source.task, env.payload);
      var ack0 := if client.Settled? && client.first == None then {Envelope(Client, env.source, AckDatagram(0))} else {};
      w.(client := client, net := w.net + ack0)
    case ClientSpeaks(env) => w.(net := w.net + {env})
    case ListenerHears(env, file, size) =>
      var t := Spawned(sc, env.payload, file, size);
      w.(tasks := w.tasks + [t], net := w.net + FromTask(|w.tasks|, Emission(t)))
    case ListenerRefuses(env, code, msg) =>
      w.(tasks := w.tasks + [Refused(sc)], net := w.net + FromTask(|w.tasks|, [Encode(ErrorPacket(code, msg))]))
    case TaskTimesOut(i) => TaskMoves(sc, w, i, Silence)
    case TaskGets(i, env) => TaskMoves(sc, w, i, Datagram(env.payload))
  }

  // ---------- the invariant ----------

  /** A task cuts its file with the parameters it granted. */
  ghost predicate Faithful(t: Task) {
    && Usable(t.setup)
    && t.setup.size == t.grant.neg.blksize
    && t.setup.window == t.grant.neg.windowsize
    && Blocks.Flatten(t.setup.blocks) == WireOf(t.setup.netascii, t.file)
  }

  /** A task that no acknowledgement has reached yet. */
  ghost predicate Untouched(sc: Scenario, t: Task) {
    && MergeOack(DEFAULTS, t.grant.oack) == t.grant.neg
    && WellFormedOptions(t.grant.oack)
    && (t.grant.oack == [] ==> t.grant.neg == DEFAULTS)
    && (t.grant.oack != [] ==> WantOack(sc))
    && t.setup.netascii == (sc.opts.mode == NetAscii)
    && (match t.phase
        case AwaitAck0(_) => t.grant.oack != []
        case Sending(s) => t.grant.oack == [] && t.setup.window == DEFAULT_WINDOW_SIZE
                           && |t.setup.blocks| > 0 && s.base == 0 && s.sent == 1
        case Ended => true)
  }

  /** What a client without a peer can find in its mailbox. */
  ghost predicate Expected(sc: Scenario, t: Task, payload: bytes) {
    || (payload == Encode(Oack(t.grant.oack)) && t.grant.oack != [])
    || (t.grant.oack == [] && |t.setup.blocks| > 0 && payload == DataDatagram(1, t.setup.blocks[0]))
    || (Decode(payload).Ok? && Decode(payload).value.ErrorPacket?)
    || Decode(payload).Err?
  }

  /** The client talks to a task it agrees with, and a first DATA is that task's first block. */
  ghost predicate Agreed(sc: Scenario, w: World) {
    w.client.Settled? ==>
      var i := w.client.peer;
      && i < |w.tasks|
      && w.client.neg == w.tasks[i].grant.neg
      && w.tasks[i].setup.netascii == (sc.opts.mode == NetAscii)
      && (w.client.first.Some? ==>
            |w.tasks[i].setup.blocks| > 0 && w.client.first == Some((1, w.tasks[i].setup.blocks[0])))
  }

  ghost predicate Quiet(sc: Scenario, w: World) {
    && (forall i :: 0 <= i < |w.tasks| ==> Untouched(sc, w.tasks[i]))
    && (forall e :: e in w.net && e.source == Client ==> e.target == Listener && e.payload == RequestDatagram(sc))
    && (forall e :: e in w.net && e.source.Server? ==>
          e.target == Client && e.source.task < |w.tasks| && Expected(sc, w.tasks[e.source.task], e.payload))
    && (forall e :: e in w.net && e.source == Listener ==> false)
  }

  ghost predicate Inv(sc: Scenario, w: World) {
    Agreed(sc, w) && (forall i :: 0 <= i < |w.tasks| ==> Faithful(w.tasks[i])) && (w.client.Unanswered? ==> Quiet(sc, w))
  }

  /** The heart of the argument: whatever the waiting client hears from a task, if it settles, it
      settles on that task's parameters, and data can only be block 1. */
  lemma SettlesRight(sc: Scenario, t: Task, attempt: nat, source: nat, payload: bytes)
    requires Untouched(sc, t) && Expected(sc, t, payload)
    ensures var client := AskHears(WantOack(sc), sc.clientRetries, attempt, source, payload);
            client.Settled? ==>
              && client.peer == source && client.neg == t.grant.neg
              && (client.first.Some? ==> |t.setup.blocks| > 0 && client.first == Some((1, t.setup.blocks[0])))
  {
    if payload == Encode(Oack(t.grant.oack)) && t.grant.oack != [] {
      RoundTripIff(Oack(t.grant.oack));
    } else if t.grant.oack == [] && |t.setup.blocks| > 0 && payload == DataDatagram(1, t.setup.blocks[0]) {
      DecodePlain(Data(1, t.setup.blocks[0]));
    }
  }

  /** No wishes, no acknowledgement: a task only waits for ACK(0) if the client asked. */
  lemma NothingAskedNothingGranted(sc: Scenario, size: u64)
    requires Reasonable(sc)
    ensures var g := Granted(sc.cfg, Acceptable(RequestOptions(sc.opts, None)), Some(size));
            && (g.oack != [] ==> WantOack(sc))
            && MergeOack(DEFAULTS, g.oack) == g.neg
            && (g.oack == [] ==> g.neg == DEFAULTS)
            && WellFormedOptions(g.oack)
  {
    var asked := RequestOptions(sc.opts, None);
    var options := Acceptable(asked);
    RequestHeard(sc.opts, sc.filename, None, options);
    MergeAgrees(sc.cfg, options, Some(size));
    GrantBounded(sc.cfg, options, Some(size));
    if asked == [] {
      assert options == [];
      assert BlockSizeOf([]) == None && TimeoutOf([]) == None && TransferSizeOf([]) == None && WindowSizeOf([]) == None;
    }
  }

  lemma ScenarioRequestHeard(sc: Scenario)
    requires Reasonable(sc)
    ensures Decode(RequestDatagram(sc)) == Ok(Rrq(sc.filename, sc.opts.mode, Acceptable(RequestOptions(sc.opts, None))))
  {
    RequestHeard(sc.opts, sc.filename, None, Acceptable(RequestOptions(sc.opts, None)));
  }

  lemma SpawnShape(sc: Scenario, mode: Mode, options: seq<OptionValue>, file: bytes, size: u64)
    requires CanGrant(sc.cfg, options)
    ensures var t := Spawn(sc, mode, options, file, size);
            && t.grant == Granted(sc.cfg, options, Some(size))
            && Faithful(t) && t.setup.netascii == (mode == NetAscii)
            && t.phase == if t.grant.oack == [] then Sending(SenderStart(t.setup)) else AwaitAck0(0)
  {
    var t := Spawn(sc, mode, options, file, size);
    SetupUsable(mode, file, t.grant.neg, sc.serverRetries, sc.clientRetries);
  }

  lemma SpawnUntouched(sc: Scenario, payload: bytes, file: bytes, size: u64)
    requires Reasonable(sc) && payload == RequestDatagram(sc)
    ensures Decode(payload).Ok? && Decode(payload).value.Rrq? && CanGrant(sc.cfg, Decode(payload).value.options)
    ensures var t := Spawned(sc, payload, file, size);
            Untouched(sc, t) && forall d :: d in Emission(t) ==> Expected(sc, t, d)
  {
    ScenarioRequestHeard(sc);
    NothingAskedNothingGranted(sc, size);
    SpawnShape(sc, sc.opts.mode, Acceptable(RequestOptions(sc.opts, None)), file, size);
    FirstEmission(sc, Spawned(sc, payload, file, size));
  }

  lemma FirstEmission(sc: Scenario, t: Task)
    requires t.grant.oack == [] ==> t.grant.neg == DEFAULTS
    requires |t.setup.blocks| > 0 && t.setup.window == t.grant.neg.windowsize
    requires t.phase == if t.grant.oack == [] then Sending(SenderStart(t.setup)) else AwaitAck0(0)
    ensures Emission(t) == [if t.grant.oack == [] then DataDatagram(1, t.setup.blocks[0]) else Encode(Oack(t.grant.oack))]
    ensures forall d :: d in Emission(t) ==> Expected(sc, t, d)
  {
    if t.grant.oack == [] {
      SingleWindow(t.setup, SenderStart(t.setup));
    }
  }

  /** A lock-step window that was never acknowledged holds block 1 and nothing else. */
  lemma SingleWindow(c: Setup, s: SenderState)
    requires |c.blocks| > 0 && s.base == 0 && s.sent == 1
    ensures WindowDatagrams(QueueOf(c, s.base, s.sent)) == [DataDatagram(1, c.blocks[0])]
  {
  }

  lemma FarewellExpected(sc: Scenario, t: Task, status: Status, d: bytes)
    requires d in Farewell(true, status)
    ensures Expected(sc, t, d)
  {
    AsciiText(TIMED_OUT_TEXT);
    DecodePlain(ErrorPacket(NotDefined, TIMED_OUT_TEXT));
  }

  lemma TimeoutUntouched(sc: Scenario, t: Task)
    requires Untouched(sc, t)
    ensures var t' := TaskHears(sc, t, Silence);
            && Untouched(sc, t') && t'.grant == t.grant && t'.setup == t.setup
            && forall d :: d in Emission(t') ==> Expected(sc, t', d)
  {
    var t' := TaskHears(sc, t, Silence);
    if t'.phase.Sending? {
      SingleWindow(t'.setup, t'.phase.snd);
    }
  }

  lemma QuietTaskTimeout(sc: Scenario, w: World, i: nat)
    requires Quiet(sc, w) && i < |w.tasks|
    ensures Quiet(sc, TaskMoves(sc, w, i, Silence))
  {
    var w' := TaskMoves(sc, w, i, Silence);
    var t' := w'.tasks[i];
    TimeoutUntouched(sc, w.tasks[i]);
    forall e | e in w'.net && e.source.Server?
      ensures e.target == Client && e.source.task < |w'.tasks| && Expected(sc, w'.tasks[e.source.task], e.payload)
    {
      if e in w.net {
        assert Expected(sc, w.tasks[e.source.task], e.payload);
      } else if e.payload !in Emission(t') {
        FarewellExpected(sc, t', t'.phase.snd.status, e.payload);
      }
    }
  }

  lemma QuietSpawn(sc: Scenario, w: World, t: Task, datagrams: seq<bytes>)
    requires Quiet(sc, w) && Untouched(sc, t)
    requires forall d :: d in datagrams ==> Expected(sc, t, d)
    ensures Quiet(sc, w.(tasks := w.tasks + [t], net := w.net + FromTask(|w.tasks|, datagrams)))
  {
    var w' := w.(tasks := w.tasks + [t], net := w.net + FromTask(|w.tasks|, datagrams));
    forall e | e in w'.net && e.source.Server?
      ensures e.target == Client && e.source.task < |w'.tasks| && Expected(sc, w'.tasks[e.source.task], e.payload)
    {
      if e in w.net {
        assert Expected(sc, w.tasks[e.source.task], e.payload);
      }
    }
  }

  lemma HearingKeepsTask(sc: Scenario, w: World, i: nat, e: Event)
    requires i < |w.tasks| && Agreed(sc, w) && forall j :: 0 <= j < |w.tasks| ==> Faithful(w.tasks[j])
    ensures Agreed(sc, TaskMoves(sc, w, i, e))
    ensures forall j :: 0 <= j < |w.tasks| ==> Faithful(TaskMoves(sc, w, i, e).tasks[j])
  {
    var t' := TaskHears(sc, w.tasks[i], e);
    assert t'.file == w.tasks[i].file && t'.grant == w.tasks[i].grant && t'.setup == w.tasks[i].setup;
  }

  lemma ClientHearsInv(sc: Scenario, w: World, env: Envelope)
    requires Reasonable(sc) && Inv(sc, w) && Enabled(sc, w, ClientHears(env))
    ensures Inv(sc, Apply(sc, w, ClientHears(env)))
  {
    var t := w.tasks[env.source.task];
    assert Untouched(sc, t) && Expected(sc, t, env.payload);
    SettlesRight(sc, t, w.client.attempt, env.source.task, env.payload);
    var w' := Apply(sc, w, ClientHears(env));
    if w'.client.Unanswered? {
      assert w'.net == w.net && w'.tasks == w.tasks;
    }
  }

  lemma SpawnKeepsInv(sc: Scenario, w: World, t: Task, datagrams: seq<bytes>)
    requires Inv(sc, w) && Faithful(t)
    requires w.client.Unanswered? ==> Untouched(sc, t) && forall d :: d in datagrams ==> Expected(sc, t, d)
    ensures Inv(sc, w.(tasks := w.tasks + [t], net := w.net + FromTask(|w.tasks|, datagrams)))
  {
    if w.client.Unanswered? {
      QuietSpawn(sc, w, t, datagrams);
    }
  }

  lemma ListenerHearsInv(sc: Scenario, w: World, env: Envelope, file: bytes, size: u64)
    requires Reasonable(sc) && Inv(sc, w) && Enabled(sc, w, ListenerHears(env, file, size))
    ensures Inv(sc, Apply(sc, w, ListenerHears(env, file, size)))
  {
    var t := Spawned(sc, env.payload, file, size);
    SpawnShape(sc, Decode(env.payload).value.mode, Decode(env.payload).value.options, file, size);
    if w.client.Unanswered? {
      RequestInNet(sc, w, env);
      SpawnUntouched(sc, env.payload, file, size);
    }
    SpawnKeepsInv(sc, w, t, Emission(t));
    assert Apply(sc, w, ListenerHears(env, file, size))
        == w.(tasks := w.tasks + [t], net := w.net + FromTask(|w.tasks|, Emission(t)));
  }

  lemma RequestInNet(sc: Scenario, w: World, env: Envelope)
    requires Quiet(sc, w) && env in w.net && env.target == Listener
    ensures env.payload == RequestDatagram(sc)
  {
  }

  lemma RefusedFaithful(sc: Scenario)
    ensures Faithful(Refused(sc)) && Untouched(sc, Refused(sc))
  {
    Blocks.FlattenOne([]);
    assert BlockSizeOf([]) == None && TimeoutOf([]) == None && WindowSizeOf([]) == None;
  }

  lemma ListenerRefusesInv(sc: Scenario, w: World, env: Envelope, code: ErrorCode, msg: bytes)
    requires Reasonable(sc) && Inv(sc, w) && Enabled(sc, w, ListenerRefuses(env, code, msg))
    ensures Inv(sc, Apply(sc, w, ListenerRefuses(env, code, msg)))
  {
    ErrorExpected(sc, Refused(sc), code, msg);
    RefusedFaithful(sc);
    SpawnKeepsInv(sc, w, Refused(sc), [Encode(ErrorPacket(code, msg))]);
  }

  lemma InvStep(sc: Scenario, w: World, step: Step)
    requires Reasonable(sc) && Inv(sc, w) && Enabled(sc, w, step)
    ensures Inv(sc, Apply(sc, w, step))
  {
    match step
    case ClientHears(env) => ClientHearsInv(sc, w, env);
    case ListenerHears(env, file, size) => ListenerHearsInv(sc, w, env, file, size);
    case ListenerRefuses(env, code, msg) => ListenerRefusesInv(sc, w, env, code, msg);
    case TaskTimesOut(i) =>
      HearingKeepsTask(sc, w, i, Silence);
      if w.client.Unanswered? {
        QuietTaskTimeout(sc, w, i);
      }
    case TaskGets(i, env) =>
      HearingKeepsTask(sc, w, i, Datagram(env.payload));
    case ClientTimesOut =>
    case ClientSpeaks(_) =>
  }

  lemma ErrorExpected(sc: Scenario, t: Task, code: ErrorCode, msg: bytes)
    ensures Expected(sc, t, Encode(ErrorPacket(code, msg)))
  {
    ErrorStaysError(code, msg);
  }

  // ---------- runs ----------

  ghost predicate Legal(sc: Scenario, w: World, steps: seq<Step>)
    requires Reasonable(sc)
    decreases |steps|
  {
    steps == [] || (Enabled(sc, w, steps[0]) && Legal(sc, Apply(sc, w, steps[0]), steps[1..]))
  }

  ghost function Exec(sc: Scenario, w: World, steps: seq<Step>): World
    requires Reasonable(sc) && Legal(sc, w, steps)
    decreases |steps|
  {
    if steps == [] then w else Exec(sc, Apply(sc, w, steps[0]), steps[1..])
  }

  lemma {:induction false} InvRun(sc: Scenario, w: World, steps: seq<Step>)
    requires Reasonable(sc) && Inv(sc, w) && Legal(sc, w, steps)
    ensures Inv(sc, Exec(sc, w, steps))
    decreases |steps|
  {
    if steps != [] {
      InvStep(sc, w, steps[0]);
      InvRun(sc, Apply(sc, w, steps[0]), steps[1..]);
    }
  }

  /** Handshake agreement in every run: a client that settles holds the block size, window and
      timeout of the very task it talks to, however many tasks the retransmitted requests
      started; that task cuts its file with exactly these parameters; and if the client settled on
      data, that is block 1 of that file, so its error exit for any other block is never taken. */
  lemma Agreement(sc: Scenario, init: World, steps: seq<Step>)
    requires Reasonable(sc) && Init(sc, init) && Legal(sc, init, steps)
    ensures var w := Exec(sc, init, steps);
            w.client.Settled? ==>
              && w.client.peer < |w.tasks|
              && var t := w.tasks[w.client.peer];
                 && w.client.neg == t.grant.neg
                 && Usable(t.setup) && t.setup.size == w.client.neg.blksize && t.setup.window == w.client.neg.windowsize
                 && Blocks.Flatten(t.setup.blocks) == WireOf(sc.opts.mode == NetAscii, t.file)
                 && (w.client.first.Some? ==> w.client.first == Some((1, t.setup.blocks[0])))
  {
    InvRun(sc, init, steps);
  }

  // ---------- a handshake that succeeds ----------

  lemma Continued(sc: Scenario, w: World, step: Step, rest: seq<Step>)
    requires Reasonable(sc) && Enabled(sc, w, step) && Legal(sc, Apply(sc, w, step), rest)
    ensures Legal(sc, w, [step] + rest) && Exec(sc, w, [step] + rest) == Exec(sc, Apply(sc, w, step), rest)
  {
    assert ([step] + rest)[1..] == rest;
  }

  /** The task that the client's own request starts. */
  function OwnTask(sc: Scenario, file: bytes, size: u64): Task
    requires Reasonable(sc)
  {
    Spawn(sc, sc.opts.mode, Acceptable(RequestOptions(sc.opts, None)), file, size)
  }

  lemma OwnTaskShape(sc: Scenario, file: bytes, size: u64, t: Task)
    requires Reasonable(sc) && t == OwnTask(sc, file, size)
    ensures |t.setup.blocks| > 0
    ensures t.phase == if t.grant.oack == [] then Sending(SenderStart(t.setup)) else AwaitAck0(0)
    ensures Emission(t) == [if t.grant.oack == [] then DataDatagram(1, t.setup.blocks[0]) else Encode(Oack(t.grant.oack))]
    ensures t.grant.oack == [] ==> t.grant.neg == DEFAULTS
    ensures t.grant.oack != [] ==> WantOack(sc) && WellFormedOptions(t.grant.oack) && MergeOack(DEFAULTS, t.grant.oack) == t.grant.neg
  {
    NothingAskedNothingGranted(sc, size);
    SpawnShape(sc, sc.opts.mode, Acceptable(RequestOptions(sc.opts, None)), file, size);
    FirstEmission(sc, t);
  }

  lemma SpawnedOwn(sc: Scenario, payload: bytes, file: bytes, size: u64)
    requires Reasonable(sc) && payload == RequestDatagram(sc)
    ensures Decode(payload).Ok? && Decode(payload).value.Rrq? && CanGrant(sc.cfg, Decode(payload).value.options)
    ensures Spawned(sc, payload, file, size) == OwnTask(sc, file, size)
  {
    ScenarioRequestHeard(sc);
  }

  lemma RequestStarts(sc: Scenario, init: World, env: Envelope, file: bytes, size: u64, t: Task)
    requires Reasonable(sc) && Init(sc, init) && t == OwnTask(sc, file, size)
    requires env.source == Client && env.target == Listener && env.payload == RequestDatagram(sc)
    ensures Enabled(sc, init, ListenerHears(env, file, size))
    ensures Apply(sc, init, ListenerHears(env, file, size)) == World(Unanswered(0), [t], init.net + FromTask(0, Emission(t)))
  {
    SpawnedOwn(sc, env.payload, file, size);
    assert init.tasks + [t] == [t];
  }

  /** The task's first datagram settles the client, whether anything was granted or not. */
  lemma FirstDatagramSettles(sc: Scenario, file: bytes, size: u64, t: Task)
    requires Reasonable(sc) && t == OwnTask(sc, file, size)
    ensures |t.setup.blocks| > 0 && |Emission(t)| == 1
    ensures AskHears(WantOack(sc), sc.clientRetries, 0, 0, Emission(t)[0])
            == Settled(0, t.grant.neg, if t.grant.oack == [] then Some((1, t.setup.blocks[0])) else None)
  {
    OwnTaskShape(sc, file, size, t);
    RoundTripIff(Oack(t.grant.oack));
    DecodePlain(Data(1, t.setup.blocks[0]));
  }

  /** ACK(0) ends the wait of a task and starts its transfer. */
  lemma ConfirmationStarts(sc: Scenario, t: Task, attempt: nat)
    requires t.phase == AwaitAck0(attempt)
    ensures TaskHears(sc, t, Datagram(AckDatagram(0))) == t.(phase := Sending(SenderStart(t.setup)))
  {
    HeardAsSent(0, []);
  }

  /** In every scenario, for every file, the handshake can succeed: request, answer, and ACK(0) if the
      answer was an OACK. Then the client holds exactly what the server granted, and the task has
      started the transfer of the file with it. */
  lemma HandshakeSucceeds(sc: Scenario, init: World, file: bytes, size: u64) returns (steps: seq<Step>)
    requires Reasonable(sc) && Init(sc, init)
    ensures Legal(sc, init, steps)
    ensures var end := Exec(sc, init, steps);
            var t := OwnTask(sc, file, size);
            && |t.setup.blocks| > 0
            && end.tasks == [t.(phase := Sending(SenderStart(t.setup)))]
            && end.client == Settled(0, t.grant.neg, if t.grant.oack == [] then Some((1, t.setup.blocks[0])) else None)
  {
    var t := OwnTask(sc, file, size);
    var env := Envelope(Client, Listener, RequestDatagram(sc));
    var request := ListenerHears(env, file, size);
    RequestStarts(sc, init, env, file, size, t);
    OwnTaskShape(sc, file, size, t);
    var w1 := Apply(sc, init, request);
    var rest := AnswerAndConfirm(sc, w1, file, size, t);
    Continued(sc, init, request, rest);
    steps := [request] + rest;
  }

  lemma AnswerAndConfirm(sc: Scenario, w: World, file: bytes, size: u64, t: Task) returns (steps: seq<Step>)
    requires Reasonable(sc) && t == OwnTask(sc, file, size) && |t.setup.blocks| > 0
    requires w.client == Unanswered(0) && w.tasks == [t] && FromTask(0, Emission(t)) <= w.net
    ensures Legal(sc, w, steps)
    ensures var end := Exec(sc, w, steps);
            && end.tasks == [t.(phase := Sending(SenderStart(t.setup)))]
            && end.client == Settled(0, t.grant.neg, if t.grant.oack == [] then Some((1, t.setup.blocks[0])) else None)
  {
    OwnTaskShape(sc, file, size, t);
    FirstDatagramSettles(sc, file, size, t);
    var answer := ClientHears(Envelope(Server(0), Client, Emission(t)[0]));
    assert Envelope(Server(0), Client, Emission(t)[0]) in FromTask(0, Emission(t));
    var next := Apply(sc, w, answer);
    var rest: seq<Step> := [];
    if t.grant.oack != [] {
      var confirm := TaskGets(0, Envelope(Client, Server(0), AckDatagram(0)));
      ConfirmationStarts(sc, t, 0);
      Continued(sc, next, confirm, []);
      rest := [confirm];
    }
    Continued(sc, w, answer, rest);
    steps := [answer] + rest;
  }
}
