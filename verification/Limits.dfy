/** Where the protocol's promises end: concrete runs in which a plausible claim fails, and the
    exact condition under which it holds. */
module Limits {
  import opened Basics
  import opened Window
  import opened Transfer
  import opened Negotiation
  import opened Options
  import opened Packets
  import opened Endpoints
  import Blocks
  import Client
  import F = Fifo
  import Netascii
  import U = Unordered

  // ---------- a finished receiver does not make a successful sender ----------

  /** An empty file, one block, no retries. */
  const EMPTY_FILE := Setup([[]], 512, 1, false, 0, 0)

  function EmptyFileStart(): F.State {
    F.State(SenderStart(EMPTY_FILE), ReceiverStart(), [U.DataMsg(0, 1, [])], [])
  }

  /** The receiver leaves after its last acknowledgement; if that is lost the sender times out. */
  lemma ReceiverDoneSenderTimedOut()
    ensures Usable(EMPTY_FILE) && F.Init(EMPTY_FILE, EmptyFileStart())
    ensures var steps := [F.DeliverData, F.LoseAck(0), F.SenderTick];
            && F.Legal(EMPTY_FILE, EmptyFileStart(), steps)
            && F.Exec(EMPTY_FILE, EmptyFileStart(), steps).rcv.status == Done
            && F.Exec(EMPTY_FILE, EmptyFileStart(), steps).snd.status == TimedOut
  {
    assert U.Burst(EMPTY_FILE, SenderStart(EMPTY_FILE)) == [U.DataMsg(0, 1, [])];
    LastAckLost(EMPTY_FILE, EmptyFileStart());
  }

  lemma LastAckLost(c: Setup, s0: F.State)
    requires Usable(c) && |c.blocks| == 1 && c.sendRetries == 0
    requires F.Init(c, s0) && s0.acks == []
    ensures var steps := [F.DeliverData, F.LoseAck(0), F.SenderTick];
            && F.Legal(c, s0, steps)
            && F.Exec(c, s0, steps).rcv.status == Done
            && F.Exec(c, s0, steps).snd.status == TimedOut
  {
    var s1 := F.Apply(c, s0, F.DeliverData);
    OnlyBlock(c, s0, s1);
    var s2 := F.Apply(c, s1, F.LoseAck(0));
    ChannelCons(c, F.Apply(c, s2, F.SenderTick), []);
    ChannelCons(c, s2, [F.SenderTick]);
    ChannelCons(c, s1, [F.LoseAck(0), F.SenderTick]);
    ChannelCons(c, s0, [F.DeliverData, F.LoseAck(0), F.SenderTick]);
  }

  lemma OnlyBlock(c: Setup, s0: F.State, s1: F.State)
    requires Usable(c) && |c.blocks| == 1 && F.Init(c, s0) && s0.acks == []
    requires s0.data != [] && s1 == F.Apply(c, s0, F.DeliverData)
    ensures s1.snd == SenderStart(c) && s1.rcv.status == Done && |s1.acks| == 1
  {
    assert s0.data[0] == U.Msg(c, 0);
  }

  lemma ChannelCons(c: Setup, st: F.State, steps: seq<F.Step>)
    requires Usable(c) && SenderOk(c, st.snd)
    requires steps != [] ==> F.Enabled(st, steps[0]) && F.Legal(c, F.Apply(c, st, steps[0]), steps[1..])
    ensures F.Legal(c, st, steps)
    ensures F.Exec(c, st, steps) == if steps == [] then st else F.Exec(c, F.Apply(c, st, steps[0]), steps[1..])
  {
  }

  /** A running sender succeeds in a step if and only if that step delivers an acknowledgement of
      the whole file. */
  lemma StepSucceedsIff(c: Setup, st: F.State, step: F.Step)
    requires Usable(c) && F.Inv(c, st) && F.Enabled(st, step) && st.snd.status == Running
    ensures F.Apply(c, st, step).snd.status == Done <==> step == F.DeliverAck && st.acks[0].count == |c.blocks|
  {
    if step.DeliverAck? {
      F.DeliverAckInv(c, st);
      assert U.AckOk(st.rcv, st.acks[0]);
      U.AckStep(c, st.snd, st.rcv, st.acks[0]);
    }
  }

  /** Somewhere along `steps` a running sender hears an acknowledgement of the whole file. */
  ghost predicate FinalAckHeard(c: Setup, st: F.State, steps: seq<F.Step>)
    requires Usable(c) && SenderOk(c, st.snd) && F.Legal(c, st, steps)
    decreases |steps|
  {
    steps != [] &&
    ((st.snd.status == Running && steps[0] == F.DeliverAck && st.acks[0].count == |c.blocks|)
     || FinalAckHeard(c, F.Apply(c, st, steps[0]), steps[1..]))
  }

  lemma StoppedStays(c: Setup, st: F.State, step: F.Step)
    requires Usable(c) && SenderOk(c, st.snd) && F.Enabled(st, step) && st.snd.status != Running
    ensures F.Apply(c, st, step).snd == st.snd
  {
  }

  lemma {:induction false} SucceedsFrom(c: Setup, st: F.State, steps: seq<F.Step>)
    requires Usable(c) && F.Inv(c, st) && F.Legal(c, st, steps)
    ensures F.Exec(c, st, steps).snd.status == Done <==> st.snd.status == Done || FinalAckHeard(c, st, steps)
    ensures st.snd.status != Running ==> F.Exec(c, st, steps).snd == st.snd && !FinalAckHeard(c, st, steps)
    decreases |steps|
  {
    if steps != [] {
      F.InvStep(c, st, steps[0]);
      SucceedsFrom(c, F.Apply(c, st, steps[0]), steps[1..]);
      if st.snd.status == Running {
        StepSucceedsIff(c, st, steps[0]);
      } else {
        StoppedStays(c, st, steps[0]);
      }
    }
  }

  /** A run ends in success for the sender if and only if, while it was still running, it heard an
      acknowledgement of the whole file. Whether the receiver finished does not enter. */
  lemma SucceedsIffFinalAck(c: Setup, init: F.State, steps: seq<F.Step>)
    requires Usable(c) && F.Init(c, init) && F.Legal(c, init, steps)
    ensures F.Exec(c, init, steps).snd.status == Done <==> FinalAckHeard(c, init, steps)
  {
    F.InitInv(c, init);
    SucceedsFrom(c, init, steps);
  }

  // ---------- unbounded reordering loses data ----------

  /** What a server with the usual limits grants a client that asks for 8-byte blocks and for the
      largest window RFC 7440 allows, about a file of 24 bytes. */
  const SMALL_BLOCKS := Granted(ServerConfig(65464, true), [BlockSize(8), WindowSize(65535)], Some(24))

  /** The transfer that follows: three full blocks and an empty one. */
  function FourBlocks(file: bytes): Setup
    requires |file| == 24
  {
    Setup([file[..8], file[8..16], file[16..], []], 8, 65535, false, 5, 5)
  }

  lemma FourBlocksGranted(file: bytes)
    requires |file| == 24
    ensures SMALL_BLOCKS.neg.blksize == 8 && SMALL_BLOCKS.oack != []
    ensures SetupFor(Octet, file, SMALL_BLOCKS.neg, 5, 5) == FourBlocks(file)
    ensures Usable(FourBlocks(file))
  {
    var wishes := [BlockSize(8), WindowSize(65535)];
    assert BlockSizeOf(wishes) == Some(8) && WindowSizeOf(wishes) == Some(65535);
    assert TimeoutOf(wishes) == None && TransferSizeOf(wishes) == None;
    CutInFour(file, file[..8], file[8..16], file[16..]);
  }

  lemma CutInFour(file: bytes, a: bytes, b: bytes, d: bytes)
    requires file == a + b + d && |a| == |b| == |d| == 8
    ensures Blocks.Shaped([a, b, d, []], 8) && Blocks.Split(file, 8) == [a, b, d, []]
  {
    assert [a, b, d, []] == [a] + ([b] + ([d] + [[]]));
    Blocks.FlattenOne([]);
    Blocks.FlattenCons(d, [[]]);
    Blocks.FlattenCons(b, [d] + [[]]);
    Blocks.FlattenCons(a, [b] + ([d] + [[]]));
    assert a + (b + (d + [])) == file;
    Blocks.SplitUnique([a, b, d, []], 8);
  }

  function FourBlocksStart(file: bytes): U.State
    requires |file| == 24
  {
    var c := FourBlocks(file);
    U.State(SenderStart(c), ReceiverStart(), {U.Msg(c, 0), U.Msg(c, 1), U.Msg(c, 2), U.Msg(c, 3)}, {U.AckMsg(0, 0)})
  }

  function FourBlocksRun(file: bytes): seq<U.Step>
    requires |file| == 24
  {
    var c := FourBlocks(file);
    [U.ReceiverGets(U.Msg(c, 0)), U.ReceiverGets(U.Msg(c, 1)), U.ReceiverTick, U.SenderGets(U.AckMsg(2, 2))]
  }

  /** The receiver after two blocks, when it has timed out `attempt` times since. */
  function Halfway(file: bytes, attempt: nat): ReceiverState
    requires |file| == 24
  {
    ReceiverState(2, 3, 2, 2, attempt, Netascii.Decoder(file[..16], false), Running)
  }

  function OneBlock(file: bytes): ReceiverState
    requires |file| == 24
  {
    ReceiverState(1, 2, 1, 1, 0, Netascii.Decoder(file[..8], false), Running)
  }

  lemma FourBlocksReceiver(file: bytes)
    requires |file| == 24
    ensures var c := FourBlocks(file);
            && ReceiverStep(c, ReceiverStart(), GotData(1, file[..8])).state == OneBlock(file)
            && ReceiverStep(c, OneBlock(file), GotData(2, file[8..16])).state == Halfway(file, 0)
            && ReceiverStep(c, Halfway(file, 0), Input.Timeout) == Reply(Halfway(file, 1), [2])
  {
    assert [] + file[..8] == file[..8] && file[..8] + file[8..16] == file[..16];
  }

  lemma GetsBlock(c: Setup, st: U.State, m: U.DataMsg)
    requires Usable(c) && SenderOk(c, st.snd) && m in st.data && U.DataFresh(st, m)
    ensures var st' := U.Apply(c, st, U.ReceiverGets(m));
            && U.Enabled(c, st, U.ReceiverGets(m))
            && st'.snd == st.snd && st'.data == st.data && st.acks <= st'.acks
            && st'.rcv == ReceiverStep(c, st.rcv, GotData(m.number, m.payload)).state
  {
  }

  lemma ReAcks(c: Setup, st: U.State, r: ReceiverState, number: u16)
    requires Usable(c) && SenderOk(c, st.snd)
    requires ReceiverStep(c, st.rcv, Input.Timeout) == Reply(r, [number])
    ensures var st' := U.Apply(c, st, U.ReceiverTick);
            && U.Enabled(c, st, U.ReceiverTick)
            && st'.snd == st.snd && st'.rcv == r && st.acks <= st'.acks && U.AckMsg(r.got, number) in st'.acks
  {
    assert U.AckMsgs(r.got, [number])[0] == U.AckMsg(r.got, number);
  }

  /** Two blocks arrive, the receiver repeats its acknowledgement, the sender hears it. */
  lemma FourBlocksExec(c: Setup, st0: U.State, m0: U.DataMsg, m1: U.DataMsg, r1: ReceiverState, r2: ReceiverState, r3: ReceiverState, n: u16)
    requires Usable(c) && SenderOk(c, st0.snd) && m0 in st0.data && m1 in st0.data
    requires U.DataFresh(st0, m0) && m1.index + 0x1_0000 > r1.got
    requires r1 == ReceiverStep(c, st0.rcv, GotData(m0.number, m0.payload)).state
    requires r2 == ReceiverStep(c, r1, GotData(m1.number, m1.payload)).state
    requires ReceiverStep(c, r2, Input.Timeout) == Reply(r3, [n])
    requires U.AckFresh(c, st0, U.AckMsg(r3.got, n))
    ensures var steps := [U.ReceiverGets(m0), U.ReceiverGets(m1), U.ReceiverTick, U.SenderGets(U.AckMsg(r3.got, n))];
            && U.Legal(c, st0, steps)
            && var st := U.Exec(c, st0, steps);
               st.rcv == r3 && st0.acks <= st.acks && st.snd == SenderStep(c, st0.snd, GotAck(n))
  {
    GetsBlock(c, st0, m0);
    var st1 := U.Apply(c, st0, U.ReceiverGets(m0));
    GetsBlock(c, st1, m1);
    var st2 := U.Apply(c, st1, U.ReceiverGets(m1));
    ReAcks(c, st2, r3, n);
    var st3 := U.Apply(c, st2, U.ReceiverTick);
    GetsAck(c, st3, U.AckMsg(r3.got, n));
    FourSteps(c, st0, st1, st2, st3, U.ReceiverGets(m0), U.ReceiverGets(m1), U.ReceiverTick, U.SenderGets(U.AckMsg(r3.got, n)));
  }

  lemma FourSteps(c: Setup, s0: U.State, s1: U.State, s2: U.State, s3: U.State, a: U.Step, b: U.Step, d: U.Step, e: U.Step)
    requires Usable(c) && SenderOk(c, s0.snd)
    requires U.Enabled(c, s0, a) && s1 == U.Apply(c, s0, a)
    requires U.Enabled(c, s1, b) && s2 == U.Apply(c, s1, b)
    requires U.Enabled(c, s2, d) && s3 == U.Apply(c, s2, d)
    requires U.Enabled(c, s3, e)
    ensures U.Legal(c, s0, [a, b, d, e]) && U.Exec(c, s0, [a, b, d, e]) == U.Apply(c, s3, e)
  {
    LegalCons(c, U.Apply(c, s3, e), []);
    LegalCons(c, s3, [e]);
    LegalCons(c, s2, [d, e]);
    LegalCons(c, s1, [b, d, e]);
    LegalCons(c, s0, [a, b, d, e]);
  }

  lemma GetsAck(c: Setup, st: U.State, a: U.AckMsg)
    requires Usable(c) && SenderOk(c, st.snd) && a in st.acks && U.AckFresh(c, st, a)
    ensures var st' := U.Apply(c, st, U.SenderGets(a));
            && U.Enabled(c, st, U.SenderGets(a)) && st'.rcv == st.rcv && st'.acks == st.acks
            && st'.snd == SenderStep(c, st.snd, GotAck(a.number))
  {
  }

  lemma LegalCons(c: Setup, st: U.State, steps: seq<U.Step>)
    requires Usable(c) && SenderOk(c, st.snd)
    requires steps != [] ==> U.Enabled(c, st, steps[0]) && U.Legal(c, U.Apply(c, st, steps[0]), steps[1..])
    ensures U.Legal(c, st, steps)
    ensures U.Exec(c, st, steps) == if steps == [] then st else U.Exec(c, U.Apply(c, st, steps[0]), steps[1..])
  {
  }

  /** A late copy of the handshake's ACK(0), three blocks behind the front of the queue, is taken
      for an acknowledgement of everything in flight: the sender reports success, the receiver has
      sixteen of the file's 24 bytes. The age bound on acknowledgements excludes exactly this
      delivery. */
  lemma LateAckLosesData(file: bytes)
    requires |file| == 24
    ensures SMALL_BLOCKS.neg.blksize > 0 && SMALL_BLOCKS.oack != []
    ensures var c := SetupFor(Octet, file, SMALL_BLOCKS.neg, 5, 5);
            var steps := FourBlocksRun(file);
            && Usable(c) && U.Init(c, FourBlocksStart(file)) && U.Legal(c, FourBlocksStart(file), steps)
            && var st := U.Exec(c, FourBlocksStart(file), steps);
               var late := U.AckMsg(0, 0);
               && late in st.acks && !U.AckFresh(c, st, late)
               && SenderStep(c, st.snd, GotAck(late.number)).status == Done
               && st.rcv.status == Running && st.rcv.got == 2 && st.rcv.disk.out == file[..16]
  {
    FourBlocksGranted(file);
    FourBlocksInit(file);
    FourBlocksReceiver(file);
    FourBlocksSender(FourBlocks(file));
    FourBlocksExec(FourBlocks(file), FourBlocksStart(file), U.Msg(FourBlocks(file), 0), U.Msg(FourBlocks(file), 1),
                   OneBlock(file), Halfway(file, 0), Halfway(file, 1), 2);
  }

  lemma FourBlocksSender(c: Setup)
    requires |c.blocks| == 4 && c.window == 65535
    ensures SenderStep(c, SenderStart(c), GotAck(2)) == SenderState(2, 4, 0, Running)
    ensures SenderStep(c, SenderState(2, 4, 0, Running), GotAck(0)) == SenderState(4, 4, 0, Done)
  {
    assert WrapSub(2, BlockNumber(0)) == 1 && WrapSub(0, BlockNumber(2)) == 65533;
  }

  lemma FourBlocksInit(file: bytes)
    requires |file| == 24
    ensures U.Init(FourBlocks(file), FourBlocksStart(file))
  {
    var c := FourBlocks(file);
    var msgs := set i | 0 <= i < 4 && i < |c.blocks| :: U.Msg(c, i);
    assert msgs == FourBlocksStart(file).data;
  }

  // ---------- the write handshake can disagree ----------

  /** The datagrams a server may send before it has received any data: its answer, and, after each
      timeout, ACK(0), even when it had options to acknowledge. */
  predicate WriteReply(g: Grant, payload: bytes) {
    payload == Encode(Ack(0)) || (g.oack != [] && payload == Encode(Oack(g.oack)))
  }

  /** What the server's task for a write request has sent while it had no data is such a reply, or
      its parting ERROR. */
  lemma {:induction false} BeforeData(c: Setup, r: ReceiverState, inbox: seq<Event>)
    requires c.window > 0 && Consistent(c, r) && ReceiverHears(c, r, inbox).got == 0
    ensures r.got == 0
    ensures forall d :: d in ReceiverSends(c, true, r, inbox) ==> d == Encode(Ack(0)) || d == TimedOutDatagram()
    decreases |inbox|
  {
    if r.status == Running && inbox != [] {
      var reply := ReceiverStep(c, r, Hear(inbox[0]));
      ConsistentStep(c, r, Hear(inbox[0]));
      BeforeData(c, reply.state, inbox[1..]);
    }
  }

  /** These are exactly its replies: nothing else is sent before data arrives, and each of them is
      sent in some run. */
  lemma WriteRepliesExact(g: Grant, retries: nat, inbox: seq<Event>, d: bytes)
    requires g.neg.windowsize > 0
    ensures var c := Setup([], g.neg.blksize, g.neg.windowsize, false, 0, retries);
            var sent := [if g.oack == [] then AckDatagram(0) else Encode(Oack(g.oack))] + ReceiverSends(c, true, ReceiverStart(), inbox);
            ReceiverHears(c, ReceiverStart(), inbox).got == 0 && d in sent ==> WriteReply(g, d) || d == TimedOutDatagram()
    ensures var c := Setup([], g.neg.blksize, g.neg.windowsize, false, 0, retries);
            var sent := [if g.oack == [] then AckDatagram(0) else Encode(Oack(g.oack))] + ReceiverSends(c, true, ReceiverStart(), [Silence]);
            retries > 0 && WriteReply(g, d) ==> d in sent && ReceiverHears(c, ReceiverStart(), [Silence]).got == 0
  {
    var c := Setup([], g.neg.blksize, g.neg.windowsize, false, 0, retries);
    if ReceiverHears(c, ReceiverStart(), inbox).got == 0 {
      BeforeData(c, ReceiverStart(), inbox);
    }
    if retries > 0 {
      OneSilence(c);
    }
  }

  lemma OneSilence(c: Setup)
    requires c.recvRetries > 0
    ensures ReceiverSends(c, true, ReceiverStart(), [Silence]) == [AckDatagram(0)]
    ensures ReceiverHears(c, ReceiverStart(), [Silence]).got == 0
  {
    assert [Silence][1..] == [];
    OneAck(0);
    assert [AckDatagram(0)] + [] == [AckDatagram(0)];
  }

  /** An uploading client agrees with the server if and only if what it heard was the OACK, or the
      server is using the defaults anyway. */
  lemma WriteAgreesIff(cfg: ServerConfig, requested: seq<OptionValue>, wantOack: bool, retries: nat, attempt: nat,
                       source: nat, payload: bytes)
    requires CanGrant(cfg, requested) && WellFormedOptions(requested)
    requires WriteReply(Granted(cfg, requested, None), payload)
    requires Granted(cfg, requested, None).oack != [] ==> wantOack
    ensures var g := Granted(cfg, requested, None);
            var heard := Client.PutHears(wantOack, retries, attempt, source, payload);
            && heard.Settled? && heard.peer == source
            && (heard.neg == g.neg <==> payload == Encode(Oack(g.oack)) || g.neg == DEFAULTS)
  {
    var g := Granted(cfg, requested, None);
    GrantBounded(cfg, requested, None);
    MergeAgrees(cfg, requested, None);
    RoundTripIff(Oack(g.oack));
    DecodePlain(Ack(0));
  }

  /** A client that asked for 1024-byte blocks and whose OACK was lost: the server's retransmission
      makes it send 512-byte blocks, and the server takes the first of them for the last. */
  lemma WriteDisagrees()
    ensures var g := Granted(ServerConfig(65464, true), [BlockSize(1024)], None);
            && WriteReply(g, Encode(Ack(0)))
            && g.neg.blksize == 1024
            && Client.PutHears(true, 5, 0, 0, Encode(Ack(0))).Settled?
            && Client.PutHears(true, 5, 0, 0, Encode(Ack(0))).neg == DEFAULTS
            && var c := Setup([], g.neg.blksize, g.neg.windowsize, false, 0, 5);
               forall payload: bytes :: |payload| == DEFAULTS.blksize ==>
                 ReceiverStep(c, ReceiverStart(), GotData(1, payload)).state.status == Done
  {
    DecodePlain(Ack(0));
    assert BlockSizeOf([BlockSize(1024)]) == Some(1024);
  }
}
