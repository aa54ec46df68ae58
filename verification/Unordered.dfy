/** The transfer over a network that may lose, duplicate and reorder datagrams arbitrarily, as
    long as delivered datagrams are not older than the 16-bit numbering can tell apart. */
module Unordered {
  import opened Basics
  import Blocks
  import Netascii
  import opened Window
  import opened Transfer

  /** A DATA datagram with its position in the file, which no endpoint ever sees. */
  datatype DataMsg = DataMsg(index: nat, number: u16, payload: bytes)

  /** An ACK datagram with the number of blocks its sender had accepted. */
  datatype AckMsg = AckMsg(count: nat, number: u16)

  /** Everything ever sent stays deliverable: a datagram that is never delivered is lost, one that
      is delivered twice is duplicated. */
  datatype State = State(snd: SenderState, rcv: ReceiverState, data: set<DataMsg>, acks: set<AckMsg>)

  datatype Step =
    | SenderTick
    | SenderGets(ack: AckMsg)
    | SenderNoise
    | SenderAbort
    | ReceiverTick
    | ReceiverGets(msg: DataMsg)
    | ReceiverNoise
    | ReceiverAbort

  function Msg(c: Setup, i: nat): DataMsg
    requires i < |c.blocks|
  {
    DataMsg(i, BlockNumber(i), c.blocks[i])
  }

  /** The datagrams of one window, in sending order; a sender that stopped sends nothing. */
  function Burst(c: Setup, s: SenderState): (w: seq<DataMsg>)
    requires SenderOk(c, s)
    ensures |w| == if s.status == Running then s.sent - s.base else 0
    ensures forall k :: 0 <= k < |w| ==> w[k] == Msg(c, s.base + k)
  {
    if s.status == Running then seq(s.sent - s.base, k requires 0 <= k < s.sent - s.base => Msg(c, s.base + k))
    else []
  }

  function AckMsgs(count: nat, numbers: seq<u16>): seq<AckMsg> {
    seq(|numbers|, k requires 0 <= k < |numbers| => AckMsg(count, numbers[k]))
  }

  ghost predicate Init(c: Setup, st: State) {
    && st.snd == SenderStart(c)
    && st.rcv == ReceiverStart()
    && st.data == (set i | 0 <= i < st.snd.sent && i < |c.blocks| :: Msg(c, i))
    && st.acks <= {AckMsg(0, 0)}
  }

  /** A delivered block is less than 65536 positions behind the receiver. */
  predicate DataFresh(st: State, m: DataMsg) {
    m.index + 0x1_0000 > st.rcv.got
  }

  /** A delivered acknowledgement is at most 65536 - window blocks behind the sender's front. */
  predicate AckFresh(c: Setup, st: State, a: AckMsg) {
    a.count + 0x1_0000 >= st.snd.base + 1 + c.window
  }

  ghost predicate Enabled(c: Setup, st: State, step: Step) {
    match step
    case SenderGets(a) => a in st.acks && AckFresh(c, st, a)
    case ReceiverGets(m) => m in st.data && DataFresh(st, m)
    case _ => true
  }

  function SenderMoves(c: Setup, st: State, input: Input): State
    requires SenderOk(c, st.snd) && SenderOk(c, SenderStep(c, st.snd, input))
  {
    var snd := SenderStep(c, st.snd, input);
    var burst := if st.snd.status == Running then Burst(c, snd) else [];
    st.(snd := snd, data := st.data + (set m | m in burst))
  }

  function ReceiverMoves(c: Setup, st: State, input: Input): State {
    var reply := ReceiverStep(c, st.rcv, input);
    st.(rcv := reply.state, acks := st.acks + (set a | a in AckMsgs(reply.state.got, reply.acks)))
  }

  lemma SenderStaysOk(c: Setup, s: SenderState, input: Input)
    requires Usable(c) && SenderOk(c, s)
    ensures SenderOk(c, SenderStep(c, s, input))
    ensures SenderStep(c, s, input).base >= s.base
  {
  }

  ghost function Apply(c: Setup, st: State, step: Step): (st': State)
    requires Usable(c) && SenderOk(c, st.snd)
    ensures SenderOk(c, st'.snd)
  {
    SenderStaysOkAll(c, st.snd);
    match step
    case SenderTick => SenderMoves(c, st, Timeout)
    case SenderGets(a) => SenderMoves(c, st, GotAck(a.number))
    case SenderNoise => SenderMoves(c, st, GotOther)
    case SenderAbort => SenderMoves(c, st, GotError)
    case ReceiverTick => ReceiverMoves(c, st, Timeout)
    case ReceiverGets(m) => ReceiverMoves(c, st, GotData(m.number, m.payload))
    case ReceiverNoise => ReceiverMoves(c, st, GotOther)
    case ReceiverAbort => ReceiverMoves(c, st, GotError)
  }

  lemma SenderStaysOkAll(c: Setup, s: SenderState)
    requires Usable(c) && SenderOk(c, s)
    ensures forall input :: SenderOk(c, SenderStep(c, s, input))
  {
    forall input ensures SenderOk(c, SenderStep(c, s, input)) {
      SenderStaysOk(c, s, input);
    }
  }

  // ---------- the inductive invariant ----------

  /** Where the two ends stand relative to each other, and what the disk holds. */
  ghost predicate Linked(c: Setup, s: SenderState, r: ReceiverState) {
    && SenderOk(c, s)
    && Consistent(c, r)
    && s.base <= r.got <= s.sent
    && (r.status == Done <==> r.got == |c.blocks|)
    && r.disk == if r.status == Done then Close(Written(c, r.got)) else Written(c, r.got)
  }

  ghost predicate DataOk(c: Setup, s: SenderState, m: DataMsg)
    requires s.sent <= |c.blocks|
  {
    m.index < s.sent && m == Msg(c, m.index)
  }

  ghost predicate AckOk(r: ReceiverState, a: AckMsg) {
    a.count <= r.got && a.number == AckNumber(a.count)
  }

  ghost predicate Inv(c: Setup, st: State) {
    && Linked(c, st.snd, st.rcv)
    && (forall m :: m in st.data ==> DataOk(c, st.snd, m))
    && (forall a :: a in st.acks ==> AckOk(st.rcv, a))
  }

  lemma InitInv(c: Setup, st: State)
    requires Usable(c) && Init(c, st)
    ensures Inv(c, st)
  {
    assert c.blocks[..0] == [];
  }

  /** One acknowledgement: the sender advances to what the receiver had accepted, or not at all. */
  lemma AckStep(c: Setup, s: SenderState, r: ReceiverState, a: AckMsg)
    requires Usable(c) && Linked(c, s, r) && AckOk(r, a)
    requires a.count + 0x1_0000 >= s.base + 1 + c.window
    ensures Linked(c, SenderStep(c, s, GotAck(a.number)), r)
    ensures s.status == Running ==>
              var s' := SenderStep(c, s, GotAck(a.number));
              if a.count > s.base then s'.base == a.count && s'.attempt == 0 else s' == s
  {
    SenderStaysOk(c, s, GotAck(a.number));
    if s.status == Running {
      if a.count > s.base {
        FreshAckPopsExactly(s.base, s.sent, a.count, c.window);
      } else {
        StaleAckIgnoredIff(s.base, s.sent, a.count, c.window);
      }
    }
  }

  /** The expected block of the file, or any block with another number. */
  lemma BlockHeard(c: Setup, s: SenderState, r: ReceiverState, number: u16, payload: bytes)
    requires Usable(c) && Linked(c, s, r) && r.status == Running
    requires number == BlockNumber(r.got) ==> r.got < s.sent && payload == c.blocks[r.got]
    ensures Linked(c, s, ReceiverStep(c, r, GotData(number, payload)).state)
    ensures ReceiverStep(c, r, GotData(number, payload)).state.got == if number == BlockNumber(r.got) then r.got + 1 else r.got
  {
    ConsistentStep(c, r, GotData(number, payload));
    if number == BlockNumber(r.got) {
      WrittenNext(c, r.got);
      assert |payload| < c.size <==> r.got + 1 == |c.blocks|;
    }
  }

  /** One block: accepted exactly when it is the next one of the file, never a namesake. */
  lemma DataStep(c: Setup, s: SenderState, r: ReceiverState, m: DataMsg)
    requires Usable(c) && Linked(c, s, r) && DataOk(c, s, m)
    requires m.index + 0x1_0000 > r.got
    ensures Linked(c, s, ReceiverStep(c, r, GotData(m.number, m.payload)).state)
    ensures r.status == Running ==>
              ReceiverStep(c, r, GotData(m.number, m.payload)).state.got ==
              if m.index == r.got then r.got + 1 else r.got
  {
    if r.status == Running {
      SameNumberIff(m.index, r.got);
      BlockHeard(c, s, r, m.number, m.payload);
    }
  }

  /** Blocks stay blocks of the file, and a window consists of such blocks. */
  lemma BurstOk(c: Setup, s: SenderState, s': SenderState)
    requires Usable(c) && SenderOk(c, s) && SenderOk(c, s') && s.base <= s'.base
    ensures forall m :: DataOk(c, s, m) ==> DataOk(c, s', m)
    ensures forall m :: m in Burst(c, s') ==> DataOk(c, s', m)
  {
  }

  lemma SenderMovesInv(c: Setup, st: State, input: Input)
    requires Usable(c) && Inv(c, st)
    requires SenderOk(c, SenderStep(c, st.snd, input))
    requires Linked(c, SenderStep(c, st.snd, input), st.rcv)
    ensures Inv(c, SenderMoves(c, st, input))
  {
    SenderStaysOk(c, st.snd, input);
    BurstOk(c, st.snd, SenderStep(c, st.snd, input));
  }

  lemma ReceiverMovesInv(c: Setup, st: State, input: Input)
    requires Usable(c) && Inv(c, st)
    requires Linked(c, st.snd, ReceiverStep(c, st.rcv, input).state)
    ensures Inv(c, ReceiverMoves(c, st, input))
  {
    ConsistentStep(c, st.rcv, input);
    var st' := ReceiverMoves(c, st, input);
    forall a | a in st'.acks
      ensures AckOk(st'.rcv, a)
    {
      if a in st.acks {
        assert AckOk(st.rcv, a);
      }
    }
  }

  /** Inputs that carry no block and no acknowledgement move nothing. */
  lemma QuietStep(c: Setup, s: SenderState, r: ReceiverState, input: Input)
    requires Usable(c) && Linked(c, s, r)
    requires !input.GotAck? && !input.GotData?
    ensures Linked(c, SenderStep(c, s, input), r)
    ensures Linked(c, s, ReceiverStep(c, r, input).state)
  {
  }

  lemma InvStep(c: Setup, st: State, step: Step)
    requires Usable(c) && Inv(c, st) && Enabled(c, st, step)
    ensures Inv(c, Apply(c, st, step))
  {
    SenderStaysOkAll(c, st.snd);
    match step
    case SenderGets(a) =>
      AckStep(c, st.snd, st.rcv, a);
      SenderMovesInv(c, st, GotAck(a.number));
    case ReceiverGets(m) =>
      DataStep(c, st.snd, st.rcv, m);
      ReceiverMovesInv(c, st, GotData(m.number, m.payload));
    case SenderTick | SenderNoise | SenderAbort =>
      var input := if step.SenderTick? then Timeout else if step.SenderNoise? then GotOther else GotError;
      QuietStep(c, st.snd, st.rcv, input);
      SenderMovesInv(c, st, input);
    case ReceiverTick | ReceiverNoise | ReceiverAbort =>
      var input := if step.ReceiverTick? then Timeout else if step.ReceiverNoise? then GotOther else GotError;
      QuietStep(c, st.snd, st.rcv, input);
      ReceiverMovesInv(c, st, input);
  }

  // ---------- runs ----------

  ghost predicate Legal(c: Setup, st: State, steps: seq<Step>)
    requires Usable(c) && SenderOk(c, st.snd)
    decreases |steps|
  {
    steps == [] || (Enabled(c, st, steps[0]) && Legal(c, Apply(c, st, steps[0]), steps[1..]))
  }

  ghost function Exec(c: Setup, st: State, steps: seq<Step>): (end: State)
    requires Usable(c) && SenderOk(c, st.snd)
    ensures SenderOk(c, end.snd)
    decreases |steps|
  {
    if steps == [] then st else Exec(c, Apply(c, st, steps[0]), steps[1..])
  }

  lemma {:induction false} InvRun(c: Setup, st: State, steps: seq<Step>)
    requires Usable(c) && Inv(c, st) && Legal(c, st, steps)
    ensures Inv(c, Exec(c, st, steps))
    decreases |steps|
  {
    if steps != [] {
      InvStep(c, st, steps[0]);
      InvRun(c, Apply(c, st, steps[0]), steps[1..]);
    }
  }

  /** Safety over every run with loss, duplication and age-bounded reordering, for every file
      length and window: what the receiver wrote is the decoding of exactly the first `got`
      blocks, in order, none skipped or repeated; and a sender that reports success has a finished
      receiver holding the whole source. */
  lemma Safety(c: Setup, init: State, steps: seq<Step>)
    requires Usable(c) && Init(c, init)
    requires Legal(c, init, steps)
    ensures var st := Exec(c, init, steps);
            && st.snd.base <= st.rcv.got <= st.snd.sent <= |c.blocks|
            && (st.rcv.status == Done <==> st.rcv.got == |c.blocks|)
            && st.rcv.disk == (if st.rcv.status == Done then Close(Written(c, st.rcv.got)) else Written(c, st.rcv.got))
            && (st.snd.status == Done ==> st.rcv.status == Done)
  {
    InitInv(c, init);
    InvRun(c, init, steps);
  }
}
