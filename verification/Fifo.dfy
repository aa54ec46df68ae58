/** The transfer over two order-preserving channels that may lose and duplicate datagrams. Every
    such run is a run of the unordered network that respects its age bounds. */
module Fifo {
  import opened Basics
  import Netascii
  import Packets
  import opened Window
  import opened Transfer
  import U = Unordered

  datatype State = State(snd: SenderState, rcv: ReceiverState, data: seq<U.DataMsg>, acks: seq<U.AckMsg>)

  datatype Step =
    | SenderTick
    | SenderNoise(payload: bytes)
    | SenderAbort(payload: bytes)
    | ReceiverTick
    | ReceiverNoise(payload: bytes)
    | ReceiverAbort(payload: bytes)
    | DeliverData
    | DeliverAck
    | LoseData(at: nat)
    | LoseAck(at: nat)
    | RepeatData(at: nat)
    | RepeatAck(at: nat)

  ghost predicate Init(c: Setup, st: State)
    requires Usable(c)
  {
    && st.snd == SenderStart(c)
    && st.rcv == ReceiverStart()
    && st.data == U.Burst(c, st.snd)
    && (forall i :: 0 <= i < |st.acks| ==> st.acks[i] == U.AckMsg(0, 0))
  }

  function Without<T>(s: seq<T>, i: nat): seq<T>
    requires i < |s|
  {
    s[..i] + s[i + 1..]
  }

  function Doubled<T>(s: seq<T>, i: nat): seq<T>
    requires i < |s|
  {
    s[..i] + [s[i]] + s[i..]
  }

  /** Noise is any datagram that an end has no use for: for the sender whatever is not an ACK or an
      ERROR, for the receiver whatever is not a DATA or an ERROR. An ERROR may reach either end at any
      time. */
  ghost predicate Enabled(st: State, step: Step) {
    match step
    case SenderNoise(payload) => !Packets.IsAck(payload) && !Packets.IsError(payload)
    case ReceiverNoise(payload) => !Packets.IsData(payload) && !Packets.IsError(payload)
    case SenderAbort(payload) => Packets.IsError(payload)
    case ReceiverAbort(payload) => Packets.IsError(payload)
    case DeliverData => st.data != []
    case DeliverAck => st.acks != []
    case LoseData(i) => i < |st.data|
    case RepeatData(i) => i < |st.data|
    case LoseAck(i) => i < |st.acks|
    case RepeatAck(i) => i < |st.acks|
    case _ => true
  }

  ghost function SenderMoves(c: Setup, st: State, input: Input): (st': State)
    requires Usable(c) && SenderOk(c, st.snd)
    ensures SenderOk(c, st'.snd)
  {
    U.SenderStaysOk(c, st.snd, input);
    var snd := SenderStep(c, st.snd, input);
    var burst := if st.snd.status == Running then U.Burst(c, snd) else [];
    st.(snd := snd, data := st.data + burst)
  }

  function ReceiverMoves(c: Setup, st: State, input: Input): State {
    var reply := ReceiverStep(c, st.rcv, input);
    st.(rcv := reply.state, acks := st.acks + U.AckMsgs(reply.state.got, reply.acks))
  }

  ghost function Apply(c: Setup, st: State, step: Step): (st': State)
    requires Usable(c) && SenderOk(c, st.snd) && Enabled(st, step)
    ensures SenderOk(c, st'.snd)
  {
    match step
    case SenderTick => SenderMoves(c, st, Timeout)
    case SenderNoise(_) => SenderMoves(c, st, GotOther)
    case SenderAbort(_) => SenderMoves(c, st, GotError)
    case ReceiverTick => ReceiverMoves(c, st, Timeout)
    case ReceiverNoise(_) => ReceiverMoves(c, st, GotOther)
    case ReceiverAbort(_) => ReceiverMoves(c, st, GotError)
    case DeliverAck => SenderMoves(c, st.(acks := st.acks[1..]), GotAck(st.acks[0].number))
    case DeliverData =>
      ReceiverMoves(c, st.(data := st.data[1..]), GotData(st.data[0].number, st.data[0].payload))
    case LoseData(i) => st.(data := Without(st.data, i))
    case LoseAck(i) => st.(acks := Without(st.acks, i))
    case RepeatData(i) => st.(data := Doubled(st.data, i))
    case RepeatAck(i) => st.(acks := Doubled(st.acks, i))
  }

  // ---------- what order preservation guarantees ----------

  /** Blocks in the channel are never more than a window out of order, nor a window behind the
      receiver: a retransmission starts at an acknowledged position. */
  ghost predicate DataOrdered(c: Setup, s: SenderState, r: ReceiverState, data: seq<U.DataMsg>) {
    && (forall i :: 0 <= i < |data| ==> r.got <= data[i].index + c.window)
    && (forall i :: 0 <= i < |data| ==> data[i].index < s.base + c.window)
    && (forall i, j :: 0 <= i < j < |data| ==> data[i].index < data[j].index + c.window)
  }

  /** Acknowledgements arrive in increasing order, at most one block behind the front. */
  ghost predicate AcksOrdered(s: SenderState, acks: seq<U.AckMsg>) {
    && (forall i :: 0 <= i < |acks| ==> s.base <= acks[i].count)
    && (forall i, j :: 0 <= i < j < |acks| ==> acks[i].count <= acks[j].count)
  }

  ghost predicate Inv(c: Setup, st: State) {
    && U.Linked(c, st.snd, st.rcv)
    && (forall i :: 0 <= i < |st.data| ==> U.DataOk(c, st.snd, st.data[i]))
    && (forall i :: 0 <= i < |st.acks| ==> U.AckOk(st.rcv, st.acks[i]))
    && DataOrdered(c, st.snd, st.rcv, st.data)
    && AcksOrdered(st.snd, st.acks)
  }

  lemma InitInv(c: Setup, st: State)
    requires Usable(c) && Init(c, st)
    ensures Inv(c, st)
  {
    assert c.blocks[..0] == [];
  }

  /** A fresh window at the end of the channel, whose oldest block is less than a window old. */
  lemma WindowAppended(c: Setup, s: SenderState, s': SenderState, r: ReceiverState, data: seq<U.DataMsg>, burst: seq<U.DataMsg>)
    requires DataOrdered(c, s, r, data) && s.base <= s'.base && r.got <= s'.base + c.window
    requires forall k :: 0 <= k < |burst| ==> s'.base + k == burst[k].index < s'.base + c.window
    ensures DataOrdered(c, s', r, data + burst)
  {
    var all, n := data + burst, |data|;
    forall i, j | 0 <= i < j < |all|
      ensures all[i].index < all[j].index + c.window
    {
      if n <= i {
        assert all[i] == burst[i - n] && all[j] == burst[j - n];
      }
    }
  }

  lemma SenderMovesInv(c: Setup, st: State, input: Input)
    requires Usable(c) && Inv(c, st)
    requires U.Linked(c, SenderStep(c, st.snd, input), st.rcv)
    requires AcksOrdered(SenderStep(c, st.snd, input), st.acks)
    ensures Inv(c, SenderMoves(c, st, input))
  {
    var s' := SenderStep(c, st.snd, input);
    var burst := if st.snd.status == Running then U.Burst(c, s') else [];
    U.SenderStaysOk(c, st.snd, input);
    U.BurstOk(c, st.snd, s');
    WindowAppended(c, st.snd, s', st.rcv, st.data, burst);
  }

  lemma ReceiverMovesInv(c: Setup, st: State, input: Input)
    requires Usable(c) && Inv(c, st)
    requires U.Linked(c, st.snd, ReceiverStep(c, st.rcv, input).state)
    requires DataOrdered(c, st.snd, ReceiverStep(c, st.rcv, input).state, st.data)
    ensures Inv(c, ReceiverMoves(c, st, input))
  {
    ConsistentStep(c, st.rcv, input);
    var st' := ReceiverMoves(c, st, input);
    var n := |st.acks|;
    forall i | 0 <= i < |st'.acks|
      ensures U.AckOk(st'.rcv, st'.acks[i])
      ensures i >= n ==> st'.acks[i].count == st'.rcv.got
      ensures i < n ==> st'.acks[i] == st.acks[i] && st.acks[i].count <= st.rcv.got
    {
      if i < n {
        assert U.AckOk(st.rcv, st.acks[i]);
      }
    }
  }

  lemma WithoutAt<T>(s: seq<T>, i: nat)
    requires i < |s|
    ensures |Without(s, i)| == |s| - 1
    ensures forall k :: 0 <= k < |s| - 1 ==> Without(s, i)[k] == s[if k < i then k else k + 1]
  {
  }

  lemma DoubledAt<T>(s: seq<T>, i: nat)
    requires i < |s|
    ensures |Doubled(s, i)| == |s| + 1
    ensures forall k :: 0 <= k < |s| + 1 ==> Doubled(s, i)[k] == s[if k <= i then k else k - 1]
  {
  }

  /** Losing or repeating one datagram in place keeps the order of a channel. */
  lemma DataLostInv(c: Setup, st: State, i: nat)
    requires Inv(c, st) && i < |st.data|
    ensures Inv(c, st.(data := Without(st.data, i)))
  {
    WithoutAt(st.data, i);
  }

  lemma DataRepeatedInv(c: Setup, st: State, i: nat)
    requires Usable(c) && Inv(c, st) && i < |st.data|
    ensures Inv(c, st.(data := Doubled(st.data, i)))
  {
    DoubledAt(st.data, i);
  }

  lemma AckLostInv(c: Setup, st: State, i: nat)
    requires Inv(c, st) && i < |st.acks|
    ensures Inv(c, st.(acks := Without(st.acks, i)))
  {
    WithoutAt(st.acks, i);
  }

  lemma AckRepeatedInv(c: Setup, st: State, i: nat)
    requires Inv(c, st) && i < |st.acks|
    ensures Inv(c, st.(acks := Doubled(st.acks, i)))
  {
    DoubledAt(st.acks, i);
  }

  lemma DataStaysOrdered(c: Setup, s: SenderState, r: ReceiverState, r': ReceiverState, data: seq<U.DataMsg>)
    requires data != [] && DataOrdered(c, s, r, data)
    requires r'.got == r.got || (data[0].index == r.got && r'.got == r.got + 1)
    ensures DataOrdered(c, s, r', data[1..])
  {
    var rest := data[1..];
    forall i | 0 <= i < |rest|
      ensures r'.got <= rest[i].index + c.window && rest[i].index < s.base + c.window
    {
      assert rest[i] == data[i + 1];
    }
    forall i, j | 0 <= i < j < |rest|
      ensures rest[i].index < rest[j].index + c.window
    {
      assert rest[i] == data[i + 1] && rest[j] == data[j + 1];
    }
  }

  lemma DeliverDataInv(c: Setup, st: State)
    requires Usable(c) && Inv(c, st) && st.data != []
    ensures Inv(c, Apply(c, st, DeliverData))
    ensures st.data[0].index + 0x1_0000 > st.rcv.got
  {
    var m := st.data[0];
    assert U.DataOk(c, st.snd, m);
    U.DataStep(c, st.snd, st.rcv, m);
    var rest := st.(data := st.data[1..]);
    assert rest.data == Without(st.data, 0);
    DataLostInv(c, st, 0);
    DataStaysOrdered(c, st.snd, st.rcv, ReceiverStep(c, st.rcv, GotData(m.number, m.payload)).state, st.data);
    ReceiverMovesInv(c, rest, GotData(m.number, m.payload));
  }

  lemma AcksStayOrdered(s: SenderState, s': SenderState, acks: seq<U.AckMsg>)
    requires acks != [] && AcksOrdered(s, acks) && s'.base <= Max(s.base, acks[0].count)
    ensures AcksOrdered(s', acks[1..])
  {
    var rest := acks[1..];
    forall i | 0 <= i < |rest|
      ensures s'.base <= rest[i].count
    {
      assert rest[i] == acks[i + 1];
    }
  }

  lemma DeliverAckInv(c: Setup, st: State)
    requires Usable(c) && Inv(c, st) && st.acks != []
    ensures Inv(c, Apply(c, st, DeliverAck))
    ensures st.acks[0].count + 0x1_0000 >= st.snd.base + 1 + c.window
  {
    var a := st.acks[0];
    assert U.AckOk(st.rcv, a);
    U.AckStep(c, st.snd, st.rcv, a);
    var rest := st.(acks := st.acks[1..]);
    assert rest.acks == Without(st.acks, 0);
    AckLostInv(c, st, 0);
    AcksStayOrdered(st.snd, SenderStep(c, st.snd, GotAck(a.number)), st.acks);
    SenderMovesInv(c, rest, GotAck(a.number));
  }

  /** A timeout, a stray datagram or an error, at either end. */
  lemma QuietInv(c: Setup, st: State, step: Step)
    requires Usable(c) && Inv(c, st) && Enabled(st, step)
    requires step.SenderTick? || step.SenderNoise? || step.SenderAbort? || step.ReceiverTick? || step.ReceiverNoise? || step.ReceiverAbort?
    ensures Inv(c, Apply(c, st, step))
  {
    var input := if step.SenderTick? || step.ReceiverTick? then Timeout
                 else if step.SenderNoise? || step.ReceiverNoise? then GotOther else GotError;
    U.QuietStep(c, st.snd, st.rcv, input);
    if step.SenderTick? || step.SenderNoise? || step.SenderAbort? {
      SenderMovesInv(c, st, input);
    } else {
      ReceiverMovesInv(c, st, input);
    }
  }

  lemma InvStep(c: Setup, st: State, step: Step)
    requires Usable(c) && Inv(c, st) && Enabled(st, step)
    ensures Inv(c, Apply(c, st, step))
  {
    match step
    case DeliverData => DeliverDataInv(c, st);
    case DeliverAck => DeliverAckInv(c, st);
    case LoseData(i) => DataLostInv(c, st, i);
    case RepeatData(i) => DataRepeatedInv(c, st, i);
    case LoseAck(i) => AckLostInv(c, st, i);
    case RepeatAck(i) => AckRepeatedInv(c, st, i);
    case _ => QuietInv(c, st, step);
  }

  // ---------- runs ----------

  ghost predicate Legal(c: Setup, st: State, steps: seq<Step>)
    requires Usable(c) && SenderOk(c, st.snd)
    decreases |steps|
  {
    steps == [] || (Enabled(st, steps[0]) && Legal(c, Apply(c, st, steps[0]), steps[1..]))
  }

  ghost function Exec(c: Setup, st: State, steps: seq<Step>): (end: State)
    requires Usable(c) && SenderOk(c, st.snd) && Legal(c, st, steps)
    ensures SenderOk(c, end.snd)
    decreases |steps|
  {
    if steps == [] then st else Exec(c, Apply(c, st, steps[0]), steps[1..])
  }

  lemma {:induction false} InvRun(c: Setup, st: State, steps: seq<Step>)
    requires Usable(c) && Inv(c, st) && Legal(c, st, steps)
    ensures Inv(c, Exec(c, st, steps))
    decreases |steps|
  {
    if steps != [] {
      InvStep(c, st, steps[0]);
      InvRun(c, Apply(c, st, steps[0]), steps[1..]);
    }
  }

  // ---------- refinement of the unordered network ----------

  ghost predicate Refines(st: State, u: U.State) {
    && st.snd == u.snd
    && st.rcv == u.rcv
    && (forall i :: 0 <= i < |st.data| ==> st.data[i] in u.data)
    && (forall i :: 0 <= i < |st.acks| ==> st.acks[i] in u.acks)
  }

  /** The unordered step that matches a channel step; losing and repeating need none. */
  function Matching(st: State, step: Step): Option<U.Step> {
    match step
    case SenderTick => Some(U.Step.SenderTick)
    case SenderNoise(_) => Some(U.Step.SenderNoise)
    case SenderAbort(_) => Some(U.Step.SenderAbort)
    case ReceiverTick => Some(U.Step.ReceiverTick)
    case ReceiverNoise(_) => Some(U.Step.ReceiverNoise)
    case ReceiverAbort(_) => Some(U.Step.ReceiverAbort)
    case DeliverData => if st.data == [] then None else Some(U.Step.ReceiverGets(st.data[0]))
    case DeliverAck => if st.acks == [] then None else Some(U.Step.SenderGets(st.acks[0]))
    case _ => None
  }

  lemma SenderMovesRefine(c: Setup, st: State, u: U.State, input: Input)
    requires Usable(c) && SenderOk(c, st.snd) && Refines(st, u)
    ensures SenderOk(c, SenderStep(c, u.snd, input))
    ensures Refines(SenderMoves(c, st, input), U.SenderMoves(c, u, input))
  {
    U.SenderStaysOk(c, st.snd, input);
  }

  lemma ReceiverMovesRefine(c: Setup, st: State, u: U.State, input: Input)
    requires Refines(st, u)
    ensures Refines(ReceiverMoves(c, st, input), U.ReceiverMoves(c, u, input))
  {
  }

  lemma DeliveryRefines(c: Setup, st: State, u: U.State, step: Step)
    requires Usable(c) && Inv(c, st) && Enabled(st, step) && Refines(st, u)
    requires step == DeliverData || step == DeliverAck
    ensures var m := Matching(st, step);
            m.Some? && U.Enabled(c, u, m.value) && Refines(Apply(c, st, step), U.Apply(c, u, m.value))
  {
    if step == DeliverData {
      DeliverDataInv(c, st);
      ReceiverMovesRefine(c, st.(data := st.data[1..]), u, GotData(st.data[0].number, st.data[0].payload));
    } else {
      DeliverAckInv(c, st);
      SenderMovesRefine(c, st.(acks := st.acks[1..]), u, GotAck(st.acks[0].number));
    }
  }

  lemma QuietRefines(c: Setup, st: State, u: U.State, step: Step)
    requires Usable(c) && Inv(c, st) && Enabled(st, step) && Refines(st, u)
    requires step.SenderTick? || step.SenderNoise? || step.SenderAbort? || step.ReceiverTick? || step.ReceiverNoise? || step.ReceiverAbort?
    ensures var m := Matching(st, step);
            m.Some? && U.Enabled(c, u, m.value) && Refines(Apply(c, st, step), U.Apply(c, u, m.value))
  {
    var input := if step.SenderTick? || step.ReceiverTick? then Timeout
                 else if step.SenderNoise? || step.ReceiverNoise? then GotOther else GotError;
    SenderMovesRefine(c, st, u, input);
    ReceiverMovesRefine(c, st, u, input);
  }

  lemma SubsetRefines(st: State, u: U.State, data: seq<U.DataMsg>, acks: seq<U.AckMsg>)
    requires Refines(st, u)
    requires forall m :: m in data ==> m in st.data
    requires forall a :: a in acks ==> a in st.acks
    ensures Refines(st.(data := data, acks := acks), u)
  {
    assert forall i :: 0 <= i < |data| ==> data[i] in data;
    assert forall i :: 0 <= i < |acks| ==> acks[i] in acks;
  }

  lemma ChannelRefines(c: Setup, st: State, u: U.State, step: Step)
    requires Usable(c) && SenderOk(c, st.snd) && Enabled(st, step) && Refines(st, u)
    requires step.LoseData? || step.RepeatData? || step.LoseAck? || step.RepeatAck?
    ensures Matching(st, step) == None && Refines(Apply(c, st, step), u)
  {
    match step
    case LoseData(i) => SubsetRefines(st, u, Without(st.data, i), st.acks);
    case RepeatData(i) => SubsetRefines(st, u, Doubled(st.data, i), st.acks);
    case LoseAck(i) => SubsetRefines(st, u, st.data, Without(st.acks, i));
    case RepeatAck(i) => SubsetRefines(st, u, st.data, Doubled(st.acks, i));
  }

  lemma StepRefines(c: Setup, st: State, u: U.State, step: Step)
    requires Usable(c) && Inv(c, st) && Enabled(st, step) && Refines(st, u)
    ensures match Matching(st, step)
            case None => Refines(Apply(c, st, step), u)
            case Some(m) => U.Enabled(c, u, m) && Refines(Apply(c, st, step), U.Apply(c, u, m))
  {
    match step
    case DeliverData => DeliveryRefines(c, st, u, step);
    case DeliverAck => DeliveryRefines(c, st, u, step);
    case LoseData(_) => ChannelRefines(c, st, u, step);
    case RepeatData(_) => ChannelRefines(c, st, u, step);
    case LoseAck(_) => ChannelRefines(c, st, u, step);
    case RepeatAck(_) => ChannelRefines(c, st, u, step);
    case _ => QuietRefines(c, st, u, step);
  }

  lemma {:induction false} RunRefinesFrom(c: Setup, st: State, u: U.State, steps: seq<Step>) returns (matching: seq<U.Step>)
    requires Usable(c) && Inv(c, st) && Legal(c, st, steps) && Refines(st, u)
    ensures U.Legal(c, u, matching)
    ensures Refines(Exec(c, st, steps), U.Exec(c, u, matching))
    decreases |steps|
  {
    if steps == [] {
      return [];
    }
    var next := Apply(c, st, steps[0]);
    StepRefines(c, st, u, steps[0]);
    InvStep(c, st, steps[0]);
    match Matching(st, steps[0])
    case None =>
      matching := RunRefinesFrom(c, next, u, steps[1..]);
    case Some(m) =>
      var rest := RunRefinesFrom(c, next, U.Apply(c, u, m), steps[1..]);
      matching := [m] + rest;
      assert matching[1..] == rest;
  }

  lemma MatchingRun(c: Setup, init: State, steps: seq<Step>) returns (u: U.State, matching: seq<U.Step>)
    requires Usable(c) && Init(c, init) && Legal(c, init, steps)
    ensures U.Init(c, u) && U.Legal(c, u, matching)
    ensures U.Exec(c, u, matching).snd == Exec(c, init, steps).snd
    ensures U.Exec(c, u, matching).rcv == Exec(c, init, steps).rcv
  {
    InitInv(c, init);
    u := U.State(init.snd, init.rcv,
                 set i | 0 <= i < init.snd.sent && i < |c.blocks| :: U.Msg(c, i), {U.AckMsg(0, 0)});
    matching := RunRefinesFrom(c, init, u, steps);
  }

  /** Order-preserving channels meet the age bounds: every run of theirs, with any loss and any
      duplication, is matched by a run of the unordered network that ends with the same sender and
      receiver. */
  lemma RunRefines(c: Setup, init: State, steps: seq<Step>)
    requires Usable(c) && Init(c, init)
    requires Legal(c, init, steps)
    ensures exists u: U.State, matching: seq<U.Step> ::
              && U.Init(c, u) && U.Legal(c, u, matching)
              && U.Exec(c, u, matching).snd == Exec(c, init, steps).snd
              && U.Exec(c, u, matching).rcv == Exec(c, init, steps).rcv
  {
    var u, matching := MatchingRun(c, init, steps);
  }

  /** Safety with no assumption beyond order preservation, for every window up to 65535 and any
      number of wraps of the block number. */
  lemma Safety(c: Setup, init: State, steps: seq<Step>)
    requires Usable(c) && Init(c, init)
    requires Legal(c, init, steps)
    ensures var st := Exec(c, init, steps);
            && st.snd.base <= st.rcv.got <= st.snd.sent <= |c.blocks|
            && (st.rcv.status == Done <==> st.rcv.got == |c.blocks|)
            && st.rcv.disk == (if st.rcv.status == Done then Close(Written(c, st.rcv.got)) else Written(c, st.rcv.got))
            && (st.snd.status == Done ==> st.rcv.status == Done)
  {
    var u, matching := MatchingRun(c, init, steps);
    U.Safety(c, u, matching);
  }
}
