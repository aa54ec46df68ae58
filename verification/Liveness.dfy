/** What still happens when the network stops losing datagrams, and how much the sender can send. */
module Liveness {
  import opened Basics
  import opened Window
  import opened Transfer
  import U = Unordered
  import opened Fifo

  // ---------- no deadlock ----------

  ghost predicate Token(st: State, k: nat) {
    k < |st.acks| && st.acks[k].count > st.snd.base
  }

  /** The tail of the current window that the receiver still lacks fills the DATA channel, and
      accepting it must trigger an acknowledgement. */
  ghost predicate TailComing(c: Setup, st: State)
    requires U.Linked(c, st.snd, st.rcv)
  {
    && st.snd.status == Running
    && st.data == U.Burst(c, st.snd)[st.rcv.got - st.snd.base..]
    && (st.rcv.inWindow + (st.snd.sent - st.rcv.got) >= c.window || st.snd.sent == |c.blocks|)
  }

  /** A whole copy of the current window is the last thing in the DATA channel. */
  ghost predicate WindowComing(c: Setup, st: State)
    requires SenderOk(c, st.snd)
  {
    var n := st.snd.sent - st.snd.base;
    n <= |st.data| && st.data[|st.data| - n..] == U.Burst(c, st.snd)
  }

  ghost predicate Promise(c: Setup, st: State)
    requires U.Linked(c, st.snd, st.rcv)
  {
    st.rcv.status == Running && (TailComing(c, st) || WindowComing(c, st))
  }

  /** A finished receiver is silent, so its last acknowledgement must still be on the way. */
  ghost predicate LastAckQueued(c: Setup, st: State) {
    st.rcv.status == Done ==> exists i :: 0 <= i < |st.acks| && st.acks[i].count == |c.blocks|
  }

  ghost predicate Progressing(c: Setup, st: State, token: Option<nat>)
    requires Usable(c)
  {
    && Inv(c, st)
    && st.snd.status == Running
    && (st.rcv.status == Running || st.rcv.status == Done)
    && LastAckQueued(c, st)
    && (if token.Some? then Token(st, token.value) else Promise(c, st))
  }

  function Rank(st: State, token: Option<nat>): nat {
    if token.Some? then token.value else |st.acks| + |st.data|
  }

  /** Everything the delivery of the first block in the channel does. */
  ghost predicate BlockTaken(c: Setup, st: State, st': State)
    requires st.data != []
  {
    var r, r' := st.rcv, st'.rcv;
    && Inv(c, st') && st'.snd == st.snd && st'.data == st.data[1..]
    && (if st.data[0].index == r.got then
          && r'.got == r.got + 1
          && (r'.status == if r'.got == |c.blocks| then Done else Running)
          && (if r'.got == |c.blocks| || r.inWindow + 1 >= c.window then
                st'.acks == st.acks + [U.AckMsg(r'.got, AckNumber(r'.got))]
                && (r'.status == Running ==> r'.inWindow == 0)
              else st'.acks == st.acks && r'.inWindow == r.inWindow + 1)
        else
          && r'.got == r.got && r'.status == Running
          && st'.acks == st.acks + [U.AckMsg(r.got, AckNumber(r.got))])
  }

  lemma DataEffect(c: Setup, st: State)
    requires Usable(c) && Inv(c, st) && st.data != [] && st.rcv.status == Running
    ensures BlockTaken(c, st, Apply(c, st, DeliverData))
  {
    var m := st.data[0];
    assert U.DataOk(c, st.snd, m);
    DeliverDataInv(c, st);
    U.DataStep(c, st.snd, st.rcv, m);
    ConsistentStep(c, st.rcv, GotData(m.number, m.payload));
    var reply := ReceiverStep(c, st.rcv, GotData(m.number, m.payload));
    var st' := Apply(c, st, DeliverData);
    assert st'.acks == st.acks + U.AckMsgs(reply.state.got, reply.acks);
    if reply.acks == [] {
      assert U.AckMsgs(reply.state.got, reply.acks) == [];
    } else {
      assert U.AckMsgs(reply.state.got, reply.acks) == [U.AckMsg(st'.rcv.got, AckNumber(st'.rcv.got))];
    }
  }

  /** What a delivery to a receiver that is owed a window leaves: the promise, or a new
      acknowledgement that advances the sender. */
  ghost predicate PromiseKept(c: Setup, st: State, st': State) {
    Inv(c, st') && (Promise(c, st') || (|st'.acks| == |st.acks| + 1 && Token(st', |st.acks|)))
  }

  /** Delivering a block to a receiver that is owed a window brings the window nearer or produces
      an acknowledgement that advances the sender. */
  lemma DataKeepsPromise(c: Setup, st: State)
    requires Usable(c) && Inv(c, st) && st.snd.status == Running && Promise(c, st)
    ensures st.data != []
    ensures PromiseKept(c, st, Apply(c, st, DeliverData))
  {
    assert st.data != [];
    DataEffect(c, st);
    if TailComing(c, st) {
      TailDelivered(c, st, Apply(c, st, DeliverData));
    } else {
      WindowNearer(c, st, Apply(c, st, DeliverData));
    }
  }

  lemma DropOne<T>(s: seq<T>, k: nat)
    requires k < |s|
    ensures s[k..][1..] == s[k + 1..]
  {
  }

  lemma TailDelivered(c: Setup, st: State, st': State)
    requires Usable(c) && Inv(c, st) && st.snd.status == Running && st.rcv.status == Running
    requires st.data != [] && TailComing(c, st) && BlockTaken(c, st, st')
    ensures PromiseKept(c, st, st')
  {
    assert st.data[0] == U.Msg(c, st.rcv.got);
    if st'.acks == st.acks {
      DropOne(U.Burst(c, st.snd), st.rcv.got - st.snd.base);
      assert TailComing(c, st');
    }
  }

  lemma WindowNearer(c: Setup, st: State, st': State)
    requires Usable(c) && Inv(c, st) && st.snd.status == Running && st.rcv.status == Running
    requires st.data != [] && WindowComing(c, st) && BlockTaken(c, st, st')
    ensures PromiseKept(c, st, st')
  {
    if |st.data| > st.snd.sent - st.snd.base {
      WindowStillComing(c, st, st');
    } else {
      assert st.data[0..] == st.data;
      assert st.data == U.Burst(c, st.snd);
      WindowStarts(c, st, st');
    }
  }

  lemma WindowStillComing(c: Setup, st: State, st': State)
    requires SenderOk(c, st.snd) && WindowComing(c, st) && |st.data| > st.snd.sent - st.snd.base
    requires st'.snd == st.snd && st'.data == st.data[1..]
    ensures WindowComing(c, st')
  {
    var n := st.snd.sent - st.snd.base;
    assert st'.data[|st'.data| - n..] == st.data[|st.data| - n..];
  }

  /** The window itself is next. */
  lemma WindowStarts(c: Setup, st: State, st': State)
    requires Usable(c) && Inv(c, st) && st.snd.status == Running && st.rcv.status == Running
    requires st.data != [] && st.data == U.Burst(c, st.snd) && BlockTaken(c, st, st')
    ensures PromiseKept(c, st, st')
  {
    assert st.data[0] == U.Msg(c, st.snd.base);
    if st.rcv.got == st.snd.base {
      assert U.Burst(c, st.snd)[0..] == U.Burst(c, st.snd);
      TailDelivered(c, st, st');
    }
  }

  lemma DataKeepsLastAck(c: Setup, st: State)
    requires Usable(c) && Inv(c, st) && st.data != [] && LastAckQueued(c, st)
    requires st.rcv.status == Running || st.rcv.status == Done
    ensures var st' := Apply(c, st, DeliverData);
            && LastAckQueued(c, st') && st.acks <= st'.acks
            && |st'.acks| <= |st.acks| + 1 && st'.snd == st.snd
            && (st'.rcv.status == Running || st'.rcv.status == Done)
  {
    var st' := Apply(c, st, DeliverData);
    if st.rcv.status == Done {
      assert st'.acks == st.acks + U.AckMsgs(st.rcv.got, []) == st.acks;
      var i :| 0 <= i < |st.acks| && st.acks[i].count == |c.blocks|;
      assert st'.acks[i].count == |c.blocks|;
    } else {
      DataEffect(c, st);
      if st'.rcv.status == Done {
        assert st'.acks[|st.acks|].count == |c.blocks|;
      }
    }
  }

  /** An acknowledgement makes the sender repeat its window, and advance if it can. */
  lemma AckDelivered(c: Setup, st: State)
    requires Usable(c) && Inv(c, st) && st.snd.status == Running && st.data == [] && st.acks != []
    ensures var st' := Apply(c, st, DeliverAck);
            && Inv(c, st') && st'.rcv == st.rcv && st'.acks == st.acks[1..]
            && st'.data == U.Burst(c, st'.snd)
            && st'.snd.base == Max(st.snd.base, st.acks[0].count)
            && (st'.snd.status == Running || st'.snd.status == Done)
  {
    DeliverAckInv(c, st);
    assert U.AckOk(st.rcv, st.acks[0]);
    U.AckStep(c, st.snd, st.rcv, st.acks[0]);
    assert [] + U.Burst(c, Apply(c, st, DeliverAck).snd) == U.Burst(c, Apply(c, st, DeliverAck).snd);
  }

  lemma Prepend(c: Setup, st: State, step: Step, rest: seq<Step>)
    requires Usable(c) && SenderOk(c, st.snd) && Enabled(st, step)
    requires Legal(c, Apply(c, st, step), rest)
    ensures Legal(c, st, [step] + rest)
    ensures Exec(c, st, [step] + rest) == Exec(c, Apply(c, st, step), rest)
  {
    assert ([step] + rest)[1..] == rest;
  }

  /** Nothing is lost, repeated or overtaken, and no timer fires. */
  ghost predicate OnlyDeliveries(steps: seq<Step>) {
    forall i :: 0 <= i < |steps| ==> steps[i] == DeliverData || steps[i] == DeliverAck
  }

  /** Deliveries that complete the transfer. */
  ghost predicate Completes(c: Setup, st: State, steps: seq<Step>)
    requires Usable(c) && SenderOk(c, st.snd)
  {
    && OnlyDeliveries(steps) && Legal(c, st, steps)
    && Exec(c, st, steps).snd.status == Done && Exec(c, st, steps).rcv.status == Done
  }

  lemma CompletesCons(c: Setup, st: State, step: Step, rest: seq<Step>)
    requires Usable(c) && SenderOk(c, st.snd) && Enabled(st, step)
    requires step == DeliverData || step == DeliverAck
    requires Completes(c, Apply(c, st, step), rest)
    ensures Completes(c, st, [step] + rest)
  {
    Prepend(c, st, step, rest);
  }

  /** With a progress token, or a window on its way, plain in-order delivery of everything that
      was sent completes the transfer. */
  lemma {:induction false} DeliverEverything(c: Setup, st: State, token: Option<nat>) returns (steps: seq<Step>)
    requires Usable(c) && Progressing(c, st, token)
    ensures Completes(c, st, steps)
    decreases |c.blocks| - st.snd.base, Rank(st, token), |st.data|
  {
    if st.data != [] {
      var token' := TokenAfterData(c, st, token);
      var rest := DeliverEverything(c, Apply(c, st, DeliverData), token');
      CompletesCons(c, st, DeliverData, rest);
      return [DeliverData] + rest;
    }
    NothingButAcks(c, st, token);
    var next := Apply(c, st, DeliverAck);
    var rest: seq<Step> := [];
    if next.snd.status == Running {
      var token' := NextToken(c, st, token);
      rest := DeliverEverything(c, next, token');
    }
    CompletesCons(c, st, DeliverAck, rest);
    steps := [DeliverAck] + rest;
  }

  /** With the DATA channel empty, an acknowledgement is on its way. */
  lemma NothingButAcks(c: Setup, st: State, token: Option<nat>)
    requires Usable(c) && Progressing(c, st, token) && st.data == []
    ensures token.Some? && st.acks != []
    ensures var next := Apply(c, st, DeliverAck);
            && next.snd.base >= st.snd.base
            && (next.snd.base == st.snd.base ==> st.acks[0].count <= st.snd.base)
            && (next.snd.status == Running || Completes(c, next, []))
  {
    if token == None {
      DataKeepsPromise(c, st);
    } else {
      AckDelivered(c, st);
    }
  }

  lemma TokenAfterData(c: Setup, st: State, token: Option<nat>) returns (token': Option<nat>)
    requires Usable(c) && Progressing(c, st, token) && st.data != []
    ensures var next := Apply(c, st, DeliverData);
            && Progressing(c, next, token')
            && next.snd == st.snd && Rank(next, token') <= Rank(st, token) && |next.data| < |st.data|
  {
    var next := Apply(c, st, DeliverData);
    DeliverDataInv(c, st);
    DataKeepsLastAck(c, st);
    token' := token;
    if token == None {
      DataKeepsPromise(c, st);
      if !Promise(c, next) {
        token' := Some(|st.acks|);
      }
    } else {
      assert next.acks[token.value] == st.acks[token.value];
    }
  }

  lemma NextToken(c: Setup, st: State, token: Option<nat>) returns (token': Option<nat>)
    requires Usable(c) && Progressing(c, st, token) && token.Some? && st.data == []
    requires Apply(c, st, DeliverAck).snd.status == Running
    ensures Progressing(c, Apply(c, st, DeliverAck), token')
    ensures st.acks[0].count <= st.snd.base ==> token'.Some? && token'.value < token.value
  {
    AckDelivered(c, st);
    var next := Apply(c, st, DeliverAck);
    if st.rcv.status == Done {
      var i := LastAckStays(c, st, next);
      token' := if st.acks[0].count <= st.snd.base then Some(token.value - 1) else Some(i);
    } else if st.acks[0].count <= st.snd.base {
      token' := Some(token.value - 1);
    } else {
      token' := None;
      FreshWindow(c, next);
    }
  }

  /** An acknowledgement that does not finish the transfer is not the last one. */
  lemma LastAckStays(c: Setup, st: State, next: State) returns (i: nat)
    requires Usable(c) && Inv(c, next) && LastAckQueued(c, st) && st.rcv.status == Done && st.acks != []
    requires next.rcv == st.rcv && next.acks == st.acks[1..] && next.snd.status == Running
    requires next.snd.base >= st.acks[0].count
    ensures LastAckQueued(c, next) && Token(next, i)
  {
    var j: nat :| j < |st.acks| && st.acks[j].count == |c.blocks|;
    i := j - 1;
    assert next.acks[i] == st.acks[j];
  }

  lemma FreshWindow(c: Setup, st: State)
    requires SenderOk(c, st.snd) && st.data == U.Burst(c, st.snd)
    requires st.snd.status == Running
    ensures WindowComing(c, st)
  {
    assert st.data[0..] == st.data;
  }

  lemma TickSendsWindow(c: Setup, st: State)
    requires Usable(c) && Inv(c, st)
    requires st.rcv.status == Running && st.snd.status == Running && st.snd.attempt < c.sendRetries
    ensures Progressing(c, Apply(c, st, SenderTick), None)
  {
    var next := Apply(c, st, SenderTick);
    InvStep(c, st, SenderTick);
    var burst := U.Burst(c, next.snd);
    assert next.data == st.data + burst;
    assert next.data[|st.data|..] == burst;
    assert WindowComing(c, next);
  }

  /** No deadlock: from every reachable state with an unfinished receiver and a sender that may
      still time out once, one timeout followed by lossless in-order delivery completes the
      transfer, whatever was lost before and wherever inside a window the receiver stands. */
  lemma NoDeadlock(c: Setup, init: State, past: seq<Step>) returns (deliveries: seq<Step>)
    requires Usable(c) && Init(c, init) && Legal(c, init, past)
    requires Exec(c, init, past).rcv.status == Running
    requires Exec(c, init, past).snd.status == Running && Exec(c, init, past).snd.attempt < c.sendRetries
    ensures OnlyDeliveries(deliveries)
    ensures Legal(c, Exec(c, init, past), [SenderTick] + deliveries)
    ensures var end := Exec(c, Exec(c, init, past), [SenderTick] + deliveries);
            && end.snd.status == Done && end.rcv.status == Done
            && end.rcv.disk == Close(Written(c, |c.blocks|))
  {
    InitInv(c, init);
    InvRun(c, init, past);
    deliveries := Recover(c, Exec(c, init, past));
    InvRun(c, Exec(c, init, past), [SenderTick] + deliveries);
  }

  lemma Recover(c: Setup, st: State) returns (deliveries: seq<Step>)
    requires Usable(c) && Inv(c, st)
    requires st.rcv.status == Running && st.snd.status == Running && st.snd.attempt < c.sendRetries
    ensures OnlyDeliveries(deliveries)
    ensures Legal(c, st, [SenderTick] + deliveries)
    ensures var end := Exec(c, st, [SenderTick] + deliveries);
            end.snd.status == Done && end.rcv.status == Done
  {
    TickSendsWindow(c, st);
    deliveries := DeliverEverything(c, Apply(c, st, SenderTick), None);
    Prepend(c, st, SenderTick, deliveries);
  }

  // ---------- a loss-free transfer, round by round ----------

  function Count(steps: seq<Step>, step: Step): nat {
    if steps == [] then 0 else (if steps[0] == step then 1 else 0) + Count(steps[1..], step)
  }

  /** Both ends agree inside a round: the receiver counts exactly the blocks of this window. */
  ghost predicate InRound(c: Setup, st: State)
    requires Usable(c)
  {
    && Inv(c, st)
    && st.snd.status == Running && st.rcv.status == Running
    && st.rcv.got < st.snd.sent
    && st.rcv.inWindow == st.rcv.got - st.snd.base
    && st.data == U.Burst(c, st.snd)[st.rcv.got - st.snd.base..]
    && st.acks == []
  }

  /** The window is through: only its acknowledgement is on the way. */
  ghost predicate RoundOver(c: Setup, st: State)
    requires Usable(c)
  {
    && Inv(c, st)
    && st.snd.status == Running && st.rcv.got == st.snd.sent
    && (st.rcv.status == Running ==> st.rcv.inWindow == 0)
    && (st.rcv.status == Running || st.rcv.status == Done)
    && st.data == []
    && st.acks == [U.AckMsg(st.rcv.got, AckNumber(st.rcv.got))]
  }

  lemma RoundStep(c: Setup, st: State)
    requires Usable(c) && InRound(c, st)
    ensures st.data != []
    ensures var st' := Apply(c, st, DeliverData);
            && st'.snd == st.snd && st'.rcv.got == st.rcv.got + 1
            && if st'.rcv.got < st.snd.sent then InRound(c, st') else RoundOver(c, st')
  {
    assert st.rcv.got < st.snd.sent;
    assert st.data[0] == U.Msg(c, st.rcv.got);
    DataEffect(c, st);
    DropOne(U.Burst(c, st.snd), st.rcv.got - st.snd.base);
  }

  lemma RoundEnd(c: Setup, st: State)
    requires Usable(c) && RoundOver(c, st)
    ensures var st' := Apply(c, st, DeliverAck);
            && Inv(c, st') && st'.snd.base == st.snd.sent && st'.rcv.got == st.snd.sent
            && if st.snd.sent < |c.blocks| then InRound(c, st')
               else st'.snd.status == Done && st'.rcv.status == Done && st'.data == [] && st'.acks == []
  {
    AckDelivered(c, st);
    var st' := Apply(c, st, DeliverAck);
    assert st'.data == U.Burst(c, st'.snd)[0..];
  }

  ghost predicate Finished(st: State) {
    st.snd.status == Done && st.rcv.status == Done && st.data == [] && st.acks == []
  }

  /** Where a loss-free run can be between two deliveries. */
  ghost predicate InRounds(c: Setup, st: State)
    requires Usable(c)
  {
    InRound(c, st) || RoundOver(c, st) || Finished(st)
  }

  lemma FinishedStays(c: Setup, st: State, steps: seq<Step>)
    requires Usable(c) && SenderOk(c, st.snd) && Finished(st)
    requires Legal(c, st, steps) && OnlyDeliveries(steps)
    ensures steps == []
  {
  }

  lemma Unfold(c: Setup, st: State, steps: seq<Step>)
    requires Usable(c) && SenderOk(c, st.snd) && Legal(c, st, steps) && steps != []
    requires OnlyDeliveries(steps)
    ensures Enabled(st, steps[0]) && Legal(c, Apply(c, st, steps[0]), steps[1..])
    ensures (steps[0] == DeliverData || steps[0] == DeliverAck) && OnlyDeliveries(steps[1..])
    ensures Exec(c, st, steps) == Exec(c, Apply(c, st, steps[0]), steps[1..])
  {
  }

  /** Inside a round only the next block can be delivered. */
  lemma BlockDelivered(c: Setup, st: State, next: State)
    requires Usable(c) && (InRound(c, st) || RoundOver(c, st))
    requires st.data != [] && next == Apply(c, st, DeliverData)
    ensures next.snd == st.snd && next.rcv.got == st.rcv.got + 1
    ensures InRound(c, next) || RoundOver(c, next)
  {
    RoundStep(c, st);
  }

  /** At the end of a round only the acknowledgement of its window can be delivered. */
  lemma WindowAcknowledged(c: Setup, st: State, next: State)
    requires Usable(c) && (InRound(c, st) || RoundOver(c, st))
    requires st.acks != [] && next == Apply(c, st, DeliverAck)
    ensures next.snd.base == next.rcv.got == st.rcv.got == st.snd.sent
    ensures if st.snd.sent < |c.blocks| then InRound(c, next) else Finished(next)
  {
    RoundEnd(c, st);
  }

  function Rounds(left: nat, window: nat): nat
    requires window > 0
  {
    if left <= window then 1 else 1 + Rounds(left - window, window)
  }

  lemma {:induction false} RoundsIsCeiling(left: nat, window: nat)
    requires left > 0 && window > 0
    ensures (Rounds(left, window) - 1) * window < left <= Rounds(left, window) * window
  {
    if left > window {
      RoundsIsCeiling(left - window, window);
      var r := Rounds(left - window, window);
      assert (r + 1) * window == r * window + window;
      assert r * window == (r - 1) * window + window;
    }
  }

  /** Acknowledgements still needed. */
  function RoundsLeft(c: Setup, s: SenderState): nat
    requires c.window > 0
  {
    if s.status == Done || s.base > |c.blocks| then 0 else Rounds(|c.blocks| - s.base, c.window)
  }

  /** One delivery hands over one block, or uses up one acknowledgement. */
  lemma OneDelivery(c: Setup, st: State, step: Step, next: State)
    requires Usable(c) && (InRound(c, st) || RoundOver(c, st))
    requires Enabled(st, step) && (step == DeliverData || step == DeliverAck) && next == Apply(c, st, step)
    ensures InRounds(c, next)
    ensures next.rcv.got == st.rcv.got + (if step == DeliverData then 1 else 0)
    ensures RoundsLeft(c, st.snd) == RoundsLeft(c, next.snd) + (if step == DeliverAck then 1 else 0)
  {
    if step == DeliverData {
      BlockDelivered(c, st, next);
    } else {
      WindowAcknowledged(c, st, next);
      RoundCounts(c, st.snd, next.snd);
    }
  }

  lemma RoundCounts(c: Setup, s: SenderState, s': SenderState)
    requires Usable(c) && SenderOk(c, s) && SenderOk(c, s') && s.status == Running
    requires s'.base == s.sent && (s'.status == Running || s'.status == Done)
    ensures RoundsLeft(c, s) == RoundsLeft(c, s') + 1
  {
  }

  /** However a loss-free run continues, it counts off blocks and rounds. */
  lemma {:induction false} DeliveriesCounted(c: Setup, st: State, steps: seq<Step>)
    requires Usable(c) && SenderOk(c, st.snd) && InRounds(c, st)
    requires Legal(c, st, steps) && OnlyDeliveries(steps)
    ensures var end := Exec(c, st, steps);
            && InRounds(c, end)
            && Count(steps, DeliverData) == end.rcv.got - st.rcv.got
            && Count(steps, DeliverAck) == RoundsLeft(c, st.snd) - RoundsLeft(c, end.snd)
            && |steps| == Count(steps, DeliverData) + Count(steps, DeliverAck)
    decreases |steps|
  {
    if Finished(st) {
      FinishedStays(c, st, steps);
    } else if steps != [] {
      Unfold(c, st, steps);
      var next := Apply(c, st, steps[0]);
      OneDelivery(c, st, steps[0], next);
      DeliveriesCounted(c, next, steps[1..]);
    }
  }

  lemma InitInRound(c: Setup, init: State)
    requires Usable(c) && Init(c, init) && init.acks == []
    ensures InRound(c, init)
  {
    InitInv(c, init);
    assert init.data == U.Burst(c, init.snd)[0..];
  }

  /** Every loss-free run that ends in success, however it came about, delivers each of the N
      blocks once and takes exactly `Rounds(N, window)`, that is ceil(N / window),
      acknowledgements. */
  lemma LossFreeRounds(c: Setup, init: State, steps: seq<Step>)
    requires Usable(c) && Init(c, init) && init.acks == []
    requires Legal(c, init, steps) && OnlyDeliveries(steps)
    requires Exec(c, init, steps).snd.status == Done
    ensures Count(steps, DeliverData) == |c.blocks|
    ensures Count(steps, DeliverAck) == Rounds(|c.blocks|, c.window)
    ensures |steps| == |c.blocks| + Rounds(|c.blocks|, c.window)
  {
    InitInRound(c, init);
    DeliveriesCounted(c, init, steps);
    Safety(c, init, steps);
  }

  /** There is such a run. */
  lemma LossFreeRunExists(c: Setup, init: State) returns (steps: seq<Step>)
    requires Usable(c) && Init(c, init) && init.acks == []
    ensures Legal(c, init, steps) && OnlyDeliveries(steps)
    ensures Exec(c, init, steps).snd.status == Done
    ensures Count(steps, DeliverAck) == Rounds(|c.blocks|, c.window)
    ensures Exec(c, init, steps).rcv.disk == Close(Written(c, |c.blocks|))
  {
    InitInRound(c, init);
    assert TailComing(c, init);
    steps := DeliverEverything(c, init, None);
    LossFreeRounds(c, init, steps);
    Safety(c, init, steps);
  }

  /** At the start of every round of every loss-free run the channels hold the fresh window and
      nothing else, and the receiver's counter is zero; when the sender is done nothing is left
      on the way. */
  lemma LossFreeRoundStart(c: Setup, init: State, steps: seq<Step>)
    requires Usable(c) && Init(c, init) && init.acks == []
    requires Legal(c, init, steps) && OnlyDeliveries(steps)
    ensures var st := Exec(c, init, steps);
            && (st.snd.status == Running && st.rcv.got == st.snd.base ==>
                  st.data == U.Burst(c, st.snd) && st.acks == [] && st.rcv.inWindow == 0)
            && (st.snd.status == Running || Finished(st))
  {
    InitInRound(c, init);
    DeliveriesCounted(c, init, steps);
    var st := Exec(c, init, steps);
    if InRound(c, st) && st.rcv.got == st.snd.base {
      assert U.Burst(c, st.snd)[0..] == U.Burst(c, st.snd);
    }
  }

  // ---------- how often the sender can send a window ----------

  /** A timeout, or an acknowledgement that pops at least one block. */
  predicate UsefulInput(c: Setup, s: SenderState, input: Input)
    requires s.base <= s.sent
  {
    input == Timeout || (input.GotAck? && SenderStep(c, s, input).base > s.base)
  }

  ghost predicate UsefulInputs(c: Setup, s: SenderState, inputs: seq<Input>)
    requires s.base <= s.sent
    decreases |inputs|
  {
    inputs == [] || s.status != Running ||
    (UsefulInput(c, s, inputs[0]) && UsefulInputs(c, SenderStep(c, s, inputs[0]), inputs[1..]))
  }

  /** Windows sent from here on: one now, and one after every input that leaves the sender running. */
  function WindowsSent(c: Setup, s: SenderState, inputs: seq<Input>): nat
    requires s.base <= s.sent
    decreases |inputs|
  {
    if s.status != Running then 0
    else 1 + (if inputs == [] then 0 else WindowsSent(c, SenderStep(c, s, inputs[0]), inputs[1..]))
  }

  lemma ProductBounds(left: nat, k: nat, per: nat)
    requires k <= left
    ensures left >= 1 ==> left * per >= per
    ensures k >= 1 ==> (left - k) * per <= left * per - per
  {
    assert (left - k) * per + k * per == left * per;
    if k >= 1 {
      assert k * per == (k - 1) * per + per;
    }
    if left >= 1 {
      assert left * per == (left - 1) * per + per;
    }
  }

  lemma {:induction false} WindowsBounded(c: Setup, s: SenderState, inputs: seq<Input>)
    requires Usable(c) && SenderOk(c, s) && UsefulInputs(c, s, inputs)
    ensures s.status == Running ==>
              WindowsSent(c, s, inputs) <= (|c.blocks| - s.base) * (c.sendRetries + 1) - s.attempt
    decreases |inputs|
  {
    if s.status == Running {
      var per, left := c.sendRetries + 1, |c.blocks| - s.base;
      ProductBounds(left, 0, per);
      if inputs != [] {
        var s' := SenderStep(c, s, inputs[0]);
        U.SenderStaysOk(c, s, inputs[0]);
        WindowsBounded(c, s', inputs[1..]);
        ProductBounds(left, s'.base - s.base, per);
        assert WindowsSent(c, s, inputs) == 1 + WindowsSent(c, s', inputs[1..]);
      }
    }
  }

  /** Fed only timeouts and advancing acknowledgements, the sender sends at most
      N * (retries + 1) windows, however the inputs are arranged. */
  lemma SenderStops(c: Setup, inputs: seq<Input>)
    requires Usable(c) && UsefulInputs(c, SenderStart(c), inputs)
    ensures WindowsSent(c, SenderStart(c), inputs) <= |c.blocks| * (c.sendRetries + 1)
  {
    WindowsBounded(c, SenderStart(c), inputs);
  }
}
